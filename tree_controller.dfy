/**
 * `TreeController`: owns a root node and rebuilds the tree below it from the
 * child lists its delegate gives, reporting whether anything changed; it
 * also searches for nodes, visits them and normalises selections.
 */
module TreeControllerModel {
  import opened Wrappers
  import opened NodeTree

  /**
   * The delegate's `childNodesFor` answer for each node, as the data it
   * reads at the time of the rebuild determines it; nil for no list.
   */
  type ChildNodesFor = nat -> Option<seq<nat>>

  /** `delegate?.treeController(treeController:childNodesFor:) ?? [Node]()`. */
  function Answer(childNodesFor: ChildNodesFor, n: nat): seq<nat> {
    childNodesFor(n).GetOr([])
  }

  /** Every node the delegate lists for `n` names `n` as its parent. */
  predicate AnswersLinked(nodes: Nodes, childNodesFor: ChildNodesFor) {
    forall n, k :: n in nodes && 0 <= k < |Answer(childNodesFor, n)| ==> ChildOf(nodes, n, Answer(childNodesFor, n)[k])
  }

  /** What a rebuild reads of a node besides its children: its parent and whether it can have children. */
  datatype NodeShape = NodeShape(parent: Option<nat>, canHaveChildNodes: bool)

  function ShapeOf(nodes: Nodes): map<nat, NodeShape> {
    map m | m in nodes :: NodeShape(nodes[m].parent, nodes[m].canHaveChildNodes)
  }

  /** `AnswersLinked` for the shape: each listed node was created after `n` and before `nextID`. */
  predicate AnswersShaped(shape: map<nat, NodeShape>, nextID: nat, childNodesFor: ChildNodesFor) {
    forall n, k :: n in shape && 0 <= k < |Answer(childNodesFor, n)| ==>
      Answer(childNodesFor, n)[k] in shape && n < Answer(childNodesFor, n)[k] < nextID
  }

  lemma AnswersLinkedShaped(nodes: Nodes, nextID: nat, childNodesFor: ChildNodesFor)
    requires WellFormed(nodes, nextID) && AnswersLinked(nodes, childNodesFor)
    ensures AnswersShaped(ShapeOf(nodes), nextID, childNodesFor)
  {
    forall n, k | n in ShapeOf(nodes) && 0 <= k < |Answer(childNodesFor, n)|
      ensures Answer(childNodesFor, n)[k] in ShapeOf(nodes) && n < Answer(childNodesFor, n)[k] < nextID
    {
      assert ChildOf(nodes, n, Answer(childNodesFor, n)[k]);
    }
  }

  /** The nodes a rebuild from `n` replaces the children of: those it reaches that can have child nodes. */
  function Rebuilt(shape: map<nat, NodeShape>, nextID: nat, childNodesFor: ChildNodesFor, n: nat): set<nat>
    requires AnswersShaped(shape, nextID, childNodesFor) && n in shape
    decreases nextID - n, 1
  {
    if !shape[n].canHaveChildNodes then {}
    else {n} + RebuiltFrom(shape, nextID, childNodesFor, n, 0)
  }

  /** What the rebuilds of the listed children of `n` from position i on reach. */
  function RebuiltFrom(shape: map<nat, NodeShape>, nextID: nat, childNodesFor: ChildNodesFor, n: nat, i: nat): set<nat>
    requires AnswersShaped(shape, nextID, childNodesFor) && n in shape && i <= |Answer(childNodesFor, n)|
    decreases nextID - n, 0, |Answer(childNodesFor, n)| - i
  {
    if i == |Answer(childNodesFor, n)| then {}
    else
      Rebuilt(shape, nextID, childNodesFor, Answer(childNodesFor, n)[i])
      + RebuiltFrom(shape, nextID, childNodesFor, n, i + 1)
  }

  /** The nodes with the children of those in `s` replaced by the delegate's lists. */
  function Replaced(nodes: Nodes, childNodesFor: ChildNodesFor, s: set<nat>): Nodes {
    map m | m in nodes :: if m in s then nodes[m].(childNodes := Answer(childNodesFor, m)) else nodes[m]
  }

  /** Some node of `s` has children other than the delegate's list. */
  predicate ChangesIn(nodes: Nodes, childNodesFor: ChildNodesFor, s: set<nat>) {
    exists m :: m in s && m in nodes && nodes[m].childNodes != Answer(childNodesFor, m)
  }

  lemma ReplacedKeepsShape(nodes: Nodes, childNodesFor: ChildNodesFor, s: set<nat>)
    ensures Replaced(nodes, childNodesFor, s).Keys == nodes.Keys
    ensures ShapeOf(Replaced(nodes, childNodesFor, s)) == ShapeOf(nodes)
  {
  }

  lemma ReplacedTwice(nodes: Nodes, childNodesFor: ChildNodesFor, s: set<nat>, t: set<nat>)
    ensures Replaced(Replaced(nodes, childNodesFor, s), childNodesFor, t) == Replaced(nodes, childNodesFor, s + t)
  {
  }

  /** A node replaced earlier no longer differs from its list, and one not replaced still has its old children. */
  lemma ChangesAfterReplaced(nodes: Nodes, childNodesFor: ChildNodesFor, s: set<nat>, t: set<nat>)
    ensures ChangesIn(Replaced(nodes, childNodesFor, s), childNodesFor, t) || ChangesIn(nodes, childNodesFor, s)
      <==> ChangesIn(nodes, childNodesFor, s + t)
  {
    var r := Replaced(nodes, childNodesFor, s);
    if ChangesIn(nodes, childNodesFor, s + t) && !ChangesIn(nodes, childNodesFor, s) {
      var m :| m in s + t && m in nodes && nodes[m].childNodes != Answer(childNodesFor, m);
      assert m in r && r[m].childNodes != Answer(childNodesFor, m);
    }
  }

  lemma ReplacedOne(nodes: Nodes, childNodesFor: ChildNodesFor, n: nat)
    requires n in nodes
    ensures Replaced(nodes, childNodesFor, {n}) == nodes[n := nodes[n].(childNodes := Answer(childNodesFor, n))]
    ensures ChangesIn(nodes, childNodesFor, {n}) <==> nodes[n].childNodes != Answer(childNodesFor, n)
  {
  }

  lemma ReplacedNothing(nodes: Nodes, childNodesFor: ChildNodesFor)
    ensures Replaced(nodes, childNodesFor, {}) == nodes && !ChangesIn(nodes, childNodesFor, {})
  {
  }

  lemma ReplacedKeepsWellFormed(nodes: Nodes, nextID: nat, childNodesFor: ChildNodesFor, s: set<nat>)
    requires WellFormed(nodes, nextID) && AnswersLinked(nodes, childNodesFor)
    ensures WellFormed(Replaced(nodes, childNodesFor, s), nextID)
  {
    var r := Replaced(nodes, childNodesFor, s);
    forall n, i | n in r && 0 <= i < |r[n].childNodes|
      ensures ChildOf(r, n, r[n].childNodes[i])
    {
      assert ChildOf(nodes, n, r[n].childNodes[i]);
    }
  }

  /** One step of the loop over the listed children of `n`. */
  lemma RebuildStep(shape: map<nat, NodeShape>, nextID: nat, childNodesFor: ChildNodesFor, n: nat, i: nat, done: set<nat>)
    requires AnswersShaped(shape, nextID, childNodesFor) && n in shape && i < |Answer(childNodesFor, n)|
    requires done + RebuiltFrom(shape, nextID, childNodesFor, n, i) == Rebuilt(shape, nextID, childNodesFor, n)
    ensures var c := Answer(childNodesFor, n)[i];
      c in shape && n < c < nextID
      && done + Rebuilt(shape, nextID, childNodesFor, c) + RebuiltFrom(shape, nextID, childNodesFor, n, i + 1)
         == Rebuilt(shape, nextID, childNodesFor, n)
  {
  }

  /** A second rebuild with the same answers changes nothing and reports no change. */
  lemma RebuildAgainChangesNothing(nodes: Nodes, childNodesFor: ChildNodesFor, s: set<nat>)
    ensures Replaced(Replaced(nodes, childNodesFor, s), childNodesFor, s) == Replaced(nodes, childNodesFor, s)
    ensures !ChangesIn(Replaced(nodes, childNodesFor, s), childNodesFor, s)
  {
    ReplacedTwice(nodes, childNodesFor, s, s);
    assert s + s == s;
  }

  /** A node that cannot have child nodes is not rebuilt, so nothing changes. */
  lemma NoChildNodesNoRebuild(shape: map<nat, NodeShape>, nextID: nat, childNodesFor: ChildNodesFor, n: nat, nodes: Nodes)
    requires AnswersShaped(shape, nextID, childNodesFor) && n in shape && !shape[n].canHaveChildNodes
    ensures Replaced(nodes, childNodesFor, Rebuilt(shape, nextID, childNodesFor, n)) == nodes
    ensures !ChangesIn(nodes, childNodesFor, Rebuilt(shape, nextID, childNodesFor, n))
  {
    ReplacedNothing(nodes, childNodesFor);
  }

  class TreeController {
    const arena: NodeArena
    const rootNode: nat

    ghost predicate Valid()
      reads this, arena
    {
      arena.Valid() && rootNode in arena.nodes
    }

    /** `init(delegate:rootNode:)`, which rebuilds the tree at once. */
    constructor (arena: NodeArena, rootNode: nat, childNodesFor: ChildNodesFor)
      requires arena.Valid() && rootNode in arena.nodes && AnswersLinked(arena.nodes, childNodesFor)
      modifies arena
      ensures this.arena == arena && this.rootNode == rootNode && Valid()
      ensures arena.incrementingID == old(arena.incrementingID)
      ensures arena.nodes == Replaced(old(arena.nodes), childNodesFor,
        Rebuilt(ShapeOf(old(arena.nodes)), old(arena.incrementingID), childNodesFor, rootNode))
    {
      this.arena := arena;
      this.rootNode := rootNode;
      new;
      var _ := Rebuild(childNodesFor);
    }

    /**
     * `rebuild`: replaces the children of every node it reaches that can
     * have child nodes by the delegate's list, and reports whether any list
     * differed.
     */
    method Rebuild(childNodesFor: ChildNodesFor) returns (changed: bool)
      requires Valid() && AnswersLinked(arena.nodes, childNodesFor)
      modifies arena
      ensures Valid() && arena.incrementingID == old(arena.incrementingID)
      ensures var rebuilt := Rebuilt(ShapeOf(old(arena.nodes)), old(arena.incrementingID), childNodesFor, rootNode);
        arena.nodes == Replaced(old(arena.nodes), childNodesFor, rebuilt)
        && (changed <==> ChangesIn(old(arena.nodes), childNodesFor, rebuilt))
    {
      AnswersLinkedShaped(arena.nodes, arena.incrementingID, childNodesFor);
      ghost var n0 := arena.nodes;
      changed := RebuildChildNodes(ShapeOf(arena.nodes), rootNode, childNodesFor);
      ReplacedKeepsWellFormed(n0, arena.incrementingID, childNodesFor,
        Rebuilt(ShapeOf(n0), arena.incrementingID, childNodesFor, rootNode));
      ReplacedKeepsShape(n0, childNodesFor, Rebuilt(ShapeOf(n0), arena.incrementingID, childNodesFor, rootNode));
    }

    /** `rebuildChildNodes(node:)`. */
    method RebuildChildNodes(ghost shape: map<nat, NodeShape>, n: nat, childNodesFor: ChildNodesFor) returns (changed: bool)
      requires AnswersShaped(shape, arena.incrementingID, childNodesFor) && ShapeOf(arena.nodes) == shape && n in shape
      modifies arena
      ensures arena.incrementingID == old(arena.incrementingID)
      ensures arena.nodes == Replaced(old(arena.nodes), childNodesFor, Rebuilt(shape, arena.incrementingID, childNodesFor, n))
      ensures changed <==> ChangesIn(old(arena.nodes), childNodesFor, Rebuilt(shape, arena.incrementingID, childNodesFor, n))
      decreases arena.incrementingID - n, 1
    {
      assert shape[n].canHaveChildNodes == arena.nodes[n].canHaveChildNodes;
      if !arena.nodes[n].canHaveChildNodes {
        ReplacedNothing(arena.nodes, childNodesFor);
        return false;
      }
      ghost var n0 := arena.nodes;
      var childNodes := Answer(childNodesFor, n);
      changed := childNodes != arena.nodes[n].childNodes;
      if changed {
        arena.nodes := arena.nodes[n := arena.nodes[n].(childNodes := childNodes)];
      } else {
        assert n0[n].(childNodes := childNodes) == n0[n];
        assert n0[n := n0[n]] == n0;
      }
      ReplacedOne(n0, childNodesFor, n);
      changed := RebuildChildren(shape, n0, n, childNodesFor, changed);
    }

    /** The loop of `rebuildChildNodes(node:)` over the delegate's list for `n`. */
    method RebuildChildren(ghost shape: map<nat, NodeShape>, ghost n0: Nodes, n: nat, childNodesFor: ChildNodesFor,
                           changedSoFar: bool) returns (changed: bool)
      requires AnswersShaped(shape, arena.incrementingID, childNodesFor) && ShapeOf(n0) == shape
      requires n in shape && shape[n].canHaveChildNodes
      requires arena.nodes == Replaced(n0, childNodesFor, {n})
      requires changedSoFar <==> ChangesIn(n0, childNodesFor, {n})
      modifies arena
      ensures arena.incrementingID == old(arena.incrementingID)
      ensures arena.nodes == Replaced(n0, childNodesFor, Rebuilt(shape, arena.incrementingID, childNodesFor, n))
      ensures changed <==> ChangesIn(n0, childNodesFor, Rebuilt(shape, arena.incrementingID, childNodesFor, n))
      decreases arena.incrementingID - n, 0
    {
      var childNodes := Answer(childNodesFor, n);
      ghost var done := {n};
      changed := changedSoFar;
      for i := 0 to |childNodes|
        invariant arena.incrementingID == old(arena.incrementingID)
        invariant done + RebuiltFrom(shape, arena.incrementingID, childNodesFor, n, i)
          == Rebuilt(shape, arena.incrementingID, childNodesFor, n)
        invariant arena.nodes == Replaced(n0, childNodesFor, done)
        invariant changed <==> ChangesIn(n0, childNodesFor, done)
      {
        var c := childNodes[i];
        RebuildStep(shape, arena.incrementingID, childNodesFor, n, i, done);
        ReplacedKeepsShape(n0, childNodesFor, done);
        ghost var below := Rebuilt(shape, arena.incrementingID, childNodesFor, c);
        ReplacedTwice(n0, childNodesFor, done, below);
        ChangesAfterReplaced(n0, childNodesFor, done, below);
        var childChanged := RebuildChildNodes(shape, c, childNodesFor);
        if childChanged {
          changed := true;
        }
        done := done + below;
      }
    }
  }

  // ---------------------------------------------------------------- queries on a snapshot of the nodes

  /**
   * `nodeInArrayRepresentingObject(nodes:representedObject:recurse:)`: the
   * first listed node representing the object; with `recurse`, each listed
   * node that can have child nodes is searched below before the next one.
   * `lo` bounds the listed ids from below, for termination.
   */
  method NodeInArrayRepresentingObject(nodes: Nodes, nextID: nat, list: seq<nat>, obj: nat, recurse: bool, ghost lo: nat)
    returns (r: Option<nat>)
    requires WellFormed(nodes, nextID) && lo <= nextID
    requires forall k :: 0 <= k < |list| ==> list[k] in nodes && lo <= list[k]
    ensures recurse ==> r == FindFirst(Flat(nodes, nextID, list, true), Represents(nodes, obj))
    ensures !recurse ==> r == FindFirst(list, Represents(nodes, obj))
    decreases nextID - lo, 1
  {
    for i := 0 to |list|
      invariant recurse ==>
        FindFirst(Flat(nodes, nextID, list[i..], true), Represents(nodes, obj))
        == FindFirst(Flat(nodes, nextID, list, true), Represents(nodes, obj))
      invariant !recurse ==> FindFirst(list[i..], Represents(nodes, obj)) == FindFirst(list, Represents(nodes, obj))
    {
      SearchStep(nodes, nextID, list, i, Represents(nodes, obj));
      var found := NodeInArrayAt(nodes, nextID, list, i, obj, recurse, lo);
      if found.Some? {
        return found;
      }
    }
    assert list[|list|..] == [];
    return None;
  }

  /** The body of the loop above for the node at position i. */
  method NodeInArrayAt(nodes: Nodes, nextID: nat, list: seq<nat>, i: nat, obj: nat, recurse: bool, ghost lo: nat)
    returns (r: Option<nat>)
    requires WellFormed(nodes, nextID) && lo <= nextID && i < |list|
    requires forall k :: 0 <= k < |list| ==> list[k] in nodes && lo <= list[k]
    ensures var x := list[i];
      r == if Represents(nodes, obj)(x) then Some(x)
           else if recurse && nodes[x].canHaveChildNodes
           then FindFirst(Flat(nodes, nextID, nodes[x].childNodes, true), Represents(nodes, obj))
           else None
    decreases nextID - lo, 0
  {
    var x := list[i];
    if nodes[x].representedObject == obj {
      return Some(x);
    }
    if recurse && nodes[x].canHaveChildNodes {
      var cs := nodes[x].childNodes;
      assert forall k :: 0 <= k < |cs| ==> ChildOf(nodes, x, cs[k]);
      r := NodeInArrayRepresentingObject(nodes, nextID, cs, obj, recurse, x + 1);
    } else {
      r := None;
    }
  }

  /** One step of the search over a list: the node, then (recursing) what lies below it, then the rest. */
  lemma SearchStep(nodes: Nodes, nextID: nat, list: seq<nat>, i: nat, test: nat -> bool)
    requires WellFormed(nodes, nextID) && i < |list| && forall k :: 0 <= k < |list| ==> list[k] in nodes
    ensures var x := list[i];
      FindFirst(Flat(nodes, nextID, list[i..], true), test)
      == if test(x) then Some(x)
         else if nodes[x].canHaveChildNodes && FindFirst(Flat(nodes, nextID, nodes[x].childNodes, true), test).Some?
         then FindFirst(Flat(nodes, nextID, nodes[x].childNodes, true), test)
         else FindFirst(Flat(nodes, nextID, list[i + 1..], true), test)
    ensures FindFirst(list[i..], test) == if test(list[i]) then Some(list[i]) else FindFirst(list[i + 1..], test)
  {
    var x := list[i];
    assert list[i..][1..] == list[i + 1..];
    var below := if nodes[x].canHaveChildNodes then PreorderFrom(nodes, nextID, x, 0, true) else [];
    FlatChildren(nodes, nextID, x, 0, true);
    assert nodes[x].childNodes[0..] == nodes[x].childNodes;
    FindFirstAppend(Preorder(nodes, nextID, x, true), Flat(nodes, nextID, list[i + 1..], true), test);
    FindFirstAppend([x], below, test);
  }

  /** `nodeInTreeRepresentingObject`: the first node from the root, in pre-order, that represents the object. */
  method NodeInTreeRepresentingObject(nodes: Nodes, nextID: nat, rootNode: nat, obj: nat) returns (r: Option<nat>)
    requires WellFormed(nodes, nextID) && rootNode in nodes
    ensures r == FindFirst(Preorder(nodes, nextID, rootNode, true), Represents(nodes, obj))
  {
    r := NodeInArrayRepresentingObject(nodes, nextID, [rootNode], obj, true, 0);
    assert [rootNode][1..] == [];
    assert Flat(nodes, nextID, [rootNode], true) == Preorder(nodes, nextID, rootNode, true);
    assert Flat(nodes, nextID, [rootNode], true) == Preorder(nodes, nextID, rootNode, true) + Flat(nodes, nextID, [], true);
  }

  /** `visitNodes`: the nodes the block is given, in order. */
  method VisitNodes(nodes: Nodes, nextID: nat, rootNode: nat) returns (visited: seq<nat>)
    requires WellFormed(nodes, nextID) && rootNode in nodes
    ensures visited == Preorder(nodes, nextID, rootNode, false)
  {
    visited := VisitNode(nodes, nextID, rootNode);
  }

  /** `visitNode`: the node first, then each child's visit in order. */
  method VisitNode(nodes: Nodes, nextID: nat, n: nat) returns (visited: seq<nat>)
    requires WellFormed(nodes, nextID) && n in nodes
    ensures visited == Preorder(nodes, nextID, n, false)
    decreases nextID - n
  {
    visited := [n];
    var cs := nodes[n].childNodes;
    for i := 0 to |cs|
      invariant visited + PreorderFrom(nodes, nextID, n, i, false) == Preorder(nodes, nextID, n, false)
    {
      assert ChildOf(nodes, n, cs[i]);
      var v := VisitNode(nodes, nextID, cs[i]);
      assert visited + PreorderFrom(nodes, nextID, n, i, false) == visited + v + PreorderFrom(nodes, nextID, n, i + 1, false);
      visited := visited + v;
    }
  }

  // ---------------------------------------------------------------- normalised selection

  /** The nodes of `s`, in order, that have no ancestor in `all`. */
  function KeepTopmost(nodes: Nodes, nextID: nat, s: seq<nat>, all: seq<nat>): (r: seq<nat>)
    requires ParentsLinked(nodes, nextID) && forall k :: 0 <= k < |s| ==> s[k] in nodes
    ensures forall k :: 0 <= k < |r| ==> r[k] in nodes
    ensures |r| <= |s|
    decreases |s|
  {
    if |s| == 0 then []
    else
      var last := s[|s| - 1];
      KeepTopmost(nodes, nextID, s[..|s| - 1], all) + if HasAncestorIn(nodes, nextID, last, all) then [] else [last]
  }

  /** A node is kept exactly when it is listed and has no ancestor in `all`. */
  lemma {:induction false} KeepTopmostHas(nodes: Nodes, nextID: nat, s: seq<nat>, all: seq<nat>, x: nat)
    requires ParentsLinked(nodes, nextID) && forall k :: 0 <= k < |s| ==> s[k] in nodes
    ensures x in KeepTopmost(nodes, nextID, s, all) <==> x in s && x in nodes && !HasAncestorIn(nodes, nextID, x, all)
    decreases |s|
  {
    if |s| > 0 {
      var init := s[..|s| - 1];
      KeepTopmostHas(nodes, nextID, init, all, x);
      assert s == init + [s[|s| - 1]];
    }
  }

  /** `normalizedSelectedNodes`: drops every node whose ancestor is also selected. */
  method NormalizedSelectedNodes(nodes: Nodes, nextID: nat, selected: seq<nat>) returns (normalized: seq<nat>)
    requires WellFormed(nodes, nextID) && forall k :: 0 <= k < |selected| ==> selected[k] in nodes
    ensures normalized == KeepTopmost(nodes, nextID, selected, selected)
  {
    normalized := [];
    for i := 0 to |selected|
      invariant normalized == KeepTopmost(nodes, nextID, selected[..i], selected)
    {
      assert selected[..i + 1][..i] == selected[..i];
      var hasAncestor := HasAncestor(nodes, nextID, selected[i], selected);
      if !hasAncestor {
        normalized := normalized + [selected[i]];
      }
    }
    assert selected[..|selected|] == selected;
  }

  /** An ancestor in a list is an ancestor in any list holding all of its nodes. */
  lemma HasAncestorInSuperset(nodes: Nodes, nextID: nat, x: nat, a: seq<nat>, b: seq<nat>)
    requires ParentsLinked(nodes, nextID) && x in nodes && forall y :: y in a ==> y in b
    ensures HasAncestorIn(nodes, nextID, x, a) ==> HasAncestorIn(nodes, nextID, x, b)
  {
    if HasAncestorIn(nodes, nextID, x, a) {
      var k :| 0 <= k < |a| && a[k] in Ancestors(nodes, nextID, x);
      assert a[k] in b;
      var j :| 0 <= j < |b| && b[j] == a[k];
    }
  }

  /** No node kept has an ancestor among those kept. */
  lemma NormalizedHasNoNesting(nodes: Nodes, nextID: nat, selected: seq<nat>, x: nat)
    requires ParentsLinked(nodes, nextID) && forall k :: 0 <= k < |selected| ==> selected[k] in nodes
    requires x in KeepTopmost(nodes, nextID, selected, selected)
    ensures x in nodes && !HasAncestorIn(nodes, nextID, x, KeepTopmost(nodes, nextID, selected, selected))
  {
    var r := KeepTopmost(nodes, nextID, selected, selected);
    forall y | y in r
      ensures y in selected
    {
      KeepTopmostHas(nodes, nextID, selected, selected, y);
    }
    KeepTopmostHas(nodes, nextID, selected, selected, x);
    HasAncestorInSuperset(nodes, nextID, x, r, selected);
  }

  /** Every selected node is kept or has a kept ancestor. */
  lemma {:induction false} NormalizedCovers(nodes: Nodes, nextID: nat, selected: seq<nat>, x: nat)
    requires ParentsLinked(nodes, nextID) && forall k :: 0 <= k < |selected| ==> selected[k] in nodes
    requires x in selected
    ensures var r := KeepTopmost(nodes, nextID, selected, selected);
      x in r || exists y :: y in r && y in Ancestors(nodes, nextID, x)
    decreases x
  {
    var r := KeepTopmost(nodes, nextID, selected, selected);
    KeepTopmostHas(nodes, nextID, selected, selected, x);
    if HasAncestorIn(nodes, nextID, x, selected) {
      var k :| 0 <= k < |selected| && selected[k] in Ancestors(nodes, nextID, x);
      var a := selected[k];
      NormalizedCovers(nodes, nextID, selected, a);
      if a !in r {
        var y :| y in r && y in Ancestors(nodes, nextID, a);
        AncestorOfAncestor(nodes, nextID, y, a, x);
      }
    }
  }

  /** Normalising a normalised selection changes nothing. */
  lemma NormalizedIdempotent(nodes: Nodes, nextID: nat, selected: seq<nat>)
    requires ParentsLinked(nodes, nextID) && forall k :: 0 <= k < |selected| ==> selected[k] in nodes
    ensures var r := KeepTopmost(nodes, nextID, selected, selected);
      KeepTopmost(nodes, nextID, r, r) == r
  {
    var r := KeepTopmost(nodes, nextID, selected, selected);
    forall x | x in r
      ensures x in nodes && !HasAncestorIn(nodes, nextID, x, r)
    {
      NormalizedHasNoNesting(nodes, nextID, selected, x);
    }
    KeepAll(nodes, nextID, r, r);
  }

  /** A list none of whose nodes has an ancestor in `all` is kept whole. */
  lemma {:induction false} KeepAll(nodes: Nodes, nextID: nat, s: seq<nat>, all: seq<nat>)
    requires ParentsLinked(nodes, nextID) && forall k :: 0 <= k < |s| ==> s[k] in nodes
    requires forall x :: x in s ==> x in nodes && !HasAncestorIn(nodes, nextID, x, all)
    ensures KeepTopmost(nodes, nextID, s, all) == s
    decreases |s|
  {
    if |s| > 0 {
      KeepAll(nodes, nextID, s[..|s| - 1], all);
      assert s[|s| - 1] in s;
      assert s[..|s| - 1] + [s[|s| - 1]] == s;
    }
  }
}
