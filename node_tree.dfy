/**
 * `Node`: a sidebar tree node with a weak parent, the object it represents,
 * two flags and its child nodes. Nodes are known by their `uniqueID`, drawn
 * from a counter shared by all nodes, which is also what their equality and
 * hashing use; `NodeArena` holds every node by id. Represented objects are
 * known by their identity numbers.
 */
module NodeTree {
  import opened Wrappers

  /** A node's fields. */
  datatype NodeRec = NodeRec(
    parent: Option<nat>,
    representedObject: nat,
    canHaveChildNodes: bool,
    isGroupItem: bool,
    childNodes: seq<nat>)

  type Nodes = map<nat, NodeRec>

  /** `c` exists and names `n` as its parent. */
  predicate ChildOf(nodes: Nodes, n: nat, c: nat) {
    c in nodes && nodes[c].parent == Some(n)
  }

  /** Every node was created before `nextID`, and after its parent. */
  predicate ParentsLinked(nodes: Nodes, nextID: nat) {
    forall n :: n in nodes ==>
      n < nextID && (nodes[n].parent.Some? ==> nodes[n].parent.value in nodes && nodes[n].parent.value < n)
  }

  /** Every child a node lists names that node as its parent. */
  predicate ChildrenLinked(nodes: Nodes) {
    forall n, i :: n in nodes && 0 <= i < |nodes[n].childNodes| ==> ChildOf(nodes, n, nodes[n].childNodes[i])
  }

  predicate WellFormed(nodes: Nodes, nextID: nat) {
    ParentsLinked(nodes, nextID) && ChildrenLinked(nodes)
  }

  /** `isRoot`. */
  predicate IsRoot(nodes: Nodes, n: nat)
    requires n in nodes
  {
    nodes[n].parent.None?
  }

  /** The parent chain of `n`, from its parent up to the root. */
  function Ancestors(nodes: Nodes, nextID: nat, n: nat): (r: seq<nat>)
    requires ParentsLinked(nodes, nextID) && n in nodes
    ensures forall k :: 0 <= k < |r| ==> r[k] in nodes && r[k] < n
    decreases n
  {
    match nodes[n].parent
    case None => []
    case Some(p) => [p] + Ancestors(nodes, nextID, p)
  }

  /** `level`. */
  function Level(nodes: Nodes, nextID: nat, n: nat): nat
    requires ParentsLinked(nodes, nextID) && n in nodes
    decreases n
  {
    match nodes[n].parent
    case None => 0
    case Some(p) => Level(nodes, nextID, p) + 1
  }

  /** A node's level is the number of its ancestors, and it is zero exactly at a root. */
  lemma {:induction false} LevelCountsAncestors(nodes: Nodes, nextID: nat, n: nat)
    requires ParentsLinked(nodes, nextID) && n in nodes
    ensures Level(nodes, nextID, n) == |Ancestors(nodes, nextID, n)|
    ensures Level(nodes, nextID, n) == 0 <==> IsRoot(nodes, n)
    decreases n
  {
    if nodes[n].parent.Some? {
      LevelCountsAncestors(nodes, nextID, nodes[n].parent.value);
    }
  }

  /** An ancestor of an ancestor is an ancestor. */
  lemma {:induction false} AncestorOfAncestor(nodes: Nodes, nextID: nat, a: nat, b: nat, n: nat)
    requires ParentsLinked(nodes, nextID) && n in nodes
    requires b in Ancestors(nodes, nextID, n) && a in Ancestors(nodes, nextID, b)
    ensures a in Ancestors(nodes, nextID, n)
    decreases n
  {
    var p := nodes[n].parent.value;
    if b != p {
      AncestorOfAncestor(nodes, nextID, a, b, p);
    }
  }

  /** `childAtIndex`. */
  function ChildAtIndex(nodes: Nodes, n: nat, i: int): (r: Option<nat>)
    requires n in nodes
    ensures r.Some? <==> 0 <= i < |nodes[n].childNodes|
    ensures r.Some? ==> r.value == nodes[n].childNodes[i]
    ensures ChildrenLinked(nodes) && r.Some? ==> ChildOf(nodes, n, r.value)
  {
    if i >= |nodes[n].childNodes| || i < 0 then None else Some(nodes[n].childNodes[i])
  }

  /** `firstIndex`, from position `from` on. */
  function FirstIndex(s: seq<nat>, x: nat, from: nat): (r: Option<nat>)
    requires from <= |s|
    ensures r.Some? ==> from <= r.value < |s| && s[r.value] == x && forall j :: from <= j < r.value ==> s[j] != x
    ensures r.None? ==> forall j :: from <= j < |s| ==> s[j] != x
    decreases |s| - from
  {
    if from == |s| then None else if s[from] == x then Some(from) else FirstIndex(s, x, from + 1)
  }

  /** `indexOfChild`: the first position holding the node. */
  function IndexOfChild(nodes: Nodes, n: nat, c: nat): Option<nat>
    requires n in nodes
  {
    FirstIndex(nodes[n].childNodes, c, 0)
  }

  /** `indexPath`: 0 for the root, then each node's position in its parent; nil where the source's precondition fails. */
  function IndexPath(nodes: Nodes, nextID: nat, n: nat): (r: Option<seq<nat>>)
    requires ParentsLinked(nodes, nextID) && n in nodes
    ensures r.Some? ==> |r.value| == Level(nodes, nextID, n) + 1 && r.value[0] == 0
    decreases n
  {
    match nodes[n].parent
    case None => Some([0])
    case Some(p) =>
      match (IndexPath(nodes, nextID, p), IndexOfChild(nodes, p, n))
      case (Some(path), Some(i)) => Some(path + [i])
      case _ => None
  }

  /** The root above `n`. */
  function RootOf(nodes: Nodes, nextID: nat, n: nat): (r: nat)
    requires ParentsLinked(nodes, nextID) && n in nodes
    ensures r in nodes && IsRoot(nodes, r)
    decreases n
  {
    match nodes[n].parent
    case None => n
    case Some(p) => RootOf(nodes, nextID, p)
  }

  /** The node reached from `r` by following the child positions of `path`. */
  function NodeAt(nodes: Nodes, r: nat, path: seq<nat>): Option<nat>
    requires r in nodes && ChildrenLinked(nodes)
    decreases |path|
  {
    if |path| == 0 then Some(r)
    else match NodeAt(nodes, r, path[..|path| - 1])
      case None => None
      case Some(m) => ChildAtIndex(nodes, m, path[|path| - 1])
  }

  /** Following a node's index path down from its root leads back to the node. */
  lemma {:induction false} IndexPathLeadsBack(nodes: Nodes, nextID: nat, n: nat)
    requires WellFormed(nodes, nextID) && n in nodes && IndexPath(nodes, nextID, n).Some?
    ensures NodeAt(nodes, RootOf(nodes, nextID, n), IndexPath(nodes, nextID, n).value[1..]) == Some(n)
    decreases n
  {
    match nodes[n].parent
    case None =>
    case Some(p) =>
      var path := IndexPath(nodes, nextID, p).value;
      var i := IndexOfChild(nodes, p, n).value;
      IndexPathLeadsBack(nodes, nextID, p);
      assert IndexPath(nodes, nextID, n).value[1..] == path[1..] + [i];
      assert (path[1..] + [i])[..|path[1..] + [i]| - 1] == path[1..];
  }

  /** A node has an index path exactly when it and each of its ancestors is listed by its parent. */
  lemma {:induction false} IndexPathIffListed(nodes: Nodes, nextID: nat, n: nat)
    requires ParentsLinked(nodes, nextID) && n in nodes
    ensures IndexPath(nodes, nextID, n).Some? <==>
      forall m :: m in [n] + Ancestors(nodes, nextID, n) && nodes[m].parent.Some? ==>
        m in nodes[nodes[m].parent.value].childNodes
    decreases n
  {
    match nodes[n].parent
    case None =>
    case Some(p) =>
      IndexPathIffListed(nodes, nextID, p);
      assert [n] + Ancestors(nodes, nextID, n) == [n] + ([p] + Ancestors(nodes, nextID, p));
      var listed := IndexOfChild(nodes, p, n).Some?;
      assert listed <==> n in nodes[p].childNodes;
  }

  // ---------------------------------------------------------------- traversal

  /**
   * `n` and then, child by child, everything below it, depth first; when
   * `gated`, only nodes that can have child nodes are descended into.
   */
  function Preorder(nodes: Nodes, nextID: nat, n: nat, gated: bool): (r: seq<nat>)
    requires WellFormed(nodes, nextID) && n in nodes
    ensures |r| > 0 && r[0] == n
    decreases nextID - n, 1
  {
    [n] + (if gated && !nodes[n].canHaveChildNodes then [] else PreorderFrom(nodes, nextID, n, 0, gated))
  }

  /** The traversals of the children of `n` from position i on, one after the other. */
  function PreorderFrom(nodes: Nodes, nextID: nat, n: nat, i: nat, gated: bool): seq<nat>
    requires WellFormed(nodes, nextID) && n in nodes && i <= |nodes[n].childNodes|
    decreases nextID - n, 0, |nodes[n].childNodes| - i
  {
    if i == |nodes[n].childNodes| then []
    else
      var c := nodes[n].childNodes[i];
      assert ChildOf(nodes, n, c);
      Preorder(nodes, nextID, c, gated) + PreorderFrom(nodes, nextID, n, i + 1, gated)
  }

  /** The proper descendants of `n`, depth first in pre-order. */
  function Below(nodes: Nodes, nextID: nat, n: nat): seq<nat>
    requires WellFormed(nodes, nextID) && n in nodes
  {
    PreorderFrom(nodes, nextID, n, 0, false)
  }

  /** Every node a traversal from `n` meets is `n` or has `n` as an ancestor. */
  lemma {:induction false} PreorderDescends(nodes: Nodes, nextID: nat, n: nat, gated: bool, m: nat)
    requires WellFormed(nodes, nextID) && n in nodes && m in Preorder(nodes, nextID, n, gated)
    ensures m in nodes && (m == n || n in Ancestors(nodes, nextID, m))
    decreases nextID - n, 1
  {
    if m != n {
      PreorderFromDescends(nodes, nextID, n, 0, gated, m);
    }
  }

  lemma {:induction false} PreorderFromDescends(nodes: Nodes, nextID: nat, n: nat, i: nat, gated: bool, m: nat)
    requires WellFormed(nodes, nextID) && n in nodes && i <= |nodes[n].childNodes|
    requires m in PreorderFrom(nodes, nextID, n, i, gated)
    ensures m in nodes && n in Ancestors(nodes, nextID, m)
    decreases nextID - n, 0, |nodes[n].childNodes| - i
  {
    var c := nodes[n].childNodes[i];
    assert ChildOf(nodes, n, c);
    if m in Preorder(nodes, nextID, c, gated) {
      PreorderDescends(nodes, nextID, c, gated, m);
      assert Ancestors(nodes, nextID, c) == [n] + Ancestors(nodes, nextID, n);
      if m != c {
        AncestorOfAncestor(nodes, nextID, n, c, m);
      }
    } else {
      PreorderFromDescends(nodes, nextID, n, i + 1, gated, m);
    }
  }

  /** The traversals of the nodes of a list, one after the other. */
  function Flat(nodes: Nodes, nextID: nat, s: seq<nat>, gated: bool): seq<nat>
    requires WellFormed(nodes, nextID) && forall k :: 0 <= k < |s| ==> s[k] in nodes
    decreases |s|
  {
    if |s| == 0 then [] else Preorder(nodes, nextID, s[0], gated) + Flat(nodes, nextID, s[1..], gated)
  }

  /** Traversing a node's children as a list is traversing them from the node. */
  lemma {:induction false} FlatChildren(nodes: Nodes, nextID: nat, n: nat, i: nat, gated: bool)
    requires WellFormed(nodes, nextID) && n in nodes && i <= |nodes[n].childNodes|
    ensures forall k :: 0 <= k < |nodes[n].childNodes[i..]| ==> nodes[n].childNodes[i..][k] in nodes
    ensures Flat(nodes, nextID, nodes[n].childNodes[i..], gated) == PreorderFrom(nodes, nextID, n, i, gated)
    decreases |nodes[n].childNodes| - i
  {
    var cs := nodes[n].childNodes;
    assert forall k :: 0 <= k < |cs[i..]| ==> cs[i..][k] == cs[i + k] && ChildOf(nodes, n, cs[i + k]);
    if i < |cs| {
      FlatChildren(nodes, nextID, n, i + 1, gated);
      assert cs[i..][1..] == cs[i + 1..];
    }
  }

  /** The first element of `s` that passes `test`. */
  function FindFirst(s: seq<nat>, test: nat -> bool): (r: Option<nat>)
    ensures r.Some? ==> r.value in s && test(r.value)
    ensures r.None? <==> forall k :: 0 <= k < |s| ==> !test(s[k])
    decreases |s|
  {
    if |s| == 0 then None else if test(s[0]) then Some(s[0]) else FindFirst(s[1..], test)
  }

  /** Searching a joined list is searching the first part, and then the second. */
  lemma {:induction false} FindFirstAppend(a: seq<nat>, b: seq<nat>, test: nat -> bool)
    ensures FindFirst(a + b, test) == if FindFirst(a, test).Some? then FindFirst(a, test) else FindFirst(b, test)
    decreases |a|
  {
    if |a| > 0 {
      assert (a + b)[1..] == a[1..] + b;
      FindFirstAppend(a[1..], b, test);
    } else {
      assert a + b == b;
    }
  }

  /** Two tests that agree on every element find the same one. */
  lemma {:induction false} FindFirstSameTest(s: seq<nat>, test: nat -> bool, other: nat -> bool)
    requires forall k :: 0 <= k < |s| ==> test(s[k]) == other(s[k])
    ensures FindFirst(s, test) == FindFirst(s, other)
    decreases |s|
  {
    if |s| > 0 {
      FindFirstSameTest(s[1..], test, other);
    }
  }

  /** One step of the search over the children of `n`: the child itself, then what lies below it, then the rest. */
  lemma FindStep(nodes: Nodes, nextID: nat, n: nat, i: nat, test: nat -> bool)
    requires WellFormed(nodes, nextID) && n in nodes && i < |nodes[n].childNodes|
    ensures nodes[n].childNodes[i] in nodes && nodes[n].childNodes[i] > n
    ensures var c := nodes[n].childNodes[i];
      FindFirst(PreorderFrom(nodes, nextID, n, i, false), test)
      == if test(c) then Some(c)
         else if FindFirst(Below(nodes, nextID, c), test).Some? then FindFirst(Below(nodes, nextID, c), test)
         else FindFirst(PreorderFrom(nodes, nextID, n, i + 1, false), test)
    ensures var cs := nodes[n].childNodes;
      FindFirst(cs[i..], test) == if test(cs[i]) then Some(cs[i]) else FindFirst(cs[i + 1..], test)
  {
    var cs := nodes[n].childNodes;
    var c := cs[i];
    assert ChildOf(nodes, n, c);
    FindFirstAppend(Preorder(nodes, nextID, c, false), PreorderFrom(nodes, nextID, n, i + 1, false), test);
    FindFirstAppend([c], Below(nodes, nextID, c), test);
    assert cs[i..][1..] == cs[i + 1..];
  }

  /** The test `childNode.representedObject === obj`. */
  function Represents(nodes: Nodes, obj: nat): nat -> bool {
    c => c in nodes && nodes[c].representedObject == obj
  }

  /** Some listed node is an ancestor of `n`. */
  predicate HasAncestorIn(nodes: Nodes, nextID: nat, n: nat, list: seq<nat>)
    requires ParentsLinked(nodes, nextID) && n in nodes
  {
    exists k :: 0 <= k < |list| && list[k] in Ancestors(nodes, nextID, n)
  }

  class NodeArena {
    var nodes: Nodes
    /** `Node.incrementingID`: the id the next node will get. */
    var incrementingID: nat

    ghost predicate Valid()
      reads this
    {
      WellFormed(nodes, incrementingID)
    }

    constructor ()
      ensures Valid() && nodes == map[] && incrementingID == 0
    {
      nodes := map[];
      incrementingID := 0;
    }

    /** `init(representedObject:parent:)`: a new node with the next id, and no children yet. */
    method CreateNode(representedObject: nat, parent: Option<nat>) returns (id: nat)
      requires Valid() && (parent.Some? ==> parent.value in nodes)
      modifies this
      ensures Valid()
      ensures id == old(incrementingID) && incrementingID == id + 1
      ensures forall m :: m in old(nodes) ==> m < id
      ensures nodes == old(nodes)[id := NodeRec(parent, representedObject, false, false, [])]
    {
      id := incrementingID;
      nodes := nodes[id := NodeRec(parent, representedObject, false, false, [])];
      incrementingID := incrementingID + 1;
    }

    /** `genericRootNode`: a parentless node that can have child nodes, representing a fresh object. */
    method GenericRootNode(topLevelObject: nat) returns (id: nat)
      requires Valid()
      modifies this
      ensures Valid()
      ensures id == old(incrementingID) && incrementingID == id + 1
      ensures nodes == old(nodes)[id := NodeRec(None, topLevelObject, true, false, [])]
    {
      id := CreateNode(topLevelObject, None);
      nodes := nodes[id := nodes[id].(canHaveChildNodes := true)];
    }

    /** `createChildNode`: a new node whose parent is `n`; it is not added to `n`'s children. */
    method CreateChildNode(n: nat, representedObject: nat) returns (child: nat)
      requires Valid() && n in nodes
      modifies this
      ensures Valid()
      ensures child == old(incrementingID) && incrementingID == child + 1
      ensures nodes == old(nodes)[child := NodeRec(Some(n), representedObject, false, false, [])]
      ensures ChildOf(nodes, n, child) && nodes[n].childNodes == old(nodes)[n].childNodes
    {
      child := CreateNode(representedObject, Some(n));
    }

    /** `existingOrNewChildNode`: the first child representing the object, or else a new node created for it. */
    method ExistingOrNewChildNode(n: nat, representedObject: nat) returns (child: nat)
      requires Valid() && n in nodes
      modifies this
      ensures Valid() && ChildOf(nodes, n, child)
      ensures var found := FindFirst(old(nodes)[n].childNodes, Represents(old(nodes), representedObject));
        if found.Some? then
          child == found.value && nodes == old(nodes) && incrementingID == old(incrementingID)
        else
          child == old(incrementingID) && incrementingID == child + 1
          && nodes == old(nodes)[child := NodeRec(Some(n), representedObject, false, false, [])]
    {
      var found := ChildNodeRepresentingObject(nodes, incrementingID, n, representedObject);
      if found.Some? {
        assert found.value in nodes[n].childNodes;
        return found.value;
      }
      child := CreateChildNode(n, representedObject);
    }

    /** `childNodes = list`, for a list of nodes that name `n` as their parent. */
    method SetChildNodes(n: nat, childNodes: seq<nat>)
      requires Valid() && n in nodes
      requires forall k :: 0 <= k < |childNodes| ==> ChildOf(nodes, n, childNodes[k])
      modifies this
      ensures Valid()
      ensures nodes == old(nodes)[n := old(nodes)[n].(childNodes := childNodes)]
      ensures incrementingID == old(incrementingID)
    {
      nodes := nodes[n := nodes[n].(childNodes := childNodes)];
    }

    /** Sets `canHaveChildNodes` and `isGroupItem`. */
    method SetFlags(n: nat, canHaveChildNodes: bool, isGroupItem: bool)
      requires Valid() && n in nodes
      modifies this
      ensures Valid()
      ensures nodes == old(nodes)[n := old(nodes)[n].(canHaveChildNodes := canHaveChildNodes, isGroupItem := isGroupItem)]
      ensures incrementingID == old(incrementingID)
    {
      nodes := nodes[n := nodes[n].(canHaveChildNodes := canHaveChildNodes, isGroupItem := isGroupItem)];
    }

    /** `isLeaf`: no child nodes, so nothing below. */
    predicate IsLeaf(n: nat)
      requires Valid() && n in nodes
      reads this
      ensures IsLeaf(n) <==> Below(nodes, incrementingID, n) == []
    {
      |nodes[n].childNodes| < 1
    }
  }

  // ---------------------------------------------------------------- queries on a snapshot of the nodes

  /** `isAncestor(of:)`: walks up the parent chain from `n` looking for `x`. */
  method IsAncestor(nodes: Nodes, nextID: nat, x: nat, n: nat) returns (r: bool)
    requires WellFormed(nodes, nextID) && x in nodes && n in nodes
    ensures r <==> x in Ancestors(nodes, nextID, n)
    ensures x == n ==> !r
  {
    if n == x {
      return false;
    }
    var nomad := n;
    while true
      invariant nomad in nodes
      invariant x in Ancestors(nodes, nextID, n) <==> x in Ancestors(nodes, nextID, nomad)
      decreases nomad
    {
      match nodes[nomad].parent {
        case None =>
          return false;
        case Some(p) =>
          if p == x {
            return true;
          }
          nomad := p;
      }
    }
  }

  /** `hasAncestor(in:)`. */
  method HasAncestor(nodes: Nodes, nextID: nat, n: nat, list: seq<nat>) returns (r: bool)
    requires WellFormed(nodes, nextID) && n in nodes && forall k :: 0 <= k < |list| ==> list[k] in nodes
    ensures r <==> HasAncestorIn(nodes, nextID, n, list)
  {
    for k := 0 to |list|
      invariant forall j :: 0 <= j < k ==> list[j] !in Ancestors(nodes, nextID, n)
    {
      var isAncestor := IsAncestor(nodes, nextID, list[k], n);
      if isAncestor {
        return true;
      }
    }
    return false;
  }

  /**
   * `findNode(where:recursively:)`: the first child that passes the test,
   * or, recursively, the first node below `n` in depth-first pre-order.
   * `findNodeRepresentingObject` is the same search with the test
   * `Represents`.
   */
  method FindNode(nodes: Nodes, nextID: nat, n: nat, test: nat -> bool, recursively: bool) returns (r: Option<nat>)
    requires WellFormed(nodes, nextID) && n in nodes
    ensures recursively ==> r == FindFirst(Below(nodes, nextID, n), test)
    ensures !recursively ==> r == FindFirst(nodes[n].childNodes, test)
    decreases nextID - n, 1
  {
    var cs := nodes[n].childNodes;
    for i := 0 to |cs|
      invariant recursively ==>
        FindFirst(PreorderFrom(nodes, nextID, n, i, false), test) == FindFirst(Below(nodes, nextID, n), test)
      invariant !recursively ==> FindFirst(cs[i..], test) == FindFirst(cs, test)
    {
      FindStep(nodes, nextID, n, i, test);
      var found := FindAtChild(nodes, nextID, n, i, test, recursively);
      if found.Some? {
        return found;
      }
    }
    return None;
  }

  /** The body of the search loop for the child at position i: the child if it passes, or else, recursively, what lies below it. */
  method FindAtChild(nodes: Nodes, nextID: nat, n: nat, i: nat, test: nat -> bool, recursively: bool) returns (r: Option<nat>)
    requires WellFormed(nodes, nextID) && n in nodes && i < |nodes[n].childNodes|
    ensures var c := nodes[n].childNodes[i];
      r == if test(c) then Some(c) else if recursively then FindFirst(Below(nodes, nextID, c), test) else None
    decreases nextID - n, 0
  {
    var c := nodes[n].childNodes[i];
    assert ChildOf(nodes, n, c);
    if test(c) {
      return Some(c);
    }
    if recursively {
      r := FindNode(nodes, nextID, c, test, recursively);
    } else {
      r := None;
    }
  }

  /** `childNodeRepresentingObject`. */
  method ChildNodeRepresentingObject(nodes: Nodes, nextID: nat, n: nat, obj: nat) returns (r: Option<nat>)
    requires WellFormed(nodes, nextID) && n in nodes
    ensures r == FindFirst(nodes[n].childNodes, Represents(nodes, obj))
  {
    r := FindNode(nodes, nextID, n, Represents(nodes, obj), false);
  }

  /** `descendantNodeRepresentingObject`. */
  method DescendantNodeRepresentingObject(nodes: Nodes, nextID: nat, n: nat, obj: nat) returns (r: Option<nat>)
    requires WellFormed(nodes, nextID) && n in nodes
    ensures r == FindFirst(Below(nodes, nextID, n), Represents(nodes, obj))
  {
    r := FindNode(nodes, nextID, n, Represents(nodes, obj), true);
  }

  /** `descendantNode(where:)`: what it finds lies below `n`. */
  method DescendantNode(nodes: Nodes, nextID: nat, n: nat, test: nat -> bool) returns (r: Option<nat>)
    requires WellFormed(nodes, nextID) && n in nodes
    ensures r == FindFirst(Below(nodes, nextID, n), test)
    ensures r.Some? ==> r.value in nodes && n in Ancestors(nodes, nextID, r.value) && test(r.value)
  {
    r := FindNode(nodes, nextID, n, test, true);
    if r.Some? {
      PreorderFromDescends(nodes, nextID, n, 0, false, r.value);
    }
  }
}
