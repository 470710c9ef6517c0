/**
 * `SidebarTreeControllerDelegate`: answers the tree controller with the
 * sidebar's child nodes. The root shows the smart feeds and, when it is
 * active, the data store; the smart-feeds node shows every smart feed; a
 * container shows its top-level feeds and then its folders, less those the
 * read filter hides, reusing existing child nodes where it can.
 *
 * Represented objects are numbered, as in `NodeTree`.
 */
module SidebarDelegateModel {
  import opened Wrappers
  import opened SidebarId
  import opened NodeTree

  /** A feed or a folder as the delegate sees it. */
  datatype SidebarItem = SidebarItem(obj: nat, sidebarItemID: Option<SidebarItemIdentifier>, unreadCount: int, isFolder: bool)

  /** A container: its top-level feeds and, when it has any, its folders. */
  datatype Container = Container(topLevelFeeds: seq<SidebarItem>, folders: Option<seq<SidebarItem>>)

  /** What the delegate consults besides the tree: the smart feeds, the data store and the containers by object. */
  datatype Sidebar = Sidebar(
    smartFeedsObj: nat, smartFeeds: seq<nat>,
    dataStoreObj: nat, dataStoreActive: bool,
    containers: map<nat, Container>)

  // ---------------------------------------------------------------- the read filter

  /** Not a filter exception, the read filter is on, and nothing is unread. */
  predicate Filtered(exceptions: set<SidebarItemIdentifier>, isReadFiltered: bool, id: SidebarItemIdentifier, unreadCount: int) {
    id !in exceptions && isReadFiltered && unreadCount == 0
  }

  /** An item is shown when it has an identifier that is not filtered. */
  predicate Shown(exceptions: set<SidebarItemIdentifier>, isReadFiltered: bool, item: SidebarItem) {
    match item.sidebarItemID
    case None => false
    case Some(id) => !Filtered(exceptions, isReadFiltered, id, item.unreadCount)
  }

  /** The shown items of `s`, in order. */
  function ShownItems(exceptions: set<SidebarItemIdentifier>, isReadFiltered: bool, s: seq<SidebarItem>): (r: seq<SidebarItem>)
    ensures |r| <= |s|
  {
    if |s| == 0 then []
    else
      ShownItems(exceptions, isReadFiltered, s[..|s| - 1])
      + if Shown(exceptions, isReadFiltered, s[|s| - 1]) then [s[|s| - 1]] else []
  }

  /** An item is among the shown ones exactly when it is listed and shown. */
  lemma {:induction false} ShownItemsHas(exceptions: set<SidebarItemIdentifier>, isReadFiltered: bool, s: seq<SidebarItem>, x: SidebarItem)
    ensures x in ShownItems(exceptions, isReadFiltered, s) <==> x in s && Shown(exceptions, isReadFiltered, x)
    decreases |s|
  {
    if |s| > 0 {
      ShownItemsHas(exceptions, isReadFiltered, s[..|s| - 1], x);
      assert s == s[..|s| - 1] + [s[|s| - 1]];
    }
  }

  /** With the read filter off, every item that has an identifier is shown, and only those. */
  lemma ReadFilterOffShowsIdentified(exceptions: set<SidebarItemIdentifier>, s: seq<SidebarItem>, x: SidebarItem)
    ensures x in ShownItems(exceptions, false, s) <==> x in s && x.sidebarItemID.Some?
  {
    ShownItemsHas(exceptions, false, s, x);
  }

  /** A filter exception is shown whatever its unread count and the filter. */
  lemma ExceptionShown(exceptions: set<SidebarItemIdentifier>, isReadFiltered: bool, s: seq<SidebarItem>, x: SidebarItem)
    requires x in s && x.sidebarItemID.Some? && x.sidebarItemID.value in exceptions
    ensures x in ShownItems(exceptions, isReadFiltered, s)
  {
    ShownItemsHas(exceptions, isReadFiltered, s, x);
  }

  /** With the filter on, a listed item that is not an exception and has nothing unread is hidden. */
  lemma ReadItemHidden(exceptions: set<SidebarItemIdentifier>, s: seq<SidebarItem>, x: SidebarItem)
    requires x.sidebarItemID.Some? && x.sidebarItemID.value !in exceptions && x.unreadCount == 0
    ensures x !in ShownItems(exceptions, true, s)
  {
    ShownItemsHas(exceptions, true, s, x);
  }

  /** The child objects of a container: its shown top-level feeds, then its shown folders. */
  function ContainerChildren(exceptions: set<SidebarItemIdentifier>, isReadFiltered: bool, c: Container): seq<SidebarItem> {
    ShownItems(exceptions, isReadFiltered, c.topLevelFeeds) + ShownItems(exceptions, isReadFiltered, c.folders.GetOr([]))
  }

  // ---------------------------------------------------------------- reusing child nodes

  /**
   * What `childNodesForContainerNode` makes of a child object, given the
   * nodes before it started and the nodes already in the new list: the
   * first existing child representing the object, when that one is not
   * already in the list, and otherwise a new node naming the container as
   * its parent that can have child nodes exactly when it is a folder's.
   */
  ghost predicate MadeFor(nodes0: Nodes, nodes: Nodes, cn: nat, item: SidebarItem, prior: seq<nat>, node: nat)
    requires cn in nodes0
  {
    var found := FindFirst(nodes0[cn].childNodes, Represents(nodes0, item.obj));
    if found.Some? && found.value !in prior then
      node == found.value
    else
      node !in nodes0 && node in nodes && nodes[node] == NodeRec(Some(cn), item.obj, item.isFolder, false, [])
  }

  /** Where the child objects are distinct, every one that already had a child node gets that node back. */
  lemma DistinctObjectsReuse(nodes0: Nodes, nodes: Nodes, cn: nat, children: seq<SidebarItem>, updated: seq<nat>, k: nat)
    requires cn in nodes0 && |updated| == |children| && k < |children|
    requires forall j :: 0 <= j < |updated| ==> Represents(nodes, children[j].obj)(updated[j])
    requires forall m :: m in nodes0 ==> m in nodes && nodes[m] == nodes0[m]
    requires forall i, j :: 0 <= i < j < |children| ==> children[i].obj != children[j].obj
    requires MadeFor(nodes0, nodes, cn, children[k], updated[..k], updated[k])
    ensures var found := FindFirst(nodes0[cn].childNodes, Represents(nodes0, children[k].obj));
      found.Some? ==> updated[k] == found.value
  {
    var found := FindFirst(nodes0[cn].childNodes, Represents(nodes0, children[k].obj));
    if found.Some? {
      forall j | 0 <= j < k
        ensures updated[j] != found.value
      {
        assert Represents(nodes, children[j].obj)(updated[j]);
        assert Represents(nodes0, children[k].obj)(found.value);
      }
      assert found.value !in updated[..k];
    }
  }

  class SidebarDelegate {
    var filterExceptions: set<SidebarItemIdentifier>
    var isReadFiltered: bool

    constructor ()
      ensures filterExceptions == {} && !isReadFiltered
    {
      filterExceptions := {};
      isReadFiltered := false;
    }

    /** `addFilterException`. */
    method AddFilterException(id: SidebarItemIdentifier)
      modifies this
      ensures filterExceptions == old(filterExceptions) + {id} && isReadFiltered == old(isReadFiltered)
    {
      filterExceptions := filterExceptions + {id};
    }

    /** `resetFilterExceptions`. */
    method ResetFilterExceptions()
      modifies this
      ensures filterExceptions == {} && isReadFiltered == old(isReadFiltered)
    {
      filterExceptions := {};
    }

    /** The two filtering loops of `childNodesForContainerNode`. */
    method ChildObjects(c: Container) returns (children: seq<SidebarItem>)
      ensures children == ContainerChildren(filterExceptions, isReadFiltered, c)
    {
      var feeds := c.topLevelFeeds;
      children := [];
      var i := 0;
      while i < |feeds|
        invariant 0 <= i <= |feeds|
        invariant children == ShownItems(filterExceptions, isReadFiltered, feeds[..i])
      {
        assert feeds[..i + 1][..i] == feeds[..i];
        if Shown(filterExceptions, isReadFiltered, feeds[i]) {
          children := children + [feeds[i]];
        }
        i := i + 1;
      }
      assert feeds[..i] == feeds;
      var shownFeeds := children;
      var folders := c.folders.GetOr([]);
      var shownFolders := [];
      var j := 0;
      while j < |folders|
        invariant 0 <= j <= |folders|
        invariant shownFolders == ShownItems(filterExceptions, isReadFiltered, folders[..j])
      {
        assert folders[..j + 1][..j] == folders[..j];
        if Shown(filterExceptions, isReadFiltered, folders[j]) {
          shownFolders := shownFolders + [folders[j]];
        }
        j := j + 1;
      }
      assert folders[..j] == folders;
      children := shownFeeds + shownFolders;
    }
  }

  // ---------------------------------------------------------------- building the child nodes

  /** The root's child nodes: the smart-feeds node, then the data store's node when the store is active; all group items. */
  ghost predicate RootChildNodes(nodes: Nodes, root: nat, sidebar: Sidebar, r: seq<nat>) {
    |r| == (if sidebar.dataStoreActive then 2 else 1)
    && (forall k :: 0 <= k < |r| ==> GroupChild(nodes, root, r[k]))
    && Represents(nodes, sidebar.smartFeedsObj)(r[0])
    && (sidebar.dataStoreActive ==> Represents(nodes, sidebar.dataStoreObj)(r[1]))
  }

  /** `childNodesForRootNode`: the smart-feeds node, then the data store's node when the store is active; both are group items. */
  method ChildNodesForRootNode(arena: NodeArena, root: nat, sidebar: Sidebar) returns (r: seq<nat>)
    requires arena.Valid() && root in arena.nodes
    modifies arena
    ensures arena.Valid()
    ensures RootChildNodes(arena.nodes, root, sidebar, r)
  {
    var smartFeedsNode := GroupChildNode(arena, root, sidebar.smartFeedsObj);
    r := [smartFeedsNode];
    if sidebar.dataStoreActive {
      ghost var before := arena.nodes;
      var feedsNode := GroupChildNode(arena, root, sidebar.dataStoreObj);
      assert GroupChild(before, root, smartFeedsNode) && Represents(before, sidebar.smartFeedsObj)(smartFeedsNode);
      r := r + [feedsNode];
    }
  }

  /** A child of `n` that can have child nodes and is a group item. */
  predicate GroupChild(nodes: Nodes, n: nat, c: nat) {
    ChildOf(nodes, n, c) && nodes[c].canHaveChildNodes && nodes[c].isGroupItem
  }

  /** The existing or new child node for the object, made a group that can have child nodes; no other node changes. */
  method GroupChildNode(arena: NodeArena, root: nat, obj: nat) returns (c: nat)
    requires arena.Valid() && root in arena.nodes
    modifies arena
    ensures arena.Valid() && GroupChild(arena.nodes, root, c) && Represents(arena.nodes, obj)(c)
    ensures forall m :: m in old(arena.nodes) ==>
      (m in arena.nodes && arena.nodes[m] == if m == c then old(arena.nodes)[m].(canHaveChildNodes := true, isGroupItem := true) else old(arena.nodes)[m])
  {
    c := arena.ExistingOrNewChildNode(root, obj);
    arena.SetFlags(c, true, true);
  }

  /**
   * The smart feeds' child nodes, given the nodes before and after: one per
   * smart feed, in order, each a child of `parent` representing its feed,
   * the first existing such child where there was one, and no node that
   * existed before changed.
   */
  ghost predicate SmartFeedChildNodes(nodes0: Nodes, nodes: Nodes, parent: nat, smartFeeds: seq<nat>, r: seq<nat>)
    requires parent in nodes0
  {
    |r| == |smartFeeds|
    && (forall k :: 0 <= k < |r| ==> ChildOf(nodes, parent, r[k]) && Represents(nodes, smartFeeds[k])(r[k]))
    && (forall m :: m in nodes0 ==> m in nodes && nodes[m] == nodes0[m])
    && (forall k :: 0 <= k < |r| ==>
      var found := FindFirst(nodes0[parent].childNodes, Represents(nodes0, smartFeeds[k]));
      found.Some? ==> r[k] == found.value)
  }

  /**
   * `childNodesForSmartFeeds`: a child node for every smart feed, in order,
   * whatever the read filter; an existing child representing the feed is
   * reused, and no node that existed before changes.
   */
  method ChildNodesForSmartFeeds(arena: NodeArena, parent: nat, smartFeeds: seq<nat>) returns (r: seq<nat>)
    requires arena.Valid() && parent in arena.nodes
    modifies arena
    ensures arena.Valid()
    ensures SmartFeedChildNodes(old(arena.nodes), arena.nodes, parent, smartFeeds, r)
  {
    ghost var nodes0 := arena.nodes;
    assert ChildrenLinked(nodes0);
    r := [];
    var i := 0;
    while i < |smartFeeds|
      invariant 0 <= i <= |smartFeeds| && |r| == i
      invariant arena.Valid() && parent in arena.nodes
      invariant forall k :: 0 <= k < i ==> ChildOf(arena.nodes, parent, r[k]) && Represents(arena.nodes, smartFeeds[k])(r[k])
      invariant forall m :: m in nodes0 ==> m in arena.nodes && arena.nodes[m] == nodes0[m]
      invariant forall k :: 0 <= k < i ==>
        var found := FindFirst(nodes0[parent].childNodes, Represents(nodes0, smartFeeds[k]));
        found.Some? ==> r[k] == found.value
    {
      var node := ReuseOrCreateChild(arena, nodes0, parent, smartFeeds[i]);
      r := r + [node];
      i := i + 1;
    }
  }

  /** One round of that loop: the first existing child of `parent` representing `obj`, else a new one; no existing node changes. */
  method ReuseOrCreateChild(arena: NodeArena, ghost nodes0: Nodes, parent: nat, obj: nat) returns (node: nat)
    requires arena.Valid() && parent in nodes0 && ChildrenLinked(nodes0)
    requires forall m :: m in nodes0 ==> m in arena.nodes && arena.nodes[m] == nodes0[m]
    modifies arena
    ensures arena.Valid() && ChildOf(arena.nodes, parent, node) && Represents(arena.nodes, obj)(node)
    ensures forall m :: m in old(arena.nodes) ==> m in arena.nodes && arena.nodes[m] == old(arena.nodes)[m]
    ensures var found := FindFirst(nodes0[parent].childNodes, Represents(nodes0, obj));
      found.Some? ==> node == found.value
  {
    FindFirstSameTest(nodes0[parent].childNodes, Represents(arena.nodes, obj), Represents(nodes0, obj));
    node := arena.ExistingOrNewChildNode(parent, obj);
  }

  /** One round of the reuse loop: the existing child node, unless it is already listed, or else a new node. */
  method ReuseOrCreate(arena: NodeArena, ghost nodes0: Nodes, cn: nat, item: SidebarItem, prior: seq<nat>) returns (node: nat)
    requires arena.Valid() && cn in nodes0 && ChildrenLinked(nodes0)
    requires forall m :: m in nodes0 ==> m in arena.nodes && arena.nodes[m] == nodes0[m]
    requires forall k :: 0 <= k < |prior| ==> prior[k] in arena.nodes
    modifies arena
    ensures arena.Valid() && node !in prior
    ensures forall m :: m in old(arena.nodes) ==> m in arena.nodes && arena.nodes[m] == old(arena.nodes)[m]
    ensures ChildOf(arena.nodes, cn, node) && Represents(arena.nodes, item.obj)(node)
    ensures MadeFor(nodes0, arena.nodes, cn, item, prior, node)
  {
    var existing := ChildNodeRepresentingObject(arena.nodes, arena.incrementingID, cn, item.obj);
    FindFirstSameTest(nodes0[cn].childNodes, Represents(arena.nodes, item.obj), Represents(nodes0, item.obj));
    if existing.Some? && existing.value !in prior {
      node := existing.value;
    } else {
      node := arena.CreateChildNode(cn, item.obj);
      if item.isFolder {
        arena.SetFlags(node, true, false);
      }
    }
  }

  /**
   * After the reuse loop has handled the first `|updated|` child objects:
   * no node that existed before changed, and each handled object has its
   * own node, a child of the container representing it, made as `MadeFor` says.
   */
  ghost predicate Reconciled(nodes0: Nodes, nodes: Nodes, cn: nat, children: seq<SidebarItem>, updated: seq<nat>)
    requires cn in nodes0 && |updated| <= |children|
  {
    (forall m :: m in nodes0 ==> m in nodes && nodes[m] == nodes0[m])
    && (forall k :: 0 <= k < |updated| ==> ChildOf(nodes, cn, updated[k]) && Represents(nodes, children[k].obj)(updated[k]))
    && (forall j, k :: 0 <= j < k < |updated| ==> updated[j] != updated[k])
    && (forall k :: 0 <= k < |updated| ==> MadeFor(nodes0, nodes, cn, children[k], updated[..k], updated[k]))
  }

  lemma ReconciledStep(nodes0: Nodes, before: Nodes, after: Nodes, cn: nat, children: seq<SidebarItem>, updated: seq<nat>, node: nat)
    requires cn in nodes0 && |updated| < |children|
    requires Reconciled(nodes0, before, cn, children, updated)
    requires forall m :: m in before ==> m in after && after[m] == before[m]
    requires ChildOf(after, cn, node) && Represents(after, children[|updated|].obj)(node) && node !in updated
    requires MadeFor(nodes0, after, cn, children[|updated|], updated, node)
    ensures Reconciled(nodes0, after, cn, children, updated + [node])
  {
    var i := |updated|;
    var u := updated + [node];
    forall k | 0 <= k < i
      ensures u[..k] == updated[..k]
      ensures MadeFor(nodes0, after, cn, children[k], u[..k], u[k])
    {
      assert MadeFor(nodes0, before, cn, children[k], updated[..k], updated[k]);
    }
    assert u[..i] == updated;
  }

  /**
   * The reuse loop of `childNodesForContainerNode`: one node per child
   * object, in order, each a child of the container representing that
   * object, none listed twice, and no node that existed before changed.
   */
  method UpdatedChildNodes(arena: NodeArena, cn: nat, children: seq<SidebarItem>) returns (updated: seq<nat>)
    requires arena.Valid() && cn in arena.nodes
    modifies arena
    ensures arena.Valid() && |updated| == |children|
    ensures Reconciled(old(arena.nodes), arena.nodes, cn, children, updated)
  {
    ghost var nodes0 := arena.nodes;
    updated := [];
    var i := 0;
    while i < |children|
      invariant 0 <= i <= |children| && |updated| == i
      invariant arena.Valid() && cn in arena.nodes
      invariant Reconciled(nodes0, arena.nodes, cn, children, updated)
    {
      ghost var before := arena.nodes;
      assert forall k :: 0 <= k < |updated| ==> ChildOf(before, cn, updated[k]);
      var node := ReuseOrCreate(arena, nodes0, cn, children[i], updated);
      ReconciledStep(nodes0, before, arena.nodes, cn, children, updated, node);
      updated := updated + [node];
      i := i + 1;
    }
  }

  /** A container's child nodes: one per shown child object, made as the reuse loop makes them. */
  ghost predicate ContainerChildNodes(nodes0: Nodes, nodes: Nodes, cn: nat, children: seq<SidebarItem>, r: seq<nat>)
    requires cn in nodes0
  {
    |r| == |children| && Reconciled(nodes0, nodes, cn, children, r)
  }

  /** `childNodesForContainerNode`, before the final sort: the shown feeds and folders, as reused or new child nodes. */
  method ChildNodesForContainerNode(arena: NodeArena, delegate: SidebarDelegate, cn: nat, c: Container) returns (r: seq<nat>)
    requires arena.Valid() && cn in arena.nodes
    modifies arena
    ensures arena.Valid()
    ensures ContainerChildNodes(old(arena.nodes), arena.nodes, cn, ContainerChildren(delegate.filterExceptions, delegate.isReadFiltered, c), r)
  {
    var children := delegate.ChildObjects(c);
    r := UpdatedChildNodes(arena, cn, children);
  }

  /**
   * `treeController(_:childNodesFor:)`: the root's children, a container's,
   * the smart feeds', or nil for any other node.
   */
  method ChildNodesFor(arena: NodeArena, delegate: SidebarDelegate, sidebar: Sidebar, node: nat) returns (r: Option<seq<nat>>)
    requires arena.Valid() && node in arena.nodes
    modifies arena
    ensures arena.Valid()
    ensures r.None? <==> (!IsRoot(old(arena.nodes), node) && old(arena.nodes)[node].representedObject !in sidebar.containers
      && old(arena.nodes)[node].representedObject != sidebar.smartFeedsObj)
    ensures r.None? ==> arena.nodes == old(arena.nodes)
    ensures r.Some? ==> forall k :: 0 <= k < |r.value| ==> ChildOf(arena.nodes, node, r.value[k])
    ensures IsRoot(old(arena.nodes), node) ==> r.Some? && RootChildNodes(arena.nodes, node, sidebar, r.value)
    ensures var obj := old(arena.nodes)[node].representedObject;
      !IsRoot(old(arena.nodes), node) && obj in sidebar.containers ==>
        (r.Some? && ContainerChildNodes(old(arena.nodes), arena.nodes, node,
           ContainerChildren(delegate.filterExceptions, delegate.isReadFiltered, sidebar.containers[obj]), r.value))
    ensures var obj := old(arena.nodes)[node].representedObject;
      !IsRoot(old(arena.nodes), node) && obj !in sidebar.containers && obj == sidebar.smartFeedsObj ==>
        (r.Some? && SmartFeedChildNodes(old(arena.nodes), arena.nodes, node, sidebar.smartFeeds, r.value))
  {
    var obj := arena.nodes[node].representedObject;
    if arena.nodes[node].parent.None? {
      var list := ChildNodesForRootNode(arena, node, sidebar);
      forall k | 0 <= k < |list| ensures ChildOf(arena.nodes, node, list[k]) {
        assert GroupChild(arena.nodes, node, list[k]);
      }
      return Some(list);
    }
    if obj in sidebar.containers {
      var list := ChildNodesForContainerNode(arena, delegate, node, sidebar.containers[obj]);
      return Some(list);
    }
    if obj == sidebar.smartFeedsObj {
      var list := ChildNodesForSmartFeeds(arena, node, sidebar.smartFeeds);
      return Some(list);
    }
    return None;
  }
}
