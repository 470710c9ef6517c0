/**
 * `DeleteCommand`: deleting sidebar nodes that represent feeds and folders.
 * Which kind of object a node represents, and which data store an object
 * belongs to, are parameters; the nodes are a snapshot of the node tree.
 */
module DeleteCommandModel {
  import opened Wrappers
  import opened NodeTree

  datatype ObjectKind = FeedObject | FolderObject | OtherObject

  const DeleteFeedName := "Delete Feed"
  const DeleteFeedsName := "Delete Feeds"
  const DeleteFolderName := "Delete Folder"
  const DeleteFoldersName := "Delete Folders"
  const DeleteFeedsAndFoldersName := "Delete Feeds and Folders"

  /** Whether the node at `list[k]` stands for a feed or a folder. */
  predicate FeedOrFolder(nodes: Nodes, n: nat, kindOf: nat -> ObjectKind)
    requires n in nodes
  {
    kindOf(nodes[n].representedObject) != OtherObject
  }

  predicate AllNodes(nodes: Nodes, list: seq<nat>) {
    forall k :: 0 <= k < |list| ==> list[k] in nodes
  }

  /** `canDelete(_:)`: a nonempty list of feeds and folders only. */
  method CanDelete(nodes: Nodes, list: seq<nat>, kindOf: nat -> ObjectKind) returns (b: bool)
    requires AllNodes(nodes, list)
    ensures b <==> |list| > 0 && forall k :: 0 <= k < |list| ==> FeedOrFolder(nodes, list[k], kindOf)
  {
    if |list| == 0 {
      return false;
    }
    var i := 0;
    while i < |list|
      invariant 0 <= i <= |list|
      invariant forall k :: 0 <= k < i ==> FeedOrFolder(nodes, list[k], kindOf)
    {
      var kind := kindOf(nodes[list[i]].representedObject);
      if kind == FeedObject {
        i := i + 1;
        continue;
      }
      if kind == FolderObject {
        i := i + 1;
        continue;
      }
      return false;
    }
    return true;
  }

  // ---------------------------------------------------------------- action name

  /** How many nodes of the list stand for objects of the kind. */
  function CountKind(nodes: Nodes, list: seq<nat>, kindOf: nat -> ObjectKind, kind: ObjectKind): (r: nat)
    requires AllNodes(nodes, list)
    ensures r <= |list|
  {
    if |list| == 0 then 0
    else
      CountKind(nodes, list[..|list| - 1], kindOf, kind)
      + (if kindOf(nodes[list[|list| - 1]].representedObject) == kind then 1 else 0)
  }

  /** `DeleteActionName.name(for:)`: nil if a node is neither a feed nor a folder; otherwise named by the counts. */
  function NameFor(nodes: Nodes, list: seq<nat>, kindOf: nat -> ObjectKind): Option<string>
    requires AllNodes(nodes, list)
  {
    if exists k :: 0 <= k < |list| && !FeedOrFolder(nodes, list[k], kindOf) then None
    else
      var feeds := CountKind(nodes, list, kindOf, FeedObject);
      var folders := CountKind(nodes, list, kindOf, FolderObject);
      if folders < 1 then Some(if feeds == 1 then DeleteFeedName else DeleteFeedsName)
      else if feeds < 1 then Some(if folders == 1 then DeleteFolderName else DeleteFoldersName)
      else Some(DeleteFeedsAndFoldersName)
  }

  /** The loop of `name(for:)`: counts the feeds and folders, stopping at anything else. */
  method ActionName(nodes: Nodes, list: seq<nat>, kindOf: nat -> ObjectKind) returns (r: Option<string>)
    requires AllNodes(nodes, list)
    ensures r == NameFor(nodes, list, kindOf)
  {
    var numberOfFeeds := 0;
    var numberOfFolders := 0;
    var i := 0;
    while i < |list|
      invariant 0 <= i <= |list|
      invariant forall k :: 0 <= k < i ==> FeedOrFolder(nodes, list[k], kindOf)
      invariant numberOfFeeds == CountKind(nodes, list[..i], kindOf, FeedObject)
      invariant numberOfFolders == CountKind(nodes, list[..i], kindOf, FolderObject)
    {
      assert list[..i + 1][..i] == list[..i];
      var kind := kindOf(nodes[list[i]].representedObject);
      if kind == FeedObject {
        numberOfFeeds := numberOfFeeds + 1;
      } else if kind == FolderObject {
        numberOfFolders := numberOfFolders + 1;
      } else {
        return None;
      }
      i := i + 1;
    }
    assert list[..i] == list;
    if numberOfFolders < 1 {
      return Some(if numberOfFeeds == 1 then DeleteFeedName else DeleteFeedsName);
    }
    if numberOfFeeds < 1 {
      return Some(if numberOfFolders == 1 then DeleteFolderName else DeleteFoldersName);
    }
    return Some(DeleteFeedsAndFoldersName);
  }

  /** With only feeds and folders, every node is counted once. */
  lemma {:induction false} CountsAddUp(nodes: Nodes, list: seq<nat>, kindOf: nat -> ObjectKind)
    requires AllNodes(nodes, list)
    requires forall k :: 0 <= k < |list| ==> FeedOrFolder(nodes, list[k], kindOf)
    ensures CountKind(nodes, list, kindOf, FeedObject) + CountKind(nodes, list, kindOf, FolderObject) == |list|
    decreases |list|
  {
    if |list| > 0 {
      var init := list[..|list| - 1];
      assert forall k :: 0 <= k < |init| ==> init[k] == list[k];
      CountsAddUp(nodes, init, kindOf);
    }
  }

  /** Whatever `canDelete` accepts has a name; a single feed or folder is named in the singular, a mix by both. */
  lemma NameOfDeletable(nodes: Nodes, list: seq<nat>, kindOf: nat -> ObjectKind)
    requires AllNodes(nodes, list)
    requires |list| > 0 && forall k :: 0 <= k < |list| ==> FeedOrFolder(nodes, list[k], kindOf)
    ensures NameFor(nodes, list, kindOf).Some?
    ensures |list| == 1 ==>
      NameFor(nodes, list, kindOf) ==
        Some(if kindOf(nodes[list[0]].representedObject) == FeedObject then DeleteFeedName else DeleteFolderName)
    ensures CountKind(nodes, list, kindOf, FeedObject) > 0 && CountKind(nodes, list, kindOf, FolderObject) > 0 ==>
      NameFor(nodes, list, kindOf) == Some(DeleteFeedsAndFoldersName)
    ensures CountKind(nodes, list, kindOf, FolderObject) == 0 ==>
      NameFor(nodes, list, kindOf) == Some(if |list| == 1 then DeleteFeedName else DeleteFeedsName)
  {
    CountsAddUp(nodes, list, kindOf);
    if |list| == 1 {
      assert list[..0] == [];
    }
  }

  /** Anything else in the list leaves no name. */
  lemma NoNameForOthers(nodes: Nodes, list: seq<nat>, kindOf: nat -> ObjectKind, k: nat)
    requires AllNodes(nodes, list) && k < |list| && !FeedOrFolder(nodes, list[k], kindOf)
    ensures NameFor(nodes, list, kindOf).None?
  {
  }

  // ---------------------------------------------------------------- where a node sits

  /** `parentFolder()`: the folder the parent stands for, unless there is no parent or it is the root. */
  function ParentFolder(nodes: Nodes, nextID: nat, n: nat, kindOf: nat -> ObjectKind): (r: Option<nat>)
    requires WellFormed(nodes, nextID) && n in nodes
    ensures r.Some? <==>
      nodes[n].parent.Some? && !IsRoot(nodes, nodes[n].parent.value)
      && kindOf(nodes[nodes[n].parent.value].representedObject) == FolderObject
    ensures r.Some? ==> r.value == nodes[nodes[n].parent.value].representedObject && kindOf(r.value) == FolderObject
  {
    match nodes[n].parent
    case None => None
    case Some(p) =>
      if IsRoot(nodes, p) then None
      else if kindOf(nodes[p].representedObject) == FolderObject then Some(nodes[p].representedObject)
      else None
  }

  /** The objects of the leading run of folder nodes of a chain of nodes. */
  function FolderRun(nodes: Nodes, chain: seq<nat>, kindOf: nat -> ObjectKind): (r: seq<nat>)
    requires forall k :: 0 <= k < |chain| ==> chain[k] in nodes
    ensures |r| <= |chain|
    ensures forall k :: 0 <= k < |r| ==> kindOf(r[k]) == FolderObject && r[k] == nodes[chain[k]].representedObject
  {
    if |chain| == 0 || kindOf(nodes[chain[0]].representedObject) != FolderObject then []
    else [nodes[chain[0]].representedObject] + FolderRun(nodes, chain[1..], kindOf)
  }

  function Reversed(s: seq<nat>): (r: seq<nat>)
    ensures |r| == |s| && forall k :: 0 <= k < |s| ==> r[k] == s[|s| - 1 - k]
  {
    if |s| == 0 then [] else Reversed(s[1..]) + [s[0]]
  }

  /** A node and the ancestors above it. */
  function Chain(nodes: Nodes, nextID: nat, nomad: Option<nat>): (r: seq<nat>)
    requires ParentsLinked(nodes, nextID) && (nomad.Some? ==> nomad.value in nodes)
    ensures forall k :: 0 <= k < |r| ==> r[k] in nodes
  {
    if nomad.None? then [] else [nomad.value] + Ancestors(nodes, nextID, nomad.value)
  }

  /** The folders a node is in, top-down: the run of folders among its ancestors, outermost first. */
  function ContainingFoldersOf(nodes: Nodes, nextID: nat, n: nat, kindOf: nat -> ObjectKind): seq<nat>
    requires WellFormed(nodes, nextID) && n in nodes
  {
    Reversed(FolderRun(nodes, Ancestors(nodes, nextID, n), kindOf))
  }

  /**
   * `containingFolders()`: walks up from the parent while the nodes stand
   * for folders, then lists the folders in the reverse of the order found.
   */
  method ContainingFolders(nodes: Nodes, nextID: nat, n: nat, kindOf: nat -> ObjectKind) returns (r: seq<nat>)
    requires WellFormed(nodes, nextID) && n in nodes
    ensures r == ContainingFoldersOf(nodes, nextID, n, kindOf)
  {
    assert Chain(nodes, nextID, nodes[n].parent) == Ancestors(nodes, nextID, n);
    var folders := FoldersUpFrom(nodes, nextID, nodes[n].parent, kindOf);
    r := Reversed(folders);
  }

  /** The walk itself: from `start` up while the nodes stand for folders, collecting their objects. */
  method FoldersUpFrom(nodes: Nodes, nextID: nat, start: Option<nat>, kindOf: nat -> ObjectKind) returns (folders: seq<nat>)
    requires ParentsLinked(nodes, nextID) && (start.Some? ==> start.value in nodes)
    ensures folders == FolderRun(nodes, Chain(nodes, nextID, start), kindOf)
  {
    var nomad := start;
    folders := [];
    ghost var run := FolderRun(nodes, Chain(nodes, nextID, start), kindOf);
    while nomad.Some?
      invariant nomad.Some? ==> nomad.value in nodes
      invariant folders + FolderRun(nodes, Chain(nodes, nextID, nomad), kindOf) == run
      decreases if nomad.Some? then nomad.value + 1 else 0
    {
      var p := nomad.value;
      var obj := nodes[p].representedObject;
      if kindOf(obj) == FolderObject {
        FolderRunStep(nodes, nextID, p, kindOf);
        folders := folders + [obj];
      } else {
        assert FolderRun(nodes, Chain(nodes, nextID, nomad), kindOf) == [];
        break;
      }
      nomad := nodes[p].parent;
    }
    assert folders == run;
  }

  /** One step up a chain whose first node stands for a folder. */
  lemma FolderRunStep(nodes: Nodes, nextID: nat, p: nat, kindOf: nat -> ObjectKind)
    requires ParentsLinked(nodes, nextID) && p in nodes
    requires kindOf(nodes[p].representedObject) == FolderObject
    ensures FolderRun(nodes, Chain(nodes, nextID, Some(p)), kindOf)
      == [nodes[p].representedObject] + FolderRun(nodes, Chain(nodes, nextID, nodes[p].parent), kindOf)
  {
    var chain := Chain(nodes, nextID, Some(p));
    assert chain[1..] == Chain(nodes, nextID, nodes[p].parent);
  }

  /** The innermost containing folder is the parent folder, whenever there is one. */
  lemma ParentFolderInnermost(nodes: Nodes, nextID: nat, n: nat, kindOf: nat -> ObjectKind)
    requires WellFormed(nodes, nextID) && n in nodes
    requires ParentFolder(nodes, nextID, n, kindOf).Some?
    ensures var f := ContainingFoldersOf(nodes, nextID, n, kindOf);
      |f| > 0 && f[|f| - 1] == ParentFolder(nodes, nextID, n, kindOf).value
    ensures forall k :: 0 <= k < |ContainingFoldersOf(nodes, nextID, n, kindOf)| ==>
      kindOf(ContainingFoldersOf(nodes, nextID, n, kindOf)[k]) == FolderObject
  {
    var run := FolderRun(nodes, Ancestors(nodes, nextID, n), kindOf);
    assert |run| > 0;
  }

  /** A node whose parent is no folder is in no folder. */
  lemma NoContainingFolders(nodes: Nodes, nextID: nat, n: nat, kindOf: nat -> ObjectKind)
    requires WellFormed(nodes, nextID) && n in nodes
    requires nodes[n].parent.None? || kindOf(nodes[nodes[n].parent.value].representedObject) != FolderObject
    ensures ContainingFoldersOf(nodes, nextID, n, kindOf) == []
  {
  }

  // ---------------------------------------------------------------- the command

  /** `ContainerPath`: a data store and the folders inside it, top-down. */
  datatype ContainerPath = ContainerPath(dataStore: nat, folders: seq<nat>)

  /** `SidebarItemSpecifier`: what is remembered of a node to delete so it can be restored. */
  datatype ItemSpecifier = ItemSpecifier(
    dataStore: nat, parentFolder: Option<nat>, folder: Option<nat>, feed: Option<nat>, path: ContainerPath)

  /** `SidebarItemSpecifier.init?(node:)`: nil for a node that is no feed or folder, or whose object has no data store. */
  function SpecifierFor(nodes: Nodes, nextID: nat, n: nat, kindOf: nat -> ObjectKind, dataStoreOf: nat -> Option<nat>)
    : (r: Option<ItemSpecifier>)
    requires WellFormed(nodes, nextID) && n in nodes
    ensures r.Some? <==> FeedOrFolder(nodes, n, kindOf) && dataStoreOf(nodes[n].representedObject).Some?
    ensures r.Some? ==>
      var obj := nodes[n].representedObject;
      r.value.dataStore == dataStoreOf(obj).value == r.value.path.dataStore
      && (kindOf(obj) == FeedObject ==> r.value.feed == Some(obj) && r.value.folder.None?)
      && (kindOf(obj) == FolderObject ==> r.value.folder == Some(obj) && r.value.feed.None?)
      && r.value.path.folders == ContainingFoldersOf(nodes, nextID, n, kindOf)
      && r.value.parentFolder == ParentFolder(nodes, nextID, n, kindOf)
  {
    var obj := nodes[n].representedObject;
    var parentFolder := ParentFolder(nodes, nextID, n, kindOf);
    var kind := kindOf(obj);
    if kind == OtherObject then None
    else
      match dataStoreOf(obj)
      case None => None
      case Some(dataStore) =>
        Some(ItemSpecifier(
          dataStore, parentFolder,
          if kind == FolderObject then Some(obj) else None,
          if kind == FeedObject then Some(obj) else None,
          ContainerPath(dataStore, ContainingFoldersOf(nodes, nextID, n, kindOf))))
  }

  /** `compactMap` of the specifiers over the nodes. */
  function Specifiers(nodes: Nodes, nextID: nat, list: seq<nat>, kindOf: nat -> ObjectKind, dataStoreOf: nat -> Option<nat>)
    : (r: seq<ItemSpecifier>)
    requires WellFormed(nodes, nextID) && AllNodes(nodes, list)
    ensures |r| <= |list|
    ensures |r| == 0 <==> forall k :: 0 <= k < |list| ==> SpecifierFor(nodes, nextID, list[k], kindOf, dataStoreOf).None?
  {
    if |list| == 0 then []
    else
      var rest := Specifiers(nodes, nextID, list[1..], kindOf, dataStoreOf);
      assert forall k :: 1 <= k < |list| ==> list[k] == list[1..][k - 1];
      match SpecifierFor(nodes, nextID, list[0], kindOf, dataStoreOf)
      case Some(sp) => [sp] + rest
      case None => rest
  }

  /** The command: its one action name (the redo name is the same) and the specifiers of what it deletes. */
  datatype DeleteCommand = DeleteCommand(undoActionName: string, itemSpecifiers: seq<ItemSpecifier>)

  /** The failable `init`: nil unless the nodes can be deleted, have a name, and at least one yields a specifier. */
  method NewDeleteCommand(nodes: Nodes, nextID: nat, list: seq<nat>, kindOf: nat -> ObjectKind, dataStoreOf: nat -> Option<nat>)
    returns (r: Option<DeleteCommand>)
    requires WellFormed(nodes, nextID) && AllNodes(nodes, list)
    ensures r.None? <==>
      |list| == 0
      || (exists k :: 0 <= k < |list| && !FeedOrFolder(nodes, list[k], kindOf))
      || forall k :: 0 <= k < |list| ==> dataStoreOf(nodes[list[k]].representedObject).None?
    ensures r.Some? ==>
      Some(r.value.undoActionName) == NameFor(nodes, list, kindOf)
      && r.value.itemSpecifiers == Specifiers(nodes, nextID, list, kindOf, dataStoreOf)
  {
    var canDelete := CanDelete(nodes, list, kindOf);
    if !canDelete {
      return None;
    }
    var actionName := ActionName(nodes, list, kindOf);
    if actionName.None? {
      NameOfDeletable(nodes, list, kindOf);
      return None;
    }
    var itemSpecifiers := Specifiers(nodes, nextID, list, kindOf, dataStoreOf);
    if |itemSpecifiers| == 0 {
      return None;
    }
    return Some(DeleteCommand(actionName.value, itemSpecifiers));
  }
}
