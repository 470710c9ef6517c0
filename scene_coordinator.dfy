/**
 * `SceneCoordinator`: the state behind the sidebar and the timeline of one
 * window (the shadow table, the current index path, the expanded
 * containers, the timeline's articles and the current article) and the
 * navigation over it: previous and next rows and articles, the unread
 * scans, the search for the next feed with unread articles, the lookup of
 * nodes and index paths, the expansion set, and rebuilding the shadow
 * table from the sidebar tree.
 *
 * What a node represents (a sidebar item, a container, an unread-count
 * provider, a data store) is given by `objectOf`, keyed by node.
 */
module SceneCoordinatorModel {
  import opened Wrappers
  import opened ShadowTable
  import opened ArticleStatusModel
  import opened ArticleModel
  import opened SceneTables
  import NodeTree
  import ContainerId
  import SidebarId

  /** The casts the coordinator makes on a node's represented object. */
  datatype RepresentedObject = RepresentedObject(
    /** `as? SidebarItem` succeeds, with this `sidebarItemID`. */
    isSidebarItem: bool,
    sidebarItemID: Option<SidebarId.SidebarItemIdentifier>,
    /** `(as? ContainerIdentifiable)?.containerID`. */
    containerID: Option<ContainerId.ContainerIdentifier>,
    /** `as? Container` succeeds. */
    isContainer: bool,
    /** `(as? UnreadCountProvider)?.unreadCount`. */
    unreadCount: Option<int>,
    /** `(as? DataStore)?.dataStoreID`. */
    dataStoreID: Option<string>)

  /** `article != currentArticle` fails: both nil, or equal articles. */
  predicate SameArticle(a: Option<Article>, b: Option<Article>) {
    (a.None? && b.None?) || (a.Some? && b.Some? && ArticleEquals(a.value, b.value))
  }

  /** Row-major order of index paths. */
  predicate Before(p: IndexPath, q: IndexPath) {
    p.section < q.section || (p.section == q.section && p.row < q.row)
  }

  /**
   * Where `selectNextUnreadFeed(completion:)` starts: the row after the
   * current one, else row 0 of the next section, wrapping to (0, 0) past
   * the last section. Without a current path it starts from (-1, 0).
   */
  function NextUnreadFeedStart(t: Table, current: Option<IndexPath>): (r: IndexPath)
    requires current.Some? ==> 0 <= current.value.section < |t| && 0 <= current.value.row
    requires current.None? ==> |t| > 0
    ensures var ip := current.GetOr(IndexPath(-1, 0));
      && (ip.row + 1 < |t[ip.section].feedNodes| ==> r == IndexPath(ip.row + 1, ip.section))
      && (ip.row + 1 >= |t[ip.section].feedNodes| && ip.section + 1 < |t| ==> r == IndexPath(0, ip.section + 1))
      && (ip.row + 1 >= |t[ip.section].feedNodes| && ip.section + 1 >= |t| ==> r == IndexPath(0, 0))
    ensures 0 <= r.section < |t| && 0 <= r.row <= |t[r.section].feedNodes|
  {
    var indexPath := if current.None? then IndexPath(-1, 0) else current.value;
    if indexPath.row + 1 >= |t[indexPath.section].feedNodes| then
      if indexPath.section + 1 >= |t| then IndexPath(0, 0) else IndexPath(0, indexPath.section + 1)
    else
      IndexPath(indexPath.row + 1, indexPath.section)
  }

  /** Inside a section the start of the search is the row `nextFeedIndexPath` gives. */
  lemma NextUnreadFeedStartAgreesWithinSection(t: Table, ip: IndexPath)
    requires InTable(t, ip) && ip.row + 1 < |t[ip.section].feedNodes|
    ensures NextFeedPath(t, Some(ip)) == Some(NextUnreadFeedStart(t, Some(ip)))
  {
  }

  /** Short of the table's last section, the search from the start skips no row after the current one. */
  lemma NextUnreadFeedStartSkipsNothing(t: Table, ip: IndexPath)
    requires InTable(t, ip) && ip.section + 1 < |t|
    ensures forall q :: InTable(t, q) && Before(ip, q) ==> !Before(q, NextUnreadFeedStart(t, Some(ip)))
  {
  }

  /**
   * `currentFeedIndexPath` after `rebuildShadowTable`, as written: the
   * timeline feed's node is looked up while `shadowTable` still holds the
   * old table.
   */
  function ResetFeedPathAsWritten(oldTable: Table, current: Option<IndexPath>, timelineNode: Option<nat>): Option<IndexPath> {
    if current.None? then None
    else if timelineNode.None? then None
    else IndexPathFrom(oldTable, timelineNode.value, 0)
  }

  /** As written, the reset path can name a row of the new table that is not the timeline feed's. */
  lemma ResetFeedPathAsWrittenIsStale()
    ensures var oldTable := [Section("a", [FeedNode(1), FeedNode(2)])];
      var newTable := [Section("a", [FeedNode(2)])];
      var r := ResetFeedPathAsWritten(oldTable, Some(IndexPath(1, 0)), Some(2));
      r == Some(IndexPath(1, 0)) && NodeAt(newTable, r.value) != Some(2) && NodeAt(newTable, IndexPath(0, 0)) == Some(2)
  {
    var oldTable := [Section("a", [FeedNode(1), FeedNode(2)])];
    assert RowOf(oldTable[0].feedNodes, 2, 0) == Some(1);
  }

  /** `currentFeedIndexPath` after `rebuildShadowTable`, as evidently intended: looked up in the new table. */
  function ResetFeedPath(newTable: Table, current: Option<IndexPath>, timelineNode: Option<nat>): Option<IndexPath> {
    if current.None? then None
    else if timelineNode.None? then None
    else IndexPathFrom(newTable, timelineNode.value, 0)
  }

  /** The corrected reset names a row of the new table holding the timeline feed's node, and is nil only when no section holds it (or nothing was selected). */
  lemma ResetFeedPathFindsNode(newTable: Table, current: Option<IndexPath>, timelineNode: Option<nat>)
    ensures var r := ResetFeedPath(newTable, current, timelineNode);
      && (r.Some? ==> timelineNode.Some? && NodeAt(newTable, r.value) == timelineNode)
      && (current.Some? && timelineNode.Some? && r.None? ==> forall s :: 0 <= s < |newTable| ==> !InSection(newTable, s, timelineNode.value))
      && (current.None? || timelineNode.None? ==> r.None?)
  {
  }

  /** One row per node, in order. */
  function FeedNodesOf(children: seq<nat>): (r: seq<FeedNode>)
    ensures |r| == |children| && forall k :: 0 <= k < |r| ==> r[k] == FeedNode(children[k])
  {
    seq(|children|, k requires 0 <= k < |children| => FeedNode(children[k]))
  }

  /** The search of `indexPathFor(_ node:)`: the first section holding the node, at its first row there, or nil. */
  method IndexPathIn(table: Table, node: nat) returns (r: Option<IndexPath>)
    ensures r == IndexPathFrom(table, node, 0)
  {
    var i := 0;
    while i < |table|
      invariant 0 <= i <= |table|
      invariant IndexPathFrom(table, node, i) == IndexPathFrom(table, node, 0)
    {
      var row := RowOf(table[i].feedNodes, node, 0);
      if row.Some? {
        return Some(IndexPath(row.value, i));
      }
      i := i + 1;
    }
    return None;
  }

  /** The reset of the current feed path in `rebuildShadowTable`, against the new table. */
  method ResetFeedPathIn(newTable: Table, current: Option<IndexPath>, timelineNode: Option<nat>) returns (r: Option<IndexPath>)
    ensures r == ResetFeedPath(newTable, current, timelineNode)
  {
    r := None;
    if current.Some? && timelineNode.Some? {
      r := IndexPathIn(newTable, timelineNode.value);
    }
  }


  /** The first unread article at or after `from`. */
  function FirstUnreadFrom(s: seq<Article>, from: nat): (r: Option<nat>)
    reads StatusesIn(s)
    requires from <= |s|
    ensures r.Some? ==> from <= r.value < |s| && !s[r.value].status.read
    ensures r.Some? ==> forall j :: from <= j < r.value ==> s[j].status.read
    ensures r.None? ==> forall j :: from <= j < |s| ==> s[j].status.read
    decreases |s| - from
  {
    if from == |s| then None
    else
      assert s[from].status in StatusesIn(s);
      if !s[from].status.read then Some(from) else FirstUnreadFrom(s, from + 1)
  }

  /** The last unread article at or below `start`. */
  function LastUnreadAtOrBelow(s: seq<Article>, start: int): (r: Option<nat>)
    reads StatusesIn(s)
    requires start < |s|
    ensures r.Some? ==> r.value <= start && !s[r.value].status.read
    ensures r.Some? ==> forall j :: r.value < j <= start ==> s[j].status.read
    ensures r.None? ==> forall j :: 0 <= j <= start ==> s[j].status.read
    decreases start + 1
  {
    if start < 0 then None
    else
      assert s[start].status in StatusesIn(s);
      if !s[start].status.read then Some(start) else LastUnreadAtOrBelow(s, start - 1)
  }

  /** Some article is unread exactly when the count is positive, and then the first one is found from row 0. */
  lemma FirstUnreadExactlyWhenCounted(s: seq<Article>)
    ensures FirstUnreadFrom(s, 0).Some? <==> CountUnread(s) > 0
    ensures LastUnreadAtOrBelow(s, |s| - 1).Some? <==> CountUnread(s) > 0
  {
    CountUnreadPositive(s);
  }

  /**
   * `selectArticle(_:)` on the selection and the log of read marks: nothing
   * happens when the article equals the current one; otherwise it becomes
   * current, and a non-nil one is marked read.
   */
  function AfterSelect(current: Option<Article>, readMarks: seq<Article>, article: Option<Article>): (r: (Option<Article>, seq<Article>))
    ensures SameArticle(article, current) ==> r == (current, readMarks)
    ensures !SameArticle(article, current) && article.None? ==> r == (None, readMarks)
    ensures !SameArticle(article, current) && article.Some? ==> r == (article, readMarks + [article.value])
  {
    if SameArticle(article, current) then (current, readMarks)
    else if article.None? then (None, readMarks)
    else (article, readMarks + [article.value])
  }

  /** After a selection the current article equals the one asked for, and selecting it again changes nothing. */
  lemma AfterSelectSelectsAndIsIdempotent(current: Option<Article>, readMarks: seq<Article>, article: Option<Article>)
    ensures SameArticle(AfterSelect(current, readMarks, article).0, article)
    ensures var (c, m) := AfterSelect(current, readMarks, article); AfterSelect(c, m, article) == (c, m)
    ensures |AfterSelect(current, readMarks, article).1| <= |readMarks| + 1
  {
    if article.Some? {
      ArticleEqualityLaws(article.value, article.value, article.value, article.value.status, article.value.markdown);
      if current.Some? {
        ArticleEqualityLaws(article.value, current.value, article.value, article.value.status, article.value.markdown);
      }
    }
  }

  /** `currentArticleRow`: the first row equal to the current article. */
  function ArticleRow(s: seq<Article>, current: Option<Article>): (r: Option<nat>)
    ensures current.None? ==> r.None?
    ensures current.Some? ==> r == FirstEqualIndex(s, current.value, 0)
  {
    if current.None? then None else FirstEqualIndex(s, current.value, 0)
  }

  /** The row an unread scan starts from: after the current row going forward, at it going back. */
  function NextUnreadStart(s: seq<Article>, current: Option<Article>): (r: nat)
    ensures r <= |s|
    ensures ArticleRow(s, current).Some? ==> r == ArticleRow(s, current).value + 1
    ensures ArticleRow(s, current).None? ==> r == 0
  {
    var row := ArticleRow(s, current);
    if row.Some? then row.value + 1 else 0
  }

  function PrevUnreadStart(s: seq<Article>, current: Option<Article>): (r: int)
    ensures -1 <= r < |s|
    ensures ArticleRow(s, current).Some? ==> r == ArticleRow(s, current).value
    ensures ArticleRow(s, current).None? ==> r == |s| - 1
  {
    var row := ArticleRow(s, current);
    if row.Some? then row.value else |s| - 1
  }

  /** `!=` on article arrays: the same length and equal articles row by row. */
  predicate SameArticles(a: seq<Article>, b: seq<Article>) {
    |a| == |b| && forall i :: 0 <= i < |a| ==> ArticleEquals(a[i], b[i])
  }

  /** The current article `replaceArticles(with: sorted)` leaves: cleared when the timeline changes and no longer holds its ids. */
  function CurrentAfterReplace(current: Option<Article>, articles: seq<Article>, sorted: seq<Article>): Option<Article> {
    if current.Some? && !SameArticles(articles, sorted) && !HoldsArticleID(sorted, current.value) then None else current
  }

  /** Some article has the same article and account ids. */
  predicate HoldsArticleID(s: seq<Article>, article: Article) {
    exists i :: 0 <= i < |s| && s[i].articleID == article.articleID && s[i].accountID == article.accountID
  }

  /** The counting loop of `updateUnreadCount`. */
  method CountUnreadArticles(articles: seq<Article>) returns (count: nat)
    ensures count == CountUnread(articles)
  {
    count := 0;
    var i := 0;
    while i < |articles|
      invariant 0 <= i <= |articles|
      invariant count == CountUnread(articles[..i])
    {
      assert articles[..i + 1][..i] == articles[..i];
      if !articles[i].status.read {
        count := count + 1;
      }
      i := i + 1;
    }
    assert articles[..i] == articles;
  }

  /** The loop of `rebuildArticleDictionaries()`. */
  method BuildIDDictionary(articles: seq<Article>) returns (idDictionary: map<string, Article>)
    ensures idDictionary == IDDictionary(articles)
  {
    idDictionary := map[];
    var i := 0;
    while i < |articles|
      invariant 0 <= i <= |articles|
      invariant idDictionary == IDDictionary(articles[..i])
    {
      assert articles[..i + 1][..i] == articles[..i];
      idDictionary := idDictionary[articles[i].articleID := articles[i]];
      i := i + 1;
    }
    assert articles[..i] == articles;
  }

  class SceneCoordinator {
    /** The sidebar tree the tree controller holds, and its root. */
    var nodes: NodeTree.Nodes
    const rootNode: nat
    const objectOf: nat -> RepresentedObject

    var shadowTable: Table
    var currentFeedIndexPath: Option<IndexPath>
    var expandedContainers: set<ContainerId.ContainerIdentifier>
    var lastExpandedContainers: set<ContainerId.ContainerIdentifier>

    var articles: seq<Article>
    var currentArticle: Option<Article>
    /** The articles handed to `markArticles(_:statusKey: .read, flag: true)` on selection. */
    var readMarks: seq<Article>
    var timelineUnreadCount: int
    var articleDictionaryNeedsUpdate: bool
    var idToArticleDictionary: map<string, Article>

    /** The id dictionary is current unless flagged for rebuilding. */
    predicate Valid()
      reads this`articles, this`articleDictionaryNeedsUpdate, this`idToArticleDictionary
    {
      !articleDictionaryNeedsUpdate ==> idToArticleDictionary == IDDictionary(articles)
    }

    /**
     * `init(rootSplitViewController:)`: every section node is marked expanded
     * and given an empty placeholder section; nothing is selected yet.
     */
    constructor (nodes: NodeTree.Nodes, rootNode: nat, objectOf: nat -> RepresentedObject)
      requires rootNode in nodes
      ensures Valid()
      ensures this.nodes == nodes && this.rootNode == rootNode && this.objectOf == objectOf
      ensures |shadowTable| == |nodes[rootNode].childNodes|
      ensures forall s :: 0 <= s < |shadowTable| ==> shadowTable[s] == Section("", [])
      ensures forall c :: c in expandedContainers <==>
        exists k :: 0 <= k < |nodes[rootNode].childNodes| && objectOf(nodes[rootNode].childNodes[k]).containerID == Some(c)
      ensures currentFeedIndexPath.None? && lastExpandedContainers == {}
      ensures articles == [] && currentArticle.None? && readMarks == [] && timelineUnreadCount == 0
    {
      var sectionNodes := nodes[rootNode].childNodes;
      var table: Table := [];
      var expanded: set<ContainerId.ContainerIdentifier> := {};
      var i := 0;
      while i < |sectionNodes|
        invariant 0 <= i <= |sectionNodes|
        invariant |table| == i && forall s :: 0 <= s < i ==> table[s] == Section("", [])
        invariant forall c :: c in expanded <==> exists k :: 0 <= k < i && objectOf(sectionNodes[k]).containerID == Some(c)
      {
        var containerID := objectOf(sectionNodes[i]).containerID;
        if containerID.Some? {
          expanded := expanded + {containerID.value};
        }
        table := table + [Section("", [])];
        i := i + 1;
      }
      this.nodes := nodes;
      this.rootNode := rootNode;
      this.objectOf := objectOf;
      shadowTable := table;
      currentFeedIndexPath := None;
      expandedContainers := expanded;
      lastExpandedContainers := {};
      articles := [];
      currentArticle := None;
      readMarks := [];
      timelineUnreadCount := 0;
      articleDictionaryNeedsUpdate := true;
      idToArticleDictionary := map[];
    }

    // ------------------------------------------------------------ sidebar rows

    /** `prevFeedIndexPath`. */
    method PrevFeedIndexPath() returns (r: Option<IndexPath>)
      requires PrevFeedPathDefined(shadowTable, currentFeedIndexPath)
      ensures r == PrevFeedPath(shadowTable, currentFeedIndexPath)
    {
      if currentFeedIndexPath.None? {
        return None;
      }
      var indexPath := currentFeedIndexPath.value;
      if indexPath.row - 1 < 0 {
        var i := indexPath.section;
        while i > 0
          invariant 0 <= i <= indexPath.section
          invariant LastNonEmptyBelow(shadowTable, i) == LastNonEmptyBelow(shadowTable, indexPath.section)
        {
          i := i - 1;
          if |shadowTable[i].feedNodes| > 0 {
            return Some(IndexPath(|shadowTable[i].feedNodes| - 1, i));
          }
        }
        return None;
      }
      return Some(IndexPath(indexPath.row - 1, indexPath.section));
    }

    /** `nextFeedIndexPath`. */
    method NextFeedIndexPath() returns (r: Option<IndexPath>)
      requires NextFeedPathDefined(shadowTable, currentFeedIndexPath)
      ensures r == NextFeedPath(shadowTable, currentFeedIndexPath)
    {
      if currentFeedIndexPath.None? {
        return None;
      }
      var indexPath := currentFeedIndexPath.value;
      if indexPath.row + 1 >= |shadowTable[indexPath.section].feedNodes| {
        var i := indexPath.section + 1;
        while i < |shadowTable|
          invariant indexPath.section + 1 <= i <= |shadowTable|
          invariant FirstNonEmptyFrom(shadowTable, i) == FirstNonEmptyFrom(shadowTable, indexPath.section + 1)
        {
          if |shadowTable[i].feedNodes| > 0 {
            return Some(IndexPath(0, i));
          }
          i := i + 1;
        }
        return None;
      }
      return Some(IndexPath(indexPath.row + 1, indexPath.section));
    }

    /** `cappedIndexPath(_:)`: the path itself when its section and row are below the table's counts, else the last row of the last section. */
    function CappedIndexPath(indexPath: IndexPath): (r: IndexPath)
      reads this
      requires indexPath.section >= 0
      requires !(indexPath.section < |shadowTable| && indexPath.row < |shadowTable[indexPath.section].feedNodes|) ==> |shadowTable| > 0
      ensures indexPath.section < |shadowTable| && indexPath.row < |shadowTable[indexPath.section].feedNodes| ==> r == indexPath
      ensures !(indexPath.section < |shadowTable| && indexPath.row < |shadowTable[indexPath.section].feedNodes|) ==>
        r == IndexPath(|shadowTable[|shadowTable| - 1].feedNodes| - 1, |shadowTable| - 1)
    {
      if indexPath.section < |shadowTable| && indexPath.row < |shadowTable[indexPath.section].feedNodes| then
        indexPath
      else
        IndexPath(|shadowTable[|shadowTable| - 1].feedNodes| - 1, |shadowTable| - 1)
    }

    /** A capped path from the table is the path itself; capping past the end lands on a row when the last section has one. */
    lemma CappedIndexPathInTable(indexPath: IndexPath)
      requires indexPath.section >= 0 && |shadowTable| > 0
      ensures InTable(shadowTable, indexPath) ==> CappedIndexPath(indexPath) == indexPath
      ensures |shadowTable[|shadowTable| - 1].feedNodes| > 0 && indexPath.row >= 0 ==> InTable(shadowTable, CappedIndexPath(indexPath))
    {
    }

    /** `indexPathFor(_ node:)`. */
    method IndexPathFor(node: nat) returns (r: Option<IndexPath>)
      ensures r == IndexPathFrom(shadowTable, node, 0)
    {
      r := IndexPathIn(shadowTable, node);
    }

    /** The node's object is a sidebar item with this id (nil matching nil). */
    predicate IsItem(n: nat, sidebarItemID: Option<SidebarId.SidebarItemIdentifier>) {
      objectOf(n).isSidebarItem && objectOf(n).sidebarItemID == sidebarItemID
    }

    /** `shadowTableContains(_:)`: some row's node is a sidebar item whose id equals the given (optional) id. */
    method ShadowTableContains(sidebarItemID: Option<SidebarId.SidebarItemIdentifier>) returns (r: bool)
      ensures r <==> exists s, k :: 0 <= s < |shadowTable| && 0 <= k < |shadowTable[s].feedNodes| && IsItem(shadowTable[s].feedNodes[k].node, sidebarItemID)
    {
      var s := 0;
      while s < |shadowTable|
        invariant 0 <= s <= |shadowTable|
        invariant forall s', k :: 0 <= s' < s && 0 <= k < |shadowTable[s'].feedNodes| ==>
          !IsItem(shadowTable[s'].feedNodes[k].node, sidebarItemID)
      {
        var feedNodes := shadowTable[s].feedNodes;
        var k := 0;
        while k < |feedNodes|
          invariant 0 <= k <= |feedNodes|
          invariant forall k' :: 0 <= k' < k ==> !IsItem(feedNodes[k'].node, sidebarItemID)
        {
          var item := objectOf(feedNodes[k].node);
          if item.isSidebarItem && item.sidebarItemID == sidebarItemID {
            assert IsItem(feedNodes[k].node, sidebarItemID);
            return true;
          }
          k := k + 1;
        }
        s := s + 1;
      }
      return false;
    }

    // ------------------------------------------------------------ expansion

    /** `isExpanded(_ node:)`: the node's object names a container that is expanded. */
    predicate IsExpandedNode(n: nat)
      reads this`expandedContainers
    {
      objectOf(n).containerID.Some? && objectOf(n).containerID.value in expandedContainers
    }

    /** `markExpanded(_ containerID:)`. */
    method MarkExpanded(containerID: ContainerId.ContainerIdentifier)
      modifies this
      ensures expandedContainers == old(expandedContainers) + {containerID}
      ensures lastExpandedContainers == old(lastExpandedContainers) && shadowTable == old(shadowTable)
      ensures currentFeedIndexPath == old(currentFeedIndexPath) && articles == old(articles) && currentArticle == old(currentArticle)
      ensures nodes == old(nodes) && Valid() == old(Valid())
    {
      expandedContainers := expandedContainers + {containerID};
    }

    /** `unmarkExpanded(_ containerID:)`. */
    method UnmarkExpanded(containerID: ContainerId.ContainerIdentifier)
      modifies this
      ensures expandedContainers == old(expandedContainers) - {containerID}
      ensures lastExpandedContainers == old(lastExpandedContainers) && shadowTable == old(shadowTable)
      ensures currentFeedIndexPath == old(currentFeedIndexPath) && articles == old(articles) && currentArticle == old(currentArticle)
      ensures nodes == old(nodes) && Valid() == old(Valid())
    {
      expandedContainers := expandedContainers - {containerID};
    }

    /** `markExpanded(_ node:)`: only a node whose object has a container id changes anything. */
    method MarkExpandedNode(n: nat)
      modifies this
      ensures objectOf(n).containerID.Some? ==> expandedContainers == old(expandedContainers) + {objectOf(n).containerID.value}
      ensures objectOf(n).containerID.None? ==> expandedContainers == old(expandedContainers)
      ensures IsExpandedNode(n) <==> objectOf(n).containerID.Some?
      ensures lastExpandedContainers == old(lastExpandedContainers) && shadowTable == old(shadowTable)
      ensures currentFeedIndexPath == old(currentFeedIndexPath) && articles == old(articles) && currentArticle == old(currentArticle)
      ensures nodes == old(nodes) && Valid() == old(Valid())
    {
      if objectOf(n).containerID.Some? {
        MarkExpanded(objectOf(n).containerID.value);
      }
    }

    /** `unmarkExpanded(_ node:)`. */
    method UnmarkExpandedNode(n: nat)
      modifies this
      ensures objectOf(n).containerID.Some? ==> expandedContainers == old(expandedContainers) - {objectOf(n).containerID.value}
      ensures objectOf(n).containerID.None? ==> expandedContainers == old(expandedContainers)
      ensures !IsExpandedNode(n)
      ensures lastExpandedContainers == old(lastExpandedContainers) && shadowTable == old(shadowTable)
      ensures currentFeedIndexPath == old(currentFeedIndexPath) && articles == old(articles) && currentArticle == old(currentArticle)
      ensures nodes == old(nodes) && Valid() == old(Valid())
    {
      if objectOf(n).containerID.Some? {
        UnmarkExpanded(objectOf(n).containerID.value);
      }
    }

    // ------------------------------------------------------------ the shadow table

    /** The sidebar tree is linked and holds its root. */
    predicate TreeValid()
      reads this`nodes
    {
      rootNode in nodes && NodeTree.ChildrenLinked(nodes)
    }

    /** The rows a top-level node contributes: itself, then its children when it is expanded. */
    function RowsOf(n: nat): (r: seq<FeedNode>)
      reads this`nodes, this`expandedContainers
      requires n in nodes
      ensures |r| == 1 + (if IsExpandedNode(n) then |nodes[n].childNodes| else 0)
      ensures r[0] == FeedNode(n)
      ensures forall k :: 1 <= k < |r| ==> r[k] == FeedNode(nodes[n].childNodes[k - 1])
    {
      [FeedNode(n)] + (if IsExpandedNode(n) then FeedNodesOf(nodes[n].childNodes) else [])
    }

    /** The rows of the first `k` children of a section node. */
    function SectionRows(sectionNode: nat, k: nat): seq<FeedNode>
      reads this`nodes, this`expandedContainers
      requires TreeValid() && sectionNode in nodes && k <= |nodes[sectionNode].childNodes|
    {
      if k == 0 then []
      else
        assert NodeTree.ChildOf(nodes, sectionNode, nodes[sectionNode].childNodes[k - 1]);
        SectionRows(sectionNode, k - 1) + RowsOf(nodes[sectionNode].childNodes[k - 1])
    }

    /** A section's rows: none when collapsed, else each child followed by its own children when it is expanded. */
    function FlattenedSection(sectionNode: nat): seq<FeedNode>
      reads this`nodes, this`expandedContainers
      requires TreeValid() && sectionNode in nodes
    {
      if IsExpandedNode(sectionNode) then SectionRows(sectionNode, |nodes[sectionNode].childNodes|) else []
    }

    /** Row `n` is among the rows of the first `k` children exactly when it is one of them or a child of an expanded one. */
    lemma {:induction false} SectionRowsHas(sectionNode: nat, k: nat, x: nat)
      requires TreeValid() && sectionNode in nodes && k <= |nodes[sectionNode].childNodes|
      ensures FeedNode(x) in SectionRows(sectionNode, k) <==>
        exists i :: 0 <= i < k && nodes[sectionNode].childNodes[i] in nodes
          && (nodes[sectionNode].childNodes[i] == x
              || (IsExpandedNode(nodes[sectionNode].childNodes[i]) && x in nodes[nodes[sectionNode].childNodes[i]].childNodes))
    {
      if k > 0 {
        SectionRowsHas(sectionNode, k - 1, x);
        var c := nodes[sectionNode].childNodes[k - 1];
        assert NodeTree.ChildOf(nodes, sectionNode, c);
        var rows := RowsOf(c);
        assert FeedNode(x) in rows <==> c == x || (IsExpandedNode(c) && x in nodes[c].childNodes) by {
          if FeedNode(x) in rows && x != c {
            var k' :| 0 <= k' < |rows| && rows[k'] == FeedNode(x);
            assert nodes[c].childNodes[k' - 1] == x;
          }
          if IsExpandedNode(c) && x in nodes[c].childNodes {
            var j :| 0 <= j < |nodes[c].childNodes| && nodes[c].childNodes[j] == x;
            assert rows[j + 1] == FeedNode(x);
          }
        }
      }
    }

    /** The sections for the first `k` children of the root: each one's data store id, or "", and its rows. */
    function FlattenedTable(k: nat): (r: Table)
      reads this`nodes, this`expandedContainers
      requires TreeValid() && k <= |nodes[rootNode].childNodes|
      ensures |r| == k
    {
      if k == 0 then []
      else
        var sectionNode := nodes[rootNode].childNodes[k - 1];
        assert NodeTree.ChildOf(nodes, rootNode, sectionNode);
        FlattenedTable(k - 1) + [Section(objectOf(sectionNode).dataStoreID.GetOr(""), FlattenedSection(sectionNode))]
    }

    /** Section `s` of the flattened table is root child `s`'s data store id, or "", with that child's rows. */
    lemma {:induction false} FlattenedTableSection(k: nat, s: nat)
      requires TreeValid() && s < k <= |nodes[rootNode].childNodes|
      ensures nodes[rootNode].childNodes[s] in nodes
      ensures FlattenedTable(k)[s] == Section(objectOf(nodes[rootNode].childNodes[s]).dataStoreID.GetOr(""), FlattenedSection(nodes[rootNode].childNodes[s]))
      decreases k
    {
      assert NodeTree.ChildOf(nodes, rootNode, nodes[rootNode].childNodes[s]);
      if s < k - 1 {
        FlattenedTableSection(k - 1, s);
      }
    }

    /** A collapsed section has no rows; an expanded one holds exactly its children and the children of its expanded children. */
    lemma FlattenedSectionHas(sectionNode: nat, x: nat)
      requires TreeValid() && sectionNode in nodes
      ensures FeedNode(x) in FlattenedSection(sectionNode) <==>
        IsExpandedNode(sectionNode) &&
        exists i :: 0 <= i < |nodes[sectionNode].childNodes| && nodes[sectionNode].childNodes[i] in nodes
          && (nodes[sectionNode].childNodes[i] == x
              || (IsExpandedNode(nodes[sectionNode].childNodes[i]) && x in nodes[nodes[sectionNode].childNodes[i]].childNodes))
    {
      if IsExpandedNode(sectionNode) {
        SectionRowsHas(sectionNode, |nodes[sectionNode].childNodes|, x);
      }
    }

    /** The inner loops of `rebuildShadowTable`: one section's rows. */
    method FlattenSection(sectionNode: nat) returns (feedNodes: seq<FeedNode>)
      requires TreeValid() && sectionNode in nodes
      ensures feedNodes == FlattenedSection(sectionNode)
    {
      feedNodes := [];
      if IsExpandedNode(sectionNode) {
        var children := nodes[sectionNode].childNodes;
        var k := 0;
        while k < |children|
          invariant 0 <= k <= |children|
          invariant feedNodes == SectionRows(sectionNode, k)
        {
          var node := children[k];
          assert NodeTree.ChildOf(nodes, sectionNode, node);
          ghost var before := feedNodes;
          feedNodes := feedNodes + [FeedNode(node)];
          if IsExpandedNode(node) {
            var grandchildren := nodes[node].childNodes;
            var m := 0;
            while m < |grandchildren|
              invariant 0 <= m <= |grandchildren|
              invariant |feedNodes| == |before| + 1 + m
              invariant feedNodes[..|before| + 1] == before + [FeedNode(node)]
              invariant forall j :: 0 <= j < m ==> feedNodes[|before| + 1 + j] == FeedNode(grandchildren[j])
            {
              feedNodes := feedNodes + [FeedNode(grandchildren[m])];
              m := m + 1;
            }
          }
          assert feedNodes == before + RowsOf(node);
          k := k + 1;
        }
      }
    }

    /** The outer loop of `rebuildShadowTable`: every section of the new table. */
    method BuildShadowTable() returns (newShadowTable: Table)
      requires TreeValid()
      ensures newShadowTable == FlattenedTable(|nodes[rootNode].childNodes|)
    {
      newShadowTable := [];
      var i := 0;
      while i < |nodes[rootNode].childNodes|
        invariant 0 <= i <= |nodes[rootNode].childNodes|
        invariant newShadowTable == FlattenedTable(i)
      {
        var sectionNode := nodes[rootNode].childNodes[i];
        assert NodeTree.ChildOf(nodes, rootNode, sectionNode);
        var feedNodes := FlattenSection(sectionNode);
        var sectionID := objectOf(sectionNode).dataStoreID.GetOr("");
        newShadowTable := newShadowTable + [Section(sectionID, feedNodes)];
        i := i + 1;
      }
    }

    /** A row is reloaded when its object is a container whose id changed expansion state. */
    predicate Reloaded(n: nat, expandedTableDifference: set<ContainerId.ContainerIdentifier>) {
      objectOf(n).isContainer && objectOf(n).containerID.Some? && objectOf(n).containerID.value in expandedTableDifference
    }

    /** The reload loop of `rebuildShadowTable` for one section. */
    method ReloadsFor(feedNodes: seq<FeedNode>, expandedTableDifference: set<ContainerId.ContainerIdentifier>)
      returns (reloads: set<nat>)
      ensures forall k: nat :: k in reloads <==> k < |feedNodes| && Reloaded(feedNodes[k].node, expandedTableDifference)
    {
      reloads := {};
      var index := 0;
      while index < |feedNodes|
        invariant 0 <= index <= |feedNodes|
        invariant forall k: nat :: k in reloads <==> k < index && Reloaded(feedNodes[k].node, expandedTableDifference)
      {
        if Reloaded(feedNodes[index].node, expandedTableDifference) {
          reloads := reloads + {index};
        }
        index := index + 1;
      }
    }

    /** `reloads[s]` holds exactly the rows of section `s` that are reloaded. */
    ghost predicate ReloadsMatch(table: Table, expandedTableDifference: set<ContainerId.ContainerIdentifier>, reloads: seq<set<nat>>) {
      |reloads| == |table| &&
      forall s, k: nat :: 0 <= s < |table| ==>
        (k in reloads[s] <==> k < |table[s].feedNodes| && Reloaded(table[s].feedNodes[k].node, expandedTableDifference))
    }

    /** The reload rows of every section of a table. */
    method AllReloads(table: Table, expandedTableDifference: set<ContainerId.ContainerIdentifier>)
      returns (reloads: seq<set<nat>>)
      ensures ReloadsMatch(table, expandedTableDifference, reloads)
    {
      reloads := [];
      var section := 0;
      while section < |table|
        invariant 0 <= section <= |table|
        invariant |reloads| == section
        invariant forall s, k: nat :: 0 <= s < section ==>
          (k in reloads[s] <==> k < |table[s].feedNodes| && Reloaded(table[s].feedNodes[k].node, expandedTableDifference))
      {
        var r := ReloadsFor(table[section].feedNodes, expandedTableDifference);
        reloads := reloads + [r];
        section := section + 1;
      }
    }

    /** What `rebuildShadowTable()` computes before it changes any state. */
    method RebuildPlan(timelineNode: Option<nat>) returns (newShadowTable: Table, reloads: seq<set<nat>>, newFeedIndexPath: Option<IndexPath>)
      requires TreeValid()
      ensures newShadowTable == FlattenedTable(|nodes[rootNode].childNodes|)
      ensures ReloadsMatch(newShadowTable, (lastExpandedContainers - expandedContainers) + (expandedContainers - lastExpandedContainers), reloads)
      ensures newFeedIndexPath == ResetFeedPath(newShadowTable, currentFeedIndexPath, timelineNode)
    {
      newShadowTable := BuildShadowTable();
      var expandedTableDifference := (lastExpandedContainers - expandedContainers) + (expandedContainers - lastExpandedContainers);
      reloads := AllReloads(newShadowTable, expandedTableDifference);
      newFeedIndexPath := ResetFeedPathIn(newShadowTable, currentFeedIndexPath, timelineNode);
    }

    /**
     * `rebuildShadowTable()`: the new table is the flattened tree; the rows
     * to reload are those of containers whose expansion changed since the
     * last rebuild, after which the last expansion set catches up; a
     * current feed path is looked up again, in the new table. The row and
     * section diffs are left out. `timelineNode` is the tree's node for the
     * timeline feed, if any.
     */
    method RebuildShadowTable(timelineNode: Option<nat>) returns (reloads: seq<set<nat>>)
      requires TreeValid()
      modifies this
      ensures nodes == old(nodes) && expandedContainers == old(expandedContainers)
      ensures shadowTable == old(FlattenedTable(|nodes[rootNode].childNodes|))
      ensures ReloadsMatch(shadowTable, (old(lastExpandedContainers) - old(expandedContainers)) + (old(expandedContainers) - old(lastExpandedContainers)), reloads)
      ensures lastExpandedContainers == expandedContainers == old(expandedContainers)
      ensures currentFeedIndexPath == ResetFeedPath(shadowTable, old(currentFeedIndexPath), timelineNode)
      ensures articles == old(articles) && currentArticle == old(currentArticle) && readMarks == old(readMarks)
      ensures articleDictionaryNeedsUpdate == old(articleDictionaryNeedsUpdate) && idToArticleDictionary == old(idToArticleDictionary)
    {
      var newShadowTable, newFeedIndexPath;
      newShadowTable, reloads, newFeedIndexPath := RebuildPlan(timelineNode);
      lastExpandedContainers := expandedContainers;
      shadowTable := newShadowTable;
      currentFeedIndexPath := newFeedIndexPath;
    }

    // ------------------------------------------------------------ timeline articles

    /** `currentArticleRow`. */
    function CurrentArticleRow(): (r: Option<nat>)
      reads this
      ensures r.Some? ==> r.value < |articles| && currentArticle.Some? && ArticleEquals(articles[r.value], currentArticle.value)
      ensures r.None? ==> currentArticle.None? || forall j :: 0 <= j < |articles| ==> !ArticleEquals(articles[j], currentArticle.value)
    {
      ArticleRow(articles, currentArticle)
    }

    /** `isPrevArticleAvailable`. */
    predicate IsPrevArticleAvailable()
      reads this
    {
      CurrentArticleRow().Some? && CurrentArticleRow().value > 0
    }

    /** `isNextArticleAvailable`. */
    predicate IsNextArticleAvailable()
      reads this
    {
      CurrentArticleRow().Some? && CurrentArticleRow().value + 1 < |articles|
    }

    /** `prevArticle`: the article before the current row, when there is one. */
    function PrevArticle(): (r: Option<Article>)
      reads this
      ensures r.Some? <==> IsPrevArticleAvailable()
      ensures r.Some? ==> r == Some(articles[CurrentArticleRow().value - 1])
    {
      if IsPrevArticleAvailable() then Some(articles[CurrentArticleRow().value - 1]) else None
    }

    /** `nextArticle`: the article after the current row, when there is one. */
    function NextArticle(): (r: Option<Article>)
      reads this
      ensures r.Some? <==> IsNextArticleAvailable()
      ensures r.Some? ==> r == Some(articles[CurrentArticleRow().value + 1])
    {
      if IsNextArticleAvailable() then Some(articles[CurrentArticleRow().value + 1]) else None
    }

    /** The properties agree with `findPrevArticle` and `findNextArticle` on the current article. */
    lemma NeighboursAgreeWithFind()
      requires currentArticle.Some?
      ensures PrevArticle() == FindPrevArticle(articles, currentArticle.value)
      ensures NextArticle() == FindNextArticle(articles, currentArticle.value)
    {
    }

    /** `isTimelineUnreadAvailable`. */
    predicate IsTimelineUnreadAvailable()
      reads this
    {
      timelineUnreadCount > 0
    }

    /** `firstUnreadArticleIndexPath`: the first unread row, in section 0. */
    method FirstUnreadArticleIndexPath() returns (r: Option<IndexPath>)
      ensures r.Some? ==> r.value.section == 0 && 0 <= r.value.row < |articles| && !articles[r.value.row].status.read
      ensures r.Some? ==> forall j :: 0 <= j < r.value.row ==> articles[j].status.read
      ensures r.None? ==> forall j :: 0 <= j < |articles| ==> articles[j].status.read
    {
      var row := 0;
      while row < |articles|
        invariant 0 <= row <= |articles|
        invariant forall j :: 0 <= j < row ==> articles[j].status.read
      {
        if !articles[row].status.read {
          return Some(IndexPath(row, 0));
        }
        row := row + 1;
      }
      return None;
    }

    /** `updateUnreadCount`: the timeline's unread count is the number of its unread articles. */
    method UpdateUnreadCount()
      modifies this
      ensures timelineUnreadCount == CountUnread(articles)
      ensures IsTimelineUnreadAvailable() <==> exists i :: 0 <= i < |articles| && !articles[i].status.read
      ensures articles == old(articles) && currentArticle == old(currentArticle) && readMarks == old(readMarks)
      ensures shadowTable == old(shadowTable) && currentFeedIndexPath == old(currentFeedIndexPath)
      ensures expandedContainers == old(expandedContainers) && lastExpandedContainers == old(lastExpandedContainers) && nodes == old(nodes)
      ensures articleDictionaryNeedsUpdate == old(articleDictionaryNeedsUpdate) && idToArticleDictionary == old(idToArticleDictionary)
    {
      var count := CountUnreadArticles(articles);
      CountUnreadPositive(articles);
      ghost var statuses := StatusesIn(articles);
      timelineUnreadCount := count;
      assert StatusesIn(articles) == statuses;
      assert forall st :: st in statuses ==> st.read == old(st.read);
    }

    /** `rebuildArticleDictionaries()`. */
    method RebuildArticleDictionaries()
      modifies this
      ensures Valid() && !articleDictionaryNeedsUpdate
      ensures idToArticleDictionary == IDDictionary(articles)
      ensures articles == old(articles) && currentArticle == old(currentArticle) && readMarks == old(readMarks)
      ensures shadowTable == old(shadowTable) && currentFeedIndexPath == old(currentFeedIndexPath) && timelineUnreadCount == old(timelineUnreadCount)
      ensures expandedContainers == old(expandedContainers) && lastExpandedContainers == old(lastExpandedContainers) && nodes == old(nodes)
    {
      var idDictionary := BuildIDDictionary(articles);
      idToArticleDictionary := idDictionary;
      articleDictionaryNeedsUpdate := false;
    }

    /** `articleFor(_:)`: the current article when its id matches, else the dictionary's entry, rebuilt first when stale. */
    method ArticleFor(articleID: string) returns (r: Option<Article>)
      requires Valid()
      modifies this
      ensures Valid() && !articleDictionaryNeedsUpdate
      ensures old(currentArticle).Some? && old(currentArticle).value.articleID == articleID ==> r == old(currentArticle)
      ensures !(old(currentArticle).Some? && old(currentArticle).value.articleID == articleID) ==>
        r == (if articleID in IDDictionary(articles) then Some(IDDictionary(articles)[articleID]) else None)
      ensures r.Some? ==> r.value.articleID == articleID
      ensures articles == old(articles) && currentArticle == old(currentArticle) && readMarks == old(readMarks)
      ensures shadowTable == old(shadowTable) && currentFeedIndexPath == old(currentFeedIndexPath) && timelineUnreadCount == old(timelineUnreadCount)
      ensures expandedContainers == old(expandedContainers) && lastExpandedContainers == old(lastExpandedContainers) && nodes == old(nodes)
    {
      if articleDictionaryNeedsUpdate {
        RebuildArticleDictionaries();
      }
      if currentArticle.Some? && currentArticle.value.articleID == articleID {
        return currentArticle;
      }
      if articleID in idToArticleDictionary {
        return Some(idToArticleDictionary[articleID]);
      }
      return None;
    }

    /** The `articles` setter with its observer: the id dictionary becomes stale. */
    method SetArticles(sortedArticles: seq<Article>)
      modifies this
      ensures articles == sortedArticles && articleDictionaryNeedsUpdate && Valid()
      ensures currentArticle == old(currentArticle) && readMarks == old(readMarks) && timelineUnreadCount == old(timelineUnreadCount)
      ensures shadowTable == old(shadowTable) && currentFeedIndexPath == old(currentFeedIndexPath)
      ensures expandedContainers == old(expandedContainers) && lastExpandedContainers == old(lastExpandedContainers) && nodes == old(nodes)
    {
      articles := sortedArticles;
      articleDictionaryNeedsUpdate := true;
    }

    /** `selectArticle(_:)`, on the selection and the read marks. */
    method SelectArticle(article: Option<Article>)
      modifies this
      ensures (currentArticle, readMarks) == AfterSelect(old(currentArticle), old(readMarks), article)
      ensures articles == old(articles) && timelineUnreadCount == old(timelineUnreadCount)
      ensures shadowTable == old(shadowTable) && currentFeedIndexPath == old(currentFeedIndexPath)
      ensures expandedContainers == old(expandedContainers) && lastExpandedContainers == old(lastExpandedContainers) && nodes == old(nodes)
      ensures articleDictionaryNeedsUpdate == old(articleDictionaryNeedsUpdate) && idToArticleDictionary == old(idToArticleDictionary)
    {
      if SameArticle(article, currentArticle) {
        return;
      }
      currentArticle := article;
      if article.Some? {
        readMarks := readMarks + [article.value];
      }
    }

    /** `selectPrevArticleInTimeline(startingRow:)`: the last unread article at or below the row is selected. */
    method SelectPrevArticleInTimeline(startingRow: int) returns (found: bool)
      requires startingRow < |articles|
      modifies this
      ensures articles == old(articles)
      ensures found <==> LastUnreadAtOrBelow(articles, startingRow).Some?
      ensures found ==> (currentArticle, readMarks) == AfterSelect(old(currentArticle), old(readMarks), Some(articles[LastUnreadAtOrBelow(articles, startingRow).value]))
      ensures !found ==> currentArticle == old(currentArticle) && readMarks == old(readMarks)
      ensures articles == old(articles) && timelineUnreadCount == old(timelineUnreadCount)
      ensures shadowTable == old(shadowTable) && currentFeedIndexPath == old(currentFeedIndexPath)
      ensures expandedContainers == old(expandedContainers) && lastExpandedContainers == old(lastExpandedContainers) && nodes == old(nodes)
      ensures articleDictionaryNeedsUpdate == old(articleDictionaryNeedsUpdate) && idToArticleDictionary == old(idToArticleDictionary)
    {
      if startingRow < 0 {
        return false;
      }
      var i := startingRow;
      while i >= 0
        invariant -1 <= i <= startingRow
        invariant LastUnreadAtOrBelow(articles, i) == LastUnreadAtOrBelow(articles, startingRow)
      {
        if !articles[i].status.read {
          SelectArticle(Some(articles[i]));
          return true;
        }
        i := i - 1;
      }
      return false;
    }

    /** `selectNextArticleInTimeline(startingRow:animated:)`: the first unread article at or after the row is selected. */
    method SelectNextArticleInTimeline(startingRow: nat) returns (found: bool)
      modifies this
      ensures articles == old(articles)
      ensures startingRow >= |articles| ==> !found
      ensures startingRow < |articles| ==> (found <==> FirstUnreadFrom(articles, startingRow).Some?)
      ensures found ==> (currentArticle, readMarks) == AfterSelect(old(currentArticle), old(readMarks), Some(articles[FirstUnreadFrom(articles, startingRow).value]))
      ensures !found ==> currentArticle == old(currentArticle) && readMarks == old(readMarks)
      ensures articles == old(articles) && timelineUnreadCount == old(timelineUnreadCount)
      ensures shadowTable == old(shadowTable) && currentFeedIndexPath == old(currentFeedIndexPath)
      ensures expandedContainers == old(expandedContainers) && lastExpandedContainers == old(lastExpandedContainers) && nodes == old(nodes)
      ensures articleDictionaryNeedsUpdate == old(articleDictionaryNeedsUpdate) && idToArticleDictionary == old(idToArticleDictionary)
    {
      if startingRow >= |articles| {
        return false;
      }
      var i := startingRow;
      while i < |articles|
        invariant startingRow <= i <= |articles|
        invariant FirstUnreadFrom(articles, i) == FirstUnreadFrom(articles, startingRow)
      {
        if !articles[i].status.read {
          SelectArticle(Some(articles[i]));
          return true;
        }
        i := i + 1;
      }
      return false;
    }

    /** `selectPrevUnreadArticleInTimeline()`. */
    method SelectPrevUnreadArticleInTimeline() returns (found: bool)
      modifies this
      ensures articles == old(articles)
      ensures found <==> LastUnreadAtOrBelow(articles, PrevUnreadStart(articles, old(currentArticle))).Some?
      ensures found ==> (currentArticle, readMarks) == AfterSelect(old(currentArticle), old(readMarks),
        Some(articles[LastUnreadAtOrBelow(articles, PrevUnreadStart(articles, old(currentArticle))).value]))
      ensures !found ==> currentArticle == old(currentArticle) && readMarks == old(readMarks)
      ensures articles == old(articles) && shadowTable == old(shadowTable) && currentFeedIndexPath == old(currentFeedIndexPath)
    {
      var startingRow := PrevUnreadStart(articles, currentArticle);
      found := SelectPrevArticleInTimeline(startingRow);
    }

    /** `selectNextUnreadArticleInTimeline()`. */
    method SelectNextUnreadArticleInTimeline() returns (found: bool)
      modifies this
      ensures articles == old(articles)
      ensures NextUnreadStart(articles, old(currentArticle)) < |articles| ==>
        (found <==> FirstUnreadFrom(articles, NextUnreadStart(articles, old(currentArticle))).Some?)
      ensures NextUnreadStart(articles, old(currentArticle)) >= |articles| ==> !found
      ensures found ==> (currentArticle, readMarks) == AfterSelect(old(currentArticle), old(readMarks),
        Some(articles[FirstUnreadFrom(articles, NextUnreadStart(articles, old(currentArticle))).value]))
      ensures !found ==> currentArticle == old(currentArticle) && readMarks == old(readMarks)
      ensures articles == old(articles) && shadowTable == old(shadowTable) && currentFeedIndexPath == old(currentFeedIndexPath)
    {
      var startingRow := NextUnreadStart(articles, currentArticle);
      found := SelectNextArticleInTimeline(startingRow);
    }

    /** `selectFirstUnreadArticleInTimeline()`: the first unread article is selected, if there is one. */
    method SelectFirstUnreadArticleInTimeline() returns (found: bool)
      modifies this
      ensures articles == old(articles)
      ensures found <==> exists i :: 0 <= i < |articles| && !articles[i].status.read
      ensures found ==> (currentArticle, readMarks) == AfterSelect(old(currentArticle), old(readMarks), Some(articles[FirstUnreadFrom(articles, 0).value]))
      ensures !found ==> currentArticle == old(currentArticle) && readMarks == old(readMarks)
      ensures articles == old(articles) && shadowTable == old(shadowTable) && currentFeedIndexPath == old(currentFeedIndexPath)
    {
      found := SelectNextArticleInTimeline(0);
      if |articles| > 0 {
        FirstUnreadExactlyWhenCounted(articles);
        CountUnreadPositive(articles);
      }
    }

    // ------------------------------------------------------------ the next feed with unread articles

    /** A row the search stops at and selects: a collapsed node with a positive unread count. */
    predicate Eligible(p: IndexPath)
      reads this`shadowTable, this`expandedContainers
    {
      InTable(shadowTable, p) && var n := shadowTable[p.section].feedNodes[p.row].node;
      objectOf(n).unreadCount.Some? && objectOf(n).unreadCount.value > 0 && !IsExpandedNode(n)
    }

    /** A row the search gives up at: its object provides no unread count. */
    predicate Blocking(p: IndexPath)
      reads this`shadowTable, this`expandedContainers
    {
      InTable(shadowTable, p) && objectOf(shadowTable[p.section].feedNodes[p.row].node).unreadCount.None?
    }

    /** The rows a search from `start` looks at: the rest of its section, then every later section. */
    predicate Visited(start: IndexPath, p: IndexPath)
      reads this`shadowTable, this`expandedContainers
    {
      InTable(shadowTable, p) && !Before(p, start)
    }

    /** `p` is the row a search from `start` selects: eligible, with no eligible or blocking row before it. */
    ghost predicate FirstEligibleFrom(start: IndexPath, p: IndexPath)
      reads this`shadowTable, this`expandedContainers
    {
      Visited(start, p) && Eligible(p) && forall q :: Visited(start, q) && Before(q, p) ==> !Eligible(q) && !Blocking(q)
    }

    /** A search from `start` selects nothing: every eligible row it looks at has a blocking row before it. */
    ghost predicate NoneEligibleFrom(start: IndexPath)
      reads this`shadowTable, this`expandedContainers
    {
      forall p :: Visited(start, p) && Eligible(p) ==> exists q :: Visited(start, q) && Before(q, p) && Blocking(q)
    }

    /** The loops of `selectNextUnreadFeed(startingWith:completion:)`: the first eligible row from `start`, unless a blocking row comes first. */
    method NextUnreadFeedFrom(start: IndexPath) returns (r: Option<IndexPath>)
      requires 0 <= start.section <= |shadowTable|
      requires start.section < |shadowTable| ==> 0 <= start.row <= |shadowTable[start.section].feedNodes|
      ensures r.Some? ==> Visited(start, r.value) && Eligible(r.value)
      ensures r.Some? ==> forall q :: Visited(start, q) && Before(q, r.value) ==> !Eligible(q) && !Blocking(q)
      ensures r.None? ==> forall p :: Visited(start, p) && Eligible(p) ==> exists q :: Visited(start, q) && Before(q, p) && Blocking(q)
    {
      var result: Option<IndexPath> := None;
      var blocked := false;
      ghost var blocker := start;
      var i := start.section;
      while i < |shadowTable| && result.None? && !blocked
        invariant start.section <= i <= |shadowTable|
        invariant result.Some? ==> !blocked && Visited(start, result.value) && Eligible(result.value)
        invariant result.Some? ==> forall q :: Visited(start, q) && Before(q, result.value) ==> !Eligible(q) && !Blocking(q)
        invariant blocked ==> result.None? && Visited(start, blocker) && Blocking(blocker)
        invariant blocked ==> forall q :: Visited(start, q) && Before(q, blocker) ==> !Eligible(q)
        invariant result.None? && !blocked ==> forall q :: Visited(start, q) && q.section < i ==> !Eligible(q) && !Blocking(q)
      {
        var feedNodes := shadowTable[i].feedNodes;
        var j := if i == start.section then start.row else 0;
        ghost var first := j;
        while j < |feedNodes| && result.None? && !blocked
          invariant first <= j <= |feedNodes|
          invariant result.Some? ==> !blocked && Visited(start, result.value) && Eligible(result.value)
          invariant result.Some? ==> forall q :: Visited(start, q) && Before(q, result.value) ==> !Eligible(q) && !Blocking(q)
          invariant blocked ==> result.None? && Visited(start, blocker) && Blocking(blocker)
          invariant blocked ==> forall q :: Visited(start, q) && Before(q, blocker) ==> !Eligible(q)
          invariant result.None? && !blocked ==> forall q :: Visited(start, q) && (q.section < i || (q.section == i && q.row < j)) ==> !Eligible(q) && !Blocking(q)
        {
          var node := feedNodes[j].node;
          if objectOf(node).unreadCount.None? {
            blocked := true;
            blocker := IndexPath(j, i);
          } else if IsExpandedNode(node) {
          } else if objectOf(node).unreadCount.value > 0 {
            result := Some(IndexPath(j, i));
          }
          j := j + 1;
        }
        i := i + 1;
      }
      r := result;
    }

    /**
     * `selectNextUnreadFeed(startingWith:completion:)`: the found row is
     * selected with `selectFeed(indexPath:deselectArticle: false)`, whose
     * timeline fetch delivers `fetched` for that row's node, and then there is
     * no current article. When the search fails nothing changes.
     */
    method SelectNextUnreadFeedStartingWith(start: IndexPath, fetched: nat -> seq<Article>) returns (found: bool)
      requires 0 <= start.section <= |shadowTable|
      requires start.section < |shadowTable| ==> 0 <= start.row <= |shadowTable[start.section].feedNodes|
      modifies this
      ensures shadowTable == old(shadowTable) && expandedContainers == old(expandedContainers)
      ensures found ==> currentFeedIndexPath.Some? && currentArticle.None?
      ensures found ==> FirstEligibleFrom(start, currentFeedIndexPath.value)
      ensures found && currentFeedIndexPath != old(currentFeedIndexPath) ==> TimelineReplaced(old(articles), old(timelineUnreadCount), old(articleDictionaryNeedsUpdate), old(idToArticleDictionary), TimelineFetch(currentFeedIndexPath, fetched))
      ensures !found || currentFeedIndexPath == old(currentFeedIndexPath) ==>
        (articles == old(articles) && timelineUnreadCount == old(timelineUnreadCount)
         && articleDictionaryNeedsUpdate == old(articleDictionaryNeedsUpdate) && idToArticleDictionary == old(idToArticleDictionary))
      ensures !found ==> currentFeedIndexPath == old(currentFeedIndexPath) && currentArticle == old(currentArticle)
      ensures !found ==> NoneEligibleFrom(start)
      ensures readMarks == old(readMarks) && lastExpandedContainers == old(lastExpandedContainers) && nodes == old(nodes)
      ensures old(Valid()) ==> Valid()
    {
      var r := NextUnreadFeedFrom(start);
      if r.Some? {
        assert FirstEligibleFrom(start, r.value);
        SelectFeed(r, false, fetched);
        // The fetched articles' statuses are not this coordinator, so clearing the article keeps their count.
        assert forall o: object :: o in StatusesIn(TimelineFetch(r, fetched)) ==> o != this;
        currentArticle := None;
        return true;
      }
      return false;
    }

    /**
     * `selectNextUnreadFeed(completion:)`: a search from the row after the
     * current one, and when it finds nothing, one more from (0, 0). With no
     * blocking row in the table, an eligible row anywhere is found.
     */
    method SelectNextUnreadFeed(fetched: nat -> seq<Article>) returns (found: bool)
      requires |shadowTable| > 0
      requires currentFeedIndexPath.Some? ==> 0 <= currentFeedIndexPath.value.section < |shadowTable| && 0 <= currentFeedIndexPath.value.row
      modifies this
      ensures shadowTable == old(shadowTable) && expandedContainers == old(expandedContainers)
      ensures found ==> currentFeedIndexPath.Some? && Eligible(currentFeedIndexPath.value) && currentArticle.None?
      ensures var start := NextUnreadFeedStart(shadowTable, old(currentFeedIndexPath));
        found ==> FirstEligibleFrom(start, currentFeedIndexPath.value)
                  || (NoneEligibleFrom(start) && FirstEligibleFrom(IndexPath(0, 0), currentFeedIndexPath.value))
      ensures var start := NextUnreadFeedStart(shadowTable, old(currentFeedIndexPath));
        !found ==> NoneEligibleFrom(start) && NoneEligibleFrom(IndexPath(0, 0))
      ensures !found ==> currentFeedIndexPath == old(currentFeedIndexPath) && currentArticle == old(currentArticle)
      ensures (forall q :: InTable(shadowTable, q) ==> !Blocking(q)) && (exists p :: Eligible(p)) ==> found
      ensures found && currentFeedIndexPath != old(currentFeedIndexPath) ==> TimelineReplaced(old(articles), old(timelineUnreadCount), old(articleDictionaryNeedsUpdate), old(idToArticleDictionary), TimelineFetch(currentFeedIndexPath, fetched))
      ensures !found || currentFeedIndexPath == old(currentFeedIndexPath) ==>
        (articles == old(articles) && timelineUnreadCount == old(timelineUnreadCount)
         && articleDictionaryNeedsUpdate == old(articleDictionaryNeedsUpdate) && idToArticleDictionary == old(idToArticleDictionary))
      ensures readMarks == old(readMarks) && lastExpandedContainers == old(lastExpandedContainers) && nodes == old(nodes)
      ensures old(Valid()) ==> Valid()
    {
      var start := NextUnreadFeedStart(shadowTable, currentFeedIndexPath);
      found := SelectNextUnreadFeedStartingWith(start, fetched);
      if !found {
        assert NoneEligibleFrom(start);
        found := SelectNextUnreadFeedStartingWith(IndexPath(0, 0), fetched);
        // The search from (0, 0) visits every eligible row.
        forall p | Eligible(p) ensures Visited(IndexPath(0, 0), p) {
        }
      }
    }

    // ------------------------------------------------------------ replacing the timeline

    /**
     * The timeline `replaceArticles(with: sorted)` leaves behind from the one
     * given: the same articles change nothing; different ones replace it, are
     * recounted, and flag the id dictionary for rebuilding.
     */
    predicate TimelineReplaced(articles0: seq<Article>, count0: int, stale0: bool, dictionary0: map<string, Article>, sorted: seq<Article>)
      reads this`articles, this`timelineUnreadCount, this`articleDictionaryNeedsUpdate, this`idToArticleDictionary, StatusesIn(sorted)
    {
      if SameArticles(articles0, sorted) then
        articles == articles0 && timelineUnreadCount == count0 && articleDictionaryNeedsUpdate == stale0 && idToArticleDictionary == dictionary0
      else
        articles == sorted && timelineUnreadCount == CountUnread(sorted) && articleDictionaryNeedsUpdate
    }

    /** `replaceArticles(with:animated:)` for sorted articles: a different list replaces the timeline, drops a current article it no longer holds and recounts the unread articles. */
    method ReplaceArticles(sortedArticles: seq<Article>)
      modifies this
      ensures TimelineReplaced(old(articles), old(timelineUnreadCount), old(articleDictionaryNeedsUpdate), old(idToArticleDictionary), sortedArticles)
      ensures currentArticle == CurrentAfterReplace(old(currentArticle), old(articles), sortedArticles)
      ensures readMarks == old(readMarks) && Valid()  == (old(Valid()) || !SameArticles(old(articles), sortedArticles))
      ensures shadowTable == old(shadowTable) && currentFeedIndexPath == old(currentFeedIndexPath)
      ensures expandedContainers == old(expandedContainers) && lastExpandedContainers == old(lastExpandedContainers) && nodes == old(nodes)
    {
      if !SameArticles(articles, sortedArticles) {
        SetArticles(sortedArticles);
        if currentArticle.Some? && !HoldsArticleID(sortedArticles, currentArticle.value) {
          SelectArticle(None);
        }
        UpdateUnreadCount();
      }
    }

    // ------------------------------------------------------------ selecting a feed

    /**
     * The sorted articles `setTimelineFeed` hands to `replaceArticles` when the
     * row `indexPath` is selected: what the fetch for its sidebar item delivers,
     * or none (`emptyTheTimeline`) when there is no row or it holds no sidebar item.
     */
    function TimelineFetch(indexPath: Option<IndexPath>, fetched: nat -> seq<Article>): seq<Article>
      reads this`shadowTable
    {
      if indexPath.None? then []
      else
        var node := NodeAt(shadowTable, indexPath.value);
        if node.Some? && objectOf(node.value).isSidebarItem then fetched(node.value) else []
    }

    /**
     * `selectFeed(indexPath:animations:deselectArticle:completion:)`, up to its
     * completion: the current row changes nothing; another row becomes the
     * current one, the current article is deselected when asked, and the
     * timeline fetch `setTimelineFeed` starts for the row's sidebar item
     * delivers `fetched` of its node to `replaceArticles`.
     */
    method SelectFeed(indexPath: Option<IndexPath>, deselectArticle: bool, fetched: nat -> seq<Article>)
      modifies this
      ensures indexPath == old(currentFeedIndexPath) ==> unchanged(this)
      ensures indexPath != old(currentFeedIndexPath) ==> currentFeedIndexPath == indexPath
      ensures indexPath != old(currentFeedIndexPath) ==> TimelineReplaced(old(articles), old(timelineUnreadCount), old(articleDictionaryNeedsUpdate), old(idToArticleDictionary), TimelineFetch(indexPath, fetched))
      ensures indexPath != old(currentFeedIndexPath) && deselectArticle ==> currentArticle.None?
      ensures indexPath != old(currentFeedIndexPath) && !deselectArticle ==>
        currentArticle == CurrentAfterReplace(old(currentArticle), old(articles), TimelineFetch(indexPath, fetched))
      ensures readMarks == old(readMarks) && shadowTable == old(shadowTable)
      ensures expandedContainers == old(expandedContainers) && lastExpandedContainers == old(lastExpandedContainers) && nodes == old(nodes)
      ensures old(Valid()) ==> Valid()
    {
      if indexPath == currentFeedIndexPath {
        return;
      }
      currentFeedIndexPath := indexPath;
      if deselectArticle {
        SelectArticle(None);
      }
      var node := if indexPath.Some? then NodeAt(shadowTable, indexPath.value) else None;
      if node.Some? && objectOf(node.value).isSidebarItem {
        ReplaceArticles(fetched(node.value));
      } else if articles != [] {
        ReplaceArticles([]);
      }
    }
  }
}
