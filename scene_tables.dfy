/**
 * The values the scene coordinator navigates: the shadow table (the
 * sidebar flattened into sections of rows), the timeline's articles, and
 * the pure rules over them: moving to the previous or next sidebar row,
 * finding a node's index path, the first index of an article, the
 * articles-by-id dictionary, and merging a fetch into the timeline.
 */
module SceneTables {
  import opened Wrappers
  import opened ShadowTable
  import opened ArticleStatusModel
  import opened ArticleModel

  /** `FeedNode`: a sidebar row, known by its node. */
  datatype FeedNode = FeedNode(node: nat)

  /** One section of the shadow table: the data store's id, or "", and its rows. */
  datatype Section = Section(sectionID: string, feedNodes: seq<FeedNode>)

  type Table = seq<Section>

  /** The position names an existing row. */
  predicate InTable(t: Table, ip: IndexPath) {
    0 <= ip.section < |t| && 0 <= ip.row < |t[ip.section].feedNodes|
  }

  /** `nodeFor(_ indexPath:)`: the row's node, or nil outside the table. */
  function NodeAt(t: Table, ip: IndexPath): (r: Option<nat>)
    ensures r.Some? <==> InTable(t, ip)
    ensures r.Some? ==> r.value == t[ip.section].feedNodes[ip.row].node
  {
    if ip.section > -1 && ip.row > -1 && ip.section < |t| && ip.row < |t[ip.section].feedNodes| then
      Some(t[ip.section].feedNodes[ip.row].node)
    else
      None
  }

  // ---------------------------------------------------------------- index paths of nodes

  /** `firstIndex(of: FeedNode(node))` from position `from` on. */
  function RowOf(rows: seq<FeedNode>, node: nat, from: nat): (r: Option<nat>)
    requires from <= |rows|
    ensures r.Some? ==> from <= r.value < |rows| && rows[r.value].node == node
    ensures r.Some? ==> forall j :: from <= j < r.value ==> rows[j].node != node
    ensures r.None? ==> forall j :: from <= j < |rows| ==> rows[j].node != node
    decreases |rows| - from
  {
    if from == |rows| then None
    else if rows[from].node == node then Some(from)
    else RowOf(rows, node, from + 1)
  }

  /** The node is somewhere in section `s`. */
  predicate InSection(t: Table, s: int, node: nat)
    requires 0 <= s < |t|
  {
    exists row :: 0 <= row < |t[s].feedNodes| && t[s].feedNodes[row].node == node
  }

  /** `indexPathFor(_ node:)` from section `i` on: the first section holding the node, at its first row there. */
  function IndexPathFrom(t: Table, node: nat, i: nat): (r: Option<IndexPath>)
    requires i <= |t|
    ensures r.Some? ==> i <= r.value.section < |t| && NodeAt(t, r.value) == Some(node)
    ensures r.Some? ==> forall s :: i <= s < r.value.section ==> !InSection(t, s, node)
    ensures r.Some? ==> forall j :: 0 <= j < r.value.row ==> t[r.value.section].feedNodes[j].node != node
    ensures r.None? ==> forall s :: i <= s < |t| ==> !InSection(t, s, node)
    decreases |t| - i
  {
    if i == |t| then None
    else match RowOf(t[i].feedNodes, node, 0)
      case Some(row) => Some(IndexPath(row, i))
      case None => IndexPathFrom(t, node, i + 1)
  }

  /** The index path found for a row's node leads back to that node, at or before the row. */
  lemma IndexPathOfNodeAt(t: Table, ip: IndexPath)
    requires InTable(t, ip)
    ensures IndexPathFrom(t, t[ip.section].feedNodes[ip.row].node, 0).Some?
    ensures var p := IndexPathFrom(t, t[ip.section].feedNodes[ip.row].node, 0).value;
      NodeAt(t, p) == NodeAt(t, ip) && (p.section < ip.section || (p.section == ip.section && p.row <= ip.row))
  {
    assert InSection(t, ip.section, t[ip.section].feedNodes[ip.row].node);
  }

  // ---------------------------------------------------------------- previous and next sidebar rows

  /** The last non-empty section below `below`. */
  function LastNonEmptyBelow(t: Table, below: int): (r: Option<nat>)
    requires below <= |t|
    ensures r.Some? ==> r.value < below && |t[r.value].feedNodes| > 0
    ensures r.Some? ==> forall i :: r.value < i < below ==> |t[i].feedNodes| == 0
    ensures r.None? ==> forall i :: 0 <= i < below ==> |t[i].feedNodes| == 0
    decreases below
  {
    if below <= 0 then None
    else if |t[below - 1].feedNodes| > 0 then Some(below - 1)
    else LastNonEmptyBelow(t, below - 1)
  }

  /** The first non-empty section at or after `from`. */
  function FirstNonEmptyFrom(t: Table, from: nat): (r: Option<nat>)
    requires from <= |t|
    ensures r.Some? ==> from <= r.value < |t| && |t[r.value].feedNodes| > 0
    ensures r.Some? ==> forall i :: from <= i < r.value ==> |t[i].feedNodes| == 0
    ensures r.None? ==> forall i :: from <= i < |t| ==> |t[i].feedNodes| == 0
    decreases |t| - from
  {
    if from == |t| then None
    else if |t[from].feedNodes| > 0 then Some(from)
    else FirstNonEmptyFrom(t, from + 1)
  }

  /**
   * `prevFeedIndexPath`: the row above, or else the last row of the nearest
   * earlier non-empty section. Ranging over `0..<section` traps for a
   * negative section, and indexing traps past the table.
   */
  predicate PrevFeedPathDefined(t: Table, current: Option<IndexPath>) {
    current.Some? && current.value.row - 1 < 0 ==> 0 <= current.value.section <= |t|
  }

  function PrevFeedPath(t: Table, current: Option<IndexPath>): (r: Option<IndexPath>)
    requires PrevFeedPathDefined(t, current)
    ensures current.None? ==> r.None?
    ensures current.Some? && current.value.row > 0 ==> r == Some(IndexPath(current.value.row - 1, current.value.section))
    ensures current.Some? && current.value.row <= 0 && r.Some? ==>
      InTable(t, r.value) && r.value.section < current.value.section && r.value.row == |t[r.value.section].feedNodes| - 1
      && forall i :: r.value.section < i < current.value.section ==> |t[i].feedNodes| == 0
    ensures current.Some? && current.value.row <= 0 && r.None? ==>
      forall i :: 0 <= i < current.value.section ==> |t[i].feedNodes| == 0
  {
    match current
    case None => None
    case Some(ip) =>
      if ip.row - 1 < 0 then
        match LastNonEmptyBelow(t, ip.section)
        case Some(i) => Some(IndexPath(|t[i].feedNodes| - 1, i))
        case None => None
      else
        Some(IndexPath(ip.row - 1, ip.section))
  }

  /** `nextFeedIndexPath` indexes the current section, which must exist. */
  predicate NextFeedPathDefined(t: Table, current: Option<IndexPath>) {
    current.Some? ==> 0 <= current.value.section < |t|
  }

  /** `nextFeedIndexPath`: the row below, or else row 0 of the nearest later non-empty section. */
  function NextFeedPath(t: Table, current: Option<IndexPath>): (r: Option<IndexPath>)
    requires NextFeedPathDefined(t, current)
    ensures current.None? ==> r.None?
    ensures current.Some? && current.value.row + 1 < |t[current.value.section].feedNodes| ==>
      r == Some(IndexPath(current.value.row + 1, current.value.section))
    ensures current.Some? && current.value.row + 1 >= |t[current.value.section].feedNodes| && r.Some? ==>
      InTable(t, r.value) && r.value.row == 0 && r.value.section > current.value.section
      && forall i :: current.value.section < i < r.value.section ==> |t[i].feedNodes| == 0
    ensures current.Some? && current.value.row + 1 >= |t[current.value.section].feedNodes| && r.None? ==>
      forall i :: current.value.section < i < |t| ==> |t[i].feedNodes| == 0
  {
    match current
    case None => None
    case Some(ip) =>
      if ip.row + 1 >= |t[ip.section].feedNodes| then
        match FirstNonEmptyFrom(t, ip.section + 1)
        case Some(i) => Some(IndexPath(0, i))
        case None => None
      else
        Some(IndexPath(ip.row + 1, ip.section))
  }

  /** Going down from the row found by going up comes back to the row one started from. */
  lemma NextOfPrevFeedPath(t: Table, ip: IndexPath)
    requires InTable(t, ip) && PrevFeedPath(t, Some(ip)).Some?
    ensures NextFeedPathDefined(t, PrevFeedPath(t, Some(ip)))
    ensures NextFeedPath(t, PrevFeedPath(t, Some(ip))) == Some(ip)
  {
    var p := PrevFeedPath(t, Some(ip)).value;
    if ip.row <= 0 {
      assert FirstNonEmptyFrom(t, p.section + 1) == Some(ip.section) by {
        FirstNonEmptyAfterEmpties(t, p.section + 1, ip.section);
      }
    }
  }

  /** Going up from the row found by going down comes back to the row one started from. */
  lemma PrevOfNextFeedPath(t: Table, ip: IndexPath)
    requires InTable(t, ip) && NextFeedPath(t, Some(ip)).Some?
    ensures PrevFeedPathDefined(t, NextFeedPath(t, Some(ip)))
    ensures PrevFeedPath(t, NextFeedPath(t, Some(ip))) == Some(ip)
  {
    var n := NextFeedPath(t, Some(ip)).value;
    if n.section != ip.section {
      assert LastNonEmptyBelow(t, n.section) == Some(ip.section) by {
        LastNonEmptyBeforeEmpties(t, n.section, ip.section);
      }
    }
  }

  /** With only empty sections between `from` and a non-empty `s`, the first non-empty section from `from` is `s`. */
  lemma {:induction false} FirstNonEmptyAfterEmpties(t: Table, from: nat, s: nat)
    requires from <= s < |t| && |t[s].feedNodes| > 0
    requires forall i :: from <= i < s ==> |t[i].feedNodes| == 0
    ensures FirstNonEmptyFrom(t, from) == Some(s)
    decreases s - from
  {
    if from < s {
      FirstNonEmptyAfterEmpties(t, from + 1, s);
    }
  }

  /** With only empty sections between a non-empty `s` and `below`, the last non-empty section below `below` is `s`. */
  lemma {:induction false} LastNonEmptyBeforeEmpties(t: Table, below: int, s: nat)
    requires s < below <= |t| && |t[s].feedNodes| > 0
    requires forall i :: s < i < below ==> |t[i].feedNodes| == 0
    ensures LastNonEmptyBelow(t, below) == Some(s)
    decreases below
  {
    if below - 1 > s {
      LastNonEmptyBeforeEmpties(t, below - 1, s);
    }
  }

  // ---------------------------------------------------------------- articles

  /** `firstIndex(of:)` on the timeline, under `Article`'s `==`. */
  function FirstEqualIndex(s: seq<Article>, a: Article, from: nat): (r: Option<nat>)
    requires from <= |s|
    ensures r.Some? ==> from <= r.value < |s| && ArticleEquals(s[r.value], a)
    ensures r.Some? ==> forall j :: from <= j < r.value ==> !ArticleEquals(s[j], a)
    ensures r.None? ==> forall j :: from <= j < |s| ==> !ArticleEquals(s[j], a)
    decreases |s| - from
  {
    if from == |s| then None
    else if ArticleEquals(s[from], a) then Some(from)
    else FirstEqualIndex(s, a, from + 1)
  }

  /** `findPrevArticle(_:)`: the article before the first one equal to the given one. */
  function FindPrevArticle(s: seq<Article>, a: Article): (r: Option<Article>)
    ensures FirstEqualIndex(s, a, 0).None? ==> r.None?
    ensures FirstEqualIndex(s, a, 0) == Some(0) ==> r.None?
    ensures forall i :: FirstEqualIndex(s, a, 0) == Some(i) && i > 0 ==> r == Some(s[i - 1])
  {
    match FirstEqualIndex(s, a, 0)
    case None => None
    case Some(index) => if index > 0 then Some(s[index - 1]) else None
  }

  /** `findNextArticle(_:)`: the article after the first one equal to the given one. */
  function FindNextArticle(s: seq<Article>, a: Article): (r: Option<Article>)
    ensures FirstEqualIndex(s, a, 0).None? ==> r.None?
    ensures FirstEqualIndex(s, a, 0) == Some(|s| - 1) ==> r.None?
    ensures forall i :: FirstEqualIndex(s, a, 0) == Some(i) && i + 1 < |s| ==> r == Some(s[i + 1])
  {
    match FirstEqualIndex(s, a, 0)
    case None => None
    case Some(index) => if index + 1 != |s| then Some(s[index + 1]) else None
  }

  /** In a timeline without repeated articles, the next article of the previous one is the one started from. */
  lemma FindNextOfFindPrev(s: seq<Article>, i: nat)
    requires 0 < i < |s|
    requires forall j, k :: 0 <= j < k < |s| ==> !ArticleEquals(s[j], s[k])
    ensures FindPrevArticle(s, s[i]) == Some(s[i - 1])
    ensures FindNextArticle(s, s[i - 1]) == Some(s[i])
  {
    ArticleEqualityLaws(s[i], s[i], s[i], s[i].status, s[i].markdown);
    ArticleEqualityLaws(s[i - 1], s[i - 1], s[i - 1], s[i].status, s[i].markdown);
  }

  /** `rebuildArticleDictionaries`' result: every article by its id, a later article replacing an earlier one with the same id. */
  function IDDictionary(s: seq<Article>): (r: map<string, Article>)
    ensures forall a :: a in s ==> a.articleID in r
    ensures forall id :: id in r ==> exists i :: 0 <= i < |s| && s[i].articleID == id
    ensures forall id :: id in r ==> r[id].articleID == id
  {
    if s == [] then map[] else IDDictionary(s[..|s| - 1])[s[|s| - 1].articleID := s[|s| - 1]]
  }

  /** The dictionary holds, for each id, the last article with that id. */
  lemma {:induction false} IDDictionaryLastWins(s: seq<Article>, i: nat)
    requires i < |s|
    requires forall j :: i < j < |s| ==> s[j].articleID != s[i].articleID
    ensures s[i].articleID in IDDictionary(s) && IDDictionary(s)[s[i].articleID] == s[i]
  {
    if i < |s| - 1 {
      var p := s[..|s| - 1];
      assert p[i] == s[i];
      IDDictionaryLastWins(p, i);
    }
  }

  /** The statuses the timeline's articles point to. */
  function StatusesIn(s: seq<Article>): set<ArticleStatus> {
    set i | 0 <= i < |s| :: s[i].status
  }

  /** The number of unread articles in the timeline. */
  function CountUnread(s: seq<Article>): (r: nat)
    reads StatusesIn(s)
    ensures r <= |s|
  {
    if s == [] then 0
    else
      assert StatusesIn(s[..|s| - 1]) <= StatusesIn(s) by {
        forall st | st in StatusesIn(s[..|s| - 1]) ensures st in StatusesIn(s) {
          var i :| 0 <= i < |s| - 1 && s[..|s| - 1][i].status == st;
          assert s[i].status == st;
        }
      }
      assert s[|s| - 1].status in StatusesIn(s);
      CountUnread(s[..|s| - 1]) + (if s[|s| - 1].status.read then 0 else 1)
  }

  /** The count is positive exactly when some article is unread. */
  lemma {:induction false} CountUnreadPositive(s: seq<Article>)
    ensures CountUnread(s) > 0 <==> exists i :: 0 <= i < |s| && !s[i].status.read
  {
    if s != [] {
      var p := s[..|s| - 1];
      CountUnreadPositive(p);
      if exists i :: 0 <= i < |p| && !p[i].status.read {
        var i :| 0 <= i < |p| && !p[i].status.read;
        assert !s[i].status.read;
      }
      if exists i :: 0 <= i < |s| && !s[i].status.read {
        var i :| 0 <= i < |s| && !s[i].status.read;
        if i < |s| - 1 {
          assert !p[i].status.read;
        }
      }
    }
  }

  // ---------------------------------------------------------------- merging a fetch

  /** The current articles whose id the fetch did not return: they are kept. */
  function NotFetched(fetched: set<Article>, current: seq<Article>): set<Article> {
    set i | 0 <= i < |current| && current[i].articleID !in ArticleIDsOf(fetched) :: current[i]
  }

  /** The current articles whose feed no longer exists: they are dropped. */
  function Orphans(current: seq<Article>, feedExists: Article -> bool): set<Article> {
    set i | 0 <= i < |current| && !feedExists(current[i]) :: current[i]
  }

  /**
   * The merge loop of `fetchAndMergeArticlesAsync`: the fetched articles,
   * plus each current article whose id was not fetched, without the
   * current articles whose feed is gone. Whether a feed exists is the
   * data store's lookup, a parameter here.
   */
  method MergedArticles(fetched: set<Article>, current: seq<Article>, feedExists: Article -> bool)
    returns (updatedArticles: set<Article>)
    ensures updatedArticles == (fetched + NotFetched(fetched, current)) - Orphans(current, feedExists)
  {
    var unsortedArticleIDs := ArticleIDsOf(fetched);
    updatedArticles := fetched;
    var i := 0;
    while i < |current|
      invariant 0 <= i <= |current|
      invariant updatedArticles == (fetched + NotFetched(fetched, current[..i])) - Orphans(current[..i], feedExists)
    {
      var article := current[i];
      assert current[..i + 1] == current[..i] + [article];
      assert NotFetched(fetched, current[..i + 1])
        == NotFetched(fetched, current[..i]) + (if article.articleID !in unsortedArticleIDs then {article} else {});
      assert Orphans(current[..i + 1], feedExists)
        == Orphans(current[..i], feedExists) + (if !feedExists(article) then {article} else {});
      if article.articleID !in unsortedArticleIDs {
        updatedArticles := updatedArticles + {article};
      }
      if !feedExists(article) {
        updatedArticles := updatedArticles - {article};
      }
      i := i + 1;
    }
    assert current[..|current|] == current;
  }

  /** A fetched article is kept unless a current article equal to it has lost its feed. */
  lemma MergeKeepsFetched(fetched: set<Article>, current: seq<Article>, feedExists: Article -> bool, a: Article)
    requires a in fetched && a !in Orphans(current, feedExists)
    ensures a in (fetched + NotFetched(fetched, current)) - Orphans(current, feedExists)
  {
  }

  /** A current article whose id was not fetched and whose feed exists survives the merge. */
  lemma MergeKeepsUnfetchedCurrent(fetched: set<Article>, current: seq<Article>, feedExists: Article -> bool, i: nat)
    requires i < |current| && current[i].articleID !in ArticleIDsOf(fetched) && feedExists(current[i])
    ensures current[i] in (fetched + NotFetched(fetched, current)) - Orphans(current, feedExists)
  {
    assert current[i] in NotFetched(fetched, current);
  }

  /** A current article whose feed is gone does not survive, even if the fetch returned it. */
  lemma MergeDropsOrphans(fetched: set<Article>, current: seq<Article>, feedExists: Article -> bool, i: nat)
    requires i < |current| && !feedExists(current[i])
    ensures current[i] !in (fetched + NotFetched(fetched, current)) - Orphans(current, feedExists)
  {
    assert current[i] in Orphans(current, feedExists);
  }

  /** Everything merged was fetched or was already in the timeline. */
  lemma MergeAddsNothingNew(fetched: set<Article>, current: seq<Article>, feedExists: Article -> bool, a: Article)
    requires a in (fetched + NotFetched(fetched, current)) - Orphans(current, feedExists)
    ensures a in fetched || a in current
  {
  }
}
