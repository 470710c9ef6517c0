/**
 * The timeline's helpers on an array of articles: rows, the order in which
 * rows are searched for the next unread article, tests over the articles'
 * statuses, comparison of two arrays, and the articles above and below one.
 */
module ArticleArrayModel {
  import opened Wrappers
  import opened ArticleStatusModel
  import opened ArticleModel
  import opened ArticleUtilities

  /** The statuses of the articles of an array. */
  function StatusesIn(s: seq<Article>): set<ArticleStatus> {
    set a | a in s :: a.status
  }

  /** `articleAtRow(_:)`: nil for a row outside the array. */
  function ArticleAtRow(s: seq<Article>, row: int): (r: Option<Article>)
    ensures r.Some? <==> 0 <= row < |s|
    ensures r.Some? ==> r.value == s[row]
  {
    if row < 0 || row > |s| - 1 then None else Some(s[row])
  }

  /** `article(matching:)`: the first article the specifier matches; the specifier's test is a parameter. */
  function ArticleMatching(s: seq<Article>, matches: Article -> bool): (r: Option<Article>)
    ensures r.None? <==> forall k :: 0 <= k < |s| ==> !matches(s[k])
    ensures r.Some? ==> exists k :: 0 <= k < |s| && s[k] == r.value && matches(s[k]) && forall m :: 0 <= m < k ==> !matches(s[m])
  {
    if |s| == 0 then None
    else if matches(s[0]) then Some(s[0])
    else
      var r := ArticleMatching(s[1..], matches);
      assert r.Some? ==> exists k :: 1 <= k < |s| && s[k] == r.value && matches(s[k]) && forall m :: 0 <= m < k ==> !matches(s[m]) by {
        if r.Some? {
          var k :| 0 <= k < |s| - 1 && s[1..][k] == r.value && matches(s[1..][k]) && forall m :: 0 <= m < k ==> !matches(s[1..][m]);
          assert s[k + 1] == r.value && forall m :: 0 <= m < k + 1 ==> !matches(s[m]);
        }
      }
      r
  }

  // ---------------------------------------------------------------- next unread

  /** `[Int](lo..<hi)`. */
  function Range(lo: int, hi: int): (r: seq<int>)
    requires lo <= hi
    ensures |r| == hi - lo && forall k :: 0 <= k < |r| ==> r[k] == lo + k
  {
    seq(hi - lo, k requires 0 <= k < hi - lo => lo + k)
  }

  /**
   * `orderedRowIndexes(fromIndex:wrappingToTop:)`: from the start to the end,
   * then from the top to the start when wrapping. A start past the end
   * gives every row when wrapping and none otherwise. A negative start
   * with wrapping would form the range `0..<start`, which traps.
   */
  function OrderedRowIndexes(s: seq<Article>, start: int, wrapping: bool): (r: seq<int>)
    requires wrapping && start < |s| ==> start >= 0
    ensures start >= 0 ==> forall k :: 0 <= k < |r| ==> 0 <= r[k] < |s|
  {
    if start >= |s| then (if wrapping then Range(0, |s|) else [])
    else Range(start, |s|) + (if wrapping then Range(0, start) else [])
  }

  /** Wrapping, the order visits every row exactly once; without wrapping it is the rows from the start on. */
  lemma OrderedRowIndexesCover(s: seq<Article>, start: int, wrapping: bool)
    requires start >= 0
    ensures wrapping ==> multiset(OrderedRowIndexes(s, start, wrapping)) == multiset(Range(0, |s|))
    ensures !wrapping && start < |s| ==> OrderedRowIndexes(s, start, wrapping) == Range(start, |s|)
    ensures !wrapping && start >= |s| ==> OrderedRowIndexes(s, start, wrapping) == []
  {
    if wrapping && start < |s| {
      assert Range(0, |s|) == Range(0, start) + Range(start, |s|);
    }
    if !wrapping && start < |s| {
      assert Range(start, |s|) + [] == Range(start, |s|);
    }
  }

  /** Wrapping, every row is somewhere in the order. */
  lemma EveryRowOrdered(s: seq<Article>, start: int, row: int)
    requires start >= 0 && 0 <= row < |s|
    ensures row in OrderedRowIndexes(s, start, true)
  {
    OrderedRowIndexesCover(s, start, true);
    var all := Range(0, |s|);
    assert all[row] == row;
    assert row in multiset(all);
  }

  /** When every row in the wrapping order is read, every article is. */
  lemma AllRowsRead(s: seq<Article>, start: int)
    requires start >= 0
    requires forall q :: 0 <= q < |OrderedRowIndexes(s, start, true)| ==> s[OrderedRowIndexes(s, start, true)[q]].status.read
    ensures forall k :: 0 <= k < |s| ==> s[k].status.read
  {
    var order := OrderedRowIndexes(s, start, true);
    forall k | 0 <= k < |s|
      ensures s[k].status.read
    {
      EveryRowOrdered(s, start, k);
      var q :| 0 <= q < |order| && order[q] == k;
    }
  }

  /**
   * `rowOfNextUnreadArticle(_:wrappingToTop:)`: the first row, in the order
   * from the row after the selection, whose article is unread. A selection
   * before -1 would look up a negative row, which traps.
   */
  method RowOfNextUnreadArticle(s: seq<Article>, selectedRow: int, wrapping: bool) returns (r: Option<int>)
    requires selectedRow >= -1
    ensures |s| == 0 ==> r.None?
    ensures r.Some? ==>
      var order := OrderedRowIndexes(s, selectedRow + 1, wrapping);
      exists p :: 0 <= p < |order| && order[p] == r.value && !s[order[p]].status.read
        && forall q :: 0 <= q < p ==> s[order[q]].status.read
    ensures r.None? && |s| > 0 ==>
      var order := OrderedRowIndexes(s, selectedRow + 1, wrapping);
      forall q :: 0 <= q < |order| ==> s[order[q]].status.read
    ensures wrapping && (exists k :: 0 <= k < |s| && !s[k].status.read) ==> r.Some?
  {
    if |s| == 0 {
      return None;
    }
    var order := OrderedRowIndexes(s, selectedRow + 1, wrapping);
    var p := 0;
    while p < |order|
      invariant 0 <= p <= |order|
      invariant forall q :: 0 <= q < p ==> s[order[q]].status.read
    {
      var rowIndex := order[p];
      var article := ArticleAtRow(s, rowIndex).value;
      if !article.status.read {
        return Some(rowIndex);
      }
      p := p + 1;
    }
    if wrapping {
      AllRowsRead(s, selectedRow + 1);
    }
    return None;
  }

  /** `articlesForIndexes(_:)`: the articles at the given rows, in the index set's ascending order, skipping rows outside the array. */
  function ArticlesForIndexes(s: seq<Article>, indexes: seq<int>): (r: seq<Article>)
    ensures |r| <= |indexes|
    ensures forall x :: x in r ==> x in s
    ensures (forall k :: 0 <= k < |indexes| ==> 0 <= indexes[k] < |s|) ==>
      |r| == |indexes| && forall k :: 0 <= k < |indexes| ==> r[k] == s[indexes[k]]
    ensures (forall k :: 0 <= k < |indexes| ==> indexes[k] < 0 || indexes[k] >= |s|) ==> r == []
  {
    if |indexes| == 0 then []
    else
      var rest := ArticlesForIndexes(s, indexes[1..]);
      match ArticleAtRow(s, indexes[0])
      case Some(a) => [a] + rest
      case None => rest
  }

  // ---------------------------------------------------------------- status tests

  /** The tests the timeline passes to `anyArticlePassesTest(_:)`. */
  datatype StatusTest = IsReadAndCanMarkUnread | IsUnread | IsStarred | IsUnstarred

  predicate Passes(t: StatusTest, a: Article)
    reads a.status
  {
    match t
    case IsReadAndCanMarkUnread => a.status.read && IsAvailableToMarkUnread(a)
    case IsUnread => !a.status.read
    case IsStarred => a.status.starred
    case IsUnstarred => !a.status.starred
  }

  /** `anyArticlePassesTest(_:)`: whether some article passes, looking at the articles in order. */
  method AnyArticlePassesTest(s: seq<Article>, t: StatusTest) returns (b: bool)
    ensures b <==> exists k :: 0 <= k < |s| && Passes(t, s[k])
  {
    var i := 0;
    while i < |s|
      invariant 0 <= i <= |s|
      invariant forall k :: 0 <= k < i ==> !Passes(t, s[k])
    {
      if Passes(t, s[i]) {
        return true;
      }
      i := i + 1;
    }
    return false;
  }

  /** `anyArticleIsReadAndCanMarkUnread()`. */
  method AnyArticleIsReadAndCanMarkUnread(s: seq<Article>) returns (b: bool)
    ensures b <==> exists k :: 0 <= k < |s| && s[k].status.read
  {
    b := AnyArticlePassesTest(s, IsReadAndCanMarkUnread);
  }

  /** `anyArticleIsUnread()`. */
  method AnyArticleIsUnread(s: seq<Article>) returns (b: bool)
    ensures b <==> exists k :: 0 <= k < |s| && !s[k].status.read
  {
    b := AnyArticlePassesTest(s, IsUnread);
  }

  /** `anyArticleIsStarred()`. */
  method AnyArticleIsStarred(s: seq<Article>) returns (b: bool)
    ensures b <==> exists k :: 0 <= k < |s| && s[k].status.starred
  {
    b := AnyArticlePassesTest(s, IsStarred);
  }

  /** `anyArticleIsUnstarred()`. */
  method AnyArticleIsUnstarred(s: seq<Article>) returns (b: bool)
    ensures b <==> exists k :: 0 <= k < |s| && !s[k].status.starred
  {
    b := AnyArticlePassesTest(s, IsUnstarred);
  }

  /** `canMarkAllAsRead()`: some article is unread. */
  method CanMarkAllAsRead(s: seq<Article>) returns (b: bool)
    ensures b <==> exists k :: 0 <= k < |s| && !s[k].status.read
    ensures b <==> UnreadArticles(s).Some?
  {
    b := AnyArticleIsUnread(s);
    UnreadArticlesNone(s);
  }

  /** The unread articles, in order. */
  function UnreadIn(s: seq<Article>): (r: seq<Article>)
    reads StatusesIn(s)
    ensures |r| <= |s|
    ensures forall x :: x in r ==> x in s && !x.status.read
    ensures forall k :: 0 <= k < |s| && !s[k].status.read ==> s[k] in r
  {
    if |s| == 0 then []
    else
      var rest := UnreadIn(s[1..]);
      assert forall k :: 1 <= k < |s| ==> s[k] == s[1..][k - 1];
      if !s[0].status.read then [s[0]] + rest else rest
  }

  /** `unreadArticles()`: the unread articles, or nil when there is none. */
  function UnreadArticles(s: seq<Article>): (r: Option<seq<Article>>)
    reads StatusesIn(s)
    ensures r.Some? ==> |r.value| > 0 && r.value == UnreadIn(s)
  {
    var articles := UnreadIn(s);
    if |articles| == 0 then None else Some(articles)
  }

  /** There are no unread articles exactly when every article is read. */
  lemma UnreadArticlesNone(s: seq<Article>)
    ensures UnreadArticles(s).None? <==> forall k :: 0 <= k < |s| ==> s[k].status.read
  {
    if UnreadArticles(s).Some? {
      var x := UnreadIn(s)[0];
      assert x in UnreadIn(s);
      var k :| 0 <= k < |s| && s[k] == x;
      assert !s[k].status.read;
    }
  }

  // ---------------------------------------------------------------- comparing and splitting

  /**
   * `representSameArticlesInSameOrder(as:)`: as many articles, pairwise
   * from the same data store and with the same id. Which data store an
   * account id names is a parameter.
   */
  method RepresentSameArticlesInSameOrder(s: seq<Article>, other: seq<Article>, dataStoreOf: string -> Option<nat>)
    returns (b: bool)
    ensures b <==> |s| == |other| && forall k :: 0 <= k < |s| ==>
      dataStoreOf(s[k].accountID) == dataStoreOf(other[k].accountID) && s[k].articleID == other[k].articleID
  {
    if |s| != |other| {
      return false;
    }
    var i := 0;
    while i < |s|
      invariant 0 <= i <= |s|
      invariant forall k :: 0 <= k < i ==>
        dataStoreOf(s[k].accountID) == dataStoreOf(other[k].accountID) && s[k].articleID == other[k].articleID
    {
      var article := s[i];
      var otherArticle := other[i];
      if dataStoreOf(article.accountID) != dataStoreOf(otherArticle.accountID) || article.articleID != otherArticle.articleID {
        return false;
      }
      i := i + 1;
    }
    return true;
  }

  /** `firstIndex(of:)`, under the articles' equality. */
  function FirstIndexOf(s: seq<Article>, x: Article): (r: Option<nat>)
    ensures r.Some? ==> r.value < |s| && ArticleEquals(s[r.value], x) && forall m :: 0 <= m < r.value ==> !ArticleEquals(s[m], x)
    ensures r.None? <==> forall k :: 0 <= k < |s| ==> !ArticleEquals(s[k], x)
  {
    if |s| == 0 then None
    else if ArticleEquals(s[0], x) then Some(0)
    else
      match FirstIndexOf(s[1..], x)
      case None => None
      case Some(i) => Some(i + 1)
  }

  /** `articlesAbove(position:)`: the articles before the position; none for a position past the end. */
  function ArticlesAbovePosition(s: seq<Article>, position: int): (r: seq<Article>)
    // Swift's slice would trap on a negative position.
    requires position >= 0
    ensures position >= |s| ==> r == []
    ensures position < |s| ==> |r| == position
  {
    if position < |s| then s[..position] else []
  }

  /** `articlesBelow(position:)`: the articles after the position; none for a position past the end. */
  function ArticlesBelowPosition(s: seq<Article>, position: int): (r: seq<Article>)
    // Swift's slice would trap on a negative position.
    requires position >= 0
    ensures position >= |s| ==> r == []
    ensures position < |s| ==> |r| == |s| - position - 1
  {
    if position < |s| then
      var articlesBelow := s[position..];
      articlesBelow[1..]
    else []
  }

  /** `articlesAbove(article:)`. */
  function ArticlesAbove(s: seq<Article>, x: Article): seq<Article> {
    match FirstIndexOf(s, x)
    case None => []
    case Some(position) => ArticlesAbovePosition(s, position)
  }

  /** `articlesBelow(article:)`. */
  function ArticlesBelow(s: seq<Article>, x: Article): seq<Article> {
    match FirstIndexOf(s, x)
    case None => []
    case Some(position) => ArticlesBelowPosition(s, position)
  }

  /** The articles above a position, the article there and those below it make up the array. */
  lemma AboveAndBelowSplit(s: seq<Article>, position: int)
    requires 0 <= position < |s|
    ensures ArticlesAbovePosition(s, position) + [s[position]] + ArticlesBelowPosition(s, position) == s
  {
    assert s == s[..position] + [s[position]] + s[position + 1..];
    assert s[position..][1..] == s[position + 1..];
  }

  /** Around an article in the array, the split is at its first equal; an article not in it has nothing around it. */
  lemma AboveAndBelowArticle(s: seq<Article>, x: Article)
    ensures FirstIndexOf(s, x).None? ==> ArticlesAbove(s, x) == [] && ArticlesBelow(s, x) == []
    ensures FirstIndexOf(s, x).Some? ==>
      var p := FirstIndexOf(s, x).value;
      ArticleEquals(s[p], x) && ArticlesAbove(s, x) + [s[p]] + ArticlesBelow(s, x) == s
      && forall y :: y in ArticlesAbove(s, x) ==> !ArticleEquals(y, x)
  {
    if FirstIndexOf(s, x).Some? {
      var p := FirstIndexOf(s, x).value;
      AboveAndBelowSplit(s, p);
      assert forall k :: 0 <= k < p ==> ArticlesAbove(s, x)[k] == s[k];
    }
  }
}
