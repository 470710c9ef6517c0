/**
 * Feed candidates found while looking for a site's feed, their scores and
 * the choice of the best one.
 */
module FeedSpecifier {
  import opened Wrappers
  import opened Text

  /** Where a candidate was found; a lower raw value is a better source. */
  datatype Source = UserEntered | HTMLHead | HTMLLink

  function RawValue(s: Source): nat {
    match s
    case UserEntered => 0
    case HTMLHead => 1
    case HTMLLink => 2
  }

  /** `Source.equalToOrBetterThan`. */
  predicate EqualToOrBetterThan(s: Source, other: Source) {
    RawValue(s) <= RawValue(other)
  }

  /** A user-entered URL is at least as good as any other source, and the order is total and antisymmetric. */
  lemma SourceOrder(s: Source, t: Source)
    ensures EqualToOrBetterThan(UserEntered, s)
    ensures EqualToOrBetterThan(s, t) || EqualToOrBetterThan(t, s)
    ensures EqualToOrBetterThan(s, t) && EqualToOrBetterThan(t, s) ==> s == t
  {
  }

  datatype Spec = Spec(title: Option<string>, urlString: string, source: Source, orderFound: int)

  /** Specifiers are equal, and hash, by their URL string alone. */
  predicate SameSpecifier(a: Spec, b: Spec) {
    a.urlString == b.urlString
  }

  /** `knownFeedSpecifier(url:)`; `isRachelByTheBay` stands for `url.isRachelByTheBayURL`. */
  function KnownFeedSpecifier(isRachelByTheBay: bool): (r: Option<Spec>)
    ensures r.Some? <==> isRachelByTheBay
    ensures r.Some? ==> r.value.source == UserEntered && r.value.urlString == "https://rachelbythebay.com/w/atom.xml"
  {
    if isRachelByTheBay then
      Some(Spec(Some("writing - rachelbythebay"), "https://rachelbythebay.com/w/atom.xml", UserEntered, 0))
    else
      None
  }

  /** `feedSpecifierByMerging`: the best data of both, under `a`'s URL. */
  function Merge(a: Spec, b: Spec): (r: Spec)
    ensures SameSpecifier(r, a) && r.urlString == a.urlString
    ensures a.title.Some? ==> r.title == a.title
    ensures a.title.None? ==> r.title == b.title
    ensures r.title.Some? <==> a.title.Some? || b.title.Some?
    ensures (r.source == a.source || r.source == b.source)
    ensures EqualToOrBetterThan(r.source, a.source) && EqualToOrBetterThan(r.source, b.source)
    ensures (r.orderFound == a.orderFound || r.orderFound == b.orderFound)
    ensures r.orderFound <= a.orderFound && r.orderFound <= b.orderFound
  {
    var title := if a.title.Some? then a.title else b.title;
    var source := if EqualToOrBetterThan(a.source, b.source) then a.source else b.source;
    var order := if a.orderFound < b.orderFound then a.orderFound else b.orderFound;
    Spec(title, a.urlString, source, order)
  }

  /** Merging a specifier with itself changes nothing. */
  lemma MergeIdempotent(a: Spec)
    ensures Merge(a, a) == a
  {
  }

  /** Apart from the title and URL, merging is symmetric. */
  lemma MergeSymmetricRanking(a: Spec, b: Spec)
    ensures Merge(a, b).source == Merge(b, a).source
    ensures Merge(a, b).orderFound == Merge(b, a).orderFound
  {
    SourceOrder(a.source, b.source);
  }

  // ---------------------------------------------------------------- scoring

  function SourceBonus(s: Source): int {
    if s == HTMLHead then 50 else 0
  }

  /** The URL keyword and suffix adjustments of `calculatedScore`. */
  function UrlAdjustment(u: string): int {
    (if ContainsCI(u, "comments") then -10 else 0)
    + (if ContainsCI(u, "podcast") then -10 else 0)
    + (if ContainsCI(u, "rss") then 5 else 0)
    + (if HasSuffix(u, "/index.xml") then 5 else 0)
    + (if HasSuffix(u, "/feed/") then 5 else 0)
    + (if HasSuffix(u, "/feed") then 4 else 0)
    + (if ContainsCI(u, "json") then 3 else 0)
  }

  function TitleAdjustment(title: Option<string>): int {
    if title.Some? && ContainsCI(title.value, "comments") then -10 else 0
  }

  /** The score of a candidate: 1000 for a user-entered URL, otherwise the sum of the adjustments. */
  function Score(f: Spec): int {
    if f.source == UserEntered then 1000
    else SourceBonus(f.source) - (f.orderFound - 1) * 5 + UrlAdjustment(f.urlString) + TitleAdjustment(f.title)
  }

  /** `calculatedScore`, accumulating into `score` as the source does. */
  method CalculatedScore(f: Spec) returns (score: int)
    ensures score == Score(f)
  {
    score := 0;
    if f.source == UserEntered {
      return 1000;
    } else if f.source == HTMLHead {
      score := score + 50;
    }
    score := score - (f.orderFound - 1) * 5;
    score := AddUrlAdjustments(score, f.urlString);
    if f.title.Some? {
      if ContainsCI(f.title.value, "comments") {
        score := score - 10;
      }
    }
  }

  /** The URL steps of `calculatedScore`, applied to the running score. */
  method AddUrlAdjustments(score0: int, u: string) returns (score: int)
    ensures score == score0 + UrlAdjustment(u)
  {
    score := score0;
    if ContainsCI(u, "comments") {
      score := score - 10;
    }
    if ContainsCI(u, "podcast") {
      score := score - 10;
    }
    if ContainsCI(u, "rss") {
      score := score + 5;
    }
    if HasSuffix(u, "/index.xml") {
      score := score + 5;
    }
    if HasSuffix(u, "/feed/") {
      score := score + 5;
    }
    if HasSuffix(u, "/feed") {
      score := score + 4;
    }
    if ContainsCI(u, "json") {
      score := score + 3;
    }
  }

  /** At most one of the three suffixes can match, since they end in different characters. */
  lemma SuffixesExclusive(u: string)
    ensures !(HasSuffix(u, "/index.xml") && HasSuffix(u, "/feed/"))
    ensures !(HasSuffix(u, "/index.xml") && HasSuffix(u, "/feed"))
    ensures !(HasSuffix(u, "/feed/") && HasSuffix(u, "/feed"))
  {
    if HasSuffix(u, "/index.xml") {
      assert u[|u| - 1] == "/index.xml"[9] == 'l';
    }
    if HasSuffix(u, "/feed/") {
      assert u[|u| - 1] == "/feed/"[5] == '/';
    }
    if HasSuffix(u, "/feed") {
      assert u[|u| - 1] == "/feed"[4] == 'd';
    }
  }

  /** The URL adjustments lie between -20 and +13. */
  lemma UrlAdjustmentBounds(u: string)
    ensures -20 <= UrlAdjustment(u) <= 13
  {
    SuffixesExclusive(u);
  }

  /** Each later position in discovery order costs five points. */
  lemma LaterFoundScoresLower(a: Spec, b: Spec)
    requires a.source != UserEntered
    requires b == a.(orderFound := b.orderFound)
    ensures Score(a) - Score(b) == 5 * (b.orderFound - a.orderFound)
  {
  }

  /** A candidate found in the HTML head scores 50 more than the same link found elsewhere. */
  lemma HeadLinkBonus(head: Spec, link: Spec)
    requires head.source == HTMLHead && link == head.(source := HTMLLink)
    ensures Score(head) == Score(link) + 50
  {
  }

  /** A user-entered URL outscores every discovered candidate (discovery order starts at 1). */
  lemma UserEnteredWins(u: Spec, f: Spec)
    requires u.source == UserEntered && f.source != UserEntered && f.orderFound >= 1
    ensures Score(f) < Score(u)
  {
    UrlAdjustmentBounds(f.urlString);
  }

  // ---------------------------------------------------------------- bestFeed

  /** `Int.min`, the initial high score. */
  const IntMin: int := -0x8000_0000_0000_0000

  /** Position `k` holds a highest score above `Int.min`, and no earlier position reaches it. */
  predicate IsFirstBest(specs: seq<Spec>, k: nat) {
    k < |specs| && Score(specs[k]) > IntMin
    && (forall i :: 0 <= i < |specs| ==> Score(specs[i]) <= Score(specs[k]))
    && (forall i :: 0 <= i < k ==> Score(specs[i]) < Score(specs[k]))
  }

  /** There is at most one first-best position. */
  lemma FirstBestUnique(specs: seq<Spec>, k: nat, m: nat)
    requires IsFirstBest(specs, k) && IsFirstBest(specs, m)
    ensures k == m
  {
    assert Score(specs[k]) <= Score(specs[m]) && Score(specs[m]) <= Score(specs[k]);
  }

  /**
   * `bestFeed(in:)`. The set is given as the sequence of its elements in
   * iteration order, which decides ties: the first candidate with the
   * highest score wins.
   */
  method BestFeed(specs: seq<Spec>) returns (best: Option<Spec>)
    ensures |specs| == 0 ==> best.None?
    ensures |specs| == 1 ==> best == Some(specs[0])
    ensures |specs| >= 2 && best.Some? ==> exists k: nat :: IsFirstBest(specs, k) && best.value == specs[k]
    ensures |specs| >= 2 && best.None? <==> |specs| >= 2 && forall i :: 0 <= i < |specs| ==> Score(specs[i]) <= IntMin
  {
    if |specs| == 0 {
      return None;
    }
    if |specs| == 1 {
      return Some(specs[0]);
    }
    var currentHighScore := IntMin;
    best := None;
    ghost var k: nat := 0;
    var i := 0;
    while i < |specs|
      invariant 0 <= i <= |specs|
      invariant best.None? ==> currentHighScore == IntMin
      invariant forall j :: 0 <= j < i ==> Score(specs[j]) <= currentHighScore
      invariant best.Some? ==> k < i && best.value == specs[k] && currentHighScore == Score(specs[k]) > IntMin
      invariant best.Some? ==> forall j :: 0 <= j < k ==> Score(specs[j]) < currentHighScore
    {
      var oneScore := CalculatedScore(specs[i]);
      if oneScore > currentHighScore {
        currentHighScore := oneScore;
        best := Some(specs[i]);
        k := i;
      }
      i := i + 1;
    }
    if best.Some? {
      assert IsFirstBest(specs, k);
    }
  }
}
