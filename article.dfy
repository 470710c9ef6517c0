/**
 * `Article`: one article of a feed, its content fields, its authors and a
 * reference to its mutable status; the id it is given when the sync
 * service supplies none; equality and hashing; and the title sanitised for
 * display, in which only a few inline tags survive.
 */
module ArticleModel {
  import opened Wrappers
  import opened Text
  import opened ArticleStatusModel
  import opened AuthorModel

  datatype Article = Article(
    articleID: string,
    accountID: string,
    feedID: string,
    uniqueID: string,
    title: Option<string>,
    contentHTML: Option<string>,
    contentText: Option<string>,
    markdown: Option<string>,
    rawLink: Option<string>,
    rawExternalLink: Option<string>,
    summary: Option<string>,
    rawImageLink: Option<string>,
    datePublished: Option<real>,
    dateModified: Option<real>,
    authors: Option<set<Author>>,
    status: ArticleStatus)

  /** `calculatedArticleID`: the database id of "feedID uniqueID"; the hash behind the id is a parameter. */
  function CalculatedArticleID(feedID: string, uniqueID: string, databaseID: string -> string): string {
    databaseID(feedID + " " + uniqueID)
  }

  /** `init`: the given fields, and the given id or else the calculated one. */
  function MakeArticle(
    accountID: string, articleID: Option<string>, feedID: string, uniqueID: string,
    title: Option<string>, contentHTML: Option<string>, contentText: Option<string>, markdown: Option<string>,
    url: Option<string>, externalURL: Option<string>, summary: Option<string>, imageURL: Option<string>,
    datePublished: Option<real>, dateModified: Option<real>, authors: Option<set<Author>>, status: ArticleStatus,
    databaseID: string -> string): (r: Article)
    ensures articleID.Some? ==> r.articleID == articleID.value
    ensures articleID.None? ==> r.articleID == CalculatedArticleID(feedID, uniqueID, databaseID)
    ensures r.accountID == accountID && r.feedID == feedID && r.uniqueID == uniqueID && r.status == status
    ensures r.title == title && r.contentHTML == contentHTML && r.contentText == contentText && r.markdown == markdown
    ensures r.rawLink == url && r.rawExternalLink == externalURL && r.summary == summary && r.rawImageLink == imageURL
    ensures r.datePublished == datePublished && r.dateModified == dateModified && r.authors == authors
  {
    var id := if articleID.Some? then articleID.value else CalculatedArticleID(feedID, uniqueID, databaseID);
    Article(id, accountID, feedID, uniqueID, title, contentHTML, contentText, markdown,
            url, externalURL, summary, imageURL, datePublished, dateModified, authors, status)
  }

  /** `==`: every content field but `markdown`; the status is not compared. */
  predicate ArticleEquals(a: Article, b: Article) {
    a.articleID == b.articleID && a.accountID == b.accountID && a.feedID == b.feedID && a.uniqueID == b.uniqueID
    && a.title == b.title && a.contentHTML == b.contentHTML && a.contentText == b.contentText
    && a.rawLink == b.rawLink && a.rawExternalLink == b.rawExternalLink && a.summary == b.summary
    && a.rawImageLink == b.rawImageLink && a.datePublished == b.datePublished && a.dateModified == b.dateModified
    && a.authors == b.authors
  }

  /** Equality is an equivalence that agrees with the hash, the article's id, and ignores the status and markdown. */
  lemma ArticleEqualityLaws(a: Article, b: Article, c: Article, status: ArticleStatus, markdown: Option<string>)
    ensures ArticleEquals(a, a)
    ensures ArticleEquals(a, b) ==> ArticleEquals(b, a) && a.articleID == b.articleID
    ensures ArticleEquals(a, b) && ArticleEquals(b, c) ==> ArticleEquals(a, c)
    ensures ArticleEquals(a, a.(status := status, markdown := markdown))
  {
  }

  /** The statuses of a set of articles, which the readers below look at. */
  function StatusesOf(s: set<Article>): set<ArticleStatus> {
    set a | a in s :: a.status
  }

  /** `Set<Article>.articleIDs()`. */
  function ArticleIDsOf(s: set<Article>): (r: set<string>)
    ensures forall a :: a in s ==> a.articleID in r
    ensures forall id :: id in r ==> exists a :: a in s && a.articleID == id
  {
    set a | a in s :: a.articleID
  }

  /** `Set<Article>.unreadArticles()`. */
  function UnreadArticlesOf(s: set<Article>): (r: set<Article>)
    reads StatusesOf(s)
    ensures r <= s
    ensures forall a :: a in s ==> (a in r <==> !a.status.read)
  {
    set a | a in s && !a.status.read
  }

  /** `contains(accountID:articleID:)`. */
  predicate ContainsArticle(s: set<Article>, accountID: string, articleID: string) {
    exists a :: a in s && a.accountID == accountID && a.articleID == articleID
  }

  /** An article of the set is found by its own ids; a union holds the ids exactly when one side does. */
  lemma ContainsArticleLaws(s: set<Article>, t: set<Article>, a: Article, accountID: string, articleID: string)
    ensures a in s ==> ContainsArticle(s, a.accountID, a.articleID)
    ensures ContainsArticle(s + t, accountID, articleID) <==> ContainsArticle(s, accountID, articleID) || ContainsArticle(t, accountID, articleID)
  {
  }

  /** `[Article].articleIDs()`. */
  function ArticleIDsList(s: seq<Article>): (r: seq<string>)
    ensures |r| == |s| && forall k :: 0 <= k < |s| ==> r[k] == s[k].articleID
  {
    seq(|s|, k requires 0 <= k < |s| => s[k].articleID)
  }

  // ---------------------------------------------------------------- sanitizedTitle

  /** The tags kept in a title; none of them takes attributes. */
  const AllowedTags: set<string> := {
    "b", "bdi", "bdo", "cite", "code", "del", "dfn", "em", "i", "ins", "kbd",
    "mark", "q", "s", "samp", "small", "strong", "sub", "sup", "time", "u", "var"}

  /** A scanner's `scanUpToString` for one character: where the next `c` at or after `i` is, or the end. */
  function UpTo(t: string, i: nat, c: char): (j: nat)
    requires i <= |t|
    ensures i <= j <= |t| && (j < |t| ==> t[j] == c)
    decreases |t| - i
  {
    if i == |t| || t[i] == c then i else UpTo(t, i + 1, c)
  }

  /** What a tag becomes: allowed tags are kept for HTML and dropped otherwise; others are escaped for HTML and kept otherwise. */
  function TagPiece(tag: string, forHTML: bool): string {
    if ReplaceAll(tag, "/", "") in AllowedTags then
      (if forHTML then "<" + tag + ">" else "")
    else if forHTML then "&lt;" + tag + "&gt;"
    else "<" + tag + ">"
  }

  /** One pass of the scanning loop: the text before a `<`, the tag after it if there is one, and where the scan resumes. */
  datatype Scan = Scan(text: string, tag: Option<string>, next: nat)

  /** How a tag is rendered for HTML or for plain text. */
  function PieceFor(forHTML: bool): string -> string {
    tag => TagPiece(tag, forHTML)
  }

  /** What one pass appends, its tag rendered by `piece`. */
  function Rendered(s: Scan, piece: string -> string): string {
    if s.tag.Some? then s.text + piece(s.tag.value) else s.text
  }

  /**
   * One pass from `i`: the text up to the next `<`; then the tag up to the
   * next `>`, rendered by `TagPiece`, and the scan resumes after that `>`.
   * A `<` followed at once by `>` or by the end yields nothing, and the scan
   * resumes just after the `<`.
   */
  function Step(t: string, i: nat): (s: Scan)
    requires i < |t|
    ensures i < s.next <= |t|
  {
    var j := UpTo(t, i, '<');
    if j == |t| then Scan(t[i..], None, |t|)
    else
      var k := UpTo(t, j + 1, '>');
      if k == j + 1 then Scan(t[i..j], None, j + 1)
      else Scan(t[i..j], Some(t[j + 1..k]), if k < |t| then k + 1 else k)
  }

  /** The sanitised text: pass after pass, each resuming on what the previous one left. */
  function Sanitized(t: string, piece: string -> string): string
    decreases |t|
  {
    if |t| == 0 then ""
    else
      var s := Step(t, 0);
      Rendered(s, piece) + Sanitized(t[s.next..], piece)
  }

  function Sanitize(t: string, forHTML: bool): string {
    Sanitized(t, PieceFor(forHTML))
  }

  /** `scanUpToString` over one character: a loop advancing the scan position. */
  method ScanUpTo(t: string, i: nat, c: char) returns (j: nat)
    requires i <= |t|
    ensures j == UpTo(t, i, c)
  {
    j := i;
    while j < |t| && t[j] != c
      invariant i <= j <= |t| && UpTo(t, i, c) == UpTo(t, j, c)
      decreases |t| - j
    {
      j := j + 1;
    }
  }

  /** One pass of the loop in `sanitizedTitle`: scan to `<`, take it, scan the tag to `>`, take that. */
  method ScanOnce(t: string, i: nat) returns (sc: Scan)
    requires i < |t|
    ensures sc == Step(t, i)
  {
    var text, tag, next;
    var j := ScanUpTo(t, i, '<');
    text := t[i..j];
    tag := None;
    next := j;
    if j < |t| {
      var k := ScanUpTo(t, j + 1, '>');
      if k > j + 1 {
        tag := Some(t[j + 1..k]);
        next := if k < |t| then k + 1 else k;
      } else {
        next := j + 1;
      }
    }
    sc := Scan(text, tag, next);
  }

  /** The scanning loop of `sanitizedTitle(forHTML:)`: pass after pass until the scanner is at the end. */
  method SanitizeText(t: string, forHTML: bool) returns (result: string)
    ensures result == Sanitize(t, forHTML)
  {
    ghost var render := PieceFor(forHTML);
    result := "";
    var i := 0;
    assert t[0..] == t;
    while i < |t|
      invariant 0 <= i <= |t|
      invariant result + Sanitized(t[i..], render) == Sanitized(t, render)
      decreases |t| - i
    {
      var sc := ScanOnce(t, i);
      ghost var before := result;
      result := result + sc.text;
      if sc.tag.Some? {
        var piece := TagPiece(sc.tag.value, forHTML);
        assert piece == render(sc.tag.value);
        result := result + piece;
        AppendAssoc(before, sc.text, piece);
      }
      assert result == before + Rendered(sc, render);
      SanitizedStep(t, i, render);
      AppendAssoc(before, Rendered(sc, render), Sanitized(t[sc.next..], render));
      i := sc.next;
    }
    assert t[|t|..] == [];
  }

  /** `sanitizedTitle(forHTML:)`: nil without a title, else the title scanned tag by tag. */
  method SanitizedTitle(title: Option<string>, forHTML: bool) returns (r: Option<string>)
    ensures title.None? ==> r.None?
    ensures title.Some? ==> r == Some(Sanitize(title.value, forHTML))
  {
    if title.None? {
      return None;
    }
    var text := SanitizeText(title.value, forHTML);
    return Some(text);
  }

  // ---------------------------------------------------------------- what sanitising does

  /** The scan of a suffix does not depend on what precedes it. */
  lemma {:induction false} UpToShift(p: string, t: string, i: nat, c: char)
    requires i <= |t|
    ensures UpTo(p + t, |p| + i, c) == |p| + UpTo(t, i, c)
    decreases |t| - i
  {
    if i < |t| {
      assert (p + t)[|p| + i] == t[i];
      if t[i] != c {
        UpToShift(p, t, i + 1, c);
      }
    }
  }

  lemma SliceShift(p: string, t: string, a: nat, b: nat)
    requires a <= b <= |t|
    ensures (p + t)[|p| + a..|p| + b] == t[a..b]
  {
  }

  /** One pass over a suffix does not depend on what precedes it. */
  lemma StepShift(p: string, t: string, i: nat)
    requires i < |t|
    ensures Step(p + t, |p| + i).text == Step(t, i).text
    ensures Step(p + t, |p| + i).tag == Step(t, i).tag
    ensures Step(p + t, |p| + i).next == |p| + Step(t, i).next
  {
    UpToShift(p, t, i, '<');
    var j := UpTo(t, i, '<');
    if j == |t| {
      StepShiftText(p, t, i);
    } else {
      UpToShift(p, t, j + 1, '>');
      StepShiftTag(p, t, i, j);
    }
  }

  /** `StepShift` when no `<` is left: the pass takes the rest of the text. */
  lemma StepShiftText(p: string, t: string, i: nat)
    requires i < |t| && UpTo(t, i, '<') == |t| && UpTo(p + t, |p| + i, '<') == |p| + |t|
    ensures Step(p + t, |p| + i).text == Step(t, i).text
    ensures Step(p + t, |p| + i).tag == Step(t, i).tag
    ensures Step(p + t, |p| + i).next == |p| + Step(t, i).next
  {
    var u := p + t;
    SliceShift(p, t, i, |t|);
    assert u[|p| + i..] == u[|p| + i..|p| + |t|];
  }

  /** `StepShift` when a `<` is found at `j`. */
  lemma StepShiftTag(p: string, t: string, i: nat, j: nat)
    requires i <= j < |t| && UpTo(t, i, '<') == j && UpTo(p + t, |p| + i, '<') == |p| + j
    requires UpTo(p + t, |p| + j + 1, '>') == |p| + UpTo(t, j + 1, '>')
    ensures Step(p + t, |p| + i).text == Step(t, i).text
    ensures Step(p + t, |p| + i).tag == Step(t, i).tag
    ensures Step(p + t, |p| + i).next == |p| + Step(t, i).next
  {
    var k := UpTo(t, j + 1, '>');
    SliceShift(p, t, i, j);
    SliceShift(p, t, j + 1, k);
  }

  /** The pass from `i` is the first pass over the text from `i` on. */
  lemma StepOfSuffix(t: string, i: nat)
    requires i < |t|
    ensures Step(t, i).text == Step(t[i..], 0).text && Step(t, i).tag == Step(t[i..], 0).tag
    ensures Step(t, i).next == i + Step(t[i..], 0).next
  {
    assert t == t[..i] + t[i..];
    StepShift(t[..i], t[i..], 0);
  }

  /** Sanitising from `i` on is the pass from `i`, then sanitising from where it stops. */
  lemma SanitizedStep(t: string, i: nat, piece: string -> string)
    requires i < |t|
    ensures Sanitized(t[i..], piece) == Rendered(Step(t, i), piece) + Sanitized(t[Step(t, i).next..], piece)
  {
    StepOfSuffix(t, i);
    var n := Step(t[i..], 0).next;
    assert t[i..][n..] == t[Step(t, i).next..];
    assert Rendered(Step(t[i..], 0), piece) == Rendered(Step(t, i), piece);
  }

  /** Scanning over text without `c` goes on to the same place. */
  lemma {:induction false} UpToSkips(t: string, i: nat, m: nat, c: char)
    requires i <= m <= |t| && forall k :: i <= k < m ==> t[k] != c
    ensures UpTo(t, i, c) == UpTo(t, m, c)
    decreases m - i
  {
    if i < m {
      UpToSkips(t, i + 1, m, c);
    }
  }

  /** A title without `<` is returned unchanged. */
  lemma SanitizeNoMarkup(t: string, forHTML: bool)
    requires '<' !in t
    ensures Sanitize(t, forHTML) == t
  {
    if |t| > 0 {
      UpToSkips(t, 0, |t|, '<');
      assert Step(t, 0) == Scan(t, None, |t|);
      assert t[|t|..] == [];
      assert Sanitized(t[|t|..], PieceFor(forHTML)) == "";
    }
  }

  /** The first pass over text without `<` before `m` copies it, then goes on as the pass from `m`. */
  lemma StepSkipText(u: string, m: nat)
    requires 0 < m < |u| && forall k :: 0 <= k < m ==> u[k] != '<'
    ensures Step(u, 0) == Step(u, m).(text := u[..m] + Step(u, m).text)
  {
    UpToSkips(u, 0, m, '<');
    var j := UpTo(u, 0, '<');
    if j == |u| {
      assert u[0..] == u[..m] + u[m..];
    } else {
      assert u[0..j] == u[..m] + u[m..j];
    }
  }

  /** The first pass over `a + b`, with no `<` in `a`, is the first pass over `b` with `a` ahead of its text. */
  lemma StepLeadingText(a: string, b: string)
    requires '<' !in a && |a| > 0 && |b| > 0
    ensures Step(a + b, 0).text == a + Step(b, 0).text && Step(a + b, 0).tag == Step(b, 0).tag
    ensures Step(a + b, 0).next == |a| + Step(b, 0).next
  {
    var u := a + b;
    assert forall k :: 0 <= k < |a| ==> u[k] == a[k];
    StepSkipText(u, |a|);
    StepShift(a, b, 0);
    assert u[..|a|] == a;
  }

  /** Text before the first `<` is copied as it is, ahead of the rest. */
  lemma SanitizeLeadingText(a: string, b: string, forHTML: bool)
    requires '<' !in a
    ensures Sanitize(a + b, forHTML) == a + Sanitize(b, forHTML)
  {
    var u := a + b;
    var piece := PieceFor(forHTML);
    if |a| == 0 {
      assert u == b;
    } else if |b| == 0 {
      assert u == a;
      SanitizeNoMarkup(a, forHTML);
    } else {
      StepLeadingText(a, b);
      var s := Step(b, 0);
      var s' := Step(u, 0);
      var rest := Sanitized(b[s.next..], piece);
      if s.tag.Some? {
        AppendAssoc(a, s.text, piece(s.tag.value));
      }
      assert Rendered(s', piece) == a + Rendered(s, piece);
      assert u[s'.next..] == b[s.next..];
      assert Sanitized(u, piece) == Rendered(s', piece) + rest;
      AppendAssoc(a, Rendered(s, piece), rest);
    }
  }

  /** A tag closed by `>` becomes its piece, and the scan goes on after the `>`. */
  lemma SanitizeTagOnce(tag: string, rest: string, forHTML: bool)
    requires tag != "" && '>' !in tag
    ensures Sanitize("<" + tag + ">" + rest, forHTML) == TagPiece(tag, forHTML) + Sanitize(rest, forHTML)
  {
    var p := "<" + tag + ">";
    var u := p + rest;
    var n := |tag|;
    assert u[0] == '<';
    assert UpTo(u, 0, '<') == 0;
    assert forall k :: 1 <= k < n + 1 ==> u[k] == tag[k - 1];
    UpToSkips(u, 1, n + 1, '>');
    assert u[n + 1] == '>';
    assert UpTo(u, n + 1, '>') == n + 1;
    assert u[1..n + 1] == tag;
    assert Step(u, 0) == Scan("", Some(tag), |p|);
    assert u[|p|..] == rest;
  }

  /** How a closed tag is rendered: allowed tags are kept for HTML and dropped otherwise; others are escaped for HTML and kept otherwise. */
  lemma SanitizeTag(tag: string, rest: string)
    requires tag != "" && '>' !in tag
    ensures ReplaceAll(tag, "/", "") in AllowedTags ==>
      Sanitize("<" + tag + ">" + rest, true) == "<" + tag + ">" + Sanitize(rest, true)
      && Sanitize("<" + tag + ">" + rest, false) == Sanitize(rest, false)
    ensures ReplaceAll(tag, "/", "") !in AllowedTags ==>
      Sanitize("<" + tag + ">" + rest, true) == "&lt;" + tag + "&gt;" + Sanitize(rest, true)
      && Sanitize("<" + tag + ">" + rest, false) == "<" + tag + ">" + Sanitize(rest, false)
  {
    SanitizeTagOnce(tag, rest, true);
    SanitizeTagOnce(tag, rest, false);
  }

  /** `<>` is not a tag: the `<` is dropped and the `>` is read as text. */
  lemma SanitizeEmptyTag(rest: string, forHTML: bool)
    ensures Sanitize("<>" + rest, forHTML) == Sanitize(">" + rest, forHTML)
  {
    var u := "<>" + rest;
    assert UpTo(u, 0, '<') == 0;
    assert UpTo(u, 1, '>') == 1;
    assert Step(u, 0) == Scan("", None, 1);
    assert u[1..] == ">" + rest;
  }
}
