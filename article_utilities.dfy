/**
 * The `Article` extension of the app: marking a set of articles, the
 * article's links repaired through `URL.encodeSpacesIfNeeded`, the
 * preferred link, the body, the logical publication date, and the byline
 * built from the article's authors or its feed's.
 */
module ArticleUtilities {
  import opened Wrappers
  import opened Text
  import opened UrlReed
  import opened ArticleStatusModel
  import opened AuthorModel
  import opened ArticleModel

  // ---------------------------------------------------------------- marking

  /**
   * `markArticles(_:statusKey:flag:)`: every article's flag for the key
   * takes the value; the other flag is kept. The data store applies the
   * marks to the statuses one article at a time.
   */
  method MarkArticles(articles: set<Article>, key: Key, flag: bool)
    modifies StatusesOf(articles)
    ensures forall a :: a in articles ==> a.status.BoolStatus(key) == flag
    ensures forall st :: st in StatusesOf(articles) ==> st.BoolStatus(Other(key)) == old(st.BoolStatus(Other(key)))
  {
    var rest := articles;
    while rest != {}
      invariant rest <= articles
      invariant forall a :: a in articles - rest ==> a.status.BoolStatus(key) == flag
      invariant forall st :: st in StatusesOf(articles) ==> st.BoolStatus(Other(key)) == old(st.BoolStatus(Other(key)))
      decreases |rest|
    {
      var a :| a in rest;
      a.status.SetBoolStatus(flag, key);
      rest := rest - {a};
    }
  }

  // ---------------------------------------------------------------- links

  /** `link`, `externalLink`, `imageLink`: the repaired URL's text, or the raw link when no URL can be made. */
  function RepairedLink(raw: Option<string>, parse: string -> Option<Url>): (r: Option<string>)
    ensures r.None? <==> raw.None?
    ensures raw == Some("") ==> r == raw
    ensures EncodeSpacesIfNeeded(raw, parse).None? ==> r == raw
  {
    match EncodeSpacesIfNeeded(raw, parse)
    case Some(u) => Some(u.absoluteString)
    case None => raw
  }

  function Link(a: Article, parse: string -> Option<Url>): Option<string> {
    RepairedLink(a.rawLink, parse)
  }

  function ExternalLink(a: Article, parse: string -> Option<Url>): Option<string> {
    RepairedLink(a.rawExternalLink, parse)
  }

  function ImageLink(a: Article, parse: string -> Option<Url>): Option<string> {
    RepairedLink(a.rawImageLink, parse)
  }

  predicate NonEmpty(s: Option<string>) {
    s.Some? && s.value != ""
  }

  /** `preferredLink`: the link if it is not empty, else the external link if it is not empty, else nil. */
  function PreferredLink(a: Article, parse: string -> Option<Url>): (r: Option<string>)
    ensures r.Some? ==> r.value != ""
    ensures NonEmpty(Link(a, parse)) ==> r == Link(a, parse)
    ensures !NonEmpty(Link(a, parse)) ==> r == (if NonEmpty(ExternalLink(a, parse)) then ExternalLink(a, parse) else None)
  {
    var link := Link(a, parse);
    var externalLink := ExternalLink(a, parse);
    if NonEmpty(link) then link
    else if NonEmpty(externalLink) then externalLink
    else None
  }

  /** Without either raw link, or with both empty, there is no preferred link. */
  lemma NoPreferredLinkWithoutLinks(a: Article, parse: string -> Option<Url>)
    requires !NonEmpty(a.rawLink) && !NonEmpty(a.rawExternalLink)
    ensures PreferredLink(a, parse).None?
  {
  }

  /** `preferredURL`: the repaired URL, else the repaired external URL. */
  function PreferredURL(a: Article, parse: string -> Option<Url>): (r: Option<Url>)
    ensures r.Some? ==> r == EncodeSpacesIfNeeded(a.rawLink, parse) || r == EncodeSpacesIfNeeded(a.rawExternalLink, parse)
    ensures r.None? <==> EncodeSpacesIfNeeded(a.rawLink, parse).None? && EncodeSpacesIfNeeded(a.rawExternalLink, parse).None?
  {
    OrElse(EncodeSpacesIfNeeded(a.rawLink, parse), EncodeSpacesIfNeeded(a.rawExternalLink, parse))
  }

  // ---------------------------------------------------------------- body and date

  /** The first present value of a list of optionals: the reference reading of a chain of `??`. */
  function FirstPresent<T>(xs: seq<Option<T>>): (r: Option<T>)
    ensures r.Some? ==> exists k :: 0 <= k < |xs| && xs[k] == r && forall m :: 0 <= m < k ==> xs[m].None?
    ensures r.None? ==> forall k :: 0 <= k < |xs| ==> xs[k].None?
  {
    if |xs| == 0 then None
    else if xs[0].Some? then xs[0]
    else
      var r := FirstPresent(xs[1..]);
      assert r.Some? ==> exists k :: 0 <= k < |xs| - 1 && xs[1..][k] == r && forall m :: 0 <= m < k ==> xs[1..][m].None?;
      assert r.Some? ==> exists k :: 1 <= k < |xs| && xs[k] == r && forall m :: 0 <= m < k ==> xs[m].None? by {
        if r.Some? {
          var k :| 0 <= k < |xs| - 1 && xs[1..][k] == r && forall m :: 0 <= m < k ==> xs[1..][m].None?;
          assert xs[k + 1] == r && forall m :: 0 <= m < k + 1 ==> xs[m].None?;
        }
      }
      r
  }

  /** `body`: the HTML, else the text, else the summary. */
  function Body(a: Article): Option<string> {
    OrElse(a.contentHTML, OrElse(a.contentText, a.summary))
  }

  /** `logicalDatePublished`: the publication date, else the modification date, else the arrival date. */
  function LogicalDatePublished(a: Article): real {
    OrElse(a.datePublished, OrElse(a.dateModified, Some(a.status.dateArrived))).value
  }

  /** `x ?? y ?? z` is the first present of the three. */
  lemma FirstPresentOfThree<T>(x: Option<T>, y: Option<T>, z: Option<T>)
    ensures FirstPresent([x, y, z]) == OrElse(x, OrElse(y, z))
  {
    var xs := [x, y, z];
    assert [z][1..] == [];
    assert FirstPresent([z]) == z;
    assert [y, z][1..] == [z];
    assert FirstPresent([y, z]) == OrElse(y, z);
    assert xs[1..] == [y, z];
  }

  /** The body is the first content field present, and none only without any. */
  lemma BodyIsFirstContent(a: Article)
    ensures Body(a) == FirstPresent([a.contentHTML, a.contentText, a.summary])
    ensures Body(a).None? <==> a.contentHTML.None? && a.contentText.None? && a.summary.None?
  {
    FirstPresentOfThree(a.contentHTML, a.contentText, a.summary);
  }

  /** The logical publication date is the first date present, the arrival date at the latest. */
  lemma LogicalDateIsFirstDate(a: Article)
    ensures FirstPresent([a.datePublished, a.dateModified, Some(a.status.dateArrived)]) == Some(LogicalDatePublished(a))
    ensures a.datePublished.None? && a.dateModified.None? ==> LogicalDatePublished(a) == a.status.dateArrived
  {
    FirstPresentOfThree(a.datePublished, a.dateModified, Some(a.status.dateArrived));
  }

  /** `isAvailableToMarkUnread`: always. */
  function IsAvailableToMarkUnread(a: Article): (r: bool)
    ensures r
  {
    true
  }

  // ---------------------------------------------------------------- byline

  /** An author's e-mail address, unless it is a no-reply address. */
  function UsableEmail(author: Author): (r: Option<string>)
    ensures r.Some? ==> author.emailAddress == r
    ensures r.Some? ==> !Contains(r.value, "noreply@") && !Contains(r.value, "no-reply@")
  {
    match author.emailAddress
    case Some(e) => if Contains(e, "noreply@") || Contains(e, "no-reply@") then None else Some(e)
    case None => None
  }

  /**
   * One author's part of the byline: an address holding a space (a name
   * and an address already) alone; "name <address>"; the name; "<address>";
   * the url; or nothing.
   */
  function AuthorPiece(author: Author): string {
    var email := UsableEmail(author);
    if email.Some? && Contains(email.value, " ") then email.value
    else if author.name.Some? && email.Some? then author.name.value + " <" + email.value + ">"
    else if author.name.Some? then author.name.value
    else if email.Some? then "<" + email.value + ">"
    else if author.url.Some? then author.url.value
    else ""
  }

  function Pieces(authors: seq<Author>): (r: seq<string>)
    ensures |r| == |authors| && forall k :: 0 <= k < |authors| ==> r[k] == AuthorPiece(authors[k])
  {
    seq(|authors|, k requires 0 <= k < |authors| => AuthorPiece(authors[k]))
  }

  /** Pieces joined by ", ". */
  function Joined(parts: seq<string>): string
    decreases |parts|
  {
    if |parts| == 0 then ""
    else if |parts| == 1 then parts[0]
    else Joined(parts[..|parts| - 1]) + ", " + parts[|parts| - 1]
  }

  /** The authors a byline is made from: the article's own, or else its feed's. */
  function BylineAuthors(articleAuthors: Option<seq<Author>>, feedAuthors: Option<seq<Author>>): Option<seq<Author>> {
    OrElse(articleAuthors, feedAuthors)
  }

  /**
   * `byline()`: empty without authors, or for a single author named as the
   * feed is displayed; otherwise the authors' pieces joined by ", ".
   */
  function BylineOf(authors: Option<seq<Author>>, feedNameForDisplay: Option<string>): string {
    if authors.None? || |authors.value| == 0 then ""
    else if |authors.value| == 1 && authors.value[0].name == feedNameForDisplay then ""
    else Joined(Pieces(authors.value))
  }

  /** The body of the loop in `byline()`: the piece it appends for one author. */
  method BylinePiece(author: Author) returns (piece: string)
    ensures piece == AuthorPiece(author)
  {
    var authorEmailAddress: Option<string> := None;
    if author.emailAddress.Some? && !(Contains(author.emailAddress.value, "noreply@") || Contains(author.emailAddress.value, "no-reply@")) {
      authorEmailAddress := author.emailAddress;
    }
    piece := "";
    if authorEmailAddress.Some? && Contains(authorEmailAddress.value, " ") {
      piece := authorEmailAddress.value;
    } else if author.name.Some? && authorEmailAddress.Some? {
      piece := author.name.value + " <" + authorEmailAddress.value + ">";
    } else if author.name.Some? {
      piece := author.name.value;
    } else if authorEmailAddress.Some? {
      piece := "<" + authorEmailAddress.value + ">";
    } else if author.url.Some? {
      piece := author.url.value;
    }
  }

  /**
   * `byline()`, with the article's authors and its feed's in the order a
   * set yields them, and the feed's display name, nil without a feed.
   */
  method Byline(articleAuthors: Option<seq<Author>>, feedAuthors: Option<seq<Author>>, feedNameForDisplay: Option<string>)
    returns (byline: string)
    ensures byline == BylineOf(BylineAuthors(articleAuthors, feedAuthors), feedNameForDisplay)
  {
    var found := if articleAuthors.Some? then articleAuthors else feedAuthors;
    if found.None? || |found.value| == 0 {
      return "";
    }
    var authors := found.value;
    if |authors| == 1 && authors[0].name == feedNameForDisplay {
      return "";
    }
    byline := JoinedPieces(authors);
  }

  /** The loop in `byline()`: each author's piece, after ", " unless it is the first. */
  method JoinedPieces(authors: seq<Author>) returns (byline: string)
    ensures byline == Joined(Pieces(authors))
  {
    byline := "";
    var isFirstAuthor := true;
    var i := 0;
    while i < |authors|
      invariant 0 <= i <= |authors|
      invariant isFirstAuthor <==> i == 0
      invariant byline == Joined(Pieces(authors[..i]))
    {
      if !isFirstAuthor {
        byline := byline + ", ";
      }
      isFirstAuthor := false;
      var piece := BylinePiece(authors[i]);
      byline := byline + piece;
      JoinedSnoc(Pieces(authors[..i]), piece);
      assert Pieces(authors[..i + 1]) == Pieces(authors[..i]) + [piece];
      i := i + 1;
    }
    assert authors[..i] == authors;
  }

  /** Adding one piece adds ", " and the piece, except to an empty list. */
  lemma JoinedSnoc(parts: seq<string>, p: string)
    ensures |parts| == 0 ==> Joined(parts + [p]) == p
    ensures |parts| > 0 ==> Joined(parts + [p]) == Joined(parts) + ", " + p
  {
    assert (parts + [p])[..|parts|] == parts;
  }

  /** Joining two nonempty lists is joining each and putting ", " between them. */
  lemma {:induction false} JoinedAppend(p: seq<string>, q: seq<string>)
    requires |p| > 0 && |q| > 0
    ensures Joined(p + q) == Joined(p) + ", " + Joined(q)
    decreases |q|
  {
    if |q| == 1 {
      JoinedSnoc(p, q[0]);
      assert p + q == p + [q[0]];
    } else {
      var q' := q[..|q| - 1];
      var last := q[|q| - 1];
      assert q == q' + [last];
      assert p + q == (p + q') + [last];
      JoinedAppend(p, q');
      JoinedSnoc(p + q', last);
      JoinedSnoc(q', last);
    }
  }

  /** The byline of several authors is the first author's piece, ", ", and the byline of the others. */
  lemma BylineOfSeveral(authors: seq<Author>, feedNameForDisplay: Option<string>)
    requires |authors| >= 2
    ensures BylineOf(Some(authors), feedNameForDisplay)
      == AuthorPiece(authors[0]) + ", " + Joined(Pieces(authors[1..]))
  {
    var first := [AuthorPiece(authors[0])];
    var others := Pieces(authors[1..]);
    assert Pieces(authors) == first + others;
    JoinedAppend(first, others);
  }

  /** No authors on the article or its feed, or an empty set on the article, give an empty byline. */
  lemma BylineWithoutAuthors(articleAuthors: Option<seq<Author>>, feedAuthors: Option<seq<Author>>, feedNameForDisplay: Option<string>)
    ensures articleAuthors.None? && feedAuthors.None? ==> BylineOf(BylineAuthors(articleAuthors, feedAuthors), feedNameForDisplay) == ""
    ensures articleAuthors == Some([]) ==> BylineOf(BylineAuthors(articleAuthors, feedAuthors), feedNameForDisplay) == ""
  {
  }

  /** A sole author named as the feed is displayed is left out; so is a sole nameless author of an article without a feed. */
  lemma SoleFeedNamedAuthorHidden(author: Author, feedNameForDisplay: Option<string>)
    ensures author.name == feedNameForDisplay ==> BylineOf(Some([author]), feedNameForDisplay) == ""
    ensures author.name != feedNameForDisplay ==> BylineOf(Some([author]), feedNameForDisplay) == AuthorPiece(author)
    ensures author.name.None? ==> BylineOf(Some([author]), None) == ""
  {
  }

  /** A no-reply address counts as no address. */
  lemma NoReplyAddressIgnored(author: Author)
    requires author.emailAddress.Some?
    requires Contains(author.emailAddress.value, "noreply@") || Contains(author.emailAddress.value, "no-reply@")
    ensures AuthorPiece(author) == AuthorPiece(author.(emailAddress := None))
  {
  }

  /** A usable address always shows in the piece; with a name and no space in it, after the name. */
  lemma UsableAddressShown(author: Author)
    requires UsableEmail(author).Some?
    ensures Contains(AuthorPiece(author), UsableEmail(author).value)
    ensures author.name.Some? && !Contains(UsableEmail(author).value, " ") ==>
      HasPrefix(AuthorPiece(author), author.name.value + " <")
  {
    var e := UsableEmail(author).value;
    var piece := AuthorPiece(author);
    if Contains(e, " ") {
      assert piece == e;
      ContainsAt(piece, e, 0);
    } else if author.name.Some? {
      var pre := author.name.value + " <";
      assert piece == pre + (e + ">");
      assert piece[|pre|..][..|e|] == e;
      ContainsAt(piece, e, |pre|);
      PrefixOfAppend(pre, e + ">");
    } else {
      assert piece == "<" + e + ">";
      assert piece[1..][..|e|] == e;
      ContainsAt(piece, e, 1);
    }
  }

  /** Without a name or a usable address, the piece is the url, or nothing. */
  lemma PieceFallsBackToURL(author: Author)
    requires author.name.None? && UsableEmail(author).None?
    ensures AuthorPiece(author) == author.url.GetOr("")
  {
  }
}
