/**
 * The `URL` extensions: scheme predicates, scheme-prefix removal, space
 * encoding, query-item appending and the clean-up done before a link is
 * handed to the browser. Parsing a string into a URL, and URL components
 * into a URL, belong to Foundation and are parameters here.
 */
module UrlReed {
  import opened Wrappers
  import opened Text

  /** The parts of a Foundation `URL` the app reads. */
  datatype Url = Url(absoluteString: string, scheme: Option<string>, host: Option<string>)

  datatype QueryItem = QueryItem(name: string, value: Option<string>)

  /** `URLComponents`: everything but the query items is kept opaque in `rest`. */
  datatype UrlComponents = UrlComponents(rest: string, queryItems: Option<seq<QueryItem>>)

  /** `URL.encodeSpacesIfNeeded`: nil for a nil or empty link, else the link parsed with spaces as `%20`. */
  function EncodeSpacesIfNeeded(link: Option<string>, parse: string -> Option<Url>): (r: Option<Url>)
    ensures link.None? || link.value == "" ==> r.None?
    ensures link.Some? && link.value != "" ==> r == parse(ReplaceAll(link.value, " ", "%20"))
  {
    if link.None? || link.value == "" then None else parse(ReplaceAll(link.value, " ", "%20"))
  }

  /** The text handed to the URL parser by `encodeSpacesIfNeeded` has no space left. */
  lemma EncodedLinkHasNoSpace(link: string)
    ensures ' ' !in ReplaceAll(link, " ", "%20")
  {
    ReplaceCharRemoves(link, ' ', "%20");
  }

  predicate IsHTTPSURL(u: Url) {
    u.scheme.Some? && LowerStr(u.scheme.value) == "https"
  }

  predicate IsHTTPURL(u: Url) {
    u.scheme.Some? && LowerStr(u.scheme.value) == "http"
  }

  predicate IsHTTPOrHTTPSURL(u: Url) {
    IsHTTPSURL(u) || IsHTTPURL(u)
  }

  /** The two scheme tests never both hold, and neither holds without a scheme. */
  lemma SchemeTestsExclusive(u: Url)
    ensures !(IsHTTPSURL(u) && IsHTTPURL(u))
    ensures u.scheme.None? ==> !IsHTTPOrHTTPSURL(u)
  {
  }

  /** A scheme spelled in any case passes: `HTTPS` is an https URL. */
  lemma SchemeTestIgnoresCase(u: Url, v: Url)
    requires u.scheme.Some? && v.scheme.Some? && LowerStr(u.scheme.value) == LowerStr(v.scheme.value)
    ensures IsHTTPSURL(u) == IsHTTPSURL(v) && IsHTTPURL(u) == IsHTTPURL(v)
  {
  }

  /**
   * `stringByRemovingCaseInsensitivePrefix` as the code is written: it
   * returns `""` for a string equal to the prefix, the string itself when
   * the prefix is absent, and otherwise the first `prefix.count`
   * characters, i.e. the prefix part rather than what follows it.
   */
  function RemovingCaseInsensitivePrefixAsWritten(s: string, prefix: string): (r: string)
    ensures LowerStr(s) == LowerStr(prefix) ==> r == ""
    ensures !HasPrefix(LowerStr(s), LowerStr(prefix)) ==> r == s
    ensures HasPrefix(LowerStr(s), LowerStr(prefix)) && LowerStr(s) != LowerStr(prefix) ==> r == s[..|prefix|]
  {
    var lowerPrefix := LowerStr(prefix);
    var lowerSelf := LowerStr(s);
    if lowerSelf == lowerPrefix then ""
    else if !HasPrefix(lowerSelf, lowerPrefix) then s
    else s[..|prefix|]
  }

  /** The removal the comment on `absoluteStringWithHTTPOrHTTPSPrefixRemoved` describes: what follows the prefix. */
  function RemovingCaseInsensitivePrefix(s: string, prefix: string): (r: string)
    ensures HasPrefix(LowerStr(s), LowerStr(prefix)) ==> s == s[..|prefix|] + r
    ensures !HasPrefix(LowerStr(s), LowerStr(prefix)) ==> r == s
  {
    if HasPrefix(LowerStr(s), LowerStr(prefix)) then s[|prefix|..] else s
  }

  /** Stripping a prefix that starts the string, in whatever case, leaves exactly the rest. */
  lemma RemovingPrefixRoundTrip(p: string, rest: string)
    ensures RemovingCaseInsensitivePrefix(p + rest, p) == rest
  {
    LowerStrAppend(p, rest);
    assert LowerStr(p + rest)[..|p|] == LowerStr(p);
  }

  lemma LowerOfSchemes()
    ensures LowerStr("http://") == "http://" && LowerStr("https://") == "https://"
  {
    LowerStrOfLower("http://");
    LowerStrOfLower("https://");
  }

  /**
   * The code as written keeps the scheme and drops the rest:
   * `http://example.com/foo` gives `http://`, not `example.com/foo`.
   */
  lemma AsWrittenKeepsPrefix(rest: string)
    requires |rest| > 0
    ensures RemovingCaseInsensitivePrefixAsWritten("http://" + rest, "http://") == "http://"
    ensures RemovingCaseInsensitivePrefix("http://" + rest, "http://") == rest
    ensures rest != "http://"
      ==> RemovingCaseInsensitivePrefixAsWritten("http://" + rest, "http://") != RemovingCaseInsensitivePrefix("http://" + rest, "http://")
  {
    var s := "http://" + rest;
    LowerOfSchemes();
    LowerStrAppend("http://", rest);
    assert |LowerStr(s)| != |LowerStr("http://")|;
    assert LowerStr(s)[..7] == "http://";
    RemovingPrefixRoundTrip("http://", rest);
  }

  /** `absoluteStringWithHTTPOrHTTPSPrefixRemoved` as written, using the as-written helper. */
  function AbsoluteStringWithSchemeRemovedAsWritten(u: Url): (r: Option<string>)
    ensures r.None? <==> !IsHTTPOrHTTPSURL(u)
  {
    if IsHTTPSURL(u) then Some(RemovingCaseInsensitivePrefixAsWritten(u.absoluteString, "https://"))
    else if IsHTTPURL(u) then Some(RemovingCaseInsensitivePrefixAsWritten(u.absoluteString, "http://"))
    else None
  }

  /** `absoluteStringWithHTTPOrHTTPSPrefixRemoved` with the intended helper: none for other schemes. */
  function AbsoluteStringWithHTTPOrHTTPSPrefixRemoved(u: Url): (r: Option<string>)
    ensures r.None? <==> !IsHTTPOrHTTPSURL(u)
  {
    if IsHTTPSURL(u) then Some(RemovingCaseInsensitivePrefix(u.absoluteString, "https://"))
    else if IsHTTPURL(u) then Some(RemovingCaseInsensitivePrefix(u.absoluteString, "http://"))
    else None
  }

  /** `http://example.com/foo` becomes `example.com/foo`. */
  lemma SchemeRemovedFromHttpUrl(u: Url, rest: string)
    requires IsHTTPURL(u) && u.absoluteString == "http://" + rest
    ensures AbsoluteStringWithHTTPOrHTTPSPrefixRemoved(u) == Some(rest)
  {
    RemovingPrefixRoundTrip("http://", rest);
  }

  lemma SchemeRemovedFromHttpsUrl(u: Url, rest: string)
    requires IsHTTPSURL(u) && u.absoluteString == "https://" + rest
    ensures AbsoluteStringWithHTTPOrHTTPSPrefixRemoved(u) == Some(rest)
  {
    RemovingPrefixRoundTrip("https://", rest);
  }

  /** As written, an https URL keeps only its scheme prefix as well. */
  lemma AsWrittenKeepsHttpsPrefix(rest: string)
    requires |rest| > 0
    ensures RemovingCaseInsensitivePrefixAsWritten("https://" + rest, "https://") == "https://"
  {
    var s := "https://" + rest;
    LowerOfSchemes();
    LowerStrAppend("https://", rest);
    assert |LowerStr(s)| != |LowerStr("https://")|;
    assert LowerStr(s)[..8] == "https://";
  }

  /** As written, `http://example.com/foo` gives `http://`. */
  lemma SchemeRemovedAsWrittenFromHttpUrl(u: Url, rest: string)
    requires IsHTTPURL(u) && u.absoluteString == "http://" + rest && |rest| > 0
    ensures AbsoluteStringWithSchemeRemovedAsWritten(u) == Some("http://")
  {
    SchemeTestsExclusive(u);
    AsWrittenKeepsPrefix(rest);
  }

  /** As written, `https://example.com/foo` gives `https://`. */
  lemma SchemeRemovedAsWrittenFromHttpsUrl(u: Url, rest: string)
    requires IsHTTPSURL(u) && u.absoluteString == "https://" + rest && |rest| > 0
    ensures AbsoluteStringWithSchemeRemovedAsWritten(u) == Some("https://")
  {
    AsWrittenKeepsHttpsPrefix(rest);
  }

  /** The components after `appendingQueryItems` has added `items`. */
  function WithAppendedQueryItems(c: UrlComponents, items: seq<QueryItem>): (r: UrlComponents)
    ensures r.rest == c.rest && r.queryItems.Some?
    ensures |r.queryItems.value| == |c.queryItems.GetOr([])| + |items|
    ensures r.queryItems.value[..|c.queryItems.GetOr([])|] == c.queryItems.GetOr([])
    ensures r.queryItems.value[|c.queryItems.GetOr([])|..] == items
  {
    c.(queryItems := Some(c.queryItems.GetOr([]) + items))
  }

  /** `appendingQueryItems`: existing items first, then the new ones; nil when the URL has no components. */
  function AppendingQueryItems(u: Url, items: seq<QueryItem>,
                               components: Url -> Option<UrlComponents>,
                               build: UrlComponents -> Option<Url>): (r: Option<Url>)
    ensures components(u).None? ==> r.None?
    ensures components(u).Some? ==> r == build(WithAppendedQueryItems(components(u).value, items))
  {
    match components(u)
    case None => None
    case Some(c) => build(WithAppendedQueryItems(c, items))
  }

  /** The four rewrites of `preparedForOpeningInBrowser`, in their order. */
  function PreparedURLString(s: string): string {
    var s1 := ReplaceAll(s, " ", "%20");
    var s2 := ReplaceAll(s1, "^", "%5E");
    var s3 := ReplaceAll(s2, "&amp;", "&");
    ReplaceAll(s3, "&#38;", "&")
  }

  function PreparedForOpeningInBrowser(u: Url, parse: string -> Option<Url>): Option<Url> {
    parse(PreparedURLString(u.absoluteString))
  }

  /** The prepared text never contains a space or a caret. */
  lemma PreparedHasNoSpaceOrCaret(s: string)
    ensures ' ' !in PreparedURLString(s) && '^' !in PreparedURLString(s)
  {
    var s1 := ReplaceAll(s, " ", "%20");
    var s2 := ReplaceAll(s1, "^", "%5E");
    var s3 := ReplaceAll(s2, "&amp;", "&");
    ReplaceCharRemoves(s, ' ', "%20");
    ReplaceKeepsAbsent(s1, "^", "%5E", ' ');
    ReplaceCharRemoves(s1, '^', "%5E");
    ReplaceKeepsAbsent(s2, "&amp;", "&", ' ');
    ReplaceKeepsAbsent(s2, "&amp;", "&", '^');
    ReplaceKeepsAbsent(s3, "&#38;", "&", ' ');
    ReplaceKeepsAbsent(s3, "&#38;", "&", '^');
  }

  /** A link with none of the four patterns is passed to the parser unchanged. */
  lemma PreparedPlain(s: string)
    requires ' ' !in s && '^' !in s && !Contains(s, "&amp;") && !Contains(s, "&#38;")
    ensures PreparedURLString(s) == s
  {
    AbsentCharNotContained(s, ' ');
    AbsentCharNotContained(s, '^');
    ReplaceAllAbsent(s, " ", "%20");
    ReplaceAllAbsent(s, "^", "%5E");
    ReplaceAllAbsent(s, "&amp;", "&");
    ReplaceAllAbsent(s, "&#38;", "&");
  }
}
