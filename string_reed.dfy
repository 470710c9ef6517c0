/**
 * The `String` extensions the feed code relies on: prefix and suffix
 * stripping, feed-URL normalisation, XML escaping, tab indentation and the
 * "may this be a URL" heuristic.
 */
module StringReed {
  import opened Text

  /** `stripping(prefix:caseSensitive:)`: removes one anchored leading occurrence of `prefix`. */
  function StrippingPrefix(s: string, prefix: string, caseSensitive: bool): (r: string)
    ensures (if caseSensitive then HasPrefix(s, prefix) else HasPrefixCI(s, prefix)) ==> s == s[..|prefix|] + r
    ensures !(if caseSensitive then HasPrefix(s, prefix) else HasPrefixCI(s, prefix)) ==> r == s
  {
    var found := if caseSensitive then HasPrefix(s, prefix) else HasPrefixCI(s, prefix);
    if found then s[|prefix|..] else s
  }

  /** `stripping(suffix:caseSensitive:)`: removes one anchored trailing occurrence of `suffix`. */
  function StrippingSuffix(s: string, suffix: string, caseSensitive: bool): (r: string)
    ensures (if caseSensitive then HasSuffix(s, suffix) else HasSuffixCI(s, suffix)) ==> s == r + s[|s| - |suffix|..]
    ensures !(if caseSensitive then HasSuffix(s, suffix) else HasSuffixCI(s, suffix)) ==> r == s
  {
    var found := if caseSensitive then HasSuffix(s, suffix) else HasSuffixCI(s, suffix);
    if found then s[..|s| - |suffix|] else s
  }

  /** Stripping a prefix that was just prepended gives back the original text. */
  lemma StripPrependedPrefix(p: string, t: string, caseSensitive: bool)
    ensures StrippingPrefix(p + t, p, caseSensitive) == t
  {
    assert (p + t)[..|p|] == p;
  }

  /** Stripping a suffix that was just appended gives back the original text. */
  lemma StripAppendedSuffix(t: string, p: string, caseSensitive: bool)
    ensures StrippingSuffix(t + p, p, caseSensitive) == t
  {
    assert (t + p)[|t + p| - |p|..] == p;
    assert (t + p)[..|t + p| - |p|] == t;
  }

  /** A case-insensitive match removes a prefix written in any case: "FEED:" strips "feed:". */
  lemma StripPrefixIgnoresCase(s: string, p: string)
    requires |p| <= |s| && LowerStr(s[..|p|]) == LowerStr(p)
    ensures StrippingPrefix(s, p, false) == s[|p|..]
    ensures |StrippingPrefix(s, p, false)| == |s| - |p|
  {
  }

  /** A case-sensitive strip never removes a prefix spelled in a different case. */
  lemma StripPrefixCaseSensitiveExact(s: string, p: string)
    requires !HasPrefix(s, p)
    ensures StrippingPrefix(s, p, true) == s
  {
  }

  // ---------------------------------------------------------------- normalizedURL

  /** Upper-case-free literal: its lower-case form is itself. */
  lemma LowerOfLiterals()
    ensures LowerStr("feeds:") == "feeds:" && LowerStr("feed:") == "feed:"
    ensures LowerStr("http") == "http" && LowerStr("//") == "//"
  {
    LowerStrOfLower("feeds:");
    LowerStrOfLower("feed:");
    LowerStrOfLower("http");
    LowerStrOfLower("//");
  }

  /** For a lower-case pattern, matching the lower-cased string is a case-insensitive match. */
  lemma LowerPrefixIsCI(s: string, p: string)
    requires LowerStr(p) == p
    ensures HasPrefix(LowerStr(s), p) <==> HasPrefixCI(s, p)
  {
    if |p| <= |s| {
      assert LowerStr(s)[..|p|] == LowerStr(s[..|p|]);
    }
  }

  /** The text after the `feeds:`/`feed:` prefix (if any) and a leading `//` (if any). */
  function AfterFeedPrefix(s: string): (r: string)
    ensures |r| <= |s| && r == s[|s| - |r|..]
  {
    if HasPrefix(LowerStr(s), "feeds:") then StrippingPrefix(s, "feeds:", false)
    else if HasPrefix(LowerStr(s), "feed:") then StrippingPrefix(s, "feed:", false)
    else s
  }

  function AfterSlashes(s: string): (r: string)
    ensures |r| <= |s| && r == s[|s| - |r|..]
  {
    if HasPrefix(s, "//") then StrippingPrefix(s, "//", false) else s
  }

  /** Prepends `https://` or `http://` unless the text already starts with `http` in any case. */
  function WithScheme(s: string, secure: bool): (r: string)
    ensures HasPrefixCI(r, "http")
    ensures HasPrefixCI(s, "http") ==> r == s
    ensures !HasPrefixCI(s, "http") ==> r == (if secure then "https://" else "http://") + s
  {
    LowerOfLiterals();
    LowerPrefixIsCI(s, "http");
    if !HasPrefix(LowerStr(s), "http") then
      var r := (if secure then "https" else "http") + "://" + s;
      assert r[..4] == "http";
      r
    else
      s
  }

  /** Appends `/` to a text that splits on `/` into exactly three components (a bare top-level URL). */
  function WithTopLevelSlash(s: string): (r: string)
    ensures |Split(r, '/')| != 3
    ensures r == s || (r == s + "/" && |Split(s, '/')| == 3)
    ensures |Split(s, '/')| != 3 ==> r == s
  {
    if |Split(s, '/')| == 3 then
      SplitCount(s, '/');
      SplitCount(s + "/", '/');
      CountAppend(s, "/", '/');
      s + "/"
    else
      s
  }

  lemma TopLevelSlashKeepsPrefix(s: string, p: string)
    requires |p| <= |s| && HasPrefixCI(s, p)
    ensures HasPrefixCI(WithTopLevelSlash(s), p)
  {
    var r := WithTopLevelSlash(s);
    assert r[..|p|] == s[..|p|];
  }

  /**
   * `normalizedURL`: trim, drop a `feeds:`/`feed:` pseudo-scheme (noting
   * which), drop a leading `//`, prepend `https://` (after `feeds:`) or
   * `http://` when the text does not already start with `http`, and add a
   * trailing `/` when the text splits on `/` into exactly three components.
   */
  function NormalizedURL(input: string): (r: string)
    ensures HasPrefixCI(r, "http")
    ensures |Split(r, '/')| != 3
  {
    var s0 := Trim(input);
    var wasFeeds := HasPrefix(LowerStr(s0), "feeds:");
    var s3 := WithScheme(AfterSlashes(AfterFeedPrefix(s0)), wasFeeds);
    TopLevelSlashKeepsPrefix(s3, "http");
    WithTopLevelSlash(s3)
  }

  /** `NormalizedURL` as its three steps, named. */
  lemma NormalizedSteps(x: string, s0: string, s2: string, s3: string)
    requires s0 == Trim(x) && s2 == AfterSlashes(AfterFeedPrefix(s0))
    requires s3 == WithScheme(s2, HasPrefix(LowerStr(s0), "feeds:"))
    ensures NormalizedURL(x) == WithTopLevelSlash(s3)
  {
  }

  /** Adding a scheme to text without one, then perhaps a slash. */
  lemma SchemeThenSlash(s2: string, secure: bool, s3: string, pre: string)
    requires !HasPrefixCI(s2, "http")
    requires pre == (if secure then "https://" else "http://")
    requires s3 == WithScheme(s2, secure)
    ensures WithTopLevelSlash(s3) == pre + s2 || WithTopLevelSlash(s3) == pre + s2 + "/"
  {
  }

  /** A `feeds:` URL whose remainder has no scheme becomes an `https://` URL. */
  lemma NormalizedFeedsIsHttps(x: string)
    requires HasPrefix(LowerStr(Trim(x)), "feeds:")
    requires !HasPrefixCI(AfterSlashes(AfterFeedPrefix(Trim(x))), "http")
    ensures var rest := AfterSlashes(AfterFeedPrefix(Trim(x)));
      NormalizedURL(x) == "https://" + rest || NormalizedURL(x) == "https://" + rest + "/"
  {
    var s0 := Trim(x);
    var s2 := AfterSlashes(AfterFeedPrefix(s0));
    var s3 := WithScheme(s2, true);
    NormalizedSteps(x, s0, s2, s3);
    SchemeThenSlash(s2, true, s3, "https://");
  }

  lemma FeedIsNotFeeds(l: string)
    requires HasPrefix(l, "feed:")
    ensures !HasPrefix(l, "feeds:")
  {
    assert l[4] == ':';
  }

  /** A `feed:` URL whose remainder has no scheme becomes an `http://` URL. */
  lemma NormalizedFeedIsHttp(x: string)
    requires HasPrefix(LowerStr(Trim(x)), "feed:")
    requires !HasPrefixCI(AfterSlashes(AfterFeedPrefix(Trim(x))), "http")
    ensures var rest := AfterSlashes(AfterFeedPrefix(Trim(x)));
      NormalizedURL(x) == "http://" + rest || NormalizedURL(x) == "http://" + rest + "/"
  {
    var s0 := Trim(x);
    FeedIsNotFeeds(LowerStr(s0));
    var s2 := AfterSlashes(AfterFeedPrefix(s0));
    var s3 := WithScheme(s2, false);
    NormalizedSteps(x, s0, s2, s3);
    SchemeThenSlash(s2, false, s3, "http://");
  }

  /** Text starting with `http` in any case starts with neither pseudo-scheme nor `//`. */
  lemma HttpHasNoFeedPrefix(t: string)
    requires HasPrefixCI(t, "http")
    ensures !HasPrefix(LowerStr(t), "feeds:") && !HasPrefix(LowerStr(t), "feed:")
    ensures AfterSlashes(AfterFeedPrefix(t)) == t
  {
    LowerOfLiterals();
    LowerPrefixIsCI(t, "http");
    assert LowerStr(t)[0] == 'h';
    assert Lower(t[0]) == 'h';
    assert t[0] != '/';
  }

  /** Text that already starts with `http` (in any case) only gets trimmed and, possibly, a trailing slash. */
  lemma NormalizedKeepsScheme(x: string)
    requires HasPrefixCI(Trim(x), "http")
    ensures NormalizedURL(x) == WithTopLevelSlash(Trim(x))
    ensures NormalizedURL(x) == Trim(x) || NormalizedURL(x) == Trim(x) + "/"
  {
    var t := Trim(x);
    HttpHasNoFeedPrefix(t);
    NormalizedSteps(x, t, t, t);
  }

  /** A host without `/` and without a pseudo-scheme is left alone by the prefix steps. */
  lemma BareHostPrefixes(host: string)
    requires forall i :: 0 <= i < |host| ==> host[i] != '/'
    requires !HasPrefix(LowerStr(host), "feeds:") && !HasPrefix(LowerStr(host), "feed:")
    ensures AfterSlashes(AfterFeedPrefix(host)) == host
  {
    if |host| >= 2 {
      assert host[..2][0] == host[0] != '/';
    }
  }

  /** `http://` followed by a host without `/` has exactly two slashes, so three components. */
  lemma BareHostSplits(host: string, s3: string)
    requires forall i :: 0 <= i < |host| ==> host[i] != '/'
    requires s3 == "http://" + host
    ensures |Split(s3, '/')| == 3
  {
    assert s3 == "http:" + "//" + host;
    CountAppend("http:" + "//", host, '/');
    CountAppend("http:", "//", '/');
    assert Count("http:", '/') == 0;
    CountAbsent(host, '/');
    SplitCount(s3, '/');
  }

  /**
   * A bare host name such as `ranchero.com` gets `http://` and, being a
   * top-level URL, a trailing slash: `http://ranchero.com/`.
   */
  lemma NormalizedBareHost(host: string)
    requires Trimmed(host)
    requires forall i :: 0 <= i < |host| ==> host[i] != '/'
    requires !HasPrefix(LowerStr(host), "feeds:") && !HasPrefix(LowerStr(host), "feed:")
    requires !HasPrefixCI(host, "http")
    ensures NormalizedURL(host) == "http://" + host + "/"
  {
    TrimOfTrimmed(host);
    BareHostPrefixes(host);
    var s3 := WithScheme(host, false);
    NormalizedSteps(host, host, host, s3);
    BareHostSplits(host, s3);
  }

  /** Text that starts with `http` in any case starts with a letter, not whitespace. */
  lemma HttpStartsWithLetter(r: string)
    requires HasPrefixCI(r, "http")
    ensures |r| > 0 && !IsWhitespace(r[0])
  {
    LowerOfLiterals();
    assert Lower(r[0]) == LowerStr(r[..4])[0];
    assert Lower(r[0]) == 'h';
  }

  /** The last character of a non-empty suffix of a trimmed text is not whitespace. */
  lemma SuffixLastNotWhitespace(s: string, t: string)
    requires Trimmed(s)
    requires 0 < |t| <= |s| && t == s[|s| - |t|..]
    ensures !IsWhitespace(t[|t| - 1])
  {
    assert t[|t| - 1] == s[|s| - 1];
  }

  /** Adding a scheme to a suffix of a trimmed text leaves a non-whitespace last character. */
  lemma SchemeLastNotWhitespace(s0: string, s2: string, secure: bool, s3: string)
    requires Trimmed(s0)
    requires |s2| <= |s0| && s2 == s0[|s0| - |s2|..]
    requires s3 == WithScheme(s2, secure)
    ensures |s3| > 0 && !IsWhitespace(s3[|s3| - 1])
  {
    if HasPrefixCI(s2, "http") {
      SuffixLastNotWhitespace(s0, s2);
    } else if |s2| > 0 {
      SuffixLastNotWhitespace(s0, s2);
      assert s3[|s3| - 1] == s2[|s2| - 1];
    } else {
      assert s3[|s3| - 1] == '/';
    }
  }

  /** A trailing slash, if added, is not whitespace either. */
  lemma SlashLastNotWhitespace(s3: string, r: string)
    requires |s3| > 0 && !IsWhitespace(s3[|s3| - 1])
    requires r == WithTopLevelSlash(s3)
    ensures |r| > 0 && !IsWhitespace(r[|r| - 1])
  {
    if r != s3 {
      assert r[|r| - 1] == '/';
    }
  }

  /** The steps after trimming keep a trimmed text trimmed. */
  lemma NormalizeStepsKeepTrimmed(s0: string, secure: bool, s2: string, s3: string, r: string)
    requires Trimmed(s0)
    requires s2 == AfterSlashes(AfterFeedPrefix(s0)) && s3 == WithScheme(s2, secure)
    requires r == WithTopLevelSlash(s3)
    ensures Trimmed(r)
  {
    SchemeLastNotWhitespace(s0, s2, secure, s3);
    SlashLastNotWhitespace(s3, r);
    TopLevelSlashKeepsPrefix(s3, "http");
    HttpStartsWithLetter(r);
  }

  /** Every normalised URL is already trimmed. */
  lemma NormalizedIsTrimmed(x: string)
    ensures Trimmed(NormalizedURL(x))
  {
    var s0 := Trim(x);
    TrimIsTrimmed(x);
    var s2 := AfterSlashes(AfterFeedPrefix(s0));
    var s3 := WithScheme(s2, HasPrefix(LowerStr(s0), "feeds:"));
    NormalizedSteps(x, s0, s2, s3);
    NormalizeStepsKeepTrimmed(s0, HasPrefix(LowerStr(s0), "feeds:"), s2, s3, WithTopLevelSlash(s3));
  }

  /** Normalising a normalised URL changes nothing. */
  lemma NormalizedIdempotent(x: string)
    ensures NormalizedURL(NormalizedURL(x)) == NormalizedURL(x)
  {
    var r := NormalizedURL(x);
    NormalizedIsTrimmed(x);
    TrimOfTrimmed(r);
    NormalizedKeepsScheme(r);
  }

  // ---------------------------------------------------------------- XML escaping

  /** The replacement of one character by `escapingSpecialXMLCharacters`. */
  function EscapedChar(c: char): string {
    match c
    case '&' => "&amp;"
    case '<' => "&lt;"
    case '>' => "&gt;"
    case '"' => "&quot;"
    case _ => [c]
  }

  /** The escaped form of a whole string: each character replaced in order. */
  function Escaped(s: string): string
    decreases |s|
  {
    if |s| == 0 then "" else EscapedChar(s[0]) + Escaped(s[1..])
  }

  lemma {:induction false} EscapedAppend(a: string, b: string)
    ensures Escaped(a + b) == Escaped(a) + Escaped(b)
    decreases |a|
  {
    if |a| == 0 {
      assert a + b == b;
    } else {
      assert (a + b)[1..] == a[1..] + b;
      EscapedAppend(a[1..], b);
    }
  }

  /** `escapingSpecialXMLCharacters`: appends each character's replacement to `escaped`. */
  method EscapingSpecialXMLCharacters(s: string) returns (escaped: string)
    ensures escaped == Escaped(s)
  {
    escaped := "";
    var i := 0;
    while i < |s|
      invariant 0 <= i <= |s|
      invariant escaped == Escaped(s[..i])
    {
      var c := s[i];
      match c {
        case '&' => escaped := escaped + "&amp;";
        case '<' => escaped := escaped + "&lt;";
        case '>' => escaped := escaped + "&gt;";
        case '"' => escaped := escaped + "&quot;";
        case _ => escaped := escaped + [c];
      }
      EscapedAppend(s[..i], [c]);
      assert s[..i + 1] == s[..i] + [c];
      i := i + 1;
    }
    assert s[..|s|] == s;
  }

  predicate IsSpecialXMLChar(c: char) {
    c == '&' || c == '<' || c == '>' || c == '"'
  }

  /** A string with none of the four special characters is escaped to itself. */
  lemma {:induction false} EscapedPlain(s: string)
    requires forall i :: 0 <= i < |s| ==> !IsSpecialXMLChar(s[i])
    ensures Escaped(s) == s
    decreases |s|
  {
    if |s| > 0 {
      EscapedPlain(s[1..]);
    }
  }

  /** Escaped text never contains a raw `<`, `>` or `"` (only `&` begins an entity). */
  lemma {:induction false} EscapedHasNoRawMarkup(s: string)
    ensures forall i :: 0 <= i < |Escaped(s)| ==> Escaped(s)[i] != '<' && Escaped(s)[i] != '>' && Escaped(s)[i] != '"'
    decreases |s|
  {
    if |s| > 0 {
      EscapedHasNoRawMarkup(s[1..]);
      var e := EscapedChar(s[0]);
      assert forall i :: 0 <= i < |e| ==> e[i] != '<' && e[i] != '>' && e[i] != '"';
    }
  }

  /** Decoding of the four entities; the inverse of `Escaped`. */
  function Unescaped(s: string): string
    decreases |s|
  {
    if |s| == 0 then ""
    else if HasPrefix(s, "&amp;") then "&" + Unescaped(s[5..])
    else if HasPrefix(s, "&lt;") then "<" + Unescaped(s[4..])
    else if HasPrefix(s, "&gt;") then ">" + Unescaped(s[4..])
    else if HasPrefix(s, "&quot;") then "\"" + Unescaped(s[6..])
    else [s[0]] + Unescaped(s[1..])
  }

  lemma UnescapeAmp(rest: string)
    ensures Unescaped("&amp;" + rest) == "&" + Unescaped(rest)
  {
    assert HasPrefix("&amp;" + rest, "&amp;");
    assert ("&amp;" + rest)[5..] == rest;
  }

  lemma UnescapeLt(rest: string)
    ensures Unescaped("&lt;" + rest) == "<" + Unescaped(rest)
  {
    var u := "&lt;" + rest;
    assert HasPrefix(u, "&lt;");
    assert u[1] == 'l' && "&amp;"[1] == 'a';
    assert u[4..] == rest;
  }

  lemma UnescapeGt(rest: string)
    ensures Unescaped("&gt;" + rest) == ">" + Unescaped(rest)
  {
    var u := "&gt;" + rest;
    assert HasPrefix(u, "&gt;");
    assert u[1] == 'g' && "&amp;"[1] == 'a' && "&lt;"[1] == 'l';
    assert u[4..] == rest;
  }

  lemma UnescapeQuot(rest: string)
    ensures Unescaped("&quot;" + rest) == "\"" + Unescaped(rest)
  {
    var u := "&quot;" + rest;
    assert HasPrefix(u, "&quot;");
    assert u[1] == 'q' && "&amp;"[1] == 'a' && "&lt;"[1] == 'l' && "&gt;"[1] == 'g';
    assert u[6..] == rest;
  }

  /** Text whose first character is not `&` starts with none of the four entities. */
  lemma NoEntityPrefix(u: string)
    requires |u| > 0 && u[0] != '&'
    ensures !HasPrefix(u, "&amp;") && !HasPrefix(u, "&lt;") && !HasPrefix(u, "&gt;") && !HasPrefix(u, "&quot;")
  {
    if |u| >= 4 {
      assert u[..4][0] == u[0];
    }
    if |u| >= 5 {
      assert u[..5][0] == u[0];
    }
    if |u| >= 6 {
      assert u[..6][0] == u[0];
    }
  }

  lemma UnescapePlain(c: char, rest: string)
    requires !IsSpecialXMLChar(c)
    ensures Unescaped([c] + rest) == [c] + Unescaped(rest)
  {
    var u := [c] + rest;
    assert u[0] == c;
    NoEntityPrefix(u);
    assert u[1..] == rest;
  }

  /** Escaping loses nothing: decoding the escaped text gives back the original. */
  lemma {:induction false} UnescapeEscaped(s: string)
    ensures Unescaped(Escaped(s)) == s
    decreases |s|
  {
    if |s| > 0 {
      var c := s[0];
      var rest := Escaped(s[1..]);
      UnescapeEscaped(s[1..]);
      assert Escaped(s) == EscapedChar(c) + rest;
      match c {
        case '&' => UnescapeAmp(rest);
        case '<' => UnescapeLt(rest);
        case '>' => UnescapeGt(rest);
        case '"' => UnescapeQuot(rest);
        case _ => UnescapePlain(c, rest);
      }
      assert s == [c] + s[1..];
    }
  }

  // ---------------------------------------------------------------- other helpers

  /** `prepending(tabCount:)`: `tabCount` tab characters followed by the string. */
  function PrependingTabs(s: string, tabCount: nat): (r: string)
    ensures |r| == tabCount + |s|
    ensures forall i :: 0 <= i < tabCount ==> r[i] == '\t'
    ensures r[tabCount..] == s
  {
    seq(tabCount, _ => '\t') + s
  }

  /** `strippingHTTPOrHTTPSScheme`: strips `http://`, then `https://`, both case-insensitively. */
  function StrippingHTTPOrHTTPSScheme(s: string): string {
    StrippingPrefix(StrippingPrefix(s, "http://", false), "https://", false)
  }

  lemma StrippingHTTPSScheme(t: string)
    ensures StrippingHTTPOrHTTPSScheme("https://" + t) == t
  {
    var u := "https://" + t;
    assert u[4] == 's';
    assert LowerStr(u[..7])[4] == 's';
    assert LowerStr("http://")[4] == ':';
    assert !HasPrefixCI(u, "http://");
    StripPrependedPrefix("https://", t, false);
  }

  lemma StrippingHTTPScheme(t: string)
    requires !HasPrefixCI(t, "https://")
    ensures StrippingHTTPOrHTTPSScheme("http://" + t) == t
  {
    StripPrependedPrefix("http://", t, false);
  }

  /** Text with neither scheme (in any case) at its start is left alone. */
  lemma StrippingNoScheme(s: string)
    requires !HasPrefixCI(s, "http://") && !HasPrefixCI(s, "https://")
    ensures StrippingHTTPOrHTTPSScheme(s) == s
  {
  }

  // ---------------------------------------------------------------- mayBeURL

  predicate IsHexOrColon(c: char) {
    ('0' <= c <= '9') || ('a' <= c <= 'f') || ('A' <= c <= 'F') || c == ':'
  }

  /** `mayBeIPv6URL`: the text contains a match of `\[[0-9a-fA-F:]+\]`. */
  predicate MayBeIPv6URL(s: string) {
    exists i, j :: 0 <= i && i + 1 < j < |s| && s[i] == '[' && s[j] == ']'
      && forall k :: i < k < j ==> IsHexOrColon(s[k])
  }

  /** `CharacterSet.controlCharacters`: the Cc and Cf general categories. */
  predicate IsControl(c: char) {
    var n := c as int;
    n <= 0x1F || (0x7F <= n <= 0x9F) || n == 0xAD || (0x600 <= n <= 0x605) || n == 0x61C
    || n == 0x6DD || n == 0x70F || n == 0x8E2 || n == 0x180E || (0x200B <= n <= 0x200F)
    || (0x202A <= n <= 0x202E) || (0x2060 <= n <= 0x2064) || (0x2066 <= n <= 0x206F)
    || n == 0xFEFF || (0xFFF9 <= n <= 0xFFFB) || n == 0x110BD || n == 0x110CD
    || (0x13430 <= n <= 0x1343F) || (0x1BCA0 <= n <= 0x1BCA3) || (0x1D173 <= n <= 0x1D17A)
    || n == 0xE0001 || (0xE0020 <= n <= 0xE007F)
  }

  /**
   * `mayBeURL`. `hostMayBeLocalhost` stands for the URLComponents-based
   * localhost test and `isIllegal` for `CharacterSet.illegalCharacters`
   * (unassigned code points); both are Foundation behaviour.
   */
  predicate MayBeURL(s: string, hostMayBeLocalhost: string -> bool, isIllegal: char -> bool) {
    var t := Trim(s);
    !(|t| == 0 || (!Contains(t, ".") && !MayBeIPv6URL(t) && !hostMayBeLocalhost(t)))
    && forall i :: 0 <= i < |t| ==> !(IsWhitespace(t[i]) || IsControl(t[i]) || isIllegal(t[i]))
  }

  /** Empty and whitespace-only text is never a URL. */
  lemma MayBeURLRejectsBlank(s: string, localhost: string -> bool, illegal: char -> bool)
    requires forall i :: 0 <= i < |s| ==> IsWhitespace(s[i])
    ensures !MayBeURL(s, localhost, illegal)
  {
    TrimAllWhitespace(s);
  }

  /** Dot-less text needs an IPv6 literal or a localhost host. */
  lemma MayBeURLNeedsDot(s: string, localhost: string -> bool, illegal: char -> bool)
    requires MayBeURL(s, localhost, illegal)
    ensures Contains(Trim(s), ".") || MayBeIPv6URL(Trim(s)) || localhost(Trim(s))
  {
  }

  /** Whitespace (inside the text), control and illegal characters rule a URL out. */
  lemma MayBeURLRejectsBanned(s: string, localhost: string -> bool, illegal: char -> bool, i: nat)
    requires i < |Trim(s)|
    requires IsWhitespace(Trim(s)[i]) || IsControl(Trim(s)[i]) || illegal(Trim(s)[i])
    ensures !MayBeURL(s, localhost, illegal)
  {
  }

  /** A trimmed, dotted text made of ordinary characters may be a URL. */
  lemma MayBeURLAcceptsDotted(s: string, localhost: string -> bool, illegal: char -> bool)
    requires Contains(Trim(s), ".")
    requires forall i :: 0 <= i < |Trim(s)| ==> !(IsWhitespace(Trim(s)[i]) || IsControl(Trim(s)[i]) || illegal(Trim(s)[i]))
    ensures MayBeURL(s, localhost, illegal)
  {
    var k := ContainsWitness(Trim(s), ".");
  }
}
