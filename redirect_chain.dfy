/**
 * The redirect cache of `DownloadSession`: permanent redirects recorded as
 * old URL to new URL, and the resolution of a URL by following the chain
 * of recorded redirects until it ends or comes back to a URL seen before.
 */
module RedirectChain {
  import opened Wrappers
  import opened Text
  import opened UrlReed

  /** Words that mark a redirect to a hotel or captive-portal login page. */
  const BadStrings: seq<string> :=
    ["solutionip", "lodgenet", "monzoon", "landingpage", "btopenzone", "register", "login", "authentic"]

  predicate IsBlackListedRedirect(urlString: string) {
    exists i :: 0 <= i < |BadStrings| && Contains(LowerStr(urlString), BadStrings[i])
  }

  /** `urlStringIsBlackListedRedirect`: scans the eight words, stopping at the first one found. */
  method UrlStringIsBlackListedRedirect(urlString: string) returns (b: bool)
    ensures b <==> IsBlackListedRedirect(urlString)
  {
    var s := LowerStr(urlString);
    var i := 0;
    while i < |BadStrings|
      invariant 0 <= i <= |BadStrings|
      invariant forall j :: 0 <= j < i ==> !Contains(s, BadStrings[j])
    {
      if Contains(s, BadStrings[i]) {
        return true;
      }
      i := i + 1;
    }
    return false;
  }

  /** The redirect cache after `cacheRedirect`: records the redirect unless its target is blacklisted. */
  function WithRedirect(cache: map<Url, Url>, oldURL: Url, newURL: Url): (r: map<Url, Url>)
    ensures IsBlackListedRedirect(newURL.absoluteString) ==> r == cache
    ensures !IsBlackListedRedirect(newURL.absoluteString) ==> r == cache[oldURL := newURL]
  {
    if IsBlackListedRedirect(newURL.absoluteString) then cache else cache[oldURL := newURL]
  }

  /** A new redirect to a URL that has no record of its own resolves to that URL. */
  lemma NewRedirectResolves(cache: map<Url, Url>, oldURL: Url, newURL: Url)
    requires !IsBlackListedRedirect(newURL.absoluteString)
    requires newURL != oldURL && newURL !in cache
    ensures CachedRedirectOf(WithRedirect(cache, oldURL, newURL), oldURL) == Some(newURL)
  {
    var c := WithRedirect(cache, oldURL, newURL);
    assert Follow(c, [oldURL]) == Follow(c, [oldURL, newURL]);
  }

  // ---------------------------------------------------------------- chains

  function Last(path: seq<Url>): Url
    requires |path| > 0
  {
    path[|path| - 1]
  }

  function Elems(path: seq<Url>): set<Url> {
    set x | x in path
  }

  predicate Distinct(path: seq<Url>) {
    forall i, j :: 0 <= i < j < |path| ==> path[i] != path[j]
  }

  /** `path` starts at `url` and follows recorded redirects one step at a time. */
  predicate IsWalk(cache: map<Url, Url>, url: Url, path: seq<Url>) {
    |path| > 0 && path[0] == url
    && forall i :: 0 <= i < |path| - 1 ==> path[i] in cache && cache[path[i]] == path[i + 1]
  }

  /** The URLs a chain can still visit: the recorded ones not yet on the path. */
  function Unvisited(cache: map<Url, Url>, path: seq<Url>): set<Url> {
    (cache.Keys + cache.Values) - Elems(path)
  }

  lemma UnvisitedShrinks(cache: map<Url, Url>, path: seq<Url>, next: Url)
    requires next in cache.Values && next !in path
    ensures |Unvisited(cache, path + [next])| < |Unvisited(cache, path)|
  {
    assert Elems(path + [next]) == Elems(path) + {next};
    assert Unvisited(cache, path + [next]) == Unvisited(cache, path) - {next};
    assert next in Unvisited(cache, path);
  }

  /**
   * Continues the chain after `path`: the URL where it ends, or nothing when
   * the next step revisits a URL of the path.
   */
  function Follow(cache: map<Url, Url>, path: seq<Url>): (r: Option<Url>)
    requires |path| > 0
    ensures r.Some? ==> r.value !in cache
    decreases |Unvisited(cache, path)|
  {
    var cur := Last(path);
    if cur !in cache then Some(cur)
    else if cache[cur] in path then None
    else
      UnvisitedShrinks(cache, path, cache[cur]);
      Follow(cache, path + [cache[cur]])
  }

  /** `cachedRedirect(for:)`: the end of the chain from `url`, if the chain ends elsewhere. */
  function CachedRedirectOf(cache: map<Url, Url>, url: Url): (r: Option<Url>)
    ensures url !in cache ==> r.None?
    ensures r.Some? ==> r.value != url && r.value !in cache
  {
    match Follow(cache, [url])
    case None => None
    case Some(f) => if f == url then None else Some(f)
  }

  /** Extending a walk by the next recorded redirect gives a walk. */
  lemma WalkExtends(cache: map<Url, Url>, url: Url, path: seq<Url>)
    requires IsWalk(cache, url, path) && Last(path) in cache
    ensures IsWalk(cache, url, path + [cache[Last(path)]])
  {
    var p := path + [cache[Last(path)]];
    forall i | 0 <= i < |p| - 1 ensures p[i] in cache && cache[p[i]] == p[i + 1] {
      if i < |path| - 1 {
        assert p[i] == path[i] && p[i + 1] == path[i + 1];
      }
    }
  }

  lemma DistinctExtends(path: seq<Url>, next: Url)
    requires Distinct(path) && next !in path
    ensures Distinct(path + [next])
  {
  }

  /** A chain that ends does so at a URL without a record, reached by a walk that repeats no URL. */
  lemma {:induction false} FollowEnds(cache: map<Url, Url>, url: Url, path: seq<Url>)
    requires IsWalk(cache, url, path) && Distinct(path)
    requires Follow(cache, path).Some?
    ensures exists w :: IsWalk(cache, url, w) && Distinct(w) && Last(w) == Follow(cache, path).value
    decreases |Unvisited(cache, path)|
  {
    var cur := Last(path);
    if cur in cache {
      var next := cache[cur];
      UnvisitedShrinks(cache, path, next);
      WalkExtends(cache, url, path);
      DistinctExtends(path, next);
      FollowEnds(cache, url, path + [next]);
    }
  }

  /** A chain that gives nothing comes back to a URL already on its walk. */
  lemma {:induction false} FollowCycles(cache: map<Url, Url>, url: Url, path: seq<Url>)
    requires IsWalk(cache, url, path) && Distinct(path)
    requires Follow(cache, path).None?
    ensures exists w :: IsWalk(cache, url, w) && !Distinct(w)
    decreases |Unvisited(cache, path)|
  {
    var cur := Last(path);
    var next := cache[cur];
    WalkExtends(cache, url, path);
    var w := path + [next];
    if next in path {
      var i :| 0 <= i < |path| && path[i] == next;
      assert w[i] == w[|w| - 1];
    } else {
      UnvisitedShrinks(cache, path, next);
      DistinctExtends(path, next);
      FollowCycles(cache, url, w);
    }
  }

  /** There is only one chain from a URL: of two walks, the shorter is a prefix of the longer. */
  lemma {:induction false} WalksArePrefixes(cache: map<Url, Url>, url: Url, v: seq<Url>, w: seq<Url>)
    requires IsWalk(cache, url, v) && IsWalk(cache, url, w) && |v| <= |w|
    ensures v == w[..|v|]
    decreases |v|
  {
    if |v| > 1 {
      var v' := v[..|v| - 1];
      assert IsWalk(cache, url, v');
      WalksArePrefixes(cache, url, v', w);
      assert v[|v| - 1] == cache[v[|v| - 2]] == w[|v| - 1];
    }
  }

  /** No walk goes past a URL without a record. */
  lemma WalkStopsAtEnd(cache: map<Url, Url>, url: Url, v: seq<Url>, w: seq<Url>)
    requires IsWalk(cache, url, v) && IsWalk(cache, url, w) && Last(w) !in cache
    ensures |v| <= |w|
  {
    if |v| > |w| {
      WalksArePrefixes(cache, url, w, v);
    }
  }

  /** A recorded redirect resolves to nothing exactly when its chain revisits a URL. */
  lemma CachedRedirectNoneIffCycle(cache: map<Url, Url>, url: Url)
    requires url in cache
    ensures CachedRedirectOf(cache, url).None? <==> exists w :: IsWalk(cache, url, w) && !Distinct(w)
  {
    if CachedRedirectOf(cache, url).None? {
      FollowCycles(cache, url, [url]);
    } else {
      FollowEnds(cache, url, [url]);
      var w :| IsWalk(cache, url, w) && Distinct(w) && Last(w) == Follow(cache, [url]).value;
      forall v | IsWalk(cache, url, v) ensures Distinct(v) {
        WalkStopsAtEnd(cache, url, v, w);
        WalksArePrefixes(cache, url, v, w);
      }
    }
  }

  /** A resolved redirect is a URL reached along the chain, and the chain records nothing after it. */
  lemma CachedRedirectIsEndOfChain(cache: map<Url, Url>, url: Url)
    requires CachedRedirectOf(cache, url).Some?
    ensures exists w :: IsWalk(cache, url, w) && Distinct(w) && Last(w) == CachedRedirectOf(cache, url).value
    ensures CachedRedirectOf(cache, url).value !in cache
  {
    FollowEnds(cache, url, [url]);
  }

  /** `cachedRedirect(for:)` with its visited set: the loop stops at the first revisit or at the end of the chain. */
  method CachedRedirect(redirectCache: map<Url, Url>, url: Url) returns (r: Option<Url>)
    ensures r == CachedRedirectOf(redirectCache, url)
  {
    var urls := {url};
    var currentURL := url;
    ghost var path := [url];
    while true
      invariant |path| > 0 && currentURL == Last(path) && urls == Elems(path)
      invariant Follow(redirectCache, path) == Follow(redirectCache, [url])
      decreases |Unvisited(redirectCache, path)|
    {
      if currentURL in redirectCache {
        var oneRedirectURL := redirectCache[currentURL];
        if oneRedirectURL in urls {
          return None;
        }
        UnvisitedShrinks(redirectCache, path, oneRedirectURL);
        urls := urls + {oneRedirectURL};
        currentURL := oneRedirectURL;
        path := path + [oneRedirectURL];
      } else {
        break;
      }
    }
    if currentURL == url {
      return None;
    }
    return Some(currentURL);
  }
}
