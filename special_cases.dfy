/**
 * Hosts that get special treatment when fetching: openrss.org (which asks
 * clients to read few of its feeds at a time) and rachelbythebay.com.
 */
module SpecialCases {
  import opened Wrappers
  import opened Text
  import opened UrlReed

  const RachelByTheBayHostName: string := "rachelbythebay.com"
  const OpenRSSOrgHostName: string := "openrss.org"

  /** `urlStringContainSpecialCase`: the lower-cased string contains one of the (as given) special cases. */
  predicate UrlStringContainSpecialCase(urlString: string, specialCases: seq<string>)
    decreases |specialCases|
  {
    |specialCases| > 0
    && (Contains(LowerStr(urlString), specialCases[0]) || UrlStringContainSpecialCase(urlString, specialCases[1..]))
  }

  /** The scan answers true iff some listed case occurs in the lower-cased string. */
  lemma {:induction false} SpecialCaseExists(urlString: string, specialCases: seq<string>)
    ensures UrlStringContainSpecialCase(urlString, specialCases)
      <==> exists i :: 0 <= i < |specialCases| && Contains(LowerStr(urlString), specialCases[i])
    decreases |specialCases|
  {
    if |specialCases| > 0 {
      var rest := specialCases[1..];
      SpecialCaseExists(urlString, rest);
      if exists i :: 0 <= i < |specialCases| && Contains(LowerStr(urlString), specialCases[i]) {
        var i :| 0 <= i < |specialCases| && Contains(LowerStr(urlString), specialCases[i]);
        if i > 0 {
          assert specialCases[i] == rest[i - 1];
        }
      }
      if exists i :: 0 <= i < |rest| && Contains(LowerStr(urlString), rest[i]) {
        var i :| 0 <= i < |rest| && Contains(LowerStr(urlString), rest[i]);
        assert specialCases[i + 1] == rest[i];
      }
    }
  }

  /** The host test behind `isOpenRSSOrgURL` and `isRachelByTheBayURL`: false without a host. */
  predicate HostContains(u: Url, hostName: string) {
    u.host.Some? && UrlStringContainSpecialCase(u.host.value, [hostName])
  }

  predicate IsOpenRSSOrgURL(u: Url) {
    HostContains(u, OpenRSSOrgHostName)
  }

  predicate IsRachelByTheBayURL(u: Url) {
    HostContains(u, RachelByTheBayHostName)
  }

  /** A URL is an openrss.org URL iff it has a host whose lower-cased form contains `openrss.org`. */
  lemma OpenRSSOrgHost(u: Url)
    ensures IsOpenRSSOrgURL(u) <==> u.host.Some? && Contains(LowerStr(u.host.value), OpenRSSOrgHostName)
  {
    if u.host.Some? {
      SpecialCaseExists(u.host.value, [OpenRSSOrgHostName]);
    }
  }

  /** `byRemovingOpenRSSOrgURLs`. */
  function ByRemovingOpenRSSOrgURLs(urls: set<Url>): (r: set<Url>)
    ensures r <= urls
    ensures forall u :: u in r <==> u in urls && !IsOpenRSSOrgURL(u)
  {
    set u | u in urls && !IsOpenRSSOrgURL(u)
  }

  /** `openRSSOrgURLs`. */
  function OpenRSSOrgURLs(urls: set<Url>): (r: set<Url>)
    ensures r <= urls
    ensures forall u :: u in r <==> u in urls && IsOpenRSSOrgURL(u)
  {
    set u | u in urls && IsOpenRSSOrgURL(u)
  }

  /** The two filters split the set. */
  lemma FiltersPartition(urls: set<Url>)
    ensures ByRemovingOpenRSSOrgURLs(urls) + OpenRSSOrgURLs(urls) == urls
    ensures ByRemovingOpenRSSOrgURLs(urls) * OpenRSSOrgURLs(urls) == {}
    ensures |ByRemovingOpenRSSOrgURLs(urls)| + |OpenRSSOrgURLs(urls)| == |urls|
  {
    var a := ByRemovingOpenRSSOrgURLs(urls);
    var b := OpenRSSOrgURLs(urls);
    assert a + b == urls;
    assert a * b == {};
    assert |a + b| == |a| + |b| - |a * b|;
  }

  /**
   * `byRemovingAllButOneRandomOpenRSSOrgURL`: keeps every other URL and one
   * openrss.org URL, chosen at random (here, any one).
   */
  method ByRemovingAllButOneRandomOpenRSSOrgURL(urls: set<Url>) returns (r: set<Url>)
    ensures |urls| <= 1 || |OpenRSSOrgURLs(urls)| <= 1 ==> r == urls
    ensures r <= urls
    ensures ByRemovingOpenRSSOrgURLs(urls) <= r
    ensures |OpenRSSOrgURLs(r)| == if |OpenRSSOrgURLs(urls)| == 0 then 0 else 1
  {
    if urls == {} || |urls| == 1 {
      if urls != {} {
        var x :| x in urls;
        assert |urls - {x}| == 0;
        assert urls == {x};
        if IsOpenRSSOrgURL(x) {
          assert OpenRSSOrgURLs(urls) == {x};
        } else {
          assert OpenRSSOrgURLs(urls) == {};
        }
      }
      return urls;
    }
    var openRSSOrgURLs := OpenRSSOrgURLs(urls);
    if openRSSOrgURLs == {} || |openRSSOrgURLs| == 1 {
      return urls;
    }
    var single :| single in openRSSOrgURLs;
    var kept := ByRemovingOpenRSSOrgURLs(urls);
    r := kept + {single};
    assert OpenRSSOrgURLs(r) == {single};
  }

  /** `addSpecialCaseUserAgentIfNeeded`: both special hosts get the extended user agent. */
  function AddSpecialCaseUserAgentIfNeeded(url: Option<Url>, headers: map<string, string>, extendedUserAgent: string): (r: map<string, string>)
    ensures url.Some? && (IsOpenRSSOrgURL(url.value) || IsRachelByTheBayURL(url.value))
      ==> r == headers["User-Agent" := extendedUserAgent]
    ensures !(url.Some? && (IsOpenRSSOrgURL(url.value) || IsRachelByTheBayURL(url.value))) ==> r == headers
  {
    if url.Some? && (IsOpenRSSOrgURL(url.value) || IsRachelByTheBayURL(url.value)) then
      headers["User-Agent" := extendedUserAgent]
    else
      headers
  }
}
