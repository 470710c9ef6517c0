/**
 * `LocalAccountRefresher`: decides which feeds to fetch, hands the download
 * session the conditional-GET validators of each feed, and records what a
 * finished download says about its feed. Dates are seconds as `real`;
 * `parse` stands for `URL(string:)`, `parseInterval` for
 * `TimeInterval(String)`.
 */
module LocalAccountRefresher {
  import opened Wrappers
  import opened Text
  import opened UrlReed
  import opened SpecialCases
  import opened CacheControl
  import opened ConditionalGet
  import opened FeedModel

  /** 25 hours: special-case hosts are read at most this often. */
  const SpecialCaseInterval: real := 90000.0

  /** 8 days: conditional-GET validators older than this are no longer sent. */
  const ConditionalGetInfoLifetime: real := 691200.0

  const NotModified: int := 304

  /** Hosts that never return a feed. */
  const BadHosts: seq<string> := ["twitter.com", "www.twitter.com", "x.com", "www.x.com"]

  // ---------------------------------------------------------------- skip rules

  /** `feedIsDisallowed` on the URL built from the feed's url string. */
  predicate IsDisallowed(url: Option<Url>) {
    url.None? || url.value.host.None? || LowerStr(url.value.host.value) in BadHosts
  }

  /** `feedShouldBeSkippedForTimingReasons`, with the cutoff date. */
  predicate SkippedForTimingReasons(urlString: string, lastCheckDate: Option<real>, cutoff: real) {
    lastCheckDate.Some?
    && UrlStringContainSpecialCase(urlString, [RachelByTheBayHostName, OpenRSSOrgHostName])
    && lastCheckDate.value > cutoff
  }

  /** `feedShouldBeSkippedForCacheControlReasons` at `now`. */
  predicate SkippedForCacheControlReasons(urlString: string, info: Option<CacheControlInfo>, now: real) {
    UrlStringContainSpecialCase(urlString, [OpenRSSOrgHostName])
    && info.Some? && !CanResume(info.value, now)
  }

  /** `feedShouldBeSkipped` at `now`, whose cutoff is 25 hours earlier. */
  predicate FeedShouldBeSkipped(feed: Feed, now: real, parse: string -> Option<Url>)
    reads feed
  {
    SkippedForCacheControlReasons(feed.url, feed.metadata.cacheControlInfo, now)
    || IsDisallowed(parse(feed.url))
    || SkippedForTimingReasons(feed.url, feed.metadata.lastCheckDate, now - SpecialCaseInterval)
  }

  /** A feed is disallowed without a URL, without a host, or when its lower-cased host is exactly an X/Twitter host. */
  lemma DisallowedHosts(url: Option<Url>)
    ensures IsDisallowed(url) <==>
      url.None? || url.value.host.None?
      || (var h := LowerStr(url.value.host.value);
          h == "twitter.com" || h == "www.twitter.com" || h == "x.com" || h == "www.x.com")
  {
  }

  /** Hosts are compared whole: a subdomain of a bad host is allowed, an upper-case bad host is not. */
  lemma HostComparedWhole()
    ensures !IsDisallowed(Some(Url("https://mobile.twitter.com/", Some("https"), Some("mobile.twitter.com"))))
    ensures IsDisallowed(Some(Url("https://X.com/", Some("https"), Some("X.com"))))
  {
    assert LowerStr("X.com") == "x.com";
    assert LowerStr("mobile.twitter.com") == "mobile.twitter.com" by {
      LowerStrOfLower("mobile.twitter.com");
    }
  }

  /** A feed never checked before is never skipped for timing reasons. */
  lemma NeverCheckedNotTimed(urlString: string, cutoff: real)
    ensures !SkippedForTimingReasons(urlString, None, cutoff)
  {
  }

  /**
   * A timing skip happens exactly for a URL naming rachelbythebay.com or
   * openrss.org (lower-cased) that was checked after the cutoff.
   */
  lemma TimingSkipOnlyForSpecialHosts(urlString: string, lastCheckDate: Option<real>, cutoff: real)
    ensures SkippedForTimingReasons(urlString, lastCheckDate, cutoff) <==>
      lastCheckDate.Some? && lastCheckDate.value > cutoff
      && (Contains(LowerStr(urlString), RachelByTheBayHostName) || Contains(LowerStr(urlString), OpenRSSOrgHostName))
  {
    var cases := [RachelByTheBayHostName, OpenRSSOrgHostName];
    SpecialCaseExists(urlString, cases);
    if Contains(LowerStr(urlString), OpenRSSOrgHostName) {
      assert Contains(LowerStr(urlString), cases[1]);
    }
  }

  /** A cache-control skip happens exactly for an openrss.org URL whose recorded `max-age` has not yet run out. */
  lemma CacheControlSkipOnlyForOpenRSSOrg(urlString: string, info: Option<CacheControlInfo>, now: real)
    ensures SkippedForCacheControlReasons(urlString, info, now) <==>
      Contains(LowerStr(urlString), OpenRSSOrgHostName) && info.Some?
      && now < info.value.dateCreated + info.value.maxAge
  {
    SpecialCaseExists(urlString, [OpenRSSOrgHostName]);
  }

  /** A feed with an allowed host, never checked, whose URL does not name openrss.org, is fetched. */
  lemma OrdinaryFeedIsFetched(feed: Feed, now: real, parse: string -> Option<Url>)
    requires !IsDisallowed(parse(feed.url)) && feed.metadata.lastCheckDate.None?
    requires !Contains(LowerStr(feed.url), OpenRSSOrgHostName)
    ensures !FeedShouldBeSkipped(feed, now, parse)
  {
    CacheControlSkipOnlyForOpenRSSOrg(feed.url, feed.metadata.cacheControlInfo, now);
  }

  // ---------------------------------------------------------------- conditional GET

  /**
   * The conditional-GET validators are dropped when they are dated more than
   * 8 days before `now` and the URL names neither openrss.org nor
   * rachelbythebay.com.
   */
  predicate DropsConditionalGetInfo(m: FeedMetadata, urlString: string, now: real) {
    m.conditionalGetInfo.Some? && m.conditionalGetInfoDate.Some?
    && m.conditionalGetInfoDate.value < now - ConditionalGetInfoLifetime
    && !UrlStringContainSpecialCase(urlString, [OpenRSSOrgHostName, RachelByTheBayHostName])
  }

  /** The validators read back: nil when none are stored or when they are dropped. */
  function ConditionalGetInfoToSend(m: FeedMetadata, urlString: string, now: real): (r: Option<ConditionalGetInfo>)
    ensures r.Some? ==> r == m.conditionalGetInfo
    ensures r.None? <==> m.conditionalGetInfo.None? || DropsConditionalGetInfo(m, urlString, now)
  {
    if DropsConditionalGetInfo(m, urlString, now) then None else m.conditionalGetInfo
  }

  /** Validators of a special-case URL, or of an undated record, are always sent. */
  lemma SpecialCasesKeepConditionalGetInfo(m: FeedMetadata, urlString: string, now: real)
    requires Contains(LowerStr(urlString), OpenRSSOrgHostName)
      || Contains(LowerStr(urlString), RachelByTheBayHostName)
      || m.conditionalGetInfoDate.None?
    ensures ConditionalGetInfoToSend(m, urlString, now) == m.conditionalGetInfo
  {
    var cases := [OpenRSSOrgHostName, RachelByTheBayHostName];
    SpecialCaseExists(urlString, cases);
    if Contains(LowerStr(urlString), RachelByTheBayHostName) {
      assert Contains(LowerStr(urlString), cases[1]);
    }
  }

  /** Validators at most 8 days old are always sent. */
  lemma RecentConditionalGetInfoKept(m: FeedMetadata, urlString: string, now: real)
    requires m.conditionalGetInfoDate.Some? && m.conditionalGetInfoDate.value >= now - ConditionalGetInfoLifetime
    ensures ConditionalGetInfoToSend(m, urlString, now) == m.conditionalGetInfo
  {
  }

  // ---------------------------------------------------------------- completed downloads

  /** An HTTP response: its status code and its header fields. */
  datatype HTTPResponse = HTTPResponse(statusCode: int, headers: map<string, string>)

  function HeaderOf(response: HTTPResponse): string -> Option<string> {
    k => if k in response.headers then Some(response.headers[k]) else None
  }

  /** `statusIsOK`: a 2xx status. */
  predicate StatusIsOK(statusCode: int) {
    200 <= statusCode <= 299
  }

  /** The steps of `downloadDidComplete` a response gets through. */
  predicate UpdatesValidators(response: Option<HTTPResponse>, error: bool) {
    !error && response.Some? && (StatusIsOK(response.value.statusCode) || response.value.statusCode == NotModified)
  }

  predicate ReadsContent(response: Option<HTTPResponse>, error: bool) {
    UpdatesValidators(response, error) && StatusIsOK(response.value.statusCode)
  }

  /** The metadata after the validators and the `Cache-Control` record of a 2xx/304 response are taken. */
  function WithResponse(m: FeedMetadata, url: Url, response: HTTPResponse, now: real,
                        parseInterval: string -> Option<real>): (r: FeedMetadata)
    ensures r.conditionalGetInfo == ConditionalGet.FromResponse(HeaderOf(response))
    ensures r.contentHash == m.contentHash && r.lastCheckDate == m.lastCheckDate
    ensures r.cacheControlInfo != m.cacheControlInfo ==>
      StatusIsOK(response.statusCode) && IsOpenRSSOrgURL(url) && "Cache-Control" in response.headers
  {
    var m1 := WithConditionalGetInfo(m, ConditionalGet.FromResponse(HeaderOf(response)), now);
    var cache := CacheControl.FromResponse(HeaderOf(response)("Cache-Control"), now, parseInterval);
    if StatusIsOK(response.statusCode) && IsOpenRSSOrgURL(url) && cache.Some? then
      m1.(cacheControlInfo := cache)
    else m1
  }

  /** Whether the content is handed to the parser: a 2xx response whose data hash differs from the stored one. */
  predicate Parses(m: FeedMetadata, response: Option<HTTPResponse>, error: bool, dataHash: string) {
    ReadsContent(response, error) && m.contentHash != Some(dataHash)
  }

  /**
   * The metadata after `downloadDidComplete`: always checked at `now`; a
   * 2xx/304 response updates the validators; a parse that updates the feed
   * (`updated`) stores the data hash.
   */
  function AfterDownload(m: FeedMetadata, url: Url, response: Option<HTTPResponse>, error: bool, dataHash: string,
                         now: real, parseInterval: string -> Option<real>, updated: bool): (r: FeedMetadata)
    ensures r.lastCheckDate == Some(now)
    ensures !UpdatesValidators(response, error) ==> r == m.(lastCheckDate := Some(now))
    ensures UpdatesValidators(response, error) ==> r.conditionalGetInfo == ConditionalGet.FromResponse(HeaderOf(response.value))
    ensures r.contentHash == if Parses(m, response, error, dataHash) && updated then Some(dataHash) else m.contentHash
  {
    var checked := m.(lastCheckDate := Some(now));
    if !UpdatesValidators(response, error) then checked
    else
      var m2 := WithResponse(checked, url, response.value, now, parseInterval);
      if Parses(m, response, error, dataHash) && updated then m2.(contentHash := Some(dataHash)) else m2
  }

  /** Data whose hash equals the stored content hash is not parsed, and the hash stays. */
  lemma SameHashIsNotParsed(m: FeedMetadata, url: Url, response: Option<HTTPResponse>, error: bool,
                            now: real, parseInterval: string -> Option<real>, updated: bool)
    requires m.contentHash.Some?
    ensures !Parses(m, response, error, m.contentHash.value)
    ensures AfterDownload(m, url, response, error, m.contentHash.value, now, parseInterval, updated).contentHash == m.contentHash
  {
  }

  /** A 304 response takes new validators but neither a `Cache-Control` record nor a parse. */
  lemma NotModifiedKeepsContent(m: FeedMetadata, url: Url, response: HTTPResponse, dataHash: string,
                                now: real, parseInterval: string -> Option<real>, updated: bool)
    requires response.statusCode == NotModified
    ensures !Parses(m, Some(response), false, dataHash)
    ensures var r := AfterDownload(m, url, Some(response), false, dataHash, now, parseInterval, updated);
      r.cacheControlInfo == m.cacheControlInfo && r.contentHash == m.contentHash
      && r.conditionalGetInfo == ConditionalGet.FromResponse(HeaderOf(response))
  {
  }

  /** Only openrss.org URLs ever take a `Cache-Control` record. */
  lemma CacheControlOnlyForOpenRSSOrg(m: FeedMetadata, url: Url, response: Option<HTTPResponse>, error: bool, dataHash: string,
                                      now: real, parseInterval: string -> Option<real>, updated: bool)
    requires !IsOpenRSSOrgURL(url)
    ensures AfterDownload(m, url, response, error, dataHash, now, parseInterval, updated).cacheControlInfo == m.cacheControlInfo
  {
  }

  // ---------------------------------------------------------------- feeds to refresh

  /** The feeds `refreshFeeds` keeps. */
  function FeedsToRefresh(feeds: set<Feed>, now: real, parse: string -> Option<Url>): (r: set<Feed>)
    reads feeds
    ensures r <= feeds
    ensures forall f :: f in feeds ==> (f in r <==> !FeedShouldBeSkipped(f, now, parse))
  {
    set f | f in feeds && !FeedShouldBeSkipped(f, now, parse)
  }

  /** The url strings of some feeds: the keys of `urlToFeedDictionary`. */
  function UrlStrings(feeds: set<Feed>): set<string> {
    set f | f in feeds :: f.url
  }

  /** The URLs built from some feeds' url strings (`compactMap`). */
  function UrlsOf(feeds: set<Feed>, parse: string -> Option<Url>): set<Url> {
    set f | f in feeds && parse(f.url).Some? :: parse(f.url).value
  }

  lemma UrlStringsStep(done: set<Feed>, f: Feed)
    ensures UrlStrings(done + {f}) == UrlStrings(done) + {f.url}
  {
  }

  lemma UrlsOfStep(done: set<Feed>, f: Feed, parse: string -> Option<Url>)
    ensures UrlsOf(done + {f}, parse) == UrlsOf(done, parse) + (if parse(f.url).Some? then {parse(f.url).value} else {})
  {
  }

  /** Every kept feed a URL can be built for is downloaded, and every URL downloaded is built from a kept feed. */
  lemma DownloadedURLs(feeds: set<Feed>, parse: string -> Option<Url>, u: Url)
    ensures u in UrlsOf(feeds, parse) <==> exists f :: f in feeds && parse(f.url) == Some(u)
  {
    if exists f :: f in feeds && parse(f.url) == Some(u) {
      var f :| f in feeds && parse(f.url) == Some(u);
      assert parse(f.url).value == u;
    }
  }

  // ---------------------------------------------------------------- the refresher

  class Refresher {
    /** `URL(string:)`. */
    const parse: string -> Option<Url>
    var isSuspended: bool
    var urlToFeedDictionary: map<string, Feed>
    /** `urlCache`: URLs already built from a feed's url string. */
    var urlCache: map<string, Url>
    /** Whether a completion handler is waiting for the session to finish. */
    var hasCompletion: bool

    /** The URL cache holds only what `parse` builds, and each feed is filed under its own url string. */
    ghost predicate Valid()
      reads this
    {
      (forall k :: k in urlCache ==> parse(k) == Some(urlCache[k]))
      && (forall k :: k in urlToFeedDictionary ==> urlToFeedDictionary[k].url == k)
    }

    constructor (parse: string -> Option<Url>)
      ensures Valid() && this.parse == parse
      ensures !isSuspended && urlToFeedDictionary == map[] && urlCache == map[] && !hasCompletion
    {
      this.parse := parse;
      isSuspended := false;
      urlToFeedDictionary := map[];
      urlCache := map[];
      hasCompletion := false;
    }

    /** `url(for:)`: the cached URL, else a newly built one, which is then cached. */
    method UrlFor(feed: Feed) returns (url: Option<Url>)
      requires Valid()
      modifies this
      ensures Valid() && url == parse(feed.url)
      ensures urlCache == if url.Some? then old(urlCache)[feed.url := url.value] else old(urlCache)
      ensures isSuspended == old(isSuspended) && urlToFeedDictionary == old(urlToFeedDictionary)
      ensures hasCompletion == old(hasCompletion)
    {
      var urlString := feed.url;
      if urlString in urlCache {
        return Some(urlCache[urlString]);
      }
      url := parse(urlString);
      if url.Some? {
        urlCache := urlCache[urlString := url.value];
      }
    }

    /** `suspend`: the session's `cancelAll` is outside the model. */
    method Suspend()
      modifies this
      ensures isSuspended
      ensures forall isImage :: !ShouldContinueAfterReceivingData(isImage)
      ensures urlToFeedDictionary == old(urlToFeedDictionary) && urlCache == old(urlCache)
      ensures hasCompletion == old(hasCompletion)
    {
      isSuspended := true;
    }

    method Resume()
      modifies this
      ensures !isSuspended
      ensures forall isImage :: ShouldContinueAfterReceivingData(isImage) <==> !isImage
      ensures urlToFeedDictionary == old(urlToFeedDictionary) && urlCache == old(urlCache)
      ensures hasCompletion == old(hasCompletion)
    {
      isSuspended := false;
    }

    /** `shouldContinueAfterReceivingData`: stop for an image or while suspended. */
    predicate ShouldContinueAfterReceivingData(isImage: bool)
      reads this
    {
      !isImage && !isSuspended
    }

    /** The `for feed in filteredFeeds` loop of `refreshFeeds`: files each feed under its url string. */
    method FileFeeds(filteredFeeds: set<Feed>)
      requires Valid()
      modifies this
      ensures Valid()
      ensures urlToFeedDictionary.Keys == UrlStrings(filteredFeeds)
      ensures forall k :: k in urlToFeedDictionary ==> urlToFeedDictionary[k] in filteredFeeds
      ensures isSuspended == old(isSuspended) && urlCache == old(urlCache) && hasCompletion == old(hasCompletion)
    {
      urlToFeedDictionary := map[];
      var remaining := filteredFeeds;
      ghost var done: set<Feed> := {};
      while remaining != {}
        invariant remaining <= filteredFeeds && done == filteredFeeds - remaining
        invariant urlToFeedDictionary.Keys == UrlStrings(done)
        invariant forall k :: k in urlToFeedDictionary ==> urlToFeedDictionary[k] in filteredFeeds && urlToFeedDictionary[k].url == k
        invariant Valid()
        invariant isSuspended == old(isSuspended) && urlCache == old(urlCache) && hasCompletion == old(hasCompletion)
        decreases |remaining|
      {
        var feed :| feed in remaining;
        urlToFeedDictionary := urlToFeedDictionary[feed.url := feed];
        remaining := remaining - {feed};
        UrlStringsStep(done, feed);
        done := done + {feed};
      }
    }

    /** `filteredFeeds.compactMap { Self.url(for: $0) }`, collected as a set. */
    method URLsFor(filteredFeeds: set<Feed>) returns (urls: set<Url>)
      requires Valid()
      modifies this
      ensures Valid() && urls == UrlsOf(filteredFeeds, parse)
      ensures isSuspended == old(isSuspended) && urlToFeedDictionary == old(urlToFeedDictionary)
      ensures hasCompletion == old(hasCompletion)
    {
      urls := {};
      var remaining := filteredFeeds;
      ghost var done: set<Feed> := {};
      while remaining != {}
        invariant remaining <= filteredFeeds && done == filteredFeeds - remaining
        invariant urls == UrlsOf(done, parse)
        invariant Valid()
        invariant isSuspended == old(isSuspended) && urlToFeedDictionary == old(urlToFeedDictionary)
        invariant hasCompletion == old(hasCompletion)
        decreases |remaining|
      {
        var feed :| feed in remaining;
        var url := UrlFor(feed);
        if url.Some? {
          urls := urls + {url.value};
        }
        remaining := remaining - {feed};
        UrlsOfStep(done, feed, parse);
        done := done + {feed};
      }
    }

    /**
     * `refreshFeeds`: keeps the feeds not skipped at `now`, files them by url
     * string, and returns the URLs to download; `completeNow` is set, and
     * nothing else changes, when every feed is skipped.
     */
    method RefreshFeeds(feeds: set<Feed>, now: real, completion: bool) returns (urls: set<Url>, completeNow: bool)
      requires Valid()
      modifies this
      ensures Valid() && isSuspended == old(isSuspended)
      ensures completeNow <==> FeedsToRefresh(feeds, now, parse) == {}
      ensures completeNow ==> urls == {} && urlToFeedDictionary == old(urlToFeedDictionary)
      ensures completeNow ==> hasCompletion == old(hasCompletion)
      ensures !completeNow ==> urlToFeedDictionary.Keys == UrlStrings(FeedsToRefresh(feeds, now, parse))
      ensures !completeNow ==> forall k :: k in urlToFeedDictionary ==> urlToFeedDictionary[k] in FeedsToRefresh(feeds, now, parse)
      ensures !completeNow ==> urls == UrlsOf(FeedsToRefresh(feeds, now, parse), parse)
      ensures !completeNow ==> hasCompletion == completion
    {
      var filteredFeeds := FeedsToRefresh(feeds, now, parse);
      if filteredFeeds == {} {
        return {}, true;
      }
      completeNow := false;
      FileFeeds(filteredFeeds);
      urls := URLsFor(filteredFeeds);
      hasCompletion := completion;
    }

    /** `downloadSessionDidComplete`: runs the waiting completion handler, if any, once. */
    method DownloadSessionDidComplete() returns (callsCompletion: bool)
      modifies this
      ensures callsCompletion == old(hasCompletion) && !hasCompletion
      ensures isSuspended == old(isSuspended) && urlToFeedDictionary == old(urlToFeedDictionary) && urlCache == old(urlCache)
    {
      callsCompletion := hasCompletion;
      hasCompletion := false;
    }

    /**
     * `conditionalGetInfoFor`: the validators of the feed filed under the
     * URL; old ones are dropped from the feed as well.
     */
    method ConditionalGetInfoFor(url: Url, now: real) returns (r: Option<ConditionalGetInfo>)
      requires Valid()
      modifies if url.absoluteString in urlToFeedDictionary then {urlToFeedDictionary[url.absoluteString]} else {}
      ensures url.absoluteString !in urlToFeedDictionary ==> r.None?
      ensures url.absoluteString in urlToFeedDictionary ==>
        var feed := urlToFeedDictionary[url.absoluteString];
        r == ConditionalGetInfoToSend(old(feed.metadata), url.absoluteString, now)
        && feed.metadata == (if DropsConditionalGetInfo(old(feed.metadata), url.absoluteString, now)
                             then WithConditionalGetInfo(old(feed.metadata), None, now) else old(feed.metadata))
    {
      if url.absoluteString !in urlToFeedDictionary {
        return None;
      }
      var feed := urlToFeedDictionary[url.absoluteString];
      var conditionalGetInfo := feed.metadata.conditionalGetInfo;
      if conditionalGetInfo.None? {
        return None;
      }
      if feed.metadata.conditionalGetInfoDate.Some? {
        var eightDaysAgo := now - ConditionalGetInfoLifetime;
        if feed.metadata.conditionalGetInfoDate.value < eightDaysAgo {
          if !UrlStringContainSpecialCase(url.absoluteString, [OpenRSSOrgHostName, RachelByTheBayHostName]) {
            feed.SetConditionalGetInfo(None, now);
            return None;
          }
        }
      }
      return conditionalGetInfo;
    }

    /**
     * `downloadSession(_:downloadDidComplete:...)` for the feed filed under
     * the URL; `parsing` says whether the data goes to the parser, and
     * `updated` whether the parse and the account update then succeed.
     */
    method DownloadDidComplete(url: Url, response: Option<HTTPResponse>, error: bool, dataHash: string,
                               now: real, parseInterval: string -> Option<real>, updated: bool)
      returns (parsing: bool)
      requires Valid()
      modifies if url.absoluteString in urlToFeedDictionary then {urlToFeedDictionary[url.absoluteString]} else {}
      ensures url.absoluteString !in urlToFeedDictionary ==> !parsing
      ensures url.absoluteString in urlToFeedDictionary ==>
        var feed := urlToFeedDictionary[url.absoluteString];
        parsing == Parses(old(feed.metadata), response, error, dataHash)
        && feed.metadata == AfterDownload(old(feed.metadata), url, response, error, dataHash, now, parseInterval, updated)
    {
      if url.absoluteString !in urlToFeedDictionary {
        return false;
      }
      var feed := urlToFeedDictionary[url.absoluteString];
      ghost var m0 := feed.metadata;
      feed.metadata := feed.metadata.(lastCheckDate := Some(now));
      if error || response.None? {
        return false;
      }
      var httpResponse := response.value;
      var statusIsOK := StatusIsOK(httpResponse.statusCode);
      if !(statusIsOK || httpResponse.statusCode == NotModified) {
        return false;
      }
      var conditionalGetInfo := ConditionalGet.FromResponse(HeaderOf(httpResponse));
      if conditionalGetInfo != feed.metadata.conditionalGetInfo {
        feed.SetConditionalGetInfo(conditionalGetInfo, now);
      }
      if !statusIsOK {
        return false;
      }
      if IsOpenRSSOrgURL(url) {
        var cacheControlInfo := CacheControl.FromResponse(HeaderOf(httpResponse)("Cache-Control"), now, parseInterval);
        if cacheControlInfo.Some? {
          feed.metadata := feed.metadata.(cacheControlInfo := cacheControlInfo);
        }
      }
      if Some(dataHash) == feed.metadata.contentHash {
        return false;
      }
      parsing := true;
      if updated {
        feed.metadata := feed.metadata.(contentHash := Some(dataHash));
      }
    }
  }
}
