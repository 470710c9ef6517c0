/**
 * The bookkeeping of `DownloadSession`: the redirect cache, the record of
 * 4xx responses, the 429 resume dates, the pending and in-progress tasks,
 * the overflow queue and the URLs of the current session. Tasks are named
 * by their identifiers, handed out in order; dates are seconds as `real`;
 * `cached` is the set of URL strings the download cache holds a response
 * for. Calls to the delegate are recorded as events.
 */
module DownloadSession {
  import opened Wrappers
  import opened Text
  import opened UrlReed
  import opened SpecialCases
  import opened RedirectChain

  /** At most this many tasks are pending; further URLs wait in the queue. */
  const MaxPendingTasks: nat := 500

  /** 4xx records older than 53 hours are forgotten. */
  const Http4xxLifetime: real := 190800.0

  /** openrss.org is read at most once every ten hours (`60 * 60 * 10` seconds). */
  const OpenRSSOrgInterval: real := 36000.0

  datatype Http4xxResponse = Http4xxResponse(statusCode: int, date: real)

  /** A call to the delegate. */
  datatype Event = DownloadDidComplete(url: Url) | SessionDidComplete

  datatype SessionState = SessionState(
    redirectCache: map<Url, Url>,
    http4xxResponses: map<Url, Http4xxResponse>,
    retryAfterResumeDates: map<string, real>,
    queue: seq<Url>,
    tasksPending: set<nat>,
    tasksInProgress: set<nat>,
    taskInfo: map<nat, Url>,
    nextTaskIdentifier: nat,
    urlsInSession: set<Url>,
    lastOpenRSSOrgFeedRefresh: real,
    events: seq<Event>)

  /** Tasks are pending or in progress, not both; every pending task has its info; identifiers are issued ones. */
  predicate ValidState(s: SessionState) {
    s.tasksPending * s.tasksInProgress == {}
    && s.tasksPending <= s.taskInfo.Keys
    && (forall t :: t in s.tasksPending ==> t < s.nextTaskIdentifier)
    && (forall t :: t in s.tasksInProgress ==> t < s.nextTaskIdentifier)
    && (forall t :: t in s.taskInfo ==> t < s.nextTaskIdentifier)
  }

  // ---------------------------------------------------------------- 4xx and 429 records

  /** The 4xx records kept by `cleanUp4xxResponsesCache` at `now`. */
  function Fresh4xxResponses(h: map<Url, Http4xxResponse>, now: real): (r: map<Url, Http4xxResponse>)
    ensures forall u :: u in r <==> u in h && h[u].date >= now - Http4xxLifetime
    ensures forall u :: u in r ==> r[u] == h[u]
  {
    map u | u in h && h[u].date >= now - Http4xxLifetime :: h[u]
  }

  /** Cleaning up twice at the same moment removes nothing more. */
  lemma CleanUpIdempotent(h: map<Url, Http4xxResponse>, now: real)
    ensures Fresh4xxResponses(Fresh4xxResponses(h, now), now) == Fresh4xxResponses(h, now)
  {
  }

  /** `requestShouldBeDroppedDueToPrevious400`. */
  predicate Previous400(s: SessionState, u: Url) {
    u in s.http4xxResponses
    || (CachedRedirectOf(s.redirectCache, u).Some? && CachedRedirectOf(s.redirectCache, u).value in s.http4xxResponses)
  }

  /**
   * `requestShouldBeDroppedDueToActive429`: whether to drop, and the resume
   * dates afterwards (a passed one is forgotten).
   */
  function Active429(retry: map<string, real>, u: Url, now: real): (r: (bool, map<string, real>))
    ensures r.0 <==> u.host.Some? && u.host.value in retry && !(retry[u.host.value] < now)
    ensures r.0 || u.host.None? || u.host.value !in retry ==> r.1 == retry
    ensures !r.0 && u.host.Some? && u.host.value in retry ==> r.1 == retry - {u.host.value}
  {
    if u.host.None? then (false, retry)
    else if u.host.value !in retry then (false, retry)
    else if retry[u.host.value] < now then (false, retry - {u.host.value})
    else (true, retry)
  }

  // ---------------------------------------------------------------- transitions

  /** The URL a request is made for: the resolved redirect, or the URL itself. */
  function UrlToUse(cache: map<Url, Url>, url: Url): Url {
    CachedRedirectOf(cache, url).GetOr(url)
  }

  /** A new pending task for `url`, under the next identifier. */
  function WithNewTask(s: SessionState, url: Url): (r: SessionState)
    ensures r == s.(taskInfo := s.taskInfo[s.nextTaskIdentifier := url],
                    tasksPending := s.tasksPending + {s.nextTaskIdentifier},
                    nextTaskIdentifier := s.nextTaskIdentifier + 1)
  {
    var t := s.nextTaskIdentifier;
    s.(taskInfo := s.taskInfo[t := url], tasksPending := s.tasksPending + {t}, nextTaskIdentifier := t + 1)
  }

  /** The part of `addDataTask` after the 429 check: the 4xx drop, the cache hit, or a new task. */
  function StartTaskSpec(s: SessionState, url: Url, urlToUse: Url, dropped: bool, cached: set<string>): SessionState {
    if dropped || Previous400(s, urlToUse) then s
    else if urlToUse.absoluteString in cached then s.(events := s.events + [DownloadDidComplete(url)])
    else WithNewTask(s, url)
  }

  /** `addDataTask`. */
  function AddDataTaskSpec(s: SessionState, url: Url, now: real, cached: set<string>): SessionState {
    if |s.tasksPending| >= MaxPendingTasks then s.(queue := [url] + s.queue)
    else
      var urlToUse := UrlToUse(s.redirectCache, url);
      var active := Active429(s.retryAfterResumeDates, urlToUse, now);
      StartTaskSpec(s.(retryAfterResumeDates := active.1), url, urlToUse, active.0, cached)
  }

  /** `addDataTaskFromQueueIfNecessary`: the last queued URL, when fewer than 500 tasks are pending. */
  function AddFromQueueSpec(s: SessionState, now: real, cached: set<string>): SessionState {
    if |s.tasksPending| < MaxPendingTasks && |s.queue| > 0 then
      AddDataTaskSpec(s.(queue := s.queue[..|s.queue| - 1]), s.queue[|s.queue| - 1], now, cached)
    else s
  }

  function NumberRemaining(s: SessionState): nat {
    |s.tasksPending| + |s.tasksInProgress| + |s.queue|
  }

  /** `updateDownloadProgress`. */
  function UpdateProgressSpec(s: SessionState): SessionState {
    if |s.urlsInSession| > 0 && NumberRemaining(s) < 1 then
      s.(urlsInSession := {}, events := s.events + [SessionDidComplete])
    else s
  }

  /** `removeTask`. */
  function RemoveTaskSpec(s: SessionState, t: nat, now: real, cached: set<string>): SessionState {
    var s1 := s.(tasksInProgress := s.tasksInProgress - {t}, tasksPending := s.tasksPending - {t}, taskInfo := s.taskInfo - {t});
    UpdateProgressSpec(AddFromQueueSpec(s1, now, cached))
  }

  /**
   * The `Retry-After` message `createHTTPResponse429` builds from a 429
   * response: the request's host and the date it may be asked again.
   */
  datatype RetryAfterMessage = RetryAfterMessage(host: string, resumeDate: real)

  /** The download cache after a response: a 400+ response other than 429 is stored under its URL string. */
  function CachedAfterResponse(cached: set<string>, statusCode: int, responseURL: Option<Url>): (r: set<string>)
    ensures cached <= r
    ensures statusCode >= 400 && statusCode != 429 && responseURL.Some? ==> responseURL.value.absoluteString in r
    ensures r - cached <= (if responseURL.Some? then {responseURL.value.absoluteString} else {})
    ensures statusCode < 400 || statusCode == 429 ==> r == cached
  {
    if statusCode >= 400 && statusCode != 429 && responseURL.Some? then cached + {responseURL.value.absoluteString}
    else cached
  }

  /** The state once a 400+ response's task is in progress and then removed, with the cache already holding the response. */
  function ErrorRemovalSpec(s: SessionState, t: nat, statusCode: int, responseURL: Option<Url>, now: real, cached: set<string>): SessionState {
    var s1 := s.(tasksInProgress := s.tasksInProgress + {t}, tasksPending := s.tasksPending - {t});
    RemoveTaskSpec(s1, t, now, CachedAfterResponse(cached, statusCode, responseURL))
  }

  /**
   * The bookkeeping of `urlSession(_:dataTask:didReceive:completionHandler:)`
   * when no `Retry-After` message is handled (any response but a 429 with one).
   */
  function DidReceiveResponseSpec(s: SessionState, t: nat, statusCode: int, responseURL: Option<Url>, now: real, cached: set<string>): SessionState {
    var s1 := s.(tasksInProgress := s.tasksInProgress + {t}, tasksPending := s.tasksPending - {t});
    if statusCode >= 400 then
      UpdateProgressSpec(ClientErrorSpec(ErrorRemovalSpec(s, t, statusCode, responseURL, now, cached), statusCode, responseURL, now))
    else
      UpdateProgressSpec(AddFromQueueSpec(s1, now, cached))
  }

  /** The record of a 400-499 response other than 429, made after that task is removed. */
  function ClientErrorSpec(s: SessionState, statusCode: int, responseURL: Option<Url>, now: real): SessionState {
    if statusCode != 429 && 400 <= statusCode <= 499 && responseURL.Some? then
      s.(http4xxResponses := s.http4xxResponses[responseURL.value := Http4xxResponse(statusCode, now)])
    else s
  }

  /**
   * The download cache after the completion callback: a completion of a
   * known task without an error stores the response under the URL of the
   * task's request; otherwise the cache is unchanged.
   */
  function CachedAfterCompletion(cached: set<string>, known: bool, requestURL: Option<Url>, failed: bool): (r: set<string>)
    ensures cached <= r
    ensures known && requestURL.Some? && !failed ==> requestURL.value.absoluteString in r
    ensures r - cached <= (if requestURL.Some? then {requestURL.value.absoluteString} else {})
    ensures !known || failed ==> r == cached
  {
    if known && requestURL.Some? && !failed then cached + {requestURL.value.absoluteString} else cached
  }

  /**
   * Once a request has completed without an error, a later request for the
   * same URL that is not dropped is answered from the cache: the delegate
   * hears of it and no task is created.
   */
  lemma CompletedRequestIsServedFromCache(s: SessionState, url: Url, requestURL: Url, cached: set<string>)
    requires !Previous400(s, requestURL)
    ensures StartTaskSpec(s, url, requestURL, false, CachedAfterCompletion(cached, true, Some(requestURL), false))
         == s.(events := s.events + [DownloadDidComplete(url)])
  {
  }

  /** The completion callback: the delegate hears of a known task, then that data task is removed with `cached` as the cache. */
  function DidCompleteSpec(s: SessionState, t: nat, now: real, cached: set<string>): SessionState {
    var s1 := if t in s.taskInfo then s.(events := s.events + [DownloadDidComplete(s.taskInfo[t])]) else s;
    RemoveTaskSpec(s1, t, now, cached)
  }

  /** The URLs added one after another, in `order`. */
  function AddAll(s: SessionState, order: seq<Url>, now: real, cached: set<string>): SessionState
    decreases |order|
  {
    if |order| == 0 then s
    else AddDataTaskSpec(AddAll(s, order[..|order| - 1], now, cached), order[|order| - 1], now, cached)
  }

  /**
   * `filteredURLs`: when openrss.org may be read, every other URL and one of
   * its URLs; otherwise none of its URLs.
   */
  predicate FilteredFrom(urls: set<Url>, filtered: set<Url>, canDownloadFromOpenRSSOrg: bool) {
    if canDownloadFromOpenRSSOrg then
      filtered <= urls && ByRemovingOpenRSSOrgURLs(urls) <= filtered
      && |OpenRSSOrgURLs(filtered)| == (if |OpenRSSOrgURLs(urls)| == 0 then 0 else 1)
    else filtered == ByRemovingOpenRSSOrgURLs(urls)
  }

  /** Filtering keeps every URL of another host and at most one openrss.org URL. */
  lemma FilteredKeepsOthers(urls: set<Url>, filtered: set<Url>, can: bool)
    requires FilteredFrom(urls, filtered, can)
    ensures filtered <= urls
    ensures forall u :: u in urls && !IsOpenRSSOrgURL(u) ==> u in filtered
    ensures |OpenRSSOrgURLs(filtered)| <= 1
    ensures !can ==> |OpenRSSOrgURLs(filtered)| == 0
  {
    if !can {
      assert OpenRSSOrgURLs(filtered) == {};
    }
  }

  // ---------------------------------------------------------------- properties of the transitions

  /** With 500 tasks pending, URLs wait at the front of the queue in the order they came, and nothing else changes. */
  lemma QueuePushesFront(s: SessionState, a: Url, b: Url, now: real, cached: set<string>)
    requires |s.tasksPending| >= MaxPendingTasks
    ensures AddDataTaskSpec(AddDataTaskSpec(s, a, now, cached), b, now, cached) == s.(queue := [b, a] + s.queue)
  {
  }

  /** A refill takes the URL that has waited longest, so the queue is first in, first out. */
  lemma RefillTakesOldest(p: SessionState, a: Url, b: Url, now: real, cached: set<string>)
    requires p.queue == [b, a] && |p.tasksPending| < MaxPendingTasks
    ensures AddFromQueueSpec(p, now, cached) == AddDataTaskSpec(p.(queue := [b]), a, now, cached)
  {
    assert p.queue[..|p.queue| - 1] == [b];
  }

  /** A refill with fewer than 500 pending tasks shortens the queue by one; otherwise nothing changes. */
  lemma RefillTakesOne(s: SessionState, now: real, cached: set<string>)
    requires |s.tasksPending| < MaxPendingTasks && |s.queue| > 0
    ensures |AddFromQueueSpec(s, now, cached).queue| == |s.queue| - 1
    ensures AddFromQueueSpec(s, now, cached).queue == s.queue[..|s.queue| - 1]
  {
    var s1 := s.(queue := s.queue[..|s.queue| - 1]);
    assert AddFromQueueSpec(s, now, cached) == AddDataTaskSpec(s1, s.queue[|s.queue| - 1], now, cached);
  }

  /** Completion is signalled only once: a second update changes nothing. */
  lemma ProgressSignalsOnce(s: SessionState)
    ensures UpdateProgressSpec(UpdateProgressSpec(s)) == UpdateProgressSpec(s)
    ensures UpdateProgressSpec(s).events == s.events + [SessionDidComplete]
      <==> |s.urlsInSession| > 0 && NumberRemaining(s) == 0
    ensures UpdateProgressSpec(s).events == s.events <==> !(|s.urlsInSession| > 0 && NumberRemaining(s) == 0)
  {
    if |s.urlsInSession| > 0 && NumberRemaining(s) == 0 {
      assert |UpdateProgressSpec(s).events| == |s.events| + 1;
    }
  }

  /** A URL whose target has a 4xx record gets no task and no delegate call. */
  lemma Dropped4xxGetsNoTask(s: SessionState, url: Url, now: real, cached: set<string>)
    requires |s.tasksPending| < MaxPendingTasks
    requires Previous400(s, CachedRedirectOf(s.redirectCache, url).GetOr(url))
    ensures var r := AddDataTaskSpec(s, url, now, cached);
      r.taskInfo == s.taskInfo && r.tasksPending == s.tasksPending && r.events == s.events && r.queue == s.queue
  {
  }

  /** Adding a URL creates no task, or one new pending task recorded under the URL asked for (not its redirect target). */
  lemma AddCreatesAtMostOneTask(s: SessionState, url: Url, now: real, cached: set<string>)
    ensures var r := AddDataTaskSpec(s, url, now, cached);
      (r.taskInfo == s.taskInfo && r.tasksPending == s.tasksPending && r.nextTaskIdentifier == s.nextTaskIdentifier)
      || (r.taskInfo == s.taskInfo[s.nextTaskIdentifier := url]
          && r.tasksPending == s.tasksPending + {s.nextTaskIdentifier}
          && r.nextTaskIdentifier == s.nextTaskIdentifier + 1)
  {
    if |s.tasksPending| < MaxPendingTasks {
      var urlToUse := UrlToUse(s.redirectCache, url);
      var active := Active429(s.retryAfterResumeDates, urlToUse, now);
      var s1 := s.(retryAfterResumeDates := active.1);
      StartTaskCreatesAtMostOne(s1, url, urlToUse, active.0, cached);
    }
  }

  lemma StartTaskCreatesAtMostOne(s: SessionState, url: Url, urlToUse: Url, dropped: bool, cached: set<string>)
    ensures var r := StartTaskSpec(s, url, urlToUse, dropped, cached);
      (r.taskInfo == s.taskInfo && r.tasksPending == s.tasksPending && r.nextTaskIdentifier == s.nextTaskIdentifier)
      || r == WithNewTask(s, url)
  {
  }

  lemma WithNewTaskPreservesValid(s: SessionState, url: Url)
    requires ValidState(s)
    ensures ValidState(WithNewTask(s, url))
  {
    var r := WithNewTask(s, url);
    assert s.nextTaskIdentifier !in s.tasksInProgress;
    forall t | t in r.taskInfo ensures t < r.nextTaskIdentifier {
      if t != s.nextTaskIdentifier {
        assert t in s.taskInfo;
      }
    }
  }

  lemma StartTaskPreservesValid(s: SessionState, url: Url, urlToUse: Url, dropped: bool, cached: set<string>)
    requires ValidState(s)
    ensures var r := StartTaskSpec(s, url, urlToUse, dropped, cached);
      ValidState(r) && r.nextTaskIdentifier >= s.nextTaskIdentifier && r.tasksInProgress == s.tasksInProgress
      && r.tasksPending <= s.tasksPending + {s.nextTaskIdentifier} && r.taskInfo.Keys <= s.taskInfo.Keys + {s.nextTaskIdentifier}
  {
    if !(dropped || Previous400(s, urlToUse)) && urlToUse.absoluteString !in cached {
      WithNewTaskPreservesValid(s, url);
    }
  }

  lemma AddPreservesValid(s: SessionState, url: Url, now: real, cached: set<string>)
    requires ValidState(s)
    ensures var r := AddDataTaskSpec(s, url, now, cached);
      ValidState(r) && r.nextTaskIdentifier >= s.nextTaskIdentifier && r.tasksInProgress == s.tasksInProgress
      && r.tasksPending <= s.tasksPending + {s.nextTaskIdentifier} && r.taskInfo.Keys <= s.taskInfo.Keys + {s.nextTaskIdentifier}
  {
    if |s.tasksPending| < MaxPendingTasks {
      var urlToUse := UrlToUse(s.redirectCache, url);
      var active := Active429(s.retryAfterResumeDates, urlToUse, now);
      var s1 := s.(retryAfterResumeDates := active.1);
      assert ValidState(s1);
      StartTaskPreservesValid(s1, url, urlToUse, active.0, cached);
    }
  }

  lemma AddFromQueuePreservesValid(s: SessionState, now: real, cached: set<string>)
    requires ValidState(s)
    ensures var r := AddFromQueueSpec(s, now, cached);
      ValidState(r) && r.nextTaskIdentifier >= s.nextTaskIdentifier && r.tasksInProgress == s.tasksInProgress
      && r.tasksPending <= s.tasksPending + {s.nextTaskIdentifier} && r.taskInfo.Keys <= s.taskInfo.Keys + {s.nextTaskIdentifier}
  {
    if |s.tasksPending| < MaxPendingTasks && |s.queue| > 0 {
      AddPreservesValid(s.(queue := s.queue[..|s.queue| - 1]), s.queue[|s.queue| - 1], now, cached);
    }
  }

  lemma UpdateProgressKeepsTasks(s: SessionState)
    ensures var r := UpdateProgressSpec(s);
      r.tasksPending == s.tasksPending && r.tasksInProgress == s.tasksInProgress
      && r.taskInfo == s.taskInfo && r.nextTaskIdentifier == s.nextTaskIdentifier
      && r.queue == s.queue && r.http4xxResponses == s.http4xxResponses
  {
  }

  /**
   * A removed task is neither pending nor in progress afterwards, and its
   * info is gone; the only task that can appear is a new one from the queue.
   */
  lemma RemoveTaskRemoves(s: SessionState, t: nat, now: real, cached: set<string>)
    requires ValidState(s) && t < s.nextTaskIdentifier
    ensures var r := RemoveTaskSpec(s, t, now, cached);
      ValidState(r) && t !in r.tasksPending && t !in r.tasksInProgress && t !in r.taskInfo
      && r.nextTaskIdentifier >= s.nextTaskIdentifier
      && r.tasksInProgress == s.tasksInProgress - {t}
      && r.tasksPending <= (s.tasksPending - {t}) + {s.nextTaskIdentifier}
      && r.taskInfo.Keys <= (s.taskInfo.Keys - {t}) + {s.nextTaskIdentifier}
  {
    var s1 := s.(tasksInProgress := s.tasksInProgress - {t}, tasksPending := s.tasksPending - {t}, taskInfo := s.taskInfo - {t});
    assert ValidState(s1);
    AddFromQueuePreservesValid(s1, now, cached);
    var s2 := AddFromQueueSpec(s1, now, cached);
    assert t !in s2.tasksPending && t !in s2.tasksInProgress && t !in s2.taskInfo;
    UpdateProgressKeepsTasks(s2);
  }

  lemma DidReceiveResponsePreservesValid(s: SessionState, t: nat, statusCode: int, responseURL: Option<Url>, now: real, cached: set<string>)
    requires ValidState(s) && t < s.nextTaskIdentifier
    ensures ValidState(DidReceiveResponseSpec(s, t, statusCode, responseURL, now, cached))
  {
    var s1 := s.(tasksInProgress := s.tasksInProgress + {t}, tasksPending := s.tasksPending - {t});
    assert ValidState(s1);
    if statusCode >= 400 {
      ErrorResponsePreservesValid(s1, t, statusCode, responseURL, now, CachedAfterResponse(cached, statusCode, responseURL));
    } else {
      AddFromQueuePreservesValid(s1, now, cached);
      UpdateProgressPreservesValid(AddFromQueueSpec(s1, now, cached));
    }
  }

  lemma ErrorResponsePreservesValid(s1: SessionState, t: nat, statusCode: int, responseURL: Option<Url>, now: real, cached: set<string>)
    requires ValidState(s1) && t < s1.nextTaskIdentifier
    ensures ValidState(UpdateProgressSpec(ClientErrorSpec(RemoveTaskSpec(s1, t, now, cached), statusCode, responseURL, now)))
  {
    RemoveTaskRemoves(s1, t, now, cached);
    var s3 := ClientErrorSpec(RemoveTaskSpec(s1, t, now, cached), statusCode, responseURL, now);
    assert ValidState(s3);
    UpdateProgressPreservesValid(s3);
  }

  lemma UpdateProgressPreservesValid(s: SessionState)
    requires ValidState(s)
    ensures ValidState(UpdateProgressSpec(s))
  {
    UpdateProgressKeepsTasks(s);
  }

  /** `after` keeps every resume date of `before` not yet passed at `now`, and holds no other. */
  ghost predicate KeepsUnexpired(before: map<string, real>, after: map<string, real>, now: real) {
    (forall h :: h in after ==> h in before && after[h] == before[h])
    && (forall h :: h in before && !(before[h] < now) ==> h in after)
  }

  lemma KeepsUnexpiredTrans(a: map<string, real>, b: map<string, real>, c: map<string, real>, now: real)
    requires KeepsUnexpired(a, b, now) && KeepsUnexpired(b, c, now)
    ensures KeepsUnexpired(a, c, now)
  {
  }

  /** Adding a URL keeps every pending task, every task's info and every resume date not yet passed. */
  lemma AddKeepsOthers(s: SessionState, url: Url, now: real, cached: set<string>)
    ensures var r := AddDataTaskSpec(s, url, now, cached);
      s.tasksPending <= r.tasksPending && s.taskInfo.Keys <= r.taskInfo.Keys && r.tasksInProgress == s.tasksInProgress
      && KeepsUnexpired(s.retryAfterResumeDates, r.retryAfterResumeDates, now)
  {
    if |s.tasksPending| < MaxPendingTasks {
      var urlToUse := UrlToUse(s.redirectCache, url);
      var active := Active429(s.retryAfterResumeDates, urlToUse, now);
      var s1 := s.(retryAfterResumeDates := active.1);
      StartTaskCreatesAtMostOne(s1, url, urlToUse, active.0, cached);
      assert StartTaskSpec(s1, url, urlToUse, active.0, cached).retryAfterResumeDates == active.1;
    }
  }

  /**
   * Removing a task keeps every other pending task and task info and every
   * resume date not yet passed (a refill from the queue may forget passed ones).
   */
  lemma RemoveTaskKeepsOthers(s: SessionState, t: nat, now: real, cached: set<string>)
    ensures var r := RemoveTaskSpec(s, t, now, cached);
      s.tasksPending - {t} <= r.tasksPending && s.taskInfo.Keys - {t} <= r.taskInfo.Keys
      && r.tasksInProgress == s.tasksInProgress - {t}
      && KeepsUnexpired(s.retryAfterResumeDates, r.retryAfterResumeDates, now)
  {
    var s1 := s.(tasksInProgress := s.tasksInProgress - {t}, tasksPending := s.tasksPending - {t}, taskInfo := s.taskInfo - {t});
    if |s1.tasksPending| < MaxPendingTasks && |s1.queue| > 0 {
      AddKeepsOthers(s1.(queue := s1.queue[..|s1.queue| - 1]), s1.queue[|s1.queue| - 1], now, cached);
    }
  }

  /**
   * From `s0` to `s` the tasks `done` were removed one by one: they are gone,
   * every other task of `s0` stays, only new tasks became pending, and the
   * resume dates not yet passed are kept.
   */
  ghost predicate RemovalProgress(s0: SessionState, s: SessionState, done: set<nat>, now: real) {
    ValidState(s) && s.nextTaskIdentifier >= s0.nextTaskIdentifier
    && s.tasksInProgress == s0.tasksInProgress - done
    && s0.tasksPending - done <= s.tasksPending && s0.taskInfo.Keys - done <= s.taskInfo.Keys
    && (forall t :: t in s.tasksPending ==> t in s0.tasksPending || t >= s0.nextTaskIdentifier)
    && (forall t :: t in done ==> t !in s.tasksPending && t !in s.tasksInProgress && t !in s.taskInfo)
    && KeepsUnexpired(s0.retryAfterResumeDates, s.retryAfterResumeDates, now)
  }

  /** The tasks done after one more round of a loop over `remaining`; with nothing remaining, all of them. */
  lemma DoneStep(tasks: set<nat>, remaining: set<nat>, task: nat)
    requires remaining <= tasks
    ensures task in remaining ==> tasks - (remaining - {task}) == (tasks - remaining) + {task}
    ensures remaining == {} ==> tasks - remaining == tasks
  {
  }

  /**
   * One more removal, stated on the states alone: a successor `r` of `s`
   * that drops `t`, keeps everything else of `s` and may add only the next
   * identifier extends the progress by `t`.
   */
  lemma RemovalStepFrom(s0: SessionState, s: SessionState, r: SessionState, done: set<nat>, t: nat, now: real)
    requires RemovalProgress(s0, s, done, now) && t < s0.nextTaskIdentifier
    requires forall u :: u in done ==> u < s0.nextTaskIdentifier
    requires ValidState(r) && t !in r.tasksPending && t !in r.tasksInProgress && t !in r.taskInfo
    requires r.nextTaskIdentifier >= s.nextTaskIdentifier
    requires r.tasksInProgress == s.tasksInProgress - {t}
    requires s.tasksPending - {t} <= r.tasksPending <= (s.tasksPending - {t}) + {s.nextTaskIdentifier}
    requires s.taskInfo.Keys - {t} <= r.taskInfo.Keys <= (s.taskInfo.Keys - {t}) + {s.nextTaskIdentifier}
    requires KeepsUnexpired(s.retryAfterResumeDates, r.retryAfterResumeDates, now)
    ensures RemovalProgress(s0, r, done + {t}, now)
  {
    KeepsUnexpiredTrans(s0.retryAfterResumeDates, s.retryAfterResumeDates, r.retryAfterResumeDates, now);
    forall u | u in done ensures u !in r.tasksPending && u !in r.taskInfo {
      assert u != s.nextTaskIdentifier;
    }
  }

  lemma RemovalStep(s0: SessionState, s: SessionState, done: set<nat>, t: nat, now: real, cached: set<string>)
    requires RemovalProgress(s0, s, done, now) && t < s0.nextTaskIdentifier
    requires forall u :: u in done ==> u < s0.nextTaskIdentifier
    ensures RemovalProgress(s0, RemoveTaskSpec(s, t, now, cached), done + {t}, now)
  {
    RemoveTaskRemoves(s, t, now, cached);
    RemoveTaskKeepsOthers(s, t, now, cached);
    RemovalStepFrom(s0, s, RemoveTaskSpec(s, t, now, cached), done, t, now);
  }

  /** A 4xx response other than 429 is recorded, so the same URL is dropped from then on. */
  lemma ClientErrorIsRecorded(s: SessionState, t: nat, statusCode: int, responseURL: Url, now: real, cached: set<string>)
    requires 400 <= statusCode <= 499 && statusCode != 429
    ensures var r := DidReceiveResponseSpec(s, t, statusCode, Some(responseURL), now, cached);
      responseURL in r.http4xxResponses && r.http4xxResponses[responseURL] == Http4xxResponse(statusCode, now)
      && Previous400(r, responseURL)
  {
  }

  /** `order` lists, without repetition, the elements of `urls` not in `remaining`. */
  predicate Enumerates(order: seq<Url>, remaining: set<Url>, urls: set<Url>) {
    Elems(order) + remaining == urls && Elems(order) * remaining == {}
    && Distinct(order) && |order| + |remaining| == |urls|
  }

  lemma EnumeratesStep(order: seq<Url>, remaining: set<Url>, urls: set<Url>, url: Url)
    requires Enumerates(order, remaining, urls) && url in remaining
    ensures Enumerates(order + [url], remaining - {url}, urls)
  {
    assert url !in order;
    DistinctExtends(order, url);
    assert Elems(order + [url]) == Elems(order) + {url};
  }

  lemma AddAllStep(s: SessionState, order: seq<Url>, url: Url, now: real, cached: set<string>)
    ensures AddAll(s, order + [url], now, cached) == AddDataTaskSpec(AddAll(s, order, now, cached), url, now, cached)
  {
    assert (order + [url])[..|order|] == order;
  }

  lemma {:induction false} AddAllPreservesValid(s: SessionState, order: seq<Url>, now: real, cached: set<string>)
    requires ValidState(s)
    ensures ValidState(AddAll(s, order, now, cached))
    decreases |order|
  {
    if |order| > 0 {
      AddAllPreservesValid(s, order[..|order| - 1], now, cached);
      AddPreservesValid(AddAll(s, order[..|order| - 1], now, cached), order[|order| - 1], now, cached);
    }
  }

  // ---------------------------------------------------------------- tasks of a host

  /**
   * The filter of `cancelAndRemoveTasksWithHost(_:in:)` as written: it keeps
   * every task whose lowercased host contains the lowercased `host` and
   * selects all the others. `hostOf` gives each task's lowercased request host.
   */
  function TasksToRemoveAsWritten(tasks: set<nat>, hostOf: map<nat, string>, host: string): (r: set<nat>)
    ensures forall t :: t in r <==> t in tasks && !(t in hostOf && Contains(hostOf[t], LowerStr(host)))
  {
    set t | t in tasks && !(t in hostOf && Contains(hostOf[t], LowerStr(host)))
  }

  /** As written, a 429 from one host cancels every other host's tasks and spares the host's own. */
  lemma TasksToRemoveAsWrittenSparesTheHost()
    ensures TasksToRemoveAsWritten({0, 1}, map[0 := "openrss.org", 1 := "b.com"], "openrss.org") == {1}
  {
    var host := "openrss.org";
    LowerStrOfLower(host);
    assert HasPrefix(host, host);
    if Contains("b.com", host) {
      var i := ContainsWitness("b.com", host);
    }
  }

  /** Every task of the host that answered 429: these are to be cancelled. */
  function TasksToRemove(tasks: set<nat>, hostOf: map<nat, string>, host: string): (r: set<nat>)
    ensures forall t :: t in r <==> t in tasks && t in hostOf && Contains(hostOf[t], LowerStr(host))
  {
    set t | t in tasks && t in hostOf && Contains(hostOf[t], LowerStr(host))
  }

  /** The filter as written selects exactly the complement of the intended one. */
  lemma AsWrittenIsComplement(tasks: set<nat>, hostOf: map<nat, string>, host: string)
    ensures TasksToRemoveAsWritten(tasks, hostOf, host) == tasks - TasksToRemove(tasks, hostOf, host)
    ensures TasksToRemoveAsWritten(tasks, hostOf, host) * TasksToRemove(tasks, hostOf, host) == {}
  {
  }

  /**
   * From `s` to `r`, every task of `host` pending or in progress in `s` is
   * gone, and every other task of `s` stays where it was.
   */
  ghost predicate RemovedHostTasks(s: SessionState, r: SessionState, hostOf: map<nat, string>, host: string) {
    var inProgress := TasksToRemove(s.tasksInProgress, hostOf, host);
    var pending := TasksToRemove(s.tasksPending, hostOf, host);
    (forall t :: t in inProgress + pending ==> t !in r.tasksInProgress && t !in r.tasksPending)
    && r.tasksInProgress == s.tasksInProgress - inProgress
    && s.tasksPending - pending <= r.tasksPending
  }

  /**
   * From `s` to `r`, a 429 `message` was handled: its resume date is recorded
   * for its host (kept, with every other date not yet passed, while the
   * host's tasks are removed) and the host's tasks are cancelled.
   */
  ghost predicate Handled429(s: SessionState, r: SessionState, message: RetryAfterMessage, hostOf: map<nat, string>, now: real) {
    KeepsUnexpired(s.retryAfterResumeDates[message.host := message.resumeDate], r.retryAfterResumeDates, now)
    && RemovedHostTasks(s, r, hostOf, message.host)
  }

  /** A handled message whose resume date has not passed is on record for its host. */
  lemma Handled429Records(s: SessionState, r: SessionState, message: RetryAfterMessage, hostOf: map<nat, string>, now: real)
    requires Handled429(s, r, message, hostOf, now) && !(message.resumeDate < now)
    ensures message.host in r.retryAfterResumeDates && r.retryAfterResumeDates[message.host] == message.resumeDate
  {
    assert message.host in s.retryAfterResumeDates[message.host := message.resumeDate];
  }

  // ---------------------------------------------------------------- the session

  class Session {
    var redirectCache: map<Url, Url>
    var http4xxResponses: map<Url, Http4xxResponse>
    var retryAfterResumeDates: map<string, real>
    var queue: seq<Url>
    var tasksPending: set<nat>
    var tasksInProgress: set<nat>
    var taskInfo: map<nat, Url>
    var nextTaskIdentifier: nat
    var urlsInSession: set<Url>
    /** Stored in the user defaults; distant past when never set. */
    var lastOpenRSSOrgFeedRefresh: real
    var events: seq<Event>

    ghost function State(): SessionState
      reads this
    {
      SessionState(redirectCache, http4xxResponses, retryAfterResumeDates, queue, tasksPending,
        tasksInProgress, taskInfo, nextTaskIdentifier, urlsInSession, lastOpenRSSOrgFeedRefresh, events)
    }

    ghost predicate Valid()
      reads this
    {
      ValidState(State())
    }

    constructor (lastOpenRSSOrgFeedRefresh: real)
      ensures State() == SessionState(map[], map[], map[], [], {}, {}, map[], 0, {}, lastOpenRSSOrgFeedRefresh, [])
      ensures Valid()
    {
      redirectCache := map[];
      http4xxResponses := map[];
      retryAfterResumeDates := map[];
      queue := [];
      tasksPending := {};
      tasksInProgress := {};
      taskInfo := map[];
      nextTaskIdentifier := 0;
      urlsInSession := {};
      this.lastOpenRSSOrgFeedRefresh := lastOpenRSSOrgFeedRefresh;
      events := [];
    }

    /** `cacheRedirect`, called when a permanent or temporary redirect is followed. */
    method CacheRedirect(oldURL: Url, newURL: Url)
      modifies this
      ensures State() == old(State()).(redirectCache := WithRedirect(old(redirectCache), oldURL, newURL))
    {
      var blacklisted := UrlStringIsBlackListedRedirect(newURL.absoluteString);
      if blacklisted {
        return;
      }
      redirectCache := redirectCache[oldURL := newURL];
    }

    /** `requestShouldBeDroppedDueToPrevious400`: the URL or its resolved redirect has a 4xx record. */
    method RequestShouldBeDroppedDueToPrevious400(url: Url) returns (b: bool)
      ensures b <==> (url in http4xxResponses
        || (CachedRedirectOf(redirectCache, url).Some? && CachedRedirectOf(redirectCache, url).value in http4xxResponses))
    {
      if url in http4xxResponses {
        return true;
      }
      var redirectedURL := CachedRedirect(redirectCache, url);
      if redirectedURL.Some? && redirectedURL.value in http4xxResponses {
        return true;
      }
      return false;
    }

    /** `requestShouldBeDroppedDueToActive429`. */
    method RequestShouldBeDroppedDueToActive429(url: Url, now: real) returns (b: bool)
      modifies this
      ensures b == Active429(old(retryAfterResumeDates), url, now).0
      ensures State() == old(State()).(retryAfterResumeDates := Active429(old(retryAfterResumeDates), url, now).1)
    {
      if url.host.None? {
        return false;
      }
      var host := url.host.value;
      if host !in retryAfterResumeDates {
        return false;
      }
      if retryAfterResumeDates[host] < now {
        retryAfterResumeDates := retryAfterResumeDates - {host};
        return false;
      }
      return true;
    }

    /** `cleanUp4xxResponsesCache`: removes, one key at a time, the records older than 53 hours. */
    method CleanUp4xxResponsesCache(now: real)
      modifies this
      ensures State() == old(State()).(http4xxResponses := Fresh4xxResponses(old(http4xxResponses), now))
    {
      var oldDate := now - Http4xxLifetime;
      ghost var h0 := http4xxResponses;
      var keys := http4xxResponses.Keys;
      while keys != {}
        invariant keys <= h0.Keys
        invariant forall u :: u in http4xxResponses <==> u in h0 && (u in keys || h0[u].date >= oldDate)
        invariant forall u :: u in http4xxResponses ==> http4xxResponses[u] == h0[u]
        invariant State() == old(State()).(http4xxResponses := http4xxResponses)
        decreases |keys|
      {
        var url :| url in keys;
        if url in http4xxResponses {
          var response := http4xxResponses[url];
          if response.date < oldDate {
            http4xxResponses := http4xxResponses - {url};
          }
        }
        keys := keys - {url};
      }
      assert http4xxResponses == Fresh4xxResponses(h0, now);
    }

    /** `addDataTask`. */
    method AddDataTask(url: Url, now: real, cached: set<string>)
      modifies this
      ensures State() == AddDataTaskSpec(old(State()), url, now, cached)
    {
      if |tasksPending| >= MaxPendingTasks {
        queue := [url] + queue;
        return;
      }
      var redirect := CachedRedirect(redirectCache, url);
      var urlToUse := redirect.GetOr(url);
      assert urlToUse == UrlToUse(redirectCache, url);
      var active := RequestShouldBeDroppedDueToActive429(urlToUse, now);
      StartTask(url, urlToUse, active, cached);
    }

    /** The rest of `addDataTask`, once the 429 check is made. */
    method StartTask(url: Url, urlToUse: Url, dropped: bool, cached: set<string>)
      modifies this
      ensures State() == StartTaskSpec(old(State()), url, urlToUse, dropped, cached)
    {
      if dropped {
        return;
      }
      var previous := RequestShouldBeDroppedDueToPrevious400(urlToUse);
      if previous {
        return;
      }
      if urlToUse.absoluteString in cached {
        events := events + [DownloadDidComplete(url)];
        return;
      }
      var task := nextTaskIdentifier;
      nextTaskIdentifier := nextTaskIdentifier + 1;
      taskInfo := taskInfo[task := url];
      tasksPending := tasksPending + {task};
    }

    /** `addDataTaskFromQueueIfNecessary`. */
    method AddDataTaskFromQueueIfNecessary(now: real, cached: set<string>)
      modifies this
      ensures State() == AddFromQueueSpec(old(State()), now, cached)
    {
      if |tasksPending| >= MaxPendingTasks || |queue| == 0 {
        return;
      }
      var url := queue[|queue| - 1];
      queue := queue[..|queue| - 1];
      AddDataTask(url, now, cached);
    }

    /** `updateDownloadProgress`. */
    method UpdateDownloadProgress()
      modifies this
      ensures State() == UpdateProgressSpec(old(State()))
    {
      var numberRemaining := |tasksPending| + |tasksInProgress| + |queue|;
      if |urlsInSession| > 0 && numberRemaining < 1 {
        urlsInSession := {};
        events := events + [SessionDidComplete];
      }
    }

    /** `removeTask`. */
    method RemoveTask(task: nat, now: real, cached: set<string>)
      modifies this
      ensures State() == RemoveTaskSpec(old(State()), task, now, cached)
    {
      ghost var s0 := State();
      tasksInProgress := tasksInProgress - {task};
      tasksPending := tasksPending - {task};
      taskInfo := taskInfo - {task};
      ghost var s1 := State();
      assert s1 == s0.(tasksInProgress := s0.tasksInProgress - {task}, tasksPending := s0.tasksPending - {task},
                       taskInfo := s0.taskInfo - {task});
      AddDataTaskFromQueueIfNecessary(now, cached);
      UpdateDownloadProgress();
    }

    /**
     * The bookkeeping of the response callback. `message` is what
     * `createHTTPResponse429` builds from a 429 response (nil without a
     * usable `Retry-After`); `hostOf` gives each task's lowercased request
     * host; `cachedAfter` is the download cache once a 400+ response other
     * than 429 is stored in it. The progress update is deferred to the end.
     */
    method DidReceiveResponse(task: nat, statusCode: int, responseURL: Option<Url>, message: Option<RetryAfterMessage>,
                              hostOf: map<nat, string>, now: real, cached: set<string>) returns (cachedAfter: set<string>)
      requires Valid() && task < nextTaskIdentifier
      modifies this
      ensures cachedAfter == CachedAfterResponse(cached, statusCode, responseURL)
      ensures !(statusCode == 429 && message.Some?) ==>
        State() == DidReceiveResponseSpec(old(State()), task, statusCode, responseURL, now, cached)
      ensures statusCode == 429 && message.Some? ==>
        var mid := ErrorRemovalSpec(old(State()), task, statusCode, responseURL, now, cached);
        Handled429(mid, State(), message.value, hostOf, now)
      ensures Valid()
    {
      ghost var s0 := State();
      cachedAfter := cached;
      if statusCode >= 400 {
        if statusCode != 429 && responseURL.Some? {
          cachedAfter := cached + {responseURL.value.absoluteString};
        }
        HandleErrorResponse(task, statusCode, responseURL, message, hostOf, now, cached, cachedAfter);
      } else {
        DidReceiveResponsePreservesValid(s0, task, statusCode, responseURL, now, cached);
        tasksInProgress := tasksInProgress + {task};
        tasksPending := tasksPending - {task};
        ghost var s1 := State();
        assert s1 == s0.(tasksInProgress := s0.tasksInProgress + {task}, tasksPending := s0.tasksPending - {task});
        AddDataTaskFromQueueIfNecessary(now, cached);
      }
      ghost var s2 := State();
      UpdateProgressPreservesValid(s2);
      UpdateDownloadProgress();
    }

    /** The 400+ branch of the response callback, short of the deferred progress update. */
    method HandleErrorResponse(task: nat, statusCode: int, responseURL: Option<Url>, message: Option<RetryAfterMessage>,
                               hostOf: map<nat, string>, now: real, cached: set<string>, cachedAfter: set<string>)
      requires Valid() && task < nextTaskIdentifier && statusCode >= 400
      requires cachedAfter == CachedAfterResponse(cached, statusCode, responseURL)
      modifies this
      ensures !(statusCode == 429 && message.Some?) ==>
        State() == ClientErrorSpec(ErrorRemovalSpec(old(State()), task, statusCode, responseURL, now, cached), statusCode, responseURL, now)
      ensures statusCode == 429 && message.Some? ==>
        Handled429(ErrorRemovalSpec(old(State()), task, statusCode, responseURL, now, cached), State(), message.value, hostOf, now)
      ensures Valid()
    {
      RemoveErroredTask(task, statusCode, responseURL, now, cached, cachedAfter);
      if statusCode == 429 {
        if message.Some? {
          Handle429Response(message.value.host, message.value.resumeDate, hostOf, now, cachedAfter);
        }
      } else if 400 <= statusCode <= 499 && responseURL.Some? {
        http4xxResponses := http4xxResponses[responseURL.value := Http4xxResponse(statusCode, now)];
      }
    }

    /**
     * The bookkeeping of the completion callback. `requestURL` is the URL of
     * the data task's original request and `failed` says whether it
     * completed with an error. A known task that completed without an error
     * has its response cached, and the deferred removal, with its queue
     * refill, sees that cache, which is returned as `cachedAfter`.
     */
    method DidComplete(task: nat, requestURL: Option<Url>, failed: bool, now: real, cached: set<string>)
      returns (cachedAfter: set<string>)
      requires Valid() && task < nextTaskIdentifier
      modifies this
      ensures cachedAfter == CachedAfterCompletion(cached, task in old(taskInfo), requestURL, failed)
      ensures State() == DidCompleteSpec(old(State()), task, now, cachedAfter)
      ensures Valid()
    {
      cachedAfter := cached;
      if task in taskInfo {
        if requestURL.Some? && !failed {
          cachedAfter := cached + {requestURL.value.absoluteString};
        }
        events := events + [DownloadDidComplete(taskInfo[task])];
      }
      RemoveTaskRemoves(State(), task, now, cachedAfter);
      RemoveTask(task, now, cachedAfter);
    }

    /** A task that received a 400+ response moves to in progress, then is removed with the response cached. */
    method RemoveErroredTask(task: nat, statusCode: int, responseURL: Option<Url>, now: real, cached: set<string>, cachedAfter: set<string>)
      requires Valid() && task < nextTaskIdentifier
      requires cachedAfter == CachedAfterResponse(cached, statusCode, responseURL)
      modifies this
      ensures State() == ErrorRemovalSpec(old(State()), task, statusCode, responseURL, now, cached)
      ensures Valid()
    {
      ghost var s0 := State();
      tasksInProgress := tasksInProgress + {task};
      tasksPending := tasksPending - {task};
      ghost var s1 := State();
      assert s1 == s0.(tasksInProgress := s0.tasksInProgress + {task}, tasksPending := s0.tasksPending - {task});
      assert ValidState(s1);
      RemoveTaskRemoves(s1, task, now, cachedAfter);
      RemoveTask(task, now, cachedAfter);
    }

    /**
     * The bookkeeping of the data callback: `shouldContinue` is the
     * delegate's answer for the data that data task has received so far. A known
     * task it rejects is cancelled and removed; an unknown task is ignored.
     */
    method DidReceiveData(task: nat, shouldContinue: bool, now: real, cached: set<string>)
      requires Valid()
      modifies this
      ensures task in old(taskInfo) && !shouldContinue ==> State() == RemoveTaskSpec(old(State()), task, now, cached)
      ensures !(task in old(taskInfo) && !shouldContinue) ==> State() == old(State())
      ensures Valid()
    {
      if task !in taskInfo {
        return;
      }
      if !shouldContinue {
        RemoveTaskRemoves(State(), task, now, cached);
        RemoveTask(task, now, cached);
      }
    }

    /** `removeTask` for each of `tasks`, in the set's iteration order. */
    method RemoveTasks(tasks: set<nat>, now: real, cached: set<string>)
      requires Valid() && forall t :: t in tasks ==> t < nextTaskIdentifier
      modifies this
      ensures Valid() && RemovalProgress(old(State()), State(), tasks, now)
    {
      var remaining := tasks;
      ghost var s0 := State();
      while remaining != {}
        invariant remaining <= tasks && RemovalProgress(s0, State(), tasks - remaining, now)
        invariant forall t :: t in tasks ==> t < s0.nextTaskIdentifier
        decreases |remaining|
      {
        var task :| task in remaining;
        RemoveOneOf(s0, tasks - remaining, task, now, cached);
        DoneStep(tasks, remaining, task);
        remaining := remaining - {task};
      }
      DoneStep(tasks, remaining, 0);
    }

    /** One round of the loop of `RemoveTasks`. */
    method RemoveOneOf(ghost s0: SessionState, ghost done: set<nat>, task: nat, now: real, cached: set<string>)
      requires RemovalProgress(s0, State(), done, now) && task < s0.nextTaskIdentifier
      requires forall u :: u in done ==> u < s0.nextTaskIdentifier
      modifies this
      ensures RemovalProgress(s0, State(), done + {task}, now)
    {
      RemovalStep(s0, State(), done, task, now, cached);
      RemoveTask(task, now, cached);
    }

    /** `cancelAndRemoveTasksWithHost`, with the filter selecting the host's own tasks. */
    method CancelAndRemoveTasksWithHost(host: string, hostOf: map<nat, string>, now: real, cached: set<string>)
      requires Valid()
      modifies this
      ensures Valid()
      ensures RemovedHostTasks(old(State()), State(), hostOf, host)
      ensures KeepsUnexpired(old(retryAfterResumeDates), retryAfterResumeDates, now)
    {
      ghost var s0 := State();
      var inProgress := TasksToRemove(tasksInProgress, hostOf, host);
      RemoveTasks(inProgress, now, cached);
      ghost var s1 := State();
      var pending := TasksToRemove(tasksPending, hostOf, host);
      RemoveTasks(pending, now, cached);
      KeepsUnexpiredTrans(s0.retryAfterResumeDates, s1.retryAfterResumeDates, retryAfterResumeDates, now);
    }

    /** `handle429Response`, given the `Retry-After` message built from the response. */
    method Handle429Response(host: string, resumeDate: real, hostOf: map<nat, string>, now: real, cached: set<string>)
      requires Valid()
      modifies this
      ensures Valid()
      ensures Handled429(old(State()), State(), RetryAfterMessage(host, resumeDate), hostOf, now)
    {
      retryAfterResumeDates := retryAfterResumeDates[host := resumeDate];
      CancelAndRemoveTasksWithHost(host, hostOf, now, cached);
    }

    /** `filteredURLs`, which also stamps the openrss.org refresh date when it lets one through. */
    method FilteredURLs(urls: set<Url>, now: real) returns (filtered: set<Url>)
      modifies this
      ensures FilteredFrom(urls, filtered, now > old(lastOpenRSSOrgFeedRefresh) + OpenRSSOrgInterval)
      ensures State() == old(State()).(lastOpenRSSOrgFeedRefresh :=
        if now > old(lastOpenRSSOrgFeedRefresh) + OpenRSSOrgInterval then now else old(lastOpenRSSOrgFeedRefresh))
    {
      if now > lastOpenRSSOrgFeedRefresh + OpenRSSOrgInterval {
        lastOpenRSSOrgFeedRefresh := now;
        filtered := ByRemovingAllButOneRandomOpenRSSOrgURL(urls);
      } else {
        filtered := ByRemovingOpenRSSOrgURLs(urls);
      }
    }

    /**
     * `download`: forgets old 4xx records, filters the URLs, adds a task
     * for each in the set's iteration order, and starts the session.
     */
    method Download(urls: set<Url>, now: real, cached: set<string>) returns (ghost filtered: set<Url>, ghost order: seq<Url>)
      requires Valid()
      modifies this
      ensures Valid()
      ensures FilteredFrom(urls, filtered, now > old(lastOpenRSSOrgFeedRefresh) + OpenRSSOrgInterval)
      ensures |order| == |filtered| && Elems(order) == filtered && Distinct(order)
      ensures var canDownload := now > old(lastOpenRSSOrgFeedRefresh) + OpenRSSOrgInterval;
        var s1 := old(State()).(http4xxResponses := Fresh4xxResponses(old(http4xxResponses), now),
                                lastOpenRSSOrgFeedRefresh := if canDownload then now else old(lastOpenRSSOrgFeedRefresh));
        State() == UpdateProgressSpec(AddAll(s1, order, now, cached).(urlsInSession := filtered))
    {
      ghost var s0 := State();
      CleanUp4xxResponsesCache(now);
      assert lastOpenRSSOrgFeedRefresh == s0.lastOpenRSSOrgFeedRefresh;
      var filteredURLs := FilteredURLs(urls, now);
      filtered := filteredURLs;
      ghost var s1 := State();
      assert s1 == s0.(http4xxResponses := Fresh4xxResponses(s0.http4xxResponses, now),
                       lastOpenRSSOrgFeedRefresh := if now > s0.lastOpenRSSOrgFeedRefresh + OpenRSSOrgInterval then now
                                                    else s0.lastOpenRSSOrgFeedRefresh);
      assert ValidState(s1);
      order := AddDataTasks(filteredURLs, now, cached);
      AddAllPreservesValid(s1, order, now, cached);
      ghost var s2 := State();
      urlsInSession := filteredURLs;
      ghost var s3 := State();
      assert s3 == AddAll(s1, order, now, cached).(urlsInSession := filtered);
      UpdateDownloadProgress();
      assert State() == UpdateProgressSpec(s3);
    }

    /** The loop of `download`: one `addDataTask` per URL, in the set's iteration order. */
    method AddDataTasks(urls: set<Url>, now: real, cached: set<string>) returns (ghost order: seq<Url>)
      modifies this
      ensures |order| == |urls| && Elems(order) == urls && Distinct(order)
      ensures State() == AddAll(old(State()), order, now, cached)
    {
      ghost var s0 := State();
      var remaining := urls;
      order := [];
      while remaining != {}
        invariant Enumerates(order, remaining, urls)
        invariant State() == AddAll(s0, order, now, cached)
        decreases |remaining|
      {
        var url :| url in remaining;
        AddDataTask(url, now, cached);
        AddAllStep(s0, order, url, now, cached);
        EnumeratesStep(order, remaining, urls, url);
        order := order + [url];
        remaining := remaining - {url};
      }
    }
  }
}
