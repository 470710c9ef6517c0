/**
 * The part of `Cache-Control` handling the refresher needs: the positive
 * `max-age` of a response (section 14.9.3 of RFC 2616) and the moment a
 * new request may be made. Dates and intervals are seconds as `real`;
 * `parse` stands for Foundation's `TimeInterval(String)`.
 */
module CacheControl {
  import opened Wrappers
  import opened Text

  datatype CacheControlInfo = CacheControlInfo(dateCreated: real, maxAge: real)

  const MaxAgePrefix: string := "max-age="

  /** `resumeDate`: the creation date plus `max-age`. */
  function ResumeDate(info: CacheControlInfo): real {
    info.dateCreated + info.maxAge
  }

  /** `canResume`: `now` has reached the resume date. */
  predicate CanResume(info: CacheControlInfo, now: real) {
    now >= ResumeDate(info)
  }

  /** A component that starts with `max-age=` followed by a positive number. */
  predicate Qualifies(c: string, parse: string -> Option<real>) {
    HasPrefix(c, MaxAgePrefix) && parse(c[|MaxAgePrefix|..]).Some? && parse(c[|MaxAgePrefix|..]).value > 0.0
  }

  /** The header value split on `,`, each component trimmed of spaces and tabs. */
  function TrimmedComponents(s: string): (r: seq<string>)
    ensures |r| == |Split(s, ',')|
    ensures forall i :: 0 <= i < |r| ==> r[i] == TrimSpaces(Split(s, ',')[i])
  {
    var parts := Split(s, ',');
    seq(|parts|, i requires 0 <= i < |parts| => TrimSpaces(parts[i]))
  }

  /** The value of the first qualifying component. */
  function FirstMaxAge(comps: seq<string>, parse: string -> Option<real>): (r: Option<real>)
    ensures r.Some? ==> r.value > 0.0
    decreases |comps|
  {
    if |comps| == 0 then None
    else if Qualifies(comps[0], parse) then parse(comps[0][|MaxAgePrefix|..])
    else FirstMaxAge(comps[1..], parse)
  }

  /**
   * `FirstMaxAge` finds a value iff some component qualifies, and then it is
   * the value of the first such component.
   */
  lemma {:induction false} FirstMaxAgeIsFirst(comps: seq<string>, parse: string -> Option<real>)
    ensures FirstMaxAge(comps, parse).Some? <==> exists k :: 0 <= k < |comps| && Qualifies(comps[k], parse)
    ensures FirstMaxAge(comps, parse).Some? ==>
      exists k :: (0 <= k < |comps| && Qualifies(comps[k], parse)
        && FirstMaxAge(comps, parse) == parse(comps[k][|MaxAgePrefix|..])
        && forall j :: 0 <= j < k ==> !Qualifies(comps[j], parse))
    decreases |comps|
  {
    if |comps| > 0 && !Qualifies(comps[0], parse) {
      var rest := comps[1..];
      FirstMaxAgeIsFirst(rest, parse);
      if FirstMaxAge(rest, parse).Some? {
        var k :| 0 <= k < |rest| && Qualifies(rest[k], parse) && FirstMaxAge(rest, parse) == parse(rest[k][|MaxAgePrefix|..])
          && forall j :: 0 <= j < k ==> !Qualifies(rest[j], parse);
        assert comps[k + 1] == rest[k];
        forall j | 0 <= j < k + 1 ensures !Qualifies(comps[j], parse) {
          if j > 0 {
            assert comps[j] == rest[j - 1];
          }
        }
      } else {
        forall k | 0 <= k < |comps| ensures !Qualifies(comps[k], parse) {
          if k > 0 {
            assert comps[k] == rest[k - 1];
          }
        }
      }
    }
  }

  /** `parseMaxAge`: scans the trimmed components and returns at the first positive `max-age`. */
  method ParseMaxAge(s: string, parse: string -> Option<real>) returns (r: Option<real>)
    ensures r == FirstMaxAge(TrimmedComponents(s), parse)
  {
    var components := TrimmedComponents(s);
    var i := 0;
    while i < |components|
      invariant 0 <= i <= |components|
      invariant FirstMaxAge(components[i..], parse) == FirstMaxAge(components, parse)
    {
      var component := components[i];
      assert components[i..][0] == component;
      if HasPrefix(component, MaxAgePrefix) {
        var timeInterval := parse(component[|MaxAgePrefix|..]);
        if timeInterval.Some? && timeInterval.value > 0.0 {
          return timeInterval;
        }
      }
      assert components[i..][1..] == components[i + 1..];
      i := i + 1;
    }
    return None;
  }

  /** A component that does not qualify (`max-age=0`, a negative or non-numeric value, another directive) is skipped. */
  lemma SkipsUnqualified(c: string, rest: seq<string>, parse: string -> Option<real>)
    requires !Qualifies(c, parse)
    ensures FirstMaxAge([c] + rest, parse) == FirstMaxAge(rest, parse)
  {
    assert ([c] + rest)[1..] == rest;
  }

  /** `init?(value:)`, created at `now`: nil exactly when no positive `max-age` is present. */
  function FromValue(value: string, now: real, parse: string -> Option<real>): (r: Option<CacheControlInfo>)
    ensures r.None? <==> FirstMaxAge(TrimmedComponents(value), parse).None?
    ensures r.Some? ==> r.value.dateCreated == now && r.value.maxAge > 0.0
    ensures r.Some? ==> Some(r.value.maxAge) == FirstMaxAge(TrimmedComponents(value), parse)
  {
    var maxAge := FirstMaxAge(TrimmedComponents(value), parse);
    if maxAge.None? then None else Some(CacheControlInfo(now, maxAge.value))
  }

  /** `init?(urlResponse:)`: nil without a `Cache-Control` header. */
  function FromResponse(cacheControlHeader: Option<string>, now: real, parse: string -> Option<real>): (r: Option<CacheControlInfo>)
    ensures cacheControlHeader.None? ==> r.None?
    ensures cacheControlHeader.Some? ==> r == FromValue(cacheControlHeader.value, now, parse)
  {
    if cacheControlHeader.None? then None else FromValue(cacheControlHeader.value, now, parse)
  }

  /** A fresh record cannot resume at once, and can from `max-age` seconds later on. */
  lemma ResumeAfterMaxAge(value: string, now: real, later: real, parse: string -> Option<real>)
    requires FromValue(value, now, parse).Some?
    ensures !CanResume(FromValue(value, now, parse).value, now)
    ensures CanResume(FromValue(value, now, parse).value, later) <==> later >= now + FromValue(value, now, parse).value.maxAge
  {
  }

  /** Once a record can resume, it can at every later moment. */
  lemma CanResumeMonotone(info: CacheControlInfo, now: real, later: real)
    requires CanResume(info, now) && now <= later
    ensures CanResume(info, later)
  {
  }
}
