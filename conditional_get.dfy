/**
 * `HTTPConditionalGetInfo`: the `Last-Modified` and `ETag` validators of a
 * response, sent back as `If-Modified-Since` and `If-None-Match` (sections
 * 14.25 and 14.26 of RFC 2616).
 */
module ConditionalGet {
  import opened Wrappers
  import opened Text

  datatype ConditionalGetInfo = ConditionalGetInfo(lastModified: Option<string>, etag: Option<string>)

  /** A value of an untyped header dictionary: a string or something else. */
  datatype HeaderValue = StringValue(s: string) | OtherValue

  datatype Header = Header(name: string, value: string)

  const LastModified: string := "Last-Modified"
  const ETag: string := "ETag"
  const IfModifiedSince: string := "If-Modified-Since"
  const IfNoneMatch: string := "If-None-Match"

  /** `init?(lastModified:etag:)`: nil iff both validators are missing; otherwise both are kept as given. */
  function Create(lastModified: Option<string>, etag: Option<string>): (r: Option<ConditionalGetInfo>)
    ensures r.None? <==> lastModified.None? && etag.None?
    ensures r.Some? ==> r.value.lastModified == lastModified && r.value.etag == etag
  {
    if lastModified.None? && etag.None? then None else Some(ConditionalGetInfo(lastModified, etag))
  }

  /** Every stored record has at least one validator. */
  predicate Valid(info: ConditionalGetInfo) {
    info.lastModified.Some? || info.etag.Some?
  }

  /** `init?(urlResponse:)`; `header` stands for `valueForHTTPHeaderField`. */
  function FromResponse(header: string -> Option<string>): (r: Option<ConditionalGetInfo>)
    ensures r == Create(header(LastModified), header(ETag))
    ensures r.Some? ==> Valid(r.value)
  {
    Create(header(LastModified), header(ETag))
  }

  function StringAt(headers: map<string, HeaderValue>, key: string): (r: Option<string>)
    ensures r.Some? <==> key in headers && headers[key].StringValue?
  {
    if key in headers && headers[key].StringValue? then Some(headers[key].s) else None
  }

  /** `init?(headers:)`: a value that is not a string counts as missing (`as? String`). */
  function FromHeaders(headers: map<string, HeaderValue>): (r: Option<ConditionalGetInfo>)
    ensures r == Create(StringAt(headers, LastModified), StringAt(headers, ETag))
    ensures r.None? <==> !(LastModified in headers && headers[LastModified].StringValue?)
                         && !(ETag in headers && headers[ETag].StringValue?)
  {
    Create(StringAt(headers, LastModified), StringAt(headers, ETag))
  }

  /** The record rebuilt from the headers it would be read from is itself. */
  lemma FromHeadersRoundTrip(info: ConditionalGetInfo)
    requires Valid(info)
    ensures var h := map[] + (if info.lastModified.Some? then map[LastModified := StringValue(info.lastModified.value)] else map[])
                           + (if info.etag.Some? then map[ETag := StringValue(info.etag.value)] else map[]);
      FromHeaders(h) == Some(info)
  {
  }

  /** The validators `addRequestHeadersToURLRequest` sends: a 2038 date is left out. */
  function AddedHeaders(info: ConditionalGetInfo): (added: seq<Header>)
    ensures (exists v :: Header(IfModifiedSince, v) in added)
      <==> info.lastModified.Some? && !Contains(info.lastModified.value, "2038")
    ensures forall v :: Header(IfModifiedSince, v) in added ==> info.lastModified == Some(v)
    ensures (exists v :: Header(IfNoneMatch, v) in added) <==> info.etag.Some?
    ensures forall v :: Header(IfNoneMatch, v) in added ==> info.etag == Some(v)
    ensures forall h :: h in added ==> h.name == IfModifiedSince || h.name == IfNoneMatch
  {
    var withDate := if info.lastModified.Some? && !Contains(info.lastModified.value, "2038")
      then [Header(IfModifiedSince, info.lastModified.value)] else [];
    var withTag := if info.etag.Some? then [Header(IfNoneMatch, info.etag.value)] else [];
    assert forall h :: h in withDate + withTag <==> h in withDate || h in withTag;
    if withDate != [] then
      assert Header(IfModifiedSince, info.lastModified.value) in withDate + withTag;
      if withTag != [] then
        assert Header(IfNoneMatch, info.etag.value) in withDate + withTag;
        withDate + withTag
      else
        withDate + withTag
    else if withTag != [] then
      assert Header(IfNoneMatch, info.etag.value) in withDate + withTag;
      withDate + withTag
    else
      withDate + withTag
  }

  /** `addRequestHeadersToURLRequest`: the request's headers, then the added validators. */
  function AddRequestHeaders(info: ConditionalGetInfo, request: seq<Header>): (r: seq<Header>)
    ensures |r| >= |request| && r[..|request|] == request
    ensures r[|request|..] == AddedHeaders(info)
  {
    var r := request + AddedHeaders(info);
    assert r[|request|..] == AddedHeaders(info);
    r
  }
}
