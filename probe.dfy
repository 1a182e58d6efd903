/**
  Interpreting the answer to the HEAD probe: the `HTTPURLResponse` readers
  `rangeSupported` (Accept-Ranges, section 2.3 of RFC 7233) and
  `contentLength` (Content-Length, section 3.3.2 of RFC 7230), and the guard
  chain of `start`, which turns a probe result into exactly one outcome.
*/
module Probe {
  import opened Base
  import opened Decimal
  import opened Errors

  /** A value of `allHeaderFields`, which holds `Any`: a `String` or something else. */
  datatype HeaderValue = Text(s: string) | NonText

  /** A response to the probe, reduced to its header fields (looked up by exact key). */
  datatype HttpResponse = HttpResponse(allHeaderFields: map<string, HeaderValue>)

  const AcceptRangesField: string := "Accept-Ranges"
  const ContentLengthField: string := "Content-Length"

  /** `allHeaderFields[name] as? String`. */
  function HeaderString(response: HttpResponse, name: string): Option<string>
  {
    if name in response.allHeaderFields && response.allHeaderFields[name].Text?
    then Some(response.allHeaderFields[name].s)
    else None
  }

  function LowerAscii(c: char): char
  {
    if 'A' <= c <= 'Z' then (c as int + 32) as char else c
  }

  function Lowercased(s: string): string
  {
    seq(|s|, i requires 0 <= i < |s| => LowerAscii(s[i]))
  }

  /** `rangeSupported`: the Accept-Ranges field is a string that lowercases to `bytes`. */
  function RangeSupported(response: HttpResponse): (supported: bool)
    ensures supported ==> HeaderString(response, AcceptRangesField).Some?
    ensures supported ==> |HeaderString(response, AcceptRangesField).value| == 5
  {
    match HeaderString(response, AcceptRangesField)
    case None => false
    case Some(v) => Lowercased(v) == "bytes"
  }

  /**
    Ranges count as supported exactly when Accept-Ranges is present as a
    string and spells `bytes` in any mix of upper and lower case; an absent
    field means unsupported.
  */
  lemma RangeSupportedIff(response: HttpResponse)
    ensures RangeSupported(response) <==>
      && HeaderString(response, AcceptRangesField).Some?
      && var v := HeaderString(response, AcceptRangesField).value;
         |v| == 5 && forall i :: 0 <= i < 5 ==> v[i] == "bytes"[i] || v[i] == "BYTES"[i]
  {
    var h := HeaderString(response, AcceptRangesField);
    if h.Some? {
      var v := h.value;
      if Lowercased(v) == "bytes" {
        forall i | 0 <= i < 5 ensures v[i] == "bytes"[i] || v[i] == "BYTES"[i] {
          assert LowerAscii(v[i]) == "bytes"[i];
        }
      }
      if |v| == 5 && forall i :: 0 <= i < 5 ==> v[i] == "bytes"[i] || v[i] == "BYTES"[i] {
        assert forall i :: 0 <= i < 5 ==> Lowercased(v)[i] == "bytes"[i];
      }
    }
  }

  /** `contentLength`: the Content-Length field read by `Int(_:)`. */
  function ContentLength(response: HttpResponse): (length: Option<int>)
    ensures HeaderString(response, ContentLengthField).None? ==> length.None?
    ensures length.Some? ==> IntMin <= length.value <= IntMax
  {
    match HeaderString(response, ContentLengthField)
    case None => None
    case Some(v) => ParseSwiftInt(v)
  }

  /** A decimal Content-Length is read as its value, unless it does not fit in `Int`. */
  lemma ContentLengthReadsDecimal(response: HttpResponse, n: nat)
    requires HeaderString(response, ContentLengthField) == Some(NatToString(n))
    ensures ContentLength(response) == if n <= IntMax then Some(n) else None
  {
    ParseSwiftIntOfNat(n);
  }

  /** The outcome of the guard chain in `start`. */
  datatype Verdict =
    | PassThrough(error: Error)   // the probe's transport error, handed on verbatim
    | Reject(kind: DownloadError) // a capability check failed
    | Proceed(length: int)        // `downloadContent(length)` runs

  /** The guards of `start`, in source order. */
  function Assess(response: Option<HttpResponse>, error: Option<Error>): (v: Verdict)
    ensures v.PassThrough? <==> error.Some?
    ensures v.Reject? ==> v.kind in {HeadNotSupported, RangeNotSupported, ContentLengthNotSupported}
  {
    if error.Some? then PassThrough(error.value)
    else if response.None? then Reject(HeadNotSupported)
    else if !RangeSupported(response.value) then Reject(RangeNotSupported)
    else match ContentLength(response.value)
      case None => Reject(ContentLengthNotSupported)
      case Some(length) => Proceed(length)
  }

  /**
    The download proceeds exactly when there is no transport error, a
    response arrived, it advertises byte ranges and its length parses; it
    then proceeds with that length.  A transport error wins over anything
    the response says, a missing response is reported before the headers are
    looked at, and range support is checked before the length, so each
    probe maps to the first failing guard.
  */
  lemma AssessGuardOrder(response: Option<HttpResponse>, error: Option<Error>)
    ensures Assess(response, error).Proceed? <==>
      error.None? && response.Some? && RangeSupported(response.value) && ContentLength(response.value).Some?
    ensures Assess(response, error).Proceed? ==> Assess(response, error).length == ContentLength(response.value).value
    ensures error.Some? ==> Assess(response, error) == PassThrough(error.value)
    ensures error.None? && response.None? ==> Assess(response, error) == Reject(HeadNotSupported)
    ensures error.None? && response.Some? && !RangeSupported(response.value) ==>
      Assess(response, error) == Reject(RangeNotSupported)
    ensures error.None? && response.Some? && RangeSupported(response.value) && ContentLength(response.value).None? ==>
      Assess(response, error) == Reject(ContentLengthNotSupported)
    ensures Assess(response, error).Reject? ==>
      Assess(response, error).kind in {HeadNotSupported, RangeNotSupported, ContentLengthNotSupported}
  {
  }
}
