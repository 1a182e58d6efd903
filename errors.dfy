/**
  The downloader's errors: the tagged `MultiPartDownloadError` kinds, their
  conversion to an `NSError`, and `failureError`, which decides which of the
  two stored errors the caller sees.
*/
module Errors {
  import opened Base

  /** The cases of `MultiPartDownloadError`. */
  datatype DownloadError =
    | HeadNotSupported
    | RangeNotSupported
    | ContentLengthNotSupported
    | PartialDownloadFail
    | NilReadFileHandler
    | MissingFileSaveLocation
    | CannotWriteIntoSaveLocation

  /** The raw value of a `String` enum case: the case name itself. */
  function RawValue(kind: DownloadError): string
  {
    match kind
    case HeadNotSupported => "headNotSupported"
    case RangeNotSupported => "rangeNotSupported"
    case ContentLengthNotSupported => "contentLengthNotSupported"
    case PartialDownloadFail => "partialDownloadFail"
    case NilReadFileHandler => "nilReadFileHandler"
    case MissingFileSaveLocation => "missingFileSaveLocation"
    case CannotWriteIntoSaveLocation => "cannotWriteIntoSaveLocation"
  }

  const ErrorDomain: string := "com.apple.MultiPartDownload.ErrorDomain"
  const ErrorCode: int := 10_000

  /**
    An error as the completion handler receives it: one raised by a system
    framework (URL loading, file handles), opaque here and told apart only by
    an identity, or an `NSError` built from a domain, a code and a localized
    description.
  */
  datatype Error =
    | SystemError(id: nat)
    | DomainError(domain: string, code: int, description: string)

  /** `MultiPartDownloadError.error`. */
  function AsError(kind: DownloadError): (e: Error)
    ensures e.DomainError? && e.domain == ErrorDomain && e.code == ErrorCode
    ensures KindOf(e) == Some(kind)
  {
    DomainError(ErrorDomain, ErrorCode, RawValue(kind))
  }

  function KindFromRawValue(s: string): Option<DownloadError>
  {
    if s == "headNotSupported" then Some(HeadNotSupported)
    else if s == "rangeNotSupported" then Some(RangeNotSupported)
    else if s == "contentLengthNotSupported" then Some(ContentLengthNotSupported)
    else if s == "partialDownloadFail" then Some(PartialDownloadFail)
    else if s == "nilReadFileHandler" then Some(NilReadFileHandler)
    else if s == "missingFileSaveLocation" then Some(MissingFileSaveLocation)
    else if s == "cannotWriteIntoSaveLocation" then Some(CannotWriteIntoSaveLocation)
    else None
  }

  /** The failure kind a caller can read off an error: its domain, code and description. */
  function KindOf(e: Error): Option<DownloadError>
  {
    if e.DomainError? && e.domain == ErrorDomain && e.code == ErrorCode then KindFromRawValue(e.description) else None
  }

  /**
    `failureError`: a stored system error takes precedence; otherwise the
    tagged failure, wrapped; nothing when neither is set.
  */
  function FailureError(error: Option<Error>, failure: Option<DownloadError>): (r: Option<Error>)
    ensures error.Some? ==> r == error
    ensures error.None? ==> (r.Some? <==> failure.Some?)
    ensures error.None? && failure.Some? ==> KindOf(r.value) == failure
  {
    if error.Some? then error
    else if failure.Some? then Some(AsError(failure.value))
    else None
  }
}
