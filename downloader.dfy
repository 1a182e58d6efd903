/**
  The download coordinator, `MultiPartDownload`, with the network, the file
  system and the queues taken out.  Each asynchronous callback of the source
  is a method called in sequence: `Start` is the HEAD probe's callback,
  `DownloadContent` the enqueue loop, `RecordOutcome` one chunk task's
  callback and `CombineDownloadedChunks` the assembly it triggers.  What the
  caller's completion handler receives is logged in `delivered`.
*/
module Downloader {
  import opened Base
  import opened Errors
  import opened Probe
  import opened ChunkPlan
  import opened Assembly

  /**
    A destination chosen by `askForSaveFileLocation`:
    `<temporary directory>/MultiPart/<uniqueName>.<pathExtension>`.
  */
  datatype Path = SavePath(uniqueName: string, pathExtension: string)

  /** What `writeFilehandle` obtained: a handle open for writing, or the error opening threw. */
  datatype OpenResult = Opened | OpenFailed(cause: Error)

  /** One call of the caller's completion handler. */
  datatype Completion = Completion(url: Option<Path>, error: Option<Error>)

  class MultiPartDownload {
    /** The path extension of `downloadURL`, kept on the destination file. */
    const pathExtension: string

    var error: Option<Error>
    var failure: Option<DownloadError>

    /** `numberOfChunk` of the current `downloadContent` call. */
    var numberOfChunk: int
    /** The `Range` header values of the GET requests enqueued by that call, in order. */
    var requests: seq<string>
    /** `downloadedChunks` of that call. */
    var downloadedChunks: Chunks
    /** Contents of the latest destination file. */
    var written: Bytes
    /** Every call of the completion handler so far. */
    var delivered: seq<Completion>
    /** A Swift runtime trap has stopped the process. */
    var trapped: bool

    /**
      Only planned chunks are recorded, and (as written) only readable
      handles are ever stored; a live download has enqueued one request per
      planned chunk.
    */
    ghost predicate Valid()
      reads this
    {
      && (forall k :: k in downloadedChunks ==> 0 <= k < numberOfChunk && downloadedChunks[k].Some?)
      && (!trapped ==> 0 <= numberOfChunk && |requests| == numberOfChunk)
    }

    constructor (pathExtension: string)
      ensures Valid() && !trapped
      ensures this.pathExtension == pathExtension
      ensures error == None && failure == None
      ensures numberOfChunk == 0 && requests == [] && downloadedChunks == map[]
      ensures written == [] && delivered == []
    {
      this.pathExtension := pathExtension;
      error, failure := None, None;
      numberOfChunk, requests, downloadedChunks := 0, [], map[];
      written, delivered, trapped := [], [], false;
    }

    /**
      The HEAD probe's callback in `start`: its guards, in order, either hand
      one failure to the completion handler with no URL or start the chunked
      download with the probed length.
    */
    method Start(response: Option<HttpResponse>, transportError: Option<Error>)
      requires Valid() && !trapped
      modifies this`error, this`failure, this`numberOfChunk, this`requests, this`downloadedChunks, this`trapped,
        this`delivered
      ensures Valid() && written == old(written)
      ensures match Assess(response, transportError)
        case PassThrough(e) =>
          && error == Some(e) && failure == old(failure)
          && delivered == old(delivered) + [Completion(None, Some(e))]
          && numberOfChunk == old(numberOfChunk) && requests == old(requests)
          && downloadedChunks == old(downloadedChunks) && !trapped
        case Reject(kind) =>
          && error == old(error) && failure == Some(kind)
          && delivered == old(delivered) + [Completion(None, FailureError(old(error), Some(kind)))]
          && numberOfChunk == old(numberOfChunk) && requests == old(requests)
          && downloadedChunks == old(downloadedChunks) && !trapped
        case Proceed(length) =>
          && error == old(error) && failure == old(failure) && delivered == old(delivered)
          && numberOfChunk == ChunkCount(length) && downloadedChunks == map[]
          && (trapped <==> numberOfChunk < 0)
          && (!trapped ==> forall i :: 0 <= i < numberOfChunk ==> requests[i] == Range(i, length))
    {
      if transportError.Some? {
        error := transportError;
        delivered := delivered + [Completion(None, transportError)];
        return;
      }
      if response.None? {
        failure := Some(HeadNotSupported);
        delivered := delivered + [Completion(None, FailureError(error, failure))];
        return;
      }
      if !RangeSupported(response.value) {
        failure := Some(RangeNotSupported);
        delivered := delivered + [Completion(None, FailureError(error, failure))];
        return;
      }
      var length := ContentLength(response.value);
      if length.None? {
        failure := Some(ContentLengthNotSupported);
        delivered := delivered + [Completion(None, FailureError(error, failure))];
        return;
      }
      DownloadContent(length.value);
    }

    /**
      `downloadContent`: plans the chunks and enqueues one ranged GET per
      chunk, in index order.  A negative chunk count traps on `0..<n`.
    */
    method DownloadContent(length: int)
      requires Valid() && !trapped
      modifies this`numberOfChunk, this`requests, this`downloadedChunks, this`trapped
      ensures Valid()
      ensures numberOfChunk == ChunkCount(length) && downloadedChunks == map[]
      ensures trapped <==> numberOfChunk < 0
      ensures !trapped ==> forall i :: 0 <= i < numberOfChunk ==> requests[i] == Range(i, length)
    {
      numberOfChunk := ChunkCount(length);
      downloadedChunks := map[];
      requests := [];
      if numberOfChunk < 0 {
        trapped := true;
        return;
      }
      var index := 0;
      while index < numberOfChunk
        invariant numberOfChunk == ChunkCount(length) && downloadedChunks == map[] && !trapped
        invariant 0 <= index <= numberOfChunk
        invariant |requests| == index
        invariant forall i :: 0 <= i < index ==> requests[i] == Range(i, length)
      {
        requests := requests + [Range(index, length)];
        index := index + 1;
      }
    }

    /**
      One chunk task's callback.  `location` is the bytes of the downloaded
      temporary file when the task produced one that opens for reading.  When
      the map reaches the chunk count the chunks are assembled into a new
      destination (named `uniqueName`, opened with outcome `open`) and the
      completion handler receives the result together with `failureError`,
      read after assembly.
    */
    method RecordOutcome(index: int, location: Option<Bytes>, transportError: Option<Error>,
                         uniqueName: string, open: OpenResult)
      requires Valid() && !trapped && 0 <= index < numberOfChunk
      modifies this`error, this`failure, this`downloadedChunks, this`written, this`delivered
      ensures Valid()
      ensures downloadedChunks == Record(old(downloadedChunks), index, location)
      ensures
        var error1 := if transportError.Some? then transportError else old(error);
        var failure1 := if location.Some? then old(failure) else Some(PartialDownloadFail);
        if |downloadedChunks| != numberOfChunk then
          error == error1 && failure == failure1 && written == old(written) && delivered == old(delivered)
        else
          && (forall i :: 0 <= i < numberOfChunk ==> Readable(downloadedChunks, i))
          && match open
            case Opened =>
              && error == error1 && failure == failure1
              && written == OrderedConcat(downloadedChunks, numberOfChunk)
              && delivered == old(delivered) + [Completion(Some(SavePath(uniqueName, pathExtension)), FailureError(error1, failure1))]
            case OpenFailed(cause) =>
              && error == Some(cause) && failure == Some(CannotWriteIntoSaveLocation)
              && written == old(written)
              && delivered == old(delivered) + [Completion(None, Some(cause))]
    {
      if transportError.Some? {
        error := transportError;
      }
      if location.Some? {
        downloadedChunks := downloadedChunks[index := Some(location.value)];
      } else {
        failure := Some(PartialDownloadFail);
        downloadedChunks := downloadedChunks - {index};
      }
      if |downloadedChunks| == numberOfChunk {
        FullMapCoversIndices(downloadedChunks, numberOfChunk);
        var url := CombineDownloadedChunks(downloadedChunks, uniqueName, open);
        delivered := delivered + [Completion(url, FailureError(error, failure))];
      }
    }

    /**
      `combineDownloadedChunks`: rejects an empty map or one holding a nil
      handle before touching the file system, then opens the destination and
      appends every chunk's bytes in ascending index order `0..count-1`,
      stopping with `nilReadFileHandler` at the first index with no handle.
    */
    method CombineDownloadedChunks(chunks: Chunks, uniqueName: string, open: OpenResult) returns (saveURL: Option<Path>)
      modifies this`error, this`failure, this`written
      ensures !NoNilHandle(chunks) ==>
        saveURL == None && failure == Some(PartialDownloadFail) && error == old(error) && written == old(written)
      ensures NoNilHandle(chunks) && open.OpenFailed? ==>
        && saveURL == None && failure == Some(CannotWriteIntoSaveLocation) && error == Some(open.cause)
        && written == old(written)
      ensures NoNilHandle(chunks) && open.Opened? ==>
        var run := LeadingRun(chunks, |chunks|);
        && error == old(error)
        && written == OrderedConcat(chunks, run)
        && (run == |chunks| ==> saveURL == Some(SavePath(uniqueName, pathExtension)) && failure == old(failure))
        && (run < |chunks| ==> saveURL == None && failure == Some(NilReadFileHandler))
    {
      var nonNil := NonNilChunks(chunks);
      NonNilGuardIff(chunks);
      if !(|nonNil| > 0 && |nonNil| == |chunks|) {
        failure := Some(PartialDownloadFail);
        return None;
      }
      var saveLocation := SavePath(uniqueName, pathExtension);
      if open.OpenFailed? {
        error := Some(open.cause);
        failure := Some(CannotWriteIntoSaveLocation);
        return None;
      }
      written := [];
      var index := 0;
      while index < |chunks|
        invariant 0 <= index <= |chunks|
        invariant index <= LeadingRun(chunks, |chunks|)
        invariant written == OrderedConcat(chunks, index)
        invariant error == old(error) && failure == old(failure)
      {
        if !Readable(chunks, index) {
          failure := Some(NilReadFileHandler);
          return None;
        }
        written := written + chunks[index].value;
        index := index + 1;
      }
      return Some(saveLocation);
    }
  }
}
