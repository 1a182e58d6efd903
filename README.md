# MultiPartDownload, modelled in Dafny

A model of the chunked-download engine of MultiPartDownloader
(`MultiPartDownloader/MultiPartDownload.swift`). The engine fetches one HTTP
resource in 2 MiB byte ranges and reassembles the pieces in index order. It
works in four steps:

1. A HEAD probe checks that the server accepts byte ranges and gives the
   resource's length.
2. The length is split into `numberOfChunk` ranged GET requests, each with a
   `Range: bytes=first-last` or `bytes=first-` header (section 2.1 of
   RFC 7233).
3. Each chunk's outcome is recorded in `downloadedChunks`.
4. When that map holds `numberOfChunk` entries, the chunk files are appended
   into one destination file and the caller's completion handler gets the
   destination URL together with `failureError`.

The network, the file system and the operation queues are not part of the
model. Each asynchronous callback is a method called in sequence on the class
`Downloader.MultiPartDownload`:

- `Start` is the probe callback.
- `DownloadContent` is the enqueue loop.
- `RecordOutcome` is one chunk task's callback.
- `CombineDownloadedChunks` is the assembly.

The completion handler's calls are logged in the field `delivered`. A chunk
file is modelled by the bytes it reads to the end, and the destination file by
the field `written`.

Modules:
- `Base`: `Option`, bytes, Swift's `Int` bounds.
- `Decimal`: Swift's `Int` printing and `Int(_: String)`.
- `Errors`: `MultiPartDownloadError`, its `NSError` form, `failureError`.
- `ChunkPlan`: the chunk count, `range(_:_:)` and what the ranges select.
- `Probe`: `rangeSupported`, `contentLength` and the guard chain of `start`.
- `Assembly`: the `downloadedChunks` bookkeeping over an arrival order, and the
  ordered concatenation.
- `Downloader`: the class.

Behaviour the model follows from the code:

- Errors are not latched. Every assignment to `error` or `failure` (lines 81,
  87-103, 130, 138-154, 178, 185) overwrites the earlier value. A
  first-error-wins rule would keep the earliest error; the code keeps the
  latest, and so does the model. `failureError` prefers `error` over
  `failure`.
- When a chunk fails, nil is assigned through the dictionary subscript, which
  removes the key. A failed chunk therefore never counts toward completion, and
  the completion handler is never called. The nil filter of
  `combineDownloadedChunks` (lines 136-137) expects failed chunks to be stored
  as nil handles, so that the count completes and it reports
  `partialDownloadFail`; see Findings.
- The completion handler's arguments are evaluated left to right. So
  `failureError` is read after `combineDownloadedChunks` has run. When the
  destination cannot be opened, the caller receives the error that
  `FileHandle(forWritingTo:)` threw, not `cannotWriteIntoSaveLocation`.
- Swift's `/` and `%` truncate toward zero, and `Int(_:)` accepts a sign. For
  a Content-Length of 0, or a negative one above minus one chunk size, no
  chunk is planned and the handler is never called. For lower values,
  `0..<numberOfChunk` traps (`trapped` in the model).

## Model

| member | source | states |
|---|---|---|
| `Decimal.NatToString` | MultiPartDownloader/MultiPartDownload.swift:212 | the interpolated bound is a non-empty string of decimal digits |
| `Decimal.NatToStringRoundTrip` | MultiPartDownloader/MultiPartDownload.swift:212 | the digits printed for a number read back as that number |
| `Decimal.ParseSwiftInt` | MultiPartDownloader/MultiPartDownload.swift:239 | `Int(_:)` only yields values inside the 64-bit range |
| `Decimal.ParseSwiftIntOfNat` | MultiPartDownloader/MultiPartDownload.swift:239 | a printed non-negative number parses back to itself, or to nil when it exceeds `Int.max` |
| `Decimal.ParseSwiftIntOfNegated` | MultiPartDownloader/MultiPartDownload.swift:239 | a leading minus is accepted and negates the value, down to `Int.min` |
| `Decimal.ParseSwiftIntRejectsStray` | MultiPartDownloader/MultiPartDownload.swift:239 | any character other than a digit or one leading sign makes the parse nil |
| `Errors.AsError` | MultiPartDownloader/MultiPartDownload.swift:35-42 | the wrapped error has domain `com.apple.MultiPartDownload.ErrorDomain`, code 10000, and its description identifies the kind (`KindOf` inverts it) |
| `Errors.FailureError` | MultiPartDownloader/MultiPartDownload.swift:57-62 | a stored system error takes precedence; otherwise the wrapped failure, whose kind is recoverable; nil iff neither is set |
| `ChunkPlan.ChunkCount` | MultiPartDownloader/MultiPartDownload.swift:164 | for a positive length, n - 1 chunks fall short of the length and n chunks reach it; a non-positive length plans no positive count |
| `ChunkPlan.ChunkCountIsCeiling` | MultiPartDownloader/MultiPartDownload.swift:164 | for length >= 0 the count is the ceiling of length / chunkSize: 0 iff length is 0, length / chunkSize for multiples |
| `ChunkPlan.ChunkCountOfNonPositive` | MultiPartDownloader/MultiPartDownload.swift:164-167 | a non-positive length plans no chunk, and a negative count (a trapping range) iff length <= -chunkSize |
| `ChunkPlan.ChunksAbut` | MultiPartDownloader/MultiPartDownload.swift:210-211 | a nominal range spans exactly chunkSize bytes and ends one byte before the next chunk starts |
| `ChunkPlan.Range` | MultiPartDownloader/MultiPartDownload.swift:209-217 | the value starts with `bytes=` and ends in `-` (open-ended form) exactly when the nominal end lies strictly beyond length |
| `ChunkPlan.RangeRoundTrip` | MultiPartDownloader/MultiPartDownload.swift:209-217 | the header reads back as `bytes=start-end`, with the end dropped exactly when it lies strictly beyond length |
| `ChunkPlan.PlannedRangeSelectsChunk` | MultiPartDownloader/MultiPartDownload.swift:164-171 | every planned chunk starts inside the resource; its range is satisfiable and selects up to the next chunk or the end; all but the last are full size |
| `ChunkPlan.PlanCoversResource` | MultiPartDownloader/MultiPartDownload.swift:164-171 | the extents of the planned chunks sum to the resource length |
| `ChunkPlan.FiveMiBPlan` | MultiPartDownloader/MultiPartDownload.swift:209-217 | 5 MiB gives three ranges, the third open-ended and selecting the last 1 MiB |
| `ChunkPlan.NominalEndAsWrittenTrapsAtIntMax` | MultiPartDownloader/MultiPartDownload.swift:211 | for Content-Length `Int.max` the last chunk's `start + chunkSize - 1` overflows |
| `ChunkPlan.NominalEndAsWrittenBelowTop` | MultiPartDownloader/MultiPartDownload.swift:211 | below `Int.max - chunkSize + 1` the expression as written never overflows |
| `ChunkPlan.NominalEndCheckedFitsInt` | MultiPartDownloader/MultiPartDownload.swift:210-211 | computed as `start + (chunkSize - 1)`, no planned chunk of any `Int` length overflows |
| `Probe.RangeSupported` | MultiPartDownloader/MultiPartDownload.swift:232-235 | support needs an Accept-Ranges string of five characters; absent or non-string means unsupported |
| `Probe.RangeSupportedIff` | MultiPartDownloader/MultiPartDownload.swift:232-235 | ranges are supported iff Accept-Ranges is a string spelling `bytes` in any letter case; false when absent |
| `Probe.ContentLength` | MultiPartDownloader/MultiPartDownload.swift:237-240 | nil when the field is absent or not a string; a value read is within the `Int` range |
| `Probe.ContentLengthReadsDecimal` | MultiPartDownloader/MultiPartDownload.swift:237-240 | a decimal Content-Length reads as its value, or nil beyond `Int.max` |
| `Probe.Assess` | MultiPartDownloader/MultiPartDownload.swift:76-109 | the transport error is passed through iff there is one; any rejection is one of the three capability failures |
| `Probe.AssessGuardOrder` | MultiPartDownloader/MultiPartDownload.swift:76-109 | the download proceeds iff no error, a response, range support and a length; otherwise each of the four guards, in source order, decides when it is the first to fail |
| `Assembly.NonNilGuardIff` | MultiPartDownloader/MultiPartDownload.swift:136-140 | the filter-and-count guard holds iff the map is non-empty and has no nil handle |
| `Assembly.LeadingRun` | MultiPartDownloader/MultiPartDownload.swift:152-156 | the assembly loop gets through exactly the leading readable indices and stops at the first missing one |
| `Assembly.Record` | MultiPartDownloader/MultiPartDownload.swift:182-188 | the chunk's index is present afterwards iff it succeeded, then with its bytes; every other entry is unchanged |
| `Assembly.RecordIntended` | MultiPartDownloader/MultiPartDownload.swift:182-188 | the chunk's index always holds its outcome afterwards, so every new arrival adds one entry; other entries unchanged |
| `Assembly.ReplayContents` | MultiPartDownloader/MultiPartDownload.swift:182-188 | after distinct arrivals the map holds exactly the succeeded chunks, each with its own bytes |
| `Assembly.CompletesIffAllSucceeded` | MultiPartDownloader/MultiPartDownload.swift:182-190 | the completion trigger fires after an arrival iff all chunks have arrived and all succeeded |
| `Assembly.FailedChunkNeverCompletes` | MultiPartDownloader/MultiPartDownload.swift:182-190 | two chunks, the first failing: the trigger never fires |
| `Assembly.IntendedCompletesOnLastReport` | MultiPartDownloader/MultiPartDownload.swift:182-190 | storing failures as nil handles makes the trigger fire on the last arrival only; the guard then passes iff every chunk succeeded |
| `Assembly.ArrivalOrderIrrelevant` | MultiPartDownloader/MultiPartDownload.swift:173-192 | two arrival orders of the same outcomes give the same map |
| `Assembly.ReassemblyIgnoresArrivalOrder` | MultiPartDownloader/MultiPartDownload.swift:152-159 | whatever the arrival order, assembly yields the chunks' bytes in index order 0..N-1 |
| `Assembly.AssembledSizeMatchesContentLength` | MultiPartDownloader/MultiPartDownload.swift:152-164 | when every chunk holds the bytes its range selects, the assembled file has exactly `length` bytes |
| `Assembly.FullMapCoversIndices` | MultiPartDownloader/MultiPartDownload.swift:189 | a map of N planned indices holding N entries holds every index 0..N-1 |
| `Downloader.MultiPartDownload.constructor` | MultiPartDownloader/MultiPartDownload.swift:64-74 | a new download has no error, no failure, no plan and no handler call |
| `Downloader.MultiPartDownload.Start` | MultiPartDownloader/MultiPartDownload.swift:76-109 | a failing guard calls the handler once with no URL and records its error; otherwise the download is planned with the probed length |
| `Downloader.MultiPartDownload.DownloadContent` | MultiPartDownloader/MultiPartDownload.swift:163-172 | plans ChunkCount(length) chunks with an empty map, enqueues the Range header of chunk i as request i, traps on a negative count |
| `Downloader.MultiPartDownload.RecordOutcome` | MultiPartDownloader/MultiPartDownload.swift:174-192 | a readable chunk is stored and a failed one removed; the handler is called exactly when the map is full; it then gets every chunk in index order, or the open error |
| `Downloader.MultiPartDownload.CombineDownloadedChunks` | MultiPartDownloader/MultiPartDownload.swift:135-161 | an empty map or a nil handle fails before the destination is touched; an open error is stored; otherwise bytes are appended in index order up to the first gap |

## Left out

- URLSession HEAD and GET tasks, the delegate and task queues, the semaphore in `queueTask` and the limit of five concurrent tasks (MultiPartDownload.swift:64-74, 196-207, 220-228). These are network I/O and concurrency. Callbacks are sequential method calls, and what a task delivers is a parameter.
- `markedFailed` and its `break` (lines 166-168, 179, 186). The enqueue loop runs inside the HEAD callback, and every chunk callback is a completion handler on the same delegate queue `callbackQueue`, which is serial (lines 68-70). No chunk callback can set the flag while the loop runs, so the `break` at line 168 never fires and leaving it out loses nothing.
- Temporary-directory creation, `globallyUniqueString` naming and real file I/O (lines 111-133). The unique name is a parameter. Opening the destination is a parameter that may carry the thrown error. Reading a chunk file yields its bytes.
- `MissingFileSaveLocation`: `askForSaveFileLocation` always returns a URL, so this failure cannot arise. The model's save location is total.
- `[weak self]` lifetime guards, `print` diagnostics, `partialContent`, `HTTPMethod.post`, and the bridging of errors to `NSError`. Errors are a datatype.
- MultiPartDownloader/AppDelegate.swift (user interface, sample URLs, the caller's scheme check) is not part of this model.
- Probe.RangeSupported: lowercases ASCII letters only. Swift's `lowercased()` applies full Unicode case mapping, which is not modelled.
- Integer widths: apart from the `Int` range of `Int(_:)` and the overflow in Findings, arithmetic is on unbounded integers.

## Findings

| source | as written | input that shows it | evidently intended | confidence | as-written member | corrected member |
|---|---|---|---|---|---|---|
| MultiPartDownloader/MultiPartDownload.swift:187 | `downloadedChunks[chunkIndex] = nil` removes the key. Once a chunk fails, the count can no longer reach `numberOfChunk`, and the completion handler is never called. | two chunks; chunk 0's task fails, chunk 1's succeeds | store a nil handle, so the count completes and `combineDownloadedChunks` reports `partialDownloadFail` (as its nil filter expects) | high; not executed | `Assembly.CompletesIffAllSucceeded` | `Assembly.IntendedCompletesOnLastReport` |
| MultiPartDownloader/MultiPartDownload.swift:211 | `start + chunkSize - 1` adds `chunkSize` first. For the last chunk of a length within `chunkSize` of `Int.max`, that intermediate exceeds `Int.max` and traps. | Content-Length 9223372036854775807, chunk 4398046511103 | `start + (chunkSize - 1)`, which `Range` uses | high; not executed | `ChunkPlan.NominalEndAsWrittenTrapsAtIntMax` | `ChunkPlan.NominalEndCheckedFitsInt` |
