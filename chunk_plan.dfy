/**
  Chunk planning: how many ranged GET requests a download of `length` bytes
  needs, and the `Range` header value each of them carries.  The header
  syntax and its meaning are those of section 2.1 of RFC 7233 (a single
  byte-range-spec: `bytes=first-last`, or `bytes=first-` for "from first to
  the end").
*/
module ChunkPlan {
  import opened Base
  import opened Decimal

  /** `chunkSize`: 2 MiB per request. */
  const ChunkSize: int := 2 * 1024 * 1024

  /** Swift's `/` on `Int`, which truncates toward zero. */
  function SwiftDiv(a: int, b: int): int
    requires b > 0
  {
    if a >= 0 then a / b else -((-a) / b)
  }

  /** Swift's `%` on `Int`, whose remainder takes the sign of the dividend. */
  function SwiftRem(a: int, b: int): int
    requires b > 0
  {
    if a >= 0 then a % b else -((-a) % b)
  }

  /** `numberOfChunk`, as `downloadContent` derives it from the probed length. */
  function ChunkCount(length: int): (n: int)
    ensures length > 0 ==> (n - 1) * ChunkSize < length <= n * ChunkSize
    ensures length <= 0 ==> n <= 0
  {
    SwiftDiv(length, ChunkSize) + (if SwiftRem(length, ChunkSize) > 0 then 1 else 0)
  }

  /**
    For a non-negative length the count is the ceiling of length / chunkSize:
    the least n whose n chunks reach the end of the resource.
  */
  lemma ChunkCountIsCeiling(length: int)
    requires length >= 0
    ensures ChunkCount(length) >= 0
    ensures ChunkCount(length) == 0 <==> length == 0
    ensures length > 0 ==> (ChunkCount(length) - 1) * ChunkSize < length <= ChunkCount(length) * ChunkSize
    ensures length % ChunkSize == 0 ==> ChunkCount(length) == length / ChunkSize
  {
  }

  /**
    A negative length (Swift's `Int(_:)` accepts a minus sign) plans no
    chunk at all, and from minus one chunk size down it plans a negative
    count, for which the range `0..<numberOfChunk` traps.
  */
  lemma ChunkCountOfNonPositive(length: int)
    requires length <= 0
    ensures ChunkCount(length) <= 0
    ensures ChunkCount(length) < 0 <==> length <= -ChunkSize
  {
  }

  /** First byte requested for chunk `index`. */
  function ChunkStart(index: nat): nat { index * ChunkSize }

  /** Last byte requested for chunk `index` when the range is closed: `start + chunkSize - 1`. */
  function NominalEnd(index: nat): nat { ChunkStart(index) + (ChunkSize - 1) }

  /** Nominal ranges are exactly one chunk long and consecutive ones abut. */
  lemma ChunksAbut(index: nat)
    ensures NominalEnd(index) - ChunkStart(index) + 1 == ChunkSize
    ensures NominalEnd(index) + 1 == ChunkStart(index + 1)
  {
  }

  /**
    `range(index, length)`: the `Range` header value of chunk `index`.  The
    last byte is left out (open-ended form) exactly when the nominal end lies
    strictly beyond `length`.
  */
  function Range(index: nat, length: int): (r: string)
    ensures 7 < |r| && r[..6] == "bytes="
    ensures r[|r| - 1] == '-' <==> NominalEnd(index) > length
  {
    var end := NominalEnd(index);
    "bytes=" + NatToString(ChunkStart(index)) + "-" + (if end > length then "" else NatToString(end))
  }

  /** A single byte-range-spec: first-byte-pos and an optional last-byte-pos. */
  datatype ByteRangeSpec = ByteRangeSpec(first: nat, last: Option<nat>)

  /** Position of the first `c` in `s`, or `|s|` when there is none. */
  function IndexOf(s: string, c: char): (j: nat)
    ensures j <= |s|
    ensures forall k :: 0 <= k < j ==> s[k] != c
    ensures j < |s| ==> s[j] == c
  {
    if s == [] then 0 else if s[0] == c then 0 else 1 + IndexOf(s[1..], c)
  }

  /** Reads a `bytes=first-[last]` header value back into its byte-range-spec. */
  function ParseByteRange(s: string): Option<ByteRangeSpec>
  {
    if |s| < 6 || s[..6] != "bytes=" then None
    else
      var spec := s[6..];
      var dash := IndexOf(spec, '-');
      if dash == |spec| then None
      else
        var first := spec[..dash];
        var last := spec[dash + 1..];
        if first == [] || !AllDigits(first) || !AllDigits(last) then None
        else Some(ByteRangeSpec(DigitsValue(first), if last == [] then None else Some(DigitsValue(last))))
  }

  /**
    The header names the chunk's first byte and, unless the nominal end lies
    past `length`, its nominal last byte.
  */
  lemma RangeRoundTrip(index: nat, length: int)
    ensures ParseByteRange(Range(index, length)) ==
      Some(ByteRangeSpec(ChunkStart(index), if NominalEnd(index) > length then None else Some(NominalEnd(index))))
  {
    var a := NatToString(ChunkStart(index));
    var b := if NominalEnd(index) > length then "" else NatToString(NominalEnd(index));
    var s := Range(index, length);
    assert s == "bytes=" + a + "-" + b;
    assert s[..6] == "bytes=";
    var spec := s[6..];
    assert spec == a + "-" + b;
    assert spec[|a|] == '-';
    assert forall k :: 0 <= k < |a| ==> spec[k] == a[k];
    var dash := IndexOf(spec, '-');
    assert dash == |a|;
    assert spec[..dash] == a;
    assert spec[dash + 1..] == b;
    NatToStringRoundTrip(ChunkStart(index));
    NatToStringRoundTrip(NominalEnd(index));
  }

  /** Section 2.1 of RFC 7233: a byte-range-spec is satisfiable when its first byte exists. */
  predicate Satisfiable(spec: ByteRangeSpec, length: int)
  {
    spec.first < length
  }

  /**
    Section 2.1 of RFC 7233: the exclusive end of the bytes a satisfiable
    spec selects; an absent last-byte-pos, or one at or beyond the end of the
    representation, selects the remainder.
  */
  function SelectedEnd(spec: ByteRangeSpec, length: int): int
  {
    if spec.last.None? || spec.last.value >= length then length else spec.last.value + 1
  }

  /** Bytes of the resource chunk `index` covers: from its start up to the next chunk or the end. */
  function ChunkExtent(index: nat, length: int): int
  {
    Min(ChunkStart(index) + ChunkSize, length) - ChunkStart(index)
  }

  /**
    Every planned chunk starts inside the resource, its header is a
    satisfiable range, and a server honouring RFC 7233 answers it with the
    bytes from the chunk's start up to the next chunk's start or the end of
    the resource, whichever comes first.
  */
  lemma PlannedRangeSelectsChunk(index: nat, length: int)
    requires index < ChunkCount(length)
    ensures ChunkStart(index) < length
    ensures var spec := ParseByteRange(Range(index, length));
      && spec.Some?
      && spec.value.first == ChunkStart(index)
      && Satisfiable(spec.value, length)
      && SelectedEnd(spec.value, length) == Min(ChunkStart(index) + ChunkSize, length)
    ensures 0 < ChunkExtent(index, length) <= ChunkSize
    ensures index + 1 < ChunkCount(length) ==> ChunkExtent(index, length) == ChunkSize
  {
    var n := ChunkCount(length);
    assert 0 < length && (n - 1) * ChunkSize < length;
    assert ChunkStart(index) <= (n - 1) * ChunkSize;
    if index + 1 < n {
      assert ChunkStart(index) + ChunkSize == ChunkStart(index + 1) <= (n - 1) * ChunkSize;
    }
    var spec := ByteRangeSpec(ChunkStart(index), if NominalEnd(index) > length then None else Some(NominalEnd(index)));
    assert ParseByteRange(Range(index, length)) == Some(spec) by {
      RangeRoundTrip(index, length);
    }
  }

  /** Bytes covered by chunks `0..k-1`. */
  function CoveredBytes(k: nat, length: int): int
  {
    if k == 0 then 0 else CoveredBytes(k - 1, length) + ChunkExtent(k - 1, length)
  }

  lemma {:induction false} CoveredBytesOfPrefix(k: nat, length: int)
    requires 0 <= length && k <= ChunkCount(length)
    ensures CoveredBytes(k, length) == Min(k * ChunkSize, length)
  {
    if k > 0 {
      CoveredBytesOfPrefix(k - 1, length);
      ChunkCountIsCeiling(length);
    }
  }

  /** The planned chunks together cover the resource exactly: their extents sum to `length`. */
  lemma PlanCoversResource(length: int)
    requires 0 <= length
    ensures CoveredBytes(ChunkCount(length), length) == length
  {
    ChunkCountIsCeiling(length);
    CoveredBytesOfPrefix(ChunkCount(length), length);
  }

  /**
    A 5 MiB resource takes three requests: two closed 2 MiB ranges and an
    open-ended third one, which an RFC 7233 server answers with the last
    1 MiB.
  */
  lemma FiveMiBPlan()
    ensures ChunkCount(5_242_880) == 3
    ensures ParseByteRange(Range(0, 5_242_880)) == Some(ByteRangeSpec(0, Some(2_097_151)))
    ensures ParseByteRange(Range(1, 5_242_880)) == Some(ByteRangeSpec(2_097_152, Some(4_194_303)))
    ensures ParseByteRange(Range(2, 5_242_880)) == Some(ByteRangeSpec(4_194_304, None))
    ensures SelectedEnd(ByteRangeSpec(4_194_304, None), 5_242_880) == 5_242_880
  {
    RangeRoundTrip(0, 5_242_880);
    RangeRoundTrip(1, 5_242_880);
    RangeRoundTrip(2, 5_242_880);
  }

  /**
    `start + chunkSize - 1` as the source evaluates it on 64-bit `Int`: left
    to right, trapping (None) when an intermediate exceeds `Int.max`.
  */
  function NominalEndAsWritten(index: nat): Option<int>
  {
    var start := index * ChunkSize;
    if start > IntMax || start + ChunkSize > IntMax then None else Some(start + ChunkSize - 1)
  }

  /** The same end evaluated as `start + (chunkSize - 1)`, whose intermediate never exceeds the result. */
  function NominalEndChecked(index: nat): Option<int>
  {
    var start := index * ChunkSize;
    if start > IntMax || start + (ChunkSize - 1) > IntMax then None else Some(start + (ChunkSize - 1))
  }

  /** For a Content-Length of `Int.max` the last planned chunk's end computation traps. */
  lemma NominalEndAsWrittenTrapsAtIntMax()
    ensures 0 < ChunkCount(IntMax)
    ensures NominalEndAsWritten(ChunkCount(IntMax) - 1) == None
  {
  }

  /** Below `Int.max - chunkSize + 1` the expression as written never traps. */
  lemma NominalEndAsWrittenBelowTop(length: int, index: nat)
    requires length <= IntMax - ChunkSize + 1 && index < ChunkCount(length)
    ensures NominalEndAsWritten(index) == Some(NominalEnd(index))
  {
    PlannedRangeSelectsChunk(index, length);
  }

  /** With the subtraction grouped first, no planned chunk of any `Int` length traps. */
  lemma NominalEndCheckedFitsInt(length: int, index: nat)
    requires length <= IntMax && index < ChunkCount(length)
    ensures NominalEndChecked(index) == Some(NominalEnd(index))
  {
    PlannedRangeSelectsChunk(index, length);
  }
}
