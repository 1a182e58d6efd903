/**
  Bookkeeping of chunk outcomes and ordered reassembly.  `downloadedChunks`
  maps a chunk index to the (optional) handle of the chunk's temporary file;
  a handle is modelled by the bytes it reads to the end.  Outcomes arrive in
  any order, one per planned chunk; `Replay` folds an arrival order into the
  map, and the lemmas say when the completion trigger (map size equal to the
  chunk count) fires and what the assembled destination then holds.
*/
module Assembly {
  import opened Base
  import opened ChunkPlan

  type Chunks = map<int, Option<Bytes>>

  /** Index `i` holds a handle that can be read. */
  predicate Readable(m: Chunks, i: int)
  {
    i in m && m[i].Some?
  }

  /** `downloadedChunks.filter { $0.value != nil }`. */
  function NonNilChunks(m: Chunks): Chunks
  {
    map k | k in m && m[k].Some? :: m[k]
  }

  /** The map is non-empty and holds no nil handle. */
  predicate NoNilHandle(m: Chunks)
  {
    |m| > 0 && forall k :: k in m ==> m[k].Some?
  }

  /** For sets `a <= b`, `b` splits into `a` and what `a` leaves out. */
  lemma SubsetSplit(a: set<int>, b: set<int>)
    requires a <= b
    ensures |b| == |a| + |b - a|
  {
    assert b == a + (b - a);
  }

  /**
    The guard of `combineDownloadedChunks` (`chunks.count > 0`,
    `chunks.count == downloadedChunks.count`) holds exactly when the map is
    non-empty and has no nil value.
  */
  lemma NonNilGuardIff(m: Chunks)
    ensures (|NonNilChunks(m)| > 0 && |NonNilChunks(m)| == |m|) <==> NoNilHandle(m)
  {
    var f := NonNilChunks(m);
    assert f.Keys <= m.Keys;
    SubsetSplit(f.Keys, m.Keys);
    if |f| == |m| {
      assert |m.Keys - f.Keys| == 0;
      forall k | k in m ensures m[k].Some? {
        assert k !in m.Keys - f.Keys;
      }
    }
    if NoNilHandle(m) {
      forall k | k in m ensures k in f {
        assert m[k].Some?;
      }
      assert f.Keys == m.Keys;
    }
  }

  /** The number of leading indices `0, 1, ...` below `n` that hold a readable handle. */
  function LeadingRun(m: Chunks, n: nat): (k: nat)
    ensures k <= n
    ensures forall i :: 0 <= i < k ==> Readable(m, i)
    ensures k < n ==> !Readable(m, k)
  {
    if n == 0 then 0
    else
      var k := LeadingRun(m, n - 1);
      if k == n - 1 && Readable(m, n - 1) then n else k
  }

  /** The bytes of the readable handles at indices `0..k-1`, in index order. */
  function OrderedConcat(m: Chunks, k: nat): Bytes
  {
    if k == 0 then [] else OrderedConcat(m, k - 1) + (if Readable(m, k - 1) then m[k - 1].value else [])
  }

  /**
    The per-chunk callback's update of `downloadedChunks`, as written: a
    readable chunk is stored under its index; otherwise nil is assigned
    through the subscript, which in Swift removes the key.
  */
  function Record(m: Chunks, index: int, location: Option<Bytes>): (r: Chunks)
    ensures index in r <==> location.Some?
    ensures index in r ==> r[index] == location
    ensures forall k :: k != index ==> (k in r <==> k in m) && (k in r ==> r[k] == m[k])
  {
    if location.Some? then m[index := Some(location.value)] else m - {index}
  }

  /** The update the callback evidently intends: a failed chunk is stored as a nil handle. */
  function RecordIntended(m: Chunks, index: int, location: Option<Bytes>): (r: Chunks)
    ensures index in r && r[index] == location
    ensures forall k :: k != index ==> (k in r <==> k in m) && (k in r ==> r[k] == m[k])
    ensures |r| == if index in m then |m| else |m| + 1
  {
    m[index := location]
  }

  /** Every entry of `order` is a planned index below `n`. */
  predicate InPlan(order: seq<int>, n: nat)
  {
    forall j :: 0 <= j < |order| ==> 0 <= order[j] < n
  }

  predicate Distinct(order: seq<int>)
  {
    forall j, l :: 0 <= j < l < |order| ==> order[j] != order[l]
  }

  /** An arrival order of the outcomes of `n` chunks: each index exactly once. */
  predicate IsArrivalOrder(order: seq<int>, n: nat)
  {
    |order| == n && InPlan(order, n) && Distinct(order)
  }

  /** `downloadedChunks` after the outcomes `results[order[0]], results[order[1]], ...` arrived in that order. */
  function Replay(order: seq<int>, results: seq<Option<Bytes>>): Chunks
    requires InPlan(order, |results|)
  {
    if order == [] then map[]
    else
      var last := order[|order| - 1];
      Record(Replay(order[..|order| - 1], results), last, results[last])
  }

  /** `Replay` with the intended update. */
  function ReplayIntended(order: seq<int>, results: seq<Option<Bytes>>): Chunks
    requires InPlan(order, |results|)
  {
    if order == [] then map[]
    else
      var last := order[|order| - 1];
      RecordIntended(ReplayIntended(order[..|order| - 1], results), last, results[last])
  }

  /** After distinct arrivals, the map holds exactly the arrived chunks that succeeded, each with its own bytes. */
  lemma {:induction false} ReplayContents(order: seq<int>, results: seq<Option<Bytes>>)
    requires InPlan(order, |results|) && Distinct(order)
    ensures var r := Replay(order, results);
      forall i :: (i in r <==> 0 <= i < |results| && i in order && results[i].Some?)
               && (i in r ==> 0 <= i < |results| && r[i] == results[i])
  {
    if order != [] {
      var prefix := order[..|order| - 1];
      var last := order[|order| - 1];
      assert order == prefix + [last];
      ReplayContents(prefix, results);
      assert last !in prefix;
    }
  }

  /** After distinct arrivals, the intended map holds every arrived chunk, failed ones as nil. */
  lemma {:induction false} ReplayIntendedContents(order: seq<int>, results: seq<Option<Bytes>>)
    requires InPlan(order, |results|) && Distinct(order)
    ensures var r := ReplayIntended(order, results);
      forall i :: (i in r <==> i in order) && (i in r ==> 0 <= i < |results| && r[i] == results[i])
  {
    if order != [] {
      var prefix := order[..|order| - 1];
      var last := order[|order| - 1];
      assert order == prefix + [last];
      ReplayIntendedContents(prefix, results);
    }
  }

  /** The planned indices `0..n-1`. */
  function Indices(n: nat): (s: set<int>)
    ensures forall i :: i in s <==> 0 <= i < n
  {
    if n == 0 then {} else Indices(n - 1) + {n - 1}
  }

  lemma {:induction false} IndicesCard(n: nat)
    ensures |Indices(n)| == n
  {
    if n > 0 {
      IndicesCard(n - 1);
    }
  }

  function Elements(s: seq<int>): set<int>
  {
    set x | x in s
  }

  lemma {:induction false} DistinctCard(s: seq<int>)
    requires Distinct(s)
    ensures |Elements(s)| == |s|
  {
    if s != [] {
      var prefix := s[..|s| - 1];
      assert s == prefix + [s[|s| - 1]];
      DistinctCard(prefix);
      assert Elements(s) == Elements(prefix) + {s[|s| - 1]};
    }
  }

  /** A map whose keys lie in [0, n) and which has n entries holds every index of [0, n). */
  lemma FullMapCoversIndices(m: Chunks, n: nat)
    requires forall k :: k in m ==> 0 <= k < n
    requires |m| == n
    ensures forall i :: 0 <= i < n ==> i in m
  {
    assert m.Keys <= Indices(n);
    IndicesCard(n);
    SubsetSplit(m.Keys, Indices(n));
    assert Indices(n) - m.Keys == {};
    forall i | 0 <= i < n ensures i in m {
      assert i in Indices(n);
    }
  }

  /** After distinct arrivals the map has at most one entry per arrival, and one for each when all succeeded. */
  lemma ArrivedKeys(order: seq<int>, results: seq<Option<Bytes>>)
    requires InPlan(order, |results|) && Distinct(order)
    ensures Replay(order, results).Keys <= Elements(order)
    ensures |Replay(order, results)| <= |order|
    ensures (forall j :: 0 <= j < |order| ==> results[order[j]].Some?) ==> |Replay(order, results)| == |order|
  {
    var r := Replay(order, results);
    ReplayContents(order, results);
    DistinctCard(order);
    forall i | i in r ensures i in Elements(order) {
      assert i in order;
    }
    SubsetSplit(r.Keys, Elements(order));
    if forall j :: 0 <= j < |order| ==> results[order[j]].Some? {
      forall i | i in Elements(order) ensures i in r {
        var j :| 0 <= j < |order| && order[j] == i;
      }
      assert r.Keys == Elements(order);
    }
  }

  /**
    As written, the completion trigger (`downloadedChunks.count ==
    numberOfChunk`) fires after the k-th arrival exactly when every chunk has
    arrived and every chunk succeeded: a single failed chunk keeps the count
    below the chunk count forever.
  */
  lemma CompletesIffAllSucceeded(order: seq<int>, results: seq<Option<Bytes>>, k: nat)
    requires IsArrivalOrder(order, |results|) && k <= |order|
    ensures |Replay(order[..k], results)| == |results| <==>
      k == |results| && forall i :: 0 <= i < |results| ==> results[i].Some?
  {
    var n := |results|;
    var prefix := order[..k];
    assert InPlan(prefix, n) && Distinct(prefix);
    var r := Replay(prefix, results);
    ArrivedKeys(prefix, results);
    if |r| == n {
      forall i | i in r ensures 0 <= i < n {
        assert i in Elements(prefix);
      }
      FullMapCoversIndices(r, n);
      ReplayContents(prefix, results);
    }
    if k == n && forall i :: 0 <= i < n ==> results[i].Some? {
      assert forall j :: 0 <= j < |prefix| ==> results[prefix[j]].Some?;
    }
  }

  /** A concrete run: of two chunks the first fails and the second succeeds; the handler is never called. */
  lemma FailedChunkNeverCompletes()
    ensures var results := [None, Some([7 as byte])];
      && IsArrivalOrder([0, 1], 2)
      && forall k :: 0 <= k <= 2 ==> |Replay([0, 1][..k], results)| < 2
  {
    var results: seq<Option<Bytes>> := [None, Some([7 as byte])];
    assert [0, 1][..0] == [];
    assert [0, 1][..1] == [0];
    assert [0, 1][..2] == [0, 1];
    assert Replay([0], results) == map[];
    assert Replay([0, 1], results) == map[1 := Some([7 as byte])];
  }

  /**
    With the intended update every arrival adds one entry, so the trigger
    fires on the last arrival and on no other, whatever succeeded; the
    assembled map then passes the nil-handle guard exactly when every chunk
    succeeded, and `partialDownloadFail` is reported otherwise.
  */
  lemma IntendedCompletesOnLastReport(order: seq<int>, results: seq<Option<Bytes>>, k: nat)
    requires IsArrivalOrder(order, |results|) && k <= |order|
    ensures |ReplayIntended(order[..k], results)| == k
    ensures k == |results| && k > 0 ==>
      (NoNilHandle(ReplayIntended(order[..k], results)) <==> forall i :: 0 <= i < |results| ==> results[i].Some?)
  {
    var n := |results|;
    var prefix := order[..k];
    assert InPlan(prefix, n) && Distinct(prefix);
    var r := ReplayIntended(prefix, results);
    ReplayIntendedContents(prefix, results);
    DistinctCard(prefix);
    forall i | i in r ensures i in Elements(prefix) {
      assert i in prefix;
    }
    forall i | i in Elements(prefix) ensures i in r {
      assert i in prefix;
    }
    assert r.Keys == Elements(prefix);
    if k == n && k > 0 {
      FullMapCoversIndices(r, n);
    }
  }

  /** The outcome map depends on which chunks arrived with which outcome, not on the order of arrival. */
  lemma ArrivalOrderIrrelevant(order1: seq<int>, order2: seq<int>, results: seq<Option<Bytes>>)
    requires IsArrivalOrder(order1, |results|) && IsArrivalOrder(order2, |results|)
    ensures Replay(order1, results) == Replay(order2, results)
  {
    var r1, r2 := Replay(order1, results), Replay(order2, results);
    ReplayContents(order1, results);
    ReplayContents(order2, results);
    assert r1.Keys <= Indices(|results|) && r2.Keys <= Indices(|results|);
    forall i | 0 <= i < |results| ensures i in order1 && i in order2 {
      ElementsOfArrivalOrder(order1, |results|);
      ElementsOfArrivalOrder(order2, |results|);
      assert i in Elements(order1) && i in Elements(order2);
    }
    assert r1.Keys == r2.Keys;
  }

  /** An arrival order of `n` chunks contains every index below `n`. */
  lemma ElementsOfArrivalOrder(order: seq<int>, n: nat)
    requires IsArrivalOrder(order, n)
    ensures Elements(order) == Indices(n)
  {
    DistinctCard(order);
    IndicesCard(n);
    assert Elements(order) <= Indices(n);
    SubsetSplit(Elements(order), Indices(n));
    assert Indices(n) - Elements(order) == {};
  }

  /** The bytes of the succeeded results, in index order. */
  function Payload(results: seq<Option<Bytes>>): Bytes
  {
    if results == [] then []
    else
      var last := results[|results| - 1];
      Payload(results[..|results| - 1]) + (if last.Some? then last.value else [])
  }

  lemma {:induction false} OrderedConcatOfResults(m: Chunks, results: seq<Option<Bytes>>, k: nat)
    requires k <= |results|
    requires forall i :: 0 <= i < k ==> (Readable(m, i) <==> results[i].Some?)
    requires forall i :: 0 <= i < k && Readable(m, i) ==> m[i] == results[i]
    ensures OrderedConcat(m, k) == Payload(results[..k])
  {
    if k > 0 {
      OrderedConcatOfResults(m, results, k - 1);
      assert results[..k][..k - 1] == results[..k - 1];
    }
  }

  /**
    Whatever the arrival order, concatenating the map in index order gives
    the chunks' bytes in index order `0..N-1`.
  */
  lemma ReassemblyIgnoresArrivalOrder(order: seq<int>, results: seq<Option<Bytes>>)
    requires IsArrivalOrder(order, |results|)
    ensures OrderedConcat(Replay(order, results), |results|) == Payload(results)
  {
    ReplayContents(order, results);
    ElementsOfArrivalOrder(order, |results|);
    forall i | 0 <= i < |results| ensures i in order {
      assert i in Elements(order);
    }
    OrderedConcatOfResults(Replay(order, results), results, |results|);
    assert results[..|results|] == results;
  }

  lemma {:induction false} PayloadLength(results: seq<Option<Bytes>>, length: int)
    requires forall i :: 0 <= i < |results| ==> results[i].Some? && |results[i].value| == ChunkExtent(i, length)
    ensures |Payload(results)| == CoveredBytes(|results|, length)
  {
    if results != [] {
      PayloadLength(results[..|results| - 1], length);
    }
  }

  /**
    When every planned chunk succeeds and each holds the bytes its range
    selects, the assembled file is exactly `length` bytes long.
  */
  lemma AssembledSizeMatchesContentLength(length: int, results: seq<Option<Bytes>>)
    requires 0 <= length && |results| == ChunkCount(length)
    requires forall i :: 0 <= i < |results| ==> results[i].Some? && |results[i].value| == ChunkExtent(i, length)
    ensures |Payload(results)| == length
  {
    PayloadLength(results, length);
    PlanCoversResource(length);
  }
}
