/** The parts of a slot accumulator's state and what they mean (accumulator.go). */
module SlotState {
  import opened Wire
  import opened Transactions
  import opened Batches
  import opened Streaming
  import opened Shreds
  import opened Pool

  const MAX_U32 := 0xFFFF_FFFF

  // ---------------------------------------------------------------------------
  // Pending shreds

  /** poolPayload holds a pool buffer; recoveredPayload holds bytes of its own. */
  datatype Source = Pooled(handle: Handle) | Unpooled(bytes: Bytes)
  datatype MaybePayload = Payload(bytes: Bytes) | NoPayload

  datatype Pending = Pending(source: Source, payloadEnd: nat, batchComplete: bool, fecSetIndex: nat) {
    function Buffer(): Bytes {
      if source.Pooled? then source.handle.bytes else source.bytes
    }

    /** pendingShred.payload: nothing if the declared end lies outside the buffer. */
    function PayloadBytes(): MaybePayload {
      if payloadEnd < DATA_HEADER_SIZE || payloadEnd > |Buffer()| then NoPayload
      else Payload(Buffer()[DATA_HEADER_SIZE..payloadEnd])
    }

    predicate Intact() {
      DATA_HEADER_SIZE <= payloadEnd <= |Buffer()|
    }
  }

  type PendingMap = map<nat, Pending>

  /** The boundary index lists exactly the pending shreds that end a batch. */
  ghost predicate BoundariesAgree(pending: PendingMap, boundaries: map<nat, int>) {
    forall i :: i in boundaries <==> i in pending && pending[i].batchComplete
  }

  ghost predicate KeysFrom(pending: PendingMap, start: nat) {
    forall i :: i in pending ==> start <= i < MAX_U32
  }

  ghost predicate AllIntact(pending: PendingMap) {
    forall i :: i in pending ==> pending[i].Intact()
  }

  /** Everything from `start` up to the streaming cursor is pending and pool-backed. */
  ghost predicate StreamedFront(pending: PendingMap, start: nat, cursor: nat) {
    forall i :: start <= i < cursor ==> i in pending && pending[i].source.Pooled?
  }

  /** No batch ends before the streaming cursor. */
  ghost predicate NoBoundaryBefore(boundaries: map<nat, int>, cursor: nat) {
    forall i :: i in boundaries ==> cursor <= i
  }

  ghost predicate AllPending(pending: PendingMap, lo: nat, hi: nat) {
    forall i :: lo <= i < hi ==> i in pending
  }

  // ---------------------------------------------------------------------------
  // Buffer ownership

  /** The pool buffers held by pending shreds. */
  ghost function Owned(pending: PendingMap): set<nat> {
    set i | i in pending && pending[i].source.Pooled? :: pending[i].source.handle.idx
  }

  ghost predicate Exclusive(pending: PendingMap) {
    forall i, j :: i in pending && j in pending && i != j && pending[i].source.Pooled? && pending[j].source.Pooled? ==>
      pending[i].source.handle.idx != pending[j].source.handle.idx
  }

  /** The shreds' buffers are their own and none of them is in the free list. */
  ghost predicate Custody(pending: PendingMap, freelist: seq<nat>) {
    NoDuplicates(freelist) && Exclusive(pending) && Owned(pending) !! Elements(freelist)
  }

  /** All buffers that are free or held by pending shreds. */
  ghost function Holdings(pending: PendingMap, freelist: seq<nat>): set<nat> {
    Owned(pending) + Elements(freelist)
  }

  lemma DropPooled(pending: PendingMap, k: nat)
    requires Exclusive(pending) && k in pending && pending[k].source.Pooled?
    ensures Exclusive(pending - {k})
    ensures pending[k].source.handle.idx !in Owned(pending - {k})
    ensures Owned(pending - {k}) + {pending[k].source.handle.idx} == Owned(pending)
  {
    OwnedWithout(pending, k);
  }

  /** Dropping shred `k` keeps the buffers of all others. */
  lemma OwnedWithout(pending: PendingMap, k: nat)
    ensures forall i :: i in pending && i != k && pending[i].source.Pooled? ==>
              pending[i].source.handle.idx in Owned(pending - {k})
  {
    var q := pending - {k};
    forall i | i in pending && i != k && pending[i].source.Pooled? ensures pending[i].source.handle.idx in Owned(q) {
      assert q[i] == pending[i];
    }
  }

  lemma DropUnpooled(pending: PendingMap, k: nat)
    requires Exclusive(pending) && (k in pending ==> pending[k].source.Unpooled?)
    ensures Exclusive(pending - {k}) && Owned(pending - {k}) == Owned(pending)
  {
    OwnedWithout(pending, k);
  }

  lemma AddPooled(pending: PendingMap, k: nat, p: Pending)
    requires Exclusive(pending) && k !in pending && p.source.Pooled? && p.source.handle.idx !in Owned(pending)
    ensures Exclusive(pending[k := p]) && Owned(pending[k := p]) == Owned(pending) + {p.source.handle.idx}
  {
    var q := pending[k := p];
    assert q[k] == p;
    forall x | x in Owned(pending) ensures x in Owned(q) {
      var i :| i in pending && pending[i].source.Pooled? && pending[i].source.handle.idx == x;
      assert q[i] == pending[i];
    }
  }

  // ---------------------------------------------------------------------------
  // Payloads of a range, and contiguous runs

  function PayloadAt(pending: PendingMap, i: nat): Bytes {
    if i in pending && pending[i].PayloadBytes().Payload? then pending[i].PayloadBytes().bytes else []
  }

  /** The payloads of the indices from `lo` to before `hi`, joined. */
  function Combined(pending: PendingMap, lo: nat, hi: nat): Bytes
    decreases hi
  {
    if hi <= lo then [] else Combined(pending, lo, hi - 1) + PayloadAt(pending, hi - 1)
  }

  lemma {:induction false} CombinedFront(pending: PendingMap, lo: nat, hi: nat)
    requires lo < hi
    ensures Combined(pending, lo, hi) == PayloadAt(pending, lo) + Combined(pending, lo + 1, hi)
    decreases hi
  {
    hide PayloadAt;
    if lo + 1 < hi {
      CombinedFront(pending, lo, hi - 1);
    }
  }

  lemma {:induction false} CombinedSplit(pending: PendingMap, lo: nat, mid: nat, hi: nat)
    requires lo <= mid <= hi
    ensures Combined(pending, lo, hi) == Combined(pending, lo, mid) + Combined(pending, mid, hi)
    decreases hi
  {
    hide PayloadAt;
    if mid < hi {
      CombinedSplit(pending, lo, mid, hi - 1);
    }
  }

  /** Only the shreds of the range matter. */
  lemma {:induction false} CombinedAgrees(p: PendingMap, q: PendingMap, lo: nat, hi: nat)
    requires forall i :: lo <= i < hi ==> PayloadAt(p, i) == PayloadAt(q, i)
    ensures Combined(p, lo, hi) == Combined(q, lo, hi)
    decreases hi
  {
    if lo < hi {
      CombinedAgrees(p, q, lo, hi - 1);
    }
  }

  /** saturatingAddU32. */
  function SaturatingAdd32(a: nat, b: nat): nat {
    if a > MAX_U32 - b then MAX_U32 else a + b
  }

  /** Where completeBatch lets the next batch start: past the finished one, unless that ends
      at the last index there is. */
  lemma NextStartMovesOn(end: nat)
    requires end <= MAX_U32
    ensures SaturatingAdd32(end, 1) > end <==> end < MAX_U32
    ensures SaturatingAdd32(end, 1) <= MAX_U32
  {}

  /** A 32-bit loop index after `k` increments. */
  function Counter32(start: nat, k: nat): nat {
    (start + k) % 0x1_0000_0000
  }

  /** The loop that joins the payloads of a batch counts `i <= end; i++` in 32 bits: it comes
      to an end exactly when `end` is not the last index there is. */
  lemma JoinLoopEnds(start: nat, end: nat)
    requires start <= end <= MAX_U32
    ensures (exists k: nat :: Counter32(start, k) > end) <==> end < MAX_U32
  {
    if end < MAX_U32 {
      assert Counter32(start, end + 1 - start) == end + 1;
    }
  }

  /** End of the run of pending indices that starts at `lo`. */
  function RunEnd(pending: PendingMap, lo: nat, hi: nat): (e: nat)
    requires lo <= hi
    ensures lo <= e <= hi && AllPending(pending, lo, e) && (e < hi ==> e !in pending)
    decreases hi - lo
  {
    if lo == hi || lo !in pending then lo else RunEnd(pending, lo + 1, hi)
  }

  /** The maximal runs of pending indices in [lo, hi), in order. */
  function Runs(pending: PendingMap, lo: nat, hi: nat): seq<(nat, nat)>
    decreases hi - lo
  {
    if lo >= hi then []
    else if lo !in pending then Runs(pending, lo + 1, hi)
    else
      assert RunEnd(pending, lo, hi) == RunEnd(pending, lo + 1, hi);
      var e := RunEnd(pending, lo, hi);
      [(lo, e)] + Runs(pending, e, hi)
  }

  ghost predicate Covers(runs: seq<(nat, nat)>, i: nat) {
    exists k :: 0 <= k < |runs| && runs[k].0 <= i < runs[k].1
  }

  lemma RunsUnfold(pending: PendingMap, lo: nat, hi: nat)
    requires lo < hi
    ensures lo !in pending ==> Runs(pending, lo, hi) == Runs(pending, lo + 1, hi)
    ensures lo in pending ==>
              && lo < RunEnd(pending, lo, hi)
              && Runs(pending, lo, hi) == [(lo, RunEnd(pending, lo, hi))] + Runs(pending, RunEnd(pending, lo, hi), hi)
  {
    if lo in pending {
      assert RunEnd(pending, lo, hi) == RunEnd(pending, lo + 1, hi);
    }
  }

  ghost predicate MaximalRun(pending: PendingMap, lo: nat, hi: nat, r: (nat, nat)) {
    lo <= r.0 < r.1 <= hi && AllPending(pending, r.0, r.1) && (r.1 < hi ==> r.1 !in pending)
  }

  /** Runs are non-empty, all pending, as long as possible and in order with a gap
      in between. */
  lemma {:induction false} RunsAreMaximal(pending: PendingMap, lo: nat, hi: nat)
    ensures forall r :: r in Runs(pending, lo, hi) ==> MaximalRun(pending, lo, hi, r)
    ensures forall j, k :: 0 <= j < k < |Runs(pending, lo, hi)| ==>
              Runs(pending, lo, hi)[j].1 < Runs(pending, lo, hi)[k].0
    decreases hi - lo
  {
    hide Runs, RunEnd, AllPending;
    if lo < hi {
      RunsUnfold(pending, lo, hi);
      var next := if lo in pending then RunEnd(pending, lo, hi) else lo + 1;
      RunsAreMaximal(pending, next, hi);
      var rest := Runs(pending, next, hi);
      forall r | r in rest ensures lo in pending ==> next < r.0 {
        assert MaximalRun(pending, next, hi, r);
        RunStartsPending(pending, next, hi, r);
      }
    } else {
      NoRuns(pending, lo, hi);
    }
  }

  lemma NoRuns(pending: PendingMap, lo: nat, hi: nat)
    requires lo >= hi
    ensures Runs(pending, lo, hi) == []
  {}

  lemma RunStartsPending(pending: PendingMap, lo: nat, hi: nat, r: (nat, nat))
    requires MaximalRun(pending, lo, hi, r)
    ensures r.0 in pending
  {}

  /** Together the runs are exactly the pending indices of the range. */
  lemma {:induction false} RunsCover(pending: PendingMap, lo: nat, hi: nat, i: nat)
    requires lo <= i < hi
    ensures i in pending <==> Covers(Runs(pending, lo, hi), i)
    decreases hi - lo
  {
    hide Runs;
    RunsUnfold(pending, lo, hi);
    var runs := Runs(pending, lo, hi);
    if lo !in pending {
      if i == lo {
        RunsAreMaximal(pending, lo + 1, hi);
        assert forall k :: 0 <= k < |runs| ==> MaximalRun(pending, lo + 1, hi, runs[k]);
      } else {
        RunsCover(pending, lo + 1, hi, i);
      }
    } else {
      var e := RunEnd(pending, lo, hi);
      var rest := Runs(pending, e, hi);
      if i < e {
        assert runs[0].0 <= i < runs[0].1;
      } else {
        RunsCover(pending, e, hi, i);
        if Covers(rest, i) {
          var k :| 0 <= k < |rest| && rest[k].0 <= i < rest[k].1;
          assert runs[k + 1] == rest[k];
        }
      }
    }
  }

  /** Transactions decoded run by run. */
  function SalvagedFrom(pending: PendingMap, runs: seq<(nat, nat)>): seq<Transaction> {
    if runs == [] then []
    else ConcatenatedAt(Combined(pending, runs[0].0, runs[0].1), 0) + SalvagedFrom(pending, runs[1..])
  }

  function Salvaged(pending: PendingMap, lo: nat, hi: nat): seq<Transaction> {
    SalvagedFrom(pending, Runs(pending, lo, hi))
  }

  lemma SalvageStep(pending: PendingMap, lo: nat, hi: nat)
    requires lo < hi
    ensures lo !in pending ==> Salvaged(pending, lo, hi) == Salvaged(pending, lo + 1, hi)
    ensures lo in pending ==>
              var e := RunEnd(pending, lo, hi);
              && lo < e
              && Salvaged(pending, lo, hi) == ConcatenatedAt(Combined(pending, lo, e), 0) + Salvaged(pending, e, hi)
  {
    hide Runs, Combined, ConcatenatedAt, RunEnd;
    RunsUnfold(pending, lo, hi);
    if lo in pending {
      var e := RunEnd(pending, lo, hi);
      assert Runs(pending, lo, hi)[1..] == Runs(pending, e, hi);
    }
  }

  /** A gap at the end of the range holds nothing to salvage. */
  lemma {:induction false} SalvageTrimmed(pending: PendingMap, lo: nat, hi: nat)
    requires lo <= hi && hi !in pending
    ensures Salvaged(pending, lo, hi + 1) == Salvaged(pending, lo, hi)
    decreases hi - lo
  {
    hide Salvaged, Combined, ConcatenatedAt;
    SalvageStep(pending, lo, hi + 1);
    if lo == hi {
      SalvageNothing(pending, hi, hi);
      SalvageNothing(pending, hi + 1, hi + 1);
    } else {
      SalvageStep(pending, lo, hi);
      if lo in pending {
        RunEndTrimmed(pending, lo, hi);
        SalvageTrimmed(pending, RunEnd(pending, lo, hi), hi);
      } else {
        SalvageTrimmed(pending, lo + 1, hi);
      }
    }
  }

  lemma SalvageNothing(pending: PendingMap, lo: nat, hi: nat)
    requires lo >= hi
    ensures Salvaged(pending, lo, hi) == []
  {}

  lemma {:induction false} RunEndTrimmed(pending: PendingMap, lo: nat, hi: nat)
    requires lo <= hi && hi !in pending
    ensures RunEnd(pending, lo, hi + 1) == RunEnd(pending, lo, hi)
    decreases hi - lo
  {
    if lo < hi && lo in pending {
      RunEndTrimmed(pending, lo + 1, hi);
    }
  }

  // ---------------------------------------------------------------------------
  // Streaming from the cursor on

  /** Where streaming stops, what the decoder holds then and what it has yielded. */
  datatype Streamed = Streamed(cursor: nat, buffer: Bytes, txs: seq<Transaction>, failed: bool)

  /** What a longer buffer yields beyond a shorter one. */
  ghost function Beyond(b: Bytes, longer: Bytes): seq<Transaction> {
    if |Yielded(b)| <= |Yielded(longer)| then Yielded(longer)[|Yielded(b)|..] else []
  }

  /** Feed payloads from `cursor` on to a decoder that holds `buffer`, up to a gap, a rebuilt
      shred, an error or the end of a batch. */
  ghost function StreamRun(pending: PendingMap, buffer: Bytes, cursor: nat): (r: Streamed)
    ensures cursor <= r.cursor
    decreases if cursor < MAX_U32 then MAX_U32 - cursor else 0
  {
    if cursor >= MAX_U32 || cursor !in pending || pending[cursor].source.Unpooled? then
      Streamed(cursor, buffer, [], false)
    else
      var longer := buffer + PayloadAt(pending, cursor);
      if Fails(longer) then Streamed(cursor + 1, [], [], true)
      else if pending[cursor].batchComplete then Streamed(cursor + 1, longer, Beyond(buffer, longer), false)
      else
        var rest := StreamRun(pending, longer, cursor + 1);
        rest.(txs := Beyond(buffer, longer) + rest.txs)
  }

  /** Streaming stands at a gap or a rebuilt shred, or right after the end of a batch. */
  ghost predicate StreamStops(pending: PendingMap, from: nat, cursor: nat) {
    || cursor >= MAX_U32 || cursor !in pending || pending[cursor].source.Unpooled?
    || (from < cursor && cursor - 1 in pending && pending[cursor - 1].batchComplete)
  }

  /** Without an error the decoder has been given exactly the payloads passed over and has
      yielded what they add; an error is that of the payloads up to there. */
  lemma {:induction false} StreamRunMeaning(pending: PendingMap, buffer: Bytes, cursor: nat)
    requires !Fails(buffer)
    ensures var r := StreamRun(pending, buffer, cursor);
            if r.failed then Fails(buffer + Combined(pending, cursor, r.cursor))
            else && r.buffer == buffer + Combined(pending, cursor, r.cursor) && !Fails(r.buffer)
                 && Yielded(r.buffer) == Yielded(buffer) + r.txs && StreamStops(pending, cursor, r.cursor)
    decreases if cursor < MAX_U32 then MAX_U32 - cursor else 0
  {
    hide Fails, Yielded, Combined, PayloadAt;
    NothingCombined(pending, cursor);
    assert buffer + [] == buffer;
    if cursor < MAX_U32 && cursor in pending && pending[cursor].source.Pooled? {
      var payload := PayloadAt(pending, cursor);
      var longer := buffer + payload;
      OneCombined(pending, cursor);
      if !Fails(longer) {
        YieldedIsPrefix(buffer, payload);
        assert Yielded(longer) == Yielded(buffer) + Beyond(buffer, longer);
        if !pending[cursor].batchComplete {
          StreamRunMeaning(pending, longer, cursor + 1);
          var r := StreamRun(pending, longer, cursor + 1);
          CombinedFront(pending, cursor, r.cursor);
          assert longer + Combined(pending, cursor + 1, r.cursor) == buffer + Combined(pending, cursor, r.cursor);
          assert (Yielded(buffer) + Beyond(buffer, longer)) + r.txs
              == Yielded(buffer) + (Beyond(buffer, longer) + r.txs);
        }
      }
    }
  }

  lemma NothingCombined(pending: PendingMap, lo: nat)
    ensures Combined(pending, lo, lo) == []
  {}

  lemma OneCombined(pending: PendingMap, lo: nat)
    ensures Combined(pending, lo, lo + 1) == PayloadAt(pending, lo)
  {
    assert Combined(pending, lo, lo) == [];
  }

  // ---------------------------------------------------------------------------
  // Emission without repeats

  /** First signatures of the transactions that have one. */
  ghost function FirstSignatures(txs: seq<Transaction>): set<Bytes> {
    set i | 0 <= i < |txs| && |txs[i].signatures| > 0 :: txs[i].signatures[0]
  }

  /** The transactions whose first signature is new, in order. */
  ghost function NewOnes(seen: set<Bytes>, txs: seq<Transaction>): seq<Transaction>
    decreases txs
  {
    if txs == [] then []
    else
      var init, last := txs[..|txs| - 1], txs[|txs| - 1];
      if |last.signatures| == 0 || last.signatures[0] in seen + FirstSignatures(init) then NewOnes(seen, init)
      else NewOnes(seen, init) + [last]
  }

  /** Every transaction has a first signature and no two share it. */
  ghost predicate DistinctSignatures(txs: seq<Transaction>) {
    && (forall i :: 0 <= i < |txs| ==> |txs[i].signatures| > 0)
    && (forall i, j :: 0 <= i < j < |txs| ==> txs[i].signatures[0] != txs[j].signatures[0])
  }

  /** `emitted` are distinct and `seen` is the set of their first signatures. */
  ghost predicate Emission(emitted: seq<Transaction>, seen: set<Bytes>) {
    DistinctSignatures(emitted) && FirstSignatures(emitted) == seen
  }

  lemma FirstSignaturesSnoc(txs: seq<Transaction>, tx: Transaction)
    ensures FirstSignatures(txs + [tx])
            == FirstSignatures(txs) + (if |tx.signatures| > 0 then {tx.signatures[0]} else {})
  {
    var all := txs + [tx];
    forall s | s in FirstSignatures(txs) ensures s in FirstSignatures(all) {
      var i :| 0 <= i < |txs| && |txs[i].signatures| > 0 && txs[i].signatures[0] == s;
      assert all[i] == txs[i];
    }
    assert all[|txs|] == tx;
  }

  lemma {:induction false} FirstSignaturesConcat(a: seq<Transaction>, b: seq<Transaction>)
    ensures FirstSignatures(a + b) == FirstSignatures(a) + FirstSignatures(b)
    decreases b
  {
    if b == [] {
      assert a + b == a;
    } else {
      var init, last := b[..|b| - 1], b[|b| - 1];
      FirstSignaturesConcat(a, init);
      assert a + b == (a + init) + [last] && b == init + [last];
      FirstSignaturesSnoc(a + init, last);
      FirstSignaturesSnoc(init, last);
    }
  }

  lemma {:induction false} NewOnesConcat(seen: set<Bytes>, a: seq<Transaction>, b: seq<Transaction>)
    ensures NewOnes(seen, a + b) == NewOnes(seen, a) + NewOnes(seen + FirstSignatures(a), b)
    decreases b
  {
    if b == [] {
      assert a + b == a;
    } else {
      var init, last := b[..|b| - 1], b[|b| - 1];
      assert (a + b)[..|a + b| - 1] == a + init && (a + b)[|a + b| - 1] == last;
      NewOnesConcat(seen, a, init);
      FirstSignaturesConcat(a, init);
      assert seen + FirstSignatures(a + init) == (seen + FirstSignatures(a)) + FirstSignatures(init);
    }
  }

  lemma EmissionSnoc(emitted: seq<Transaction>, seen: set<Bytes>, tx: Transaction)
    requires Emission(emitted, seen) && |tx.signatures| > 0 && tx.signatures[0] !in seen
    ensures Emission(emitted + [tx], seen + {tx.signatures[0]})
  {
    FirstSignaturesSnoc(emitted, tx);
    forall i | 0 <= i < |emitted| ensures emitted[i].signatures[0] != tx.signatures[0] {
      assert emitted[i].signatures[0] in FirstSignatures(emitted);
    }
  }

  /** Emitting the new ones keeps emission free of repeats and misses nothing. */
  lemma {:induction false} EmissionExtends(emitted: seq<Transaction>, seen: set<Bytes>, txs: seq<Transaction>)
    requires Emission(emitted, seen)
    ensures Emission(emitted + NewOnes(seen, txs), seen + FirstSignatures(txs))
    decreases txs
  {
    if txs == [] {
      assert emitted + [] == emitted;
    } else {
      hide Emission, FirstSignatures;
      var init, last := txs[..|txs| - 1], txs[|txs| - 1];
      assert txs == init + [last];
      EmissionExtends(emitted, seen, init);
      FirstSignaturesSnoc(init, last);
      var before := emitted + NewOnes(seen, init);
      var known := seen + FirstSignatures(init);
      if |last.signatures| > 0 && last.signatures[0] !in known {
        EmissionSnoc(before, known, last);
        assert emitted + NewOnes(seen, txs) == before + [last];
        assert seen + FirstSignatures(txs) == known + {last.signatures[0]};
      } else {
        assert seen + FirstSignatures(txs) == known;
      }
    }
  }
}
