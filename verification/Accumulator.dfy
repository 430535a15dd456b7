/** The slot accumulator of accumulator.go: an object whose pushes collect shreds, stream
    and flush batches, and recover lost shreds. */
module Accumulators {
  import Galois
  import opened Wire
  import opened Transactions
  import opened Batches
  import opened Streaming
  import opened Shreds
  import opened ReedSolomon
  import opened ErasureCoding
  import opened CodecCache
  import opened Recovery
  import opened Pool
  import opened SlotState
  import opened Filling
  import opened Epochs

  /** The counters of one accumulator. */
  datatype Stats = Stats(
    decodeErrors: nat, recoveriesDone: nat, recoveryFailures: nat,
    batchesDecodedStreaming: nat, batchesDecodedFallback: nat, batchesSkipped: nat,
    fecSetsDiscardedUnused: nat, fecSetsEvictedEarly: nat, salvagedTailTx: nat,
    batchesForceFinalizedCorrupted: nat, batchesForceFinalizedTimeout: nat)

  const NO_STATS := Stats(0, 0, 0, 0, 0, 0, 0, 0, 0, 0, 0)

  datatype Boundary = Boundary(index: nat, firstSeen: int) | NoBoundary

  class Accumulator {
    const maxFecSets: int
    const stuckTimeout: int
    const decoder: StreamingDecoder

    var pending: PendingMap
    var fecSets: map<nat, FecSet>
    var boundaries: map<nat, int>
    var streamingCursor: nat
    var yieldedSigs: set<Bytes>
    var batchStart: nat
    var slotComplete: bool
    var salvageDisabled: bool
    var stats: Stats

    /** What was emitted since the last finished batch, and the finished batches. */
    ghost var current: seq<Transaction>
    ghost var log: seq<Epoch>

    /** Holds whenever no method is running. */
    ghost predicate Valid()
      reads this, decoder
    {
      Consistent() && Finished() == |log|
    }

    /** The batches accounted for in the counters. */
    ghost function Finished(): nat
      reads this
    {
      stats.batchesDecodedStreaming + stats.batchesDecodedFallback + stats.batchesSkipped
    }

    /** The state invariants except for the count of finished batches. */
    ghost predicate Consistent()
      reads this, decoder
    {
      && BoundariesAgree(pending, boundaries)
      && KeysFrom(pending, batchStart)
      && batchStart <= streamingCursor <= MAX_U32
      && FecSetsOk(fecSets)
      && Emission(current, yieldedSigs)
      && LogOk(log) && Chains(log, 0, batchStart)
      && decoder.Valid()
    }

    /** Every shred came with a payload inside its buffer; then streaming only ever
        passes over pool-backed shreds that stay pending. */
    ghost predicate Clean()
      reads this
    {
      && AllIntact(pending)
      && StreamedFront(pending, batchStart, streamingCursor)
      && stats.batchesForceFinalizedCorrupted == 0
    }

    /** Streaming has left no finished batch behind. */
    ghost predicate Settled()
      reads this
    {
      NoBoundaryBefore(boundaries, streamingCursor)
    }

    /** All transactions this accumulator has ever emitted. */
    ghost function Emitted(): seq<Transaction>
      reads this`log, this`current
    {
      LogTransactions(log) + current
    }

    /** The state as far as pushes go. */
    ghost function Now(): View
      reads this, decoder
    {
      View(pending, boundaries, fecSets, log, batchStart, streamingCursor, decoder.buffer, current, yieldedSigs,
           stats.recoveriesDone, slotComplete)
    }

    constructor (maxFecSets: int, stuckTimeout: int, salvageDisabled: bool)
      ensures Valid() && Clean() && Settled() && fresh(decoder)
      ensures pending == map[] && fecSets == map[] && boundaries == map[] && batchStart == 0 && streamingCursor == 0
      ensures Emitted() == [] && log == [] && !slotComplete && stats == NO_STATS
      ensures current == [] && yieldedSigs == {} && decoder.buffer == []
      ensures this.maxFecSets == maxFecSets && this.stuckTimeout == stuckTimeout
      ensures this.salvageDisabled == salvageDisabled
    {
      hide StreamingDecoder.Valid, Emission;
      NothingEmitted();
      this.maxFecSets, this.stuckTimeout, this.salvageDisabled := maxFecSets, stuckTimeout, salvageDisabled;
      decoder := new StreamingDecoder();
      pending, fecSets, boundaries := map[], map[], map[];
      streamingCursor, batchStart, slotComplete := 0, 0, false;
      yieldedSigs, stats := {}, NO_STATS;
      current, log := [], [];
    }

    // -------------------------------------------------------------------------
    // Emission

    /** recordSig for each transaction in turn; the new ones are emitted. */
    method Deliver(txs: seq<Transaction>) returns (out: seq<Transaction>)
      requires Emission(current, yieldedSigs)
      modifies this`yieldedSigs, this`current
      ensures out == NewOnes(old(yieldedSigs), txs)
      ensures yieldedSigs == old(yieldedSigs) + FirstSignatures(txs)
      ensures current == old(current) + out
      ensures Emission(current, yieldedSigs)
    {
      hide Emission, FirstSignatures;
      out := [];
      assert txs[..0] == [];
      NoSignatures();
      for i := 0 to |txs|
        invariant out == NewOnes(old(yieldedSigs), txs[..i])
        invariant yieldedSigs == old(yieldedSigs) + FirstSignatures(txs[..i])
        invariant current == old(current) + out
      {
        var tx := txs[i];
        assert txs[..i + 1] == txs[..i] + [tx];
        assert txs[..i + 1][..i] == txs[..i];
        FirstSignaturesSnoc(txs[..i], tx);
        if |tx.signatures| > 0 && tx.signatures[0] !in yieldedSigs {
          yieldedSigs := yieldedSigs + {tx.signatures[0]};
          out := out + [tx];
          current := current + [tx];
        }
      }
      assert txs[..|txs|] == txs;
      EmissionExtends(old(current), old(yieldedSigs), txs);
    }

    // -------------------------------------------------------------------------
    // Salvage

    /** Skip missing indices; `hit` if the last 32-bit index was reached. */
    method SkipGap(first: nat, end: nat) returns (cursor: nat, hit: bool)
      requires first <= end <= MAX_U32
      ensures Salvaged(pending, first, end + 1) == Salvaged(pending, cursor, end + 1)
      ensures first <= cursor <= end + 1 && (cursor <= end ==> cursor in pending)
      ensures hit ==> cursor == end + 1
      ensures cursor == end + 1 && end == MAX_U32 ==> hit
    {
      hide Runs, SalvagedFrom, Salvaged;
      cursor := first;
      while cursor <= end && cursor !in pending
        invariant first <= cursor <= end + 1
        invariant Salvaged(pending, first, end + 1) == Salvaged(pending, cursor, end + 1)
        invariant cursor <= end || end < MAX_U32
      {
        SalvageStep(pending, cursor, end + 1);
        if cursor == MAX_U32 {
          return cursor + 1, true;
        }
        cursor := cursor + 1;
      }
      hit := false;
    }

    /** Join the payloads of one run; `hit` if it ends at the last 32-bit index. */
    method GatherRun(start: nat, end: nat) returns (cursor: nat, hit: bool, scratch: Bytes)
      requires start <= end <= MAX_U32 && start in pending
      ensures cursor == RunEnd(pending, start, end + 1) && start < cursor
      ensures scratch == Combined(pending, start, cursor)
      ensures hit <==> cursor == MAX_U32 + 1
    {
      cursor, scratch := start, [];
      while cursor <= end && cursor in pending
        invariant start <= cursor <= end + 1 && (cursor == start ==> start in pending)
        invariant RunEnd(pending, start, end + 1) == RunEnd(pending, cursor, end + 1)
        invariant scratch == Combined(pending, start, cursor)
        invariant cursor <= MAX_U32
      {
        scratch := scratch + PayloadAt(pending, cursor);
        if cursor == MAX_U32 {
          return cursor + 1, true, scratch;
        }
        cursor := cursor + 1;
      }
      hit := false;
    }

    /** salvageContiguousRunsIn: decode every contiguous run of [start, end] once, in
        order, also when the range reaches the last 32-bit index. */
    method SalvageRuns(start: nat, end: nat) returns (out: seq<Transaction>)
      requires Emission(current, yieldedSigs) && end <= MAX_U32
      modifies this`yieldedSigs, this`current
      ensures out == NewOnes(old(yieldedSigs), Salvaged(pending, start, end + 1))
      ensures yieldedSigs == old(yieldedSigs) + FirstSignatures(Salvaged(pending, start, end + 1))
      ensures current == old(current) + out && Emission(current, yieldedSigs)
    {
      hide Emission, FirstSignatures, NewOnes, Salvaged, Combined, RunEnd, ConcatenatedAt;
      out := [];
      ghost var all, done := Salvaged(pending, start, end + 1), [];
      NewOnesNothing(yieldedSigs);
      assert done + all == all;
      if start > end {
        NothingSalvaged(pending, start, end + 1);
      }
      var cursor := start;
      while cursor <= end
        invariant cursor <= end ==> all == done + Salvaged(pending, cursor, end + 1)
        invariant cursor > end ==> all == done
        invariant out == NewOnes(old(yieldedSigs), done)
        invariant yieldedSigs == old(yieldedSigs) + FirstSignatures(done)
        invariant current == old(current) + out && Emission(current, yieldedSigs)
        decreases end + 1 - cursor
      {
        var hit, scratch;
        cursor, hit := SkipGap(cursor, end);
        if cursor > end {
          NothingSalvaged(pending, cursor, end + 1);
          assert done + [] == done;
          if hit {
            return;
          }
          break;
        }
        ghost var runStart := cursor;
        SalvageStep(pending, runStart, end + 1);
        cursor, hit, scratch := GatherRun(cursor, end);
        var txs := DecodeConcatenated(scratch);
        ghost var rest := Salvaged(pending, cursor, end + 1);
        assert done + (txs + rest) == (done + txs) + rest;
        NewOnesConcat(old(yieldedSigs), done, txs);
        FirstSignaturesConcat(done, txs);
        var news := Deliver(txs);
        out := out + news;
        done := done + txs;
        if cursor > end {
          NothingSalvaged(pending, cursor, end + 1);
          assert done + [] == done;
        }
        if hit {
          return;
        }
      }
    }

    // -------------------------------------------------------------------------
    // Finishing a batch

    /** Release and forget pending shred `k`. */
    method Drop(k: nat, pool: BufferPool)
      requires k in pending && Custody(pending, pool.freelist)
      modifies this`pending, pool
      ensures pending == old(pending) - {k}
      ensures Custody(pending, pool.freelist)
      ensures Holdings(pending, pool.freelist) == old(Holdings(pending, pool.freelist))
    {
      hide Exclusive, Owned;
      var source := pending[k].source;
      if source.Pooled? {
        DropPooled(pending, k);
        pool.Release(source.handle.idx);
      } else {
        DropUnpooled(pending, k);
      }
      pending := pending - {k};
    }

    /** Release and forget every pending shred below `next`. */
    method DropBelow(next: nat, pool: BufferPool)
      requires Custody(pending, pool.freelist)
      modifies this`pending, pool
      ensures pending == From(old(pending), next)
      ensures Custody(pending, pool.freelist)
      ensures Holdings(pending, pool.freelist) == old(Holdings(pending, pool.freelist))
    {
      hide Custody, Holdings;
      var todo := set k | k in pending && k < next;
      while todo != {}
        invariant todo <= pending.Keys
        invariant forall i :: i in pending <==> i in old(pending) && (i >= next || i in todo)
        invariant forall i :: i in pending ==> pending[i] == old(pending)[i]
        invariant Custody(pending, pool.freelist)
        invariant Holdings(pending, pool.freelist) == old(Holdings(pending, pool.freelist))
        decreases todo
      {
        var k :| k in todo;
        todo := todo - {k};
        Drop(k, pool);
      }
    }

    /** Forget the boundaries below `next` and the FEC sets that end there. */
    method ForgetBelow(next: nat)
      modifies this`boundaries, this`fecSets
      ensures boundaries == From(old(boundaries), next) && fecSets == SetsFrom(old(fecSets), next)
    {
      boundaries := map k | k in boundaries && k >= next :: boundaries[k];
      fecSets := SetsFrom(fecSets, next);
    }

    /** Move the batch start, and the cursor if it is behind. */
    method MoveStart(next: nat)
      modifies this`batchStart, this`streamingCursor
      ensures batchStart == next
      ensures streamingCursor == (if old(streamingCursor) < next then next else old(streamingCursor))
    {
      batchStart := next;
      if streamingCursor < next {
        streamingCursor := next;
      }
    }

    /** Close the current epoch. */
    method ClearSignatures(ghost e: Epoch)
      requires Emission(current, yieldedSigs) && LogOk(log) && Chains(log, 0, e.start) && e.start <= e.end
      requires e.emitted == current && FirstSignatures(Content(e.start, e.end, e.pending)) <= yieldedSigs
      modifies this`yieldedSigs, this`current, this`log
      ensures Emission(current, yieldedSigs) && LogOk(log) && Chains(log, 0, e.end + 1)
      ensures log == old(log) + [e] && current == [] && yieldedSigs == {}
      ensures Emitted() == old(Emitted())
    {
      hide Emission, LogOk, FirstSignatures, Chains, Content;
      LogExtends(log, yieldedSigs, e, 0);
      NothingEmitted();
      yieldedSigs := {};
      log := log + [e];
      current := [];
    }

    /** completeBatch: everything up to `end` is finished with. */
    method CompleteBatch(end: nat, pool: BufferPool)
      requires Consistent() && Custody(pending, pool.freelist) && Finished() == |log| + 1
      requires batchStart <= end < MAX_U32
      requires FirstSignatures(Content(batchStart, end, pending)) <= yieldedSigs
      modifies this`pending, this`boundaries, this`fecSets, this`batchStart, this`streamingCursor,
               this`yieldedSigs, this`current, this`log, decoder, pool
      ensures Valid()
      ensures Custody(pending, pool.freelist)
      ensures Holdings(pending, pool.freelist) == old(Holdings(pending, pool.freelist))
      ensures batchStart == end + 1
      ensures pending == From(old(pending), end + 1) && boundaries == From(old(boundaries), end + 1)
      ensures fecSets == SetsFrom(old(fecSets), end + 1)
      ensures forall f :: f in old(fecSets) ==>
                (f in fecSets <==> old(fecSets)[f].numData == 0 || end + 1 < f + old(fecSets)[f].numData)
      ensures streamingCursor == (if old(streamingCursor) <= end then end + 1 else old(streamingCursor))
      ensures log == old(log) + [Epoch(old(batchStart), end, old(pending), old(current))]
      ensures current == [] && yieldedSigs == {} && decoder.buffer == []
      ensures Emitted() == old(Emitted())
      ensures old(Clean()) ==> Clean()
    {
      hide StreamingDecoder.Valid, Emission, LogOk, Chains, Content, Custody, Holdings, FirstSignatures,
        LogTransactions, FecSetsOk, AllIntact, StreamedFront, BoundariesAgree, KeysFrom, From, SetsFrom;
      CleanFrom(pending, batchStart, streamingCursor, end + 1);
      ConsistentFrom(pending, boundaries, batchStart, end + 1);
      SetsFromOk(fecSets, end + 1);
      SetsFromMeaning(fecSets, end + 1);
      NextStartMovesOn(end);
      ghost var e := Epoch(batchStart, end, pending, current);
      var next := SaturatingAdd32(end, 1);
      DropBelow(next, pool);
      ForgetBelow(next);
      MoveStart(next);
      decoder.Reset();
      ClearSignatures(e);
    }

    // -------------------------------------------------------------------------
    // Streaming

    /** Feed the payload at the cursor to the decoder and emit what it yields. */
    method StreamOne(payload: Bytes) returns (ok: bool, out: seq<Transaction>)
      requires Consistent() && streamingCursor < MAX_U32
      modifies this`streamingCursor, this`stats, this`yieldedSigs, this`current, decoder
      ensures Consistent() && streamingCursor == old(streamingCursor) + 1
      ensures stats == if ok then old(stats) else old(stats).(decodeErrors := old(stats).decodeErrors + 1)
      ensures Emitted() == old(Emitted()) + out && current == old(current) + out
      ensures ok <==> !Fails(old(decoder.buffer) + payload)
      ensures decoder.buffer == if ok then old(decoder.buffer) + payload else []
      ensures var txs := if ok then Beyond(old(decoder.buffer), old(decoder.buffer) + payload) else [];
              out == NewOnes(old(yieldedSigs), txs) && yieldedSigs == old(yieldedSigs) + FirstSignatures(txs)
    {
      hide StreamingDecoder.Valid, Emission, LogOk, Chains, FecSetsOk, BoundariesAgree, KeysFrom, Fails, Yielded,
        NewOnes, LogTransactions, FirstSignatures;
      var news;
      ok, news := decoder.Push(payload);
      streamingCursor := streamingCursor + 1;
      if !ok {
        stats := stats.(decodeErrors := stats.decodeErrors + 1);
        decoder.Reset();
        NewOnesNothing(yieldedSigs);
        out := [];
      } else {
        assert news == Beyond(old(decoder.buffer), decoder.buffer);
        out := Deliver(news);
      }
      assert LogTransactions(log) + (old(current) + out) == (LogTransactions(log) + old(current)) + out;
    }

    /** Salvage what is there of the batch that ends at `end`, up to `upTo`, then finish it. */
    method GiveUp(upTo: nat, end: nat, pool: BufferPool) returns (out: seq<Transaction>)
      requires Valid() && Custody(pending, pool.freelist) && batchStart <= end < MAX_U32
      requires !AllPending(pending, batchStart, end + 1) && (upTo == end || (upTo + 1 == end && end !in pending))
      modifies this, decoder, pool
      ensures Valid()
      ensures Custody(pending, pool.freelist)
      ensures Holdings(pending, pool.freelist) == old(Holdings(pending, pool.freelist))
      ensures batchStart == end + 1
      ensures pending == From(old(pending), end + 1) && boundaries == From(old(boundaries), end + 1)
      ensures fecSets == SetsFrom(old(fecSets), end + 1)
      ensures streamingCursor == (if old(streamingCursor) <= end then end + 1 else old(streamingCursor))
      ensures slotComplete == old(slotComplete) && salvageDisabled == old(salvageDisabled)
      ensures stats.batchesForceFinalizedCorrupted == old(stats.batchesForceFinalizedCorrupted)
      ensures stats.salvagedTailTx == old(stats.salvagedTailTx) && stats.recoveriesDone == old(stats.recoveriesDone)
      ensures stats.decodeErrors >= old(stats.decodeErrors)
      ensures out == NewOnes(old(yieldedSigs), Content(old(batchStart), end, old(pending)))
      ensures log == old(log) + [Epoch(old(batchStart), end, old(pending), old(current) + out)]
      ensures current == [] && yieldedSigs == {} && decoder.buffer == []
      ensures Emitted() == old(Emitted()) + out && (old(Clean()) ==> Clean())
      ensures stats.batchesSkipped > old(stats.batchesSkipped) <==> out == []
      ensures stats.batchesDecodedFallback > old(stats.batchesDecodedFallback) <==> out != []
    {
      hide AllIntact, StreamedFront, LogTransactions, StreamingDecoder.Valid, Emission, LogOk, Chains, FecSetsOk,
        BoundariesAgree, KeysFrom, Custody, Holdings, NewOnes, Salvaged, Content, FirstSignatures, AllPending, From,
        SetsFrom;
      SalvagedContent(pending, batchStart, upTo, end);
      out := SalvageRuns(batchStart, upTo);
      if |out| > 0 {
        stats := stats.(batchesDecodedFallback := stats.batchesDecodedFallback + 1);
      } else {
        stats := stats.(batchesSkipped := stats.batchesSkipped + 1);
      }
      ghost var e := Epoch(batchStart, end, pending, current);
      CompleteBatch(end, pool);
      EpochClosed(old(log), old(current), out, e);
    }

    /** Drop the shred at the cursor and move past it. */
    method ForgetAtCursor(pool: BufferPool)
      requires Valid() && Custody(pending, pool.freelist) && streamingCursor in pending
      modifies this`pending, this`boundaries, this`streamingCursor, this`stats, pool
      ensures Valid() && streamingCursor == old(streamingCursor) + 1
      ensures Custody(pending, pool.freelist)
      ensures Holdings(pending, pool.freelist) == old(Holdings(pending, pool.freelist))
      ensures pending == old(pending) - {old(streamingCursor)} && boundaries == old(boundaries) - {old(streamingCursor)}
      ensures stats == old(stats).(decodeErrors := old(stats).decodeErrors + 1)
    {
      hide StreamingDecoder.Valid, Emission, LogOk, Chains, FecSetsOk, Custody, Holdings;
      var dropped, flag := streamingCursor, pending[streamingCursor].batchComplete;
      Drop(dropped, pool);
      if flag {
        boundaries := boundaries - {dropped};
      }
      streamingCursor := streamingCursor + 1;
      stats := stats.(decodeErrors := stats.decodeErrors + 1);
    }

    /** The shred at the cursor has no payload: drop it, and if it ended a batch that
        has begun, finish that batch without it. */
    method DropCorrupt(pool: BufferPool) returns (out: seq<Transaction>)
      requires Valid() && Custody(pending, pool.freelist) && streamingCursor in pending
      modifies this, decoder, pool
      ensures Valid()
      ensures Custody(pending, pool.freelist)
      ensures Holdings(pending, pool.freelist) == old(Holdings(pending, pool.freelist))
      ensures streamingCursor == old(streamingCursor) + 1 && batchStart >= old(batchStart)
      ensures slotComplete == old(slotComplete) && salvageDisabled == old(salvageDisabled)
      ensures Emitted() == old(Emitted()) + out
      ensures stats.decodeErrors > old(stats.decodeErrors) && stats.recoveriesDone == old(stats.recoveriesDone)
      ensures var cursor, rest := old(streamingCursor), old(pending) - {old(streamingCursor)};
              if old(pending)[cursor].batchComplete && cursor > old(batchStart) then
                && batchStart == cursor + 1 && pending == From(rest, cursor + 1)
                && fecSets == SetsFrom(old(fecSets), cursor + 1)
                && log == old(log) + [Epoch(old(batchStart), cursor, rest, old(current) + out)]
                && stats.batchesForceFinalizedCorrupted == old(stats.batchesForceFinalizedCorrupted) + 1
              else
                && batchStart == old(batchStart) && pending == rest && fecSets == old(fecSets) && log == old(log)
                && out == []
                && stats.batchesForceFinalizedCorrupted == old(stats.batchesForceFinalizedCorrupted)
    {
      hide StreamingDecoder.Valid, Emission, LogOk, Chains, FecSetsOk, Custody, Holdings, NewOnes, Content, AllIntact,
        StreamedFront, From, SetsFrom, LogTransactions, BoundariesAgree;
      var dropped, flag := streamingCursor, pending[streamingCursor].batchComplete;
      ghost var before := Emitted();
      ForgetAtCursor(pool);
      out := [];
      assert before + [] == before;
      if flag && dropped > batchStart {
        assert dropped !in pending;
        out := GiveUp(dropped - 1, dropped, pool);
        stats := stats.(batchesForceFinalizedCorrupted := stats.batchesForceFinalizedCorrupted + 1);
      }
    }

    /** advanceStreaming. If every shred came with a payload, this is `StreamRun` on the
        payloads from the cursor on, and what it yields is emitted once. */
    method AdvanceStreaming(pool: BufferPool) returns (out: seq<Transaction>)
      requires Valid() && Custody(pending, pool.freelist)
      modifies this, decoder, pool
      ensures Valid() && stats.recoveriesDone == old(stats.recoveriesDone)
      ensures Custody(pending, pool.freelist)
      ensures Holdings(pending, pool.freelist) == old(Holdings(pending, pool.freelist))
      ensures batchStart >= old(batchStart)
      ensures slotComplete == old(slotComplete) && salvageDisabled == old(salvageDisabled)
      ensures Emitted() == old(Emitted()) + out
      ensures old(Clean()) ==> Clean() && Now() == StreamedView(old(Now()))
      ensures old(Clean()) ==>
                var run := StreamRun(old(pending), old(decoder.buffer), old(streamingCursor));
                && (run.failed <==> stats.decodeErrors > old(stats.decodeErrors))
                && out == NewOnes(old(yieldedSigs), run.txs)
    {
      hide Accumulator.Valid, Accumulator.Emitted, AllIntact, StreamedFront, Custody, Holdings, Fails, Yielded, NewOnes,
        FirstSignatures, Beyond, StreamRun, Underway;
      out := [];
      ghost var txs: seq<Transaction> := [];
      assert Emitted() + [] == Emitted();
      NotUnderway(pending, decoder.buffer, streamingCursor, yieldedSigs);
      ghost var run := StreamRun(pending, decoder.buffer, streamingCursor);
      while streamingCursor in pending && pending[streamingCursor].source.Pooled?
        invariant Valid() && stats.recoveriesDone == old(stats.recoveriesDone)
        invariant stats.decodeErrors >= old(stats.decodeErrors)
        invariant Custody(pending, pool.freelist)
        invariant Holdings(pending, pool.freelist) == old(Holdings(pending, pool.freelist))
        invariant batchStart >= old(batchStart)
        invariant slotComplete == old(slotComplete) && salvageDisabled == old(salvageDisabled)
        invariant Emitted() == old(Emitted()) + out
        invariant old(Clean()) ==>
                    && Clean() && pending == old(pending) && boundaries == old(boundaries) && fecSets == old(fecSets)
                    && log == old(log) && batchStart == old(batchStart) && stats.decodeErrors == old(stats.decodeErrors)
                    && current == old(current) + out
                    && Underway(run, pending, decoder.buffer, streamingCursor, old(yieldedSigs), yieldedSigs, txs, out)
        decreases MAX_U32 - streamingCursor
      {
        ghost var earlier, buffer, cursor, sigs := out, decoder.buffer, streamingCursor, yieldedSigs;
        var more, stop;
        ghost var news;
        more, stop, news := AdvanceOne(pool);
        if old(Clean()) {
          UnderwayOn(run, pending, buffer, cursor, old(yieldedSigs), sigs, txs, out, news, yieldedSigs, more);
        }
        txs := txs + news;
        out := out + more;
        assert old(Emitted()) + earlier + more == old(Emitted()) + out;
        if stop {
          return;
        }
      }
      if old(Clean()) {
        UnderwayEnds(run, pending, decoder.buffer, streamingCursor, old(yieldedSigs), yieldedSigs, txs, out);
      }
    }

    /** The shred at the cursor: streamed, or dropped if it has no payload. */
    method AdvanceOne(pool: BufferPool) returns (out: seq<Transaction>, stop: bool, ghost news: seq<Transaction>)
      requires Valid() && Custody(pending, pool.freelist) && streamingCursor in pending
      modifies this, decoder, pool
      ensures Valid() && streamingCursor == old(streamingCursor) + 1 <= MAX_U32
      ensures Custody(pending, pool.freelist)
      ensures Holdings(pending, pool.freelist) == old(Holdings(pending, pool.freelist))
      ensures batchStart >= old(batchStart)
      ensures slotComplete == old(slotComplete) && salvageDisabled == old(salvageDisabled)
      ensures Emitted() == old(Emitted()) + out
      ensures stats.recoveriesDone == old(stats.recoveriesDone) && stats.decodeErrors >= old(stats.decodeErrors)
      ensures old(Clean()) && old(pending[streamingCursor].source.Pooled?) ==>
                && Clean() && pending == old(pending) && boundaries == old(boundaries) && fecSets == old(fecSets)
                && log == old(log) && batchStart == old(batchStart) && current == old(current) + out
      ensures old(Clean()) ==>
                var longer := old(decoder.buffer) + PayloadAt(old(pending), old(streamingCursor));
                && (stop <==> Fails(longer) || old(pending[streamingCursor].batchComplete))
                && stats.decodeErrors == old(stats.decodeErrors) + (if Fails(longer) then 1 else 0)
                && decoder.buffer == (if Fails(longer) then [] else longer)
                && news == (if Fails(longer) then [] else Beyond(old(decoder.buffer), longer))
                && out == NewOnes(old(yieldedSigs), news) && yieldedSigs == old(yieldedSigs) + FirstSignatures(news)
    {
      hide StreamingDecoder.Valid, Emission, LogOk, Chains, FecSetsOk, BoundariesAgree, Custody, Holdings,
        LogTransactions, Fails, Yielded, NewOnes, FirstSignatures, Beyond, From, SetsFrom;
      var ps := pending[streamingCursor];
      var payload := ps.PayloadBytes();
      news := [];
      if payload.NoPayload? {
        out := DropCorrupt(pool);
        stop := false;
      } else {
        ghost var buffer := decoder.buffer;
        var ok;
        ok, out := StreamOne(payload.bytes);
        news := if ok then Beyond(buffer, buffer + payload.bytes) else [];
        stop := !ok || ps.batchComplete;
      }
    }

    // -------------------------------------------------------------------------
    // Recovery

    /** selectRecoverableSet: the hint if it can be recovered, otherwise the first set
        over the cursor that can. */
    method SelectRecoverable(hint: nat) returns (r: Choice)
      ensures Fillable(fecSets, pending, hint) ==> r == Chosen(hint)
      ensures !Fillable(fecSets, pending, hint) ==>
                && (r.NoSet? ==> forall f :: !Candidate(fecSets, pending, streamingCursor, f))
                && (r.Chosen? ==>
                      && Candidate(fecSets, pending, streamingCursor, r.index)
                      && forall f :: Candidate(fecSets, pending, streamingCursor, f) ==> r.index <= f)
      ensures hint in fecSets && Ripe(fecSets[hint], pending, hint) ==> r == Chosen(hint)
      ensures r.Chosen? ==>
                && r.index in fecSets && fecSets[r.index].numData > 0
                && DataCount(pending, r.index, fecSets[r.index].numData) + |fecSets[r.index].code|
                   >= fecSets[r.index].numData
      ensures r.NoSet? ==> forall f :: f in fecSets && f <= streamingCursor < f + fecSets[f].numData ==>
                DataCount(pending, f, fecSets[f].numData) + |fecSets[f].code| < fecSets[f].numData
    {
      hide DataCount, Ripe;
      if hint in fecSets {
        RipeIsFillable(fecSets, pending, hint);
      }
      if Fillable(fecSets, pending, hint) {
        return Chosen(hint);
      }
      r := NoSet;
      var todo := fecSets.Keys;
      while todo != {}
        invariant todo <= fecSets.Keys
        invariant r.NoSet? ==> forall f :: Candidate(fecSets, pending, streamingCursor, f) ==> f in todo
        invariant r.Chosen? ==>
                    && Candidate(fecSets, pending, streamingCursor, r.index)
                    && forall f :: Candidate(fecSets, pending, streamingCursor, f) ==> f in todo || r.index <= f
        decreases todo
      {
        var f :| f in todo;
        todo := todo - {f};
        if Candidate(fecSets, pending, streamingCursor, f) && (r.NoSet? || f < r.index) {
          r := Chosen(f);
        }
      }
      if r.NoSet? {
        forall f | f in fecSets && f <= streamingCursor < f + fecSets[f].numData
          ensures DataCount(pending, f, fecSets[f].numData) + |fecSets[f].code| < fecSets[f].numData
        {
          assert !Candidate(fecSets, pending, streamingCursor, f);
        }
      }
    }

    /** The received data shreds of a set, in any order. */
    method GatherRefs(f: nat, nd: nat) returns (refs: seq<DataRef>)
      ensures RefsFrom(pending, f, nd, refs)
    {
      hide Gathered, InSet;
      refs := [];
      var todo := pending.Keys;
      GatherNone(pending, f, nd);
      while todo != {}
        invariant todo <= pending.Keys && Gathered(pending, f, nd, refs, todo)
        decreases todo
      {
        ghost var before := todo;
        var i :| i in todo;
        todo := todo - {i};
        assert todo + {i} == before;
        GatherOne(pending, f, nd, refs, todo, i);
        if InSet(pending, f, nd, i) {
          refs := refs + [Ref(pending, f, nd, i)];
        }
      }
      GatheredAll(pending, f, nd, refs);
    }

    /** Enter one rebuilt packet, unless it is old, already here, unreadable, not a data
        shred or the last of the slot. */
    method InsertRebuilt(f: nat, r: DataRef, now: int) returns (added: bool)
      requires BoundariesAgree(pending, boundaries) && KeysFrom(pending, batchStart) && f + r.pos < MAX_U32
      modifies this`pending, this`boundaries, this`slotComplete
      ensures BoundariesAgree(pending, boundaries) && KeysFrom(pending, batchStart)
      ensures added == (f + r.pos >= batchStart && f + r.pos !in old(pending) && Storable(r.raw))
      ensures pending == if added then old(pending)[f + r.pos := Stored(r.raw, f)] else old(pending)
      ensures Grown(old(boundaries), boundaries, now) && (!added ==> boundaries == old(boundaries))
      ensures slotComplete == (old(slotComplete) || BringsLastAt(old(pending), batchStart, f, r))
    {
      hide ParseKind;
      var index := f + r.pos;
      if index < batchStart || index in pending {
        return false;
      }
      var parsed := ParseKind(r.raw);
      if parsed.Unparseable? || parsed.shred.CodeShred? {
        return false;
      }
      var d := parsed.shred;
      if d.lastInSlot {
        slotComplete := true;
        return false;
      }
      pending := pending[index := Pending(Unpooled(r.raw), DATA_HEADER_SIZE + |d.payload|, d.batchComplete, f)];
      if d.batchComplete && index !in boundaries {
        boundaries := boundaries[index := now];
      }
      added := true;
    }

    /** Enter all rebuilt packets of a set. */
    method InsertAll(f: nat, refs: seq<DataRef>, now: int) returns (any: bool)
      requires BoundariesAgree(pending, boundaries) && KeysFrom(pending, batchStart)
      requires forall k :: 0 <= k < |refs| ==> f + refs[k].pos < MAX_U32
      requires forall i, j :: 0 <= i < j < |refs| ==> refs[i].pos < refs[j].pos
      modifies this`pending, this`boundaries, this`slotComplete
      ensures BoundariesAgree(pending, boundaries) && KeysFrom(pending, batchStart)
      ensures FilledFrom(old(pending), pending, f, refs)
      ensures forall k :: 0 <= k < |refs| && Storable(refs[k].raw) && f + refs[k].pos >= batchStart ==>
                f + refs[k].pos in pending
      ensures !any ==> pending == old(pending) && boundaries == old(boundaries)
      ensures any ==> pending != old(pending)
      ensures Grown(old(boundaries), boundaries, now)
      ensures slotComplete == (old(slotComplete) || BringsLast(old(pending), batchStart, f, refs))
    {
      hide ParseKind, Storable, Stored, BoundariesAgree, KeysFrom, BringsLast, BringsLastAt, Grown, Ahead,
        FilledFrom, Entered;
      LastOfNone(pending, batchStart, f, refs);
      NothingAhead(pending, boundaries, f, refs, now);
      FilledWithNothing(pending, f, refs);
      NoneEntered(pending, batchStart, f, refs);
      any := false;
      for n := 0 to |refs|
        invariant BoundariesAgree(pending, boundaries) && KeysFrom(pending, batchStart)
        invariant FilledFrom(old(pending), pending, f, refs)
        invariant Entered(pending, batchStart, f, refs, n)
        invariant !any ==> pending == old(pending) && boundaries == old(boundaries)
        invariant any ==> exists i :: i in pending && i !in old(pending)
        invariant Grown(old(boundaries), boundaries, now)
        invariant Ahead(old(pending), pending, f, refs, n)
        invariant slotComplete == (old(slotComplete) || BringsLast(old(pending), batchStart, f, refs[..n]))
      {
        LastSnoc(old(pending), batchStart, f, refs, n);
        ghost var p, b := pending, boundaries;
        var added := InsertRebuilt(f, refs[n], now);
        EnteredOn(old(pending), p, pending, batchStart, f, refs, n, added);
        AheadOn(old(pending), p, pending, batchStart, f, refs, n, added);
        GrownOn(old(boundaries), b, boundaries, now);
        if added {
          any := true;
          assert f + refs[n].pos in pending && f + refs[n].pos !in old(pending);
        }
      }
      assert refs[..|refs|] == refs;
      AllEntered(pending, batchStart, f, refs);
    }

    /** Reconstruct set `f` and enter what was missing. */
    method RecoverSet(f: nat, now: int, t: Galois.Tables, cache: ReedSolomonCache)
      returns (r: FillResult, ghost rebuilt: seq<DataRef>)
      requires BoundariesAgree(pending, boundaries) && KeysFrom(pending, batchStart)
      requires f in fecSets && fecSets[f].Ok() && f + fecSets[f].numData <= MAX_U32 && t.Valid() && cache.Valid()
      modifies this`pending, this`boundaries, this`slotComplete, cache
      ensures BoundariesAgree(pending, boundaries) && KeysFrom(pending, batchStart) && cache.Valid()
      ensures r != Filled ==> pending == old(pending) && boundaries == old(boundaries)
      ensures Grown(old(boundaries), boundaries, now)
      ensures rebuilt != [] ==> RebuiltFrom(fecSets[f], old(pending), f, rebuilt)
      ensures slotComplete == (old(slotComplete) || BringsLast(old(pending), batchStart, f, rebuilt))
      ensures OnlyUnpooledAdded(old(pending), pending) && AddedBy(old(pending), pending, f, fecSets[f].numData)
      ensures r == Filled ==> RecoveredAsReceived(fecSets[f], old(pending), pending, f)
      ensures Ripe(fecSets[f], old(pending), f) ==> RecoversAll(fecSets[f], old(pending), pending, f, batchStart)
    {
      hide BoundariesAgree, KeysFrom, Storable, Stored, Rebuilds, Enough, ReedSolomonCache.Valid, FecSet.Ok, RefsFrom,
        RecoveredAsReceived, RecoversAll, FilledFrom, HonestSet, OnlyUnpooledAdded, AddedBy, Grown, BringsLast;
      ghost var before := pending;
      rebuilt := [];
      LastOfNone(pending, batchStart, f, rebuilt);
      NothingAhead(pending, boundaries, f, rebuilt, now);
      FilledNothing(pending, f, fecSets[f].numData);
      var fec := fecSets[f];
      var refs := GatherRefs(f, fec.numData);
      var attempt := TryReconstruct(t, fec, refs, cache);
      if attempt.ReconstructFailed? {
        r := FillFailed;
        return;
      }
      if |attempt.refs| == 0 {
        if Ripe(fec, pending, f) {
          FilledWithNothing(pending, f, attempt.refs);
          RecoveryIsReceipt(fec, pending, pending, f, refs, attempt.refs);
          MissingAreRecovered(fec, pending, pending, f, refs, attempt.refs, batchStart);
        }
        r := NothingNew;
        return;
      }
      RebuildsPositions(fec, refs, attempt.refs);
      rebuilt := attempt.refs;
      var any := InsertAll(f, attempt.refs, now);
      FilledUnpooled(before, pending, f, attempt.refs);
      FilledAddedBy(before, pending, f, fec.numData, attempt.refs);
      RecoveryIsReceipt(fec, before, pending, f, refs, attempt.refs);
      MissingAreRecovered(fec, before, pending, f, refs, attempt.refs, batchStart);
      r := if any then Filled else NothingNew;
    }

    /** tryFecFill: recover the chosen set. Either nothing is entered, or the set is used
        up and every new shred is what receiving the lost packet would have stored. */
    method TryFecFill(hint: nat, now: int, t: Galois.Tables, cache: ReedSolomonCache)
      returns (any: bool, ghost choice: Choice, ghost rebuilt: seq<DataRef>)
      requires Valid() && t.Valid() && cache.Valid()
      modifies this`pending, this`boundaries, this`slotComplete, this`fecSets, this`stats, cache
      ensures Valid() && cache.Valid()
      ensures Fillable(old(fecSets), old(pending), hint) ==> choice == Chosen(hint)
      ensures !Fillable(old(fecSets), old(pending), hint) ==>
                if choice.NoSet? then forall f :: !Candidate(old(fecSets), old(pending), streamingCursor, f)
                else && Candidate(old(fecSets), old(pending), streamingCursor, choice.index)
                     && forall f :: Candidate(old(fecSets), old(pending), streamingCursor, f) ==> choice.index <= f
      ensures !any ==> pending == old(pending) && boundaries == old(boundaries) && fecSets == old(fecSets)
      ensures any ==>
                && choice.Chosen? && Fillable(old(fecSets), old(pending), choice.index)
                && fecSets == old(fecSets) - {choice.index}
      ensures any ==> RecoveredAsReceived(old(fecSets)[choice.index], old(pending), pending, choice.index)
      ensures OnlyUnpooledAdded(old(pending), pending)
      ensures Attempted(old(fecSets), old(pending), fecSets, pending, batchStart, choice)
      ensures stats.batchesForceFinalizedCorrupted == old(stats.batchesForceFinalizedCorrupted)
      ensures stats.salvagedTailTx == old(stats.salvagedTailTx) && Grown(old(boundaries), boundaries, now)
      ensures stats.recoveriesDone == old(stats.recoveriesDone) + if any then 1 else 0
      ensures choice.NoSet? ==> rebuilt == []
      ensures rebuilt != [] ==> RebuiltFrom(old(fecSets)[choice.index], old(pending), choice.index, rebuilt)
      ensures slotComplete == (old(slotComplete)
                               || (choice.Chosen? && BringsLast(old(pending), batchStart, choice.index, rebuilt)))
    {
      hide StreamingDecoder.Valid, Emission, LogOk, Chains, BoundariesAgree, KeysFrom, ReedSolomonCache.Valid,
        RecoveredAsReceived, RecoversAll, Ripe, FecSet.Ok, DataCount, OnlyUnpooledAdded, AddedBy, Grown, BringsLast,
        RebuiltFrom;
      any, rebuilt := false, [];
      FilledNothing(pending, 0, 0);
      NothingAhead(pending, boundaries, 0, [], now);
      var chosen := SelectRecoverable(hint);
      choice := chosen;
      if chosen.NoSet? {
        return;
      }
      var r;
      r, rebuilt := RecoverSet(chosen.index, now, t, cache);
      if r == FillFailed {
        stats := stats.(recoveryFailures := stats.recoveryFailures + 1);
      } else if r == Filled {
        any := true;
        stats := stats.(recoveriesDone := stats.recoveriesDone + 1);
        fecSets := fecSets - {chosen.index};
      }
    }

    /** tryFecFill where only the state afterwards matters. */
    method TryHint(hint: nat, now: int, t: Galois.Tables, cache: ReedSolomonCache) returns (ghost choice: Choice)
      requires Valid() && t.Valid() && cache.Valid()
      modifies this`pending, this`boundaries, this`slotComplete, this`fecSets, this`stats, cache
      ensures Valid() && cache.Valid()
      ensures FillFrame(old(pending), old(boundaries), old(fecSets), pending, boundaries, fecSets)
      ensures OnlyUnpooledAdded(old(pending), pending)
      ensures Fillable(old(fecSets), old(pending), hint) ==> choice == Chosen(hint)
      ensures Attempted(old(fecSets), old(pending), fecSets, pending, batchStart, choice)
      ensures stats.batchesForceFinalizedCorrupted == old(stats.batchesForceFinalizedCorrupted)
      ensures stats.salvagedTailTx == old(stats.salvagedTailTx) && (old(slotComplete) ==> slotComplete)
      ensures Grown(old(boundaries), boundaries, now)
      ensures stats.recoveriesDone >= old(stats.recoveriesDone)
      ensures stats.recoveriesDone == old(stats.recoveriesDone) ==>
                pending == old(pending) && boundaries == old(boundaries) && fecSets == old(fecSets)
      ensures NoneFillable(old(fecSets), old(pending)) ==>
                stats.recoveriesDone == old(stats.recoveriesDone) && slotComplete == old(slotComplete)
    {
      hide Accumulator.Valid, ReedSolomonCache.Valid, OnlyUnpooledAdded, RecoveredAsReceived, Fillable, Ripe,
        RecoversAll, FillFrame, Grown, RebuiltFrom;
      ghost var p, b, f := pending, boundaries, fecSets;
      var any;
      ghost var rebuilt;
      any, choice, rebuilt := TryFecFill(hint, now, t, cache);
      FilledOnce(p, b, f, pending, boundaries, fecSets, if choice.Chosen? then choice.index else 0);
    }

    // -------------------------------------------------------------------------
    // Flushing

    /** smallestBatchCompleteIdxFrom. */
    method SmallestBoundary(start: nat) returns (b: Boundary)
      ensures b.NoBoundary? <==> forall i :: i in boundaries ==> i < start
      ensures b.Boundary? ==>
                && b.index in boundaries && b.index >= start && b.firstSeen == boundaries[b.index]
                && forall i :: i in boundaries && i >= start ==> b.index <= i
    {
      b := NoBoundary;
      var todo := boundaries.Keys;
      while todo != {}
        invariant todo <= boundaries.Keys
        invariant b.NoBoundary? ==> forall i :: i in boundaries ==> i < start || i in todo
        invariant b.Boundary? ==>
                    && b.index in boundaries && b.index >= start && b.firstSeen == boundaries[b.index]
                    && forall i :: i in boundaries && i >= start ==> b.index <= i || i in todo
        decreases todo
      {
        var i :| i in todo;
        todo := todo - {i};
        if i >= start && (b.NoBoundary? || i < b.index) {
          b := Boundary(i, boundaries[i]);
        }
      }
    }

    /** countPendingInRange, which also works when `end` is the last 32-bit index. */
    method CountPending(start: nat, end: nat) returns (count: nat)
      requires start <= end
      ensures count <= end - start + 1
      ensures count == end - start + 1 <==> AllPending(pending, start, end + 1)
    {
      count := 0;
      for i := start to end + 1
        invariant count <= i - start
        invariant count == i - start <==> AllPending(pending, start, i)
      {
        if i in pending {
          count := count + 1;
        }
      }
    }

    /** The loop that joins the payloads of a batch. */
    method JoinPayloads(start: nat, end: nat) returns (scratch: Bytes)
      requires start <= end
      ensures scratch == Combined(pending, start, end + 1)
    {
      scratch := [];
      for i := start to end + 1
        invariant scratch == Combined(pending, start, i)
      {
        scratch := scratch + PayloadAt(pending, i);
      }
    }

    /** Decode the batch that ends at `end` as a whole, emit what is new and finish it. */
    method FinishWhole(end: nat, pool: BufferPool) returns (out: seq<Transaction>)
      requires Valid() && Custody(pending, pool.freelist) && batchStart <= end < MAX_U32
      requires AllPending(pending, batchStart, end + 1)
      modifies this, decoder, pool
      ensures Valid()
      ensures Custody(pending, pool.freelist)
      ensures Holdings(pending, pool.freelist) == old(Holdings(pending, pool.freelist))
      ensures batchStart == end + 1
      ensures pending == From(old(pending), end + 1) && boundaries == From(old(boundaries), end + 1)
      ensures fecSets == SetsFrom(old(fecSets), end + 1)
      ensures streamingCursor == (if old(streamingCursor) <= end then end + 1 else old(streamingCursor))
      ensures slotComplete == old(slotComplete) && salvageDisabled == old(salvageDisabled)
      ensures stats.batchesForceFinalizedCorrupted == old(stats.batchesForceFinalizedCorrupted)
      ensures stats.salvagedTailTx == old(stats.salvagedTailTx) && stats.recoveriesDone == old(stats.recoveriesDone)
      ensures stats.decodeErrors >= old(stats.decodeErrors)
      ensures out == NewOnes(old(yieldedSigs), Content(old(batchStart), end, old(pending)))
      ensures log == old(log) + [Epoch(old(batchStart), end, old(pending), old(current) + out)]
      ensures current == [] && yieldedSigs == {} && decoder.buffer == []
      ensures Emitted() == old(Emitted()) + out && (old(Clean()) ==> Clean())
      ensures stats.batchesSkipped > old(stats.batchesSkipped) <==> Content(old(batchStart), end, old(pending)) == []
      ensures stats.batchesDecodedFallback > old(stats.batchesDecodedFallback) <==> out != []
    {
      hide AllIntact, StreamedFront, LogTransactions, StreamingDecoder.Valid, Emission, LogOk, Chains, FecSetsOk,
        BoundariesAgree, KeysFrom, Custody, Holdings, NewOnes, FirstSignatures, Combined, BatchAt, AllPending, Salvaged,
        From, SetsFrom;
      var scratch := JoinPayloads(batchStart, end);
      var batch := DecodeBatch(scratch);
      NewOnesNothing(yieldedSigs);
      out := [];
      if !batch.Batch? || batch.txs == [] {
        stats := stats.(decodeErrors := stats.decodeErrors + 1, batchesSkipped := stats.batchesSkipped + 1);
        assert current + [] == current;
      } else {
        out := Deliver(batch.txs);
        if |out| > 0 {
          stats := stats.(batchesDecodedFallback := stats.batchesDecodedFallback + 1);
        } else {
          stats := stats.(batchesDecodedStreaming := stats.batchesDecodedStreaming + 1);
        }
      }
      ghost var e := Epoch(batchStart, end, pending, current);
      CompleteBatch(end, pool);
      EpochClosed(old(log), old(current), out, e);
    }

    /** Try every FEC set that reaches into the batch that ends at `end`. */
    method FillHints(end: nat, now: int, t: Galois.Tables, cache: ReedSolomonCache)
      requires Valid() && t.Valid() && cache.Valid()
      modifies this`pending, this`boundaries, this`slotComplete, this`fecSets, this`stats, cache
      ensures Valid() && cache.Valid()
      ensures FillFrame(old(pending), old(boundaries), old(fecSets), pending, boundaries, fecSets)
      ensures stats.batchesForceFinalizedCorrupted == old(stats.batchesForceFinalizedCorrupted)
      ensures (old(slotComplete) ==> slotComplete) && Grown(old(boundaries), boundaries, now)
      ensures stats.recoveriesDone >= old(stats.recoveriesDone)
      ensures stats.recoveriesDone == old(stats.recoveriesDone) ==>
                pending == old(pending) && boundaries == old(boundaries) && fecSets == old(fecSets)
      ensures NoneFillable(old(fecSets), old(pending)) ==>
                stats.recoveriesDone == old(stats.recoveriesDone) && slotComplete == old(slotComplete)
      ensures AllServed(old(fecSets), old(pending), pending, Reaching(old(fecSets), batchStart, end), batchStart)
    {
      hide Accumulator.Valid, ReedSolomonCache.Valid, OnlyUnpooledAdded, RecoveredAsReceived, Pursued, Served,
        AllServed, Attempted, FillFrame, Fillable, Reaching, Grown;
      NothingAhead(pending, boundaries, 0, [], now);
      var hints := Reaching(fecSets, batchStart, end);
      ghost var done: set<nat> := {};
      ReachingIsThere(fecSets, batchStart, end);
      NothingFilled(pending, boundaries, fecSets);
      NothingPursued(fecSets, pending, batchStart);
      NoneServed(fecSets, pending, batchStart);
      while hints != {}
        invariant Valid() && cache.Valid()
        invariant FillFrame(old(pending), old(boundaries), old(fecSets), pending, boundaries, fecSets)
        invariant stats.batchesForceFinalizedCorrupted == old(stats.batchesForceFinalizedCorrupted)
        invariant (old(slotComplete) ==> slotComplete) && Grown(old(boundaries), boundaries, now)
        invariant stats.recoveriesDone >= old(stats.recoveriesDone)
        invariant stats.recoveriesDone == old(stats.recoveriesDone) ==>
                    pending == old(pending) && boundaries == old(boundaries) && fecSets == old(fecSets)
        invariant NoneFillable(old(fecSets), old(pending)) ==>
                    stats.recoveriesDone == old(stats.recoveriesDone) && slotComplete == old(slotComplete)
        invariant hints + done == Reaching(old(fecSets), batchStart, end) <= old(fecSets).Keys
        invariant Pursued(old(fecSets), old(pending), fecSets, pending, batchStart)
        invariant AllServed(old(fecSets), old(pending), pending, done, batchStart)
        decreases hints
      {
        var h :| h in hints;
        hints := hints - {h};
        ghost var p, b, f := pending, boundaries, fecSets;
        ghost var choice := TryHint(h, now, t, cache);
        GrownOn(old(boundaries), b, boundaries, now);
        FillFrameTransitive(old(pending), old(boundaries), old(fecSets), p, b, f, pending, boundaries, fecSets);
        PursueHint(old(fecSets), old(pending), f, p, fecSets, pending, batchStart, choice, h);
        PursueOne(old(fecSets), old(pending), f, p, fecSets, pending, batchStart, choice);
        OneMoreServed(old(fecSets), old(pending), p, pending, done, h, batchStart);
        done := done + {h};
      }
      assert hints + done == done;
    }

    /** tryFlushBatches: finish batches while the first one is complete or has waited too
        long. Recovery may add boundaries on the way, but each time uses up a FEC set. */
    method TryFlush(now: int, t: Galois.Tables, pool: BufferPool, cache: ReedSolomonCache)
      returns (out: seq<Transaction>, ghost views: seq<View>)
      requires Valid() && Custody(pending, pool.freelist) && t.Valid() && cache.Valid()
      modifies this, decoder, pool, cache
      ensures Valid() && cache.Valid()
      ensures Custody(pending, pool.freelist)
      ensures Holdings(pending, pool.freelist) == old(Holdings(pending, pool.freelist))
      ensures (old(slotComplete) ==> slotComplete) && salvageDisabled == old(salvageDisabled)
      ensures Emitted() == old(Emitted()) + out
      ensures stats.recoveriesDone >= old(stats.recoveriesDone)
      ensures Settles(old(pending), old(log), old(batchStart), pending, log, batchStart,
                      stats.recoveriesDone == old(stats.recoveriesDone))
      ensures stats.recoveriesDone == old(stats.recoveriesDone) ==> SetsKept(old(fecSets), fecSets, batchStart)
      ensures NoneFillable(old(fecSets), old(pending)) ==>
                && stats.recoveriesDone == old(stats.recoveriesDone) && slotComplete == old(slotComplete)
                && NoneComplete(pending, boundaries, batchStart)
                && forall k :: |old(log)| <= k < |log| ==> !HasInner(log[k])
      ensures stats.recoveriesDone == old(stats.recoveriesDone) ==> NoneComplete(pending, boundaries, batchStart)
      ensures old(Clean()) ==> Clean() && Settled()
      ensures Flushes(views, old(Now()), Now(), now, stuckTimeout)
    {
      hide Accumulator.Valid, StreamingDecoder.Valid, ReedSolomonCache.Valid, Custody, Holdings, LogTransactions,
        Settles, SetsKept, NoneComplete, Revealed, NoneFillable, AllIntact, StreamedFront, NoBoundaryBefore, Rounds,
        Round, Stops, HasInner, BroughtBelow;
      out := [];
      assert Emitted() + [] == Emitted();
      AllKept(fecSets, batchStart);
      KeysAreFrom();
      SettlesNothing(pending, log, batchStart);
      views := [Now()];
      NoRounds(Now(), now, stuckTimeout);
      while true
        invariant Valid() && cache.Valid()
        invariant Custody(pending, pool.freelist)
        invariant Holdings(pending, pool.freelist) == old(Holdings(pending, pool.freelist))
        invariant (old(slotComplete) ==> slotComplete) && salvageDisabled == old(salvageDisabled)
        invariant Emitted() == old(Emitted()) + out
        invariant old(Clean()) ==> Clean()
        invariant stats.recoveriesDone >= old(stats.recoveriesDone)
        invariant Settles(old(pending), old(log), old(batchStart), pending, log, batchStart,
                          stats.recoveriesDone == old(stats.recoveriesDone))
        invariant stats.recoveriesDone == old(stats.recoveriesDone) ==> SetsKept(old(fecSets), fecSets, batchStart)
        invariant NoneFillable(old(fecSets), old(pending)) ==>
                    && stats.recoveriesDone == old(stats.recoveriesDone) && slotComplete == old(slotComplete)
                    && NoneFillable(fecSets, pending)
        invariant views != [] && views[0] == old(Now()) && views[|views| - 1] == Now()
        invariant Rounds(views, now, stuckTimeout)
        decreases |fecSets|, |boundaries|
      {
        ghost var p1, sets1, bounds1, log1, start1 := pending, fecSets, boundaries, log, batchStart;
        ghost var exact1 := stats.recoveriesDone == old(stats.recoveriesDone);
        label round:
        var more, stop := FlushOne(now, t, pool, cache);
        assert old(Emitted()) + out + more == old(Emitted()) + (out + more);
        out := out + more;
        ghost var exact2 := stats.recoveriesDone == old@round(stats.recoveriesDone);
        SettlesGrow(old(pending), old(log), old(batchStart), p1, log1, start1, exact1, pending, log, batchStart,
                    exact2);
        SettlesOn(old(pending), old(log), old(batchStart), p1, log1, start1, exact1, pending, log, batchStart, exact2);
        SetsKeptOn(old(fecSets), sets1, fecSets, start1, batchStart);
        if stop {
          if stats.recoveriesDone == old(stats.recoveriesDone) {
            ExactHasNoInner(old(pending), old(log), old(batchStart), pending, log, batchStart);
          }
          return;
        }
        RoundsSnoc(views, Now(), now, stuckTimeout);
        views := views + [Now()];
        Shrinks(sets1, bounds1, fecSets, boundaries);
      }
    }

    lemma KeysAreFrom()
      requires Valid()
      ensures KeysFrom(pending, batchStart)
    {}

    /** One round of tryFlushBatches. */
    method FlushOne(now: int, t: Galois.Tables, pool: BufferPool, cache: ReedSolomonCache)
      returns (out: seq<Transaction>, stop: bool)
      requires Valid() && Custody(pending, pool.freelist) && t.Valid() && cache.Valid()
      modifies this, decoder, pool, cache
      ensures Valid() && cache.Valid()
      ensures Custody(pending, pool.freelist)
      ensures Holdings(pending, pool.freelist) == old(Holdings(pending, pool.freelist))
      ensures (old(slotComplete) ==> slotComplete) && salvageDisabled == old(salvageDisabled)
      ensures Emitted() == old(Emitted()) + out
      ensures stats.recoveriesDone >= old(stats.recoveriesDone)
      ensures Settles(old(pending), old(log), old(batchStart), pending, log, batchStart,
                      stats.recoveriesDone == old(stats.recoveriesDone))
      ensures stats.recoveriesDone == old(stats.recoveriesDone) ==> SetsKept(old(fecSets), fecSets, batchStart)
      ensures NoneFillable(old(fecSets), old(pending)) ==>
                stats.recoveriesDone == old(stats.recoveriesDone) && slotComplete == old(slotComplete)
      ensures NoneFillable(old(fecSets), old(pending)) ==> NoneFillable(fecSets, pending)
      ensures old(Clean()) ==> Clean() && (stop ==> Settled())
      ensures !stop ==> Progress(old(fecSets).Keys, old(boundaries).Keys, fecSets.Keys, boundaries.Keys)
      ensures stop ==>
                (NoneComplete(pending, boundaries, batchStart)
                 <==> !Revealed(old(boundaries), pending, boundaries, batchStart))
      ensures stop && stats.recoveriesDone == old(stats.recoveriesDone) ==>
                NoneComplete(pending, boundaries, batchStart)
      ensures if stop then Stops(old(Now()), Now(), now, stuckTimeout) else Round(old(Now()), Now(), now, stuckTimeout)
      ensures !stop ==> (HasInner(log[|log| - 1]) <==> BroughtBelow(old(boundaries), log[|log| - 1]))
    {
      hide Accumulator.Valid, ReedSolomonCache.Valid, Custody, Holdings, Emitted, AllIntact, StreamedFront,
        NoBoundaryBefore, Settles, SetsKept, NoneComplete, Revealed, FillFrame, AllServed, Reaching, NoneFillable,
        Progress, Waits, Closes, HasInner, BroughtBelow;
      KeysAreFrom();
      var b := SmallestBoundary(batchStart);
      if b.NoBoundary? {
        NothingToFlush();
        return [], true;
      }
      BoundariesHold();
      out, stop := FlushAt(b.index, b.firstSeen, now, t, pool, cache);
    }

    /** The round for the first boundary `end`. */
    method FlushAt(end: nat, firstSeen: int, now: int, t: Galois.Tables, pool: BufferPool, cache: ReedSolomonCache)
      returns (out: seq<Transaction>, stop: bool)
      requires Valid() && Custody(pending, pool.freelist) && t.Valid() && cache.Valid()
      requires end in boundaries && firstSeen == boundaries[end]
      requires forall i :: i in boundaries && i >= batchStart ==> end <= i
      modifies this, decoder, pool, cache
      ensures Valid() && cache.Valid()
      ensures Custody(pending, pool.freelist)
      ensures Holdings(pending, pool.freelist) == old(Holdings(pending, pool.freelist))
      ensures (old(slotComplete) ==> slotComplete) && salvageDisabled == old(salvageDisabled)
      ensures Emitted() == old(Emitted()) + out
      ensures stats.recoveriesDone >= old(stats.recoveriesDone)
      ensures Settles(old(pending), old(log), old(batchStart), pending, log, batchStart,
                      stats.recoveriesDone == old(stats.recoveriesDone))
      ensures stats.recoveriesDone == old(stats.recoveriesDone) ==> SetsKept(old(fecSets), fecSets, batchStart)
      ensures NoneFillable(old(fecSets), old(pending)) ==>
                stats.recoveriesDone == old(stats.recoveriesDone) && slotComplete == old(slotComplete)
      ensures NoneFillable(old(fecSets), old(pending)) ==> NoneFillable(fecSets, pending)
      ensures old(Clean()) ==> Clean() && (stop ==> Settled())
      ensures !stop ==> Progress(old(fecSets).Keys, old(boundaries).Keys, fecSets.Keys, boundaries.Keys)
      ensures stop ==>
                (NoneComplete(pending, boundaries, batchStart)
                 <==> !Revealed(old(boundaries), pending, boundaries, batchStart))
      ensures stop && stats.recoveriesDone == old(stats.recoveriesDone) ==>
                NoneComplete(pending, boundaries, batchStart)
      ensures if stop then Waits(old(Now()), Now(), end, now, stuckTimeout)
              else Closes(old(Now()), Now(), end, now, stuckTimeout)
      ensures !stop ==>
                && log != [] && log[|log| - 1].end == end
                && (HasInner(log[|log| - 1]) <==> BroughtBelow(old(boundaries), log[|log| - 1]))
    {
      hide Accumulator.Valid, Accumulator.Emitted, ReedSolomonCache.Valid, Custody, Holdings, AllIntact, StreamedFront,
        NoBoundaryBefore, Settles, SetsKept, NoneComplete, Revealed, FillFrame, NoneFillable, Progress, BoundariesAgree,
        KeysFrom, AllPending, From, SetsFrom, OnlyUnpooledAdded, HasInner, BroughtBelow, Waits, Closes;
      ghost var p0, b0, f0, log0, start0 := pending, boundaries, fecSets, log, batchStart;
      BoundariesHold();
      FirstBoundaryFirst(pending, boundaries, batchStart, end);
      var closed;
      ghost var p1, b1, f1, e;
      out, closed, p1, b1, f1, e := FillAndClose(end, firstSeen, now, t, pool, cache);
      stop := !closed;
      FrameIsFill(p0, b0, f0, p1, b1, f1);
      ghost var exact := stats.recoveriesDone == old(stats.recoveriesDone);
      if closed {
        RoundSettles(p0, p1, log0, e, exact);
        KeptFrom(f1, end + 1);
        RoundShrinks(p0, b0, f0, p1, b1, f1, fecSets, end);
        FromIsPart(p1, end + 1);
        InnerIff(p0, b0, e);
        if NoneFillable(f0, p0) {
          StillNoneFillable(f0, p0, fecSets, pending);
        }
      } else {
        FillSettles(p0, p1, log, start0, exact);
        AllKept(fecSets, start0);
        StuckIsSettled(p0, b0, f0, p1, b1, f1, start0, end, streamingCursor);
        StoppedRound(p0, b0, p1, b1, start0, end);
        if exact {
          FirstDecides(pending, boundaries, start0, end);
        }
      }
    }

    /** Recover if the batch up to the first boundary `end` is incomplete, then finish it or wait:
        `p1`, `b1` and `f1` are pending shreds, boundaries and FEC sets in between, `e` the batch
        if it is finished. */
    method FillAndClose(end: nat, firstSeen: int, now: int, t: Galois.Tables, pool: BufferPool, cache: ReedSolomonCache)
      returns (out: seq<Transaction>, closed: bool, ghost p1: PendingMap, ghost b1: map<nat, int>,
               ghost f1: map<nat, FecSet>, ghost e: Epoch)
      requires Valid() && Custody(pending, pool.freelist) && t.Valid() && cache.Valid()
      requires end in boundaries && firstSeen == boundaries[end] && batchStart <= end < MAX_U32
      modifies this, decoder, pool, cache
      ensures Valid() && cache.Valid()
      ensures Custody(pending, pool.freelist)
      ensures Holdings(pending, pool.freelist) == old(Holdings(pending, pool.freelist))
      ensures (old(slotComplete) ==> slotComplete) && salvageDisabled == old(salvageDisabled)
      ensures Emitted() == old(Emitted()) + out && (old(Clean()) ==> Clean())
      ensures stats.recoveriesDone >= old(stats.recoveriesDone)
      ensures stats.recoveriesDone == old(stats.recoveriesDone) ==>
                p1 == old(pending) && b1 == old(boundaries) && f1 == old(fecSets)
      ensures NoneFillable(old(fecSets), old(pending)) ==>
                stats.recoveriesDone == old(stats.recoveriesDone) && slotComplete == old(slotComplete)
      ensures FillFrame(old(pending), old(boundaries), old(fecSets), p1, b1, f1)
      ensures end in b1 && BoundariesAgree(p1, b1) && KeysFrom(p1, old(batchStart))
      ensures closed ==>
                && e == Epoch(old(batchStart), end, p1, old(current) + out) && log == old(log) + [e]
                && batchStart == end + 1 && pending == From(p1, end + 1) && boundaries == From(b1, end + 1)
                && fecSets == SetsFrom(f1, end + 1) && Closes(old(Now()), Now(), end, now, stuckTimeout)
      ensures !closed ==>
                && pending == p1 && boundaries == b1 && fecSets == f1 && log == old(log)
                && batchStart == old(batchStart) && streamingCursor == old(streamingCursor)
                && !AllPending(p1, batchStart, end + 1)
                && Waits(old(Now()), Now(), end, now, stuckTimeout)
    {
      hide StreamingDecoder.Valid, ReedSolomonCache.Valid, Custody, Holdings, LogTransactions, NewOnes, Content,
        Emission, FecSetsOk, LogOk, Chains, AllIntact, StreamedFront, FillFrame, AllServed, Reaching, NoneFillable,
        BoundariesAgree, KeysFrom, AllPending, From, SetsFrom, FillsFor, Timed, Grown, SomeOf;
      ghost var v0 := Now();
      var ready := FillIfIncomplete(end, now, t, pool, cache);
      p1, b1, f1 := pending, boundaries, fecSets;
      FillFits(v0, p1, b1, f1, end);
      TimesKept(v0.boundaries, b1, now, end + 1);
      SetsPassed(v0.pending, v0.boundaries, v0.sets, p1, b1, f1, end + 1);
      out, closed := CloseBatch(end, firstSeen, ready, now, pool);
      e := Epoch(v0.start, end, p1, v0.current + out);
    }

    lemma BoundariesHold()
      requires Valid()
      ensures BoundariesAgree(pending, boundaries) && KeysFrom(pending, batchStart)
      ensures forall i :: i in boundaries ==> batchStart <= i < MAX_U32
    {
      hide StreamingDecoder.Valid, Emission, LogOk, Chains, FecSetsOk;
      assert forall i :: i in boundaries ==> i in pending;
    }

    /** Without a boundary there is nothing to flush. */
    lemma NothingToFlush()
      requires Valid() && forall i :: i in boundaries ==> i < batchStart
      ensures boundaries == map[]
      ensures Settles(pending, log, batchStart, pending, log, batchStart, true)
      ensures SetsKept(fecSets, fecSets, batchStart)
      ensures Settled() && NoneComplete(pending, boundaries, batchStart)
      ensures !Revealed(boundaries, pending, boundaries, batchStart)
      ensures Emitted() + [] == Emitted()
    {
      hide StreamingDecoder.Valid, Emission, LogOk, Chains, FecSetsOk, LogTransactions;
      SettlesNothing(pending, log, batchStart);
    }

    /** Decode a complete batch, give up on one that has waited too long, or wait. */
    method CloseBatch(end: nat, firstSeen: int, ready: bool, now: int, pool: BufferPool)
      returns (out: seq<Transaction>, closed: bool)
      requires Valid() && Custody(pending, pool.freelist) && batchStart <= end < MAX_U32
      requires ready <==> AllPending(pending, batchStart, end + 1)
      modifies this, decoder, pool
      ensures Valid() && closed == (ready || now - firstSeen >= stuckTimeout)
      ensures Custody(pending, pool.freelist)
      ensures Holdings(pending, pool.freelist) == old(Holdings(pending, pool.freelist))
      ensures closed ==>
                && batchStart == end + 1 && fecSets == SetsFrom(old(fecSets), end + 1)
                && pending == From(old(pending), end + 1) && boundaries == From(old(boundaries), end + 1)
                && out == NewOnes(old(yieldedSigs), Content(old(batchStart), end, old(pending)))
                && log == old(log) + [Epoch(old(batchStart), end, old(pending), old(current) + out)]
                && current == [] && yieldedSigs == {} && decoder.buffer == []
                && streamingCursor == (if old(streamingCursor) <= end then end + 1 else old(streamingCursor))
      ensures !closed ==> Now() == old(Now()) && out == []
      ensures slotComplete == old(slotComplete) && salvageDisabled == old(salvageDisabled)
      ensures Emitted() == old(Emitted()) + out && (old(Clean()) ==> Clean())
      ensures stats.recoveriesDone == old(stats.recoveriesDone)
    {
      hide StreamingDecoder.Valid, Custody, Holdings, LogTransactions, NewOnes, Content, Emission, FecSetsOk, LogOk,
        Chains, AllIntact, BoundariesAgree, KeysFrom, StreamedFront, AllPending, From, SetsFrom;
      out, closed := [], true;
      assert Emitted() + [] == Emitted();
      if ready {
        out := FinishWhole(end, pool);
      } else if now - firstSeen >= stuckTimeout {
        out := GiveUp(end, end, pool);
        stats := stats.(batchesForceFinalizedTimeout := stats.batchesForceFinalizedTimeout + 1);
      } else {
        closed := false;
      }
    }

    /** Is the batch up to `end` all here, if need be after recovery? If it was not, every
        set that reaches into it and could be decoded has been. */
    method FillIfIncomplete(end: nat, now: int, t: Galois.Tables, pool: BufferPool, cache: ReedSolomonCache)
      returns (ready: bool)
      requires Valid() && Custody(pending, pool.freelist) && t.Valid() && cache.Valid() && end in boundaries
      modifies this`pending, this`boundaries, this`slotComplete, this`fecSets, this`stats, cache
      ensures Valid() && cache.Valid() && end in boundaries
      ensures Custody(pending, pool.freelist)
      ensures Holdings(pending, pool.freelist) == old(Holdings(pending, pool.freelist))
      ensures FillFrame(old(pending), old(boundaries), old(fecSets), pending, boundaries, fecSets)
      ensures ready <==> AllPending(pending, batchStart, end + 1)
      ensures (old(Clean()) ==> Clean()) && (old(slotComplete) ==> slotComplete)
      ensures Grown(old(boundaries), boundaries, now)
      ensures stats.recoveriesDone >= old(stats.recoveriesDone)
      ensures stats.recoveriesDone == old(stats.recoveriesDone) ==>
                pending == old(pending) && boundaries == old(boundaries) && fecSets == old(fecSets)
      ensures NoneFillable(old(fecSets), old(pending)) ==>
                stats.recoveriesDone == old(stats.recoveriesDone) && slotComplete == old(slotComplete)
      ensures !AllPending(old(pending), batchStart, end + 1) ==>
                AllServed(old(fecSets), old(pending), pending, Reaching(old(fecSets), batchStart, end), batchStart)
    {
      hide StreamingDecoder.Valid, ReedSolomonCache.Valid, Custody, Holdings, FecSet.Ok, Emission, FecSetsOk, LogOk,
        Chains, AllPending, AllIntact, StreamedFront, AllServed, Reaching, NoneFillable, AddedFrom, KeysFrom;
      BoundaryInRange(pending, boundaries, batchStart, end);
      ghost var pending0 := pending;
      var expected := end - batchStart + 1;
      var present := CountPending(batchStart, end);
      if present < expected {
        FillHints(end, now, t, cache);
        FillKeepsCustody(pending0, pending, pool.freelist);
        FillKeepsFront(pending0, pending, batchStart, streamingCursor);
        present := CountPending(batchStart, end);
      } else {
        NothingFilled(pending, boundaries, fecSets);
      }
      ready := present >= expected;
    }

    // -------------------------------------------------------------------------
    // Pushing shreds

    /** Enter a received shred. */
    method Store(index: nat, p: Pending, now: int, pool: BufferPool)
      requires Valid() && Custody(pending, pool.freelist) && batchStart <= index < MAX_U32 && index !in pending
      requires p.source.Pooled? && p.source.handle.idx !in Holdings(pending, pool.freelist)
      modifies this`pending, this`boundaries
      ensures Valid() && pending == old(pending)[index := p]
      ensures boundaries == if p.batchComplete then old(boundaries)[index := now] else old(boundaries)
      ensures Custody(pending, pool.freelist)
      ensures Holdings(pending, pool.freelist) == old(Holdings(pending, pool.freelist)) + {p.source.handle.idx}
      ensures old(Clean()) && p.Intact() ==> Clean()
    {
      hide StreamingDecoder.Valid, Emission, LogOk, Chains, FecSetsOk, Owned, Exclusive;
      AddPooled(pending, index, p);
      pending := pending[index := p];
      if p.batchComplete && index !in boundaries {
        boundaries := boundaries[index := now];
      }
    }

    /** Release a buffer that no shred took. */
    method GiveBack(idx: nat, pool: BufferPool)
      requires Custody(pending, pool.freelist) && idx !in Holdings(pending, pool.freelist)
      modifies pool
      ensures Custody(pending, pool.freelist)
      ensures Holdings(pending, pool.freelist) == old(Holdings(pending, pool.freelist)) + {idx}
    {
      hide Owned, Exclusive;
      pool.Release(idx);
    }

    method MarkComplete()
      requires Valid()
      modifies this`slotComplete
      ensures Valid() && slotComplete
    {
      slotComplete := true;
    }

    /** Recover the hinted set if asked to, stream on if that helped, then flush. */
    method FillAndFlush(fill: bool, hint: nat, now: int, t: Galois.Tables, pool: BufferPool, cache: ReedSolomonCache)
      returns (out: seq<Transaction>, ghost mid: View, ghost views: seq<View>)
      requires Valid() && Custody(pending, pool.freelist) && t.Valid() && cache.Valid()
      modifies this, decoder, pool, cache
      ensures Valid() && cache.Valid()
      ensures Custody(pending, pool.freelist)
      ensures Holdings(pending, pool.freelist) == old(Holdings(pending, pool.freelist))
      ensures Emitted() == old(Emitted()) + out
      ensures batchStart >= old(batchStart) && salvageDisabled == old(salvageDisabled)
      ensures (old(slotComplete) ==> slotComplete)
      ensures stats.recoveriesDone >= old(stats.recoveriesDone)
      ensures stats.recoveriesDone == old(stats.recoveriesDone) ==> NoneComplete(pending, boundaries, batchStart)
      ensures Flushes(views, mid, Now(), now, stuckTimeout)
      ensures old(Clean()) ==> Helped(old(Now()), mid, fill, hint, now)
      ensures old(Clean()) ==>
                && Clean() && Settled()
                && Settles(old(pending), old(log), old(batchStart), pending, log, batchStart,
                           stats.recoveriesDone == old(stats.recoveriesDone))
                && (stats.recoveriesDone == old(stats.recoveriesDone) ==> SetsKept(old(fecSets), fecSets, batchStart))
                && (fill ==> Served(old(fecSets), old(pending), pending, hint, batchStart))
                && (NoneFillable(old(fecSets), old(pending)) ==>
                      stats.recoveriesDone == old(stats.recoveriesDone) && slotComplete == old(slotComplete))
    {
      hide Accumulator.Valid, Accumulator.Emitted, ReedSolomonCache.Valid, Custody, Holdings, AllIntact, StreamedFront,
        NoBoundaryBefore, OnlyUnpooledAdded, NoneComplete, SetsKept, Settles, Served, NoneFillable, FillFrame,
        AllServed, Reaching, StreamRun, NewOnes, Helped, Flushes, HasInner;
      ghost var before, p0, log0, start0, sets0 := Emitted(), pending, log, batchStart, fecSets;
      ghost var clean := Clean();
      KeysAreFrom();
      out := FillAndStream(fill, hint, now, t, pool, cache);
      ghost var p1, log1, start1, sets1 := pending, log, batchStart, fecSets;
      ghost var exact1 := stats.recoveriesDone == old(stats.recoveriesDone);
      KeysAreFrom();
      mid := Now();
      label flush:
      var more;
      more, views := TryFlush(now, t, pool, cache);
      ghost var exact2 := stats.recoveriesDone == old@flush(stats.recoveriesDone);
      if clean {
        FillSettles(p0, p1, log0, start0, exact1);
        SettlesOn(p0, log0, start0, p1, log1, start1, exact1, pending, log, batchStart, exact2);
        SettlesGrow(p0, log0, start0, p1, log1, start1, exact1, pending, log, batchStart, exact2);
        ServedSettles(sets0, p0, p1, pending, hint, log1, start1, log, batchStart, exact2);
      } else {
        TwiceSettles(p1, log1, start1, pending, log, batchStart, exact2);
      }
      assert (before + out) + more == before + (out + more);
      out := out + more;
    }

    /** Recover the hinted set if asked to, and stream on if that helped. */
    method FillAndStream(fill: bool, hint: nat, now: int, t: Galois.Tables, pool: BufferPool, cache: ReedSolomonCache)
      returns (out: seq<Transaction>)
      requires Valid() && Custody(pending, pool.freelist) && t.Valid() && cache.Valid()
      modifies this, decoder, pool, cache
      ensures Valid() && cache.Valid()
      ensures Custody(pending, pool.freelist)
      ensures Holdings(pending, pool.freelist) == old(Holdings(pending, pool.freelist))
      ensures Emitted() == old(Emitted()) + out
      ensures batchStart >= old(batchStart) && salvageDisabled == old(salvageDisabled)
      ensures (old(slotComplete) ==> slotComplete)
      ensures stats.recoveriesDone >= old(stats.recoveriesDone)
      ensures old(Clean()) ==>
                && Clean() && OnlyUnpooledAdded(old(pending), pending) && log == old(log)
                && batchStart == old(batchStart)
                && (stats.recoveriesDone == old(stats.recoveriesDone) ==>
                      pending == old(pending) && fecSets == old(fecSets) && out == [])
                && (fill ==> Served(old(fecSets), old(pending), pending, hint, batchStart))
                && Helped(old(Now()), Now(), fill, hint, now)
      ensures old(Clean()) && NoneFillable(old(fecSets), old(pending)) ==>
                stats.recoveriesDone == old(stats.recoveriesDone) && slotComplete == old(slotComplete)
    {
      hide Accumulator.Valid, LogTransactions, ReedSolomonCache.Valid, Custody, Holdings, AllIntact, StreamedFront,
        RecoveredAsReceived, RecoversAll, Ripe, StreamRun, NewOnes, OnlyUnpooledAdded, FirstSignatures, AddedBy,
        DataCount, Grown, FillFrame, RebuiltFrom, BringsLast;
      out := [];
      ghost var before, pending0, bounds0, sets0 := Emitted(), pending, boundaries, fecSets;
      assert before + [] == before;
      FilledNothing(pending, 0, 0);
      NothingAhead(pending, boundaries, 0, [], now);
      NothingFilled(pending, boundaries, fecSets);
      if fill {
        var any;
        ghost var choice;
        ghost var rebuilt;
        any, choice, rebuilt := TryFecFill(hint, now, t, cache);
        FilledOnce(pending0, bounds0, sets0, pending, boundaries, fecSets, if choice.Chosen? then choice.index else 0);
        FillKeepsCustody(pending0, pending, pool.freelist);
        FillKeepsFront(pending0, pending, batchStart, streamingCursor);
        AttemptServes(sets0, pending0, fecSets, pending, batchStart, choice, hint);
        if any {
          out := AdvanceStreaming(pool);
        }
      }
    }

    /** pushData. The buffer ends up free or held by a pending shred, and the shred
        itself is kept unless its batch is finished. Batches finished on the way draw on the
        pending shreds with the new one among them. */
    method PushData(index: nat, fecSetIndex: nat, handle: Handle, payloadEnd: nat, batchComplete: bool,
                    lastInSlot: bool, now: int, t: Galois.Tables, pool: BufferPool, cache: ReedSolomonCache)
      returns (out: seq<Transaction>, ghost mid: View, ghost views: seq<View>)
      requires Valid() && Custody(pending, pool.freelist) && t.Valid() && cache.Valid()
      requires index < MAX_U32 && handle.idx !in Holdings(pending, pool.freelist)
      modifies this, decoder, pool, cache
      ensures Valid() && cache.Valid()
      ensures Custody(pending, pool.freelist)
      ensures Holdings(pending, pool.freelist) == old(Holdings(pending, pool.freelist)) + {handle.idx}
      ensures Emitted() == old(Emitted()) + out
      ensures batchStart >= old(batchStart) && salvageDisabled == old(salvageDisabled)
      ensures (old(slotComplete) || lastInSlot) ==> slotComplete
      ensures stats.recoveriesDone >= old(stats.recoveriesDone)
      ensures stats.recoveriesDone == old(stats.recoveriesDone)
              && (lastInSlot || Fresh(old(pending), old(batchStart), index)) ==>
                NoneComplete(pending, boundaries, batchStart)
      ensures old(Clean()) && old(Settled()) && DATA_HEADER_SIZE <= payloadEnd <= |handle.bytes| ==>
                var shred := Pending(Pooled(handle), payloadEnd, batchComplete, fecSetIndex);
                var arrived := Arrived(old(pending), old(batchStart), index, lastInSlot, shred);
                && Clean() && Settled()
                && Settles(arrived, old(log), old(batchStart), pending, log, batchStart,
                           stats.recoveriesDone == old(stats.recoveriesDone))
                && (stats.recoveriesDone == old(stats.recoveriesDone) ==> SetsKept(old(fecSets), fecSets, batchStart))
                && (NoneFillable(old(fecSets), arrived) ==>
                      && stats.recoveriesDone == old(stats.recoveriesDone)
                      && slotComplete == (old(slotComplete) || lastInSlot))
                && DataPushed(old(Now()), mid, views, Now(), index, lastInSlot, shred, now, stuckTimeout)
                && (!lastInSlot && Fresh(old(pending), old(batchStart), index) ==>
                      var run := StreamRun(arrived, old(decoder.buffer), old(streamingCursor));
                      && NewOnes(old(yieldedSigs), run.txs) <= out
                      && (run.cursor <= index ==> Served(old(fecSets), arrived, pending, fecSetIndex, batchStart)))
    {
      hide Accumulator.Valid, Accumulator.Emitted, ReedSolomonCache.Valid, Custody, Holdings, AllIntact, StreamedFront,
        NoBoundaryBefore, NoneComplete, SetsKept, Settles, Served, NoneFillable, FillFrame, AllServed, Reaching,
        StreamRun, NewOnes, FirstSignatures, Helped, Flushes, HasInner;
      out, mid, views := [], Now(), [];
      ghost var before := Emitted();
      assert before + [] == before;
      KeysAreFrom();
      SettlesNothing(pending, log, batchStart);
      AllKept(fecSets, batchStart);
      if lastInSlot {
        MarkComplete();
        GiveBack(handle.idx, pool);
        mid := Now();
        out, views := TryFlush(now, t, pool, cache);
        TwiceSettles(old(pending), old(log), old(batchStart), pending, log, batchStart,
                     stats.recoveriesDone == old(stats.recoveriesDone));
        return;
      }
      if index < batchStart || index in pending {
        GiveBack(handle.idx, pool);
        return;
      }
      out, mid, views := PushFresh(index, Pending(Pooled(handle), payloadEnd, batchComplete, fecSetIndex), now, t, pool,
                                   cache);
    }

    /** A shred that is neither finished with nor already here. */
    method PushFresh(index: nat, shred: Pending, now: int, t: Galois.Tables, pool: BufferPool, cache: ReedSolomonCache)
      returns (out: seq<Transaction>, ghost mid: View, ghost views: seq<View>)
      requires Valid() && Custody(pending, pool.freelist) && t.Valid() && cache.Valid()
      requires Fresh(pending, batchStart, index) && index < MAX_U32
      requires shred.source.Pooled? && shred.source.handle.idx !in Holdings(pending, pool.freelist)
      modifies this, decoder, pool, cache
      ensures Valid() && cache.Valid()
      ensures Custody(pending, pool.freelist)
      ensures Holdings(pending, pool.freelist)
              == old(Holdings(pending, pool.freelist)) + {shred.source.handle.idx}
      ensures Emitted() == old(Emitted()) + out
      ensures batchStart >= old(batchStart) && salvageDisabled == old(salvageDisabled)
      ensures old(slotComplete) ==> slotComplete
      ensures stats.recoveriesDone >= old(stats.recoveriesDone)
      ensures stats.recoveriesDone == old(stats.recoveriesDone) ==> NoneComplete(pending, boundaries, batchStart)
      ensures old(Clean()) && shred.Intact() ==>
                var arrived := old(pending)[index := shred];
                var streamed := StreamedView(ArrivedView(old(Now()), index, shred, now));
                && Clean() && Settled()
                && Settles(arrived, old(log), old(batchStart), pending, log, batchStart,
                           stats.recoveriesDone == old(stats.recoveriesDone))
                && (stats.recoveriesDone == old(stats.recoveriesDone) ==> SetsKept(old(fecSets), fecSets, batchStart))
                && (NoneFillable(old(fecSets), arrived) ==>
                      stats.recoveriesDone == old(stats.recoveriesDone) && slotComplete == old(slotComplete))
                && Helped(streamed, mid, streamed.cursor <= index, shred.fecSetIndex, now)
                && Flushes(views, mid, Now(), now, stuckTimeout)
                && NewOnes(old(yieldedSigs), StreamRun(arrived, old(decoder.buffer), old(streamingCursor)).txs) <= out
                && (streamed.cursor <= index ==>
                      Served(old(fecSets), arrived, pending, shred.fecSetIndex, batchStart))
    {
      hide Accumulator.Valid, Accumulator.Emitted, ReedSolomonCache.Valid, Custody, Holdings, AllIntact, StreamedFront,
        NoBoundaryBefore, NoneComplete, SetsKept, Settles, Served, NoneFillable, StreamRun, NewOnes, FirstSignatures,
        Helped, Flushes;
      ghost var before := Emitted();
      Store(index, shred, now, pool);
      out := AdvanceStreaming(pool);
      var more;
      more, mid, views := FillAndFlush(streamingCursor <= index, shred.fecSetIndex, now, t, pool, cache);
      assert (before + out) + more == before + (out + more);
      out := out + more;
    }

    /** The eviction step of pushCode: at the cap, the smallest set makes room for a larger one. */
    method MakeRoom(f: nat)
      requires Valid()
      modifies this`fecSets, this`stats
      ensures Valid()
      ensures fecSets != old(fecSets) <==>
                |old(fecSets)| >= maxFecSets && f !in old(fecSets) && HasBelow(old(fecSets), f)
      ensures fecSets != old(fecSets) ==>
                exists k: nat :: LeastSet(old(fecSets), k) && k < f && fecSets == old(fecSets) - {k}
      ensures stats.batchesForceFinalizedCorrupted == old(stats.batchesForceFinalizedCorrupted)
      ensures stats.recoveriesDone == old(stats.recoveriesDone)
      ensures stats.fecSetsEvictedEarly == old(stats.fecSetsEvictedEarly) + if fecSets != old(fecSets) then 1 else 0
    {
      hide StreamingDecoder.Valid, Emission, LogOk, Chains, BoundariesAgree, KeysFrom, FecSet.Ok;
      if |fecSets| >= maxFecSets && f !in fecSets {
        var oldest := SmallestKey(fecSets.Keys);
        if oldest.Chosen? && oldest.index < f {
          assert LeastSet(fecSets, oldest.index);
          fecSets := fecSets - {oldest.index};
          assert oldest.index in old(fecSets) && oldest.index !in fecSets;
          stats := stats.(fecSetsEvictedEarly := stats.fecSetsEvictedEarly + 1);
        }
      }
    }

    /** pushCode. `enrolled` are the FEC sets with the new shred among them: if its set can be
        decoded, every packet of the set is pending or finished with afterwards. */
    method PushCode(f: nat, numData: nat, numCoding: nat, position: nat, coded: Bytes, variant: Variant,
                    now: int, t: Galois.Tables, pool: BufferPool, cache: ReedSolomonCache)
      returns (out: seq<Transaction>, ghost enrolled: map<nat, FecSet>, ghost mid: View, ghost views: seq<View>)
      requires Valid() && Custody(pending, pool.freelist) && t.Valid() && cache.Valid()
      requires f + numData <= MAX_U32 && variant.proofSize < 16
      modifies this, decoder, pool, cache
      ensures Valid() && cache.Valid()
      ensures Custody(pending, pool.freelist)
      ensures Holdings(pending, pool.freelist) == old(Holdings(pending, pool.freelist))
      ensures Emitted() == old(Emitted()) + out
      ensures batchStart >= old(batchStart) && salvageDisabled == old(salvageDisabled)
      ensures (old(slotComplete) ==> slotComplete)
      ensures f in enrolled && enrolled[f] == Recorded(old(fecSets), f, numData, numCoding, position, coded, variant)
      ensures forall k :: k in enrolled && k != f ==> k in old(fecSets) && enrolled[k] == old(fecSets)[k]
      ensures forall k :: k in old(fecSets) && k !in enrolled ==>
                LeastSet(old(fecSets), k) && k < f && |old(fecSets)| >= maxFecSets
      ensures |enrolled| == |old(fecSets)| +
                if f in old(fecSets) || (|old(fecSets)| >= maxFecSets && HasBelow(old(fecSets), f)) then 0 else 1
      ensures stats.recoveriesDone >= old(stats.recoveriesDone)
      ensures stats.recoveriesDone == old(stats.recoveriesDone) ==> NoneComplete(pending, boundaries, batchStart)
      ensures old(Clean()) ==>
                && Clean() && Settled()
                && Settles(old(pending), old(log), old(batchStart), pending, log, batchStart,
                           stats.recoveriesDone == old(stats.recoveriesDone))
                && (stats.recoveriesDone == old(stats.recoveriesDone) ==> SetsKept(enrolled, fecSets, batchStart))
                && Served(enrolled, old(pending), pending, f, batchStart)
                && (NoneFillable(enrolled, old(pending)) ==>
                      stats.recoveriesDone == old(stats.recoveriesDone) && slotComplete == old(slotComplete))
                && CodePushed(old(Now()), enrolled, mid, views, Now(), f, now, stuckTimeout)
    {
      hide Accumulator.Valid, ReedSolomonCache.Valid, Custody, Holdings, LogTransactions, AllIntact, StreamedFront,
        NoBoundaryBefore, NoneComplete, SetsKept, Settles, Served, NoneFillable, FecSet.Ok, Helped, Flushes;
      Enroll(f, numData, numCoding, position, coded, variant);
      enrolled := fecSets;
      out, mid, views := FillAndFlush(true, f, now, t, pool, cache);
    }

    /** Buffer one code shred in its set. */
    method RecordCode(f: nat, numData: nat, numCoding: nat, position: nat, coded: Bytes, variant: Variant)
      requires Valid() && f + numData <= MAX_U32 && variant.proofSize < 16
      modifies this`fecSets
      ensures Valid() && fecSets.Keys == old(fecSets).Keys + {f}
      ensures fecSets[f] == Recorded(old(fecSets), f, numData, numCoding, position, coded, variant)
      ensures forall k :: k in old(fecSets) && k != f ==> fecSets[k] == old(fecSets)[k]
    {
      hide StreamingDecoder.Valid, Emission, LogOk, Chains, BoundariesAgree, KeysFrom, ShardSize;
      fecSets := fecSets[f := Recorded(fecSets, f, numData, numCoding, position, coded, variant)];
    }

    /** Make room if need be, then buffer one code shred. The number of sets grows past the
        cap exactly when a new set is below all those there are. */
    method Enroll(f: nat, numData: nat, numCoding: nat, position: nat, coded: Bytes, variant: Variant)
      requires Valid() && f + numData <= MAX_U32 && variant.proofSize < 16
      modifies this`fecSets, this`stats
      ensures Valid() && f in fecSets
      ensures fecSets[f] == Recorded(old(fecSets), f, numData, numCoding, position, coded, variant)
      ensures forall k :: k in fecSets && k != f ==> k in old(fecSets) && fecSets[k] == old(fecSets)[k]
      ensures forall k :: k in old(fecSets) && k !in fecSets ==>
                LeastSet(old(fecSets), k) && k < f && |old(fecSets)| >= maxFecSets
      ensures |fecSets| == |old(fecSets)| +
                if f in old(fecSets) || (|old(fecSets)| >= maxFecSets && HasBelow(old(fecSets), f)) then 0 else 1
      ensures |fecSets| > |old(fecSets)| >= maxFecSets <==>
                |old(fecSets)| >= maxFecSets && forall k :: k in old(fecSets) ==> f < k
      ensures stats.batchesForceFinalizedCorrupted == old(stats.batchesForceFinalizedCorrupted)
      ensures stats.recoveriesDone == old(stats.recoveriesDone)
    {
      hide Accumulator.Valid, FecSet.Ok;
      ghost var sets0 := fecSets;
      MakeRoom(f);
      ghost var sets1 := fecSets;
      RecordCode(f, numData, numCoding, position, coded, variant);
      EnrolledSize(sets0, sets1, fecSets, f);
    }

    // -------------------------------------------------------------------------
    // The end of a slot

    /** Try every FEC set there is. */
    method FillAll(now: int, t: Galois.Tables, cache: ReedSolomonCache)
      requires Valid() && t.Valid() && cache.Valid()
      modifies this`pending, this`boundaries, this`slotComplete, this`fecSets, this`stats, cache
      ensures Valid() && cache.Valid() && OnlyUnpooledAdded(old(pending), pending)
      ensures stats.batchesForceFinalizedCorrupted == old(stats.batchesForceFinalizedCorrupted)
      ensures stats.salvagedTailTx == old(stats.salvagedTailTx) && (old(slotComplete) ==> slotComplete)
      ensures AllServed(old(fecSets), old(pending), pending, old(fecSets).Keys, batchStart)
    {
      hide Accumulator.Valid, ReedSolomonCache.Valid, OnlyUnpooledAdded, Pursued, Served, AllServed, Attempted,
        FillFrame, Fillable;
      var hints := fecSets.Keys;
      ghost var done: set<nat> := {};
      NothingPursued(fecSets, pending, batchStart);
      NoneServed(fecSets, pending, batchStart);
      FilledNothing(pending, 0, 0);
      while hints != {}
        invariant Valid() && cache.Valid() && OnlyUnpooledAdded(old(pending), pending)
        invariant stats.batchesForceFinalizedCorrupted == old(stats.batchesForceFinalizedCorrupted)
        invariant stats.salvagedTailTx == old(stats.salvagedTailTx) && (old(slotComplete) ==> slotComplete)
        invariant hints + done == old(fecSets).Keys
        invariant Pursued(old(fecSets), old(pending), fecSets, pending, batchStart)
        invariant AllServed(old(fecSets), old(pending), pending, done, batchStart)
        decreases hints
      {
        var h :| h in hints;
        hints := hints - {h};
        ghost var p, f := pending, fecSets;
        ghost var choice := TryHint(h, now, t, cache);
        OnlyUnpooledOn(old(pending), p, pending);
        PursueHint(old(fecSets), old(pending), f, p, fecSets, pending, batchStart, choice, h);
        PursueOne(old(fecSets), old(pending), f, p, fecSets, pending, batchStart, choice);
        OneMoreServed(old(fecSets), old(pending), p, pending, done, h, batchStart);
        done := done + {h};
      }
      assert hints + done == done;
    }

    /** Are all indices of the batch here? */
    method Contiguous(start: nat, end: nat) returns (all: bool)
      requires start <= end
      ensures all <==> AllPending(pending, start, end + 1)
    {
      for i := start to end + 1
        invariant AllPending(pending, start, i)
      {
        if i !in pending {
          return false;
        }
      }
      all := true;
    }

    /** Finish every batch whose end is here, decoded if complete, salvaged if not. */
    method FinishAll(pool: BufferPool) returns (out: seq<Transaction>)
      requires Valid() && Custody(pending, pool.freelist)
      modifies this, decoder, pool
      ensures Valid() && boundaries == map[]
      ensures Custody(pending, pool.freelist)
      ensures Holdings(pending, pool.freelist) == old(Holdings(pending, pool.freelist))
      ensures Emitted() == old(Emitted()) + out
      ensures Settles(old(pending), old(log), old(batchStart), pending, log, batchStart, true)
      ensures slotComplete == old(slotComplete) && salvageDisabled == old(salvageDisabled)
      ensures stats.batchesForceFinalizedCorrupted == old(stats.batchesForceFinalizedCorrupted)
      ensures stats.salvagedTailTx == old(stats.salvagedTailTx)
    {
      hide Accumulator.Valid, Accumulator.Emitted, Custody, Holdings, Settles, From;
      out := [];
      assert Emitted() + [] == Emitted();
      FlagsAreBoundaries();
      SettlesNothing(pending, log, batchStart);
      var todo := set i | i in pending && pending[i].batchComplete && i >= batchStart;
      while todo != {}
        invariant Valid() && todo == boundaries.Keys
        invariant Custody(pending, pool.freelist)
        invariant Holdings(pending, pool.freelist) == old(Holdings(pending, pool.freelist))
        invariant Emitted() == old(Emitted()) + out
        invariant Settles(old(pending), old(log), old(batchStart), pending, log, batchStart, true)
        invariant slotComplete == old(slotComplete) && salvageDisabled == old(salvageDisabled)
        invariant stats.batchesForceFinalizedCorrupted == old(stats.batchesForceFinalizedCorrupted)
        invariant stats.salvagedTailTx == old(stats.salvagedTailTx)
        decreases todo
      {
        var least := SmallestKey(todo);
        ghost var bounds := boundaries;
        var more := FinishNext(least.index, pool);
        assert (old(Emitted()) + out) + more == old(Emitted()) + (out + more);
        out := out + more;
        LeastBoundaryGone(bounds, least.index);
        todo := todo - {least.index};
      }
    }

    /** Finish the batch at the first boundary `end`. */
    method FinishNext(end: nat, pool: BufferPool) returns (out: seq<Transaction>)
      requires Valid() && Custody(pending, pool.freelist)
      requires end in boundaries && forall i :: i in boundaries ==> end <= i
      modifies this, decoder, pool
      ensures Valid() && boundaries == From(old(boundaries), end + 1)
      ensures Custody(pending, pool.freelist)
      ensures Holdings(pending, pool.freelist) == old(Holdings(pending, pool.freelist))
      ensures Emitted() == old(Emitted()) + out
      ensures forall p, epochs, start: nat
                {:trigger Settles(p, epochs, start, old(pending), old(log), old(batchStart), true)} ::
                Settles(p, epochs, start, old(pending), old(log), old(batchStart), true) ==>
                  Settles(p, epochs, start, pending, log, batchStart, true)
      ensures slotComplete == old(slotComplete) && salvageDisabled == old(salvageDisabled)
      ensures stats.batchesForceFinalizedCorrupted == old(stats.batchesForceFinalizedCorrupted)
      ensures stats.salvagedTailTx == old(stats.salvagedTailTx)
    {
      hide StreamingDecoder.Valid, Custody, Holdings, LogTransactions, NewOnes, Content, Emission, FecSetsOk, LogOk,
        Chains, AllIntact, StreamedFront, AllPending, Settles, From, SetsFrom, KeysFrom, BoundariesAgree;
      BoundaryInRange(pending, boundaries, batchStart, end);
      FirstBoundaryFirst(pending, boundaries, batchStart, end);
      FilledNothing(pending, 0, 0);
      var all := Contiguous(batchStart, end);
      if all {
        out := FinishWhole(end, pool);
      } else {
        out := GiveUp(end, end, pool);
      }
      RoundSettles(old(pending), old(pending), old(log), Epoch(old(batchStart), end, old(pending), old(current) + out),
                   true);
      forall p, epochs, start: nat | Settles(p, epochs, start, old(pending), old(log), old(batchStart), true)
        ensures Settles(p, epochs, start, pending, log, batchStart, true)
      {
        SettlesOn(p, epochs, start, old(pending), old(log), old(batchStart), true, pending, log, batchStart, true);
      }
    }

    /** The boundary index lists the flagged shreds, all of them from the batch start on. */
    lemma FlagsAreBoundaries()
      requires Valid()
      ensures boundaries.Keys == set i | i in pending && pending[i].batchComplete && i >= batchStart
      ensures KeysFrom(pending, batchStart)
    {
      hide StreamingDecoder.Valid, Emission, LogOk, Chains, FecSetsOk;
    }

    /** Decode the runs that are left after the last boundary, smallest index first. */
    method HarvestRest() returns (out: seq<Transaction>)
      requires Valid()
      modifies this`yieldedSigs, this`current
      ensures Valid() && Emitted() == old(Emitted()) + out
      ensures out == NewOnes(old(yieldedSigs), Salvaged(pending, batchStart, MAX_U32 + 1))
      ensures FirstSignatures(Salvaged(pending, batchStart, MAX_U32 + 1)) <= yieldedSigs
    {
      hide Chains, StreamingDecoder.Valid, LogTransactions, NewOnes, Salvaged, Emission, FecSetsOk, LogOk,
        BoundariesAgree, FirstSignatures, Combined, RunEnd, ConcatenatedAt;
      out := [];
      ghost var all, done, from := Salvaged(pending, batchStart, MAX_U32 + 1), [], batchStart;
      NewOnesNothing(yieldedSigs);
      assert done + all == all;
      var todo := pending.Keys;
      while todo != {}
        invariant batchStart <= from <= MAX_U32 + 1
        invariant forall i :: i in todo <==> i in pending && from <= i
        invariant all == done + Salvaged(pending, from, MAX_U32 + 1)
        invariant out == NewOnes(old(yieldedSigs), done)
        invariant yieldedSigs == old(yieldedSigs) + FirstSignatures(done)
        invariant current == old(current) + out && Emission(current, yieldedSigs)
        decreases todo
      {
        var least := SmallestKey(todo);
        GapSalvagesNothing(pending, from, least.index, MAX_U32 + 1);
        SalvageStep(pending, least.index, MAX_U32 + 1);
        var next, _, scratch := GatherRun(least.index, MAX_U32);
        var txs := DecodeConcatenated(scratch);
        ghost var rest := Salvaged(pending, next, MAX_U32 + 1);
        assert done + (txs + rest) == (done + txs) + rest;
        NewOnesConcat(old(yieldedSigs), done, txs);
        FirstSignaturesConcat(done, txs);
        var news := Deliver(txs);
        out := out + news;
        done := done + txs;
        from := next;
        assert least.index in todo;
        todo := set i | i in todo && next <= i;
      }
      GapSalvagesNothing(pending, from, MAX_U32 + 1, MAX_U32 + 1);
      NothingSalvaged(pending, MAX_U32 + 1, MAX_U32 + 1);
      assert done + [] == done;
      assert LogTransactions(log) + (old(current) + out) == (LogTransactions(log) + old(current)) + out;
    }

    /** tryHarvestTail. `filled` is what recovery leaves pending: batches are finished from it.
        Everything emitted here is also returned, unless delivery of salvaged transactions is
        switched off. */
    method TryHarvestTail(now: int, t: Galois.Tables, pool: BufferPool, cache: ReedSolomonCache)
      returns (out: seq<Transaction>, ghost produced: seq<Transaction>, ghost filled: PendingMap)
      requires Valid() && Custody(pending, pool.freelist) && t.Valid() && cache.Valid()
      modifies this, decoder, pool, cache
      ensures Valid() && cache.Valid() && boundaries == map[]
      ensures Custody(pending, pool.freelist)
      ensures Holdings(pending, pool.freelist) == old(Holdings(pending, pool.freelist))
      ensures OnlyUnpooledAdded(old(pending), filled)
      ensures AllServed(old(fecSets), old(pending), filled, old(fecSets).Keys, old(batchStart))
      ensures Settles(filled, old(log), old(batchStart), pending, log, batchStart, true)
      ensures FirstSignatures(Salvaged(pending, batchStart, MAX_U32 + 1)) <= yieldedSigs
      ensures Emitted() == old(Emitted()) + produced
      ensures out == if salvageDisabled then [] else produced
      ensures stats.salvagedTailTx == old(stats.salvagedTailTx) + |produced|
      ensures salvageDisabled == old(salvageDisabled) && (old(slotComplete) ==> slotComplete)
      ensures stats.batchesForceFinalizedCorrupted == old(stats.batchesForceFinalizedCorrupted)
    {
      hide Accumulator.Valid, ReedSolomonCache.Valid, Custody, Holdings, LogTransactions, NewOnes, Salvaged, AllIntact,
        StreamedFront, FirstSignatures, AllServed, Settles, OnlyUnpooledAdded;
      ghost var before, pending0 := Emitted(), pending;
      FillAll(now, t, cache);
      filled := pending;
      FillKeepsCustody(pending0, pending, pool.freelist);
      out := FinishAll(pool);
      var rest := HarvestRest();
      assert (before + out) + rest == before + (out + rest);
      out := out + rest;
      produced := out;
      CountTail(|fecSets|, |out|);
      if salvageDisabled {
        out := [];
      }
    }

    method CountTail(unused: nat, harvested: nat)
      requires Valid()
      modifies this`stats
      ensures Valid()
      ensures stats == old(stats).(fecSetsDiscardedUnused := old(stats).fecSetsDiscardedUnused + unused,
                                   salvagedTailTx := old(stats).salvagedTailTx + harvested)
    {
      stats := stats.(fecSetsDiscardedUnused := stats.fecSetsDiscardedUnused + unused,
                      salvagedTailTx := stats.salvagedTailTx + harvested);
    }

    /** release: every pool buffer goes back. */
    method ReleaseAll(pool: BufferPool)
      requires Valid() && Custody(pending, pool.freelist)
      modifies this`pending, this`fecSets, this`boundaries, pool
      ensures Valid() && pending == map[] && fecSets == map[] && boundaries == map[]
      ensures pool.Valid() && pool.Free() == old(Holdings(pending, pool.freelist))
    {
      hide Chains, StreamingDecoder.Valid, Emission, LogOk, Exclusive;
      DropBelow(MAX_U32 + 1, pool);
      assert pending == map[];
      NothingOwned();
      fecSets, boundaries := map[], map[];
    }
  }

  /** The content of an incomplete batch is what its runs decode to. */
  lemma SalvagedContent(pending: PendingMap, start: nat, upTo: nat, end: nat)
    requires start <= end && !AllPending(pending, start, end + 1)
    requires (upTo == end || (upTo + 1 == end && end !in pending))
    ensures Content(start, end, pending) == Salvaged(pending, start, upTo + 1)
  {
    hide Salvaged;
    if upTo != end {
      SalvageTrimmed(pending, start, end);
    }
  }

  /** Streaming that will end as `run` has come to `cursor` and yielded `txs` on the way. */
  ghost predicate Underway(run: Streamed, pending: PendingMap, buffer: Bytes, cursor: nat, sigs0: set<Bytes>,
                           sigs: set<Bytes>,
                           txs: seq<Transaction>, out: seq<Transaction>) {
    var rest := StreamRun(pending, buffer, cursor);
    && run == rest.(txs := txs + rest.txs)
    && out == NewOnes(sigs0, txs) && sigs == sigs0 + FirstSignatures(txs)
  }

  lemma NotUnderway(pending: PendingMap, buffer: Bytes, cursor: nat, sigs: set<Bytes>)
    ensures Underway(StreamRun(pending, buffer, cursor), pending, buffer, cursor, sigs, sigs, [], [])
  {
    hide StreamRun;
    NewOnesNothing(sigs);
    assert [] + StreamRun(pending, buffer, cursor).txs == StreamRun(pending, buffer, cursor).txs;
  }

  lemma UnderwayEnds(run: Streamed, pending: PendingMap, buffer: Bytes, cursor: nat, sigs0: set<Bytes>,
                     sigs: set<Bytes>,
                     txs: seq<Transaction>, out: seq<Transaction>)
    requires Underway(run, pending, buffer, cursor, sigs0, sigs, txs, out)
    requires cursor !in pending || pending[cursor].source.Unpooled?
    ensures run == Streamed(cursor, buffer, txs, false) && out == NewOnes(sigs0, txs)
    ensures sigs == sigs0 + FirstSignatures(txs)
  {
    hide NewOnes, FirstSignatures;
    assert txs + [] == txs;
  }

  /** One payload further. */
  lemma UnderwayOn(run: Streamed, pending: PendingMap, buffer: Bytes, cursor: nat, sigs0: set<Bytes>, sigs: set<Bytes>,
                   txs: seq<Transaction>, out: seq<Transaction>, news: seq<Transaction>, sigs': set<Bytes>,
                   more: seq<Transaction>)
    requires Underway(run, pending, buffer, cursor, sigs0, sigs, txs, out)
    requires cursor < MAX_U32 && cursor in pending && pending[cursor].source.Pooled?
    requires more == NewOnes(sigs, news) && sigs' == sigs + FirstSignatures(news)
    requires var longer := buffer + PayloadAt(pending, cursor);
             news == if Fails(longer) then [] else Beyond(buffer, longer)
    ensures out + more == NewOnes(sigs0, txs + news) && sigs' == sigs0 + FirstSignatures(txs + news)
    ensures var longer := buffer + PayloadAt(pending, cursor);
            if Fails(longer) then run == Streamed(cursor + 1, [], txs + news, true)
            else if pending[cursor].batchComplete then run == Streamed(cursor + 1, longer, txs + news, false)
            else Underway(run, pending, longer, cursor + 1, sigs0, sigs', txs + news, out + more)
  {
    hide NewOnes, FirstSignatures, Fails, Yielded, Beyond, PayloadAt;
    StreamMore(sigs0, txs, news);
    assert txs + [] == txs;
    var longer := buffer + PayloadAt(pending, cursor);
    var rest := StreamRun(pending, longer, cursor + 1).txs;
    assert txs + (news + rest) == (txs + news) + rest;
  }

  lemma StreamMore(sigs: set<Bytes>, txs: seq<Transaction>, news: seq<Transaction>)
    ensures NewOnes(sigs, txs + news) == NewOnes(sigs, txs) + NewOnes(sigs + FirstSignatures(txs), news)
    ensures sigs + FirstSignatures(txs + news) == (sigs + FirstSignatures(txs)) + FirstSignatures(news)
  {
    hide NewOnes, FirstSignatures;
    NewOnesConcat(sigs, txs, news);
    FirstSignaturesConcat(txs, news);
  }

  lemma SetsAreOk(acc: Accumulator)
    requires acc.Valid()
    ensures FecSetsOk(acc.fecSets)
  {}

  lemma NothingOwned()
    ensures Owned(map[]) == {}
  {}

  lemma NewOnesNothing(seen: set<Bytes>)
    ensures NewOnes(seen, []) == [] && FirstSignatures([]) == {}
  {}

  lemma NothingSalvaged(pending: PendingMap, lo: nat, hi: nat)
    requires lo >= hi
    ensures Salvaged(pending, lo, hi) == []
  {}

  lemma {:induction false} GapSalvagesNothing(pending: PendingMap, lo: nat, mid: nat, hi: nat)
    requires lo <= mid <= hi && forall i :: i in pending && lo <= i ==> mid <= i
    ensures Salvaged(pending, lo, hi) == Salvaged(pending, mid, hi)
    decreases mid - lo
  {
    hide Salvaged;
    if lo < mid {
      SalvageStep(pending, lo, hi);
      GapSalvagesNothing(pending, lo + 1, mid, hi);
    }
  }

  lemma NoSignatures()
    ensures FirstSignatures([]) == {}
  {}

  lemma NothingEmitted()
    ensures Emission([], {})
  {}
}
