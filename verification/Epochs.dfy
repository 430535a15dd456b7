/** Finished batches, and what one step does to the pending shreds and to the record of
    finished batches (accumulator.go). */
module Epochs {
  import opened Wire
  import opened Transactions
  import opened Batches
  import opened Shreds
  import ReedSolomon
  import opened Recovery
  import opened Pool
  import opened SlotState
  import opened Filling

  // ---------------------------------------------------------------------------
  // The record of finished batches

  /** A finished batch: its first and last index, the shreds that were pending when it was
      finished, and what was emitted since the batch before it was finished. */
  datatype Epoch = Epoch(start: nat, end: nat, pending: PendingMap, emitted: seq<Transaction>)

  /** The transactions of a batch that decodes as a whole; the source cannot tell an
      empty batch from one with a bad prefix. */
  ghost function TransactionsOf(b: Bytes): seq<Transaction> {
    if BatchAt(b, 0).Batch? then BatchAt(b, 0).txs else []
  }

  /** What the shreds of a finished batch decode to: as a whole if none was missing,
      otherwise run by run. */
  ghost function Content(start: nat, end: nat, pending: PendingMap): seq<Transaction> {
    if AllPending(pending, start, end + 1) then TransactionsOf(Combined(pending, start, end + 1))
    else Salvaged(pending, start, end + 1)
  }

  /** Nothing was emitted twice, and everything the batch decodes to was emitted. */
  ghost predicate EpochOk(e: Epoch) {
    && DistinctSignatures(e.emitted)
    && FirstSignatures(Content(e.start, e.end, e.pending)) <= FirstSignatures(e.emitted)
  }

  ghost predicate LogOk(log: seq<Epoch>) {
    forall k :: 0 <= k < |log| ==> EpochOk(log[k])
  }

  /** Everything emitted in the finished batches. */
  ghost function LogTransactions(log: seq<Epoch>): seq<Transaction> {
    if log == [] then [] else LogTransactions(log[..|log| - 1]) + log[|log| - 1].emitted
  }

  /** The batches follow each other without gap or overlap, from `from` to before `to`. */
  ghost predicate Chains(log: seq<Epoch>, from: nat, to: nat) {
    if log == [] then from == to
    else
      var e := log[|log| - 1];
      from <= e.start <= e.end && e.end + 1 == to && Chains(log[..|log| - 1], from, e.start)
  }

  lemma LogExtends(log: seq<Epoch>, seen: set<Bytes>, e: Epoch, from: nat)
    requires LogOk(log) && Emission(e.emitted, seen) && FirstSignatures(Content(e.start, e.end, e.pending)) <= seen
    requires Chains(log, from, e.start) && from <= e.start <= e.end
    ensures LogTransactions(log + [e]) == LogTransactions(log) + e.emitted
    ensures LogOk(log + [e]) && Chains(log + [e], from, e.end + 1)
  {
    hide Content;
    assert (log + [e])[..|log|] == log;
  }

  lemma EpochClosed(log: seq<Epoch>, current: seq<Transaction>, out: seq<Transaction>, e: Epoch)
    requires e.emitted == current + out
    ensures LogTransactions(log + [e]) + [] == (LogTransactions(log) + current) + out
  {
    assert (log + [e])[..|log|] == log;
  }

  /** The batches added to a chain are a chain. */
  lemma {:induction false} ChainTail(log0: seq<Epoch>, log1: seq<Epoch>, from: nat, mid: nat, to: nat)
    requires log0 <= log1 && Chains(log0, from, mid) && Chains(log1, from, to)
    ensures Chains(log1[|log0|..], mid, to) && mid <= to
    decreases |log1|
  {
    if log0 == log1 {
      assert log1[|log0|..] == [];
    } else {
      var init := log1[..|log1| - 1];
      ChainTail(log0, init, from, mid, log1[|log1| - 1].start);
      assert log1[|log0|..][..|log1| - |log0| - 1] == init[|log0|..];
    }
  }

  // ---------------------------------------------------------------------------
  // What a step does to pending shreds and finished batches

  /** The part of a map at keys from `start` on. */
  ghost function From<T>(m: map<nat, T>, start: nat): map<nat, T> {
    map k | k in m && k >= start :: m[k]
  }

  /** A batch finished on the way from `p0`: it ends at a boundary, at the first one among
      the shreds of `p0`, and includes every shred of `p0` in its range. Anything else in it
      was recovered; if `exact`, there is nothing else. */
  ghost predicate Draws(e: Epoch, p0: PendingMap, exact: bool) {
    && e.end in e.pending && e.pending[e.end].batchComplete
    && (forall i :: i in p0 && e.start <= i ==> i in e.pending && e.pending[i] == p0[i])
    && (forall i :: i in p0 && e.start <= i < e.end ==> !p0[i].batchComplete)
    && (forall i :: i in e.pending ==> e.start <= i && (i in p0 || (!exact && e.pending[i].source.Unpooled?)))
  }

  /** From `start` on everything of `p0` is still there; anything new was recovered. */
  ghost predicate Evolves(p0: PendingMap, p1: PendingMap, start: nat, exact: bool) {
    && (forall i :: i in p0 && i >= start ==> i in p1 && p1[i] == p0[i])
    && (forall i :: i in p1 ==> start <= i && (i in p0 || (!exact && p1[i].source.Unpooled?)))
  }

  /** A step from pending shreds `p0` to `p1`: the record only grows, every batch added to it
      draws on `p0`, and whatever lies past them is kept. */
  ghost predicate Settles(p0: PendingMap, log0: seq<Epoch>, start0: nat,
                          p1: PendingMap, log1: seq<Epoch>, start1: nat, exact: bool) {
    && log0 <= log1 && start0 <= start1
    && Evolves(p0, p1, start1, exact)
    && (forall k :: |log0| <= k < |log1| ==>
        start0 <= log1[k].start && log1[k].end < start1 && Draws(log1[k], p0, exact))
  }

  lemma SettlesNothing(p: PendingMap, log: seq<Epoch>, start: nat)
    requires KeysFrom(p, start)
    ensures Settles(p, log, start, p, log, start, true)
  {}

  lemma DrawsEarlier(e: Epoch, p0: PendingMap, p1: PendingMap, start1: nat, exact1: bool, exact2: bool)
    requires Evolves(p0, p1, start1, exact1) && start1 <= e.start && Draws(e, p1, exact2)
    ensures Draws(e, p0, exact1 && exact2)
  {}

  lemma DrawsLess(e: Epoch, p0: PendingMap, exact1: bool, exact2: bool)
    requires Draws(e, p0, exact1)
    ensures Draws(e, p0, exact1 && exact2)
  {}

  lemma EvolvesOn(p0: PendingMap, p1: PendingMap, p2: PendingMap, start1: nat, start2: nat, exact1: bool, exact2: bool)
    requires Evolves(p0, p1, start1, exact1) && Evolves(p1, p2, start2, exact2) && start1 <= start2
    ensures Evolves(p0, p2, start2, exact1 && exact2)
  {}

  lemma SettlesOn(p0: PendingMap, log0: seq<Epoch>, start0: nat, p1: PendingMap, log1: seq<Epoch>, start1: nat,
                  exact1: bool,
                  p2: PendingMap, log2: seq<Epoch>, start2: nat, exact2: bool)
    requires Settles(p0, log0, start0, p1, log1, start1, exact1) && Settles(p1, log1, start1, p2, log2, start2, exact2)
    ensures Settles(p0, log0, start0, p2, log2, start2, exact1 && exact2)
  {
    hide Draws, Evolves;
    EvolvesOn(p0, p1, p2, start1, start2, exact1, exact2);
    forall k | |log0| <= k < |log2|
      ensures start0 <= log2[k].start && log2[k].end < start2 && Draws(log2[k], p0, exact1 && exact2)
    {
      if k < |log1| {
        assert log2[k] == log1[k];
        DrawsLess(log1[k], p0, exact1, exact2);
      } else {
        DrawsEarlier(log2[k], p0, p1, start1, exact1, exact2);
      }
    }
  }

  lemma SettlesGrow(p0: PendingMap, log0: seq<Epoch>, start0: nat, p1: PendingMap, log1: seq<Epoch>, start1: nat,
                    exact1: bool,
                    p2: PendingMap, log2: seq<Epoch>, start2: nat, exact2: bool)
    requires Settles(p0, log0, start0, p1, log1, start1, exact1) && Settles(p1, log1, start1, p2, log2, start2, exact2)
    ensures start0 <= start1 <= start2 && log0 <= log1 <= log2
  {
    hide Draws, Evolves;
  }

  lemma TwiceSettles(p1: PendingMap, log1: seq<Epoch>, start1: nat, p2: PendingMap, log2: seq<Epoch>, start2: nat,
                     exact: bool)
    requires Settles(p1, log1, start1, p2, log2, start2, exact)
    ensures start1 <= start2 && log1 <= log2
  {
    hide Draws, Evolves;
  }

  /** Packets recovered before a step are pending after it, unless it finished their batch. */
  lemma ServedSettles(sets: map<nat, FecSet>, p0: PendingMap, p1: PendingMap, p2: PendingMap, f: nat,
                      log1: seq<Epoch>, start1: nat, log2: seq<Epoch>, start2: nat, exact: bool)
    requires Settles(p1, log1, start1, p2, log2, start2, exact)
    ensures Served(sets, p0, p1, f, start1) ==> Served(sets, p0, p2, f, start2)
  {
    hide RecoversAll, Draws, Ripe, DataCount;
    if Served(sets, p0, p1, f, start1) && f in sets && Ripe(sets[f], p0, f) {
      ServedFrom(sets[f], p0, p1, p2, f, start1, start2);
    }
  }

  /** Recovery alone. */
  lemma FillSettles(p0: PendingMap, p1: PendingMap, log: seq<Epoch>, start: nat, exact: bool)
    requires OnlyUnpooledAdded(p0, p1) && (exact ==> p1 == p0) && KeysFrom(p1, start)
    ensures Settles(p0, log, start, p1, log, start, exact)
  {
    hide Pending.Intact;
  }

  /** Recovery, then one batch finished at the first boundary there was before. */
  lemma RoundSettles(p0: PendingMap, p1: PendingMap, log: seq<Epoch>, e: Epoch, exact: bool)
    requires OnlyUnpooledAdded(p0, p1) && (exact ==> p1 == p0) && e.start <= e.end && KeysFrom(p1, e.start)
    requires e.pending == p1 && e.end in p0 && p0[e.end].batchComplete
    requires forall i :: i in p0 && e.start <= i < e.end ==> !p0[i].batchComplete
    ensures Settles(p0, log, e.start, From(p1, e.end + 1), log + [e], e.end + 1, exact)
  {
    hide Pending.Intact;
  }

  /** `k` is the first boundary. */
  ghost predicate IsLeast(boundaries: map<nat, int>, k: nat) {
    k in boundaries && forall i :: i in boundaries ==> k <= i
  }

  // ---------------------------------------------------------------------------
  // A flush, round by round

  /** The state of an accumulator as far as pushes go. */
  datatype View = View(
    pending: PendingMap, boundaries: map<nat, int>, sets: map<nat, FecSet>, log: seq<Epoch>, start: nat, cursor: nat,
    buffer: Bytes, current: seq<Transaction>, sigs: set<Bytes>, recoveries: nat, complete: bool)

  /** Before anything is pushed. */
  const NEW_VIEW := View(map[], map[], map[], [], 0, 0, [], [], {}, 0, false)

  /** The times of boundaries: those that are new carry `now`. */
  ghost predicate Timed(before: map<nat, int>, after: map<nat, int>, now: int) {
    forall i :: i in after ==> after[i] == if i in before then before[i] else now
  }

  /** From `v` recovery leads to pending shreds `p`: only shreds of the buffered sets are new, and
      if the batch up to `end` was incomplete, every set that reaches into it and could be
      decoded has brought its packets. */
  ghost predicate FillsFor(v: View, p: PendingMap, end: nat) {
    && OnlyUnpooledAdded(v.pending, p) && AddedFrom(v.pending, p, v.sets)
    && (!AllPending(v.pending, v.start, end + 1) ==>
          AllServed(v.sets, v.pending, p, Reaching(v.sets, v.start, end), v.start))
  }

  /** Recovery before a round leaves no gap that it could close: a missing index of the batch
      whose set can be decoded is there afterwards, as received if its set brought it. */
  lemma GapIsFilled(v: View, p: PendingMap, end: nat, f: nat, i: nat, c: ReedSolomon.Codec, word: seq<Bytes>,
                    packets: seq<Bytes>)
    requires FillsFor(v, p, end) && v.start <= i <= end && i !in v.pending
    requires f in v.sets && f <= i < f + v.sets[f].numData && Ripe(v.sets[f], v.pending, f)
    requires HonestSet(v.sets[f], v.pending, f, c, word, packets)
    requires i - f < |packets| && Storable(packets[i - f])
    ensures i in p && (p[i].fecSetIndex == f ==> SameAsReceived(p[i], packets[i - f]))
  {
    hide HonestSet, Storable, SameAsReceived, FecSet.Ok, OnlyUnpooledAdded, AddedFrom;
    assert f in Reaching(v.sets, v.start, end) && !AllPending(v.pending, v.start, end + 1);
    assert Served(v.sets, v.pending, p, f, v.start);
    assert Regained(v.pending, p, f, i - f, packets[i - f]);
  }

  /** A round that finishes the batch up to the first boundary `end`: after recovery nothing is
      missing, or it has waited long enough. What it decodes to is emitted unless it was before,
      and streaming starts over. */
  ghost predicate Closes(v0: View, v1: View, end: nat, now: int, timeout: int) {
    && v1.log != [] && end in v0.boundaries
    && var e := v1.log[|v1.log| - 1];
    && v1.log == v0.log + [e] && e.start == v0.start && e.end == end
    && FillsFor(v0, e.pending, end)
    && (AllPending(e.pending, e.start, end + 1) || now - v0.boundaries[end] >= timeout)
    && e.emitted == v0.current + NewOnes(v0.sigs, Content(e.start, end, e.pending))
    && (NoneFillable(v0.sets, v0.pending) ==> e.pending == v0.pending)
    && v1.start == end + 1 && v1.pending == From(e.pending, end + 1) && BoundariesAgree(v1.pending, v1.boundaries)
    && Timed(v0.boundaries, v1.boundaries, now) && (forall i :: i in v1.boundaries ==> end < i)
    && v1.buffer == [] && v1.current == [] && v1.sigs == {}
    && v1.cursor == (if v0.cursor <= end then end + 1 else v0.cursor) && SomeOf(v0.sets, v1.sets)
    && (v0.complete ==> v1.complete)
  }

  /** FEC sets are used up or passed, never changed. */
  ghost predicate SomeOf(before: map<nat, FecSet>, after: map<nat, FecSet>) {
    forall f :: f in after ==> f in before && after[f] == before[f]
  }

  lemma SetsPassed(p0: PendingMap, b0: map<nat, int>, f0: map<nat, FecSet>,
                   p1: PendingMap, b1: map<nat, int>, f1: map<nat, FecSet>, next: nat)
    requires FillFrame(p0, b0, f0, p1, b1, f1)
    ensures SomeOf(f0, SetsFrom(f1, next))
  {
    hide OnlyUnpooledAdded, AddedFrom;
  }

  /** A round that finishes nothing: even after recovery the batch up to the first boundary `end`
      is incomplete, and it has not waited long enough. */
  ghost predicate Waits(v0: View, v1: View, end: nat, now: int, timeout: int) {
    && end in v0.boundaries && FillsFor(v0, v1.pending, end)
    && FillFrame(v0.pending, v0.boundaries, v0.sets, v1.pending, v1.boundaries, v1.sets)
    && !AllPending(v1.pending, v0.start, end + 1) && now - v0.boundaries[end] < timeout
    && Timed(v0.boundaries, v1.boundaries, now)
    && (NoneFillable(v0.sets, v0.pending) ==> v1 == v0)
    && v1 == v0.(pending := v1.pending, boundaries := v1.boundaries, sets := v1.sets, recoveries := v1.recoveries,
                 complete := v1.complete)
  }

  /** The last round: there is no boundary, or the first batch has to wait. */
  ghost predicate Stops(v0: View, v1: View, now: int, timeout: int) {
    && (v0.boundaries == map[] ==> v1 == v0)
    && forall end :: IsLeast(v0.boundaries, end) ==> Waits(v0, v1, end, now, timeout)
  }

  /** Rounds that finish a batch each, every one the first there is. */
  ghost predicate Rounds(views: seq<View>, now: int, timeout: int) {
    forall k :: 0 <= k < |views| - 1 ==> Round(views[k], views[k + 1], now, timeout)
  }

  ghost predicate Round(v0: View, v1: View, now: int, timeout: int) {
    && v1.log != [] && IsLeast(v0.boundaries, v1.log[|v1.log| - 1].end)
    && Closes(v0, v1, v1.log[|v1.log| - 1].end, now, timeout)
  }

  /** A flush is a number of rounds that finish a batch and one that stops. */
  ghost predicate Flushes(views: seq<View>, v0: View, v1: View, now: int, timeout: int) {
    && views != [] && views[0] == v0 && Rounds(views, now, timeout)
    && Stops(views[|views| - 1], v1, now, timeout)
  }

  lemma NoRounds(v: View, now: int, timeout: int)
    ensures Rounds([v], now, timeout)
  {}

  lemma RoundsSnoc(views: seq<View>, v: View, now: int, timeout: int)
    requires views != [] && Rounds(views, now, timeout) && Round(views[|views| - 1], v, now, timeout)
    ensures Rounds(views + [v], now, timeout)
  {
    hide Round;
    var more := views + [v];
    forall k | 0 <= k < |more| - 1 ensures Round(more[k], more[k + 1], now, timeout) {
      if k < |views| - 1 {
        assert more[k] == views[k] && more[k + 1] == views[k + 1];
      } else {
        assert more[k] == views[|views| - 1] && more[k + 1] == v;
      }
    }
  }

  lemma FillFits(v: View, p: PendingMap, b: map<nat, int>, sets: map<nat, FecSet>, end: nat)
    requires FillFrame(v.pending, v.boundaries, v.sets, p, b, sets)
    requires !AllPending(v.pending, v.start, end + 1) ==>
               AllServed(v.sets, v.pending, p, Reaching(v.sets, v.start, end), v.start)
    ensures FillsFor(v, p, end)
  {
    hide AllServed, Reaching;
  }

  lemma TimesKept(b0: map<nat, int>, b1: map<nat, int>, now: int, next: nat)
    requires Grown(b0, b1, now)
    ensures Timed(b0, b1, now) && Timed(b0, From(b1, next), now) && (forall i :: i in From(b1, next) ==> next <= i)
  {}

  // ---------------------------------------------------------------------------
  // A push

  /** The shred is neither finished with nor already here. */
  predicate Fresh(pending: PendingMap, start: nat, index: nat) {
    start <= index && index !in pending
  }

  /** The pending shreds once a new one has arrived; the last of a slot is not stored. */
  function Arrived(pending: PendingMap, start: nat, index: nat, lastInSlot: bool, shred: Pending): PendingMap {
    if lastInSlot || !Fresh(pending, start, index) then pending else pending[index := shred]
  }

  ghost function ArrivedView(v: View, index: nat, shred: Pending, now: int): View {
    v.(pending := v.pending[index := shred],
       boundaries := if shred.batchComplete then v.boundaries[index := now] else v.boundaries)
  }

  /** Streaming from the cursor on. */
  ghost function StreamedView(v: View): View {
    var run := StreamRun(v.pending, v.buffer, v.cursor);
    v.(cursor := run.cursor, buffer := run.buffer, current := v.current + NewOnes(v.sigs, run.txs),
       sigs := v.sigs + FirstSignatures(run.txs))
  }

  /** The recovery of a push, if it tries one: if that enters anything, streaming goes on. */
  ghost predicate Helped(v: View, v': View, fill: bool, hint: nat, now: int) {
    && FillFrame(v.pending, v.boundaries, v.sets, v'.pending, v'.boundaries, v'.sets)
    && Grown(v.boundaries, v'.boundaries, now)
    && (fill ==> Served(v.sets, v.pending, v'.pending, hint, v.start))
    && (!fill || NoneFillable(v.sets, v.pending) ==> v' == v)
    && (v'.recoveries == v.recoveries ==> v' == v.(complete := v'.complete))
    && (v'.recoveries != v.recoveries ==>
          v' == StreamedView(v.(pending := v'.pending, boundaries := v'.boundaries, sets := v'.sets,
                                recoveries := v.recoveries + 1, complete := v'.complete)))
  }

  /** pushData from `v0` to `v1`: the shred is stored and streamed, its set is recovered unless
      streaming has passed it, and then, from `mid` on, batches are flushed. */
  ghost predicate DataPushed(v0: View, mid: View, views: seq<View>, v1: View, index: nat, lastInSlot: bool,
                             shred: Pending, now: int, timeout: int) {
    if lastInSlot then mid == v0.(complete := true) && Flushes(views, mid, v1, now, timeout)
    else if !Fresh(v0.pending, v0.start, index) then v1 == v0
    else
      var streamed := StreamedView(ArrivedView(v0, index, shred, now));
      && Helped(streamed, mid, streamed.cursor <= index, shred.fecSetIndex, now)
      && Flushes(views, mid, v1, now, timeout)
  }

  /** pushCode from `v0` to `v1`, with `sets` the FEC sets once the shred is among them. */
  ghost predicate CodePushed(v0: View, sets: map<nat, FecSet>, mid: View, views: seq<View>, v1: View, f: nat, now: int,
                             timeout: int) {
    && Helped(v0.(sets := sets), mid, true, f, now)
    && Flushes(views, mid, v1, now, timeout)
  }

  /** A boundary strictly inside the batch. */
  ghost predicate HasInner(e: Epoch) {
    exists i :: e.start <= i < e.end && i in e.pending && e.pending[i].batchComplete
  }

  /** Recovery has brought a boundary below all those there were. */
  ghost predicate BroughtBelow(before: map<nat, int>, e: Epoch) {
    exists i :: e.start <= i && i in e.pending && e.pending[i].batchComplete && forall j :: j in before ==> i < j
  }

  /** A round finishes several batches as one exactly when its recovery has brought a boundary
      below all those there were. */
  lemma InnerIff(p0: PendingMap, b0: map<nat, int>, e: Epoch)
    requires BoundariesAgree(p0, b0) && IsLeast(b0, e.end)
    requires forall i :: i in p0 ==> i in e.pending && e.pending[i] == p0[i]
    ensures HasInner(e) <==> BroughtBelow(b0, e)
  {
    if BroughtBelow(b0, e) {
      var i :| e.start <= i && i in e.pending && e.pending[i].batchComplete && forall j :: j in b0 ==> i < j;
      assert i < e.end;
    }
  }

  /** Nothing can be recovered, and the first batch is incomplete and young. */
  ghost predicate Quiet(v: View, now: int, timeout: int) {
    && NoneFillable(v.sets, v.pending)
    && (v.boundaries == map[] || exists end: nat ::
          IsLeast(v.boundaries, end) && !AllPending(v.pending, v.start, end + 1) && now - v.boundaries[end] < timeout)
  }

  lemma QuietNoRound(v0: View, v1: View, now: int, timeout: int)
    requires Quiet(v0, now, timeout)
    ensures !Round(v0, v1, now, timeout)
  {
    hide NoneFillable, AllPending, FillsFor, Timed, NewOnes, Content, From, BoundariesAgree;
  }

  /** Then a flush does nothing. */
  lemma QuietFlush(views: seq<View>, v0: View, v1: View, now: int, timeout: int)
    requires Flushes(views, v0, v1, now, timeout) && Quiet(v0, now, timeout)
    ensures v1 == v0
  {
    hide NoneFillable, AllPending, FillsFor, FillFrame, Timed, Round;
    if |views| > 1 {
      QuietNoRound(views[0], views[1], now, timeout);
    } else if v0.boundaries != map[] {
      var end: nat :| IsLeast(v0.boundaries, end);
      assert Waits(v0, v1, end, now, timeout);
    }
  }

  /** Without recovery no batch has a boundary inside. */
  lemma ExactHasNoInner(p0: PendingMap, log0: seq<Epoch>, start0: nat, p1: PendingMap, log1: seq<Epoch>, start1: nat)
    requires Settles(p0, log0, start0, p1, log1, start1, true)
    ensures forall k :: |log0| <= k < |log1| ==> !HasInner(log1[k])
  {
    hide Evolves;
    forall k | |log0| <= k < |log1| ensures !HasInner(log1[k]) {
      assert Draws(log1[k], p0, true);
    }
  }

  /** No batch is complete: each boundary has a gap before it. */
  ghost predicate NoneComplete(pending: PendingMap, boundaries: map<nat, int>, start: nat) {
    forall end :: end in boundaries ==> !AllPending(pending, start, end + 1)
  }

  /** The first batch is here as a whole. */
  ghost predicate FirstBatch(p: PendingMap, start: nat, end: nat) {
    && AllPending(p, start, end + 1) && end in p && p[end].batchComplete && start <= end
    && (forall i :: start <= i < end ==> !p[i].batchComplete)
  }

  /** What a round that finishes several batches as one emits: if the shreds up to the boundary
      `mid` inside decode as a batch, then only what is new in that batch, and nothing that the
      shreds behind it hold. */
  lemma OnlyFirstIsEmitted(v0: View, v1: View, end: nat, now: int, timeout: int, mid: nat)
    requires Closes(v0, v1, end, now, timeout) && v0.start <= mid < end
    requires var p := v1.log[|v0.log|].pending;
             && AllPending(p, v0.start, end + 1) && BatchAt(Combined(p, v0.start, mid + 1), 0).Batch?
    ensures var e := v1.log[|v0.log|];
            e.emitted == v0.current + NewOnes(v0.sigs, BatchAt(Combined(e.pending, v0.start, mid + 1), 0).txs)
  {
    hide BatchAt, Combined, FillsFor, NewOnes, Timed, From;
    var p := v1.log[|v0.log|].pending;
    CombinedSplit(p, v0.start, mid + 1, end + 1);
    BatchExtends(Combined(p, v0.start, mid + 1), Combined(p, mid + 1, end + 1));
  }

  /** Exactly once: if the first batch is here as a whole, a step that recovers nothing and
      leaves no batch complete has finished it, nothing was emitted twice in it, and every
      transaction it decodes to was emitted. */
  lemma CompleteIsEmitted(p0: PendingMap, log0: seq<Epoch>, start0: nat, p1: PendingMap, log1: seq<Epoch>, start1: nat,
                          boundaries: map<nat, int>, end: nat)
    requires Settles(p0, log0, start0, p1, log1, start1, true) && LogOk(log1)
    requires Chains(log0, 0, start0) && Chains(log1, 0, start1)
    requires BoundariesAgree(p1, boundaries) && KeysFrom(p1, start1) && NoneComplete(p1, boundaries, start1)
    requires FirstBatch(p0, start0, end)
    ensures |log0| < |log1| && log1[|log0|].start == start0 && log1[|log0|].end == end
    ensures DistinctSignatures(log1[|log0|].emitted)
    ensures FirstSignatures(TransactionsOf(Combined(p0, start0, end + 1))) <= FirstSignatures(log1[|log0|].emitted)
  {
    hide *;
    FirstFinished(p0, log0, start0, p1, log1, start1, boundaries, end);
    DrawnContent(log1[|log0|], p0, end);
  }

  /** The batches added start where the record ended, and there is one. */
  lemma FirstFinished(p0: PendingMap, log0: seq<Epoch>, start0: nat, p1: PendingMap, log1: seq<Epoch>, start1: nat,
                      boundaries: map<nat, int>, end: nat)
    requires Settles(p0, log0, start0, p1, log1, start1, true) && LogOk(log1)
    requires Chains(log0, 0, start0) && Chains(log1, 0, start1)
    requires BoundariesAgree(p1, boundaries) && NoneComplete(p1, boundaries, start1) && FirstBatch(p0, start0, end)
    ensures |log0| < |log1| && log1[|log0|].start == start0 && Draws(log1[|log0|], p0, true) && EpochOk(log1[|log0|])
  {
    hide Chains, NoneComplete, FirstBatch, Draws, Evolves, BoundariesAgree, EpochOk;
    if |log0| == |log1| {
      assert log0 == log1;
      SameChain(log0, start0, start1);
      StaysComplete(p0, p1, boundaries, start0, end);
    }
    ChainTail(log0, log1, 0, start0, start1);
    ChainHead(log1[|log0|..], start0, start1);
  }

  lemma DrawnContent(e: Epoch, p0: PendingMap, end: nat)
    requires Draws(e, p0, true) && EpochOk(e) && FirstBatch(p0, e.start, end)
    ensures e.end == end && DistinctSignatures(e.emitted)
    ensures FirstSignatures(TransactionsOf(Combined(p0, e.start, end + 1))) <= FirstSignatures(e.emitted)
  {
    hide TransactionsOf, FirstSignatures, DistinctSignatures, Salvaged, Combined, PayloadAt, FirstBatch, Draws,
      AllPending;
    FirstDrawn(e, p0, end);
    CombinedAgrees(e.pending, p0, e.start, end + 1);
  }

  lemma StaysComplete(p0: PendingMap, p1: PendingMap, boundaries: map<nat, int>, start: nat, end: nat)
    requires Evolves(p0, p1, start, true) && BoundariesAgree(p1, boundaries) && FirstBatch(p0, start, end)
    ensures !NoneComplete(p1, boundaries, start)
  {
    assert end in boundaries;
  }

  /** A batch finished without recovery ends where the first batch does. */
  lemma FirstDrawn(e: Epoch, p0: PendingMap, end: nat)
    requires Draws(e, p0, true) && FirstBatch(p0, e.start, end)
    ensures e.end == end && AllPending(e.pending, e.start, end + 1)
    ensures forall i :: e.start <= i <= end ==> PayloadAt(e.pending, i) == PayloadAt(p0, i)
  {
    assert e.end in p0;
    assert !(e.end < end) && !(end < e.end);
  }

  lemma SameChain(log: seq<Epoch>, a: nat, b: nat)
    requires Chains(log, 0, a) && Chains(log, 0, b)
    ensures a == b
  {}

  lemma {:induction false} ChainHead(log: seq<Epoch>, from: nat, to: nat)
    requires Chains(log, from, to) && log != []
    ensures log[0].start == from
    decreases |log|
  {
    if |log| > 1 {
      ChainHead(log[..|log| - 1], from, log[|log| - 1].start);
    }
  }

  /** It is enough to look at the first boundary. */
  lemma FirstDecides(pending: PendingMap, boundaries: map<nat, int>, start: nat, first: nat)
    requires BoundariesAgree(pending, boundaries) && KeysFrom(pending, start)
    requires (forall i :: i in boundaries ==> i < start) || !AllPending(pending, start, first + 1)
    requires forall i :: i in boundaries && i >= start ==> first <= i
    ensures NoneComplete(pending, boundaries, start)
  {
    assert forall i :: i in boundaries ==> i in pending;
  }

  lemma BoundaryInRange(pending: PendingMap, boundaries: map<nat, int>, start: nat, end: nat)
    requires BoundariesAgree(pending, boundaries) && KeysFrom(pending, start) && end in boundaries
    ensures start <= end < MAX_U32
  {}

  /** If the first batch is still incomplete after recovery, streaming has passed no boundary. */
  lemma StuckIsSettled(p0: PendingMap, b0: map<nat, int>, f0: map<nat, FecSet>,
                       p1: PendingMap, b1: map<nat, int>, f1: map<nat, FecSet>, start: nat, end: nat, cursor: nat)
    requires FillFrame(p0, b0, f0, p1, b1, f1) && BoundariesAgree(p0, b0) && BoundariesAgree(p1, b1)
    requires KeysFrom(p1, start) && !AllPending(p1, start, end + 1)
    requires forall i :: i in b0 && i >= start ==> end <= i
    ensures StreamedFront(p1, start, cursor) ==> NoBoundaryBefore(b1, cursor)
  {
    if StreamedFront(p1, start, cursor) {
      assert forall i :: i in b1 && i < cursor ==> i in b0;
    }
  }

  /** Recovery has brought a boundary below all those there were, with nothing missing before it. */
  ghost predicate Revealed(before: map<nat, int>, pending: PendingMap, boundaries: map<nat, int>, start: nat) {
    exists e :: e in boundaries && (forall i :: i in before ==> e < i) && AllPending(pending, start, e + 1)
  }

  /** A round that stops leaves a complete batch behind exactly when its recovery revealed one. */
  lemma StoppedRound(p0: PendingMap, b0: map<nat, int>, p1: PendingMap, b1: map<nat, int>, start: nat, first: nat)
    requires BoundariesAgree(p0, b0) && KeysFrom(p0, start) && first in b0 && (forall i :: i in b0 ==> first <= i)
    requires !AllPending(p1, start, first + 1)
    ensures NoneComplete(p1, b1, start) <==> !Revealed(b0, p1, b1, start)
  {
    if e :| e in b1 && AllPending(p1, start, e + 1) {
      assert e < first;
      assert forall i :: i in b0 ==> e < i;
    }
  }

  lemma FrameIsFill(p0: PendingMap, b0: map<nat, int>, f0: map<nat, FecSet>, p1: PendingMap, b1: map<nat, int>,
                    f1: map<nat, FecSet>)
    requires FillFrame(p0, b0, f0, p1, b1, f1)
    ensures OnlyUnpooledAdded(p0, p1) && f1.Keys <= f0.Keys && forall f :: f in f1 ==> f in f0 && f1[f] == f0[f]
  {}

  lemma FromIsPart(p: PendingMap, start: nat)
    ensures forall i :: i in From(p, start) ==> i in p && From(p, start)[i] == p[i]
  {}

  lemma FirstBoundaryFirst(pending: PendingMap, boundaries: map<nat, int>, start: nat, first: nat)
    requires BoundariesAgree(pending, boundaries) && KeysFrom(pending, start)
    requires first in boundaries && forall i :: i in boundaries && i >= start ==> first <= i
    ensures first in pending && pending[first].batchComplete && (forall i :: i in boundaries ==> first <= i)
    ensures forall i :: i in pending && start <= i < first ==> !pending[i].batchComplete
  {}

  lemma FromShrinks(m: map<nat, int>, end: nat)
    requires end in m
    ensures From(m, end + 1).Keys < m.Keys
  {
    assert end in m.Keys && end !in From(m, end + 1).Keys;
  }

  lemma RoundShrinks(p0: PendingMap, b0: map<nat, int>, f0: map<nat, FecSet>,
                     p1: PendingMap, b1: map<nat, int>, f1: map<nat, FecSet>, f2: map<nat, FecSet>, end: nat)
    requires FillFrame(p0, b0, f0, p1, b1, f1) && f2.Keys <= f1.Keys && end in b1
    ensures Progress(f0.Keys, b0.Keys, f2.Keys, From(b1, end + 1).Keys)
  {
    hide FillFrame, From;
    FillFrameShrinks(p0, b0, f0, p1, b1, f1);
    FromShrinks(b1, end);
    if f2.Keys == f0.Keys {
      assert f1.Keys == f0.Keys;
    }
  }

  lemma CleanFrom(pending: PendingMap, start: nat, cursor: nat, next: nat)
    requires start <= next
    ensures AllIntact(pending) ==> AllIntact(From(pending, next))
    ensures StreamedFront(pending, start, cursor) ==>
              StreamedFront(From(pending, next), next, if cursor < next then next else cursor)
  {}

  lemma ConsistentFrom(pending: PendingMap, boundaries: map<nat, int>, start: nat, next: nat)
    requires BoundariesAgree(pending, boundaries) && KeysFrom(pending, start)
    ensures BoundariesAgree(From(pending, next), From(boundaries, next)) && KeysFrom(From(pending, next), next)
  {}

  lemma LeastBoundaryGone(bounds: map<nat, int>, end: nat)
    requires end in bounds && forall k :: k in bounds ==> end <= k
    ensures From(bounds, end + 1).Keys == bounds.Keys - {end}
  {}
}
