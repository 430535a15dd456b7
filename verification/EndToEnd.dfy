/** From the bytes on the wire to the batch that is delivered: packets written by the builders,
    handed to the listener, give their callers the transactions they were written from. */
module EndToEnd {
  import opened Wire
  import opened Transactions
  import opened Batches
  import opened Streaming
  import opened Serialization
  import opened Shreds
  import opened Packets
  import opened Pool
  import opened SlotState
  import opened Filling
  import opened Epochs
  import opened SlotLifecycle
  import opened Deliveries
  import opened Scenes
  import opened Listeners

  // ---------------------------------------------------------------------------
  // A batch in one shred

  /** Between batches: nothing is pending and the next shred is `index`. */
  ghost predicate Ready(v: View, index: nat) {
    && v.pending == map[] && v.boundaries == map[] && v.sets == map[] && v.start == v.cursor == index
    && v.buffer == [] && v.current == [] && v.sigs == {}
  }

  /** A batch that decodes. */
  ghost predicate GoodBatch(xs: seq<Entry>) {
    |xs| <= 50_000 && forall i :: 0 <= i < |xs| ==> GoodEntry(xs[i])
  }

  /** What is emitted of a batch: its transactions with a first signature, each signature once. */
  ghost function Once(xs: seq<Entry>): seq<Transaction> {
    NewOnes({}, AllTransactions(xs))
  }

  /** A shred that holds the batch `xs` and ends it. */
  ghost predicate Carries(shred: Pending, xs: seq<Entry>) {
    shred.source.Pooled? && shred.batchComplete && shred.PayloadBytes() == Payload(BatchBytes(xs))
  }

  lemma WholeYields(xs: seq<Entry>)
    requires GoodBatch(xs)
    ensures !Fails(BatchBytes(xs)) && Yielded(BatchBytes(xs)) == AllTransactions(xs)
    ensures TransactionsOf(BatchBytes(xs)) == AllTransactions(xs)
  {
    hide BatchAt, Fails, Yielded, AllYielded, BatchBytes, AllTransactions, GoodEntry;
    var b := BatchBytes(xs);
    BatchRoundTrip(xs, []);
    assert b + [] == b;
    BatchDoesNotFail(b);
    StreamingAgreesWithBatch(b);
  }

  lemma YieldedOfNothing()
    ensures Yielded([]) == []
  {}

  lemma ShredStreams(p: PendingMap, i: nat, xs: seq<Entry>)
    requires i < MAX_U32 && i in p && Carries(p[i], xs) && GoodBatch(xs)
    ensures StreamRun(p, [], i) == Streamed(i + 1, BatchBytes(xs), AllTransactions(xs), false)
    ensures Content(i, i, p) == AllTransactions(xs)
  {
    hide Fails, Yielded, BatchBytes, AllTransactions, GoodBatch, BatchAt, Pending.PayloadBytes;
    var b := BatchBytes(xs);
    WholeYields(xs);
    YieldedOfNothing();
    assert PayloadAt(p, i) == b && [] + b == b;
    assert Combined(p, i, i + 1) == Combined(p, i, i) + b;
  }

  lemma {:induction false} NothingNew(seen: set<Bytes>, txs: seq<Transaction>)
    requires FirstSignatures(txs) <= seen
    ensures NewOnes(seen, txs) == []
    decreases txs
  {
    if txs != [] {
      var init, last := txs[..|txs| - 1], txs[|txs| - 1];
      assert txs == init + [last];
      FirstSignaturesSnoc(init, last);
      NothingNew(seen, init);
    }
  }

  /** The shred has been streamed and the flush comes next. */
  ghost predicate Passed(v: View, i: nat, shred: Pending, xs: seq<Entry>, now: int) {
    && v.pending == map[i := shred] && v.boundaries == map[i := now] && v.sets == map[] && v.start == i
    && v.cursor == i + 1 && v.current == Once(xs) && v.sigs == FirstSignatures(AllTransactions(xs))
  }

  lemma ArrivedAlone(v: View, i: nat, shred: Pending, now: int)
    requires Ready(v, i) && shred.batchComplete
    ensures ArrivedView(v, i, shred, now) == v.(pending := map[i := shred], boundaries := map[i := now])
  {}

  lemma StreamsWhole(v: View, i: nat, xs: seq<Entry>)
    requires i < MAX_U32 && i in v.pending && Carries(v.pending[i], xs) && GoodBatch(xs)
    requires v.cursor == i && v.buffer == [] && v.current == [] && v.sigs == {}
    ensures StreamedView(v)
         == v.(cursor := i + 1, buffer := BatchBytes(xs), current := Once(xs),
               sigs := FirstSignatures(AllTransactions(xs)))
  {
    hide StreamRun, BatchBytes, AllTransactions, GoodBatch, NewOnes, FirstSignatures, Carries;
    ShredStreams(v.pending, i, xs);
    var txs := AllTransactions(xs);
    assert [] + NewOnes({}, txs) == NewOnes({}, txs) && {} + FirstSignatures(txs) == FirstSignatures(txs);
  }

  lemma ArrivalStreams(v: View, i: nat, shred: Pending, xs: seq<Entry>, now: int)
    requires Ready(v, i) && i < MAX_U32 && Carries(shred, xs) && GoodBatch(xs)
    ensures var w := StreamedView(ArrivedView(v, i, shred, now)); Passed(w, i, shred, xs, now) && w.log == v.log
  {
    hide StreamedView, ArrivedView, BatchBytes, AllTransactions, GoodBatch, Once, FirstSignatures, Pending.PayloadBytes;
    ArrivedAlone(v, i, shred, now);
    StreamsWhole(ArrivedView(v, i, shred, now), i, xs);
  }

  /** The flush finishes the batch. */
  lemma RoundDelivers(v: View, w: View, i: nat, shred: Pending, xs: seq<Entry>, now: int, timeout: int)
    requires Passed(v, i, shred, xs, now) && i < MAX_U32 && Carries(shred, xs) && GoodBatch(xs)
    requires Round(v, w, now, timeout)
    ensures Ready(w, i + 1) && w.log != [] && w.log == v.log + [w.log[|w.log| - 1]]
    ensures w.log[|w.log| - 1].emitted == Once(xs)
  {
    hide AllTransactions, GoodBatch, NewOnes, FirstSignatures, Carries, AllPending, Content, FillsFor, Timed;
    var e := w.log[|w.log| - 1];
    assert e.end == i;
    assert e.pending == v.pending by {
      assert NoneFillable(v.sets, v.pending);
    }
    ShredStreams(e.pending, i, xs);
    NothingNew(v.sigs, AllTransactions(xs));
    assert Once(xs) + [] == Once(xs);
    assert w.pending == map[];
    assert w.boundaries == map[];
    assert w.sets == map[];
  }

  lemma WholeNoWait(v: View, w: View, i: nat, shred: Pending, xs: seq<Entry>, now: int, timeout: int)
    requires Passed(v, i, shred, xs, now)
    ensures !Waits(v, w, i, now, timeout)
  {
    hide FillsFor, FillFrame, Timed, AllTransactions, NewOnes, FirstSignatures;
  }

  lemma FlushDelivers(views: seq<View>, v: View, w: View, i: nat, shred: Pending, xs: seq<Entry>, now: int,
                      timeout: int)
    requires Passed(v, i, shred, xs, now) && i < MAX_U32 && Carries(shred, xs) && GoodBatch(xs)
    requires Flushes(views, v, w, now, timeout)
    ensures Ready(w, i + 1) && w.log != [] && w.log == v.log + [w.log[|w.log| - 1]]
    ensures w.log[|w.log| - 1].emitted == Once(xs)
  {
    hide Round, Waits, Carries, GoodBatch, Once, FirstSignatures, AllTransactions;
    assert IsLeast(v.boundaries, i);
    if |views| == 1 {
      WholeNoWait(v, w, i, shred, xs, now, timeout);
    }
    assert Round(views[0], views[0 + 1], now, timeout);
    RoundDelivers(views[0], views[1], i, shred, xs, now, timeout);
    if |views| > 2 {
      assert Round(views[1], views[1 + 1], now, timeout);
      NoRoundWithout(views[1], views[2], now, timeout);
    }
  }

  lemma NoRoundWithout(v: View, w: View, now: int, timeout: int)
    requires v.boundaries == map[]
    ensures !Round(v, w, now, timeout)
  {
    hide Closes;
  }

  /** A shred that carries a whole batch, pushed between batches: the batch is finished, it is
      emitted, and the slot is between batches again. */
  lemma BatchEntered(v: View, w: View, handle: Handle, d: Shred, xs: seq<Entry>, now: int, timeout: int)
    requires d.DataShred? && DataEntered(v, w, handle, d, now, timeout) && Ready(v, d.index) && d.index < MAX_U32
    requires !d.lastInSlot && Carries(Arriving(handle, d), xs) && GoodBatch(xs)
    ensures Ready(w, d.index + 1) && EmittedIn(w) == EmittedIn(v) + Once(xs)
  {
    hide Settles, Flushes, StreamedView, ArrivedView, Carries, GoodBatch, Once, Arriving, FillFrame, Grown, Served,
      LogTransactions, Passed;
    var shred := Arriving(handle, d);
    var mid, views :| DataPushed(v, mid, views, w, d.index, d.lastInSlot, shred, now, timeout);
    ArrivalStreams(v, d.index, shred, xs, now);
    PassedCursor(StreamedView(ArrivedView(v, d.index, shred, now)), d.index, shred, xs, now);
    FlushDelivers(views, mid, w, d.index, shred, xs, now, timeout);
    EpochClosed(v.log, [], Once(xs), w.log[|w.log| - 1]);
  }

  lemma PassedCursor(v: View, i: nat, shred: Pending, xs: seq<Entry>, now: int)
    requires Passed(v, i, shred, xs, now)
    ensures v.cursor == i + 1
  {}

  // ---------------------------------------------------------------------------
  // A batch in one packet

  /** The data packet number `c.index` of its slot, with the whole batch `xs` in it. */
  function BatchPacket(c: Common, v: Variant, parentOffset: nat, tick: Byte, xs: seq<Entry>, rest: Bytes): Bytes
    requires GoodVariant(v)
  {
    DataPacket(c, VariantByte(v), parentOffset, FlagsByte(tick, true, false), 0x58 + |BatchBytes(xs)|,
               BatchBytes(xs) + rest)
  }

  /** The fields fit, and so does the batch. */
  ghost predicate Fits(c: Common, v: Variant, parentOffset: nat, tick: Byte, xs: seq<Entry>, rest: Bytes) {
    && CommonOk(c) && GoodVariant(v) && !IsCode(v) && c.fecSetIndex <= c.index < MAX_U32
    && parentOffset < Exp256(2) && tick < 0x40 && GoodBatch(xs)
    && 0x58 + |BatchBytes(xs)| <= 1203 && 0x58 + |BatchBytes(xs)| + |rest| <= 2048
  }

  lemma BatchPacketParses(c: Common, v: Variant, parentOffset: nat, tick: Byte, xs: seq<Entry>, rest: Bytes, idx: nat)
    requires Fits(c, v, parentOffset, tick, xs, rest)
    ensures var raw := BatchPacket(c, v, parentOffset, tick, xs, rest);
            && Clip(raw) == raw && ParseKind(raw).Shred?
            && var d := ParseKind(raw).shred;
               && d.DataShred? && d.slot == c.slot && d.index == c.index && !d.lastInSlot && InRange(raw)
               && Carries(Arriving(Handle(idx, raw), d), xs)
  {
    hide BatchBytes, ParseKind, CommonOk, GoodVariant, GoodBatch, Exp256, DataPacket, FlagsByte, VariantByte;
    var raw, b := BatchPacket(c, v, parentOffset, tick, xs, rest), BatchBytes(xs);
    TwoBytesHold();
    DataPacketRoundTrip(c, v, parentOffset, tick, true, false, b, rest);
    DataFields(c, VariantByte(v), parentOffset, FlagsByte(tick, true, false), 0x58 + |b|, b + rest);
    assert raw[0x58..0x58 + |b|] == raw[0x58..][..|b|] == b;
  }

  lemma SameAfter(front: seq<Transaction>, a: seq<Transaction>, b: seq<Transaction>)
    requires front + a == front + b
    ensures a == b
  {
    assert a == (front + a)[|front|..] && b == (front + b)[|front|..];
  }

  lemma BatchTaken(s0: Scene, s1: Scene, handle: Handle, d: Shred, xs: seq<Entry>, now: int, st: Settings,
                   txs: seq<Transaction>)
    requires SlotEntered(s0, s1, handle, d, now, st, txs) && d.DataShred? && !d.lastInSlot && d.index < MAX_U32
    requires Ready(ViewIn(s0.views, d.slot), d.index) && Carries(Arriving(handle, d), xs) && GoodBatch(xs)
    ensures txs == Once(xs) && d.slot in s1.views && Ready(s1.views[d.slot], d.index + 1)
    ensures s1.views.Keys <= s0.views.Keys + {d.slot} && s1.last == if d.slot > s0.last then d.slot else s0.last
  {
    hide DataEntered, Ready, Carries, GoodBatch, Once, EmittedIn, Gone, Arriving, Overdue;
    var v, w := ViewIn(s0.views, d.slot), s1.views[d.slot];
    BatchEntered(v, w, handle, d, xs, now, st.config.stuckTimeout);
    SameAfter(EmittedIn(v), txs, Once(xs));
  }

  /** A packet that carries a whole batch of an acceptable slot between batches delivers the
      transactions of that batch, each first signature once, and leaves the slot between batches. */
  lemma BatchDelivered(s0: Scene, s1: Scene, c: Common, v: Variant, parentOffset: nat, tick: Byte, xs: seq<Entry>,
                       rest: Bytes, now: int, st: Settings, out: seq<SlotBatch>)
    requires Fits(c, v, parentOffset, tick, xs, rest) && s0.spare
    requires c.slot !in s0.seen && Acceptable(c.slot, s0.views.Keys, s0.last)
    requires Ready(ViewIn(s0.views, c.slot), c.index)
    requires PacketHandled(s0, s1, BatchPacket(c, v, parentOffset, tick, xs, rest), now, st, out)
    ensures out == BatchOf(c.slot, Once(xs)) && c.slot in s1.views && Ready(s1.views[c.slot], c.index + 1)
    ensures s1.views.Keys <= s0.views.Keys + {c.slot} && s1.last == if c.slot > s0.last then c.slot else s0.last
  {
    hide Ready, Carries, GoodBatch, Once, BatchOf, Arriving, ParseKind, Clip, BatchPacket, Acceptable, SlotEntered,
      Count, ViewIn, Only, OldestLeft, Gone, CommonOk, GoodVariant, Exp256, BatchBytes;
    var raw := BatchPacket(c, v, parentOffset, tick, xs, rest);
    var mid: Scene, idx: nat :|
      && Thinned(s0, mid, st.maxAge) && idx in mid.inFlight && mid.inFlight <= s0.inFlight + {idx}
      && (s0.spare ==> mid.inFlight == s0.inFlight + {idx} && idx !in s0.inFlight)
      && PacketTaken(mid, s1, Handle(idx, Clip(raw)), now, st, out);
    BatchPacketParses(c, v, parentOffset, tick, xs, rest, idx);
    var d := ParseKind(raw).shred;
    var counted := mid.(intake := mid.intake.(bytesReceived := mid.intake.bytesReceived + |raw|));
    var txs :| SlotEntered(counted, s1, Handle(idx, raw), d, now, st, txs) && out == BatchOf(d.slot, txs);
    BatchTaken(counted, s1, Handle(idx, raw), d, xs, now, st, txs);
  }

  // ---------------------------------------------------------------------------
  // Batch after batch

  /** Only slot `slot` is live, it is between batches, and every buffer is free. */
  ghost predicate Calm(s: Scene, slot: nat, index: nat) {
    && s.spare && s.inFlight == {} && s.views.Keys <= {slot} && slot !in s.seen
    && Acceptable(slot, s.views.Keys, s.last) && Ready(ViewIn(s.views, slot), index)
  }

  /** What is delivered for the batches one after the other. */
  ghost function AllBatches(slot: nat, batches: seq<seq<Entry>>): seq<SlotBatch> {
    if batches == [] then []
    else AllBatches(slot, batches[..|batches| - 1]) + BatchOf(slot, Once(batches[|batches| - 1]))
  }

  lemma BatchesSnoc(slot: nat, batches: seq<seq<Entry>>, k: nat)
    requires k < |batches|
    ensures AllBatches(slot, batches[..k + 1]) == AllBatches(slot, batches[..k]) + BatchOf(slot, Once(batches[k]))
  {
    assert batches[..k + 1][..k] == batches[..k];
  }

  lemma NothingSits(l: Listener, slot: nat, index: nat, s: nat, i: nat, x: nat)
    requires l.Views().Keys <= {slot} && Ready(ViewIn(l.Views(), slot), index)
    ensures !Sits(l, s, i, x)
  {
    if s in l.slots {
      assert s in l.Views() && l.Views()[s].pending == l.slots[s].pending;
    }
  }

  /** With no receiver at work and nothing pending, every buffer is free. */
  lemma BuffersBack(l: Listener, slot: nat, index: nat)
    requires l.Valid() && l.inFlight == {} && l.pool.capacity > 0 && l.Views().Keys <= {slot}
    requires Ready(ViewIn(l.Views(), slot), index)
    ensures l.pool.freelist != []
  {
    hide Listener.Valid;
    BufferConservation(l);
    if l.pool.freelist == [] {
      assert 0 in l.pool.freelist || 0 in l.inFlight || exists s, i :: Sits(l, s, i, 0);
      var s, i :| Sits(l, s, i, 0);
      NothingSits(l, slot, index, s, i, 0);
    }
  }

  /** Any number of batches, each in a packet of its own, sent one after the other as the shreds
      0, 1, 2, ... of a slot to a listener that has nothing else to do: their transactions are
      delivered batch by batch, in order, and nothing else is. */
  method SendBatches(l: Listener, c: Common, v: Variant, parentOffset: nat, tick: Byte, batches: seq<seq<Entry>>,
                     rest: Bytes, now: int)
    returns (out: seq<SlotBatch>)
    requires l.Valid() && l.pool.capacity > 0 && Calm(l.Snapshot(), c.slot, 0) && c.fecSetIndex == 0
    requires |batches| < MAX_U32
    requires forall k :: 0 <= k < |batches| ==> Fits(c.(index := k), v, parentOffset, tick, batches[k], rest)
    modifies l, l.pool, l.cache, l.repr
    ensures l.Valid() && Calm(l.Snapshot(), c.slot, |batches|)
    ensures out == AllBatches(c.slot, batches) && l.delivered == old(l.delivered) + out
  {
    hide Listener.Valid, Fits, Once, BatchOf, BatchPacket, Listener.Snapshot, Calm;
    out := [];
    for k := 0 to |batches|
      invariant l.Valid() && Calm(l.Snapshot(), c.slot, k) && fresh(l.repr - old(l.repr))
      invariant out == AllBatches(c.slot, batches[..k]) && l.delivered == old(l.delivered) + out
    {
      var more := SendBatch(l, c.(index := k), v, parentOffset, tick, batches[k], rest, now);
      BatchesSnoc(c.slot, batches, k);
      out := out + more;
    }
    assert batches[..|batches|] == batches;
  }

  method SendBatch(l: Listener, c: Common, v: Variant, parentOffset: nat, tick: Byte, xs: seq<Entry>, rest: Bytes,
                   now: int)
    returns (out: seq<SlotBatch>)
    requires l.Valid() && l.pool.capacity > 0 && Calm(l.Snapshot(), c.slot, c.index)
    requires Fits(c, v, parentOffset, tick, xs, rest)
    modifies l, l.pool, l.cache, l.repr
    ensures l.Valid() && Calm(l.Snapshot(), c.slot, c.index + 1) && fresh(l.repr - old(l.repr))
    ensures out == BatchOf(c.slot, Once(xs)) && l.delivered == old(l.delivered) + out
  {
    hide Listener.Valid, CommonOk, GoodBatch, GoodVariant, Exp256, BatchBytes, Once, BatchOf, BatchPacket,
      PacketHandled, Calm, Listener.Snapshot, InRange, Clip;
    BatchPacketParses(c, v, parentOffset, tick, xs, rest, 0);
    CalmListener(l, c.slot, c.index);
    var r := l.HandlePacket(BatchPacket(c, v, parentOffset, tick, xs, rest), now, {}, {});
    out := if r.Delivery? then [r.batch] else [];
    CalmAfter(old(l.Snapshot()), l, c, v, parentOffset, tick, xs, rest, now, out);
  }

  lemma CalmListener(l: Listener, slot: nat, index: nat)
    requires Calm(l.Snapshot(), slot, index)
    ensures l.inFlight == {} && l.pool.freelist != []
  {
    hide Acceptable, Ready, ViewIn, Listener.Views, Intake;
  }

  lemma CalmAfter(s0: Scene, l: Listener, c: Common, v: Variant, parentOffset: nat, tick: Byte, xs: seq<Entry>,
                  rest: Bytes, now: int, out: seq<SlotBatch>)
    requires Calm(s0, c.slot, c.index) && Fits(c, v, parentOffset, tick, xs, rest)
    requires l.Valid() && l.pool.capacity > 0 && l.inFlight == {}
    requires PacketHandled(s0, l.Snapshot(), BatchPacket(c, v, parentOffset, tick, xs, rest), now, l.Opts(), out)
    ensures Calm(l.Snapshot(), c.slot, c.index + 1) && out == BatchOf(c.slot, Once(xs))
  {
    hide Listener.Valid, Fits, Once, BatchOf, BatchPacket, Ready, PacketHandled, Listener.Views, Intake;
    BatchDelivered(s0, l.Snapshot(), c, v, parentOffset, tick, xs, rest, now, l.Opts(), out);
    BuffersBack(l, c.slot, c.index + 1);
    SlotSafety(l);
    l.SeeView(c.slot);
  }

  // ---------------------------------------------------------------------------
  // The first packet of a new listener

  lemma NewIsCalm(l: Listener, slot: nat)
    requires l.Valid() && l.slots == map[] && l.recentlySeen == {} && l.lastSlot == 0 && l.inFlight == {}
    requires l.pool.capacity > 0 && slot <= 10_000_000_000
    ensures Calm(l.Snapshot(), slot, 0)
  {
    hide Listener.Valid, Intake;
    assert l.Views() == map[];
    BuffersBack(l, slot, 0);
  }

  lemma OneIsOnce(x: Transaction, prefix: Bytes)
    requires GoodTransaction(x) && |x.signatures| > 0 && |prefix| == 40
    ensures GoodBatch([Entry(prefix, [x])]) && Once([Entry(prefix, [x])]) == [x]
  {
    hide GoodTransaction, Exp256;
    SmallCount(1);
    var xs := [Entry(prefix, [x])];
    assert xs[1..] == [] && AllTransactions(xs) == [x] + AllTransactions(xs[1..]);
    assert [x][..0] == [] && NewOnes({}, [x]) == NewOnes({}, [x][..0]) + [x];
  }

  /** A new listener, and one data packet with a batch of one transaction: it is delivered. */
  method FirstPacket(capacity: nat, maxAge: nat, enableFec: bool, salvageDisabled: bool, maxFecSets: int,
                     stuckTimeout: int, c: Common, v: Variant, x: Transaction, prefix: Bytes, rest: Bytes, now: int)
    returns (out: seq<SlotBatch>)
    requires 0 < capacity <= MAX_POOL_CAPACITY && maxAge <= MAX_U64 && c.index == 0 && c.slot <= 10_000_000_000
    requires GoodTransaction(x) && |x.signatures| > 0 && |prefix| == 40
    requires Fits(c, v, 0, 0, [Entry(prefix, [x])], rest)
    ensures out == [SlotBatch(c.slot, [x])]
  {
    hide Listener.Valid, Fits, Calm, GoodTransaction, Once;
    var l := new Listener(capacity, maxAge, enableFec, salvageDisabled, maxFecSets, stuckTimeout);
    NewIsCalm(l, c.slot);
    OneIsOnce(x, prefix);
    out := SendBatch(l, c, v, 0, 0, [Entry(prefix, [x])], rest, now);
  }
}
