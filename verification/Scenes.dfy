/** The state of the listener as a value, and what a packet, a receiver or a whole run does to
    it (listener.go). */
module Scenes {
  import opened Wire
  import opened Transactions
  import opened Shreds
  import opened Pool
  import opened SlotState
  import opened Filling
  import opened Epochs
  import opened SlotLifecycle
  import opened Deliveries

  /** A packet is handled in one go; or a receiver starts, and later its read fails or a
      packet arrives in its buffer. A failing receiver releases its buffer without the
      listener's lock: `early` and `late` are buffers released while another caller is
      looking for one, before its second and before its third attempt. */
  datatype Event =
    | Handled(raw: Bytes, now: int, early: set<nat>, late: set<nat>)
    | Starts(now: int, early: set<nat>, late: set<nat>)
    | ReadFails(idx: nat)
    | Arrives(idx: nat, raw: Bytes, now: int)

  /** What became of a packet. */
  datatype Fate = Unreadable(error: ParseError) | OutOfRange | Blacklisted | DataTaken | CodeTaken

  datatype Counters = Counters(
    poolExhausted: nat, dataShreds: nat, codeShreds: nat, bytesReceived: nat,
    tooShort: nat, unknownVariant: nat, payloadInvalid: nat, slotRange: nat, droppedKnown: nat,
    slotsCompleted: nat, slotsEvicted: nat, harvestedBatches: nat)

  const NO_COUNTS := Counters(0, 0, 0, 0, 0, 0, 0, 0, 0, 0, 0, 0)

  /** What a buffer can take of a packet. */
  function Clip(raw: Bytes): (r: Bytes)
    ensures |r| <= BUFFER_SIZE && r <= raw && |r| == if |raw| > 2048 then 2048 else |raw|
  {
    if |raw| > BUFFER_SIZE then raw[..BUFFER_SIZE] else raw
  }

  /** The settings an accumulator was made with. */
  datatype Config = Config(maxFecSets: int, stuckTimeout: int, muted: bool)

  /** The settings of a listener. */
  datatype Settings = Settings(maxAge: nat, enableFec: bool, config: Config)

  // ---------------------------------------------------------------------------
  // A shred enters its slot

  /** What is stored for a data shred received in a buffer. */
  ghost function Arriving(handle: Handle, d: Shred): Pending
    requires d.DataShred?
  {
    Pending(Pooled(handle), DATA_HEADER_SIZE + |d.payload|, d.batchComplete, d.fecSetIndex)
  }

  /** A data shred was pushed as it was received: batches finished on the way draw on the
      pending shreds with it among them. */
  ghost predicate DataEntered(v0: View, v1: View, handle: Handle, d: Shred, now: int, timeout: int)
    requires d.DataShred?
  {
    && Settles(Arrived(v0.pending, v0.start, d.index, d.lastInSlot, Arriving(handle, d)), v0.log, v0.start,
               v1.pending, v1.log, v1.start, v1.recoveries == v0.recoveries)
    && exists mid, views ::
         DataPushed(v0, mid, views, v1, d.index, d.lastInSlot, Arriving(handle, d), now, timeout)
  }

  /** A code shred was recorded in its set and the push went on from there. */
  ghost predicate CodeEntered(v0: View, v1: View, c: Shred, now: int, cfg: Config)
    requires c.CodeShred? && c.variant.proofSize < 16 && FecSetsOk(v0.sets)
  {
    exists sets, mid, views ::
      && c.fecSetIndex in sets
      && sets[c.fecSetIndex] == Recorded(v0.sets, c.fecSetIndex, c.numData, c.numCoding, c.position, c.coded, c.variant)
      && (forall k :: k in sets && k != c.fecSetIndex ==> k in v0.sets && sets[k] == v0.sets[k])
      && (forall k :: k in v0.sets && k !in sets ==>
            LeastSet(v0.sets, k) && k < c.fecSetIndex && |v0.sets| >= cfg.maxFecSets)
      && CodePushed(v0, sets, mid, views, v1, c.fecSetIndex, now, cfg.stuckTimeout)
  }

  /** What becomes of a data shred: the last one completes its slot, any other is pending
      unless its batch is already finished. */
  ghost predicate Taken(v: View, d: Shred)
    requires d.DataShred?
  {
    if d.lastInSlot then v.complete else d.index < v.start || d.index in v.pending
  }

  /** What becomes of a code shred: it is buffered in its set, unless finished batches have
      passed the set. */
  ghost predicate Buffered(v: View, c: Shred)
    requires c.CodeShred?
  {
    (c.fecSetIndex in v.sets && c.position in v.sets[c.fecSetIndex].code) || c.fecSetIndex < v.start
  }

  ghost predicate ShredEntered(v0: View, v1: View, handle: Handle, shred: Shred, now: int, cfg: Config) {
    if shred.DataShred? then Taken(v1, shred) && DataEntered(v0, v1, handle, shred, now, cfg.stuckTimeout)
    else
      && (v1.recoveries == v0.recoveries ==> Buffered(v1, shred))
      && shred.variant.proofSize < 16 && FecSetsOk(v0.sets) && CodeEntered(v0, v1, shred, now, cfg)
  }

  ghost function EmittedIn(v: View): seq<Transaction> {
    LogTransactions(v.log) + v.current
  }

  // ---------------------------------------------------------------------------
  // The listener as a value

  /** The live slots, the slots ever evicted, the blacklist, the newest slot, the queued batches,
      the packets counted, the buffers with receivers, and whether a buffer is free. */
  datatype Scene = Scene(views: map<nat, View>, evicted: set<nat>, seen: set<nat>, last: nat, queue: seq<SlotBatch>,
                         intake: Counters, inFlight: set<nat>, spare: bool)

  /** The counters that packets move. */
  function Intake(c: Counters): Counters {
    c.(poolExhausted := 0, slotsCompleted := 0, slotsEvicted := 0, harvestedBatches := 0)
  }

  function Count(c: Counters, fate: Fate): Counters {
    match fate
    case Unreadable(TooShort) => c.(tooShort := c.tooShort + 1)
    case Unreadable(UnknownVariant) => c.(unknownVariant := c.unknownVariant + 1)
    case Unreadable(PayloadInvalid) => c.(payloadInvalid := c.payloadInvalid + 1)
    case OutOfRange => c.(slotRange := c.slotRange + 1)
    case Blacklisted => c.(droppedKnown := c.droppedKnown + 1)
    case DataTaken => c.(dataShreds := c.dataShreds + 1)
    case CodeTaken => c.(codeShreds := c.codeShreds + 1)
  }

  ghost function FateOf(parsed: ParseResult, live: set<nat>, seen: set<nat>, last: nat): Fate {
    if parsed.Unparseable? then Unreadable(parsed.error)
    else if !Acceptable(parsed.shred.slot, live, last) then OutOfRange
    else if parsed.shred.slot in seen then Blacklisted
    else if parsed.shred.DataShred? then DataTaken
    else CodeTaken
  }

  /** The slots that are not overdue. */
  ghost function Current(views: map<nat, View>, last: nat, maxAge: nat): map<nat, View> {
    map s | s in views && !Overdue(s, views[s].complete, last, maxAge) :: views[s]
  }

  /** A slot stays while the newest is at most `maxAge` slots ahead, a complete one while the
      newest is at most one ahead. */
  lemma CurrentIs(views: map<nat, View>, last: nat, maxAge: nat)
    requires last <= MAX_PLAUSIBLE_SLOT
    ensures forall s :: s in views ==>
              (s in Current(views, last, maxAge) <==> last <= s + if views[s].complete then 1 else maxAge)
  {}

  /** The slots ever evicted once, of the slots `before`, only `after` are live. */
  ghost function Gone(evicted: set<nat>, before: set<nat>, after: set<nat>): set<nat> {
    evicted + (before - after)
  }

  ghost function Only<T>(views: map<nat, T>, keys: set<nat>): map<nat, T> {
    map s | s in views && s in keys :: views[s]
  }

  ghost function ViewIn(views: map<nat, View>, slot: nat): View {
    if slot in views then views[slot] else NEW_VIEW
  }

  /** The slots once `slot` has been admitted: overdue ones leave if it is newer than all
      before, and it starts anew unless it is live. */
  ghost function Admitted(views: map<nat, View>, slot: nat, last: nat, maxAge: nat): map<nat, View> {
    Kept(views, slot, last, maxAge)[slot := ViewIn(views, slot)]
  }

  lemma AlreadyAdmitted(views: map<nat, View>, slot: nat)
    ensures slot in views ==> views[slot := ViewIn(views, slot)] == views
  {}

  ghost function Kept(views: map<nat, View>, slot: nat, last: nat, maxAge: nat): map<nat, View> {
    if slot > last then Current(views, slot, maxAge) else views
  }

  /** The shred entered its slot, which is live now, and the slot emitted `txs`. Every other slot
      is as it was, or has left because the newest slot has moved on. */
  ghost predicate SlotEntered(s0: Scene, s1: Scene, handle: Handle, shred: Shred, now: int, st: Settings,
                              txs: seq<Transaction>) {
    && shred.slot in s1.views && s1.last == (if shred.slot > s0.last then shred.slot else s0.last)
    && s1.views == Admitted(s0.views, shred.slot, s0.last, st.maxAge)[shred.slot := s1.views[shred.slot]]
    && s1.evicted == Gone(s0.evicted, s0.views.Keys, s1.views.Keys) && s0.queue <= s1.queue
    && ShredEntered(ViewIn(s0.views, shred.slot), s1.views[shred.slot], handle, shred, now, st.config)
    && EmittedIn(s1.views[shred.slot]) == EmittedIn(ViewIn(s0.views, shred.slot)) + txs
  }

  lemma SlotIsEntered(s0: Scene, s1: Scene, handle: Handle, shred: Shred, now: int, st: Settings,
                      txs: seq<Transaction>, v0: View, v1: View)
    requires s1.last == if shred.slot > s0.last then shred.slot else s0.last
    requires v0 == ViewIn(s0.views, shred.slot)
    requires s1.views == Admitted(s0.views, shred.slot, s0.last, st.maxAge)[shred.slot := v1]
    requires s1.evicted == Gone(s0.evicted, s0.views.Keys, s1.views.Keys) && s0.queue <= s1.queue
    requires ShredEntered(v0, v1, handle, shred, now, st.config) && EmittedIn(v1) == EmittedIn(v0) + txs
    ensures SlotEntered(s0, s1, handle, shred, now, st, txs)
  {
    hide Admitted, ShredEntered, EmittedIn, Gone;
  }

  lemma DataShredEntered(v0: View, v1: View, handle: Handle, d: Shred, now: int, cfg: Config)
    requires d.DataShred? && Taken(v1, d) && DataEntered(v0, v1, handle, d, now, cfg.stuckTimeout)
    ensures ShredEntered(v0, v1, handle, d, now, cfg)
  {
    hide DataEntered;
  }

  lemma CodeShredEntered(v0: View, v1: View, handle: Handle, c: Shred, now: int, cfg: Config)
    requires c.CodeShred? && c.variant.proofSize < 16 && FecSetsOk(v0.sets) && CodeEntered(v0, v1, c, now, cfg)
    requires v1.recoveries == v0.recoveries ==> Buffered(v1, c)
    ensures ShredEntered(v0, v1, handle, c, now, cfg)
  {
    hide CodeEntered, FecSetsOk;
  }

  lemma IntakeCounts(c: Counters, fate: Fate)
    ensures Intake(Count(c, fate)) == Count(Intake(c), fate)
  {}

  /** Nothing but counters and buffers has changed. */
  ghost predicate Idle(s0: Scene, s1: Scene) {
    s1 == s0.(intake := s1.intake, inFlight := s1.inFlight, spare := s1.spare)
  }

  /** What was read from buffer `handle` was taken: it is counted, the buffer leaves its receiver,
      and `out` is what the slot emitted. Packets that do not parse, that belong to an unacceptable
      or blacklisted slot, or that are of use only to recovery when that is off, leave the slots
      alone. */
  ghost predicate ParsedTaken(s0: Scene, s1: Scene, handle: Handle, parsed: ParseResult, now: int, st: Settings,
                              out: seq<SlotBatch>) {
    var fate := FateOf(parsed, s0.views.Keys, s0.seen, s0.last);
    && s1.inFlight == s0.inFlight - {handle.idx} && s1.intake == Count(s0.intake, fate)
    && if fate == DataTaken || (fate == CodeTaken && st.enableFec)
       then exists txs ::
              SlotEntered(s0, s1, handle, parsed.shred, now, st, txs) && out == BatchOf(parsed.shred.slot, txs)
       else Idle(s0, s1) && out == []
  }

  lemma ParsedIsTaken(s0: Scene, counted: Scene, s1: Scene, handle: Handle, shred: Shred, now: int, st: Settings,
                      txs: seq<Transaction>)
    requires Acceptable(shred.slot, s0.views.Keys, s0.last) && shred.slot !in s0.seen
    requires shred.DataShred? || st.enableFec
    requires Idle(s0, counted) && SlotEntered(counted, s1, handle, shred, now, st, txs)
    requires s1.inFlight == s0.inFlight - {handle.idx}
    requires s1.intake == Count(s0.intake, if shred.DataShred? then DataTaken else CodeTaken)
    ensures ParsedTaken(s0, s1, handle, ParseResult.Shred(shred), now, st, BatchOf(shred.slot, txs))
  {
    hide Acceptable, Admitted, ShredEntered, EmittedIn, Gone, BatchOf;
    assert SlotEntered(s0, s1, handle, shred, now, st, txs);
  }

  lemma CodeIsIdle(s0: Scene, s1: Scene, handle: Handle, shred: Shred, now: int, st: Settings)
    requires Acceptable(shred.slot, s0.views.Keys, s0.last) && shred.slot !in s0.seen
    requires shred.CodeShred? && !st.enableFec && Idle(s0, s1)
    requires s1.inFlight == s0.inFlight - {handle.idx} && s1.intake == Count(s0.intake, CodeTaken)
    ensures ParsedTaken(s0, s1, handle, ParseResult.Shred(shred), now, st, [])
  {
    hide Acceptable, SlotEntered;
  }

  lemma RefusedIsIdle(s0: Scene, s1: Scene, handle: Handle, shred: Shred, now: int, st: Settings)
    requires !Acceptable(shred.slot, s0.views.Keys, s0.last) || shred.slot in s0.seen
    requires Idle(s0, s1) && s1.inFlight == s0.inFlight - {handle.idx}
    requires s1.intake == Count(s0.intake, if Acceptable(shred.slot, s0.views.Keys, s0.last) then Blacklisted
                                           else OutOfRange)
    ensures ParsedTaken(s0, s1, handle, ParseResult.Shred(shred), now, st, [])
  {
    hide Acceptable, SlotEntered;
  }

  lemma UnreadableIsIdle(s0: Scene, s1: Scene, handle: Handle, parsed: ParseResult, now: int, st: Settings)
    requires parsed.Unparseable? && Idle(s0, s1)
    requires s1.inFlight == s0.inFlight - {handle.idx} && s1.intake == Count(s0.intake, Unreadable(parsed.error))
    ensures ParsedTaken(s0, s1, handle, parsed, now, st, [])
  {
    hide Acceptable, SlotEntered;
  }

  ghost predicate PacketTaken(s0: Scene, s1: Scene, handle: Handle, now: int, st: Settings, out: seq<SlotBatch>) {
    ParsedTaken(s0.(intake := s0.intake.(bytesReceived := s0.intake.bytesReceived + |handle.bytes|)), s1, handle,
                ParseKind(handle.bytes), now, st, out)
  }

  /** Only the oldest of the slots that are not overdue may have left. */
  ghost predicate OldestLeft(v0: map<nat, View>, v1: map<nat, View>, last: nat, maxAge: nat) {
    forall t, u :: t in v0 && u in v0 && t !in v1 ==>
      Overdue(t, v0[t].complete, last, maxAge) || Overdue(u, v0[u].complete, last, maxAge) || t <= u
  }

  /** Slots were evicted to free buffers; with a free buffer none was. */
  ghost predicate Thinned(s0: Scene, s1: Scene, maxAge: nat) {
    && s1.views == Only(s0.views, s1.views.Keys) && OldestLeft(s0.views, s1.views, s0.last, maxAge)
    && s1.evicted == Gone(s0.evicted, s0.views.Keys, s1.views.Keys) && s1.last == s0.last && s0.queue <= s1.queue
    && s1.intake == s0.intake && (s0.spare ==> Idle(s0, s1))
  }

  /** A packet from acquiring a buffer on: without a free buffer, even after eviction, it is lost. */
  ghost predicate PacketHandled(s0: Scene, s1: Scene, raw: Bytes, now: int, st: Settings, out: seq<SlotBatch>) {
    || (!s0.spare && !s1.spare && Thinned(s0, s1, st.maxAge) && s1.inFlight <= s0.inFlight && out == [])
    || exists mid: Scene, idx: nat ::
         && Thinned(s0, mid, st.maxAge) && idx in mid.inFlight && mid.inFlight <= s0.inFlight + {idx}
         && (s0.spare ==> mid.inFlight == s0.inFlight + {idx} && idx !in s0.inFlight)
         && PacketTaken(mid, s1, Handle(idx, Clip(raw)), now, st, out)
  }

  /** What an event does, and what it hands to its caller. */
  ghost predicate Happens(s0: Scene, e: Event, s1: Scene, st: Settings, out: seq<SlotBatch>) {
    match e
    case Handled(raw, now, _, _) => PacketHandled(s0, s1, raw, now, st, out)
    case Starts(_, _, _) =>
      if s0.queue != [] then out == [s0.queue[0]] && s1 == s0.(queue := s0.queue[1..])
      else out == [] && Thinned(s0, s1, st.maxAge)
    case ReadFails(idx) => out == [] && Idle(s0, s1) && s1.inFlight == s0.inFlight - {idx}
    case Arrives(idx, raw, now) =>
      if idx in s0.inFlight then PacketTaken(s0, s1, Handle(idx, Clip(raw)), now, st, out)
      else out == [] && s1 == s0
  }

  /** A run: the scenes between the events, and what each event hands out. */
  ghost predicate Happened(scenes: seq<Scene>, events: seq<Event>, st: Settings, outs: seq<seq<SlotBatch>>) {
    && |scenes| == |events| + 1 && |outs| == |events|
    && forall k :: 0 <= k < |events| ==> Happens(scenes[k], events[k], scenes[k + 1], st, outs[k])
  }

  ghost function AllOut(outs: seq<seq<SlotBatch>>): seq<SlotBatch> {
    if outs == [] then [] else AllOut(outs[..|outs| - 1]) + outs[|outs| - 1]
  }

  lemma OneMore(scenes: seq<Scene>, events: seq<Event>, st: Settings, outs: seq<seq<SlotBatch>>, e: Event, s: Scene,
                out: seq<SlotBatch>)
    requires Happened(scenes, events, st, outs) && Happens(scenes[|events|], e, s, st, out)
    ensures Happened(scenes + [s], events + [e], st, outs + [out]) && AllOut(outs + [out]) == AllOut(outs) + out
  {
    hide Happens;
    assert (outs + [out])[..|outs|] == outs;
    var scenes', events', outs' := scenes + [s], events + [e], outs + [out];
    forall k | 0 <= k < |events'| ensures Happens(scenes'[k], events'[k], scenes'[k + 1], st, outs'[k]) {
      if k < |events| {
        assert scenes'[k] == scenes[k] && scenes'[k + 1] == scenes[k + 1] && events'[k] == events[k];
      }
    }
  }

  /** The newest slot is never lowered, and no eviction is forgotten. */
  ghost predicate Grows(s0: Scene, s1: Scene) {
    s0.last <= s1.last && s0.evicted <= s1.evicted
  }

  lemma PacketGrows(s0: Scene, s1: Scene, handle: Handle, now: int, st: Settings, out: seq<SlotBatch>)
    requires PacketTaken(s0, s1, handle, now, st, out)
    ensures Grows(s0, s1)
  {
    hide EmittedIn, ShredEntered, Acceptable, Admitted, Count, ParseKind;
  }

  lemma EventGrows(s0: Scene, e: Event, s1: Scene, st: Settings, out: seq<SlotBatch>)
    requires Happens(s0, e, s1, st, out)
    ensures Grows(s0, s1)
  {
    hide PacketTaken, Clip, Only, OldestLeft;
    if e.Arrives? && e.idx in s0.inFlight {
      PacketGrows(s0, s1, Handle(e.idx, Clip(e.raw)), e.now, st, out);
    } else if e.Handled? && !Thinned(s0, s1, st.maxAge) {
      var mid: Scene, idx: nat :|
        Thinned(s0, mid, st.maxAge) && PacketTaken(mid, s1, Handle(idx, Clip(e.raw)), e.now, st, out);
      PacketGrows(mid, s1, Handle(idx, Clip(e.raw)), e.now, st, out);
    }
  }

  lemma {:induction false} RunGrows(scenes: seq<Scene>, events: seq<Event>, st: Settings, outs: seq<seq<SlotBatch>>,
                                    i: nat, j: nat)
    requires Happened(scenes, events, st, outs) && i <= j <= |events|
    ensures Grows(scenes[i], scenes[j])
    decreases j
  {
    hide Happens;
    if i < j {
      RunGrows(scenes, events, st, outs, i, j - 1);
      EventGrows(scenes[j - 1], events[j - 1], scenes[j - 1 + 1], st, outs[j - 1]);
    }
  }

  lemma WithoutBoth<T>(views: map<nat, T>, todo: set<nat>, s: nat)
    requires s in todo
    ensures (views - {s}) - (todo - {s}) == views - todo
  {}

  lemma LessKept(evicted: set<nat>, all: set<nat>, live: set<nat>, s: nat)
    requires s in live && live <= all
    ensures Gone(evicted, all, live) + {s} == Gone(evicted, all, live - {s})
  {}

  lemma SameGone(evicted: set<nat>, all: set<nat>, live: set<nat>, s: nat)
    requires s in all ==> s in live
    ensures Gone(evicted, all, live + {s}) == Gone(evicted, all, live)
  {}

  lemma OneChanged(before: map<nat, View>, after: map<nat, View>, s: nat)
    requires after - {s} == before - {s} && s in after
    ensures after == before[s := after[s]]
  {
    forall t | t in before && t != s ensures t in after && after[t] == before[t] {
      assert t in before - {s};
    }
    forall t | t in after && t != s ensures t in before {
      assert t in after - {s};
    }
  }

  lemma NoneGone(evicted: set<nat>, live: set<nat>)
    ensures Gone(evicted, live, live) == evicted
  {}

  lemma GoneGrows(evicted: set<nat>, before: set<nat>)
    ensures forall after :: evicted <= Gone(evicted, before, after)
  {}

  lemma TakenFlight(s0: Scene, s1: Scene, handle: Handle, now: int, st: Settings, out: seq<SlotBatch>)
    requires PacketTaken(s0, s1, handle, now, st, out)
    ensures s1.inFlight == s0.inFlight - {handle.idx}
  {
    hide ParseKind, SlotEntered;
  }

  lemma CurrentAgain(views: map<nat, View>, last: nat, maxAge: nat)
    ensures Current(Current(views, last, maxAge), last, maxAge) == Current(views, last, maxAge)
  {
    hide Overdue;
  }

  /** Only the smallest of the slots may have left. */
  ghost predicate LeastLeft(v0: map<nat, View>, v1: map<nat, View>) {
    v1 == Only(v0, v1.Keys) && forall t, u :: t in v0 && u in v0 && t !in v1 ==> t <= u
  }

  lemma LeastIsOut(views: map<nat, View>, s: nat)
    requires forall t :: t in views ==> s <= t
    ensures LeastLeft(views, views - {s})
  {}

  lemma NoneOut(views: map<nat, View>)
    ensures LeastLeft(views, views)
  {}

  lemma NoneThinned(views: map<nat, View>, last: nat, maxAge: nat)
    ensures Only(views, views.Keys) == views && OldestLeft(views, views, last, maxAge)
  {}

  lemma CurrentInWindow(views: map<nat, View>, last: nat, maxAge: nat, s: nat)
    requires views == Current(views, last, maxAge) && s in views && last <= MAX_PLAUSIBLE_SLOT
    ensures InWindow(s, last, maxAge)
  {
    NotOverdueInWindow(s, views[s].complete, last, maxAge);
  }

  lemma OverdueLeft(v0: map<nat, View>, last: nat, maxAge: nat)
    ensures var v1 := Current(v0, last, maxAge); v1 == Only(v0, v1.Keys) && OldestLeft(v0, v1, last, maxAge)
  {
    hide Overdue;
  }

  lemma LeastLeftThen(v0: map<nat, View>, v1: map<nat, View>, last: nat, maxAge: nat)
    requires LeastLeft(Current(v0, last, maxAge), v1)
    ensures v1 == Only(v0, v1.Keys) && OldestLeft(v0, v1, last, maxAge)
  {
    hide Overdue;
    var mid := Current(v0, last, maxAge);
    forall t, u | t in v0 && u in v0 && t !in v1
      ensures Overdue(t, v0[t].complete, last, maxAge) || Overdue(u, v0[u].complete, last, maxAge) || t <= u
    {
      assert t in mid || Overdue(t, v0[t].complete, last, maxAge);
      assert u in mid || Overdue(u, v0[u].complete, last, maxAge);
    }
  }
}
