/** The listener of listener.go: admits slots, hands packets to their accumulators and
    evicts old slots. Each public method is one section that the source runs under its
    lock; receivers hold a buffer of their own between two such sections. */
module Listeners {
  import Galois
  import opened Wire
  import opened Transactions
  import opened Streaming
  import opened Shreds
  import opened CodecCache
  import opened Pool
  import opened SlotState
  import opened Recovery
  import opened Filling
  import opened Epochs
  import opened Accumulators
  import opened SlotLifecycle
  import opened Deliveries
  import opened Scenes

  datatype Delivery = Delivery(batch: SlotBatch) | Nothing
  datatype Received = Popped(batch: SlotBatch) | Reading(idx: nat) | NoBuffer

  /** rollupAccumulator. */
  function Rollup(totals: Stats, s: Stats): Stats {
    Stats(totals.decodeErrors + s.decodeErrors, totals.recoveriesDone + s.recoveriesDone,
          totals.recoveryFailures + s.recoveryFailures,
          totals.batchesDecodedStreaming + s.batchesDecodedStreaming,
          totals.batchesDecodedFallback + s.batchesDecodedFallback,
          totals.batchesSkipped + s.batchesSkipped,
          totals.fecSetsDiscardedUnused + s.fecSetsDiscardedUnused,
          totals.fecSetsEvictedEarly + s.fecSetsEvictedEarly,
          totals.salvagedTailTx + s.salvagedTailTx,
          totals.batchesForceFinalizedCorrupted + s.batchesForceFinalizedCorrupted,
          totals.batchesForceFinalizedTimeout + s.batchesForceFinalizedTimeout)
  }

  /** The counters of an accumulator, or the totals, in a row. */
  function Fields(s: Stats): (r: seq<int>)
    ensures |r| == 11
  {
    [s.decodeErrors, s.recoveriesDone, s.recoveryFailures, s.batchesDecodedStreaming, s.batchesDecodedFallback,
     s.batchesSkipped, s.fecSetsDiscardedUnused, s.fecSetsEvictedEarly, s.salvagedTailTx,
     s.batchesForceFinalizedCorrupted, s.batchesForceFinalizedTimeout]
  }

  /** The packets the accumulator's 32-bit index arithmetic is meant for. */
  ghost predicate InRange(raw: Bytes) {
    var parsed := ParseKind(raw);
    parsed.Shred? ==>
      && (parsed.shred.DataShred? ==> parsed.shred.index < MAX_U32)
      && (parsed.shred.CodeShred? ==> parsed.shred.fecSetIndex + parsed.shred.numData <= MAX_U32)
  }

  /** The batch that a delivery hands over. */
  ghost function Handed(r: Delivery): seq<SlotBatch> {
    if r.Delivery? then [r.batch] else []
  }

  /** An accumulator between pushes, holding the buffers `mine`, that has done what `story`
      says. */
  ghost predicate Healthy(acc: Accumulator, mine: set<nat>, story: Story)
    reads acc, acc.decoder
  {
    && acc.Valid() && acc.Clean() && acc.Settled()
    && Exclusive(acc.pending) && Owned(acc.pending) == mine
    && acc.Emitted() == story.emitted && |acc.log| == story.batches
  }

  ghost predicate Configured(acc: Accumulator, cfg: Config)
    reads acc
  {
    acc.maxFecSets == cfg.maxFecSets && acc.stuckTimeout == cfg.stuckTimeout && acc.salvageDisabled == cfg.muted
  }

  /** A packet received through the listener is stored as recovery would store it, up to where
      its bytes live. */
  lemma ReceiptIsSame(idx: nat, raw: Bytes)
    requires Storable(raw)
    ensures SameAsReceived(Arriving(Handle(idx, raw), ParseKind(raw).shred), raw)
  {
    hide ParseKind;
    PayloadBounds(raw);
  }

  /** A slot was harvested: every set that could be decoded brought its packets, every batch
      whose end was here then was finished, and what the rest decodes to was emitted. */
  ghost predicate Harvested(v0: View, filled: PendingMap, v1: View) {
    && OnlyUnpooledAdded(v0.pending, filled) && AllServed(v0.sets, v0.pending, filled, v0.sets.Keys, v0.start)
    && Settles(filled, v0.log, v0.start, v1.pending, v1.log, v1.start, true) && v1.boundaries == map[]
    && FirstSignatures(Salvaged(v1.pending, v1.start, MAX_U32 + 1)) <= v1.sigs
  }

  /** No two slots share an object. */
  ghost predicate Distinct(slots: map<nat, Accumulator>) {
    forall s, t :: s in slots && t in slots && s != t ==> Apart(slots[s], slots[t])
  }

  ghost predicate Apart(a: Accumulator, b: Accumulator) {
    a != b && a.decoder != b.decoder
  }

  /** Each live slot has a healthy accumulator of its own, made of objects in `repr`. */
  ghost predicate AllHealthy(slots: map<nat, Accumulator>, held: map<nat, set<nat>>, story: map<nat, Story>,
                             cfg: Config,
                             repr: set<object>)
    reads repr
  {
    && held.Keys == slots.Keys && story.Keys == slots.Keys && Distinct(slots)
    && forall s :: s in slots ==>
         && slots[s] in repr && slots[s].decoder in repr
         && Healthy(slots[s], held[s], story[s]) && Configured(slots[s], cfg)
  }

  /** Without slot `s`, the others need none of its objects. */
  lemma Others(slots: map<nat, Accumulator>, held: map<nat, set<nat>>, story: map<nat, Story>, cfg: Config,
               repr: set<object>,
               s: nat)
    requires AllHealthy(slots, held, story, cfg, repr) && s in slots
    ensures AllHealthy(slots - {s}, held - {s}, story - {s}, cfg, repr - {slots[s], slots[s].decoder})
    ensures s in held && s in story && Healthy(slots[s], held[s], story[s]) && Configured(slots[s], cfg)
    ensures slots[s] in repr && slots[s].decoder in repr
    ensures forall t :: t in slots && t != s ==> Apart(slots[t], slots[s])
  {
    hide Healthy;
  }

  ghost function ViewsOf(slots: map<nat, Accumulator>): map<nat, View>
    reads set s | s in slots :: slots[s], set s | s in slots :: slots[s].decoder
  {
    map s | s in slots :: slots[s].Now()
  }

  lemma ViewsLess(slots: map<nat, Accumulator>, s: nat)
    ensures ViewsOf(slots - {s}) == ViewsOf(slots) - {s} && ViewsOf(slots).Keys == slots.Keys
  {
    hide Accumulator.Now;
  }

  lemma ViewsMore(slots: map<nat, Accumulator>, s: nat, acc: Accumulator)
    ensures ViewsOf(slots[s := acc]) == ViewsOf(slots)[s := acc.Now()]
  {
    hide Accumulator.Now;
  }

  class Listener {
    const pool: BufferPool
    const cache: ReedSolomonCache
    const tables: Galois.Tables
    const maxAge: nat
    const enableFec: bool
    const salvageDisabled: bool
    const maxFecSets: int
    const stuckTimeout: int

    var slots: map<nat, Accumulator>
    var recentlySeen: set<nat>
    var pendingBatches: seq<SlotBatch>
    var lastSlot: nat
    var counters: Counters
    var totals: Stats

    /** Buffers held by receivers between acquiring and committing them. */
    var inFlight: set<nat>

    /** The accumulators of the live slots and their decoders. */
    ghost var repr: set<object>

    /** What each live slot holds, the slots ever evicted, the accumulators ever created, the
        packets ever looked at and the finished batches of evicted accumulators. */
    ghost var held: map<nat, set<nat>>
    ghost var evicted: set<nat>
    ghost var created: nat
    ghost var packets: nat
    ghost var archive: seq<Epoch>

    /** What each live slot has done, what evicted ones emitted, what was delivered, and how
        often a batch was finished. */
    ghost var story: map<nat, Story>
    ghost var retired: map<nat, seq<Transaction>>
    ghost var delivered: seq<SlotBatch>
    ghost var completions: nat

    /** Every buffer is free, with a receiver or with one pending shred. */
    ghost predicate BuffersOk()
      reads this`inFlight, this`held, pool
    {
      pool.Valid() && Partition(pool.capacity, pool.Free(), inFlight, held)
    }

    /** Packets that were looked at: each is counted in exactly one way. */
    ghost function Counted(): nat
      reads this`counters
    {
      counters.dataShreds + counters.codeShreds + counters.tooShort + counters.unknownVariant
      + counters.payloadInvalid + counters.slotRange + counters.droppedKnown
    }

    /** Slots that came to an end. */
    ghost function Ended(): nat
      reads this`counters
    {
      counters.slotsCompleted + counters.slotsEvicted
    }

    /** Batches that the counters of evicted accumulators account for. */
    ghost function RolledUp(): nat
      reads this`totals
    {
      totals.batchesDecodedStreaming + totals.batchesDecodedFallback + totals.batchesSkipped
    }

    /** Counters agree with what happened. */
    ghost predicate AccountsOk()
      reads this`counters, this`packets, this`totals, this`archive
    {
      && packets == Counted()
      && RolledUp() == |archive| && LogOk(archive)
      && totals.batchesForceFinalizedCorrupted == 0
    }

    /** The objects in use are in order and every buffer has one place. */
    ghost predicate Holds()
      reads this`slots, this`held, this`story, this`repr, this`inFlight, pool, cache, repr
    {
      && tables.Valid() && cache.Valid()
      && AllHealthy(slots, held, story, Cfg(), repr) && BuffersOk()
    }

    /** The books are right if `live` are the live slots and `story` is what they have done. */
    ghost predicate Booked(live: set<nat>, story: map<nat, Story>)
      reads this`counters, this`packets, this`totals, this`archive, this`created, this`recentlySeen, this`evicted,
            this`lastSlot,
            this`delivered, this`pendingBatches, this`retired, this`completions
    {
      && AccountsOk() && created == |live| + Ended()
      && Aging(live, recentlySeen, evicted, lastSlot, maxAge)
      && OwesOk(story, RolledUp())
    }

    /** Deliveries match what was emitted, and finished batches match the `rolledUp` ones of
        evicted accumulators and those of live ones. */
    ghost predicate OwesOk(story: map<nat, Story>, rolledUp: nat)
      reads this`delivered, this`pendingBatches, this`retired, this`completions
    {
      && (!salvageDisabled ==> Routed(delivered, pendingBatches, retired, story))
      && completions == rolledUp + Total(BatchCounts(story))
    }

    /** All of Valid except that the blacklist may hold slots that are too old. */
    ghost predicate Sound()
      reads this, pool, cache, repr
    {
      && this !in repr && pool !in repr && cache !in repr
      && Holds() && Booked(slots.Keys, story)
    }

    ghost predicate Valid()
      reads this, pool, cache, repr
    {
      Sound() && Pruned(recentlySeen, lastSlot, maxAge)
    }

    ghost function Cfg(): Config {
      Config(maxFecSets, stuckTimeout, salvageDisabled)
    }

    ghost function Opts(): Settings {
      Settings(maxAge, enableFec, Cfg())
    }

    /** The states of the live slots. */
    ghost function Views(): map<nat, View>
      reads this`slots, set s | s in slots :: slots[s], set s | s in slots :: slots[s].decoder
    {
      ViewsOf(slots)
    }

    /** All that packets and receivers depend on. */
    ghost function Snapshot(): Scene
      reads this, pool, set s | s in slots :: slots[s], set s | s in slots :: slots[s].decoder
    {
      Scene(Views(), evicted, recentlySeen, lastSlot, pendingBatches, Intake(counters), inFlight, pool.freelist != [])
    }

    /** newListener. */
    constructor (capacity: nat, maxAge: nat, enableFec: bool, salvageDisabled: bool, maxFecSets: int, stuckTimeout: int)
      requires 0 < capacity <= MAX_POOL_CAPACITY && maxAge <= MAX_U64
      ensures Valid() && slots == map[] && recentlySeen == {} && lastSlot == 0 && inFlight == {} && evicted == {}
      ensures delivered == [] && pool.capacity == capacity && this.maxAge == maxAge && this.enableFec == enableFec
      ensures Cfg() == Config(maxFecSets, stuckTimeout, salvageDisabled)
      ensures fresh(pool) && fresh(cache) && fresh(repr)
    {
      hide Galois.Tables.Valid, ReedSolomonCache.Valid, LogOk, Aging, Partition, Elements, Routed, Total, BatchCounts,
        NoDuplicates, AllHealthy;
      pool := new BufferPool(capacity);
      cache := new ReedSolomonCache();
      var t := Galois.InitTables();
      tables := t;
      this.maxAge, this.enableFec, this.salvageDisabled := maxAge, enableFec, salvageDisabled;
      this.maxFecSets, this.stuckTimeout := maxFecSets, stuckTimeout;
      slots, recentlySeen, pendingBatches, lastSlot := map[], {}, [], 0;
      counters, totals, inFlight := NO_COUNTS, NO_STATS, {};
      held, evicted, created, packets, archive, repr := map[], {}, 0, 0, [], {};
      story, retired, delivered, completions := map[], map[], [], 0;
      new;
      NewBooks(pool.capacity, pool.Free(), maxAge, Cfg());
    }

    // -------------------------------------------------------------------------
    // Eviction

    /** Count the end of a slot. */
    method CountEnd(complete: bool, harvested: bool)
      requires AccountsOk()
      modifies this`counters
      ensures AccountsOk() && Ended() == old(Ended()) + 1
      ensures counters.slotsCompleted == old(counters.slotsCompleted) + (if complete then 1 else 0)
      ensures counters.harvestedBatches == old(counters.harvestedBatches) + (if harvested then 1 else 0)
      ensures Intake(counters) == old(Intake(counters))
    {
      hide LogOk;
      var more := if harvested then 1 else 0;
      if complete {
        counters := counters.(slotsCompleted := counters.slotsCompleted + 1,
                              harvestedBatches := counters.harvestedBatches + more);
      } else {
        counters := counters.(slotsEvicted := counters.slotsEvicted + 1,
                              harvestedBatches := counters.harvestedBatches + more);
      }
    }

    /** Take over the counters and the finished batches of an accumulator. */
    method Archive(acc: Accumulator)
      requires AccountsOk() && acc.stats.batchesForceFinalizedCorrupted == 0
      requires acc.Finished() == |acc.log| && LogOk(acc.log)
      modifies this`totals, this`archive
      ensures AccountsOk() && archive == old(archive) + acc.log && RolledUp() == old(RolledUp()) + |acc.log|
      ensures forall i :: 0 <= i < 11 ==> Fields(totals)[i] == old(Fields(totals))[i] + Fields(acc.stats)[i]
    {
      hide LogOk;
      totals := Rollup(totals, acc.stats);
      LogsJoin(archive, acc.log);
      archive := archive + acc.log;
    }

    /** The shared part of evictOldSlots and forceEvictOldestSlot: harvest what is left of
        slot `s`, account for it, free its buffers and blacklist it. */
    method Retire(s: nat, now: int) returns (ghost tail: seq<Transaction>, ghost filled: PendingMap, ghost last: View)
      requires Sound() && s in slots
      modifies this, pool, cache, repr
      ensures Sound() && slots == old(slots) - {s} && Views() == old(Views()) - {s}
      ensures recentlySeen == old(recentlySeen) + {s} && evicted == old(evicted) + {s}
      ensures repr <= old(repr) && lastSlot == old(lastSlot) && inFlight == old(inFlight)
      ensures packets == old(packets) && created == old(created) && delivered == old(delivered)
      ensures counters.slotsCompleted == old(counters.slotsCompleted) + (if last.complete then 1 else 0)
      ensures s in old(story) && counters.harvestedBatches == old(counters.harvestedBatches)
                + (if |EmittedIn(last)| > |old(story)[s].emitted| then 1 else 0)
      ensures Intake(counters) == old(Intake(counters))
      ensures archive == old(archive) + last.log && old(pool.Free()) <= pool.Free()
      ensures story == old(story) - {s}
      ensures Harvested(old(slots[s].Now()), filled, last)
      ensures !salvageDisabled ==> EmittedIn(last) == old(story)[s].emitted + tail
      ensures pendingBatches == old(pendingBatches) + BatchOf(s, tail) && s in old(story)
      ensures retired == Deliveries.Retire(old(retired), s, old(story)[s].emitted + tail)
    {
      hide Accumulator.Now, Listener.Holds, Listener.Booked, BufferPool.Free, Accumulator.Finished, LogOk, EmittedIn,
        BatchOf, Harvested, Deliveries.Retire, Listener.Views, Intake;
      var acc, rest, harvested;
      acc, rest, harvested, filled, last := Detach(s, now);
      assert slots.Keys == old(slots).Keys - {s};
      Close(s, acc, rest, harvested, old(slots).Keys, old(story));
      tail := rest;
    }

    /** Retire a slot, as far as the other slots are concerned. */
    method Evict(s: nat, now: int)
      requires Sound() && s in slots
      modifies this, pool, cache, repr
      ensures Sound() && slots == old(slots) - {s} && Views() == old(Views()) - {s}
      ensures recentlySeen == old(recentlySeen) + {s} && evicted == old(evicted) + {s}
      ensures repr <= old(repr) && lastSlot == old(lastSlot) && inFlight == old(inFlight)
      ensures packets == old(packets) && created == old(created) && delivered == old(delivered)
      ensures Intake(counters) == old(Intake(counters))
      ensures old(pendingBatches) <= pendingBatches && old(archive) <= archive && old(pool.Free()) <= pool.Free()
    {
      hide Listener.Holds, Listener.Booked, BufferPool.Free, EmittedIn, BatchOf, Harvested, Deliveries.Retire,
        Accumulator.Now, Listener.Views, Intake;
      ghost var tail, filled, last := Retire(s, now);
    }

    /** Account for the accumulator of slot `s`, queue its tail and blacklist the slot. */
    method Close(s: nat, acc: Accumulator, tail: seq<Transaction>, harvested: bool, ghost live: set<nat>,
                 ghost told: map<nat, Story>)
      requires Booked(live, told) && s in live && s in told && acc.stats.batchesForceFinalizedCorrupted == 0
      requires acc.Finished() == |acc.log| && LogOk(acc.log) && told[s].batches <= |acc.log|
      modifies this`pendingBatches, this`counters, this`totals, this`archive, this`recentlySeen, this`evicted,
               this`retired,
               this`completions
      ensures Booked(live - {s}, told - {s}) && archive == old(archive) + acc.log
      ensures counters.slotsCompleted == old(counters.slotsCompleted) + (if acc.slotComplete then 1 else 0)
      ensures counters.harvestedBatches == old(counters.harvestedBatches) + (if harvested then 1 else 0)
      ensures Intake(counters) == old(Intake(counters))
      ensures recentlySeen == old(recentlySeen) + {s} && evicted == old(evicted) + {s}
      ensures pendingBatches == old(pendingBatches) + BatchOf(s, tail)
      ensures retired == Deliveries.Retire(old(retired), s, told[s].emitted + tail)
    {
      hide Aging, LogOk, Listener.AccountsOk, Listener.RolledUp, Listener.OwesOk, Listener.Ended, Deliveries.Retire,
        BatchOf;
      QueueTail(s, tail, told, |acc.log|, RolledUp());
      CountEnd(acc.slotComplete, harvested);
      Archive(acc);
      EvictionAges(live, recentlySeen, evicted, lastSlot, maxAge, s);
      recentlySeen := recentlySeen + {s};
      evicted := evicted + {s};
    }

    /** Queue the tail of slot `s`, which has ended after finishing `batches` batches. */
    method QueueTail(s: nat, tail: seq<Transaction>, ghost told: map<nat, Story>, ghost batches: nat,
                     ghost rolledUp: nat)
      requires OwesOk(told, rolledUp) && s in told && told[s].batches <= batches
      modifies this`pendingBatches, this`retired, this`completions
      ensures OwesOk(told - {s}, rolledUp + batches)
      ensures pendingBatches == old(pendingBatches) + BatchOf(s, tail)
      ensures retired == Deliveries.Retire(old(retired), s, told[s].emitted + tail)
    {
      hide Routed, Total, BatchCounts, Deliveries.Retire;
      if !salvageDisabled {
        RouteTail(delivered, pendingBatches, retired, told, s, tail);
      }
      TotalAfter(told, s, told[s]);
      if |tail| > 0 {
        pendingBatches := pendingBatches + [SlotBatch(s, tail)];
      }
      assert pendingBatches == old(pendingBatches) + BatchOf(s, tail);
      retired := Deliveries.Retire(retired, s, told[s].emitted + tail);
      completions := completions + batches - told[s].batches;
    }

    /** Wind up the accumulator of slot `s`; the others are not touched. */
    method Detach(s: nat, now: int)
      returns (acc: Accumulator, tail: seq<Transaction>, harvested: bool, ghost filled: PendingMap, ghost last: View)
      requires Holds() && s in slots && this !in repr && pool !in repr && cache !in repr
      modifies this`slots, this`held, this`story, this`repr, pool, cache, repr
      ensures Holds() && acc == old(slots[s]) && slots == old(slots) - {s} && story == old(story) - {s}
      ensures repr == old(repr) - {acc, acc.decoder} && Views() == old(Views()) - {s}
      ensures acc.Finished() == |acc.log| && LogOk(acc.log) && acc.stats.batchesForceFinalizedCorrupted == 0
      ensures s in old(held) && pool.Free() == old(pool.Free()) + old(held[s])
      ensures s in old(story) && old(story)[s].batches <= |acc.log|
      ensures acc.log == last.log && acc.slotComplete == last.complete && Harvested(old(slots[s].Now()), filled, last)
      ensures harvested <==> |EmittedIn(last)| > |old(story)[s].emitted|
      ensures !salvageDisabled ==> EmittedIn(last) == old(story)[s].emitted + tail
    {
      hide Accumulator.Now, Galois.Tables.Valid, ReedSolomonCache.Valid, Healthy, Partition, LogOk, Elements,
        NoDuplicates, AllHealthy, EmittedIn, Accumulator.Finished, Harvested, ViewsOf;
      Others(slots, held, story, Cfg(), repr, s);
      ghost var mine, told, free := held[s], story[s], pool.Free();
      HeldApart(pool.capacity, free, inFlight, held, s);
      acc := slots[s];
      tail, harvested, filled, last := Wind(acc, mine, told, now, tables, pool, cache);
      OthersKept(s);
      ViewsLess(slots, s);
      GiveBackAll(pool.capacity, free, inFlight, held, s);
      slots := slots - {s};
      held := held - {s};
      story := story - {s};
      repr := repr - {acc, acc.decoder};
    }

    twostate lemma OthersKept(s: nat)
      requires s in slots && slots == old(slots)
      requires forall t :: t in slots && t != s ==> unchanged(slots[t]) && unchanged(slots[t].decoder)
      ensures Views() - {s} == old(Views()) - {s}
    {
      hide Accumulator.Now;
      forall t | t in slots && t != s ensures slots[t].Now() == old(slots[t].Now()) {}
    }

    /** evictOldSlots: afterwards no live slot is overdue, and the blacklist is exactly the
        evicted slots inside its window. */
    method EvictOldSlots(now: int)
      requires Sound()
      modifies this, pool, cache, repr
      ensures Valid() && Views() == Current(old(Views()), lastSlot, maxAge)
      ensures slots.Keys <= old(slots).Keys && evicted == Gone(old(evicted), old(slots).Keys, slots.Keys)
      ensures forall s :: s in old(Views()) ==>
                (s in slots <==> lastSlot <= s + if old(Views())[s].complete then 1 else maxAge)
      ensures Intake(counters) == old(Intake(counters))
      ensures repr <= old(repr) && lastSlot == old(lastSlot) && inFlight == old(inFlight)
      ensures packets == old(packets) && created == old(created) && delivered == old(delivered)
      ensures old(pendingBatches) <= pendingBatches && old(archive) <= archive
      ensures old(pool.Free()) <= pool.Free()
    {
      hide Listener.Sound, Listener.Valid, Overdue, BufferPool.Free, Listener.Views, Intake, Accumulator.Now, Current;
      LastIsPlausible();
      CurrentIs(Views(), lastSlot, maxAge);
      SameSlots();
      var todo := OverdueSlots();
      ghost var views := Views();
      while todo != {}
        invariant Sound() && todo <= slots.Keys <= views.Keys && Views().Keys == slots.Keys
        invariant Views() - todo == Current(views, lastSlot, maxAge) && todo !! Current(views, lastSlot, maxAge).Keys
        invariant evicted == Gone(old(evicted), views.Keys, slots.Keys)
        invariant Intake(counters) == old(Intake(counters))
        invariant repr <= old(repr) && lastSlot == old(lastSlot) && inFlight == old(inFlight)
        invariant packets == old(packets) && created == old(created) && delivered == old(delivered)
        invariant old(pendingBatches) <= pendingBatches && old(archive) <= archive
        invariant old(pool.Free()) <= pool.Free()
        decreases todo
      {
        var s :| s in todo;
        WithoutBoth(Views(), todo, s);
        LessKept(old(evicted), views.Keys, slots.Keys, s);
        Evict(s, now);
        todo := todo - {s};
      }
      assert Views() - {} == Views();
      Prune();
    }

    lemma SameSlots()
      ensures Views().Keys == slots.Keys
    {
      hide Accumulator.Now;
    }

    lemma LastIsPlausible()
      requires Sound()
      ensures lastSlot <= MAX_PLAUSIBLE_SLOT
    {
      hide Listener.Holds, Listener.AccountsOk, Listener.OwesOk, Listener.Ended;
    }

    /** The slots whose age has run out. */
    method OverdueSlots() returns (todo: set<nat>)
      ensures todo <= slots.Keys && todo !! Current(Views(), lastSlot, maxAge).Keys
      ensures Views() - todo == Current(Views(), lastSlot, maxAge)
    {
      hide Overdue;
      todo := set s | s in slots && Overdue(s, slots[s].slotComplete, lastSlot, maxAge);
    }

    /** Drop the blacklist entries below the floor. */
    method Prune()
      requires Sound()
      modifies this`recentlySeen
      ensures Valid()
    {
      hide Listener.Holds, Listener.AccountsOk;
      var floor := SaturatingSub(lastSlot, SaturatingAdd(maxAge, BLACKLIST_EXTRA));
      recentlySeen := set s | s in recentlySeen && s >= floor;
    }

    /** forceEvictOldestSlot. */
    method ForceEvictOldest(now: int)
      requires Valid() && Views() == Current(Views(), lastSlot, maxAge)
      modifies this, pool, cache, repr
      ensures Valid()
      ensures old(slots) == map[] ==> slots == map[] && evicted == old(evicted)
      ensures old(slots) != map[] ==>
                exists s :: && s in old(slots) && slots == old(slots) - {s} && evicted == old(evicted) + {s}
                            && forall t :: t in old(slots) ==> s <= t
      ensures LeastLeft(old(Views()), Views()) && Intake(counters) == old(Intake(counters))
      ensures repr <= old(repr) && lastSlot == old(lastSlot) && inFlight == old(inFlight)
      ensures packets == old(packets) && created == old(created) && delivered == old(delivered)
      ensures old(pendingBatches) <= pendingBatches && old(archive) <= archive
      ensures old(pool.Free()) <= pool.Free()
    {
      hide Listener.Holds, Listener.AccountsOk, Overdue, BufferPool.Free, Intake, Current, Listener.Views, LeastLeft;
      var oldest := SmallestKey(slots.Keys);
      SameSlots();
      if oldest.Chosen? {
        CurrentInWindow(Views(), lastSlot, maxAge, oldest.index);
        LeastIsOut(Views(), oldest.index);
        Evict(oldest.index, now);
      } else {
        NoneOut(Views());
      }
    }

    // -------------------------------------------------------------------------
    // Buffers

    /** A free buffer, if there is one, goes to the receiver. */
    method TakeBuffer() returns (r: Lease)
      requires Sound()
      modifies this`inFlight, pool
      ensures Sound()
      ensures r.Exhausted? <==> old(pool.freelist) == []
      ensures r.Exhausted? ==> inFlight == old(inFlight) && pool.freelist == []
      ensures r.Leased? ==> inFlight == old(inFlight) + {r.idx} && r.idx !in old(inFlight)
    {
      hide Galois.Tables.Valid, ReedSolomonCache.Valid, AllHealthy, Partition, Elements, NoDuplicates, Listener.Booked;
      ghost var free := pool.Free();
      r := pool.Acquire();
      if r.Leased? {
        FreeNotInFlight(pool.capacity, free, inFlight, held);
        Hand(pool.capacity, free, inFlight, held, pool.Free(), inFlight + {r.idx});
        inFlight := inFlight + {r.idx};
      }
    }

    /** The receiver gives its buffer back. */
    method ReturnBuffer(idx: nat)
      requires Sound() && idx in inFlight
      modifies this`inFlight, pool
      ensures Sound() && inFlight == old(inFlight) - {idx}
    {
      hide Galois.Tables.Valid, ReedSolomonCache.Valid, AllHealthy, Partition, Elements, NoDuplicates, Listener.Booked,
        Pruned;
      ghost var free := pool.Free();
      FreeNotInFlight(pool.capacity, free, inFlight, held);
      pool.Release(idx);
      Hand(pool.capacity, free, inFlight, held, pool.Free(), inFlight - {idx});
      inFlight := inFlight - {idx};
    }

    /** Receivers whose reads fail give their buffers back, in any order. */
    method ReturnBuffers(ids: set<nat>)
      requires Sound()
      modifies this`inFlight, pool
      ensures Sound() && inFlight == old(inFlight) - ids
    {
      hide Listener.Holds, Listener.Booked;
      var todo := ids * inFlight;
      while todo != {}
        invariant Sound() && todo <= inFlight && inFlight - todo == old(inFlight) - ids
        decreases todo
      {
        var idx :| idx in todo;
        todo := todo - {idx};
        ReturnBuffer(idx);
      }
    }

    method CountExhausted()
      requires Valid()
      modifies this`counters
      ensures Valid() && Intake(counters) == old(Intake(counters))
    {
      hide Listener.Holds, Aging, LogOk, Pruned;
      counters := counters.(poolExhausted := counters.poolExhausted + 1);
    }

    /** acquireBufferWithFallback: evict if there is no free buffer. Failing receivers may give
        theirs back, `given`, between the attempts. */
    method AcquireWithFallback(now: int, early: set<nat>, late: set<nat>) returns (r: Lease, ghost given: set<nat>)
      requires Valid()
      modifies this, pool, cache, repr
      ensures Valid() && given <= early + late
      ensures r.Exhausted? ==> inFlight == old(inFlight) - given && pool.freelist == []
      ensures r.Leased? ==> inFlight == old(inFlight) - given + {r.idx} && r.idx !in old(inFlight) - given
      ensures old(pool.freelist) != [] ==>
                && r.Leased? && slots == old(slots) && given == {} && Views() == old(Views())
                && pendingBatches == old(pendingBatches) && recentlySeen == old(recentlySeen)
      ensures Views() == Only(old(Views()), slots.Keys) && OldestLeft(old(Views()), Views(), lastSlot, maxAge)
      ensures Views().Keys == slots.Keys
      ensures repr <= old(repr) && lastSlot == old(lastSlot) && Intake(counters) == old(Intake(counters))
      ensures packets == old(packets) && created == old(created) && delivered == old(delivered)
      ensures slots.Keys <= old(slots).Keys && evicted == Gone(old(evicted), old(slots).Keys, slots.Keys)
      ensures old(pendingBatches) <= pendingBatches && old(archive) <= archive
    {
      hide Listener.Holds, Listener.Booked, Pruned, BufferPool.Free, Listener.Views, Intake, Current, Only, OldestLeft,
        LeastLeft;
      ghost var views := Views();
      SameSlots();
      given := {};
      NoneThinned(views, lastSlot, maxAge);
      r := TakeBuffer();
      if r.Leased? {
        return;
      }
      OverdueLeft(views, lastSlot, maxAge);
      CurrentAgain(views, lastSlot, maxAge);
      r := SecondTry(now, early);
      given := early;
      SameSlots();
      if r.Leased? {
        return;
      }
      r := ThirdTry(now, late);
      LeastLeftThen(views, Views(), lastSlot, maxAge);
      SameSlots();
      given := early + late;
      if r.Exhausted? {
        CountExhausted();
      }
    }

    /** Evict what is overdue, then try again. */
    method SecondTry(now: int, early: set<nat>) returns (r: Lease)
      requires Valid()
      modifies this, pool, cache, repr
      ensures Valid() && Views() == Current(old(Views()), lastSlot, maxAge)
      ensures r.Exhausted? ==> inFlight == old(inFlight) - early && pool.freelist == []
      ensures r.Leased? ==> inFlight == old(inFlight) - early + {r.idx} && r.idx !in old(inFlight) - early
      ensures repr <= old(repr) && lastSlot == old(lastSlot) && Intake(counters) == old(Intake(counters))
      ensures packets == old(packets) && created == old(created) && delivered == old(delivered)
      ensures slots.Keys <= old(slots).Keys && evicted == Gone(old(evicted), old(slots).Keys, slots.Keys)
      ensures old(pendingBatches) <= pendingBatches && old(archive) <= archive
    {
      hide Listener.Holds, Listener.Booked, Pruned, BufferPool.Free, Listener.Views, Intake, Current;
      EvictOldSlots(now);
      ReturnBuffers(early);
      r := TakeBuffer();
    }

    /** Evict the oldest slot, then try a last time. */
    method ThirdTry(now: int, late: set<nat>) returns (r: Lease)
      requires Valid() && Views() == Current(Views(), lastSlot, maxAge)
      modifies this, pool, cache, repr
      ensures Valid() && LeastLeft(old(Views()), Views())
      ensures r.Exhausted? ==> inFlight == old(inFlight) - late && pool.freelist == []
      ensures r.Leased? ==> inFlight == old(inFlight) - late + {r.idx} && r.idx !in old(inFlight) - late
      ensures repr <= old(repr) && lastSlot == old(lastSlot) && Intake(counters) == old(Intake(counters))
      ensures packets == old(packets) && created == old(created) && delivered == old(delivered)
      ensures slots.Keys <= old(slots).Keys && evicted == Gone(old(evicted), old(slots).Keys, slots.Keys)
      ensures old(pendingBatches) <= pendingBatches && old(archive) <= archive
    {
      hide Listener.Holds, Listener.Booked, Pruned, BufferPool.Free, Listener.Views, Intake, Current, LeastLeft;
      ForceEvictOldest(now);
      ReturnBuffers(late);
      r := TakeBuffer();
    }

    /** The state of the accumulator of a slot. */
    ghost function ViewOf(slot: nat): View
      reads this`slots, if slot in slots then {slots[slot], slots[slot].decoder} else {}
    {
      if slot in slots then slots[slot].Now() else NEW_VIEW
    }

    /** What the accumulator of a slot has emitted. */
    ghost function EmittedBy(slot: nat): seq<Transaction>
      reads this`slots, if slot in slots then {slots[slot], slots[slot].decoder} else {}
    {
      EmittedIn(ViewOf(slot))
    }

    /** How many sets the accumulator of a slot has recovered. */
    ghost function RecoveriesBy(slot: nat): nat
      reads this`slots, if slot in slots then {slots[slot], slots[slot].decoder} else {}
    {
      ViewOf(slot).recoveries
    }

    // -------------------------------------------------------------------------
    // Admission

    /** acceptSlot. */
    method AcceptSlot(slot: nat) returns (ok: bool)
      requires Valid()
      modifies this`counters, this`packets
      ensures Valid() && ok == Acceptable(slot, slots.Keys, lastSlot)
      ensures ok <==> && slot <= 0x100_0000_0000 && (lastSlot == 0 ==> slot <= 10_000_000_000)
                      && (lastSlot > 0 ==> slot <= lastSlot + 1_000_000) && (slot in slots || |slots| < 64)
      ensures packets == old(packets) + if ok then 0 else 1
      ensures counters == if ok then old(counters) else Count(old(counters), OutOfRange)
    {
      hide Listener.Valid;
      ok := !(slot > MAX_PLAUSIBLE_SLOT || (lastSlot == 0 && slot > MAX_BOOTSTRAP_SLOT)
              || (lastSlot > 0 && slot > lastSlot && slot - lastSlot > MAX_SLOT_JUMP)
              || (slot !in slots && |slots| >= MAX_LIVE_SLOTS));
      if !ok {
        Tally(OutOfRange);
      }
    }

    /** Count one packet; bumpParseError for the unreadable ones. */
    method Tally(fate: Fate)
      requires Valid()
      modifies this`counters, this`packets
      ensures Valid() && packets == old(packets) + 1 && counters == Count(old(counters), fate)
      ensures fate == OutOfRange ==> counters.slotRange == old(counters.slotRange) + 1
      ensures fate == Blacklisted ==> counters.droppedKnown == old(counters.droppedKnown) + 1
      ensures fate == DataTaken ==> counters.dataShreds == old(counters.dataShreds) + 1
      ensures fate == CodeTaken ==> counters.codeShreds == old(counters.codeShreds) + 1
    {
      hide Listener.Holds, Aging, LogOk, Pruned;
      counters := Count(counters, fate);
      packets := packets + 1;
    }

    /** A newer slot than any before: move on and evict. */
    method Raise(slot: nat, now: int)
      requires Valid() && lastSlot < slot <= MAX_PLAUSIBLE_SLOT
      modifies this, pool, cache, repr
      ensures Valid() && lastSlot == slot && inFlight == old(inFlight)
      ensures Views() == Current(old(Views()), slot, maxAge) && Intake(counters) == old(Intake(counters))
      ensures packets == old(packets) && created == old(created) && delivered == old(delivered)
      ensures repr <= old(repr) && slots.Keys <= old(slots).Keys
      ensures evicted == Gone(old(evicted), old(slots).Keys, slots.Keys)
      ensures old(pendingBatches) <= pendingBatches && old(archive) <= archive
    {
      hide Listener.Holds, Listener.AccountsOk, Pruned, BufferPool.Free, Aging, Listener.OwesOk, Listener.RolledUp,
        Listener.Views, Intake, Current;
      RaiseAges(slots.Keys, recentlySeen, evicted, lastSlot, maxAge, slot);
      lastSlot := slot;
      EvictOldSlots(now);
    }

    /** A new accumulator for a slot. */
    method Create(slot: nat)
      requires Valid() && slot !in slots && slot <= lastSlot && slot !in recentlySeen && |slots| < MAX_LIVE_SLOTS
      modifies this`slots, this`held, this`story, this`repr, this`created
      ensures Valid() && created == old(created) + 1
      ensures slots.Keys == old(slots).Keys + {slot} && ViewOf(slot) == NEW_VIEW
      ensures Views() == old(Views())[slot := NEW_VIEW]
      ensures old(repr) <= repr && fresh(repr - old(repr))
    {
      hide Accumulator.Now, Listener.Holds, Listener.Booked, Pruned, Listener.Views;
      SameKeysHere();
      BookNew(slot);
      Attach(slot);
    }

    lemma SameKeysHere()
      requires Holds()
      ensures story.Keys == slots.Keys
    {
      hide Galois.Tables.Valid, ReedSolomonCache.Valid, Partition, Elements, NoDuplicates, AllHealthy;
      SameKeys(slots, held, story, Cfg(), repr);
    }

    /** The books for one more slot. */
    ghost method BookNew(slot: nat)
      requires Booked(slots.Keys, story) && slot !in slots && slot !in story
      requires slot <= lastSlot && slot !in recentlySeen && |slots| < MAX_LIVE_SLOTS
      modifies this`created
      ensures Booked(slots.Keys + {slot}, story[slot := Story([], 0)]) && created == old(created) + 1
    {
      hide Listener.AccountsOk, Listener.RolledUp, Listener.OwesOk, Listener.Ended, Aging;
      AdmissionAges(slots.Keys, recentlySeen, evicted, lastSlot, maxAge, slot);
      OwesForNew(story, RolledUp(), slot);
      created := created + 1;
    }

    lemma OwesForNew(told: map<nat, Story>, rolledUp: nat, slot: nat)
      requires OwesOk(told, rolledUp) && slot !in told
      ensures OwesOk(told[slot := Story([], 0)], rolledUp)
    {
      hide Routed, Total, BatchCounts;
      TotalAfter(told, slot, Story([], 0));
      assert told - {slot} == told;
      if !salvageDisabled {
        RouteNew(delivered, pendingBatches, retired, told, slot);
      }
    }

    /** The objects of a new slot. */
    method Attach(slot: nat)
      requires Holds() && slot !in slots && this !in repr && pool !in repr && cache !in repr
      modifies this`slots, this`held, this`story, this`repr
      ensures Holds() && this !in repr && pool !in repr && cache !in repr
      ensures slots.Keys == old(slots).Keys + {slot} && ViewOf(slot) == NEW_VIEW
      ensures Views() == old(Views())[slot := NEW_VIEW]
      ensures slot !in old(story) && story == old(story)[slot := Story([], 0)]
      ensures old(repr) <= repr && fresh(repr - old(repr))
    {
      hide Accumulator.Now, Listener.Holds, Healthy, ViewsOf;
      ghost var views := Views();
      var acc := NewHealthy(maxFecSets, stuckTimeout, salvageDisabled);
      assert Views() == views;
      ViewsMore(slots, slot, acc);
      Join(slot, acc);
    }

    method Join(slot: nat, acc: Accumulator)
      requires Holds() && slot !in slots && Healthy(acc, {}, Story([], 0)) && Configured(acc, Cfg())
      requires this !in repr && acc !in repr && acc.decoder !in repr
      modifies this`slots, this`held, this`story, this`repr
      ensures Holds() && slots == old(slots)[slot := acc] && repr == old(repr) + {acc, acc.decoder}
      ensures slot !in old(story) && story == old(story)[slot := Story([], 0)]
    {
      hide Galois.Tables.Valid, ReedSolomonCache.Valid, Partition, Elements, NoDuplicates, AllHealthy, Healthy;
      SameKeys(slots, held, story, Cfg(), repr);
      NothingHeld(pool.capacity, pool.Free(), inFlight, held, slot);
      JoinSlot(slots, held, story, Cfg(), repr, slot, acc, {}, Story([], 0));
      slots := slots[slot := acc];
      held := held[slot := {}];
      story := story[slot := Story([], 0)];
      repr := repr + {acc, acc.decoder};
    }

    /** The accumulator of an acceptable slot that is not blacklisted: `slot` becomes the
        newest slot if it is newer, and gets an accumulator if it has none. */
    method Admit(slot: nat, now: int)
      requires Valid() && Acceptable(slot, slots.Keys, lastSlot) && slot !in recentlySeen
      modifies this, pool, cache, repr
      ensures Valid() && slot in slots && slots.Keys <= old(slots).Keys + {slot}
      ensures lastSlot == (if slot > old(lastSlot) then slot else old(lastSlot))
      ensures ViewOf(slot) == old(ViewOf(slot))
      ensures Views() == Admitted(old(Views()), slot, old(lastSlot), maxAge)
      ensures Intake(counters) == old(Intake(counters))
      ensures inFlight == old(inFlight) && packets == old(packets) && delivered == old(delivered)
      ensures old(archive) <= archive && old(pendingBatches) <= pendingBatches
      ensures evicted == Gone(old(evicted), old(slots).Keys, slots.Keys)
      ensures fresh(repr - old(repr))
    {
      hide Listener.Valid, Listener.Views, Kept, Intake, Listener.ViewOf, Acceptable;
      SeeView(slot);
      Advance(slot, now);
      SeeView(slot);
      AlreadyAdmitted(Views(), slot);
      SameGone(old(evicted), old(slots).Keys, slots.Keys, slot);
      hide Gone;
      if slot !in slots {
        Create(slot);
      }
    }

    /** A newer slot than any before becomes the newest. */
    method Advance(slot: nat, now: int)
      requires Valid() && Acceptable(slot, slots.Keys, lastSlot) && slot !in recentlySeen
      modifies this, pool, cache, repr
      ensures Valid() && slot <= lastSlot && slot !in recentlySeen
      ensures lastSlot == (if slot > old(lastSlot) then slot else old(lastSlot))
      ensures slot in slots || |slots| < MAX_LIVE_SLOTS
      ensures slots.Keys <= old(slots).Keys && (slot in old(slots) ==> slot in slots)
      ensures Views() == Kept(old(Views()), slot, old(lastSlot), maxAge)
      ensures slot in slots ==> slot in old(slots) && ViewOf(slot) == old(ViewOf(slot))
      ensures Intake(counters) == old(Intake(counters))
      ensures inFlight == old(inFlight) && packets == old(packets) && delivered == old(delivered)
      ensures old(archive) <= archive && old(pendingBatches) <= pendingBatches
      ensures evicted == Gone(old(evicted), old(slots).Keys, slots.Keys)
      ensures fresh(repr - old(repr))
    {
      hide Accumulator.Now, Listener.Holds, Listener.AccountsOk, EmittedIn, Listener.OwesOk, Listener.RolledUp,
        Listener.Ended, Listener.Views, Current, Intake, Pruned, Listener.ViewOf;
      if slot > lastSlot {
        ghost var before := slots.Keys;
        Raise(slot, now);
        SubsetSize(slots.Keys, before);
      } else {
        assert evicted == Gone(old(evicted), old(slots).Keys, slots.Keys);
      }
    }

    lemma SeeView(slot: nat)
      ensures ViewOf(slot) == ViewIn(Views(), slot) && Views().Keys == slots.Keys
    {
      hide Accumulator.Now;
    }

    // -------------------------------------------------------------------------
    // Packets

    /** Note what slot `slot` has done since its story was `told`: `out` goes to the caller. */
    ghost method Note(slot: nat, out: seq<Transaction>, batches: nat, told: map<nat, Story>)
      requires Booked(slots.Keys, told) && slot in told && told[slot].batches <= batches
      modifies this`delivered, this`completions
      ensures Booked(slots.Keys, told[slot := Story(told[slot].emitted + out, batches)])
      ensures delivered == old(delivered) + BatchOf(slot, out)
    {
      hide Aging, Listener.AccountsOk, Listener.RolledUp, Listener.Ended, Routed, Total, BatchCounts, BatchOf;
      if !salvageDisabled {
        RouteDirect(delivered, pendingBatches, retired, told, slot, out, batches);
      }
      TotalAfter(told, slot, Story(told[slot].emitted + out, batches));
      completions := completions + batches - told[slot].batches;
      delivered := delivered + BatchOf(slot, out);
    }

    /** Hand a data shred and its buffer to the accumulator of its slot. */
    method HandData(slot: nat, handle: Handle, d: Shred, now: int) returns (out: seq<Transaction>, ghost batches: nat)
      requires Holds() && this !in repr && pool !in repr && cache !in repr && slot in slots && handle.idx in inFlight
      requires d.DataShred? && d.index < MAX_U32 && DATA_HEADER_SIZE + |d.payload| <= |handle.bytes| <= BUFFER_SIZE
      modifies this`held, this`story, this`inFlight, pool, cache, repr
      ensures Holds() && inFlight == old(inFlight) - {handle.idx}
      ensures slot in old(story) && old(story)[slot].batches <= batches
      ensures story == old(story)[slot := Story(old(story)[slot].emitted + out, batches)]
      ensures EmittedBy(slot) == old(EmittedBy(slot)) + out && Taken(ViewOf(slot), d)
      ensures DataEntered(old(ViewOf(slot)), ViewOf(slot), handle, d, now, stuckTimeout)
      ensures Views() == old(Views())[slot := ViewOf(slot)]
    {
      hide Accumulator.Now, Galois.Tables.Valid, ReedSolomonCache.Valid, Partition, Elements, NoDuplicates, AllHealthy,
        Healthy, EmittedIn, Taken, DataEntered, Listener.Views;
      Others(slots, held, story, Cfg(), repr, slot);
      var acc := slots[slot];
      ghost var mine, told, free := held[slot], story[slot], pool.Free();
      HeldApart(pool.capacity, free, inFlight, held, slot);
      FreeNotInFlight(pool.capacity, free, inFlight, held);
      ghost var mine';
      out, mine' := FeedDataTo(acc, mine, told, handle, d, now, tables, pool, cache);
      OthersKept(slot);
      SeeView(slot);
      OneChanged(old(Views()), Views(), slot);
      PushMoves(pool.capacity, free, inFlight, held, slot, handle.idx, pool.Free(), mine');
      batches := |acc.log|;
      Rejoin(slot, mine', Story(told.emitted + out, batches));
      held := held[slot := mine'];
      story := story[slot := Story(told.emitted + out, batches)];
      inFlight := inFlight - {handle.idx};
    }

    /** The accumulator of slot `slot`, healthy again, goes on beside the others. */
    lemma Rejoin(slot: nat, mine: set<nat>, told: Story)
      requires slot in slots && slots[slot] in repr && slots[slot].decoder in repr
      requires AllHealthy(slots - {slot}, held - {slot}, story - {slot}, Cfg(),
                          repr - {slots[slot], slots[slot].decoder})
      requires Healthy(slots[slot], mine, told) && Configured(slots[slot], Cfg())
      ensures AllHealthy(slots, held[slot := mine], story[slot := told], Cfg(), repr)
    {
      hide AllHealthy, Healthy;
      var acc := slots[slot];
      JoinSlot(slots - {slot}, held - {slot}, story - {slot}, Cfg(), repr - {acc, acc.decoder}, slot, acc, mine, told);
      assert (slots - {slot})[slot := acc] == slots && (held - {slot})[slot := mine] == held[slot := mine];
      assert (story - {slot})[slot := told] == story[slot := told];
      assert repr - {acc, acc.decoder} + {acc, acc.decoder} == repr;
    }

    /** Hand a code shred to the accumulator of its slot. */
    method HandCode(slot: nat, c: Shred, now: int) returns (out: seq<Transaction>, ghost batches: nat)
      requires Holds() && this !in repr && pool !in repr && cache !in repr && slot in slots
      requires c.CodeShred? && 0 < c.numData && c.fecSetIndex + c.numData <= MAX_U32 && c.variant.proofSize < 16
      modifies this`held, this`story, pool, cache, repr
      ensures Holds() && slot in old(story) && old(story)[slot].batches <= batches
      ensures story == old(story)[slot := Story(old(story)[slot].emitted + out, batches)]
      ensures EmittedBy(slot) == old(EmittedBy(slot)) + out
      ensures RecoveriesBy(slot) == old(RecoveriesBy(slot)) ==> Buffered(ViewOf(slot), c)
      ensures FecSetsOk(old(ViewOf(slot)).sets) && CodeEntered(old(ViewOf(slot)), ViewOf(slot), c, now, Cfg())
      ensures Views() == old(Views())[slot := ViewOf(slot)]
    {
      hide Accumulator.Now, Galois.Tables.Valid, ReedSolomonCache.Valid, Partition, Elements, NoDuplicates, AllHealthy,
        Healthy, EmittedIn, Buffered, CodeEntered, FecSetsOk, Listener.Views;
      Others(slots, held, story, Cfg(), repr, slot);
      var acc := slots[slot];
      ghost var mine, told, free := held[slot], story[slot], pool.Free();
      HeldApart(pool.capacity, free, inFlight, held, slot);
      FreeNotInFlight(pool.capacity, free, inFlight, held);
      ghost var mine';
      out, mine' := FeedCodeTo(acc, mine, told, c, now, tables, pool, cache);
      OthersKept(slot);
      SeeView(slot);
      OneChanged(old(Views()), Views(), slot);
      Redistribute(pool.capacity, free, inFlight, held, slot, pool.Free(), inFlight, mine');
      batches := |acc.log|;
      Rejoin(slot, mine', Story(told.emitted + out, batches));
      held := held[slot := mine'];
      story := story[slot := Story(told.emitted + out, batches)];
    }

    /** Hand a data shred and its buffer to its slot and note what comes of it. */
    method FeedData(slot: nat, handle: Handle, d: Shred, now: int) returns (out: seq<Transaction>)
      requires Valid() && slot in slots && handle.idx in inFlight
      requires d.DataShred? && d.index < MAX_U32 && DATA_HEADER_SIZE + |d.payload| <= |handle.bytes| <= BUFFER_SIZE
      modifies this`held, this`story, this`delivered, this`completions, this`inFlight, pool, cache, repr
      ensures slots == old(slots) && Valid() && inFlight == old(inFlight) - {handle.idx}
      ensures EmittedBy(slot) == old(EmittedBy(slot)) + out && Taken(ViewOf(slot), d)
      ensures DataEntered(old(ViewOf(slot)), ViewOf(slot), handle, d, now, stuckTimeout)
      ensures Views() == old(Views())[slot := ViewOf(slot)]
      ensures delivered == old(delivered) + BatchOf(slot, out)
    {
      hide Listener.Holds, Listener.Booked, Pruned, Listener.EmittedBy, Listener.ViewOf, Listener.Views, Taken, BatchOf,
        DataEntered;
      ghost var told, batches := story, 0;
      out, batches := HandData(slot, handle, d, now);
      Note(slot, out, batches, told);
    }

    /** Hand a code shred to its slot, note what comes of it and give its buffer back. */
    method FeedCode(slot: nat, handle: Handle, c: Shred, now: int) returns (out: seq<Transaction>)
      requires Valid() && slot in slots && handle.idx in inFlight
      requires c.CodeShred? && 0 < c.numData && c.fecSetIndex + c.numData <= MAX_U32 && c.variant.proofSize < 16
      modifies this`held, this`story, this`delivered, this`completions, this`inFlight, pool, cache, repr
      ensures slots == old(slots) && Valid() && inFlight == old(inFlight) - {handle.idx}
      ensures EmittedBy(slot) == old(EmittedBy(slot)) + out
      ensures RecoveriesBy(slot) == old(RecoveriesBy(slot)) ==> Buffered(ViewOf(slot), c)
      ensures FecSetsOk(old(ViewOf(slot)).sets) && CodeEntered(old(ViewOf(slot)), ViewOf(slot), c, now, Cfg())
      ensures Views() == old(Views())[slot := ViewOf(slot)]
      ensures delivered == old(delivered) + BatchOf(slot, out)
    {
      hide Listener.Holds, Listener.Booked, Pruned, Listener.EmittedBy, Listener.ViewOf, Listener.Views, Buffered,
        BatchOf, CodeEntered, FecSetsOk, Listener.RecoveriesBy;
      ghost var told, batches := story, 0;
      out, batches := HandCode(slot, c, now);
      Note(slot, out, batches, told);
      ReturnBuffer(handle.idx);
    }

    /** A data shred of an acceptable slot. */
    method EnterData(handle: Handle, d: Shred, now: int) returns (out: seq<Transaction>)
      requires Valid() && Acceptable(d.slot, slots.Keys, lastSlot) && d.slot !in recentlySeen && handle.idx in inFlight
      requires d.DataShred? && d.index < MAX_U32 && DATA_HEADER_SIZE + |d.payload| <= |handle.bytes| <= BUFFER_SIZE
      modifies this, pool, cache, repr
      ensures Valid() && inFlight == old(inFlight) - {handle.idx} && packets == old(packets)
      ensures old(archive) <= archive && fresh(repr - old(repr))
      ensures SlotEntered(old(Snapshot()), Snapshot(), handle, d, now, Opts(), out)
      ensures Intake(counters) == old(Intake(counters))
      ensures delivered == old(delivered) + BatchOf(d.slot, out)
    {
      hide Listener.Holds, Listener.Booked, Pruned, Listener.Views, Listener.ViewOf, EmittedIn, Acceptable, Taken,
        BatchOf, DataEntered, SlotEntered, Admitted, Gone, Intake, ShredEntered;
      ghost var scene, before := Snapshot(), ViewOf(d.slot);
      SeeView(d.slot);
      Admit(d.slot, now);
      ghost var views, after := Views(), ViewOf(d.slot);
      assert after == before;
      SeeView(d.slot);
      out := FeedData(d.slot, handle, d, now);
      SeeView(d.slot);
      DataShredEntered(before, ViewOf(d.slot), handle, d, now, Cfg());
      SlotIsEntered(scene, Snapshot(), handle, d, now, Opts(), out, before, ViewOf(d.slot));
    }

    /** A code shred of an acceptable slot, with recovery on. */
    method EnterCode(handle: Handle, c: Shred, now: int) returns (out: seq<Transaction>)
      requires Valid() && Acceptable(c.slot, slots.Keys, lastSlot) && c.slot !in recentlySeen && handle.idx in inFlight
      requires c.CodeShred? && 0 < c.numData && c.fecSetIndex + c.numData <= MAX_U32 && c.variant.proofSize < 16
      modifies this, pool, cache, repr
      ensures Valid() && inFlight == old(inFlight) - {handle.idx} && packets == old(packets)
      ensures old(archive) <= archive && fresh(repr - old(repr))
      ensures SlotEntered(old(Snapshot()), Snapshot(), handle, c, now, Opts(), out)
      ensures Intake(counters) == old(Intake(counters))
      ensures delivered == old(delivered) + BatchOf(c.slot, out)
    {
      hide Listener.Holds, Listener.Booked, Pruned, Listener.Views, Listener.ViewOf, EmittedIn, Acceptable, Buffered,
        BatchOf, CodeEntered, FecSetsOk, SlotEntered, Admitted, Gone, Intake, ShredEntered;
      ghost var scene, before := Snapshot(), ViewOf(c.slot);
      SeeView(c.slot);
      Admit(c.slot, now);
      ghost var views, after := Views(), ViewOf(c.slot);
      assert after == before;
      SeeView(c.slot);
      out := FeedCode(c.slot, handle, c, now);
      SeeView(c.slot);
      CodeShredEntered(before, ViewOf(c.slot), handle, c, now, Cfg());
      SlotIsEntered(scene, Snapshot(), handle, c, now, Opts(), out, before, ViewOf(c.slot));
    }

    /** Whether a shred is turned away; if so it is counted and its buffer released. */
    method Screen(handle: Handle, shred: Shred, ghost now: int) returns (ok: bool)
      requires Valid() && handle.idx in inFlight
      modifies this`counters, this`packets, this`inFlight, pool
      ensures Valid() && ok == (Acceptable(shred.slot, slots.Keys, lastSlot) && shred.slot !in recentlySeen)
      ensures ok ==> Snapshot() == old(Snapshot()) && counters == old(counters) && packets == old(packets)
      ensures !ok ==> packets == old(packets) + 1
      ensures !ok ==> ParsedTaken(old(Snapshot()), Snapshot(), handle, ParseResult.Shred(shred), now, Opts(), [])
    {
      hide Listener.Holds, Listener.Booked, Pruned, Listener.Views, Acceptable, Intake, ParsedTaken;
      SeeView(shred.slot);
      IntakeCounts(counters, OutOfRange);
      IntakeCounts(counters, Blacklisted);
      ok := AcceptSlot(shred.slot);
      if ok && shred.slot in recentlySeen {
        Tally(Blacklisted);
        ok := false;
      }
      if !ok {
        ReturnBuffer(handle.idx);
        RefusedIsIdle(old(Snapshot()), Snapshot(), handle, shred, now, Opts());
      }
    }

    /** A data shred, or a code shred with recovery on, that was let in. */
    method Enter(handle: Handle, shred: Shred, now: int) returns (txs: seq<Transaction>)
      requires Valid() && Acceptable(shred.slot, slots.Keys, lastSlot) && shred.slot !in recentlySeen
      requires handle.idx in inFlight && |handle.bytes| <= BUFFER_SIZE
      requires ParseKind(handle.bytes) == ParseResult.Shred(shred) && InRange(handle.bytes)
      modifies this, pool, cache, repr
      ensures Valid() && inFlight == old(inFlight) - {handle.idx} && packets == old(packets)
      ensures old(archive) <= archive && fresh(repr - old(repr))
      ensures SlotEntered(old(Snapshot()), Snapshot(), handle, shred, now, Opts(), txs)
      ensures Intake(counters) == old(Intake(counters)) && delivered == old(delivered) + BatchOf(shred.slot, txs)
    {
      hide Listener.Holds, Listener.Booked, Pruned, ParseKind, Acceptable, SlotEntered,
        Listener.Snapshot, Intake, BatchOf;
      PayloadFits(handle.bytes);
      if shred.DataShred? {
        txs := EnterData(handle, shred, now);
      } else {
        txs := EnterCode(handle, shred, now);
      }
    }

    /** handlePacketParsed. A packet of an unacceptable or blacklisted slot changes nothing, nor
        does a code shred without recovery; otherwise the shred enters its slot and what the
        accumulator emits is delivered. */
    method HandleParsed(handle: Handle, shred: Shred, now: int) returns (r: Delivery)
      requires Valid() && handle.idx in inFlight && |handle.bytes| <= BUFFER_SIZE
      requires ParseKind(handle.bytes) == ParseResult.Shred(shred) && InRange(handle.bytes)
      modifies this, pool, cache, repr
      ensures Valid() && packets == old(packets) + 1 && old(archive) <= archive && fresh(repr - old(repr))
      ensures delivered == old(delivered) + Handed(r)
      ensures ParsedTaken(old(Snapshot()), Snapshot(), handle, ParseResult.Shred(shred), now, Opts(), Handed(r))
    {
      hide Listener.Holds, Listener.Booked, Pruned, Listener.Views, ParseKind, Acceptable, SlotEntered,
        ParsedTaken, Intake;
      r := Nothing;
      var ok := Screen(handle, shred, now);
      if !ok {
        return;
      }
      ghost var scene := Snapshot();
      SeeView(shred.slot);
      IntakeCounts(counters, if shred.DataShred? then DataTaken else CodeTaken);
      if shred.CodeShred? && !enableFec {
        Tally(CodeTaken);
        ReturnBuffer(handle.idx);
        CodeIsIdle(scene, Snapshot(), handle, shred, now, Opts());
        return;
      }
      Tally(if shred.DataShred? then DataTaken else CodeTaken);
      ghost var counted := Snapshot();
      var txs := Enter(handle, shred, now);
      if |txs| > 0 {
        r := Delivery(SlotBatch(shred.slot, txs));
      }
      ParsedIsTaken(scene, counted, Snapshot(), handle, shred, now, Opts(), txs);
    }

    /** handlePacketOwned, and the second half of recvOne: a packet that does not parse is
        counted and its buffer released. */
    method HandleOwned(handle: Handle, now: int) returns (r: Delivery)
      requires Valid() && handle.idx in inFlight && |handle.bytes| <= BUFFER_SIZE && InRange(handle.bytes)
      modifies this, pool, cache, repr
      ensures Valid() && packets == old(packets) + 1 && old(archive) <= archive && fresh(repr - old(repr))
      ensures delivered == old(delivered) + Handed(r)
      ensures PacketTaken(old(Snapshot()), Snapshot(), handle, now, Opts(), Handed(r))
      ensures var parsed := ParseKind(handle.bytes);
              && (parsed == Unparseable(TooShort) ==> counters.tooShort == old(counters.tooShort) + 1)
              && (parsed == Unparseable(UnknownVariant) ==> counters.unknownVariant == old(counters.unknownVariant) + 1)
              && (parsed == Unparseable(PayloadInvalid) ==> counters.payloadInvalid == old(counters.payloadInvalid) + 1)
    {
      hide Listener.Holds, Listener.Booked, Pruned, Listener.Views, ParseKind, Acceptable, ParsedTaken, Intake;
      ghost var scene := Snapshot();
      CountBytes(|handle.bytes|);
      ghost var counted := Snapshot();
      var parsed := ParseKind(handle.bytes);
      if parsed.Unparseable? {
        IntakeCounts(counters, Unreadable(parsed.error));
        Tally(Unreadable(parsed.error));
        ReturnBuffer(handle.idx);
        UnreadableIsIdle(counted, Snapshot(), handle, parsed, now, Opts());
        return Nothing;
      }
      r := HandleParsed(handle, parsed.shred, now);
    }

    method CountBytes(n: nat)
      requires Valid()
      modifies this`counters
      ensures Valid()
      ensures counters == old(counters).(bytesReceived := old(counters.bytesReceived) + n)
      ensures Intake(counters)
           == old(Intake(counters)).(bytesReceived := old(Intake(counters)).bytesReceived + n)
    {
      hide Listener.Holds, Aging, LogOk, Pruned;
      counters := counters.(bytesReceived := counters.bytesReceived + n);
    }

    /** HandlePacket: one packet from acquiring a buffer to delivery, all under the lock. */
    method HandlePacket(raw: Bytes, now: int, early: set<nat>, late: set<nat>) returns (r: Delivery)
      requires Valid() && InRange(Clip(raw))
      modifies this, pool, cache, repr
      ensures Valid() && old(archive) <= archive && fresh(repr - old(repr))
      ensures old(inFlight) - (early + late) <= inFlight <= old(inFlight)
      ensures old(pool.freelist) != [] ==> packets == old(packets) + 1 && inFlight == old(inFlight)
      ensures delivered == old(delivered) + Handed(r)
      ensures PacketHandled(old(Snapshot()), Snapshot(), raw, now, Opts(), Handed(r))
    {
      hide Listener.Holds, Listener.Booked, Pruned, ParseKind, Clip, Listener.Views, Intake, PacketTaken, Only,
        OldestLeft, InRange, Gone;
      ghost var scene := Snapshot();
      var lease;
      ghost var given;
      SeeView(0);
      lease, given := AcquireWithFallback(now, early, late);
      ghost var mid := Snapshot();
      SeeView(0);
      NoneGone(scene.evicted, scene.views.Keys);
      assert Thinned(scene, mid, maxAge);
      if lease.Exhausted? {
        return Nothing;
      }
      r := HandleOwned(Handle(lease.idx, Clip(raw)), now);
      TakenFlight(mid, Snapshot(), Handle(lease.idx, Clip(raw)), now, Opts(), Handed(r));
    }

    /** The first half of recvOne: a queued batch if there is one, otherwise a buffer to read into. */
    method StartReceive(now: int, early: set<nat>, late: set<nat>) returns (r: Received, ghost given: set<nat>)
      requires Valid()
      modifies this, pool, cache, repr
      ensures Valid() && lastSlot == old(lastSlot) && old(evicted) <= evicted && old(archive) <= archive
      ensures fresh(repr - old(repr)) && given <= early + late
      ensures r.Popped? <==> old(pendingBatches) != []
      ensures r.Popped? ==> old(pendingBatches) == [r.batch] + pendingBatches && slots == old(slots) && given == {}
      ensures r.Popped? ==> Snapshot() == old(Snapshot()).(queue := pendingBatches)
      ensures !r.Popped? ==> Thinned(old(Snapshot()), Snapshot(), maxAge)
      ensures r.Reading? ==> r.idx !in old(inFlight) - given && inFlight == old(inFlight) - given + {r.idx}
      ensures !r.Reading? ==> inFlight == old(inFlight) - given
      ensures delivered == old(delivered) + if r.Popped? then [r.batch] else []
    {
      hide Listener.Holds, Listener.Booked, Pruned, Listener.Views, Intake, Only, OldestLeft, Gone;
      SeeView(0);
      GoneGrows(evicted, slots.Keys);
      NoneGone(evicted, slots.Keys);
      if |pendingBatches| > 0 {
        given := {};
        var b := Pop();
        r := Popped(b);
        return;
      }
      var lease;
      lease, given := AcquireWithFallback(now, early, late);
      SeeView(0);
      r := if lease.Leased? then Reading(lease.idx) else NoBuffer;
    }

    /** Hand out the oldest queued batch. */
    method Pop() returns (b: SlotBatch)
      requires Valid() && pendingBatches != []
      modifies this`pendingBatches, this`delivered
      ensures Valid() && old(pendingBatches) == [b] + pendingBatches && delivered == old(delivered) + [b]
    {
      hide Listener.Holds, Listener.AccountsOk, Listener.RolledUp, Listener.Ended, Aging, Pruned, Routed, Total,
        BatchCounts;
      if !salvageDisabled {
        RoutePop(delivered, pendingBatches, retired, story);
      }
      b := pendingBatches[0];
      pendingBatches := pendingBatches[1..];
      delivered := delivered + [b];
    }

    /** Any number of packets and receivers, their sections interleaved in any order: each event
        does what it should to the scene it finds, and `out` is everything they are given. */
    method Run(events: seq<Event>)
      returns (out: seq<SlotBatch>, ghost scenes: seq<Scene>, ghost outs: seq<seq<SlotBatch>>)
      requires Valid()
      requires forall k :: 0 <= k < |events| ==>
                events[k].Arrives? || events[k].Handled? ==> InRange(Clip(events[k].raw))
      modifies this, pool, cache, repr
      ensures Valid() && old(archive) <= archive && fresh(repr - old(repr)) && delivered == old(delivered) + out
      ensures Happened(scenes, events, Opts(), outs) && out == AllOut(outs)
      ensures scenes[0] == old(Snapshot()) && scenes[|events|] == Snapshot()
      ensures old(lastSlot) <= lastSlot && old(evicted) <= evicted
    {
      hide Listener.Holds, Listener.Booked, Pruned, InRange, Clip, Listener.Snapshot, Happens;
      out, scenes, outs := [], [Snapshot()], [];
      SeeScene();
      for k := 0 to |events|
        invariant Valid() && old(archive) <= archive && fresh(repr - old(repr)) && delivered == old(delivered) + out
        invariant Happened(scenes, events[..k], Opts(), outs) && out == AllOut(outs)
        invariant scenes[0] == old(Snapshot()) && scenes[k] == Snapshot()
      {
        var batches := Step(events[k]);
        OneMore(scenes, events[..k], Opts(), outs, events[k], Snapshot(), batches);
        assert events[..k] + [events[k]] == events[..k + 1];
        assert (old(delivered) + out) + batches == old(delivered) + (out + batches);
        out, scenes, outs := out + batches, scenes + [Snapshot()], outs + [batches];
      }
      assert events[..|events|] == events;
      RunGrows(scenes, events, Opts(), outs, 0, |events|);
      SeeScene();
    }

    lemma SeeScene()
      ensures Snapshot().last == lastSlot && Snapshot().evicted == evicted
    {
      hide Listener.Views, Intake;
    }

    /** One event. A buffer that is not in flight belongs to no receiver, so nothing happens. */
    method Step(e: Event) returns (out: seq<SlotBatch>)
      requires Valid()
      requires e.Arrives? || e.Handled? ==> InRange(Clip(e.raw))
      modifies this, pool, cache, repr
      ensures Valid() && old(archive) <= archive && fresh(repr - old(repr)) && delivered == old(delivered) + out
      ensures Happens(old(Snapshot()), e, Snapshot(), Opts(), out)
    {
      hide Listener.Holds, Listener.Booked, Pruned, InRange, ParseKind, Listener.Views, Intake, PacketTaken, Thinned,
        PacketHandled;
      out := [];
      match e
      case Handled(raw, now, early, late) =>
        var r := HandlePacket(raw, now, early, late);
        if r.Delivery? {
          out := [r.batch];
        }
      case Starts(now, early, late) =>
        var r;
        ghost var given;
        r, given := StartReceive(now, early, late);
        if r.Popped? {
          out := [r.batch];
        }
      case ReadFails(idx) =>
        if idx in inFlight {
          ReturnBuffer(idx);
        }
      case Arrives(idx, raw, now) =>
        if idx in inFlight {
          var r := HandleOwned(Handle(idx, Clip(raw)), now);
          if r.Delivery? {
            out := [r.batch];
          }
        }
    }
  }

  // ---------------------------------------------------------------------------
  // What holds in every reachable state

  /** Pending shred `i` of slot `s` sits in buffer `x`. */
  ghost predicate Sits(l: Listener, s: nat, i: nat, x: nat)
    reads l, if s in l.slots then {l.slots[s]} else {}
  {
    && s in l.slots && i in l.slots[s].pending
    && l.slots[s].pending[i].source.Pooled? && l.slots[s].pending[i].source.handle.idx == x
  }

  lemma SlotHealthy(l: Listener, s: nat)
    requires l.Valid() && s in l.slots
    ensures s in l.held && Exclusive(l.slots[s].pending) && Owned(l.slots[s].pending) == l.held[s]
    ensures l.slots[s].Valid() && l.slots[s].Clean() && l.slots[s].Settled()
    ensures s in l.story && l.slots[s].Emitted() == l.story[s].emitted && |l.slots[s].log| == l.story[s].batches
  {
    hide Accumulator.Valid, Partition, Aging, Exclusive, Owned, ReedSolomonCache.Valid, Galois.Tables.Valid, Distinct,
      AllIntact, StreamedFront;
    assert Healthy(l.slots[s], l.held[s], l.story[s]);
  }

  /** A slot holds the buffers its pending shreds sit in. */
  lemma HeldIsSat(l: Listener, s: nat, x: nat)
    requires l.Valid()
    ensures s in l.held && x in l.held[s] <==> exists i :: Sits(l, s, i, x)
    ensures forall i, j :: Sits(l, s, i, x) && Sits(l, s, j, x) ==> i == j
  {
    hide Listener.Holds, Listener.Booked, Pruned;
    SlotsHeld(l);
    if s in l.slots {
      SlotHealthy(l, s);
      OwnedSits(l, s, x);
    }
  }

  lemma SlotsHeld(l: Listener)
    requires l.Valid()
    ensures l.held.Keys == l.slots.Keys && l.story.Keys == l.slots.Keys
  {
    hide Partition, Aging, ReedSolomonCache.Valid, Galois.Tables.Valid, AllHealthy, Listener.Booked;
    SameKeys(l.slots, l.held, l.story, l.Cfg(), l.repr);
  }

  lemma OwnedSits(l: Listener, s: nat, x: nat)
    requires s in l.slots && Exclusive(l.slots[s].pending)
    ensures x in Owned(l.slots[s].pending) <==> exists i :: Sits(l, s, i, x)
    ensures forall i, j :: Sits(l, s, i, x) && Sits(l, s, j, x) ==> i == j
  {
    var pending := l.slots[s].pending;
    if x in Owned(pending) {
      var i :| i in pending && pending[i].source.Pooled? && pending[i].source.handle.idx == x;
      assert Sits(l, s, i, x);
    }
  }

  /** Buffer conservation: every buffer is free, with a receiver or with a pending shred, and
      never in two places. */
  lemma BufferConservation(l: Listener)
    requires l.Valid()
    ensures NoDuplicates(l.pool.freelist)
    ensures forall x: nat :: x < l.pool.capacity <==>
              x in l.pool.freelist || x in l.inFlight || exists s, i :: Sits(l, s, i, x)
    ensures forall x: nat :: x in l.pool.freelist ==> x !in l.inFlight
    ensures forall s, i, x :: Sits(l, s, i, x) ==> x !in l.pool.freelist && x !in l.inFlight
    ensures forall s, i, t, j, x :: Sits(l, s, i, x) && Sits(l, t, j, x) ==> s == t && i == j
  {
    hide Sits, Listener.Booked, Pruned, AllHealthy, ReedSolomonCache.Valid, Galois.Tables.Valid;
    assert forall x :: x in l.pool.freelist <==> x in l.pool.Free();
    forall s, i, x | Sits(l, s, i, x) ensures s in l.held && x in l.held[s] {
      HeldIsSat(l, s, x);
    }
    forall s, i, t, j, x | Sits(l, s, i, x) && Sits(l, t, j, x) ensures s == t && i == j {
      HeldIsSat(l, s, x);
    }
    forall x: nat | HeldBySome(l.held, x) ensures exists s, i :: Sits(l, s, i, x) {
      var s :| s in l.held && x in l.held[s];
      HeldIsSat(l, s, x);
    }
  }

  /** Slot safety: few live slots, none of them blacklisted; the blacklist is exactly the
      evicted slots inside its window, so no slot evicted recently is live again. */
  lemma SlotSafety(l: Listener)
    requires l.Valid()
    ensures |l.slots| <= 64 && l.slots.Keys !! l.recentlySeen
    ensures l.recentlySeen == (set s | s in l.evicted && l.lastSlot <= s + l.maxAge + 50)
    ensures |l.recentlySeen| <= l.maxAge + 51
    ensures forall s :: s in l.evicted && l.lastSlot <= s + l.maxAge + 50 ==> s !in l.slots
    ensures forall s :: s in l.slots ==> s <= l.lastSlot
  {
    hide Listener.Holds, Listener.AccountsOk;
    BlacklistIsWindow(l.slots.Keys, l.recentlySeen, l.evicted, l.lastSlot, l.maxAge);
    assert |l.slots| == |l.slots.Keys|;
  }

  /** The batches that the counters of each live accumulator account for. */
  ghost function LiveBatches(l: Listener): map<nat, nat>
    reads l, set s | s in l.slots :: l.slots[s]
  {
    map s | s in l.slots :: l.slots[s].Finished()
  }

  /** Accounts: slots and packets are conserved; the batch counters of evicted and live
      accumulators add up to the number of batches ever finished; every finished batch emitted
      each transaction once; and no batch was ever given up for a shred without payload. */
  lemma AccountsBalance(l: Listener)
    requires l.Valid()
    ensures l.created == |l.slots| + l.counters.slotsCompleted + l.counters.slotsEvicted
    ensures l.packets == l.Counted()
    ensures l.completions == l.RolledUp() + Total(LiveBatches(l))
    ensures LogOk(l.archive) && forall s :: s in l.slots ==> LogOk(l.slots[s].log)
    ensures l.totals.batchesForceFinalizedCorrupted == 0
    ensures forall s :: s in l.slots ==> l.slots[s].stats.batchesForceFinalizedCorrupted == 0
  {
    hide Listener.Holds, Aging, Pruned, LogOk, Chains, StreamingDecoder.Valid, BoundariesAgree, KeysFrom, FecSetsOk,
      Emission, Exclusive, Owned, Routed, Total;
    forall s | s in l.slots
      ensures l.slots[s].Finished() == |l.slots[s].log| && s in l.story && l.story[s].batches == |l.slots[s].log|
              && LogOk(l.slots[s].log) && l.slots[s].stats.batchesForceFinalizedCorrupted == 0
    {
      SlotHealthy(l, s);
    }
    SlotsHeld(l);
    assert LiveBatches(l) == BatchCounts(l.story);
    assert |l.slots| == |l.slots.Keys|;
  }

  /** Deliveries: with salvage on, for each slot the transactions delivered and queued are
      those that its accumulators, past and present, have emitted. */
  lemma DeliveryConservation(l: Listener, s: nat)
    requires l.Valid() && !l.salvageDisabled
    ensures multiset(TxsOf(l.delivered, s)) + multiset(TxsOf(l.pendingBatches, s))
            == multiset(RetiredOf(l.retired, s)) + multiset(l.EmittedBy(s))
  {
    hide Listener.Holds, Listener.AccountsOk, Aging, Pruned, Total, BatchCounts, TxsOf;
    SlotsHeld(l);
    if s in l.slots {
      SlotHealthy(l, s);
    }
    assert RoutedAt(l.delivered, l.pendingBatches, l.retired, l.story, s);
  }

  /** The streaming front of every live slot: what streaming has passed is pending, in a pool
      buffer and ends no batch; the boundary index is exact; every payload is there. */
  lemma StreamingFront(l: Listener, s: nat, i: nat)
    requires l.Valid() && s in l.slots
    ensures var acc := l.slots[s];
            && (acc.batchStart <= i < acc.streamingCursor ==>
                  i in acc.pending && acc.pending[i].source.Pooled? && !acc.pending[i].batchComplete)
            && (i in acc.boundaries <==> i in acc.pending && acc.pending[i].batchComplete)
            && (i in acc.pending ==>
                acc.batchStart <= i && 88 <= acc.pending[i].payloadEnd <= |acc.pending[i].Buffer()|)
            && acc.batchStart <= acc.streamingCursor
  {
    hide Listener.Valid, LogOk, StreamingDecoder.Valid, FecSetsOk, Emission, Exclusive, Owned;
    SlotHealthy(l, s);
  }

  lemma PayloadFits(raw: Bytes)
    requires ParseKind(raw).Shred?
    ensures ParseKind(raw).shred.DataShred? ==> DATA_HEADER_SIZE + |ParseKind(raw).shred.payload| <= |raw|
    ensures ParseKind(raw).shred.CodeShred? ==>
              ParseKind(raw).shred.variant.proofSize < 16 && ParseKind(raw).shred.numData > 0
  {
    hide LittleEndian, ClassifyVariant;
    if ParseKind(raw).shred.DataShred? {
      PayloadBounds(raw);
    }
  }

  method FeedCodeTo(acc: Accumulator, ghost mine: set<nat>, ghost told: Story, c: Shred, now: int,
                    t: Galois.Tables, pool: BufferPool, cache: ReedSolomonCache)
    returns (out: seq<Transaction>, ghost mine': set<nat>)
    requires Healthy(acc, mine, told) && t.Valid() && cache.Valid() && pool.Valid() && mine !! pool.Free()
    requires c.CodeShred? && 0 < c.numData && c.fecSetIndex + c.numData <= MAX_U32 && c.variant.proofSize < 16
    modifies acc, acc.decoder, pool, cache
    ensures Healthy(acc, mine', Story(told.emitted + out, |acc.log|)) && told.batches <= |acc.log|
    ensures acc.salvageDisabled == old(acc.salvageDisabled)
    ensures cache.Valid() && pool.Valid() && mine' !! pool.Free()
    ensures mine' + pool.Free() == mine + old(pool.Free())
    ensures EmittedIn(acc.Now()) == EmittedIn(old(acc.Now())) + out
    ensures acc.Now().recoveries == old(acc.Now()).recoveries ==> Buffered(acc.Now(), c)
    ensures FecSetsOk(old(acc.Now()).sets)
    ensures CodeEntered(old(acc.Now()), acc.Now(), c, now,
                        Config(acc.maxFecSets, acc.stuckTimeout, acc.salvageDisabled))
  {
    hide Galois.Tables.Valid, ReedSolomonCache.Valid, Accumulator.Valid, LogTransactions, Owned, Exclusive,
      NoDuplicates, Elements, AllIntact, StreamedFront, NoBoundaryBefore, Settles, SetsKept, Served, NoneFillable,
      NoneComplete, CodePushed, CodeEntered, Buffered, FecSet.Ok, Recorded;
    SetsAreOk(acc);
    ghost var v0 := acc.Now();
    ghost var before, log0, start0 := acc.pending, acc.log, acc.batchStart;
    ghost var exact := acc.stats.recoveriesDone;
    ghost var enrolled, mid, views;
    out, enrolled, mid, views := acc.PushCode(c.fecSetIndex, c.numData, c.numCoding, c.position, c.coded, c.variant,
                                              now, t, pool, cache);
    TwiceSettles(before, log0, start0, acc.pending, acc.log, acc.batchStart, acc.stats.recoveriesDone == exact);
    CodeIsEntered(v0, acc.Now(), c, now, Config(acc.maxFecSets, acc.stuckTimeout, acc.salvageDisabled), enrolled, mid,
                  views);
    if acc.stats.recoveriesDone == exact {
      CodeIsBuffered(acc, v0.sets, c, enrolled);
    }
    mine' := Owned(acc.pending);
  }

  lemma CodeIsEntered(v0: View, v1: View, c: Shred, now: int, cfg: Config, sets: map<nat, FecSet>, mid: View,
                      views: seq<View>)
    requires c.CodeShred? && c.variant.proofSize < 16 && FecSetsOk(v0.sets) && c.fecSetIndex in sets
    requires sets[c.fecSetIndex]
             == Recorded(v0.sets, c.fecSetIndex, c.numData, c.numCoding, c.position, c.coded, c.variant)
    requires forall k :: k in sets && k != c.fecSetIndex ==> k in v0.sets && sets[k] == v0.sets[k]
    requires forall k :: k in v0.sets && k !in sets ==>
               LeastSet(v0.sets, k) && k < c.fecSetIndex && |v0.sets| >= cfg.maxFecSets
    requires CodePushed(v0, sets, mid, views, v1, c.fecSetIndex, now, cfg.stuckTimeout)
    ensures CodeEntered(v0, v1, c, now, cfg)
  {
    hide CodePushed, Recorded, FecSetsOk, LeastSet;
  }

  lemma CodeIsBuffered(acc: Accumulator, sets0: map<nat, FecSet>, c: Shred, sets: map<nat, FecSet>)
    requires c.CodeShred? && c.variant.proofSize < 16 && FecSetsOk(sets0) && 0 < c.numData && c.fecSetIndex in sets
    requires sets[c.fecSetIndex]
             == Recorded(sets0, c.fecSetIndex, c.numData, c.numCoding, c.position, c.coded, c.variant)
    requires SetsKept(sets, acc.fecSets, acc.batchStart)
    ensures Buffered(acc.Now(), c)
  {
    hide FecSet.Ok;
  }

  method FeedDataTo(acc: Accumulator, ghost mine: set<nat>, ghost told: Story, handle: Handle, d: Shred, now: int,
                    t: Galois.Tables, pool: BufferPool, cache: ReedSolomonCache)
    returns (out: seq<Transaction>, ghost mine': set<nat>)
    requires Healthy(acc, mine, told) && t.Valid() && cache.Valid() && pool.Valid() && mine !! pool.Free()
    requires handle.idx !in mine + pool.Free()
    requires d.DataShred? && d.index < MAX_U32 && DATA_HEADER_SIZE + |d.payload| <= |handle.bytes| <= BUFFER_SIZE
    modifies acc, acc.decoder, pool, cache
    ensures Healthy(acc, mine', Story(told.emitted + out, |acc.log|)) && told.batches <= |acc.log|
    ensures acc.salvageDisabled == old(acc.salvageDisabled)
    ensures cache.Valid() && pool.Valid() && mine' !! pool.Free()
    ensures mine' + pool.Free() == mine + old(pool.Free()) + {handle.idx}
    ensures EmittedIn(acc.Now()) == EmittedIn(old(acc.Now())) + out && Taken(acc.Now(), d)
    ensures DataEntered(old(acc.Now()), acc.Now(), handle, d, now, acc.stuckTimeout)
  {
    hide Galois.Tables.Valid, ReedSolomonCache.Valid, Accumulator.Valid, LogTransactions, Owned, Exclusive,
      NoDuplicates, Elements, AllIntact, StreamedFront, NoBoundaryBefore, NoneComplete, Settles, SetsKept, Served,
      NoneFillable, StreamRun, NewOnes;
    var payloadEnd := (DATA_HEADER_SIZE + |d.payload|) % 0x1_0000;
    ghost var shred := Pending(Pooled(handle), payloadEnd, d.batchComplete, d.fecSetIndex);
    ghost var arrived := Arrived(acc.pending, acc.batchStart, d.index, d.lastInSlot, shred);
    ghost var log0, start0 := acc.log, acc.batchStart;
    ghost var recoveries := acc.stats.recoveriesDone;
    ghost var mid, views;
    out, mid, views := acc.PushData(d.index, d.fecSetIndex, handle, payloadEnd, d.batchComplete, d.lastInSlot, now, t,
                                    pool, cache);
    TwiceSettles(arrived, log0, start0, acc.pending, acc.log, acc.batchStart, acc.stats.recoveriesDone == recoveries);
    ArrivedIsKept(arrived, log0, start0, acc.pending, acc.log, acc.batchStart, acc.stats.recoveriesDone == recoveries,
                  d.index);
    mine' := Owned(acc.pending);
  }

  lemma ArrivedIsKept(p0: PendingMap, log0: seq<Epoch>, start0: nat, p1: PendingMap, log1: seq<Epoch>, start1: nat,
                      exact: bool,
                      index: nat)
    requires Settles(p0, log0, start0, p1, log1, start1, exact)
    ensures index in p0 ==> index < start1 || index in p1
  {
    hide Draws;
  }

  /** A buffer in flight may end up free or with slot `s`, among other moves between the two. */
  lemma PushMoves(capacity: nat, free: set<nat>, flight: set<nat>, held: map<nat, set<nat>>, s: nat, idx: nat,
                  free': set<nat>, mine: set<nat>)
    requires Partition(capacity, free, flight, held) && s in held && idx in flight
    requires free' !! mine && mine + free' == held[s] + free + {idx}
    ensures Partition(capacity, free', flight - {idx}, held[s := mine])
  {
    hide HeldBySome;
    assert forall x :: x in free' || x in mine <==> x in held[s] + free + {idx};
    Redistribute(capacity, free, flight, held, s, free', flight - {idx}, mine);
  }

  lemma SameKeys(slots: map<nat, Accumulator>, held: map<nat, set<nat>>, story: map<nat, Story>, cfg: Config,
                 repr: set<object>)
    requires AllHealthy(slots, held, story, cfg, repr)
    ensures held.Keys == slots.Keys && story.Keys == slots.Keys
  {
    hide Healthy, Distinct;
  }

  method NewHealthy(maxFecSets: int, stuckTimeout: int, salvageDisabled: bool) returns (acc: Accumulator)
    ensures Healthy(acc, {}, Story([], 0)) && Configured(acc, Config(maxFecSets, stuckTimeout, salvageDisabled))
    ensures fresh(acc) && fresh(acc.decoder) && acc.Now() == NEW_VIEW
    ensures acc.Emitted() == [] && acc.stats.recoveriesDone == 0
  {
    hide Accumulator.Valid;
    acc := new Accumulator(maxFecSets, stuckTimeout, salvageDisabled);
  }

  lemma FreeNotInFlight(capacity: nat, free: set<nat>, flight: set<nat>, held: map<nat, set<nat>>)
    requires Partition(capacity, free, flight, held)
    ensures free !! flight
  {}

  lemma NothingHeld(capacity: nat, free: set<nat>, flight: set<nat>, held: map<nat, set<nat>>, s: nat)
    requires Partition(capacity, free, flight, held) && s !in held
    ensures Partition(capacity, free, flight, held[s := {}])
  {
    Redistribute(capacity, free, flight, held, s, free, flight, {});
  }

  /** A healthy accumulator made of other objects joins the rest. */
  lemma JoinSlot(slots: map<nat, Accumulator>, held: map<nat, set<nat>>, story: map<nat, Story>, cfg: Config,
                 repr: set<object>,
                 s: nat, acc: Accumulator, mine: set<nat>, told: Story)
    requires AllHealthy(slots, held, story, cfg, repr) && Healthy(acc, mine, told) && s !in slots
    requires Configured(acc, cfg) && acc !in repr && acc.decoder !in repr
    ensures AllHealthy(slots[s := acc], held[s := mine], story[s := told], cfg, repr + {acc, acc.decoder})
  {
    hide Healthy;
  }

  lemma NewBooks(capacity: nat, free: set<nat>, maxAge: nat, cfg: Config)
    requires forall i :: i in free <==> 0 <= i < capacity
    ensures Partition(capacity, free, {}, map[]) && Aging({}, {}, {}, 0, maxAge) && LogOk([])
    ensures Routed([], [], map[], map[]) && Total(BatchCounts(map[])) == 0 && AllHealthy(map[], map[], map[], cfg, {})
  {
    NothingRouted();
    assert BatchCounts(map[]) == map[];
  }

  lemma LogsJoin(a: seq<Epoch>, b: seq<Epoch>)
    requires LogOk(a) && LogOk(b)
    ensures LogOk(a + b)
  {
    hide EpochOk;
  }

  lemma HeldApart(capacity: nat, free: set<nat>, flight: set<nat>, held: map<nat, set<nat>>, s: nat)
    requires Partition(capacity, free, flight, held) && s in held
    ensures held[s] !! free && held[s] !! flight
  {}

  /** Harvest an accumulator and give all its buffers back. */
  method Wind(acc: Accumulator, ghost mine: set<nat>, ghost told: Story, now: int, t: Galois.Tables, pool: BufferPool,
              cache: ReedSolomonCache)
    returns (tail: seq<Transaction>, harvested: bool, ghost filled: PendingMap, ghost last: View)
    requires Healthy(acc, mine, told) && t.Valid() && cache.Valid() && pool.Valid() && mine !! pool.Free()
    modifies acc, acc.decoder, pool, cache
    ensures cache.Valid() && pool.Valid() && pool.Free() == old(pool.Free()) + mine
    ensures acc.Finished() == |acc.log| && LogOk(acc.log) && acc.stats.batchesForceFinalizedCorrupted == 0
    ensures tail != [] ==> harvested
    ensures told.batches <= |acc.log| && acc.log == last.log && Harvested(old(acc.Now()), filled, last)
    ensures acc.slotComplete == last.complete && (harvested <==> |EmittedIn(last)| > |told.emitted|)
    ensures !old(acc.salvageDisabled) ==> EmittedIn(last) == told.emitted + tail
  {
    hide Galois.Tables.Valid, ReedSolomonCache.Valid, LogTransactions, Owned, Exclusive, NoDuplicates, Elements,
      StreamingDecoder.Valid, LogOk, Chains, BoundariesAgree, KeysFrom, FecSetsOk, Emission, AllServed,
      OnlyUnpooledAdded;
    var before := acc.stats.salvagedTailTx;
    ghost var log0 := acc.log;
    var out;
    ghost var produced;
    out, produced, filled := acc.TryHarvestTail(now, t, pool, cache);
    TwiceSettles(filled, log0, old(acc.batchStart), acc.pending, acc.log, acc.batchStart, true);
    tail, last := out, acc.Now();
    harvested := |tail| > 0 || acc.stats.salvagedTailTx > before;
    acc.ReleaseAll(pool);
  }
}
