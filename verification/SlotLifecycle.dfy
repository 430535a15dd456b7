/** The bookkeeping behind the listener (listener.go): who holds which buffer, and which
    slots are live, blacklisted or gone. */
module SlotLifecycle {
  const MAX_U64 := 0xFFFF_FFFF_FFFF_FFFF
  const MAX_PLAUSIBLE_SLOT := 0x100_0000_0000
  const MAX_BOOTSTRAP_SLOT := 10_000_000_000
  const MAX_SLOT_JUMP := 1_000_000
  const BLACKLIST_EXTRA := 50
  const COMPLETED_RETENTION := 1
  const MAX_LIVE_SLOTS := 64

  function SaturatingAdd(a: nat, b: nat): nat {
    if a + b > MAX_U64 then MAX_U64 else a + b
  }

  function SaturatingSub(a: nat, b: nat): nat {
    if a < b then 0 else a - b
  }

  // ---------------------------------------------------------------------------
  // Buffer ownership

  ghost predicate HeldBySome(held: map<nat, set<nat>>, x: nat) {
    exists s :: s in held && x in held[s]
  }

  /** Free buffers, buffers held by receivers and buffers held by each live slot are
      disjoint, and together they are all the buffers. */
  ghost predicate Partition(capacity: nat, free: set<nat>, flight: set<nat>, held: map<nat, set<nat>>) {
    && (forall x: nat :: x < capacity <==> x in free || x in flight || HeldBySome(held, x))
    && free !! flight
    && (forall s :: s in held ==> held[s] !! free && held[s] !! flight)
    && (forall s, t :: s in held && t in held && s != t ==> held[s] !! held[t])
  }

  /** What slot `s` holds. */
  ghost function HeldBy(held: map<nat, set<nat>>, s: nat): set<nat> {
    if s in held then held[s] else {}
  }

  /** Buffers may move between the free list, the receivers and one slot. */
  lemma Redistribute(capacity: nat, free: set<nat>, flight: set<nat>, held: map<nat, set<nat>>,
                     s: nat, free': set<nat>, flight': set<nat>, mine: set<nat>)
    requires Partition(capacity, free, flight, held)
    requires forall x :: x in free || x in flight || x in HeldBy(held, s) <==> x in free' || x in flight' || x in mine
    requires free' !! flight' && free' !! mine && flight' !! mine
    ensures Partition(capacity, free', flight', held[s := mine])
  {
    var held' := held[s := mine];
    assert forall t :: t in held && t != s ==> held'[t] == held[t];
    forall x: nat ensures x < capacity <==> x in free' || x in flight' || HeldBySome(held', x) {
      HeldAfter(held, s, mine, x);
    }
  }

  lemma HeldAfter(held: map<nat, set<nat>>, s: nat, mine: set<nat>, x: nat)
    ensures HeldBySome(held[s := mine], x) <==> x in mine || HeldBySome(held - {s}, x)
    ensures HeldBySome(held, x) <==> x in HeldBy(held, s) || HeldBySome(held - {s}, x)
  {
    var held', rest := held[s := mine], held - {s};
    assert held'[s] == mine;
    if HeldBySome(rest, x) {
      var t :| t in rest && x in rest[t];
      assert held'[t] == rest[t] && held[t] == rest[t];
    }
    if t :| t in held' && x in held'[t] && t != s {
      assert rest[t] == held'[t];
    }
    if t :| t in held && x in held[t] && t != s {
      assert rest[t] == held[t];
    }
  }

  /** A slot that holds nothing can be forgotten. */
  lemma ForgetSlot(capacity: nat, free: set<nat>, flight: set<nat>, held: map<nat, set<nat>>, s: nat)
    requires Partition(capacity, free, flight, held) && s in held && held[s] == {}
    ensures Partition(capacity, free, flight, held - {s})
  {
    forall x: nat ensures HeldBySome(held - {s}, x) <==> HeldBySome(held, x) {
      HeldAfter(held, s, {}, x);
    }
  }

  /** A slot may give all its buffers back. */
  lemma GiveBackAll(capacity: nat, free: set<nat>, flight: set<nat>, held: map<nat, set<nat>>, s: nat)
    requires Partition(capacity, free, flight, held) && s in held
    ensures Partition(capacity, free + held[s], flight, held - {s})
  {
    hide HeldBySome;
    Redistribute(capacity, free, flight, held, s, free + held[s], flight, {});
    ForgetSlot(capacity, free + held[s], flight, held[s := {}], s);
    assert held[s := {}] - {s} == held - {s};
  }

  /** Buffers may move between the free list and the receivers. */
  lemma Hand(capacity: nat, free: set<nat>, flight: set<nat>, held: map<nat, set<nat>>, free': set<nat>,
             flight': set<nat>)
    requires Partition(capacity, free, flight, held)
    requires free + flight == free' + flight' && free' !! flight'
    ensures Partition(capacity, free', flight', held)
  {
    assert forall x :: x in free' || x in flight' <==> x in free + flight;
  }

  // ---------------------------------------------------------------------------
  // Slot lifecycle

  /** Live slots are few and not blacklisted. A slot that was evicted is blacklisted at
      least while the newest slot is at most maxAge + 50 ahead of it. */
  ghost predicate Aging(live: set<nat>, seen: set<nat>, evicted: set<nat>, last: nat, maxAge: nat) {
    && |live| <= MAX_LIVE_SLOTS && live !! seen && last <= MAX_PLAUSIBLE_SLOT
    && (forall s :: s in live ==> s <= last)
    && (forall s :: s in evicted ==> s <= last)
    && (forall s :: s in seen ==> s in evicted)
    && (forall s :: s in evicted && InWindow(s, last, maxAge) ==> s in seen)
  }

  predicate InWindow(s: nat, last: nat, maxAge: nat) {
    last <= s + maxAge + BLACKLIST_EXTRA
  }

  /** Nothing older than that is blacklisted. */
  ghost predicate Pruned(seen: set<nat>, last: nat, maxAge: nat) {
    forall s :: s in seen ==> InWindow(s, last, maxAge)
  }

  /** In a settled state the blacklist is exactly the evicted slots inside the window. */
  lemma BlacklistIsWindow(live: set<nat>, seen: set<nat>, evicted: set<nat>, last: nat, maxAge: nat)
    requires Aging(live, seen, evicted, last, maxAge) && Pruned(seen, last, maxAge)
    ensures seen == set s | s in evicted && InWindow(s, last, maxAge)
    ensures |seen| <= maxAge + 51
  {
    WindowSize(seen, SaturatingSub(last, maxAge + BLACKLIST_EXTRA), last + 1);
  }

  /** A set of numbers from `lo` to before `hi` has at most `hi - lo` elements. */
  lemma {:induction false} WindowSize(s: set<nat>, lo: nat, hi: nat)
    requires lo <= hi && forall x :: x in s ==> lo <= x < hi
    ensures |s| <= hi - lo
    decreases hi
  {
    if lo == hi {
      assert s == {};
    } else {
      WindowSize(s - {hi - 1}, lo, hi - 1);
    }
  }

  lemma EvictionAges(live: set<nat>, seen: set<nat>, evicted: set<nat>, last: nat, maxAge: nat, s: nat)
    requires Aging(live, seen, evicted, last, maxAge) && s in live
    ensures Aging(live - {s}, seen + {s}, evicted + {s}, last, maxAge)
  {}

  lemma RaiseAges(live: set<nat>, seen: set<nat>, evicted: set<nat>, last: nat, maxAge: nat, slot: nat)
    requires Aging(live, seen, evicted, last, maxAge) && last <= slot <= MAX_PLAUSIBLE_SLOT
    ensures Aging(live, seen, evicted, slot, maxAge)
  {}

  lemma AdmissionAges(live: set<nat>, seen: set<nat>, evicted: set<nat>, last: nat, maxAge: nat, slot: nat)
    requires Aging(live, seen, evicted, last, maxAge) && slot <= last && slot !in seen
    requires slot !in live ==> |live| < MAX_LIVE_SLOTS
    ensures Aging(live + {slot}, seen, evicted, last, maxAge)
  {
    if slot in live {
      assert live + {slot} == live;
    }
  }

  /** When a live slot is evicted for its age. */
  predicate Overdue(s: nat, complete: bool, last: nat, maxAge: nat) {
    last > SaturatingAdd(s, if complete then COMPLETED_RETENTION else maxAge)
  }

  /** A slot that is not overdue lies inside the blacklist window. */
  lemma NotOverdueInWindow(s: nat, complete: bool, last: nat, maxAge: nat)
    requires !Overdue(s, complete, last, maxAge) && last <= MAX_PLAUSIBLE_SLOT
    ensures InWindow(s, last, maxAge)
  {}

  /** acceptSlot's rule. */
  predicate Acceptable(slot: nat, live: set<nat>, last: nat) {
    && slot <= MAX_PLAUSIBLE_SLOT
    && (last == 0 ==> slot <= MAX_BOOTSTRAP_SLOT)
    && (last > 0 ==> slot <= last + MAX_SLOT_JUMP)
    && (slot in live || |live| < MAX_LIVE_SLOTS)
  }
}
