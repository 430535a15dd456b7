/** What the listener owes its callers (listener.go): transactions emitted, delivered and
    queued per slot, and batches finished over all slots. */
module Deliveries {
  import opened Transactions

  datatype SlotBatch = SlotBatch(slot: nat, txs: seq<Transaction>)

  /** What a live accumulator has emitted and how many batches it has finished. */
  datatype Story = Story(emitted: seq<Transaction>, batches: nat)

  // ---------------------------------------------------------------------------
  // Transactions of one slot

  /** The transactions of slot `s` in a list of batches. */
  ghost function TxsOf(batches: seq<SlotBatch>, s: nat): seq<Transaction> {
    if batches == [] then []
    else
      var last := batches[|batches| - 1];
      TxsOf(batches[..|batches| - 1], s) + if last.slot == s then last.txs else []
  }

  /** A batch to hand out, if it is not empty. */
  ghost function BatchOf(slot: nat, txs: seq<Transaction>): seq<SlotBatch> {
    if txs == [] then [] else [SlotBatch(slot, txs)]
  }

  lemma {:induction false} TxsOfConcat(a: seq<SlotBatch>, b: seq<SlotBatch>, s: nat)
    ensures TxsOf(a + b, s) == TxsOf(a, s) + TxsOf(b, s)
    decreases b
  {
    if b == [] {
      assert a + b == a;
    } else {
      assert (a + b)[..|a + b| - 1] == a + b[..|b| - 1];
      TxsOfConcat(a, b[..|b| - 1], s);
    }
  }

  lemma TxsOfBatch(slot: nat, txs: seq<Transaction>, s: nat)
    ensures TxsOf(BatchOf(slot, txs), s) == if slot == s then txs else []
  {
    var b := BatchOf(slot, txs);
    if b != [] {
      assert b[..0] == [] && TxsOf(b[..0], s) == [];
    }
  }

  ghost function RetiredOf(retired: map<nat, seq<Transaction>>, s: nat): seq<Transaction> {
    if s in retired then retired[s] else []
  }

  ghost function SaidBy(story: map<nat, Story>, s: nat): seq<Transaction> {
    if s in story then story[s].emitted else []
  }

  /** For each slot, what was delivered and what is queued is what its accumulators emitted. */
  ghost predicate Routed(delivered: seq<SlotBatch>, queue: seq<SlotBatch>, retired: map<nat, seq<Transaction>>,
                         story: map<nat, Story>) {
    forall s: nat :: RoutedAt(delivered, queue, retired, story, s)
  }

  ghost predicate RoutedAt(delivered: seq<SlotBatch>, queue: seq<SlotBatch>, retired: map<nat, seq<Transaction>>,
                           story: map<nat, Story>, s: nat) {
    multiset(TxsOf(delivered, s)) + multiset(TxsOf(queue, s))
    == multiset(RetiredOf(retired, s)) + multiset(SaidBy(story, s))
  }

  lemma NothingRouted()
    ensures Routed([], [], map[], map[])
  {}

  /** A live slot emits and its transactions are handed out. */
  lemma RouteDirect(delivered: seq<SlotBatch>, queue: seq<SlotBatch>, retired: map<nat, seq<Transaction>>,
                    story: map<nat, Story>,
                    slot: nat, out: seq<Transaction>, batches: nat)
    requires Routed(delivered, queue, retired, story) && slot in story
    ensures Routed(delivered + BatchOf(slot, out), queue, retired,
                   story[slot := Story(story[slot].emitted + out, batches)])
  {
    var delivered', story' := delivered + BatchOf(slot, out), story[slot := Story(story[slot].emitted + out, batches)];
    forall s: nat ensures RoutedAt(delivered', queue, retired, story', s) {
      hide TxsOf, BatchOf, SaidBy, RetiredOf;
      assert RoutedAt(delivered, queue, retired, story, s);
      SaidMore(story, slot, out, batches, s);
      TxsOfConcat(delivered, BatchOf(slot, out), s);
      TxsOfBatch(slot, out, s);
      var more := if slot == s then out else [];
      SameOnBothSides(TxsOf(delivered, s), TxsOf(queue, s), RetiredOf(retired, s), SaidBy(story, s), more);
    }
  }

  lemma SaidMore(story: map<nat, Story>, slot: nat, out: seq<Transaction>, batches: nat, s: nat)
    requires slot in story
    ensures SaidBy(story[slot := Story(story[slot].emitted + out, batches)], s)
            == SaidBy(story, s) + if slot == s then out else []
  {}

  lemma SameOnBothSides(a: seq<Transaction>, b: seq<Transaction>, c: seq<Transaction>, d: seq<Transaction>,
                        more: seq<Transaction>)
    requires multiset(a) + multiset(b) == multiset(c) + multiset(d)
    ensures multiset(a + more) + multiset(b) == multiset(c) + multiset(d + more)
  {
    assert multiset(a + more) == multiset(a) + multiset(more) && multiset(d + more) == multiset(d) + multiset(more);
    assert multiset(a + more) + multiset(b) == (multiset(a) + multiset(b)) + multiset(more);
  }

  /** A new slot has emitted nothing. */
  lemma RouteNew(delivered: seq<SlotBatch>, queue: seq<SlotBatch>, retired: map<nat, seq<Transaction>>,
                 story: map<nat, Story>,
                 slot: nat)
    requires Routed(delivered, queue, retired, story) && slot !in story
    ensures Routed(delivered, queue, retired, story[slot := Story([], 0)])
  {
    var story' := story[slot := Story([], 0)];
    forall s: nat ensures RoutedAt(delivered, queue, retired, story', s) {
      hide TxsOf;
      assert RoutedAt(delivered, queue, retired, story, s);
      assert SaidBy(story', s) == SaidBy(story, s);
    }
  }

  /** A slot ends: what it emitted last is queued. */
  lemma RouteTail(delivered: seq<SlotBatch>, queue: seq<SlotBatch>, retired: map<nat, seq<Transaction>>,
                  story: map<nat, Story>,
                  slot: nat, tail: seq<Transaction>)
    requires Routed(delivered, queue, retired, story) && slot in story
    ensures Routed(delivered, queue + BatchOf(slot, tail), Retire(retired, slot, story[slot].emitted + tail),
                   story - {slot})
  {
    var queue', story' := queue + BatchOf(slot, tail), story - {slot};
    var retired' := Retire(retired, slot, story[slot].emitted + tail);
    forall s: nat ensures RoutedAt(delivered, queue', retired', story', s) {
      hide TxsOf, BatchOf;
      assert RoutedAt(delivered, queue, retired, story, s);
      TxsOfConcat(queue, BatchOf(slot, tail), s);
      TxsOfBatch(slot, tail, s);
      MovesOn(retired, story, slot, tail, s);
    }
  }

  lemma MovesOn(retired: map<nat, seq<Transaction>>, story: map<nat, Story>, slot: nat, tail: seq<Transaction>, s: nat)
    requires slot in story
    ensures multiset(RetiredOf(Retire(retired, slot, story[slot].emitted + tail), s))
            + multiset(SaidBy(story - {slot}, s))
            == multiset(RetiredOf(retired, s)) + multiset(SaidBy(story, s)) + multiset(if slot == s then tail else [])
  {
    var retired' := Retire(retired, slot, story[slot].emitted + tail);
    if s == slot {
      assert RetiredOf(retired', s) == RetiredOf(retired, s) + story[slot].emitted + tail;
    }
  }

  /** Slot `s` has ended after emitting `txs`. */
  ghost function Retire(retired: map<nat, seq<Transaction>>, s: nat, txs: seq<Transaction>): map<nat,
                        seq<Transaction>> {
    retired[s := RetiredOf(retired, s) + txs]
  }

  /** The oldest queued batch is handed out. */
  lemma RoutePop(delivered: seq<SlotBatch>, queue: seq<SlotBatch>, retired: map<nat, seq<Transaction>>,
                 story: map<nat, Story>)
    requires Routed(delivered, queue, retired, story) && queue != []
    ensures Routed(delivered + [queue[0]], queue[1..], retired, story)
  {
    hide TxsOf;
    forall s: nat ensures RoutedAt(delivered + [queue[0]], queue[1..], retired, story, s) {
      assert RoutedAt(delivered, queue, retired, story, s);
      TxsOfConcat(delivered, [queue[0]], s);
      assert queue == [queue[0]] + queue[1..];
      TxsOfConcat([queue[0]], queue[1..], s);
    }
  }

  // ---------------------------------------------------------------------------
  // Sums over the live slots

  ghost function Total(m: map<nat, nat>): nat
    decreases |m|
  {
    if m == map[] then 0
    else
      var k :| k in m;
      m[k] + Total(m - {k})
  }

  /** Any slot may be counted first. */
  lemma {:induction false} TotalWithout(m: map<nat, nat>, k: nat)
    requires k in m
    ensures Total(m) == m[k] + Total(m - {k})
    decreases |m|
  {
    var j :| j in m && Total(m) == m[j] + Total(m - {j});
    if j != k {
      assert (m - {j}) - {k} == (m - {k}) - {j};
      TotalWithout(m - {j}, k);
      TotalWithout(m - {k}, j);
    }
  }

  /** The number of finished batches of each live slot. */
  ghost function BatchCounts(story: map<nat, Story>): map<nat, nat> {
    map s | s in story :: story[s].batches
  }

  lemma TotalAfter(story: map<nat, Story>, s: nat, told: Story)
    ensures Total(BatchCounts(story[s := told])) == told.batches + Total(BatchCounts(story - {s}))
    ensures s in story ==> Total(BatchCounts(story)) == story[s].batches + Total(BatchCounts(story - {s}))
  {
    var after := BatchCounts(story[s := told]);
    TotalWithout(after, s);
    assert after - {s} == BatchCounts(story - {s});
    if s in story {
      TotalWithout(BatchCounts(story), s);
      assert BatchCounts(story) - {s} == BatchCounts(story - {s});
    }
  }
}
