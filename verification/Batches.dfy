/** Whole batches: DecodeBatch and DecodeConcatenated of decoder.go. */
module Batches {
  import opened Wire
  import opened Transactions
  import opened Decoder

  const MAX_ENTRY_COUNT := 50_000

  // ---------------------------------------------------------------------------
  // What a batch means

  /** Transactions of `n` consecutive entries. */
  function EntriesAt(b: Bytes, pos: nat, n: nat): Parsed<seq<Transaction>>
    decreases n
  {
    if n == 0 then Complete(pos, [])
    else
      var (p, txs) :- EntryAt(b, pos);
      var (q, more) :- EntriesAt(b, p, n - 1);
      Complete(q, txs + more)
  }

  function EntryCount(b: Bytes, pos: nat): nat
    requires pos + 8 <= |b|
  {
    LittleEndian(b, pos, 8)
  }

  /** validateVecPrefix: a plausible entry count for the bytes that follow. */
  predicate VecPrefixOk(b: Bytes, pos: nat) {
    && pos + 8 <= |b|
    && EntryCount(b, pos) <= MAX_ENTRY_COUNT
    && (EntryCount(b, pos) > 0 ==> EntryCount(b, pos) * 48 <= |b| - pos)
  }

  /** `NotABatch` is the nil result for an implausible prefix. */
  datatype Batch = NotABatch | BadBatch | Batch(next: nat, txs: seq<Transaction>)

  function BatchAt(b: Bytes, pos: nat): Batch {
    if !VecPrefixOk(b, pos) then NotABatch
    else
      match EntriesAt(b, pos + 8, EntryCount(b, pos))
      case Complete(next, txs) => Batch(next, txs)
      case _ => BadBatch
  }

  lemma {:induction false} EntriesBounds(b: Bytes, pos: nat, n: nat)
    requires pos <= |b|
    ensures EntriesAt(b, pos, n).Complete? ==> pos + 48 * n <= EntriesAt(b, pos, n).next <= |b|
    decreases n
  {
    hide EntryAt;
    if n != 0 {
      EntryEmbeds([], b, [], pos);
      if EntryAt(b, pos).Complete? {
        EntriesBounds(b, EntryAt(b, pos).next, n - 1);
      }
    }
  }

  lemma BatchBounds(b: Bytes, pos: nat)
    requires BatchAt(b, pos).Batch?
    ensures pos + 8 <= BatchAt(b, pos).next <= |b|
  {
    hide EntryAt, LittleEndian;
    EntriesBounds(b, pos + 8, EntryCount(b, pos));
  }

  /** The batches at `pos` one after the other, up to the first that does not decode. */
  function ConcatenatedAt(b: Bytes, pos: nat): seq<Transaction>
    decreases |b| - pos
  {
    if pos + 8 > |b| then []
    else
      match BatchAt(b, pos)
      case Batch(next, txs) => BatchBounds(b, pos); txs + ConcatenatedAt(b, next)
      case _ => []
  }

  // ---------------------------------------------------------------------------
  // The decoding loops

  lemma EntriesStep(b: Bytes, pos: nat, n: nat, done: seq<Transaction>)
    requires n > 0 && EntryAt(b, pos).Complete?
    ensures After(done, EntriesAt(b, pos, n))
         == After(done + EntryAt(b, pos).value, EntriesAt(b, EntryAt(b, pos).next, n - 1))
  {
    hide EntryAt;
    var (p, txs) := EntryAt(b, pos).Extract();
    var rest := EntriesAt(b, p, n - 1);
    if rest.Complete? {
      assert done + (txs + rest.value) == done + txs + rest.value;
    }
  }

  /** The entry loop shared by DecodeBatch and DecodeConcatenated. */
  method DecodeEntries(b: Bytes, pos: nat, n: nat) returns (r: Parsed<seq<Transaction>>)
    ensures EntriesAt(b, pos, n).Complete? ==> r == EntriesAt(b, pos, n)
    ensures !EntriesAt(b, pos, n).Complete? ==> !r.Complete?
  {
    hide EntryAt;
    var txs: seq<Transaction> := [];
    var p: nat := pos;
    AfterNothing(EntriesAt(b, pos, n));
    for i := 0 to n
      invariant After(txs, EntriesAt(b, p, n - i)) == EntriesAt(b, pos, n)
    {
      if p >= |b| {
        EntryNeedsBytes(b, p);
        return Malformed;
      }
      var entry := DecodeEntry(b, p);
      if entry.IsFailure() {
        return Malformed;
      }
      EntriesStep(b, p, n - i, txs);
      txs, p := txs + entry.value, entry.next;
    }
    AfterAll(txs, p);
    r := Complete(p, txs);
  }

  lemma EntryNeedsBytes(b: Bytes, pos: nat)
    requires pos + 48 > |b|
    ensures EntryAt(b, pos) == Incomplete
  {}

  /** No batch at all: no room for the count, a count above 50,000, or fewer than 48 bytes an
      entry, the count's own bytes among them. */
  predicate Implausible(b: Bytes) {
    |b| < 8 || LittleEndian(b, 0, 8) > 50_000 || LittleEndian(b, 0, 8) * 48 > |b|
  }

  lemma BatchRefusals(b: Bytes)
    ensures BatchAt(b, 0) == NotABatch <==> Implausible(b)
  {
    hide EntriesAt, LittleEndian;
  }

  /** DecodeBatch. */
  method DecodeBatch(b: Bytes) returns (r: Batch)
    ensures r == BatchAt(b, 0)
    ensures r == NotABatch <==> |b| < 8 || LittleEndian(b, 0, 8) > 50_000 || LittleEndian(b, 0, 8) * 48 > |b|
  {
    hide EntryAt, LittleEndian;
    BatchRefusals(b);
    if !VecPrefixOk(b, 0) {
      return NotABatch;
    }
    var entries := DecodeEntries(b, 8, EntryCount(b, 0));
    if entries.IsFailure() {
      return BadBatch;
    }
    r := Batch(entries.next, entries.value);
  }

  /** DecodeConcatenated. */
  method DecodeConcatenated(b: Bytes) returns (txs: seq<Transaction>)
    ensures txs == ConcatenatedAt(b, 0)
  {
    hide EntryAt, LittleEndian;
    txs := [];
    var offset: nat := 0;
    assert [] + ConcatenatedAt(b, 0) == ConcatenatedAt(b, 0);
    while offset + 8 <= |b|
      invariant txs + ConcatenatedAt(b, offset) == ConcatenatedAt(b, 0)
      decreases |b| - offset
    {
      if !VecPrefixOk(b, offset) {
        break;
      }
      var entries := DecodeEntries(b, offset + 8, EntryCount(b, offset));
      if entries.IsFailure() {
        break;
      }
      BatchBounds(b, offset);
      assert (txs + entries.value) + ConcatenatedAt(b, entries.next)
        == txs + (entries.value + ConcatenatedAt(b, entries.next));
      txs, offset := txs + entries.value, entries.next;
    }
    assert ConcatenatedAt(b, offset) == [];
  }

  // ---------------------------------------------------------------------------
  // Decoding does not depend on what precedes, nor a complete decode on what follows

  lemma {:induction false} EntriesEmbed(pre: Bytes, b: Bytes, rest: Bytes, pos: nat, n: nat)
    ensures CompleteEmbeds(EntriesAt(b, pos, n), EntriesAt(Around(pre, b, rest), |pre| + pos, n), |pre|, rest == [])
    decreases n
  {
    hide EntryAt, Around;
    if n != 0 {
      EntryEmbeds(pre, b, rest, pos);
      if EntryAt(b, pos).Complete? {
        EntriesEmbed(pre, b, rest, EntryAt(b, pos).next, n - 1);
      }
    }
  }

  ghost function Shifted(r: Batch, shift: nat): Batch {
    if r.Batch? then Batch(shift + r.next, r.txs) else r
  }

  lemma BatchShift(pre: Bytes, b: Bytes, pos: nat)
    ensures BatchAt(pre + b, |pre| + pos) == Shifted(BatchAt(b, pos), |pre|)
  {
    hide EntryAt, LittleEndian;
    assert Around(pre, b, []) == pre + b;
    if pos + 8 <= |b| {
      LittleEndianEmbeds(pre, b, [], pos, 8);
      EntriesEmbed(pre, b, [], pos + 8, EntryCount(b, pos));
    }
  }

  /** A batch that decodes is not affected by what follows it. */
  lemma BatchExtends(b: Bytes, rest: Bytes)
    requires BatchAt(b, 0).Batch?
    ensures BatchAt(b + rest, 0) == BatchAt(b, 0)
  {
    hide EntryAt, LittleEndian;
    assert Around([], b, rest) == b + rest;
    LittleEndianEmbeds([], b, rest, 0, 8);
    EntriesEmbed([], b, rest, 8, EntryCount(b, 0));
  }

  lemma {:induction false} ConcatenatedShift(pre: Bytes, b: Bytes, pos: nat)
    ensures ConcatenatedAt(pre + b, |pre| + pos) == ConcatenatedAt(b, pos)
    decreases |b| - pos
  {
    hide BatchAt;
    if pos + 8 <= |b| {
      BatchShift(pre, b, pos);
      if BatchAt(b, pos).Batch? {
        BatchBounds(b, pos);
        ConcatenatedShift(pre, b, BatchAt(b, pos).next);
      }
    }
  }

  lemma BatchNeedsCount(b: Bytes)
    ensures BatchAt(b, 0).Batch? ==> |b| >= 8
  {
    hide EntriesAt, LittleEndian;
  }

  /** DecodeConcatenated is the first batch followed by DecodeConcatenated of the rest,
      and nothing when the first batch does not decode. */
  lemma ConcatenatedUnfolds(b: Bytes)
    ensures BatchAt(b, 0).Batch? ==>
              && BatchAt(b, 0).next <= |b|
              && ConcatenatedAt(b, 0) == BatchAt(b, 0).txs + ConcatenatedAt(b[BatchAt(b, 0).next..], 0)
    ensures !BatchAt(b, 0).Batch? ==> ConcatenatedAt(b, 0) == []
  {
    hide BatchAt;
    BatchNeedsCount(b);
    if BatchAt(b, 0).Batch? {
      var next := BatchAt(b, 0).next;
      BatchBounds(b, 0);
      assert b[..next] + b[next..] == b;
      ConcatenatedShift(b[..next], b[next..], 0);
    }
  }
}
