/** The incremental decoder of decoder.go and its agreement with the one-shot decoder. */
module Streaming {
  import opened Wire
  import opened Transactions
  import opened Decoder
  import opened Batches

  // ---------------------------------------------------------------------------
  // What has been decoded of a buffer that may still grow

  /** `left` entries remain from `cursor` on; `failed` if the next one is in error. */
  datatype Drained = Drained(cursor: nat, left: nat, txs: seq<Transaction>, failed: bool)

  /** Decode entries one by one until one is unfinished or in error. */
  function Drain(b: Bytes, pos: nat, n: nat): (d: Drained)
    ensures d.left <= n
    decreases n
  {
    if n == 0 then Drained(pos, 0, [], false)
    else
      match EntryAt(b, pos)
      case Complete(p, txs) => var d := Drain(b, p, n - 1); d.(txs := txs + d.txs)
      case Incomplete => Drained(pos, n, [], false)
      case Malformed => Drained(pos, n, [], true)
  }

  /** Drain the entries after the count at the front of the buffer. */
  function DrainBuffer(b: Bytes): Drained
    requires |b| >= 8
  {
    Drain(b, 8, EntryCount(b, 0))
  }

  /** The buffer announces too many entries, or an entry reached so far is in error. */
  predicate Fails(b: Bytes) {
    |b| >= 8 && (EntryCount(b, 0) > MAX_ENTRY_COUNT || DrainBuffer(b).failed)
  }

  /** The transactions of all entries reached so far, in order. */
  function Yielded(b: Bytes): seq<Transaction> {
    if |b| < 8 then [] else DrainBuffer(b).txs
  }

  /** Every announced entry has been reached. */
  predicate AllYielded(b: Bytes) {
    |b| >= 8 && DrainBuffer(b).left == 0
  }

  /** Draining a longer buffer continues where draining its prefix stopped. */
  lemma {:induction false} DrainExtends(b: Bytes, rest: Bytes, pos: nat, n: nat)
    requires !Drain(b, pos, n).failed
    ensures var d := Drain(b, pos, n);
            var e := Drain(b + rest, d.cursor, d.left);
            Drain(b + rest, pos, n) == e.(txs := d.txs + e.txs)
    decreases n
  {
    hide EntryAt;
    assert Around([], b, rest) == b + rest;
    if n != 0 {
      EntryEmbeds([], b, rest, pos);
      if EntryAt(b, pos).Complete? {
        var (p, txs) := EntryAt(b, pos).Extract();
        DrainExtends(b, rest, p, n - 1);
        var d := Drain(b, p, n - 1);
        var e := Drain(b + rest, d.cursor, d.left);
        assert txs + (d.txs + e.txs) == (txs + d.txs) + e.txs;
      } else {
        var e := Drain(b + rest, pos, n);
        assert [] + e.txs == e.txs;
      }
    } else {
      assert Drain(b + rest, pos, 0).txs + [] == [];
    }
  }

  /** Draining to the end is decoding all entries. */
  lemma {:induction false} DrainIsEntries(b: Bytes, pos: nat, n: nat)
    ensures Drain(b, pos, n).left == 0 <==> EntriesAt(b, pos, n).Complete?
    ensures Drain(b, pos, n).left == 0 ==>
              && !Drain(b, pos, n).failed
              && EntriesAt(b, pos, n) == Complete(Drain(b, pos, n).cursor, Drain(b, pos, n).txs)
    decreases n
  {
    hide EntryAt;
    if n != 0 && EntryAt(b, pos).Complete? {
      DrainIsEntries(b, EntryAt(b, pos).next, n - 1);
    }
  }

  lemma CountStable(b: Bytes, rest: Bytes)
    requires |b| >= 8
    ensures EntryCount(b + rest, 0) == EntryCount(b, 0)
  {
    hide LittleEndian;
    LittleEndianEmbeds([], b, rest, 0, 8);
    assert Around([], b, rest) == b + rest;
  }

  /** What a decoder has yielded never changes: it is a prefix of what any longer
      buffer yields, whether or not that buffer is in error further on. */
  lemma YieldedIsPrefix(b: Bytes, rest: Bytes)
    requires !Fails(b)
    ensures Yielded(b) <= Yielded(b + rest)
  {
    hide EntryAt, LittleEndian;
    if |b| >= 8 {
      CountStable(b, rest);
      DrainExtends(b, rest, 8, EntryCount(b, 0));
    }
  }

  /** With no error so far, every entry has been yielded exactly when the one-shot
      decoder accepts the buffer, and then both give the same transactions. */
  lemma StreamingAgreesWithBatch(b: Bytes)
    requires !Fails(b)
    ensures AllYielded(b) <==> BatchAt(b, 0).Batch?
    ensures AllYielded(b) ==> BatchAt(b, 0).txs == Yielded(b)
  {
    hide EntryAt, LittleEndian;
    if |b| >= 8 {
      var n := EntryCount(b, 0);
      DrainIsEntries(b, 8, n);
      EntriesBounds(b, 8, n);
    }
  }

  /** A buffer the one-shot decoder accepts is not in error as a whole. */
  lemma BatchDoesNotFail(b: Bytes)
    requires BatchAt(b, 0).Batch?
    ensures !Fails(b) && AllYielded(b)
  {
    hide EntryAt, LittleEndian;
    DrainIsEntries(b, 8, EntryCount(b, 0));
  }

  /** Before the first entry's own count is here, only an entry count above 50,000 is an error. */
  lemma CountAlone(b: Bytes)
    requires |b| < 56
    ensures Fails(b) <==> |b| >= 8 && LittleEndian(b, 0, 8) > 50_000
  {
    hide LittleEndian, Many;
    if |b| >= 8 {
      EntryNeedsBytes(b, 8);
    }
  }

  /** The buffer stops inside an entry whose announced count is ahead of its bytes. */
  predicate StopsShort(b: Bytes) {
    |b| >= 8 && DrainBuffer(b).left > 0 && CountOutruns(b, DrainBuffer(b).cursor)
  }

  lemma {:induction false} DrainOfDecodable(b: Bytes, rest: Bytes, pos: nat, n: nat)
    requires EntriesAt(b + rest, pos, n).Complete?
    ensures var d := Drain(b, pos, n); d.failed <==> d.left > 0 && CountOutruns(b, d.cursor)
    decreases n
  {
    hide EntryAt, CountOutruns;
    if n != 0 {
      CurableEntryError(b, rest, pos);
      if EntryAt(b, pos).Complete? {
        assert Around([], b, rest) == b + rest;
        EntryEmbeds([], b, rest, pos);
        DrainOfDecodable(b, rest, EntryAt(b, pos).next, n - 1);
      }
    }
  }

  /** On a prefix of a decodable batch the only possible error is a count that is
      ahead of the bytes received, and that always is one. */
  lemma PrefixFailsExactlyWhenShort(b: Bytes, rest: Bytes)
    requires BatchAt(b + rest, 0).Batch?
    ensures Fails(b) <==> StopsShort(b)
  {
    hide EntryAt, LittleEndian, CountOutruns;
    if |b| >= 8 {
      CountStable(b, rest);
      DrainOfDecodable(b, rest, 8, EntryCount(b, 0));
    }
  }

  // ---------------------------------------------------------------------------
  // The decoder object

  class StreamingDecoder {
    var buffer: Bytes
    var cursor: nat
    var expectedCount: nat
    var expectedCountSet: bool
    var entriesYielded: nat

    /** The fields are those of a decoder that has drained its buffer without error. */
    ghost predicate Valid()
      reads this
    {
      && !Fails(buffer)
      && expectedCountSet == (|buffer| >= 8)
      && (!expectedCountSet ==> cursor == 0 && entriesYielded == 0)
      && (expectedCountSet ==>
            && expectedCount == EntryCount(buffer, 0)
            && cursor == DrainBuffer(buffer).cursor
            && entriesYielded == expectedCount - DrainBuffer(buffer).left)
    }

    constructor ()
      ensures Valid() && buffer == []
    {
      buffer, cursor, expectedCount, expectedCountSet, entriesYielded := [], 0, 0, false, 0;
    }

    method Reset()
      modifies this
      ensures Valid() && buffer == []
    {
      buffer, cursor, expectedCount, expectedCountSet, entriesYielded := [], 0, 0, false, 0;
    }

    /** Append a payload and decode as far as possible. An error is reported exactly
        when the extended buffer is in error; otherwise the transactions returned are
        the ones the extension made available. */
    method Push(payload: Bytes) returns (ok: bool, txs: seq<Transaction>)
      requires Valid()
      modifies this
      ensures ok <==> !Fails(old(buffer) + payload)
      ensures ok ==> Valid() && buffer == old(buffer) + payload
      ensures ok ==> Yielded(buffer) == Yielded(old(buffer)) + txs
      ensures !ok ==> txs == []
      ensures 8 <= |old(buffer) + payload| < 56 ==> (ok <==> LittleEndian(old(buffer) + payload, 0, 8) <= 50_000)
    {
      hide EntryAt, LittleEndian, Drain;
      ghost var before := buffer;
      buffer := buffer + payload;
      if |buffer| < 56 {
        CountAlone(buffer);
      }
      if !expectedCountSet && |buffer| >= cursor + 8 {
        var count := EntryCount(buffer, cursor);
        if count > MAX_ENTRY_COUNT {
          return false, [];
        }
        cursor, expectedCount, expectedCountSet := cursor + 8, count, true;
      }
      if !expectedCountSet {
        return true, [];
      }
      ResumePoint(before, payload, cursor, expectedCount - entriesYielded);
      ok, txs := DrainRest();
    }

    /** The entry loop of tryDeserialize. */
    method DrainRest() returns (ok: bool, txs: seq<Transaction>)
      requires expectedCountSet && entriesYielded <= expectedCount
      modifies this
      ensures buffer == old(buffer) && expectedCountSet && expectedCount == old(expectedCount)
      ensures var d := Drain(buffer, old(cursor), expectedCount - old(entriesYielded));
              && ok == !d.failed
              && (ok ==> txs == d.txs && cursor == d.cursor && entriesYielded == expectedCount - d.left)
      ensures !ok ==> txs == []
    {
      hide EntryAt;
      txs := [];
      ghost var whole := Drain(buffer, cursor, expectedCount - entriesYielded);
      while entriesYielded < expectedCount
        invariant buffer == old(buffer) && expectedCountSet && expectedCount == old(expectedCount)
        invariant entriesYielded <= expectedCount
        invariant var d := Drain(buffer, cursor, expectedCount - entriesYielded);
                  whole == d.(txs := txs + d.txs)
        decreases expectedCount - entriesYielded
      {
        if cursor >= |buffer| {
          EntryNeedsBytes(buffer, cursor);
          break;
        }
        var entry := DecodeEntry(buffer, cursor);
        if entry.Malformed? {
          return false, [];
        }
        if entry.Incomplete? {
          break;
        }
        ghost var d := Drain(buffer, entry.next, expectedCount - entriesYielded - 1);
        assert txs + (entry.value + d.txs) == (txs + entry.value) + d.txs;
        cursor := entry.next;
        entriesYielded := entriesYielded + 1;
        txs := txs + entry.value;
      }
      ok := true;
    }
  }

  /** Where a push resumes, in terms of the buffer before it. */
  lemma ResumePoint(before: Bytes, payload: Bytes, cursor: nat, left: nat)
    requires !Fails(before) && |before + payload| >= 8
    requires |before| >= 8 || EntryCount(before + payload, 0) <= MAX_ENTRY_COUNT
    requires |before| < 8 ==> cursor == 8 && left == EntryCount(before + payload, 0)
    requires |before| >= 8 ==> cursor == DrainBuffer(before).cursor && left == DrainBuffer(before).left
    ensures EntryCount(before + payload, 0) <= MAX_ENTRY_COUNT
    ensures |before| >= 8 ==> EntryCount(before + payload, 0) == EntryCount(before, 0)
    ensures var e := Drain(before + payload, cursor, left);
            DrainBuffer(before + payload) == e.(txs := Yielded(before) + e.txs)
  {
    hide EntryAt, LittleEndian;
    if |before| >= 8 {
      CountStable(before, payload);
      DrainExtends(before, payload, 8, EntryCount(before, 0));
    } else {
      var e := Drain(before + payload, cursor, left);
      assert [] + e.txs == e.txs;
    }
  }

  // ---------------------------------------------------------------------------
  // Whole runs: a batch cut into arbitrary chunks

  function Joined(chunks: seq<Bytes>): Bytes {
    if chunks == [] then [] else Joined(chunks[..|chunks| - 1]) + chunks[|chunks| - 1]
  }

  lemma {:induction false} JoinedSplit(chunks: seq<Bytes>, k: nat) returns (rest: Bytes)
    requires k <= |chunks|
    ensures Joined(chunks) == Joined(chunks[..k]) + rest
    decreases |chunks|
  {
    if k == |chunks| {
      assert chunks[..k] == chunks;
      rest := [];
    } else {
      var front := chunks[..|chunks| - 1];
      var r := JoinedSplit(front, k);
      assert front[..k] == chunks[..k];
      rest := r + chunks[|chunks| - 1];
    }
  }

  /** Push the chunks in order until one is refused. Whatever the chunking, the
      transactions are a prefix of the sequential decode, and all of them if no push
      fails; a decodable batch fails exactly if a chunk ends where it stops short. */
  method PushAll(decoder: StreamingDecoder, chunks: seq<Bytes>) returns (ok: bool, txs: seq<Transaction>)
    requires decoder.Valid() && decoder.buffer == []
    modifies decoder
    ensures ok <==> forall k :: 0 <= k <= |chunks| ==> !Fails(Joined(chunks[..k]))
    ensures txs <= Yielded(Joined(chunks))
    ensures ok ==> txs == Yielded(Joined(chunks))
    ensures BatchAt(Joined(chunks), 0).Batch? ==>
              && (ok <==> forall k :: 0 <= k <= |chunks| ==> !StopsShort(Joined(chunks[..k])))
              && (ok ==> txs == BatchAt(Joined(chunks), 0).txs)
  {
    hide EntryAt, LittleEndian, Drain, Fails, StopsShort, BatchAt, Yielded, AllYielded;
    txs := [];
    assert chunks[..0] == [];
    YieldedNothing();
    forall k | 0 <= k <= |chunks| && BatchAt(Joined(chunks), 0).Batch?
      ensures Fails(Joined(chunks[..k])) <==> StopsShort(Joined(chunks[..k]))
    {
      var rest := JoinedSplit(chunks, k);
      PrefixFailsExactlyWhenShort(Joined(chunks[..k]), rest);
    }
    for i := 0 to |chunks|
      invariant decoder.Valid() && decoder.buffer == Joined(chunks[..i])
      invariant forall k :: 0 <= k <= i ==> !Fails(Joined(chunks[..k]))
      invariant txs == Yielded(Joined(chunks[..i]))
    {
      assert chunks[..i + 1][..i] == chunks[..i];
      var more;
      ok, more := decoder.Push(chunks[i]);
      if !ok {
        var rest := JoinedSplit(chunks, i);
        YieldedIsPrefix(Joined(chunks[..i]), rest);
        return false, txs;
      }
      txs := txs + more;
    }
    assert chunks[..|chunks|] == chunks;
    if BatchAt(Joined(chunks), 0).Batch? {
      BatchDoesNotFail(Joined(chunks));
      StreamingAgreesWithBatch(Joined(chunks));
    }
    ok := true;
  }

  lemma YieldedNothing()
    ensures Yielded([]) == [] && !Fails([])
  {}
}
