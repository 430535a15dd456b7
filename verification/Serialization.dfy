/** A serializer for transactions and entry batches, built on the repository's compact
    length encoding, and the proof that decoding inverts it. */
module Serialization {
  import opened Wire
  import opened Transactions
  import opened Batches
  import opened Streaming

  const U16_LIMIT := 0x10000

  function ShortVecBytes(v: Bytes): Bytes {
    CompactU16Bytes(|v|) + v
  }

  function Flatten(parts: seq<Bytes>): Bytes {
    if parts == [] then [] else parts[0] + Flatten(parts[1..])
  }

  function ManyBytes<T>(write: T -> Bytes, xs: seq<T>): Bytes {
    if xs == [] then [] else write(xs[0]) + ManyBytes(write, xs[1..])
  }

  function InstructionBytes(x: Instruction): Bytes {
    [x.programIdIndex] + ShortVecBytes(x.accounts) + ShortVecBytes(x.data)
  }

  function LookupBytes(x: Lookup): Bytes {
    x.accountKey + ShortVecBytes(x.writableIndexes) + ShortVecBytes(x.readonlyIndexes)
  }

  function BodyBytes(x: Body): Bytes {
    x.header + CompactU16Bytes(|x.accountKeys|) + Flatten(x.accountKeys) + x.recentBlockhash
    + CompactU16Bytes(|x.instructions|) + ManyBytes(InstructionBytes, x.instructions)
  }

  function LookupsBytes(xs: seq<Lookup>): Bytes {
    CompactU16Bytes(|xs|) + ManyBytes(LookupBytes, xs)
  }

  function MessageBytes(x: Message): Bytes {
    if x.isV0 then [ByteOf(0x80)] + BodyBytes(x.body) + LookupsBytes(x.addressTableLookups)
    else BodyBytes(x.body)
  }

  function TransactionBytes(x: Transaction): Bytes {
    CompactU16Bytes(|x.signatures|) + Flatten(x.signatures) + MessageBytes(x.message)
  }

  // ---------------------------------------------------------------------------
  // Well-formed values: fixed-size fields have their size, lengths fit 16 bits

  predicate AllSized(parts: seq<Bytes>, size: nat) {
    forall i :: 0 <= i < |parts| ==> |parts[i]| == size
  }

  predicate GoodInstruction(x: Instruction) {
    |x.accounts| < U16_LIMIT && |x.data| < U16_LIMIT
  }

  predicate GoodLookup(x: Lookup) {
    |x.accountKey| == 32 && |x.writableIndexes| < U16_LIMIT && |x.readonlyIndexes| < U16_LIMIT
  }

  predicate GoodBody(x: Body) {
    && |x.header| == 3 && |x.recentBlockhash| == 32
    && |x.accountKeys| < U16_LIMIT && AllSized(x.accountKeys, 32)
    && |x.instructions| < U16_LIMIT && forall i :: 0 <= i < |x.instructions| ==> GoodInstruction(x.instructions[i])
  }

  /** A legacy message carries no lookups and its first byte must not look like a version. */
  predicate GoodMessage(x: Message) {
    && GoodBody(x.body)
    && |x.addressTableLookups| < U16_LIMIT
    && (forall i :: 0 <= i < |x.addressTableLookups| ==> GoodLookup(x.addressTableLookups[i]))
    && (!x.isV0 ==> Value(x.body.header[0]) < 0x80 && x.addressTableLookups == [])
  }

  predicate GoodTransaction(x: Transaction) {
    |x.signatures| <= 256 && AllSized(x.signatures, 64) && GoodMessage(x.message)
  }

  // ---------------------------------------------------------------------------
  // Round trips

  lemma CompactAt(pre: Bytes, v: nat, rest: Bytes)
    requires v < U16_LIMIT
    ensures CompactU16(Around(pre, CompactU16Bytes(v), rest), |pre|) == Complete(|pre| + |CompactU16Bytes(v)|, v)
  {
    CompactU16RoundTrip(v);
    CompactU16Embeds(pre, CompactU16Bytes(v), rest, 0);
  }

  lemma TakeAt(pre: Bytes, v: Bytes, rest: Bytes)
    ensures Take(Around(pre, v, rest), |pre|, |v|) == Complete(|pre| + |v|, v)
  {
    AroundAt(pre, v, rest, 0, |v|);
    assert v[0..|v|] == v;
  }

  lemma ShortVecAt(pre: Bytes, v: Bytes, rest: Bytes)
    requires |v| < U16_LIMIT
    ensures ShortVec(Around(pre, ShortVecBytes(v), rest), |pre|) == Complete(|pre| + |ShortVecBytes(v)|, v)
  {
    hide CompactU16, CompactU16Bytes;
    var c := CompactU16Bytes(|v|);
    var all := Around(pre, ShortVecBytes(v), rest);
    assert all == Around(pre, c, v + rest) == Around(pre + c, v, rest);
    CompactAt(pre, |v|, v + rest);
    TakeAt(pre + c, v, rest);
  }

  lemma {:induction false} FlattenLength(parts: seq<Bytes>, size: nat)
    requires AllSized(parts, size)
    ensures |Flatten(parts)| == |parts| * size
  {
    if parts != [] {
      FlattenLength(parts[1..], size);
    }
  }

  lemma {:induction false} SplitFlatten(pre: Bytes, parts: seq<Bytes>, rest: Bytes, size: nat)
    requires AllSized(parts, size)
    ensures |pre| + |parts| * size <= |Around(pre, Flatten(parts), rest)|
    ensures SplitChunks(Around(pre, Flatten(parts), rest), |pre|, |parts|, size) == parts
    decreases parts
  {
    FlattenLength(parts, size);
    if parts != [] {
      var head, tail := parts[0], parts[1..];
      SplitFlatten(pre + head, tail, rest, size);
      assert Around(pre, Flatten(parts), rest) == Around(pre + head, Flatten(tail), rest);
      AroundAt(pre, head, Flatten(tail) + rest, 0, size);
      assert Around(pre, Flatten(parts), rest) == Around(pre, head, Flatten(tail) + rest);
      assert |parts| * size == size + (|parts| - 1) * size;
      assert head[0..size] == head;
    }
  }

  lemma ChunksAt(pre: Bytes, parts: seq<Bytes>, rest: Bytes, size: nat)
    requires AllSized(parts, size)
    ensures Chunks(Around(pre, Flatten(parts), rest), |pre|, |parts|, size) == Complete(|pre| + |Flatten(parts)|, parts)
  {
    SplitFlatten(pre, parts, rest, size);
    FlattenLength(parts, size);
  }

  lemma InstructionAtRoundTrip(pre: Bytes, x: Instruction, rest: Bytes)
    requires GoodInstruction(x)
    ensures InstructionAt(Around(pre, InstructionBytes(x), rest), |pre|) == Complete(|pre| + |InstructionBytes(x)|, x)
  {
    hide ShortVec, ShortVecBytes;
    var id, a, d := [x.programIdIndex], ShortVecBytes(x.accounts), ShortVecBytes(x.data);
    var all := Around(pre, InstructionBytes(x), rest);
    AroundAt(pre, id, a + d + rest, 0, 1);
    assert all == Around(pre, id, a + d + rest);
    ShortVecAt(pre + id, x.accounts, d + rest);
    assert all == Around(pre + id, a, d + rest);
    ShortVecAt(pre + id + a, x.data, rest);
    assert all == Around(pre + id + a, d, rest);
  }

  lemma LookupAtRoundTrip(pre: Bytes, x: Lookup, rest: Bytes)
    requires GoodLookup(x)
    ensures LookupAt(Around(pre, LookupBytes(x), rest), |pre|) == Complete(|pre| + |LookupBytes(x)|, x)
  {
    hide ShortVec, ShortVecBytes;
    var k, w, r := x.accountKey, ShortVecBytes(x.writableIndexes), ShortVecBytes(x.readonlyIndexes);
    var all := Around(pre, LookupBytes(x), rest);
    TakeAt(pre, k, w + r + rest);
    assert all == Around(pre, k, w + r + rest);
    ShortVecAt(pre + k, x.writableIndexes, r + rest);
    assert all == Around(pre + k, w, r + rest);
    ShortVecAt(pre + k + w, x.readonlyIndexes, rest);
    assert all == Around(pre + k + w, r, rest);
  }

  lemma {:induction false} InstructionsAtRoundTrip(pre: Bytes, xs: seq<Instruction>, rest: Bytes)
    requires forall i :: 0 <= i < |xs| ==> GoodInstruction(xs[i])
    ensures Many(InstructionAt, Around(pre, ManyBytes(InstructionBytes, xs), rest), |pre|, |xs|)
         == Complete(|pre| + |ManyBytes(InstructionBytes, xs)|, xs)
    decreases xs
  {
    hide InstructionAt, InstructionBytes, GoodInstruction;
    if xs != [] {
      var head, tail := InstructionBytes(xs[0]), ManyBytes(InstructionBytes, xs[1..]);
      var all := Around(pre, ManyBytes(InstructionBytes, xs), rest);
      InstructionAtRoundTrip(pre, xs[0], tail + rest);
      assert all == Around(pre, head, tail + rest);
      InstructionsAtRoundTrip(pre + head, xs[1..], rest);
      assert all == Around(pre + head, tail, rest);
      assert [xs[0]] + xs[1..] == xs;
    }
  }

  lemma {:induction false} LookupListAtRoundTrip(pre: Bytes, xs: seq<Lookup>, rest: Bytes)
    requires forall i :: 0 <= i < |xs| ==> GoodLookup(xs[i])
    ensures Many(LookupAt, Around(pre, ManyBytes(LookupBytes, xs), rest), |pre|, |xs|)
         == Complete(|pre| + |ManyBytes(LookupBytes, xs)|, xs)
    decreases xs
  {
    hide LookupAt, LookupBytes, GoodLookup;
    if xs != [] {
      var head, tail := LookupBytes(xs[0]), ManyBytes(LookupBytes, xs[1..]);
      var all := Around(pre, ManyBytes(LookupBytes, xs), rest);
      LookupAtRoundTrip(pre, xs[0], tail + rest);
      assert all == Around(pre, head, tail + rest);
      LookupListAtRoundTrip(pre + head, xs[1..], rest);
      assert all == Around(pre + head, tail, rest);
      assert [xs[0]] + xs[1..] == xs;
    }
  }

  lemma LookupsAtRoundTrip(pre: Bytes, xs: seq<Lookup>, rest: Bytes)
    requires |xs| < U16_LIMIT && forall i :: 0 <= i < |xs| ==> GoodLookup(xs[i])
    ensures LookupsAt(Around(pre, LookupsBytes(xs), rest), |pre|) == Complete(|pre| + |LookupsBytes(xs)|, xs)
  {
    hide CompactU16, CompactU16Bytes, Many, ManyBytes;
    var c, list := CompactU16Bytes(|xs|), ManyBytes(LookupBytes, xs);
    var all := Around(pre, LookupsBytes(xs), rest);
    CompactAt(pre, |xs|, list + rest);
    assert all == Around(pre, c, list + rest);
    LookupListAtRoundTrip(pre + c, xs, rest);
    assert all == Around(pre + c, list, rest);
  }

  lemma BodyAtRoundTrip(pre: Bytes, x: Body, rest: Bytes)
    requires GoodBody(x)
    ensures BodyAt(Around(pre, BodyBytes(x), rest), |pre|) == Complete(|pre| + |BodyBytes(x)|, x)
  {
    hide CompactU16, CompactU16Bytes, Many, ManyBytes, Flatten, Take, Chunks;
    var h, c, k, s := x.header, CompactU16Bytes(|x.accountKeys|), Flatten(x.accountKeys), x.recentBlockhash;
    var n, m := CompactU16Bytes(|x.instructions|), ManyBytes(InstructionBytes, x.instructions);
    var all := Around(pre, BodyBytes(x), rest);
    TakeAt(pre, h, c + k + s + n + m + rest);
    assert all == Around(pre, h, c + k + s + n + m + rest);
    CompactAt(pre + h, |x.accountKeys|, k + s + n + m + rest);
    assert all == Around(pre + h, c, k + s + n + m + rest);
    ChunksAt(pre + h + c, x.accountKeys, s + n + m + rest, 32);
    assert all == Around(pre + h + c, k, s + n + m + rest);
    TakeAt(pre + h + c + k, s, n + m + rest);
    assert all == Around(pre + h + c + k, s, n + m + rest);
    CompactAt(pre + h + c + k + s, |x.instructions|, m + rest);
    assert all == Around(pre + h + c + k + s, n, m + rest);
    InstructionsAtRoundTrip(pre + h + c + k + s + n, x.instructions, rest);
    assert all == Around(pre + h + c + k + s + n, m, rest);
  }

  lemma BodyFirstByte(x: Body)
    requires GoodBody(x)
    ensures |BodyBytes(x)| > 0 && BodyBytes(x)[0] == x.header[0]
  {
    hide CompactU16Bytes, Flatten, ManyBytes;
  }

  lemma VersionedMessageAt(pre: Bytes, x: Message, rest: Bytes)
    requires GoodMessage(x) && x.isV0
    ensures MessageAt(Around(pre, MessageBytes(x), rest), |pre|) == Complete(|pre| + |MessageBytes(x)|, x)
  {
    hide BodyAt, LookupsAt, LookupsBytes, BodyBytes, Value, ByteOf, GoodBody, GoodLookup;
    var v, b, l := [ByteOf(0x80)], BodyBytes(x.body), LookupsBytes(x.addressTableLookups);
    var all := Around(pre, MessageBytes(x), rest);
    ValueOfByte(0x80);
    AroundAt(pre, v, b + l + rest, 0, 1);
    assert all == Around(pre, v, b + l + rest);
    BodyAtRoundTrip(pre + v, x.body, l + rest);
    assert all == Around(pre + v, b, l + rest);
    LookupsAtRoundTrip(pre + v + b, x.addressTableLookups, rest);
    assert all == Around(pre + v + b, l, rest);
  }

  lemma MessageAtRoundTrip(pre: Bytes, x: Message, rest: Bytes)
    requires GoodMessage(x)
    ensures MessageAt(Around(pre, MessageBytes(x), rest), |pre|) == Complete(|pre| + |MessageBytes(x)|, x)
  {
    hide BodyAt, LookupsAt, LookupsBytes, BodyBytes, Value, ByteOf, GoodLookup;
    if x.isV0 {
      VersionedMessageAt(pre, x, rest);
    } else {
      BodyAtRoundTrip(pre, x.body, rest);
      BodyFirstByte(x.body);
      AroundAt(pre, BodyBytes(x.body), rest, 0, 1);
    }
  }

  /** Decoding a serialized transaction, wherever it lies, gives it back and stops
      exactly at its end. */
  lemma TransactionRoundTrip(pre: Bytes, x: Transaction, rest: Bytes)
    requires GoodTransaction(x)
    ensures TransactionAt(Around(pre, TransactionBytes(x), rest), |pre|) == Complete(|pre| + |TransactionBytes(x)|, x)
  {
    hide MessageAt, MessageBytes, CompactU16, CompactU16Bytes, Flatten, Chunks, GoodMessage;
    var c, s, m := CompactU16Bytes(|x.signatures|), Flatten(x.signatures), MessageBytes(x.message);
    var all := Around(pre, TransactionBytes(x), rest);
    CompactAt(pre, |x.signatures|, s + m + rest);
    assert all == Around(pre, c, s + m + rest);
    ChunksAt(pre + c, x.signatures, m + rest, 64);
    assert all == Around(pre + c, s, m + rest);
    MessageAtRoundTrip(pre + c + s, x.message, rest);
    assert all == Around(pre + c + s, m, rest);
  }

  // ---------------------------------------------------------------------------
  // Entries and batches

  /** `prefix` is the 40 bytes of hash count and hash, which decoding skips. */
  datatype Entry = Entry(prefix: Bytes, txs: seq<Transaction>)

  function EntryBytes(x: Entry): Bytes {
    x.prefix + LittleEndianBytes(|x.txs|, 8) + ManyBytes(TransactionBytes, x.txs)
  }

  function BatchBytes(xs: seq<Entry>): Bytes {
    LittleEndianBytes(|xs|, 8) + ManyBytes(EntryBytes, xs)
  }

  ghost predicate GoodEntry(x: Entry) {
    |x.prefix| == 40 && |x.txs| < Exp256(8) && forall i :: 0 <= i < |x.txs| ==> GoodTransaction(x.txs[i])
  }

  function AllTransactions(xs: seq<Entry>): seq<Transaction> {
    if xs == [] then [] else xs[0].txs + AllTransactions(xs[1..])
  }

  lemma TransactionNotEmpty(x: Transaction)
    ensures |TransactionBytes(x)| >= 1
  {
    hide CompactU16Bytes, Flatten, MessageBytes;
  }

  lemma {:induction false} TransactionsAtRoundTrip(pre: Bytes, xs: seq<Transaction>, rest: Bytes)
    requires forall i :: 0 <= i < |xs| ==> GoodTransaction(xs[i])
    ensures Many(TransactionAt, Around(pre, ManyBytes(TransactionBytes, xs), rest), |pre|, |xs|)
         == Complete(|pre| + |ManyBytes(TransactionBytes, xs)|, xs)
    ensures |ManyBytes(TransactionBytes, xs)| >= |xs|
    decreases xs
  {
    hide TransactionAt, TransactionBytes, GoodTransaction;
    if xs != [] {
      var head, tail := TransactionBytes(xs[0]), ManyBytes(TransactionBytes, xs[1..]);
      var all := Around(pre, ManyBytes(TransactionBytes, xs), rest);
      TransactionNotEmpty(xs[0]);
      TransactionRoundTrip(pre, xs[0], tail + rest);
      assert all == Around(pre, head, tail + rest);
      TransactionsAtRoundTrip(pre + head, xs[1..], rest);
      assert all == Around(pre + head, tail, rest);
      assert [xs[0]] + xs[1..] == xs;
    }
  }

  lemma CountAt(pre: Bytes, v: nat, rest: Bytes)
    requires v < Exp256(8)
    ensures |Around(pre, LittleEndianBytes(v, 8), rest)| == |pre| + 8 + |rest|
    ensures LittleEndian(Around(pre, LittleEndianBytes(v, 8), rest), |pre|, 8) == v
  {
    hide LittleEndian, LittleEndianBytes, Exp256;
    LittleEndianRoundTrip(v, 8);
    LittleEndianEmbeds(pre, LittleEndianBytes(v, 8), rest, 0, 8);
  }

  lemma EntryAtRoundTrip(pre: Bytes, x: Entry, rest: Bytes)
    requires GoodEntry(x)
    ensures EntryAt(Around(pre, EntryBytes(x), rest), |pre|) == Complete(|pre| + |EntryBytes(x)|, x.txs)
  {
    hide TransactionAt, LittleEndian, LittleEndianBytes, Many, ManyBytes, Exp256, GoodTransaction;
    var c, m := LittleEndianBytes(|x.txs|, 8), ManyBytes(TransactionBytes, x.txs);
    var all := Around(pre, EntryBytes(x), rest);
    CountAt(pre + x.prefix, |x.txs|, m + rest);
    assert all == Around(pre + x.prefix, c, m + rest);
    TransactionsAtRoundTrip(pre + x.prefix + c, x.txs, rest);
    assert all == Around(pre + x.prefix + c, m, rest);
  }

  lemma {:induction false} EntriesAtRoundTrip(pre: Bytes, xs: seq<Entry>, rest: Bytes)
    requires forall i :: 0 <= i < |xs| ==> GoodEntry(xs[i])
    ensures EntriesAt(Around(pre, ManyBytes(EntryBytes, xs), rest), |pre|, |xs|)
         == Complete(|pre| + |ManyBytes(EntryBytes, xs)|, AllTransactions(xs))
    decreases xs
  {
    hide EntryAt, EntryBytes, GoodEntry;
    if xs != [] {
      var head, tail := EntryBytes(xs[0]), ManyBytes(EntryBytes, xs[1..]);
      var all := Around(pre, ManyBytes(EntryBytes, xs), rest);
      EntryAtRoundTrip(pre, xs[0], tail + rest);
      assert all == Around(pre, head, tail + rest);
      EntriesAtRoundTrip(pre + head, xs[1..], rest);
      assert all == Around(pre + head, tail, rest);
    }
  }

  lemma SmallCount(n: nat)
    requires n < 0x10000
    ensures n < Exp256(8)
  {
    assert Exp256(1) == 256 && Exp256(2) == 65536;
    assert Exp256(4) >= Exp256(2) && Exp256(6) >= Exp256(4) && Exp256(8) >= Exp256(6);
  }

  /** Decoding a serialized batch gives the transactions of all its entries in order. */
  lemma BatchRoundTrip(xs: seq<Entry>, rest: Bytes)
    requires |xs| <= 50_000 && forall i :: 0 <= i < |xs| ==> GoodEntry(xs[i])
    ensures BatchAt(BatchBytes(xs) + rest, 0) == Batch(|BatchBytes(xs)|, AllTransactions(xs))
  {
    hide EntryAt, EntriesAt, EntryBytes, GoodEntry, LittleEndian, LittleEndianBytes, ManyBytes, Exp256;
    var c, m := LittleEndianBytes(|xs|, 8), ManyBytes(EntryBytes, xs);
    var all := BatchBytes(xs) + rest;
    SmallCount(|xs|);
    CountAt([], |xs|, m + rest);
    assert all == Around([], c, m + rest);
    EntriesAtRoundTrip(c, xs, rest);
    assert all == Around(c, m, rest);
    EntriesBounds(all, 8, |xs|);
  }

  /** A count alone is refused from 50,001 on: no larger batch can be pushed at all. */
  lemma LargestCount(n: nat)
    requires n < Exp256(8)
    ensures Fails(LittleEndianBytes(n, 8)) <==> n >= 50_001
  {
    hide LittleEndian, LittleEndianBytes, Exp256, Fails;
    LittleEndianRoundTrip(n, 8);
    CountAlone(LittleEndianBytes(n, 8));
  }

  /** Of the batches of well-formed entries exactly those of at most 50,000 entries decode. */
  lemma LargestBatch(xs: seq<Entry>, rest: Bytes)
    requires |xs| < Exp256(8) && forall i :: 0 <= i < |xs| ==> GoodEntry(xs[i])
    ensures BatchAt(BatchBytes(xs) + rest, 0).Batch? <==> |xs| <= 50_000
    ensures BatchAt(BatchBytes(xs) + rest, 0).NotABatch? <==> |xs| > 50_000
  {
    hide BatchAt, EntryBytes, GoodEntry, LittleEndian, LittleEndianBytes, ManyBytes, Exp256;
    var m := ManyBytes(EntryBytes, xs);
    CountAt([], |xs|, m + rest);
    assert BatchBytes(xs) + rest == Around([], LittleEndianBytes(|xs|, 8), m + rest);
    if |xs| <= 50_000 {
      BatchRoundTrip(xs, rest);
    } else {
      BatchRefusals(BatchBytes(xs) + rest);
    }
  }

  /** One entry with one transaction, up to and including the transaction count. */
  function OneTransactionHead(prefix: Bytes): Bytes {
    LittleEndianBytes(1, 8) + prefix + LittleEndianBytes(1, 8)
  }

  lemma OneTransactionBatch(x: Transaction, prefix: Bytes)
    ensures BatchBytes([Entry(prefix, [x])]) == OneTransactionHead(prefix) + TransactionBytes(x)
  {
    hide TransactionBytes, LittleEndianBytes;
    var e := Entry(prefix, [x]);
    assert ManyBytes(TransactionBytes, [x]) == TransactionBytes(x) + ManyBytes(TransactionBytes, [x][1..]);
    assert ManyBytes(EntryBytes, [e]) == EntryBytes(e) + ManyBytes(EntryBytes, [e][1..]);
  }

  lemma HeadAloneFails(prefix: Bytes)
    requires |prefix| == 40
    ensures Fails(OneTransactionHead(prefix))
  {
    hide TransactionAt, LittleEndian, LittleEndianBytes, Many, Exp256;
    var one := LittleEndianBytes(1, 8);
    var head := OneTransactionHead(prefix);
    SmallCount(1);
    CountAt([], 1, prefix + one);
    assert head == Around([], one, prefix + one);
    CountAt(one + prefix, 1, []);
    assert head == Around(one + prefix, one, []);
    assert EntryAt(head, 8) == Malformed;
  }

  /** Incremental decoding can refuse a batch that decodes in one piece: cut right after
      the first entry's transaction count, the count is ahead of the bytes received. */
  lemma EarlyCutFails(x: Transaction, prefix: Bytes)
    requires GoodTransaction(x) && |prefix| == 40
    ensures Fails(OneTransactionHead(prefix))
    ensures BatchAt(OneTransactionHead(prefix) + TransactionBytes(x), 0).Batch?
  {
    hide OneTransactionHead, TransactionBytes, GoodTransaction, BatchAt, BatchBytes, Fails, Exp256;
    HeadAloneFails(prefix);
    SmallCount(1);
    var xs := [Entry(prefix, [x])];
    assert GoodEntry(xs[0]);
    BatchRoundTrip(xs, []);
    OneTransactionBatch(x, prefix);
    assert BatchBytes(xs) + [] == BatchBytes(xs);
  }
}
