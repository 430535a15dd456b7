/** What the decoders of decoder.go accept: every decoded value is well formed, the bytes it was
    read from are its serialization up to the spelling of compact lengths, and what is refused
    as malformed is exactly what no further bytes could mend. */
module Reading {
  import opened Wire
  import opened Transactions
  import opened Batches
  import opened Serialization

  // ---------------------------------------------------------------------------
  // Bytes read against bytes written

  /** A stretch of bytes as it is, or a compact length in the spelling that was read. */
  datatype Piece = Plain(bytes: Bytes) | Length(bytes: Bytes, value: nat)

  ghost predicate PieceOk(p: Piece) {
    p.Length? ==> CompactU16(p.bytes, 0) == Complete(|p.bytes|, p.value)
  }

  ghost function Read(pieces: seq<Piece>): Bytes {
    if pieces == [] then [] else pieces[0].bytes + Read(pieces[1..])
  }

  ghost function Shortest(p: Piece): Bytes {
    if p.Length? then CompactU16Bytes(p.value) else p.bytes
  }

  /** The same with every length in its shortest spelling. */
  ghost function Written(pieces: seq<Piece>): Bytes {
    if pieces == [] then [] else Shortest(pieces[0]) + Written(pieces[1..])
  }

  /** `read` is `written` with some compact lengths spelled differently. */
  ghost predicate Respells(read: Bytes, written: Bytes) {
    exists pieces :: (forall k :: 0 <= k < |pieces| ==> PieceOk(pieces[k])) && Read(pieces) == read
      && Written(pieces) == written
  }

  ghost predicate Spells(b: Bytes, pos: nat, next: nat, written: Bytes) {
    pos <= next <= |b| && Respells(b[pos..next], written)
  }

  lemma Associates(x: Bytes, y: Bytes, z: Bytes)
    ensures x + (y + z) == (x + y) + z
  {}

  lemma ReadCons(p: Piece, rest: seq<Piece>)
    ensures Read([p] + rest) == p.bytes + Read(rest) && Written([p] + rest) == Shortest(p) + Written(rest)
  {
    assert ([p] + rest)[1..] == rest;
  }

  lemma {:induction false} PiecesJoin(a: seq<Piece>, b: seq<Piece>)
    ensures Read(a + b) == Read(a) + Read(b) && Written(a + b) == Written(a) + Written(b)
  {
    if a == [] {
      assert a + b == b && [] + Read(b) == Read(b) && [] + Written(b) == Written(b);
    } else {
      hide Read, Written, Shortest;
      var p, t := a[0], a[1..];
      PiecesJoin(t, b);
      ReadCons(p, t + b);
      ReadCons(p, t);
      assert a == [p] + t && a + b == [p] + (t + b);
      Associates(p.bytes, Read(t), Read(b));
      Associates(Shortest(p), Written(t), Written(b));
    }
  }

  lemma SpellsOn(b: Bytes, p: nat, q: nat, r: nat, first: Bytes, second: Bytes)
    requires Spells(b, p, q, first) && Spells(b, q, r, second)
    ensures Spells(b, p, r, first + second)
  {
    hide PieceOk, Read, Written;
    var x :| (forall k :: 0 <= k < |x| ==> PieceOk(x[k])) && Read(x) == b[p..q] && Written(x) == first;
    var y :| (forall k :: 0 <= k < |y| ==> PieceOk(y[k])) && Read(y) == b[q..r] && Written(y) == second;
    PiecesJoin(x, y);
    assert b[p..r] == b[p..q] + b[q..r];
    assert forall k :: 0 <= k < |x + y| ==> PieceOk((x + y)[k]);
  }

  lemma SpellsPlain(b: Bytes, p: nat, q: nat)
    requires p <= q <= |b|
    ensures Spells(b, p, q, b[p..q])
  {
    var x := [Plain(b[p..q])];
    assert x[1..] == [] && Read(x) == b[p..q] + Read(x[1..]) && Written(x) == b[p..q] + Written(x[1..]);
    assert PieceOk(x[0]);
  }

  lemma SpellsLength(b: Bytes, p: nat)
    requires CompactU16(b, p).Complete?
    ensures Spells(b, p, CompactU16(b, p).next, CompactU16Bytes(CompactU16(b, p).value))
    ensures p < CompactU16(b, p).next && CompactU16(b, p).value < U16_LIMIT
  {
    CompactSlice(b, p);
    hide CompactU16, CompactU16Bytes;
    var (q, v) := CompactU16(b, p).Extract();
    var x := [Length(b[p..q], v)];
    assert PieceOk(x[0]);
    assert x[1..] == [] && Read(x) == b[p..q] + Read(x[1..]) && Written(x) == CompactU16Bytes(v) + Written(x[1..]);
  }

  lemma CompactSlice(b: Bytes, p: nat)
    requires CompactU16(b, p).Complete?
    ensures var (q, v) := CompactU16(b, p).Extract();
            p < q <= |b| && v < U16_LIMIT && CompactU16(b[p..q], 0) == Complete(q - p, v)
  {
    var q := CompactU16(b, p).next;
    assert forall k :: 0 <= k < q - p ==> b[p..q][k] == b[p + k];
  }

  // ---------------------------------------------------------------------------
  // Parts of a transaction

  lemma SpellsShortVec(b: Bytes, p: nat)
    requires ShortVec(b, p).Complete?
    ensures Spells(b, p, ShortVec(b, p).next, ShortVecBytes(ShortVec(b, p).value))
    ensures |ShortVec(b, p).value| < U16_LIMIT
  {
    hide Respells, CompactU16, CompactU16Bytes;
    SpellsLength(b, p);
    var (q, v) := ShortVec(b, p).Extract();
    var c := CompactU16(b, p).next;
    SpellsPlain(b, c, q);
    SpellsOn(b, p, c, q, CompactU16Bytes(|v|), v);
  }

  lemma SpellsInstruction(b: Bytes, p: nat)
    requires InstructionAt(b, p).Complete?
    ensures Spells(b, p, InstructionAt(b, p).next, InstructionBytes(InstructionAt(b, p).value))
    ensures GoodInstruction(InstructionAt(b, p).value)
  {
    hide Respells, ShortVec, ShortVecBytes;
    var (r, x) := InstructionAt(b, p).Extract();
    SpellsPlain(b, p, p + 1);
    assert b[p..p + 1] == [x.programIdIndex];
    SpellsShortVec(b, p + 1);
    var q := ShortVec(b, p + 1).next;
    SpellsShortVec(b, q);
    SpellsOn(b, p, p + 1, q, [x.programIdIndex], ShortVecBytes(x.accounts));
    SpellsOn(b, p, q, r, [x.programIdIndex] + ShortVecBytes(x.accounts), ShortVecBytes(x.data));
  }

  lemma SpellsLookup(b: Bytes, p: nat)
    requires LookupAt(b, p).Complete?
    ensures Spells(b, p, LookupAt(b, p).next, LookupBytes(LookupAt(b, p).value))
    ensures GoodLookup(LookupAt(b, p).value)
  {
    hide Respells, ShortVec, ShortVecBytes;
    var (r, x) := LookupAt(b, p).Extract();
    SpellsPlain(b, p, p + 32);
    SpellsShortVec(b, p + 32);
    var q := ShortVec(b, p + 32).next;
    SpellsShortVec(b, q);
    SpellsOn(b, p, p + 32, q, x.accountKey, ShortVecBytes(x.writableIndexes));
    SpellsOn(b, p, q, r, x.accountKey + ShortVecBytes(x.writableIndexes), ShortVecBytes(x.readonlyIndexes));
  }

  lemma {:induction false} SpellsMany<T(!new)>(read: (Bytes, nat) -> Parsed<T>, write: T -> Bytes, good: T -> bool,
                                               b: Bytes, pos: nat, n: nat)
    requires pos <= |b| && Many(read, b, pos, n).Complete?
    requires forall p: nat :: read(b, p).Complete? ==>
               Spells(b, p, read(b, p).next, write(read(b, p).value)) && good(read(b, p).value)
    ensures var (q, xs) := Many(read, b, pos, n).Extract();
            && |xs| == n && Spells(b, pos, q, ManyBytes(write, xs)) && forall i :: 0 <= i < n ==> good(xs[i])
    decreases n
  {
    hide Respells;
    if n == 0 {
      SpellsPlain(b, pos, pos);
      assert b[pos..pos] == [];
    } else {
      var (p, x) := read(b, pos).Extract();
      SpellsMany(read, write, good, b, p, n - 1);
      var (q, xs) := Many(read, b, p, n - 1).Extract();
      SpellsOn(b, pos, p, q, write(x), ManyBytes(write, xs));
      assert ([x] + xs)[1..] == xs;
    }
  }

  lemma {:induction false} ChunksSized(b: Bytes, pos: nat, n: nat, size: nat)
    requires Room(b, pos, n, size)
    ensures AllSized(SplitChunks(b, pos, n, size), size)
    decreases n
  {
    if n != 0 {
      RoomForOne(b, pos, n, size);
      ChunksSized(b, pos + size, n - 1, size);
    }
  }

  lemma FlattenOne(head: Bytes, rest: seq<Bytes>)
    ensures Flatten([head] + rest) == head + Flatten(rest)
  {
    assert ([head] + rest)[1..] == rest;
  }

  lemma SplitCons(b: Bytes, pos: nat, n: nat, size: nat, end: nat)
    requires n > 0 && end == pos + n * size <= |b|
    ensures pos + size <= end == pos + size + (n - 1) * size
    ensures SplitChunks(b, pos, n, size) == [b[pos..pos + size]] + SplitChunks(b, pos + size, n - 1, size)
  {
    RoomForOne(b, pos, n, size);
  }

  lemma {:induction false} FlattenSplit(b: Bytes, pos: nat, n: nat, size: nat, end: nat)
    requires end == pos + n * size <= |b|
    ensures Flatten(SplitChunks(b, pos, n, size)) == b[pos..end]
    decreases n
  {
    if n != 0 {
      hide Flatten, SplitChunks;
      SplitCons(b, pos, n, size, end);
      FlattenSplit(b, pos + size, n - 1, size, end);
      FlattenOne(b[pos..pos + size], SplitChunks(b, pos + size, n - 1, size));
      SliceJoins(b, pos, pos + size, end);
    }
  }

  lemma SliceJoins(b: Bytes, p: nat, q: nat, r: nat)
    requires p <= q <= r <= |b|
    ensures b[p..r] == b[p..q] + b[q..r]
  {}

  lemma SpellsChunks(b: Bytes, pos: nat, n: nat, size: nat)
    requires Chunks(b, pos, n, size).Complete? && pos <= |b|
    ensures var (q, parts) := Chunks(b, pos, n, size).Extract();
            Spells(b, pos, q, Flatten(parts)) && AllSized(parts, size) && |parts| == n
  {
    hide Respells, Flatten;
    FlattenSplit(b, pos, n, size, pos + n * size);
    ChunksSized(b, pos, n, size);
    SpellsPlain(b, pos, pos + n * size);
  }

  lemma SpellsInstructions(b: Bytes, p: nat, n: nat)
    requires p <= |b| && Many(InstructionAt, b, p, n).Complete?
    ensures var (q, xs) := Many(InstructionAt, b, p, n).Extract();
            && |xs| == n && Spells(b, p, q, ManyBytes(InstructionBytes, xs))
            && forall i :: 0 <= i < n ==> GoodInstruction(xs[i])
  {
    hide Respells, InstructionAt, InstructionBytes, GoodInstruction;
    forall k: nat | InstructionAt(b, k).Complete?
      ensures Spells(b, k, InstructionAt(b, k).next, InstructionBytes(InstructionAt(b, k).value))
      ensures GoodInstruction(InstructionAt(b, k).value)
    {
      SpellsInstruction(b, k);
    }
    SpellsMany(InstructionAt, InstructionBytes, GoodInstruction, b, p, n);
  }

  lemma SpellsLookups(b: Bytes, p: nat)
    requires LookupsAt(b, p).Complete?
    ensures Spells(b, p, LookupsAt(b, p).next, LookupsBytes(LookupsAt(b, p).value))
    ensures var xs := LookupsAt(b, p).value; |xs| < U16_LIMIT && forall i :: 0 <= i < |xs| ==> GoodLookup(xs[i])
  {
    hide Respells, LookupAt, LookupBytes, GoodLookup, CompactU16, CompactU16Bytes;
    SpellsLength(b, p);
    forall k: nat | LookupAt(b, k).Complete?
      ensures Spells(b, k, LookupAt(b, k).next, LookupBytes(LookupAt(b, k).value))
      ensures GoodLookup(LookupAt(b, k).value)
    {
      SpellsLookup(b, k);
    }
    var (c, n) := CompactU16(b, p).Extract();
    SpellsMany(LookupAt, LookupBytes, GoodLookup, b, c, n);
    var (q, xs) := LookupsAt(b, p).Extract();
    SpellsOn(b, p, c, q, CompactU16Bytes(n), ManyBytes(LookupBytes, xs));
  }

  /** Where the blockhash ends. */
  ghost function KeysEnd(b: Bytes, p: nat): nat
    requires CompactU16(b, p + 3).Complete?
  {
    CompactU16(b, p + 3).next + CompactU16(b, p + 3).value * 32 + 32
  }

  /** Header, account keys and blockhash of a message. */
  lemma SpellsKeys(b: Bytes, p: nat)
    requires BodyAt(b, p).Complete?
    ensures var x := BodyAt(b, p).value;
            && |x.header| == 3 && |x.recentBlockhash| == 32
            && |x.accountKeys| < U16_LIMIT && AllSized(x.accountKeys, 32)
            && CompactU16(b, p + 3).Complete? && |x.accountKeys| == CompactU16(b, p + 3).value
            && Spells(b, p, KeysEnd(b, p),
                      x.header + CompactU16Bytes(|x.accountKeys|) + Flatten(x.accountKeys) + x.recentBlockhash)
  {
    hide Respells, CompactU16, CompactU16Bytes, Many, SplitChunks, Flatten, AllSized;
    var x := BodyAt(b, p).value;
    SpellsPlain(b, p, p + 3);
    SpellsLength(b, p + 3);
    var (p1, n) := CompactU16(b, p + 3).Extract();
    SpellsOn(b, p, p + 3, p1, x.header, CompactU16Bytes(n));
    SpellsChunks(b, p1, n, 32);
    var (p2, keys) := Chunks(b, p1, n, 32).Extract();
    SpellsOn(b, p, p1, p2, x.header + CompactU16Bytes(n), Flatten(keys));
    SpellsPlain(b, p2, p2 + 32);
    SpellsOn(b, p, p2, p2 + 32, x.header + CompactU16Bytes(n) + Flatten(keys), x.recentBlockhash);
  }

  lemma SpellsBody(b: Bytes, p: nat)
    requires BodyAt(b, p).Complete?
    ensures Spells(b, p, BodyAt(b, p).next, BodyBytes(BodyAt(b, p).value)) && GoodBody(BodyAt(b, p).value)
    ensures p < |b| && BodyAt(b, p).value.header[0] == b[p]
  {
    hide Respells, CompactU16, CompactU16Bytes, Many, ManyBytes, SplitChunks, Flatten, AllSized, GoodInstruction;
    var (p5, x) := BodyAt(b, p).Extract();
    SpellsKeys(b, p);
    var n, p3 := CompactU16(b, p + 3).value, KeysEnd(b, p);
    SpellsLength(b, p3);
    var (p4, m) := CompactU16(b, p3).Extract();
    var front := x.header + CompactU16Bytes(n) + Flatten(x.accountKeys) + x.recentBlockhash;
    SpellsOn(b, p, p3, p4, front, CompactU16Bytes(m));
    SpellsInstructions(b, p4, m);
    SpellsOn(b, p, p4, p5, front + CompactU16Bytes(m), ManyBytes(InstructionBytes, x.instructions));
  }

  lemma SpellsMessage(b: Bytes, p: nat)
    requires MessageAt(b, p).Complete?
    ensures Spells(b, p, MessageAt(b, p).next, MessageBytes(MessageAt(b, p).value))
    ensures GoodMessage(MessageAt(b, p).value)
  {
    hide Respells, BodyAt, BodyBytes, LookupsAt, LookupsBytes, GoodBody, GoodLookup, Value, ByteOf;
    var (q, x) := MessageAt(b, p).Extract();
    if Value(b[p]) == 0x80 {
      SpellsPlain(b, p, p + 1);
      ByteOfValue(b[p]);
      assert b[p..p + 1] == [ByteOf(0x80)];
      SpellsBody(b, p + 1);
      var p0 := BodyAt(b, p + 1).next;
      SpellsOn(b, p, p + 1, p0, [ByteOf(0x80)], BodyBytes(x.body));
      SpellsLookups(b, p0);
      SpellsOn(b, p, p0, q, [ByteOf(0x80)] + BodyBytes(x.body), LookupsBytes(x.addressTableLookups));
    } else {
      SpellsBody(b, p);
    }
  }

  // ---------------------------------------------------------------------------
  // Transactions, entries and batches

  /** A decoded transaction is well formed, and the bytes it was read from are its
      serialization with some compact lengths spelled differently. */
  lemma SpellsTransaction(b: Bytes, p: nat)
    requires TransactionAt(b, p).Complete?
    ensures Spells(b, p, TransactionAt(b, p).next, TransactionBytes(TransactionAt(b, p).value))
    ensures GoodTransaction(TransactionAt(b, p).value)
  {
    hide Respells, MessageAt, MessageBytes, GoodMessage, CompactU16, CompactU16Bytes, Chunks, Flatten, AllSized;
    var (q, x) := TransactionAt(b, p).Extract();
    SpellsLength(b, p);
    var (p0, n) := CompactU16(b, p).Extract();
    SpellsChunks(b, p0, n, 64);
    var p1 := Chunks(b, p0, n, 64).next;
    SpellsOn(b, p, p0, p1, CompactU16Bytes(n), Flatten(x.signatures));
    SpellsMessage(b, p1);
    SpellsOn(b, p, p1, q, CompactU16Bytes(n) + Flatten(x.signatures), MessageBytes(x.message));
  }

  /** So decoding the serialization of what was decoded gives it again. */
  lemma DecodedAgain(b: Bytes, p: nat)
    requires TransactionAt(b, p).Complete?
    ensures var x := TransactionAt(b, p).value;
            TransactionAt(TransactionBytes(x), 0) == Complete(|TransactionBytes(x)|, x)
  {
    hide TransactionAt, TransactionBytes, GoodTransaction, Respells;
    SpellsTransaction(b, p);
    var x := TransactionAt(b, p).value;
    TransactionRoundTrip([], x, []);
    assert Around([], TransactionBytes(x), []) == TransactionBytes(x);
  }

  lemma SpellsTransactions(b: Bytes, p: nat, n: nat)
    requires p <= |b| && Many(TransactionAt, b, p, n).Complete?
    ensures var (q, xs) := Many(TransactionAt, b, p, n).Extract();
            && |xs| == n && Spells(b, p, q, ManyBytes(TransactionBytes, xs))
            && forall i :: 0 <= i < n ==> GoodTransaction(xs[i])
  {
    hide Respells, TransactionAt, TransactionBytes, GoodTransaction;
    forall k: nat | TransactionAt(b, k).Complete?
      ensures Spells(b, k, TransactionAt(b, k).next, TransactionBytes(TransactionAt(b, k).value))
      ensures GoodTransaction(TransactionAt(b, k).value)
    {
      SpellsTransaction(b, k);
    }
    SpellsMany(TransactionAt, TransactionBytes, GoodTransaction, b, p, n);
  }

  /** The entry that was read: its first 40 bytes and its transactions. */
  ghost function EntryRead(b: Bytes, p: nat): Entry
    requires EntryAt(b, p).Complete?
  {
    Entry(b[p..p + 40], EntryAt(b, p).value)
  }

  lemma SpellsEntry(b: Bytes, p: nat)
    requires EntryAt(b, p).Complete?
    ensures Spells(b, p, EntryAt(b, p).next, EntryBytes(EntryRead(b, p))) && GoodEntry(EntryRead(b, p))
  {
    hide Respells, TransactionAt, GoodTransaction, LittleEndian, LittleEndianBytes, Exp256, Many, ManyBytes;
    var (q, txs) := EntryAt(b, p).Extract();
    var n := LittleEndian(b, p + 40, 8);
    FieldBytes(b, p + 40, 8);
    SpellsPlain(b, p, p + 40);
    SpellsPlain(b, p + 40, p + 48);
    SpellsOn(b, p, p + 40, p + 48, b[p..p + 40], LittleEndianBytes(n, 8));
    SpellsTransactions(b, p + 48, n);
    SpellsOn(b, p, p + 48, q, b[p..p + 40] + LittleEndianBytes(n, 8), ManyBytes(TransactionBytes, txs));
  }

  lemma {:induction false} SpellsEntries(b: Bytes, p: nat, n: nat) returns (xs: seq<Entry>)
    requires p <= |b| && EntriesAt(b, p, n).Complete?
    ensures |xs| == n && Spells(b, p, EntriesAt(b, p, n).next, ManyBytes(EntryBytes, xs))
    ensures (forall i :: 0 <= i < n ==> GoodEntry(xs[i])) && EntriesAt(b, p, n).value == AllTransactions(xs)
    decreases n
  {
    hide Respells, EntryAt, EntryBytes, GoodEntry;
    if n == 0 {
      xs := [];
      SpellsPlain(b, p, p);
      assert b[p..p] == [];
    } else {
      SpellsEntry(b, p);
      var q := EntryAt(b, p).next;
      var rest := SpellsEntries(b, q, n - 1);
      xs := [EntryRead(b, p)] + rest;
      assert xs[1..] == rest;
      SpellsOn(b, p, q, EntriesAt(b, p, n).next, EntryBytes(xs[0]), ManyBytes(EntryBytes, rest));
    }
  }

  /** Whatever DecodeBatch accepts is the serialization of at most 50,000 well-formed entries,
      up to the spelling of compact lengths, and it returns their transactions. */
  lemma AcceptedIsBatch(b: Bytes) returns (xs: seq<Entry>)
    requires BatchAt(b, 0).Batch?
    ensures |xs| <= 50_000 && forall i :: 0 <= i < |xs| ==> GoodEntry(xs[i])
    ensures Spells(b, 0, BatchAt(b, 0).next, BatchBytes(xs)) && BatchAt(b, 0).txs == AllTransactions(xs)
  {
    hide Respells, EntriesAt, GoodEntry, EntryBytes, LittleEndian, LittleEndianBytes, ManyBytes;
    BatchRefusals(b);
    var n := LittleEndian(b, 0, 8);
    xs := SpellsEntries(b, 8, n);
    FieldBytes(b, 0, 8);
    SpellsPlain(b, 0, 8);
    SpellsOn(b, 0, 8, BatchAt(b, 0).next, LittleEndianBytes(n, 8), ManyBytes(EntryBytes, xs));
  }

  // ---------------------------------------------------------------------------
  // What is refused

  lemma {:induction false} ManyNotMalformed<T(!new)>(read: (Bytes, nat) -> Parsed<T>, b: Bytes, pos: nat, n: nat)
    requires forall p: nat :: read(b, p) != Malformed
    ensures Many(read, b, pos, n) != Malformed
    decreases n
  {
    if n != 0 && read(b, pos).Complete? {
      ManyNotMalformed(read, b, read(b, pos).next, n - 1);
    }
  }

  lemma PartsNotMalformed(b: Bytes, p: nat)
    ensures BodyAt(b, p) != Malformed && LookupsAt(b, p) != Malformed
  {
    hide Many, SplitChunks, Value;
    forall k: nat, n: nat ensures Many(InstructionAt, b, k, n) != Malformed && Many(LookupAt, b, k, n) != Malformed {
      ManyNotMalformed(InstructionAt, b, k, n);
      ManyNotMalformed(LookupAt, b, k, n);
    }
  }

  lemma MessageRefused(b: Bytes, p: nat)
    ensures MessageAt(b, p) == Malformed <==> p < |b| && Value(b[p]) > 0x80
  {
    hide BodyAt, LookupsAt, Value;
    PartsNotMalformed(b, p);
    PartsNotMalformed(b, p + 1);
    if BodyAt(b, p + 1).Complete? {
      PartsNotMalformed(b, BodyAt(b, p + 1).next);
    }
  }

  /** Too many signatures, or a message of an unknown version after them. */
  predicate Refused(b: Bytes, p: nat) {
    var c := CompactU16(b, p);
    c.Complete? && (c.value > 256 || (c.next + 64 * c.value < |b| && Value(b[c.next + 64 * c.value]) > 0x80))
  }

  lemma TransactionRefused(b: Bytes, p: nat)
    ensures TransactionAt(b, p) == Malformed <==> Refused(b, p)
  {
    CompactNotMalformed(b, p);
    hide CompactU16, MessageAt, SplitChunks, Value;
    if CompactU16(b, p).Complete? {
      var (q, n) := CompactU16(b, p).Extract();
      MessageRefused(b, q + n * 64);
    }
  }

  lemma CompactNotMalformed(b: Bytes, p: nat)
    ensures CompactU16(b, p) != Malformed
  {
    hide Value;
  }
}
