/** The decoding loops of decoder.go, each proved to compute what `Transactions` defines. */
module Decoder {
  import opened Wire
  import opened Transactions

  /** The copy loop for signatures and account keys. */
  method CopyChunks(b: Bytes, pos: nat, n: nat, size: nat) returns (items: seq<Bytes>)
    requires Room(b, pos, n, size)
    ensures items == SplitChunks(b, pos, n, size)
  {
    hide Room;
    items := [];
    var p: nat := pos;
    for i := 0 to n
      invariant Room(b, p, n - i, size)
      invariant items + SplitChunks(b, p, n - i, size) == SplitChunks(b, pos, n, size)
    {
      RoomForOne(b, p, n - i, size);
      var item := b[p..p + size];
      ghost var rest := SplitChunks(b, p + size, n - i - 1, size);
      assert SplitChunks(b, p, n - i, size) == [item] + rest;
      assert (items + [item]) + rest == items + ([item] + rest);
      items := items + [item];
      p := p + size;
    }
  }

  /** The instruction loop of decodeMessage. */
  method DecodeInstructions(b: Bytes, pos: nat, n: nat) returns (r: Parsed<seq<Instruction>>)
    ensures r == Many(InstructionAt, b, pos, n)
  {
    hide ShortVec, OneByte;
    var items: seq<Instruction> := [];
    var p: nat := pos;
    AfterNothing(Many(InstructionAt, b, pos, n));
    for i := 0 to n
      invariant After(items, Many(InstructionAt, b, p, n - i)) == Many(InstructionAt, b, pos, n)
    {
      ghost var was := p;
      var id := OneByte(b, p);
      if id.IsFailure() {
        return id.PropagateFailure();
      }
      var accounts := ShortVec(b, id.next);
      if accounts.IsFailure() {
        return accounts.PropagateFailure();
      }
      var data := ShortVec(b, accounts.next);
      if data.IsFailure() {
        return data.PropagateFailure();
      }
      var item := Instruction(id.value, accounts.value, data.value);
      assert InstructionAt(b, was) == Complete(data.next, item);
      AfterStep(InstructionAt, b, was, n - i, items);
      items, p := items + [item], data.next;
    }
    AfterAll(items, p);
    r := Complete(p, items);
  }

  /** The lookup loop of decodeMessage. */
  method DecodeLookups(b: Bytes, pos: nat, n: nat) returns (r: Parsed<seq<Lookup>>)
    ensures r == Many(LookupAt, b, pos, n)
  {
    hide ShortVec, Take;
    var items: seq<Lookup> := [];
    var p: nat := pos;
    AfterNothing(Many(LookupAt, b, pos, n));
    for i := 0 to n
      invariant After(items, Many(LookupAt, b, p, n - i)) == Many(LookupAt, b, pos, n)
    {
      ghost var was := p;
      var key := Take(b, p, 32);
      if key.IsFailure() {
        return key.PropagateFailure();
      }
      var writable := ShortVec(b, key.next);
      if writable.IsFailure() {
        return writable.PropagateFailure();
      }
      var readonly := ShortVec(b, writable.next);
      if readonly.IsFailure() {
        return readonly.PropagateFailure();
      }
      var item := Lookup(key.value, writable.value, readonly.value);
      assert LookupAt(b, was) == Complete(readonly.next, item);
      AfterStep(LookupAt, b, was, n - i, items);
      items, p := items + [item], readonly.next;
    }
    AfterAll(items, p);
    r := Complete(p, items);
  }

  lemma AfterNothing<T>(r: Parsed<seq<T>>)
    ensures After([], r) == r
  {
    if r.Complete? {
      assert [] + r.value == r.value;
    }
  }

  lemma AfterAll<T>(done: seq<T>, next: nat)
    ensures After(done, Complete(next, [])) == Complete(next, done)
  {
    assert done + [] == done;
  }

  lemma AfterStep<T>(read: (Bytes, nat) -> Parsed<T>, b: Bytes, pos: nat, n: nat, done: seq<T>)
    requires n > 0 && read(b, pos).Complete?
    ensures After(done, Many(read, b, pos, n))
         == After(done + [read(b, pos).value], Many(read, b, read(b, pos).next, n - 1))
  {
    var rest := Many(read, b, read(b, pos).next, n - 1);
    if rest.Complete? {
      assert done + ([read(b, pos).value] + rest.value) == done + [read(b, pos).value] + rest.value;
    }
  }

  /** decodeMessage. */
  method DecodeMessage(b: Bytes, pos: nat) returns (r: Parsed<Message>)
    ensures r == MessageAt(b, pos)
  {
    hide Many, CompactU16, Value;
    if pos + 1 > |b| {
      return Incomplete;
    }
    var first := Value(b[pos]);
    var isV0 := first >= 0x80;
    var p := pos;
    if isV0 {
      if first - 0x80 != 0 {
        return Malformed;
      }
      p := p + 1;
    }
    if p + 3 > |b| {
      return Incomplete;
    }
    var header := b[p..p + 3];
    var acctCount := CompactU16(b, p + 3);
    if acctCount.IsFailure() {
      CompactU16Embeds([], b, [], p + 3);
      return Incomplete;
    }
    var q := acctCount.next;
    if q + acctCount.value * 32 > |b| {
      return Incomplete;
    }
    var keys := CopyChunks(b, q, acctCount.value, 32);
    q := q + acctCount.value * 32;
    if q + 32 > |b| {
      return Incomplete;
    }
    var blockhash := b[q..q + 32];
    var ixCount := CompactU16(b, q + 32);
    if ixCount.IsFailure() {
      CompactU16Embeds([], b, [], q + 32);
      return Incomplete;
    }
    var instructions := DecodeInstructions(b, ixCount.next, ixCount.value);
    if instructions.IsFailure() {
      return instructions.PropagateFailure();
    }
    var body := Body(header, keys, blockhash, instructions.value);
    assert BodyAt(b, p) == Complete(instructions.next, body);
    if !isV0 {
      return Complete(instructions.next, Message(false, body, []));
    }
    var atlCount := CompactU16(b, instructions.next);
    if atlCount.IsFailure() {
      CompactU16Embeds([], b, [], instructions.next);
      return Incomplete;
    }
    var lookups := DecodeLookups(b, atlCount.next, atlCount.value);
    if lookups.IsFailure() {
      return lookups.PropagateFailure();
    }
    r := Complete(lookups.next, Message(true, body, lookups.value));
  }

  /** decodeTransaction. */
  method DecodeTransaction(b: Bytes, pos: nat) returns (r: Parsed<Transaction>)
    ensures r == TransactionAt(b, pos)
  {
    hide MessageAt, CompactU16;
    var sigCount := CompactU16(b, pos);
    if sigCount.IsFailure() {
      CompactU16Embeds([], b, [], pos);
      return Incomplete;
    }
    if sigCount.value > 256 {
      return Malformed;
    }
    if sigCount.next + sigCount.value * 64 > |b| {
      return Incomplete;
    }
    var signatures := CopyChunks(b, sigCount.next, sigCount.value, 64);
    var message := DecodeMessage(b, sigCount.next + sigCount.value * 64);
    if message.IsFailure() {
      return message.PropagateFailure();
    }
    r := Complete(message.next, Transaction(signatures, message.value));
  }

  /** decodeEntry. */
  method DecodeEntry(b: Bytes, pos: nat) returns (r: Parsed<seq<Transaction>>)
    ensures r == EntryAt(b, pos)
  {
    hide TransactionAt, LittleEndian;
    if pos + 48 > |b| {
      return Incomplete;
    }
    var txCount := LittleEndian(b, pos + 40, 8);
    var p: nat := pos + 48;
    if txCount > |b| - p {
      return Malformed;
    }
    var txs: seq<Transaction> := [];
    AfterNothing(Many(TransactionAt, b, p, txCount));
    for i := 0 to txCount
      invariant After(txs, Many(TransactionAt, b, p, txCount - i)) == Many(TransactionAt, b, pos + 48, txCount)
    {
      var tx := DecodeTransaction(b, p);
      if tx.IsFailure() {
        return tx.PropagateFailure();
      }
      AfterStep(TransactionAt, b, p, txCount - i, txs);
      txs, p := txs + [tx.value], tx.next;
    }
    AfterAll(txs, p);
    r := Complete(p, txs);
  }
}
