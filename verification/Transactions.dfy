/** Transactions, messages and entries as decoder.go reads them. */
module Transactions {
  import opened Wire

  datatype Instruction = Instruction(programIdIndex: Byte, accounts: Bytes, data: Bytes)
  datatype Lookup = Lookup(accountKey: Bytes, writableIndexes: Bytes, readonlyIndexes: Bytes)

  /** The part shared by legacy and v0 messages; `header` is the three count bytes. */
  datatype Body = Body(header: Bytes, accountKeys: seq<Bytes>, recentBlockhash: Bytes, instructions: seq<Instruction>)
  datatype Message = Message(isV0: bool, body: Body, addressTableLookups: seq<Lookup>)
  datatype Transaction = Transaction(signatures: seq<Bytes>, message: Message)

  // ---------------------------------------------------------------------------
  // What a decode means

  function InstructionAt(b: Bytes, pos: nat): Parsed<Instruction> {
    var (p0, id) :- OneByte(b, pos);
    var (p1, accounts) :- ShortVec(b, p0);
    var (p2, data) :- ShortVec(b, p1);
    Complete(p2, Instruction(id, accounts, data))
  }

  function LookupAt(b: Bytes, pos: nat): Parsed<Lookup> {
    var (p0, key) :- Take(b, pos, 32);
    var (p1, writable) :- ShortVec(b, p0);
    var (p2, readonly) :- ShortVec(b, p1);
    Complete(p2, Lookup(key, writable, readonly))
  }

  function BodyAt(b: Bytes, pos: nat): Parsed<Body> {
    var (p0, header) :- Take(b, pos, 3);
    var (p1, acctCount) :- CompactU16(b, p0);
    var (p2, keys) :- Chunks(b, p1, acctCount, 32);
    var (p3, blockhash) :- Take(b, p2, 32);
    var (p4, ixCount) :- CompactU16(b, p3);
    var (p5, instructions) :- Many(InstructionAt, b, p4, ixCount);
    Complete(p5, Body(header, keys, blockhash, instructions))
  }

  function LookupsAt(b: Bytes, pos: nat): Parsed<seq<Lookup>> {
    var (p0, count) :- CompactU16(b, pos);
    Many(LookupAt, b, p0, count)
  }

  /** A first byte with the top bit set announces a version, and only 0 is known. */
  function MessageAt(b: Bytes, pos: nat): Parsed<Message> {
    if pos >= |b| then Incomplete
    else
      var first := Value(b[pos]);
      if first > 0x80 then Malformed
      else if first == 0x80 then
        var (p0, body) :- BodyAt(b, pos + 1);
        var (p1, lookups) :- LookupsAt(b, p0);
        Complete(p1, Message(true, body, lookups))
      else
        var (p0, body) :- BodyAt(b, pos);
        Complete(p0, Message(false, body, []))
  }

  function TransactionAt(b: Bytes, pos: nat): Parsed<Transaction> {
    var (p0, sigCount) :- CompactU16(b, pos);
    if sigCount > 256 then Malformed
    else
      var (p1, signatures) :- Chunks(b, p0, sigCount, 64);
      var (p2, message) :- MessageAt(b, p1);
      Complete(p2, Transaction(signatures, message))
  }

  const ENTRY_HEADER := 48

  /** An entry: 8 bytes of hash count, a 32-byte hash, a 64-bit transaction count and
      the transactions. A count above the number of bytes left is an error. */
  function EntryAt(b: Bytes, pos: nat): Parsed<seq<Transaction>> {
    if pos + ENTRY_HEADER > |b| then Incomplete
    else
      var txCount := LittleEndian(b, pos + 40, 8);
      if txCount > |b| - (pos + ENTRY_HEADER) then Malformed
      else Many(TransactionAt, b, pos + ENTRY_HEADER, txCount)
  }

  // ---------------------------------------------------------------------------
  // A complete decode is unchanged by bytes before and after it

  lemma InstructionEmbeds(pre: Bytes, b: Bytes, rest: Bytes, pos: nat)
    ensures Embeds(InstructionAt(b, pos), InstructionAt(Around(pre, b, rest), |pre| + pos), |pre|, rest == [])
    ensures InstructionAt(b, pos).Complete? ==> pos < InstructionAt(b, pos).next <= |b|
  {
    hide OneByte, ShortVec, Around;
    OneByteEmbeds(pre, b, rest, pos);
    OneByteBounds(b, pos);
    if OneByte(b, pos).Complete? {
      var p0 := OneByte(b, pos).next;
      ShortVecEmbeds(pre, b, rest, p0);
      if ShortVec(b, p0).Complete? {
        ShortVecEmbeds(pre, b, rest, ShortVec(b, p0).next);
      }
    }
  }

  lemma OneByteBounds(b: Bytes, pos: nat)
    ensures OneByte(b, pos).Complete? ==> OneByte(b, pos).next == pos + 1 <= |b|
    ensures OneByte(b, pos) != Malformed
  {}

  lemma LookupEmbeds(pre: Bytes, b: Bytes, rest: Bytes, pos: nat)
    ensures Embeds(LookupAt(b, pos), LookupAt(Around(pre, b, rest), |pre| + pos), |pre|, rest == [])
    ensures LookupAt(b, pos).Complete? ==> pos < LookupAt(b, pos).next <= |b|
  {
    hide ShortVec, Around;
    TakeEmbeds(pre, b, rest, pos, 32);
    if Take(b, pos, 32).Complete? {
      var p0 := Take(b, pos, 32).next;
      ShortVecEmbeds(pre, b, rest, p0);
      if ShortVec(b, p0).Complete? {
        ShortVecEmbeds(pre, b, rest, ShortVec(b, p0).next);
      }
    }
  }

  lemma InstructionsEmbed(pre: Bytes, b: Bytes, rest: Bytes, pos: nat, n: nat)
    requires pos <= |b|
    ensures Embeds(Many(InstructionAt, b, pos, n), Many(InstructionAt, Around(pre, b, rest), |pre| + pos, n), |pre|,
                   rest == [])
    ensures Many(InstructionAt, b, pos, n).Complete? ==> pos <= Many(InstructionAt, b, pos, n).next <= |b|
  {
    hide InstructionAt, Around;
    forall p: nat
      ensures Embeds(InstructionAt(b, p), InstructionAt(Around(pre, b, rest), |pre| + p), |pre|, rest == [])
      ensures InstructionAt(b, p).Complete? ==> p < InstructionAt(b, p).next <= |b|
    {
      InstructionEmbeds(pre, b, rest, p);
    }
    ManyEmbeds(InstructionAt, pre, b, rest, pos, n);
    ManyBounds(InstructionAt, b, pos, n, 1);
  }

  lemma LookupsEmbed(pre: Bytes, b: Bytes, rest: Bytes, pos: nat)
    ensures Embeds(LookupsAt(b, pos), LookupsAt(Around(pre, b, rest), |pre| + pos), |pre|, rest == [])
    ensures LookupsAt(b, pos).Complete? ==> pos < LookupsAt(b, pos).next <= |b|
  {
    hide LookupAt, Around, CompactU16;
    CompactU16Embeds(pre, b, rest, pos);
    if CompactU16(b, pos).Complete? {
      var (p0, n) := CompactU16(b, pos).Extract();
      forall p: nat
        ensures Embeds(LookupAt(b, p), LookupAt(Around(pre, b, rest), |pre| + p), |pre|, rest == [])
        ensures LookupAt(b, p).Complete? ==> p < LookupAt(b, p).next <= |b|
      {
        LookupEmbeds(pre, b, rest, p);
      }
      ManyEmbeds(LookupAt, pre, b, rest, p0, n);
      ManyBounds(LookupAt, b, p0, n, 1);
    }
  }

  lemma BodyEmbeds(pre: Bytes, b: Bytes, rest: Bytes, pos: nat)
    ensures Embeds(BodyAt(b, pos), BodyAt(Around(pre, b, rest), |pre| + pos), |pre|, rest == [])
    ensures BodyAt(b, pos).Complete? ==> pos < BodyAt(b, pos).next <= |b|
  {
    hide Around, CompactU16, Many, SplitChunks;
    TakeEmbeds(pre, b, rest, pos, 3);
    if Take(b, pos, 3).Complete? {
      var p0 := pos + 3;
      CompactU16Embeds(pre, b, rest, p0);
      if CompactU16(b, p0).Complete? {
        var (p1, n) := CompactU16(b, p0).Extract();
        ChunksEmbeds(pre, b, rest, p1, n, 32);
        if Chunks(b, p1, n, 32).Complete? {
          var p2 := Chunks(b, p1, n, 32).next;
          TakeEmbeds(pre, b, rest, p2, 32);
          if Take(b, p2, 32).Complete? {
            var p3 := p2 + 32;
            CompactU16Embeds(pre, b, rest, p3);
            if CompactU16(b, p3).Complete? {
              var (p4, k) := CompactU16(b, p3).Extract();
              InstructionsEmbed(pre, b, rest, p4, k);
            }
          }
        }
      }
    }
  }

  lemma MessageEmbeds(pre: Bytes, b: Bytes, rest: Bytes, pos: nat)
    ensures Embeds(MessageAt(b, pos), MessageAt(Around(pre, b, rest), |pre| + pos), |pre|, rest == [])
    ensures MessageAt(b, pos).Complete? ==> pos < MessageAt(b, pos).next <= |b|
  {
    hide BodyAt, LookupsAt, Value;
    if pos < |b| {
      AroundAt(pre, b, rest, pos, 1);
      hide Around;
      BodyEmbeds(pre, b, rest, pos);
      BodyEmbeds(pre, b, rest, pos + 1);
      if BodyAt(b, pos + 1).Complete? {
        LookupsEmbed(pre, b, rest, BodyAt(b, pos + 1).next);
      }
    }
  }

  lemma TransactionEmbeds(pre: Bytes, b: Bytes, rest: Bytes, pos: nat)
    ensures Embeds(TransactionAt(b, pos), TransactionAt(Around(pre, b, rest), |pre| + pos), |pre|, rest == [])
    ensures TransactionAt(b, pos).Complete? ==> pos < TransactionAt(b, pos).next <= |b|
  {
    hide MessageAt, CompactU16, Around, SplitChunks;
    CompactU16Embeds(pre, b, rest, pos);
    if CompactU16(b, pos).Complete? {
      var (p0, n) := CompactU16(b, pos).Extract();
      ChunksEmbeds(pre, b, rest, p0, n, 64);
      if Chunks(b, p0, n, 64).Complete? {
        MessageEmbeds(pre, b, rest, Chunks(b, p0, n, 64).next);
      }
    }
  }

  lemma TransactionsEmbed(pre: Bytes, b: Bytes, rest: Bytes, pos: nat, n: nat)
    requires pos <= |b|
    ensures Embeds(Many(TransactionAt, b, pos, n), Many(TransactionAt, Around(pre, b, rest), |pre| + pos, n), |pre|,
                   rest == [])
    ensures Many(TransactionAt, b, pos, n).Complete? ==> pos <= Many(TransactionAt, b, pos, n).next <= |b|
  {
    hide TransactionAt, Around;
    forall p: nat
      ensures Embeds(TransactionAt(b, p), TransactionAt(Around(pre, b, rest), |pre| + p), |pre|, rest == [])
      ensures TransactionAt(b, p).Complete? ==> p < TransactionAt(b, p).next <= |b|
    {
      TransactionEmbeds(pre, b, rest, p);
    }
    ManyEmbeds(TransactionAt, pre, b, rest, pos, n);
    ManyBounds(TransactionAt, b, pos, n, 1);
  }

  lemma EntryEmbeds(pre: Bytes, b: Bytes, rest: Bytes, pos: nat)
    ensures CompleteEmbeds(EntryAt(b, pos), EntryAt(Around(pre, b, rest), |pre| + pos), |pre|, rest == [])
    ensures EntryAt(b, pos).Complete? ==> pos + ENTRY_HEADER <= EntryAt(b, pos).next <= |b|
  {
    hide TransactionAt, LittleEndian, Many;
    if pos + ENTRY_HEADER <= |b| {
      AroundAt(pre, b, rest, pos, 48);
      LittleEndianEmbeds(pre, b, rest, pos + 40, 8);
      TransactionsEmbed(pre, b, rest, pos + ENTRY_HEADER, LittleEndian(b, pos + 40, 8));
    }
  }

  /** The transaction count of the entry at `pos` exceeds the bytes that follow it. */
  predicate CountOutruns(b: Bytes, pos: nat) {
    pos + ENTRY_HEADER <= |b| && LittleEndian(b, pos + 40, 8) > |b| - (pos + ENTRY_HEADER)
  }

  /** Appended bytes cure an entry error only if its count was ahead of the bytes. */
  lemma CurableEntryError(b: Bytes, rest: Bytes, pos: nat)
    requires EntryAt(b + rest, pos) != Malformed
    ensures EntryAt(b, pos) == Malformed <==> CountOutruns(b, pos)
  {
    hide TransactionAt, LittleEndian, Many;
    assert Around([], b, rest) == b + rest;
    if pos + ENTRY_HEADER <= |b| {
      LittleEndianEmbeds([], b, rest, pos + 40, 8);
      TransactionsEmbed([], b, rest, pos + ENTRY_HEADER, LittleEndian(b, pos + 40, 8));
    }
  }
}
