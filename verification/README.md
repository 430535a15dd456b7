# Verified model of the shredstream Go SDK

The SDK turns lossy, out-of-order UDP shreds into Solana transactions. This project models
its four connected parts in Dafny and proves what they promise:

1. **Erasure code** (`Galois`, `LinearAlgebra`, `Polynomials`, `Matrices`, `ReedSolomon`,
   `ErasureCoding`, `CodecCache`): from the table-filling loops of GF(256) and in-place
   Gauss-Jordan elimination up to "any `data` surviving shards restore everything".
2. **Decoders** (`Wire`, `Transactions`, `Decoder`, `Batches`, `Streaming`, `Serialization`,
   `Reading`): the wire format with its round trip in both directions, and the incremental
   decoder against the one-shot decoder under every chunking.
3. **Slot accumulator** (`Shreds`, `Packets`, `Recovery`, `SlotState`, `Filling`, `Epochs`,
   `Accumulators`, `Counterexamples`): an object whose pushes collect, stream, recover, flush
   and salvage, with the invariants every push keeps, the record of finished batches, and
   runs that end otherwise than one might expect.
4. **Listener and buffer pool** (`Pool`, `SlotLifecycle`, `Deliveries`, `Scenes`, `Listeners`,
   `EndToEnd`): slot admission, eviction, the blacklist, buffer ownership and deliveries over
   every interleaving of the sections the source runs under its lock, and the path from the
   bytes of a packet to the transactions that are delivered.

`dafny verify dfyconfig.toml` checks the whole project.

## How to read it

- Functions such as `Mul`, `Combine`, `MessageAt`, `BatchAt`, `Drain`, `Runs` and `NewOnes`
  are specifications. The methods carry the loops and in-place updates of the source and are
  proved equal to them; the lemmas say what the specifications mean.
- `Accumulator.Valid` holds between pushes: the boundary index lists exactly the flagged
  pending shreds, all keys lie between the batch start and 2^32-1, the counters add up to the
  number of finished batches, and `log` records each finished batch with its range, the
  shreds pending when it was finished and what was emitted since the batch before. Batches in
  the record follow each other without gap; in each, no first signature was emitted twice,
  and everything was emitted that its shreds decode to: as a whole if none was missing, run
  by run otherwise (`EpochOk`). `Clean` and `Settled` add the streaming-front facts that hold
  for packets that come in through the listener.
- `Settles` says what a step does: the record only grows, each batch added to it ends at the
  first boundary among the pending shreds and holds all of them in its range, anything else
  in it was recovered, and what lies past those batches is kept. With `exact` nothing was
  recovered. `CompleteIsEmitted` draws the conclusion that a complete batch is emitted.
- `View` is the state of an accumulator as far as pushes go. `Flushes` describes a flush round by
  round (`Closes`, `Waits`), `DataPushed` and `CodePushed` a push from one view to the next.
- `RecoversAll` says that every packet of an honest FEC set is there after recovery and is as
  received; `Served` that this holds if the set could be decoded (`Ripe`). `RipeExactly` says
  when it can: the packets that are here in full are at least as many as the set has data packets.
- `Packets` and `Serialization` write packets and batches field by field, independently of the
  readers; the readers are proved to invert them.
- `Scene` is the state of the listener as a value. `PacketTaken` says what a packet does to it,
  `Happens` what any event does, `Happened` what a run is.
- `Listener.Valid` adds the partition of the buffers, the slot lifecycle, the accounts and
  the deliveries. `Run` shows that every sequence of steps keeps it and is a run of `Happened`; `BufferConservation`,
  `SlotSafety`, `AccountsBalance`, `DeliveryConservation` and `StreamingFront` spell out what
  it means.
- Time is an argument, one value per step. Iteration over a Go map is an arbitrary choice.
- A Go sub-slice is a byte sequence with a position. Errors and absent values are datatypes.

## What the proofs show about the code

- Streaming does not always agree with batch decoding: an entry whose transaction count
  exceeds the bytes received so far is an error (`decoder.go:190-193`), and more bytes would
  cure it. `EarlyCutFails` gives the family of inputs; `PrefixFailsExactlyWhenShort` and
  `PushAll` give the exact condition on the split under which streaming succeeds.
- The loop over a batch at `accumulator.go:567` ends exactly when the boundary is below
  2^32-1 (`JoinLoopEnds`), and exactly then `completeBatch` lets the next batch start past it
  (`NextStartMovesOn`); so pushes are modelled for indices below 2^32-1.
- A flush can leave a complete batch behind. Its recovery can reveal an earlier boundary than
  the one the round looks at, and the batch before that boundary then waits for the next
  push: `BatchLeftBehind` is such a run. A round that stops leaves a complete batch if and only
  if its recovery revealed one (`FlushOne`).
- A flush can lose a complete batch. If the range up to the later boundary is complete after
  such a recovery, it is finished as one batch, and only the first batch in it is decoded:
  `BatchLost` is such a run, for any well-formed transaction in the second batch
  (`SampleIsGood` gives one). A finished range has a
  boundary inside if and only if the recovery of its round brought one below all others
  (`FlushOne`), and then only what is new in the first batch is emitted
  (`OnlyFirstIsEmitted`).
- Neither can happen if no buffered set has enough shreds when the flush begins (`TryFlush`).
- `MaxFECSetsPerSlot` is no hard cap: the number of sets grows past it exactly when a new set
  is below all buffered ones (`Enroll`), and any number can be reached (`CapIsNoBound`).
- The blacklist is more regular than its pruning suggests: in every reachable state it is
  exactly the set of evicted slots at most maxAge + 50 behind the newest slot
  (`SlotSafety`), also after a forced eviction.
- `encodeCompactU16` and `decodeCompactU16` are inverse exactly below 65536.

## Model

| member | source | states |
|---|---|---|
| `Galois.GeneratorOrder` | internal/galois/gf256.go:13-34 | the powers of 2 return to 1 after 255 steps and not before |
| `Galois.PowerSurjective` | internal/galois/gf256.go:13-34 | every nonzero byte is a power of 2, so the log table has an entry for it |
| `Galois.MulIsPolynomialProduct` | internal/galois/gf256.go:40-45 | multiplication through logarithms is, for all bytes, shift-and-add multiplication of polynomials modulo 0x11D |
| `Galois.MulAdd` | internal/galois/gf256.go:40-45 | multiplication distributes over xor, for all bytes |
| `Galois.MulAssociates` | internal/galois/gf256.go:40-45 | multiplication is associative, for all bytes |
| `Galois.InitTables` | internal/galois/gf256.go:13-34 | the loops fill exp with the powers of 2 (twice), log with their inverse and every row of the product table with the field product |
| `Galois.Tables.Times` | internal/galois/gf256.go:40-45 | the table lookup returns the field product, also for zero |
| `Galois.Tables.Div` | internal/galois/gf256.go:47-59 | the quotient times the divisor is the dividend; the panic on a zero divisor is the precondition |
| `Galois.Tables.Inv` | internal/galois/gf256.go:61-66 | the result times the argument is 1 |
| `Galois.Tables.Exp` | internal/galois/gf256.go:68-78 | the lookup at (log a * n) mod 255 is the n-fold product of a, with 0 to the power 0 equal to 1 |
| `Polynomials.RootCount` | internal/galois/matrix.go:26-34 | a polynomial with as many distinct roots as coefficients is zero: why Vandermonde rows are independent |
| `Polynomials.VandermondeIndependent` | internal/galois/matrix.go:26-34 | a square Vandermonde matrix over distinct points has trivial kernel |
| `Matrices.NewVandermonde` | internal/galois/matrix.go:26-34 | entry (r, c) is the byte r to the power c in the field; row numbers wrap around at 256 |
| `Matrices.Multiply` | internal/galois/matrix.go:53-69 | the three loops compute the matrix product |
| `LinearAlgebra.CombineAssociates` | internal/galois/matrix.go:53-69 | applying two matrices one after the other is applying their product |
| `LinearAlgebra.CombineToAdd` | internal/galois/matrix.go:53-69 | the product is linear in its left factor |
| `Matrices.Augment` | internal/galois/matrix.go:71-82 | each row is the left row followed by the right row |
| `Matrices.SubMatrix` | internal/galois/matrix.go:84-90 | the requested rows cut to the requested columns |
| `Matrices.ForwardPass` | internal/galois/matrix.go:101-126 | forward elimination with pivoting keeps the solutions, fails only when the leading columns are dependent, and otherwise leaves an echelon form |
| `Matrices.GaussianElim` | internal/galois/matrix.go:99-139 | in-place elimination keeps the solution set, and succeeds exactly when the leading square block has independent columns; then the block is the identity |
| `Matrices.EliminationInverts` | internal/galois/matrix.go:141-151 | whenever elimination of M beside the identity ends with the identity beside N, both M*N and N*M are the identity |
| `Matrices.Inverse` | internal/galois/matrix.go:141-151 | succeeds exactly when the kernel is trivial, and then returns a two-sided inverse, for every size |
| `ReedSolomon.NewReedSolomon` | fec.go:75-100 | which counts are refused and with which error; every other pair yields the systematic code, and the inversion inside never fails; row i of the coding matrix takes the values of any polynomial of `data` coefficients at the bytes 0 .. data-1 to its value at the byte i |
| `ReedSolomon.SystematicRow` | fec.go:83-92 | the top block of the coding matrix is the identity |
| `ReedSolomon.MaximumDistanceSeparable` | fec.go:83-92 | every choice of `data` distinct rows of the coding matrix is invertible |
| `ReedSolomon.CodecUnique` | fec.go:75-100 | the codec is determined by its two counts |
| `ReedSolomon.GeneratorEvaluates` | fec.go:83-92 | each row of the coding matrix takes the values of a polynomial at the bytes 0 .. data-1 to its value at the byte of the row's own index: which code it is, without naming the matrix |
| `ErasureCoding.CodewordsArePolynomials` | fec.go:83-120 | shards form a codeword if and only if every column is the values, at the bytes 0 .. total-1, of one polynomial of `data` coefficients |
| `ErasureCoding.MulSlice` | fec.go:251-266 | with its shortcuts for 0 and 1, overwrites the output with the scaled input |
| `ErasureCoding.MulSliceXor` | fec.go:268-282 | with its shortcuts for 0 and 1, adds the scaled input to the output |
| `ErasureCoding.CodeSomeSlices` | fec.go:235-249 | the outputs become the matrix-shard product of the inputs, which stay as they are, for all numbers and lengths of shards |
| `ErasureCoding.Encode` | fec.go:105-120 | exactly which inputs are refused and how; otherwise all shards form a codeword that starts with the unchanged data, and every column of it is the values of one polynomial of `data` coefficients at the bytes 0 .. total-1 |
| `ErasureCoding.Reconstruct` | fec.go:130-233 | succeeds exactly when enough shards of equal nonzero length are marked present; then every shard (or every data shard) is that of the codeword the present shards come from, the marks are set, and nothing but absent shards is written |
| `ErasureCoding.RoundTrip` | fec.go:105-233 | Encode, then any loss that leaves `data` shards and any contents in the lost buffers, then Reconstruct or ReconstructData: every shard (or data shard) is back |
| `CodecCache.ByLastUseMeaning` | fec.go:45-66 | the reference order: each used key once, ordered by its last use |
| `CodecCache.TouchTracksRecency` | fec.go:45-66 | rotating or evicting in the capped list keeps exactly the 32 most recently used keys of the uncapped one |
| `CodecCache.ReedSolomonCache.GetOrBuild` | fec.go:45-66 | returns a codec for the key or the error a fresh construction gives; keys stay the up to 32 most recently used successful keys in last-use order, aligned with their codecs |
| `CodecCache.CachedEqualsFresh` | fec.go:45-66 | a cached codec equals a freshly built one |
| `Wire.CompactU16RoundTrip` | decoder.go:383-416 | decoding an encoded value gives it back with its exact length if and only if it is below 65536 |
| `Transactions.MessageEmbeds` | decoder.go:238-381 | a finished or failed message decode does not depend on bytes before or after it |
| `Transactions.TransactionEmbeds` | decoder.go:209-236 | the same for transactions |
| `Transactions.EntryEmbeds` | decoder.go:181-207 | a complete entry decode does not depend on bytes before or after it, and has at least a header |
| `Transactions.CurableEntryError` | decoder.go:190-193 | an entry error that more bytes cure is exactly the transaction count exceeding the bytes so far |
| `Decoder.DecodeMessage` | decoder.go:238-381 | the loops over keys, instructions and lookups compute the message specification, incomplete and error outcomes included |
| `Decoder.DecodeTransaction` | decoder.go:209-236 | the same for transactions |
| `Decoder.DecodeEntry` | decoder.go:181-207 | the same for entries |
| `Batches.DecodeBatch` | decoder.go:109-179 | the loop computes the sequential entry decode behind the validated count; no batch is seen exactly if there are fewer than 8 bytes, the count is above 50,000, or 48 times the count exceeds the bytes |
| `Batches.DecodeConcatenated` | decoder.go:133-165 | the loop with its moving position computes the specification by repetition |
| `Batches.ConcatenatedUnfolds` | decoder.go:133-165 | the result is the first batch followed by the result on the remaining bytes, or empty when the first batch does not decode |
| `Serialization.TransactionRoundTrip` | decoder.go:209-236 | serialize(tx) inside any bytes decodes to tx with its exact length, for every well-formed legacy or v0 transaction |
| `Serialization.EntryAtRoundTrip` | decoder.go:181-207 | the same for entries |
| `Serialization.BatchRoundTrip` | decoder.go:109-131 | a serialized batch of up to 50,000 entries followed by anything decodes to all its transactions in order |
| `Serialization.LargestBatch` | decoder.go:167-179 | of the serialized batches of well-formed entries exactly those of at most 50,000 entries decode, and the others are seen as no batch |
| `Serialization.LargestCount` | decoder.go:75-84 | pushed alone, a count makes streaming fail exactly from 50,001 on |
| `Reading.SpellsTransaction` | decoder.go:209-236 | the converse of the round trip: whatever decodes as a transaction is well formed, and the bytes it was read from are its serialization with some compact lengths spelled differently |
| `Reading.DecodedAgain` | decoder.go:209-236 | the serialization of a decoded transaction decodes to it |
| `Reading.TransactionRefused` | decoder.go:209-250 | a transaction is an error if and only if its signature count is above 256 or the first byte of the message behind the signatures is above 0x80 |
| `Reading.AcceptedIsBatch` | decoder.go:109-131 | whatever DecodeBatch accepts is the serialization of at most 50,000 well-formed entries, up to the spelling of compact lengths, and their transactions are what it returns |
| `Serialization.EarlyCutFails` | decoder.go:181-193 | a decodable one-transaction batch whose first chunk ends right after the count makes the streaming decoder fail: agreement cannot be unconditional |
| `Streaming.YieldedIsPrefix` | decoder.go:75-107 | what is yielded from a buffer is a prefix of what is yielded from any longer buffer |
| `Streaming.StreamingAgreesWithBatch` | decoder.go:70-131 | without an error, all entries are yielded exactly when the batch decoder accepts the buffer, and the transactions are the same |
| `Streaming.PrefixFailsExactlyWhenShort` | decoder.go:181-193 | a cut of a decodable batch makes streaming fail exactly when it stops where an announced transaction count exceeds the bytes left |
| `Streaming.StreamingDecoder.Push` | decoder.go:70-107 | an error exactly when the extended buffer is in error; otherwise exactly the transactions that the extension made available; before the first entry is here, an error exactly when the count is above 50,000 |
| `Streaming.CountAlone` | decoder.go:75-107 | below 56 bytes a buffer is in error exactly if its count is there and above 50,000 |
| `Streaming.PushAll` | decoder.go:70-107 | for every split into chunks: which splits fail, the output is always a prefix, and with no error it is what the batch decoder returns |
| `Batches.BatchExtends` | decoder.go:109-131 | a batch that decodes is not affected by what follows it |
| `Shreds.RebuiltParses` | parser.go:93-175 | a data packet rebuilt from its protected region parses to the same shred when its size field lies inside that region |
| `Packets.VariantRoundTrip` | variant.go:67-83 | the variant byte of every variant is classified as that variant |
| `Packets.KnownIsGood` | variant.go:67-83 | and every byte that is classified is the variant byte of a variant |
| `Packets.CodePacketRoundTrip` | parser.go:93-216 | a code packet written from any slot, index, version, set index, counts, position, variant, body and Merkle data parses to exactly these, and what is kept of it is the packet without its Merkle data |
| `Packets.CodePacketRefused` | parser.go:177-196 | a code packet without data shreds, or at a position not below its coding shreds, is refused |
| `Packets.CodeParses` | parser.go:177-216 | the whole outcome for a code packet of any fields and any length |
| `Packets.CodeShredPrints` | parser.go:93-216 | written again from the parsed fields, a code packet is the packet that was parsed |
| `Packets.DataPacketRoundTrip` | parser.go:93-175 | a data packet written from any slot, index, version, set index up to the index, parent offset, flags, variant and payload parses to exactly these, whatever follows the payload |
| `Packets.DataParses` | parser.go:131-249 | the whole outcome for a data packet of any fields and any length: refused if the size field exceeds the packet, read without set, version and parent if the set index exceeds the index or the size field 1203 |
| `Packets.UnknownParses` | parser.go:113-129 | a packet of an unknown variant is read as a data packet without a set, and refused if the size field exceeds it |
| `Packets.EveryDataPacket` | parser.go:93-249 | every packet of at least 88 bytes is a data packet of some fields, so the outcomes above are all there are |
| `Packets.CodeSliceIsBody` | accumulator.go:116-130 | header, protected region and Merkle data make up a code packet of 1228 bytes, and what recovery takes of the kept part is exactly the region in between |
| `Packets.DataSliceIsMiddle` | accumulator.go:104-114 | of a data packet of 1203 bytes the code protects everything but signature and Merkle data |
| `Recovery.FecSet.RecordCode` | accumulator.go:79-98 | the first counts, the first variant and the first copy of each position win; a new position stores the given bytes; the set stays well-formed |
| `Recovery.TryReconstruct` | accumulator.go:140-224 | exactly when packets are rebuilt; then every missing position, in order and only those, and each packet is the rebuilt shard of any codeword the buffered shreds come from |
| `Pool.BufferPool.constructor` | pool.go:16-27 | all buffers are free, none listed twice |
| `Pool.BufferPool.Acquire` | pool.go:29-39 | pops one free buffer; fails exactly when there is none |
| `Pool.BufferPool.Release` | pool.go:41-45 | pushes a buffer that is not free |
| `SlotState.RunsAreMaximal` | accumulator.go:775-828 | the runs are non-empty, fully pending, as long as possible and in order |
| `SlotState.RunsCover` | accumulator.go:775-828 | together the runs are exactly the pending indices of the range |
| `SlotState.EmissionExtends` | accumulator.go:830-840 | emitting only first signatures not yet seen keeps emission free of repeats and leaves no signature out |
| `SlotState.StreamRunMeaning` | accumulator.go:367-416 | streaming stops only at a gap, a rebuilt shred, the end of a batch or an error; without an error the decoder was given exactly the payloads passed over and yielded what they add; an error is that of the payloads up to there |
| `Epochs.CompleteIsEmitted` | accumulator.go:527-597 | exactly once: if the first batch is here as a whole, a step that recovers nothing and leaves no batch complete has finished it; in the pushes since the batch before, no first signature was emitted twice and every transaction it decodes to was emitted |
| `Epochs.OnlyFirstIsEmitted` | accumulator.go:565-596 | a round that finishes a range with a boundary inside emits only what is new in the batch up to that boundary, and nothing that the shreds behind it hold |
| `Epochs.QuietFlush` | accumulator.go:527-564 | if nothing can be recovered and the first batch is incomplete and has not waited long enough, a flush changes nothing |
| `SlotState.JoinLoopEnds` | accumulator.go:567 | the 32-bit loop over a batch ends if and only if the last index is below 2^32-1 |
| `Accumulators.Accumulator.Deliver` | accumulator.go:407-411 | emits exactly the transactions with a new first signature, in order, and remembers them |
| `Accumulators.Accumulator.SalvageRuns` | accumulator.go:775-828 | terminates for every range up to 2^32-1 and emits the new transactions of each maximal run, once and in order |
| `Accumulators.Accumulator.CompleteBatch` | accumulator.go:632-657 | everything up to the boundary is dropped and its buffers freed, boundaries and FEC sets that end there are forgotten, the next batch starts right behind it (saturating, which makes no difference below 2^32-1), the cursor moves on, the decoder, the signatures and the current emission start over, the batch is recorded with the shreds pending at that moment, and the counters account for it |
| `Accumulators.Accumulator.StreamOne` | accumulator.go:400-411 | fails exactly when the decoder does; otherwise emits the new ones among what the payload made available |
| `Accumulators.Accumulator.DropCorrupt` | accumulator.go:379-399 | exactly the shred at the cursor is dropped; if it ended a batch that has begun, that batch is recorded as finished from the shreds left, otherwise nothing else changes |
| `Accumulators.Accumulator.AdvanceStreaming` | accumulator.go:367-416 | with every payload there, cursor, decoder and emission are those of `StreamRun`: fail exactly when it does, and emit each transaction it yields once |
| `Accumulators.Accumulator.SelectRecoverable` | accumulator.go:489-525 | the hinted set if it can be recovered, in particular whenever it can be decoded; otherwise the first set over the cursor that can; a set is chosen only if its data and code shreds are at least as many as its data packets, and none only if no set over the cursor has as many |
| `Accumulators.Accumulator.TryFecFill` | accumulator.go:418-487 | which set is chosen; either nothing changes or that set is used up; every shred entered is what receiving the lost packet would have stored, and new boundaries carry the current time; if the chosen set can be decoded, every lost packet that would be kept is entered; the slot becomes complete exactly when a last shred is among the rebuilt packets |
| `Filling.RecoveryIsReceipt` | accumulator.go:418-487 | if the buffered shreds come from one honest codeword whose size fields lie in the protected region, each recovered entry has the payload, flag and set index of the lost packet |
| `Listeners.ReceiptIsSame` | listener.go:189-217 | what receipt through the listener stores for a packet is what recovery stores for it, up to where the bytes live |
| `Filling.MissingAreRecovered` | accumulator.go:418-487 | and every lost packet of the set that receipt would store is there |
| `Filling.RipeExactly` | accumulator.go:140-180 | a set can be decoded if and only if the data and code packets of it that are here in full are at least as many as it has data packets |
| `Filling.RipeIsFillable` | accumulator.go:100-102 | a set that can be decoded passes the test that decides whether recovery is tried |
| `Epochs.GapIsFilled` | accumulator.go:536-549 | a missing index of the batch a flush looks at, whose set can be decoded, is there after the recovery of that round |
| `Accumulators.Accumulator.SmallestBoundary` | accumulator.go:612-630 | the first boundary from the given index on, or none |
| `Filling.PursueHint` | accumulator.go:536-549 | trying a set after any number of other recoveries serves it as well as trying it first |
| `Accumulators.Accumulator.CountPending` | accumulator.go:599-610 | the count reaches the length of the range exactly when nothing is missing |
| `Accumulators.Accumulator.FinishWhole` | accumulator.go:566-595 | decodes the joined payloads of a complete batch, emits what is new, counts the batch in exactly one way and records it |
| `Accumulators.Accumulator.GiveUp` | accumulator.go:552-560 | salvages the runs of an incomplete batch, emits what is new, counts the batch and records it |
| `Accumulators.Accumulator.FillIfIncomplete` | accumulator.go:533-549 | if the batch was incomplete, every FEC set that reaches into it and could be decoded has brought all its packets; the answer is whether the batch is complete then |
| `Accumulators.Accumulator.TryFlush` | accumulator.go:527-597 | terminates although recovery adds boundaries; it is a sequence of rounds that finish the first batch each, and one that stops (`Flushes`); every batch it finishes ends at the first boundary among the pending shreds, holds all of them in its range and, without recovery, nothing else; what it decodes to has been emitted once; streaming is left with no unflushed boundary behind it; if no set could be recovered, no complete batch is left, no finished batch has a boundary inside and the slot is not marked complete |
| `Accumulators.Accumulator.FlushOne` | accumulator.go:528-596 | one round, for the first boundary: it finishes the batch exactly when nothing is missing after recovery or it has waited long enough, and otherwise stops; a stop leaves a complete batch behind if and only if recovery revealed a boundary below all others with nothing missing before it; a finished range has a boundary strictly inside if and only if recovery brought one below all others; emission, restart of streaming and progress are stated for both |
| `Accumulators.Accumulator.PushData` | accumulator.go:269-320 | keeps all state invariants; the buffer ends up free or with the pending shred; the new state is that of `DataPushed`: the shred is stored and streamed, its FEC set is recovered unless streaming has passed it, and batches are flushed round by round; batches finished on the way draw on the pending shreds with the new one among them, everything past them is kept; the slot becomes complete by a last shred, and not otherwise if nothing can be recovered; the output is exactly what was emitted, streamed transactions first |
| `Accumulators.Accumulator.MakeRoom` | accumulator.go:331-344 | a set is evicted exactly when the sets are at the cap, the new one is not among them and is not below them all; it is the smallest |
| `Accumulators.Accumulator.Enroll` | accumulator.go:331-352 | the number of sets grows past the cap exactly when a new set is below all those there are |
| `Counterexamples.CapIsNoBound` | accumulator.go:331-344 | for every cap and every count, code shreds of ever smaller sets pushed to a new accumulator make that many sets |
| `Counterexamples.BatchLeftBehind` | accumulator.go:311-319 | three pushes to a new accumulator after which a complete batch is left behind: the flush recovers the end of a batch, and stops because the later batch it looked at is incomplete |
| `Counterexamples.BatchLost` | accumulator.go:536-596 | for every well-formed transaction: four pushes to a new accumulator after which the shreds 2..3, which decode to that transaction, are finished with together with the batch 0..1 that recovery completed, and nothing was ever emitted |
| `Accumulators.Accumulator.PushCode` | accumulator.go:322-353 | keeps all state invariants and all buffers; the shred is recorded in its set; the new state is that of `CodePushed`: if that set can then be decoded, every packet of it is pending or finished with afterwards, and batches are flushed round by round; the output is exactly what was emitted |
| `Accumulators.Accumulator.FinishAll` | accumulator.go:671-730 | every batch whose end is here is finished and recorded, one after the other, decoded as a whole if complete and run by run if not |
| `Accumulators.Accumulator.HarvestRest` | accumulator.go:732-762 | the runs after the last boundary are decoded once, in order |
| `Accumulators.Accumulator.TryHarvestTail` | accumulator.go:659-773 | every FEC set that can be decoded brings its packets; every batch whose end is here then is finished as for `FinishAll`; every transaction the remaining runs decode to has been emitted; what was produced is counted, and returned unless delivery is switched off |
| `Accumulators.Accumulator.ReleaseAll` | accumulator.go:25-31 | all buffers go back to the pool |
| `Listeners.Listener.constructor` | listener.go:122-136 | the initial state satisfies every invariant |
| `Listeners.Listener.AcceptSlot` | listener.go:280-298 | a slot is acceptable exactly if it is at most 2^40, at most 10,000,000,000 before the first slot, at most 1,000,000 ahead of the newest one after it, and live or one of fewer than 64 |
| `SlotLifecycle.BlacklistIsWindow` | listener.go:354-361 | the blacklist is exactly the evicted slots inside the window, so it has at most maxAge + 51 entries |
| `SlotLifecycle.GiveBackAll` | listener.go:348-349 | freeing all buffers of one slot keeps the partition of the buffers |
| `Listeners.Listener.Retire` | listener.go:329-352 | one evicted slot: every FEC set that can be decoded brings its packets, every batch whose end is here then is finished, what the rest decodes to has been emitted, and what was emitted by this is queued for delivery; the slot is counted as completed or evicted by its flag, and as harvested if anything was emitted, its buffers are freed and it is blacklisted; the other slots keep their state |
| `Listeners.Listener.EvictOldSlots` | listener.go:316-362 | the live slots afterwards are exactly those that are not overdue, with their state: an incomplete one stays while the newest slot is at most maxAge ahead, a complete one while it is at most 1 ahead; the blacklist is exactly its window |
| `Listeners.Listener.ForceEvictOldest` | listener.go:364-398 | evicts the smallest live slot, if any |
| `Listeners.Listener.AcquireWithFallback` | listener.go:300-314 | a buffer that nobody else holds, or none and then no buffer is free; evicts only when none was free, and then no slot but overdue ones and the oldest of the others; the slots that stay keep their state; other receivers may release theirs between the attempts |
| `Listeners.Listener.Admit` | listener.go:208-216 | the slot becomes live, the newest slot is updated and overdue slots leave if it is newer; an accumulator that was there keeps its state, and so do all other slots that stay |
| `Listeners.Listener.HandleParsed` | listener.go:188-260 | a packet of an unacceptable or blacklisted slot changes no slot, nor does a code shred without recovery; otherwise its slot is live afterwards and moves as `DataPushed` or `CodePushed` say, with the shred as it was parsed, and all other slots that stay keep their state; what the slot emits is delivered; the packet is counted by its fate and its buffer leaves the receiver |
| `Listeners.Listener.HandleOwned` | listener.go:176-186 | a packet that does not parse changes no slot and is counted by its error; any other is taken as for `HandleParsed`; its bytes are counted, its buffer leaves the receiver, and what its slot emits is delivered |
| `Listeners.Listener.HandlePacket` | listener.go:156-174 | with a free buffer the packet is taken as for `HandleOwned` from the state it finds; without one, from the state after eviction, or it is lost if that frees none; takes no buffer from a receiver that does not release it |
| `Listeners.Listener.StartReceive` | listener.go:423-440 | the oldest queued batch and nothing else changes, or a buffer that nobody else holds, with slots evicted only if none was free |
| `Listeners.Listener.Pop` | listener.go:424-429 | the oldest queued batch is handed out and is delivered then |
| `Listeners.Listener.Run` | listener.go:422-461 | over every sequence of packets, receiver starts, failures and arrivals, in any interleaving and with releases between the attempts of an acquisition: each event takes the state it finds to the next as `Happens` says, the output is what the events hand out one after the other and everything delivered, all invariants hold, lastSlot never decreases and evictions are never undone |
| `Scenes.RunGrows` | listener.go:156-461 | in every run, from any of its states to any later one, the newest slot is not lowered and no eviction is forgotten |
| `EndToEnd.BatchDelivered` | listener.go:156-237 | a data packet written with a whole batch of well-formed entries in it, for any acceptable slot between batches and any index: the packet delivers the transactions of the batch, each first signature once and in order, and the slot is between batches again |
| `EndToEnd.SendBatches` | listener.go:156-237 | any number of batches sent as the packets 0, 1, 2, ... of a slot to a listener with nothing else to do are delivered batch by batch, in order, and nothing else is |
| `EndToEnd.FirstPacket` | listener.go:156-237 | a new listener given one packet with a batch of one transaction, for any slot up to 10,000,000,000, any settings and any well-formed transaction with a signature, delivers that transaction |
| `Listeners.BufferConservation` | pool.go:29-45 | in every reachable state every buffer is free, with a receiver or with a pending shred, and in one place only |
| `Listeners.SlotSafety` | listener.go:280-398 | in every reachable state: at most 64 live slots, none blacklisted; the blacklist is the window of evicted slots; no slot in it is live |
| `Listeners.AccountsBalance` | listener.go:329-412 | in every reachable state: accumulators created = live + completed + evicted; each packet counted once; the three batch counters, summed over rolled-up and live accumulators, equal the number of batches ever finished; every finished batch emitted what it decodes to, once; no batch given up for a missing payload |
| `Listeners.DeliveryConservation` | listener.go:329-348 | in every reachable state with salvage on, for each slot: transactions delivered and queued = transactions its accumulators, past and present, have emitted |
| `Listeners.StreamingFront` | accumulator.go:367-416 | in every reachable state: what streaming has passed is pending, pool-backed and ends no batch; boundaries are exactly the flagged shreds; every payload lies inside its buffer |

## Left out

- Sockets, deadlines, I/O error classification, contexts and iterators (`listener.go:75-154`, `listener.go:463-604`): a receiver is two steps, starting and then failing or committing what it read.
- Real clocks: `time.Now` and `time.Since` become one timestamp per step.
- Metric getters under concurrency (`listener.go:607-746`): accounts are stated between steps.
- `tuning*.go`, `examples/`, `options.go`, `error.go`: configuration is taken as parameters.
- Shred signatures and Merkle proofs: the source never verifies them; only their sizes are modelled.
- Counters are unbounded integers: 64-bit wrap-around of counters is not modelled.
- Accumulators.Accumulator.PushData: excludes index 2^32-1, where the loop at `accumulator.go:567` does not end.
- Accumulators.Accumulator.PushCode: excludes fecSetIndex + numData >= 2^32, where the 32-bit sums of the source wrap around.
- Listeners.Listener.HandleParsed: excludes both.
- Listeners.Listener.HandleOwned: excludes both.
- Listeners.Listener.HandlePacket: excludes both.
- Listeners.Listener.Run: excludes both in every packet.
- Buffer memory: a pool handle carries the bytes received into it as a value, so sharing of the memory behind a buffer number is not captured; that no number has two holders is.
- Nil handles: every push has a buffer.
- The path from bytes to delivery is followed through for batches that fit one packet; that a batch of several packets is emitted is stated for the accumulator (`CompleteIsEmitted`, `TryFlush`).
- FEC sets, codecs, matrix rows and shard lists are values; shard buffers and the rows of the eliminated matrix are updated in place.
- Scratch buffers that the source reuses between calls are local values.
- The accumulator's decoder buffer is not claimed to start at the batch start: after a streaming error or a second streaming pass it restarts in the middle of a batch. The emission guarantees do not depend on it.
- Releases of receivers whose read or parse failed happen outside the listener's lock. They are interleaved between steps and between the attempts of an acquisition; anywhere else they only change the order of the free list, which is not modelled for them.
- `sort.Slice` before iterating is modelled as repeatedly taking the smallest remaining index.
- ErasureCoding.Encode: requires that no two non-empty shard buffers are the same array; the source gives no result for shared buffers.
- ErasureCoding.Reconstruct: the same requirement on shard buffers.
- `ParseShred` and the raw-shred iterator.
