/** FEC sets: collecting code shreds and rebuilding lost data shreds (accumulator.go). */
module Recovery {
  import Galois
  import opened Wire
  import opened Shreds
  import opened LinearAlgebra
  import opened ReedSolomon
  import opened ErasureCoding
  import opened CodecCache

  datatype MaybeVariant = Of(variant: Variant) | NoVariant

  /** fecSetBuffer: the first counts and variant seen, and one copy per code position. */
  datatype FecSet = FecSet(numData: nat, numCoding: nat, shardSize: int, variant: MaybeVariant, code: map<nat, Bytes>) {

    ghost predicate Ok() {
      && (variant.NoVariant? ==> shardSize == 0)
      && (variant.Of? ==> variant.variant.proofSize < 16)
      && (variant.Of? && variant.variant.kind == CodeMerkle ==> shardSize == ShardSize(variant.variant))
    }

    /** recordCode: the first counts, variant and copy win. */
    function RecordCode(position: nat, nd: nat, nc: nat, raw: Bytes, v: Variant): (f: FecSet)
      requires Ok() && v.proofSize < 16
      ensures f.Ok() && f.code.Keys == code.Keys + {position}
      ensures forall k :: k in code ==> f.code[k] == code[k]
      ensures position !in code ==> f.code[position] == raw
      ensures numData != 0 ==> f.numData == numData
      ensures numCoding != 0 ==> f.numCoding == numCoding
      ensures variant.Of? ==> f.variant == variant && (shardSize != 0 ==> f.shardSize == shardSize)
      ensures this == EMPTY_SET ==> f.numData == nd && f.numCoding == nc && f.variant == Of(v)
    {
      FecSet(
        if numData == 0 then nd else numData,
        if numCoding == 0 then nc else numCoding,
        if shardSize == 0 && v.kind == CodeMerkle then ShardSize(v) else shardSize,
        if variant.NoVariant? then Of(v) else variant,
        if position in code then code else code[position := raw])
    }

    predicate CanRecoverWith(dataReceived: nat) {
      numData > 0 && dataReceived + |code| >= numData
    }

    /** The set can be decoded at all: counts known and a Merkle code variant. */
    predicate Decodable() {
      numData != 0 && shardSize != 0 && variant.Of? && variant.variant.kind == CodeMerkle
    }
  }

  const EMPTY_SET := FecSet(0, 0, 0, NoVariant, map[])

  /** A data shred of the set: its position and its packet bytes. */
  datatype DataRef = DataRef(pos: nat, raw: Bytes)

  datatype Attempt = Recovered(refs: seq<DataRef>) | ReconstructFailed

  predicate HasPosition(refs: seq<DataRef>, pos: int) {
    exists k :: 0 <= k < |refs| && refs[k].pos == pos
  }

  /** Shard `i` as found among the buffered shreds. */
  ghost predicate Usable(f: FecSet, refs: seq<DataRef>, i: nat, shard: Bytes)
    requires f.Ok() && f.Decodable()
  {
    if i < f.numData then
      exists k :: 0 <= k < |refs| && refs[k].pos == i
        && DataShardSlice(refs[k].raw, VariantAsData(f.variant.variant)) == Slice(shard)
    else
      i - f.numData in f.code && CodeShardSlice(f.code[i - f.numData], f.variant.variant) == Slice(shard)
  }

  /** Every buffered shred carries its shard of `word`. */
  ghost predicate Honest(f: FecSet, refs: seq<DataRef>, word: Matrix)
    requires f.Ok() && f.Decodable()
  {
    forall i, shard :: 0 <= i < |word| && Usable(f, refs, i, shard) ==> shard == word[i]
  }

  method CopyShard(shard: Bytes) returns (buffer: array<Byte>)
    ensures fresh(buffer) && buffer[..] == shard
  {
    buffer := new Byte[|shard|];
    for i := 0 to |shard|
      invariant forall k :: 0 <= k < i ==> buffer[k] == shard[k]
    {
      buffer[i] := shard[i];
    }
  }

  /** The copied shards; absent ones share one empty buffer. */
  ghost predicate Collected(f: FecSet, refs: seq<DataRef>, shards: seq<array<Byte>>, present: seq<bool>)
    requires f.Ok() && f.Decodable()
    reads shards
  {
    && |shards| == |present| == f.numData + f.numCoding
    && Unaliased(shards)
    && (forall i :: 0 <= i < |present| ==> (present[i] <==> shards[i].Length > 0))
    && (forall i :: 0 <= i < |present| && present[i] ==>
        Usable(f, refs, i, shards[i][..]) && shards[i].Length == f.shardSize)
  }

  lemma UsableLength(f: FecSet, refs: seq<DataRef>, i: nat, shard: Bytes)
    requires f.Ok() && f.Decodable() && Usable(f, refs, i, shard)
    ensures |shard| == f.shardSize > 0
  {
    ShardSizeBounds(f.variant.variant);
  }

  /** Copy one usable shard into its slot. */
  method Place(f: FecSet, refs: seq<DataRef>, shards: seq<array<Byte>>, present: seq<bool>, i: nat, shard: Bytes)
    returns (slots: seq<array<Byte>>, marked: seq<bool>)
    requires f.Ok() && f.Decodable() && Collected(f, refs, shards, present) && i < |present| && !present[i]
    requires Usable(f, refs, i, shard)
    ensures Collected(f, refs, slots, marked)
    ensures marked == present[i := true]
    ensures forall k :: 0 <= k < |slots| ==> slots[k] == shards[k] || fresh(slots[k])
  {
    UsableLength(f, refs, i, shard);
    var buffer := CopyShard(shard);
    hide Usable;
    slots, marked := shards[i := buffer], present[i := true];
  }

  lemma NoneAliased(buffers: seq<array<Byte>>, none: array<Byte>)
    requires none.Length == 0 && forall i :: 0 <= i < |buffers| ==> buffers[i] == none
    ensures Unaliased(buffers)
  {}

  lemma CodeUsable(f: FecSet, refs: seq<DataRef>, pos: nat, shard: Bytes)
    requires f.Ok() && f.Decodable() && pos in f.code && CodeShardSlice(f.code[pos], f.variant.variant) == Slice(shard)
    ensures Usable(f, refs, f.numData + pos, shard)
  {}

  lemma RefUsable(f: FecSet, refs: seq<DataRef>, k: nat, shard: Bytes)
    requires f.Ok() && f.Decodable() && k < |refs| && refs[k].pos < f.numData
    requires DataShardSlice(refs[k].raw, VariantAsData(f.variant.variant)) == Slice(shard)
    ensures Usable(f, refs, refs[k].pos, shard)
  {}

  /** Code position `pos` is marked present exactly if its shard can be used. */
  ghost predicate CodeMarked(f: FecSet, present: seq<bool>, pos: nat)
    requires f.Ok() && f.Decodable() && pos in f.code
  {
    f.numData + pos < |present| ==>
        (present[f.numData + pos] <==> CodeShardSlice(f.code[pos], f.variant.variant).Slice?)
  }

  ghost predicate CodeUnmarked(f: FecSet, present: seq<bool>, pos: nat) {
    f.numData + pos < |present| ==> !present[f.numData + pos]
  }

  method PlaceCode(f: FecSet, refs: seq<DataRef>, shards: seq<array<Byte>>, present: seq<bool>, pos: nat)
    returns (slots: seq<array<Byte>>, marked: seq<bool>)
    requires f.Ok() && f.Decodable() && Collected(f, refs, shards, present)
    requires pos in f.code && CodeUnmarked(f, present, pos)
    ensures Collected(f, refs, slots, marked) && |marked| == |present| && CodeMarked(f, marked, pos)
    ensures forall i :: 0 <= i < |marked| && i != f.numData + pos ==> marked[i] == present[i]
    ensures forall k :: 0 <= k < |slots| ==> slots[k] == shards[k] || fresh(slots[k])
  {
    hide ShardSize, CodeShardSlice, Usable, Unaliased;
    slots, marked := shards, present;
    var idx := f.numData + pos;
    if idx < |present| {
      var slice := CodeShardSlice(f.code[pos], f.variant.variant);
      if slice.Slice? {
        CodeUsable(f, refs, pos, slice.bytes);
        slots, marked := Place(f, refs, shards, present, idx, slice.bytes);
      }
    }
  }

  /** The loop over buffered code shreds, in any order. */
  method CollectCode(f: FecSet, refs: seq<DataRef>) returns (shards: seq<array<Byte>>, present: seq<bool>)
    requires f.Ok() && f.Decodable()
    ensures Collected(f, refs, shards, present)
    ensures forall i :: 0 <= i < |shards| ==> fresh(shards[i])
    ensures forall i :: 0 <= i < f.numData ==> !present[i]
    ensures forall pos :: pos in f.code ==> CodeMarked(f, present, pos)
  {
    hide ShardSize, CodeShardSlice, Usable, Unaliased, FecSet.Ok;
    var total := f.numData + f.numCoding;
    var none := new Byte[0];
    shards, present := seq(total, _ => none), seq(total, _ => false);
    NoneAliased(shards, none);
    var todo := f.code.Keys;
    while todo != {}
      invariant todo <= f.code.Keys
      invariant Collected(f, refs, shards, present)
      invariant forall i :: 0 <= i < |shards| ==> fresh(shards[i])
      invariant forall i :: 0 <= i < f.numData ==> !present[i]
      invariant forall pos :: pos in todo ==> CodeUnmarked(f, present, pos)
      invariant forall pos :: pos in f.code && pos !in todo ==> CodeMarked(f, present, pos)
      decreases todo
    {
      var pos :| pos in todo;
      todo := todo - {pos};
      shards, present := PlaceCode(f, refs, shards, present, pos);
    }
  }

  ghost predicate UsableRef(f: FecSet, r: DataRef)
    requires f.Ok() && f.Decodable()
  {
    r.pos < f.numData && DataShardSlice(r.raw, VariantAsData(f.variant.variant)).Slice?
  }

  /** The loop over received data shreds. */
  method CollectData(f: FecSet, refs: seq<DataRef>, shards0: seq<array<Byte>>, present0: seq<bool>)
    returns (shards: seq<array<Byte>>, present: seq<bool>)
    requires f.Ok() && f.Decodable() && Collected(f, refs, shards0, present0)
    requires forall i :: 0 <= i < f.numData ==> !present0[i]
    ensures Collected(f, refs, shards, present)
    ensures forall i :: 0 <= i < |shards| ==> shards[i] == shards0[i] || fresh(shards[i])
    ensures |present| == |present0| && forall i :: f.numData <= i < |present| ==> present[i] == present0[i]
    ensures forall k :: 0 <= k < |refs| && UsableRef(f, refs[k]) ==> present[refs[k].pos]
  {
    hide ShardSize, DataShardSlice, Usable, Unaliased;
    shards, present := shards0, present0;
    for n := 0 to |refs|
      invariant Collected(f, refs, shards, present)
      invariant forall i :: 0 <= i < |shards| ==> shards[i] == shards0[i] || fresh(shards[i])
      invariant |present| == |present0| && forall i :: f.numData <= i < |present| ==> present[i] == present0[i]
      invariant forall k :: 0 <= k < n && UsableRef(f, refs[k]) ==> present[refs[k].pos]
    {
      var p := refs[n].pos;
      if p < f.numData && !present[p] {
        var slice := DataShardSlice(refs[n].raw, VariantAsData(f.variant.variant));
        if slice.Slice? {
          RefUsable(f, refs, n, slice.bytes);
          shards, present := Place(f, refs, shards, present, p, slice.bytes);
        }
      }
    }
  }

  method CountPresent(present: seq<bool>) returns (have: nat)
    ensures have == CountTrue(present, |present|)
  {
    have := 0;
    for i := 0 to |present|
      invariant have == CountTrue(present, i)
    {
      if present[i] {
        have := have + 1;
      }
    }
  }

  /** The positions that were missing, each as a rebuilt packet. */
  method RebuildMissing(f: FecSet, refs: seq<DataRef>, slots: seq<array<Byte>>, ghost bytes: Matrix)
    returns (out: seq<DataRef>)
    requires f.Ok() && f.Decodable() && f.numData <= |slots| && bytes == Contents(slots)
    requires forall i :: 0 <= i < f.numData ==> slots[i].Length == f.shardSize <= 1107
    ensures forall k :: 0 <= k < |out| ==>
              && out[k].pos < f.numData && !HasPosition(refs, out[k].pos)
              && |bytes[out[k].pos]| <= 1107 && out[k].raw == Rebuilt(bytes[out[k].pos])
    ensures forall i, j :: 0 <= i < j < |out| ==> out[i].pos < out[j].pos
    ensures forall pos :: 0 <= pos < f.numData && !HasPosition(refs, pos) ==> HasPosition(out, pos)
  {
    hide Rebuilt;
    out := [];
    for pos := 0 to f.numData
      invariant forall k :: 0 <= k < |out| ==>
                  && out[k].pos < pos && !HasPosition(refs, out[k].pos)
                  && |bytes[out[k].pos]| <= 1107 && out[k].raw == Rebuilt(bytes[out[k].pos])
      invariant forall i, j :: 0 <= i < j < |out| ==> out[i].pos < out[j].pos
      invariant forall p :: 0 <= p < pos && !HasPosition(refs, p) ==> HasPosition(out, p)
    {
      if !HasPosition(refs, pos) {
        ghost var before := out;
        out := out + [DataRef(pos, Rebuilt(slots[pos][..]))];
        assert out[|before|].pos == pos;
        forall p | 0 <= p < pos && !HasPosition(refs, p) ensures HasPosition(out, p) {
          var k :| 0 <= k < |before| && before[k].pos == p;
          assert out[k].pos == p;
        }
      }
    }
  }

  /** What reconstruction promises about the packets it returns. */
  ghost predicate Rebuilds(f: FecSet, refs: seq<DataRef>, out: seq<DataRef>)
    requires f.Ok() && f.Decodable()
  {
    && (forall k :: 0 <= k < |out| ==>
        out[k].pos < f.numData && !HasPosition(refs, out[k].pos) && |out[k].raw| == DATA_SHRED_PAYLOAD_LEN)
    && (forall i, j :: 0 <= i < j < |out| ==> out[i].pos < out[j].pos)
    && (forall pos :: 0 <= pos < f.numData && !HasPosition(refs, pos) ==> HasPosition(out, pos))
    && (forall c: Codec, word: Matrix ::
          CodecFor(c, (f.numData, f.numCoding)) && Codeword(c, word, f.shardSize) && Honest(f, refs, word) ==>
          forall k :: 0 <= k < |out| ==> |word[out[k].pos]| <= 1107 && out[k].raw == Rebuilt(word[out[k].pos]))
  }

  lemma MarksSurvive(f: FecSet, before: seq<bool>, after: seq<bool>)
    requires f.Ok() && f.Decodable() && |after| == |before|
    requires forall i :: f.numData <= i < |after| ==> after[i] == before[i]
    requires forall pos :: pos in f.code ==> CodeMarked(f, before, pos)
    ensures forall pos :: pos in f.code ==> CodeMarked(f, after, pos)
  {
    hide CodeShardSlice;
  }

  ghost predicate HasShard(f: FecSet, refs: seq<DataRef>, i: nat)
    requires f.Ok() && f.Decodable()
  {
    exists shard :: Usable(f, refs, i, shard)
  }

  /** Which shards of the set can be used. */
  ghost function Available(f: FecSet, refs: seq<DataRef>): seq<bool>
    requires f.Ok() && f.Decodable()
  {
    seq(f.numData + f.numCoding, i requires i >= 0 => HasShard(f, refs, i))
  }

  /** At least `numData` usable shards. */
  ghost predicate Enough(f: FecSet, refs: seq<DataRef>)
    requires f.Ok() && f.Decodable()
  {
    CountTrue(Available(f, refs), f.numData + f.numCoding) >= f.numData
  }

  lemma PresentIsAvailable(f: FecSet, refs: seq<DataRef>, bytes: Matrix, present: seq<bool>)
    requires f.Ok() && f.Decodable() && |bytes| == |present| == f.numData + f.numCoding
    requires forall i :: 0 <= i < |present| && present[i] ==> Usable(f, refs, i, bytes[i])
    requires forall pos :: pos in f.code ==> CodeMarked(f, present, pos)
    requires forall k :: 0 <= k < |refs| && UsableRef(f, refs[k]) ==> present[refs[k].pos]
    ensures present == Available(f, refs)
  {
    hide DataShardSlice, CodeShardSlice;
    forall i | 0 <= i < |present| ensures present[i] <==> HasShard(f, refs, i) {
      if HasShard(f, refs, i) {
        var shard :| Usable(f, refs, i, shard);
        if i < f.numData {
          var k :| 0 <= k < |refs| && refs[k].pos == i
            && DataShardSlice(refs[k].raw, VariantAsData(f.variant.variant)) == Slice(shard);
          assert UsableRef(f, refs[k]);
        } else {
          assert CodeMarked(f, present, i - f.numData);
        }
      }
    }
  }

  lemma AvailableLength(f: FecSet, refs: seq<DataRef>)
    requires f.Ok() && f.Decodable()
    ensures |Available(f, refs)| == f.numData + f.numCoding
  {}

  /** Copy every usable shard of the set. */
  method Collect(f: FecSet, refs: seq<DataRef>) returns (shards: seq<array<Byte>>, present: seq<bool>, have: nat)
    requires f.Ok() && f.Decodable()
    ensures Collected(f, refs, shards, present) && present == Available(f, refs)
    ensures have >= f.numData <==> Enough(f, refs)
    ensures forall i :: 0 <= i < |shards| ==> fresh(shards[i])
  {
    hide Usable, Unaliased, CodeMarked, UsableRef, Available, FecSet.Ok;
    shards, present := CollectCode(f, refs);
    ghost var codeOnly := present;
    shards, present := CollectData(f, refs, shards, present);
    MarksSurvive(f, codeOnly, present);
    PresentIsAvailable(f, refs, Contents(shards), present);
    have := CountPresent(present);
    AvailableLength(f, refs);
  }

  /** tryReconstruct: nothing while too little is known, an error if the counts admit no
      codec, otherwise every missing data position, rebuilt. */
  method TryReconstruct(t: Galois.Tables, f: FecSet, refs: seq<DataRef>, cache: ReedSolomonCache) returns (a: Attempt)
    requires t.Valid() && f.Ok() && cache.Valid()
    modifies cache
    ensures cache.Valid()
    ensures !f.Decodable() || !Enough(f, refs) ==> a == Recovered([])
    ensures f.Decodable() && Enough(f, refs) ==> (a.Recovered? <==> f.numData + f.numCoding <= 256)
    ensures f.Decodable() && Enough(f, refs) && a.Recovered? ==> Rebuilds(f, refs, a.refs)
  {
    if !f.Decodable() {
      return Recovered([]);
    }
    hide Collected, CodecFor, Rebuilds, Available, Enough, FecSet.Ok, LastN, ByLastUse;
    var shards, present, have := Collect(f, refs);
    ghost var before := Contents(shards);
    if have < f.numData {
      return Recovered([]);
    }
    var build := cache.GetOrBuild(t, f.numData, f.numCoding);
    if build.Refused? {
      return ReconstructFailed;
    }
    a := RebuildFrom(t, f, refs, build.codec, shards, present, before);
  }

  /** Reconstruct the data shards and cut the missing ones out as packets. */
  method RebuildFrom(t: Galois.Tables, f: FecSet, refs: seq<DataRef>, c: Codec, shards: seq<array<Byte>>,
                     present: seq<bool>, ghost before: Matrix)
    returns (a: Attempt)
    requires t.Valid() && f.Ok() && f.Decodable() && CodecFor(c, (f.numData, f.numCoding))
    requires Collected(f, refs, shards, present) && Contents(shards) == before
    requires present == Available(f, refs) && Enough(f, refs)
    modifies shards
    ensures a.Recovered? && Rebuilds(f, refs, a.refs)
  {
    hide Usable, Rebuilt, Unaliased, Codeword, Honest, Product, Vandermonde, Invertible, HasPosition, Restored,
      HasShard, Available;
    AvailableLength(f, refs);
    ShardSizeBounds(f.variant.variant);
    assert PresentSized(shards, present, f.shardSize);
    var outcome, slots, marked := Reconstruct(t, c, shards, present, true);
    if outcome.Failed? {
      return ReconstructFailed;
    }
    ghost var bytes := Contents(slots);
    var out := RebuildMissing(f, refs, slots, bytes);
    forall d: Codec, word: Matrix | CodecFor(d, (f.numData, f.numCoding)) && Codeword(d, word, f.shardSize)
                                    && Honest(f, refs, word)
      ensures |word| == |bytes| && forall k :: 0 <= k < |out| ==> bytes[out[k].pos] == word[out[k].pos]
    {
      CodecUnique(c, d);
      HonestAgrees(f, refs, c, word, before, present);
      RestoredData(c, before, present, bytes, word, f.shardSize);
    }
    a := Recovered(out);
  }

  lemma HonestAgrees(f: FecSet, refs: seq<DataRef>, c: Codec, word: Matrix, before: Matrix, present: seq<bool>)
    requires f.Ok() && f.Decodable() && c.Valid() && Codeword(c, word, f.shardSize) && Honest(f, refs, word)
    requires |before| == |present| == c.totalShards
    requires forall i :: 0 <= i < |present| && present[i] ==> Usable(f, refs, i, before[i])
    ensures Agrees(word, before, present)
  {
    hide Usable;
  }

  lemma RestoredData(c: Codec, before: Matrix, present: seq<bool>, after: Matrix, word: Matrix, len: nat)
    requires c.Valid() && |before| == |present| == |after| == c.totalShards
    requires Restored(c, before, present, after, true) && Codeword(c, word, len) && Agrees(word, before, present)
    ensures |word| == |after| && forall i :: 0 <= i < c.dataShards ==> after[i] == word[i]
  {}
}
