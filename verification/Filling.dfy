/** What recovery adds to the pending shreds of a slot, and that it equals receipt
    (accumulator.go). */
module Filling {
  import opened Wire
  import opened Shreds
  import opened ReedSolomon
  import opened ErasureCoding
  import opened CodecCache
  import opened Recovery
  import opened Pool
  import opened SlotState

  datatype FillResult = FillFailed | NothingNew | Filled

  datatype Choice = Chosen(index: nat) | NoSet

  /** smallestFecSetKey. */
  method SmallestKey(keys: set<nat>) returns (r: Choice)
    ensures r.NoSet? <==> keys == {}
    ensures r.Chosen? ==> r.index in keys && forall k :: k in keys ==> r.index <= k
  {
    r := NoSet;
    var todo := keys;
    while todo != {}
      invariant todo <= keys
      invariant r.NoSet? ==> todo == keys
      invariant r.Chosen? ==> r.index in keys && forall k :: k in keys ==> r.index <= k || k in todo
      decreases todo
    {
      var k :| k in todo;
      todo := todo - {k};
      if r.NoSet? || k < r.index {
        r := Chosen(k);
      }
    }
  }

  lemma SubsetSize(a: set<nat>, b: set<nat>)
    requires a <= b
    ensures |a| <= |b| && (a != b ==> |a| < |b|)
  {
    assert b == a + (b - a);
    assert |b| == |a| + |b - a|;
    if a != b {
      assert b - a != {};
    }
  }

  ghost predicate FecSetsOk(fecSets: map<nat, FecSet>) {
    forall f :: f in fecSets ==> fecSets[f].Ok() && f + fecSets[f].numData <= MAX_U32
  }

  /** The FEC set `f` with one more code shred. */
  function Recorded(fecSets: map<nat, FecSet>, f: nat, numData: nat, numCoding: nat, position: nat, coded: Bytes,
                    variant: Variant): FecSet
    requires FecSetsOk(fecSets) && variant.proofSize < 16
  {
    (if f in fecSets then fecSets[f] else EMPTY_SET).RecordCode(position, numData, numCoding, coded, variant)
  }

  /** `k` is the smallest of the sets. */
  ghost predicate LeastSet(sets: map<nat, FecSet>, k: nat) {
    k in sets && forall j :: j in sets ==> k <= j
  }

  predicate HasBelow(sets: map<nat, FecSet>, f: nat) {
    exists k :: k in sets && k < f
  }

  /** The number of sets after making room for set `f` and adding it. */
  lemma EnrolledSize(sets0: map<nat, FecSet>, sets1: map<nat, FecSet>, sets2: map<nat, FecSet>, f: nat)
    requires sets1 == sets0 || (f !in sets0 && exists k :: k in sets0 && sets1 == sets0 - {k})
    requires sets2.Keys == sets1.Keys + {f}
    ensures |sets2| == |sets0| + if sets1 == sets0 && f !in sets0 then 1 else 0
  {
    assert |sets2| == |sets2.Keys| && |sets1| == |sets1.Keys| && |sets0| == |sets0.Keys|;
    if f in sets0 {
      assert sets2.Keys == sets0.Keys;
    } else if sets1 != sets0 {
      var k :| k in sets0 && sets1 == sets0 - {k};
      assert sets1.Keys == sets0.Keys - {k};
    }
  }

  // ---------------------------------------------------------------------------
  // The data shreds of a set

  /** Index `i` holds a data shred of set `f`. */
  predicate InSet(pending: PendingMap, f: nat, nd: nat, i: nat) {
    i in pending && f <= i && i - f < nd && pending[i].fecSetIndex == f
  }

  function DataCount(pending: PendingMap, f: nat, nd: nat): nat {
    |set i | i in pending && InSet(pending, f, nd, i)|
  }

  /** `r` is a data shred of set `f`. */
  ghost predicate RefOk(pending: PendingMap, f: nat, nd: nat, r: DataRef) {
    InSet(pending, f, nd, f + r.pos) && pending[f + r.pos].Buffer() == r.raw
  }

  /** `refs` are exactly the data shreds of set `f`. */
  ghost predicate RefsFrom(pending: PendingMap, f: nat, nd: nat, refs: seq<DataRef>) {
    && (forall k :: 0 <= k < |refs| ==> RefOk(pending, f, nd, refs[k]))
    && (forall i: nat :: InSet(pending, f, nd, i) ==> HasPosition(refs, i - f))
  }

  function Ref(pending: PendingMap, f: nat, nd: nat, i: nat): DataRef
    requires InSet(pending, f, nd, i)
  {
    DataRef(i - f, pending[i].Buffer())
  }

  /** `refs` are exactly the data shreds of set `f` outside `todo`. */
  ghost predicate Gathered(pending: PendingMap, f: nat, nd: nat, refs: seq<DataRef>, todo: set<nat>) {
    && (forall k :: 0 <= k < |refs| ==> RefOk(pending, f, nd, refs[k]))
    && (forall i: nat :: InSet(pending, f, nd, i) ==> i in todo || HasPosition(refs, i - f))
  }

  lemma GatherNone(pending: PendingMap, f: nat, nd: nat)
    ensures Gathered(pending, f, nd, [], pending.Keys)
  {}

  lemma GatherOne(pending: PendingMap, f: nat, nd: nat, refs: seq<DataRef>, todo: set<nat>, i: nat)
    requires Gathered(pending, f, nd, refs, todo + {i})
    ensures Gathered(pending, f, nd, if InSet(pending, f, nd, i) then refs + [Ref(pending, f, nd, i)] else refs, todo)
  {
    hide InSet, RefOk, HasPosition, Pending.Buffer;
    if InSet(pending, f, nd, i) {
      var r := Ref(pending, f, nd, i);
      RefIsOk(pending, f, nd, i);
      forall j: nat | InSet(pending, f, nd, j) && j !in todo ensures HasPosition(refs + [r], j - f) {
        PositionSnoc(refs, r, j - f);
      }
    }
  }

  lemma RefIsOk(pending: PendingMap, f: nat, nd: nat, i: nat)
    requires InSet(pending, f, nd, i)
    ensures RefOk(pending, f, nd, Ref(pending, f, nd, i))
  {}

  lemma PositionSnoc(refs: seq<DataRef>, r: DataRef, pos: int)
    ensures HasPosition(refs + [r], pos) <==> HasPosition(refs, pos) || r.pos == pos
  {
    var more := refs + [r];
    assert more[|refs|] == r;
    if k :| 0 <= k < |refs| && refs[k].pos == pos {
      assert more[k] == refs[k];
    }
  }

  lemma GatheredAll(pending: PendingMap, f: nat, nd: nat, refs: seq<DataRef>)
    requires Gathered(pending, f, nd, refs, {})
    ensures RefsFrom(pending, f, nd, refs)
  {}

  // ---------------------------------------------------------------------------
  // Entering rebuilt packets

  /** A packet that the accumulator keeps: a data shred that is not the last of its slot. */
  ghost predicate Storable(raw: Bytes) {
    ParseKind(raw).Shred? && ParseKind(raw).shred.DataShred? && !ParseKind(raw).shred.lastInSlot
  }

  /** What is stored for a rebuilt packet of set `f`. */
  ghost function Stored(raw: Bytes, f: nat): Pending
    requires Storable(raw)
  {
    var d := ParseKind(raw).shred;
    Pending(Unpooled(raw), DATA_HEADER_SIZE + |d.payload|, d.batchComplete, f)
  }

  /** `after` is `before` plus storable packets of set `f` taken from `refs`. */
  ghost predicate FilledFrom(before: PendingMap, after: PendingMap, f: nat, refs: seq<DataRef>) {
    && (forall i :: i in before ==> i in after && after[i] == before[i])
    && (forall i :: i in after && i !in before ==> FilledAt(after[i], i, f, refs))
  }

  ghost predicate FilledAt(p: Pending, i: nat, f: nat, refs: seq<DataRef>) {
    exists k :: 0 <= k < |refs| && i == f + refs[k].pos && Storable(refs[k].raw) && p == Stored(refs[k].raw, f)
  }

  /** Every shred of `before` is kept, and only intact shreds without a pool buffer are new. */
  ghost predicate OnlyUnpooledAdded(before: PendingMap, after: PendingMap) {
    && (forall i :: i in before ==> i in after && after[i] == before[i])
    && (forall i :: i in after && i !in before ==> after[i].source.Unpooled? && after[i].Intact())
  }

  /** The last data shred of a slot. */
  ghost predicate IsLast(raw: Bytes) {
    ParseKind(raw).Shred? && ParseKind(raw).shred.DataShred? && ParseKind(raw).shred.lastInSlot
  }

  /** Among the rebuilt packets of set `f` is the last of the slot, and it was not here before. */
  ghost predicate BringsLast(pending: PendingMap, start: nat, f: nat, rebuilt: seq<DataRef>) {
    exists k :: 0 <= k < |rebuilt| && BringsLastAt(pending, start, f, rebuilt[k])
  }

  ghost predicate BringsLastAt(pending: PendingMap, start: nat, f: nat, r: DataRef) {
    start <= f + r.pos && f + r.pos !in pending && IsLast(r.raw)
  }

  lemma LastOfNone(pending: PendingMap, start: nat, f: nat, rebuilt: seq<DataRef>)
    ensures !BringsLast(pending, start, f, rebuilt[..0])
  {}

  lemma LastSnoc(pending: PendingMap, start: nat, f: nat, rebuilt: seq<DataRef>, n: nat)
    requires n < |rebuilt|
    ensures BringsLast(pending, start, f, rebuilt[..n + 1])
            <==> BringsLast(pending, start, f, rebuilt[..n]) || BringsLastAt(pending, start, f, rebuilt[n])
  {
    hide BringsLastAt;
    var a, b := rebuilt[..n], rebuilt[..n + 1];
    assert b[n] == rebuilt[n];
    if k :| 0 <= k < |a| && BringsLastAt(pending, start, f, a[k]) {
      assert b[k] == a[k];
    }
    if k :| 0 <= k < |b| && BringsLastAt(pending, start, f, b[k]) {
      if k < n {
        assert a[k] == b[k];
      }
    }
  }

  /** What was entered so far lies below the packets from `n` on. */
  ghost predicate Ahead(before: PendingMap, after: PendingMap, f: nat, refs: seq<DataRef>, n: nat) {
    forall i, k :: i in after && i !in before && n <= k < |refs| ==> i < f + refs[k].pos
  }

  lemma NothingAhead(p: PendingMap, b: map<nat, int>, f: nat, refs: seq<DataRef>, now: int)
    ensures Ahead(p, p, f, refs, 0) && Grown(b, b, now)
  {}

  /** If the packet is one that is kept, it is here. */
  ghost predicate KeptIn(p: PendingMap, start: nat, f: nat, r: DataRef) {
    Storable(r.raw) && f + r.pos >= start ==> f + r.pos in p
  }

  /** Of the first `n` packets those that are kept are here. */
  ghost predicate Entered(p: PendingMap, start: nat, f: nat, refs: seq<DataRef>, n: nat) {
    forall k :: 0 <= k < n && k < |refs| ==> KeptIn(p, start, f, refs[k])
  }

  lemma NoneEntered(p: PendingMap, start: nat, f: nat, refs: seq<DataRef>)
    ensures Entered(p, start, f, refs, 0)
  {}

  lemma AllEntered(p: PendingMap, start: nat, f: nat, refs: seq<DataRef>)
    requires Entered(p, start, f, refs, |refs|)
    ensures forall k :: 0 <= k < |refs| && Storable(refs[k].raw) && f + refs[k].pos >= start ==> f + refs[k].pos in p
  {
    hide Storable;
    forall k | 0 <= k < |refs| && Storable(refs[k].raw) && f + refs[k].pos >= start ensures f + refs[k].pos in p {
      assert KeptIn(p, start, f, refs[k]);
    }
  }

  lemma KeptStays(p: PendingMap, q: PendingMap, start: nat, f: nat, r: DataRef)
    requires p.Keys <= q.Keys && KeptIn(p, start, f, r)
    ensures KeptIn(q, start, f, r)
  {
    hide Storable;
  }

  lemma EnteredOn(before: PendingMap, mid: PendingMap, after: PendingMap, start: nat, f: nat, refs: seq<DataRef>,
                  n: nat, added: bool)
    requires n < |refs| && FilledFrom(before, mid, f, refs) && Entered(mid, start, f, refs, n)
    requires added == (f + refs[n].pos >= start && f + refs[n].pos !in mid && Storable(refs[n].raw))
    requires after == if added then mid[f + refs[n].pos := Stored(refs[n].raw, f)] else mid
    ensures FilledFrom(before, after, f, refs) && Entered(after, start, f, refs, n + 1) && before.Keys <= mid.Keys
    ensures added ==> f + refs[n].pos !in before
  {
    hide Storable, Stored, KeptIn, FilledAt;
    FilledKeepsKeys(before, mid, f, refs);
    if added {
      OneFilled(refs, n, f);
    }
    KeptNow(mid, after, start, f, refs[n], added);
    forall k | 0 <= k < n ensures KeptIn(after, start, f, refs[k]) {
      KeptStays(mid, after, start, f, refs[k]);
    }
  }

  lemma FilledKeepsKeys(before: PendingMap, after: PendingMap, f: nat, refs: seq<DataRef>)
    requires FilledFrom(before, after, f, refs)
    ensures before.Keys <= after.Keys
  {
    hide FilledAt;
  }

  lemma OneFilled(refs: seq<DataRef>, n: nat, f: nat)
    requires n < |refs| && Storable(refs[n].raw)
    ensures FilledAt(Stored(refs[n].raw, f), f + refs[n].pos, f, refs)
  {
    hide Storable, Stored;
  }

  lemma KeptNow(mid: PendingMap, after: PendingMap, start: nat, f: nat, r: DataRef, added: bool)
    requires added == (f + r.pos >= start && f + r.pos !in mid && Storable(r.raw))
    requires mid.Keys <= after.Keys && (added ==> f + r.pos in after)
    ensures KeptIn(after, start, f, r)
  {
    hide Storable;
  }

  /** So whether packet `n` is new does not depend on those before it. */
  lemma AheadOn(before: PendingMap, mid: PendingMap, after: PendingMap, start: nat, f: nat, refs: seq<DataRef>, n: nat,
                added: bool)
    requires n < |refs| && forall i, j :: 0 <= i < j < |refs| ==> refs[i].pos < refs[j].pos
    requires Ahead(before, mid, f, refs, n) && before.Keys <= mid.Keys
    requires after.Keys == if added then mid.Keys + {f + refs[n].pos} else mid.Keys
    ensures Ahead(before, after, f, refs, n + 1)
    ensures BringsLastAt(before, start, f, refs[n]) <==> BringsLastAt(mid, start, f, refs[n])
  {
    hide IsLast;
  }

  /** `rebuilt` are the missing packets of set `f`, decoded from the shreds in `pending`. */
  ghost predicate RebuiltFrom(fec: FecSet, pending: PendingMap, f: nat, rebuilt: seq<DataRef>) {
    && fec.Ok() && fec.Decodable()
    && exists refs :: RefsFrom(pending, f, fec.numData, refs) && Rebuilds(fec, refs, rebuilt)
  }

  /** Boundaries are kept, and those that are new carry the time `now`. */
  ghost predicate Grown(before: map<nat, int>, after: map<nat, int>, now: int) {
    && before.Keys <= after.Keys
    && forall i :: i in after ==> after[i] == if i in before then before[i] else now
  }

  lemma GrownOn(b0: map<nat, int>, b1: map<nat, int>, b2: map<nat, int>, now: int)
    requires Grown(b0, b1, now) && Grown(b1, b2, now)
    ensures Grown(b0, b2, now)
  {}

  /** Whatever is new belongs to set `f` and lies in its range. */
  ghost predicate AddedBy(before: PendingMap, after: PendingMap, f: nat, nd: nat) {
    forall i :: i in after && i !in before ==> after[i].fecSetIndex == f && f <= i < f + nd
  }

  lemma StoredIntact(raw: Bytes, f: nat)
    requires Storable(raw)
    ensures Stored(raw, f).source.Unpooled? && Stored(raw, f).Intact()
    ensures Stored(raw, f).PayloadBytes() == Payload(ParseKind(raw).shred.payload)
  {
    hide ParseKind;
    PayloadBounds(raw);
  }

  lemma FilledUnpooled(before: PendingMap, after: PendingMap, f: nat, refs: seq<DataRef>)
    requires FilledFrom(before, after, f, refs)
    ensures OnlyUnpooledAdded(before, after)
  {
    hide Storable, Stored;
    forall i | i in after && i !in before ensures after[i].source.Unpooled? && after[i].Intact() {
      assert FilledAt(after[i], i, f, refs);
      var k :| 0 <= k < |refs| && i == f + refs[k].pos && Storable(refs[k].raw) && after[i] == Stored(refs[k].raw, f);
      StoredIntact(refs[k].raw, f);
    }
  }

  lemma FilledAddedBy(before: PendingMap, after: PendingMap, f: nat, nd: nat, refs: seq<DataRef>)
    requires FilledFrom(before, after, f, refs) && forall k :: 0 <= k < |refs| ==> refs[k].pos < nd
    ensures AddedBy(before, after, f, nd)
  {
    hide Storable;
    forall i | i in after && i !in before ensures after[i].fecSetIndex == f && f <= i < f + nd {
      assert FilledAt(after[i], i, f, refs);
    }
  }

  lemma FillKeepsCustody(before: PendingMap, after: PendingMap, freelist: seq<nat>)
    requires OnlyUnpooledAdded(before, after) && Custody(before, freelist)
    ensures Custody(after, freelist) && Holdings(after, freelist) == Holdings(before, freelist)
  {
    forall x | x in Owned(before) ensures x in Owned(after) {
      var i :| i in before && before[i].source.Pooled? && before[i].source.handle.idx == x;
      assert after[i] == before[i];
    }
    assert Owned(after) == Owned(before);
  }

  lemma FillKeepsFront(before: PendingMap, after: PendingMap, start: nat, cursor: nat)
    requires OnlyUnpooledAdded(before, after)
    ensures StreamedFront(before, start, cursor) ==> StreamedFront(after, start, cursor)
    ensures AllIntact(before) ==> AllIntact(after)
  {}

  lemma RebuildsPositions(fec: FecSet, refs: seq<DataRef>, out: seq<DataRef>)
    requires fec.Ok() && fec.Decodable() && Rebuilds(fec, refs, out)
    ensures forall k :: 0 <= k < |out| ==> out[k].pos < fec.numData
    ensures forall i, j :: 0 <= i < j < |out| ==> out[i].pos < out[j].pos
  {
    hide HasPosition, Honest;
  }

  // ---------------------------------------------------------------------------
  // Recovery equals receipt

  /** `raw` is an honest data packet of set `f`: its protected region is `shard` and its
      declared size stays inside it. */
  ghost predicate HonestPacket(raw: Bytes, f: nat, shard: Bytes) {
    && ParseKind(raw).Shred? && ParseKind(raw).shred.DataShred? && ParseKind(raw).shred.fecSetIndex == f
    && 743 <= |shard| <= 1107 && SIGNATURE_SIZE + |shard| <= |raw|
    && raw[SIGNATURE_SIZE..SIGNATURE_SIZE + |shard|] == shard
    && SizeField(raw) <= SIGNATURE_SIZE + |shard|
  }

  /** The buffered shreds of set `f` come from one codeword, whose data shards are the
      protected regions of `packets`. */
  ghost predicate HonestSet(fec: FecSet, pending: PendingMap, f: nat, c: Codec, word: seq<Bytes>, packets: seq<Bytes>)
    requires fec.Ok() && fec.Decodable()
  {
    && CodecFor(c, (fec.numData, fec.numCoding)) && Codeword(c, word, fec.shardSize)
    && |packets| == fec.numData
    && (forall k :: 0 <= k < fec.numData ==> HonestPacket(packets[k], f, word[k]))
    && (forall pos :: pos in fec.code && fec.numData + pos < |word| ==>
          CarriesShard(CodeShardSlice(fec.code[pos], fec.variant.variant), word[fec.numData + pos]))
    && (forall i: nat :: InSet(pending, f, fec.numData, i) ==>
          CarriesShard(DataShardSlice(pending[i].Buffer(), VariantAsData(fec.variant.variant)), word[i - f]))
  }

  /** A usable slice is the given shard. */
  ghost predicate CarriesShard(slice: Slice, shard: Bytes) {
    slice.Slice? ==> slice.bytes == shard
  }

  /** `p` is what receiving `raw` would have stored, up to where its bytes live. */
  ghost predicate SameAsReceived(p: Pending, raw: Bytes) {
    && Storable(raw)
    && p.payloadEnd == DATA_HEADER_SIZE + |ParseKind(raw).shred.payload|
    && p.PayloadBytes() == Payload(ParseKind(raw).shred.payload)
    && p.batchComplete == ParseKind(raw).shred.batchComplete
    && p.fecSetIndex == ParseKind(raw).shred.fecSetIndex
  }

  /** Whatever honest packets the set belongs to, every new shred is as received. */
  ghost predicate RecoveredAsReceived(fec: FecSet, before: PendingMap, after: PendingMap, f: nat) {
    fec.Ok() && fec.Decodable() &&
    forall c, word, packets :: HonestSet(fec, before, f, c, word, packets) ==>
      forall i :: i in after && i !in before ==> f <= i < f + |packets| && SameAsReceived(after[i], packets[i - f])
  }

  /** A gathered data shred carries its shard of the codeword. */
  lemma HonestRef(fec: FecSet, pending: PendingMap, f: nat, c: Codec, word: seq<Bytes>, packets: seq<Bytes>, r: DataRef)
    requires fec.Ok() && fec.Decodable() && HonestSet(fec, pending, f, c, word, packets)
    requires RefOk(pending, f, fec.numData, r)
    ensures r.pos < |word| && CarriesShard(DataShardSlice(r.raw, VariantAsData(fec.variant.variant)), word[r.pos])
  {
    hide CodeShardSlice, DataShardSlice, Codeword, HonestPacket, CodecFor, CarriesShard;
    WordHasData(fec, c, word);
  }

  lemma HonestSetIsHonest(fec: FecSet, pending: PendingMap, f: nat, c: Codec, word: seq<Bytes>, packets: seq<Bytes>,
                          refs: seq<DataRef>)
    requires fec.Ok() && fec.Decodable() && HonestSet(fec, pending, f, c, word, packets)
    requires RefsFrom(pending, f, fec.numData, refs)
    ensures Honest(fec, refs, word)
  {
    hide CodeShardSlice, DataShardSlice, Codeword, HonestPacket, CodecFor, RefOk, InSet, HasPosition;
    forall i, shard | 0 <= i < |word| && Usable(fec, refs, i, shard) ensures shard == word[i] {
      if i < fec.numData {
        var k :| 0 <= k < |refs| && refs[k].pos == i
          && DataShardSlice(refs[k].raw, VariantAsData(fec.variant.variant)) == Slice(shard);
        HonestRef(fec, pending, f, c, word, packets, refs[k]);
      }
    }
  }

  /** The set can be decoded and has enough usable shreds here. */
  ghost predicate Ripe(fec: FecSet, pending: PendingMap, f: nat) {
    && fec.Ok() && fec.Decodable() && fec.numData + fec.numCoding <= 256
    && forall refs :: RefsFrom(pending, f, fec.numData, refs) ==> Enough(fec, refs)
  }

  /** Every honest packet of the set that would be kept is here afterwards, and is as
      received if this set brought it. */
  ghost predicate RecoversAll(fec: FecSet, before: PendingMap, after: PendingMap, f: nat, start: nat) {
    fec.Ok() && fec.Decodable() &&
    forall c, word, packets :: HonestSet(fec, before, f, c, word, packets) ==>
      forall k :: 0 <= k < |packets| && Storable(packets[k]) && f + k >= start ==>
          Regained(before, after, f, k, packets[k])
  }

  /** Packet `k` of set `f` is here; if the set brought it, it is as received. */
  ghost predicate Regained(before: PendingMap, after: PendingMap, f: nat, k: nat, raw: Bytes) {
    && f + k in after
    && (f + k !in before && after[f + k].fecSetIndex == f ==> SameAsReceived(after[f + k], raw))
  }

  lemma RefPresent(pending: PendingMap, f: nat, nd: nat, refs: seq<DataRef>, k: nat)
    requires RefsFrom(pending, f, nd, refs) && HasPosition(refs, k)
    ensures f + k in pending
  {
    var j :| 0 <= j < |refs| && refs[j].pos == k;
    assert RefOk(pending, f, nd, refs[j]);
  }

  lemma MissingAreRecovered(fec: FecSet, before: PendingMap, after: PendingMap, f: nat, refs: seq<DataRef>,
                            out: seq<DataRef>, start: nat)
    requires fec.Ok() && fec.Decodable() && Rebuilds(fec, refs, out) && RefsFrom(before, f, fec.numData, refs)
    requires OnlyUnpooledAdded(before, after) && RecoveredAsReceived(fec, before, after, f)
    requires forall k :: 0 <= k < |out| && Storable(out[k].raw) && f + out[k].pos >= start ==> f + out[k].pos in after
    ensures RecoversAll(fec, before, after, f, start)
  {
    hide SameAsReceived, Pending.Intact, Storable, Shreds.Rebuilt, HonestPacket, CodecFor, Codeword, Honest, RefsFrom;
    forall c, word, packets, k | HonestSet(fec, before, f, c, word, packets)
                                 && 0 <= k < |packets| && Storable(packets[k]) && f + k >= start
      ensures Regained(before, after, f, k, packets[k])
    {
      HonestSetIsHonest(fec, before, f, c, word, packets, refs);
      WordHasData(fec, c, word);
      if HasPosition(refs, k) {
        RefPresent(before, f, fec.numData, refs, k);
      } else {
        assert HasPosition(out, k);
        var j :| 0 <= j < |out| && out[j].pos == k;
        RebuiltStorable(packets[k], f, word[k]);
        assert out[j].raw == Shreds.Rebuilt(word[k]);
        assert f + out[j].pos in after;
      }
    }
  }

  lemma RebuiltStorable(raw: Bytes, f: nat, shard: Bytes)
    requires HonestPacket(raw, f, shard) && Storable(raw)
    ensures Storable(Shreds.Rebuilt(shard))
  {
    hide ParseKind, Shreds.Rebuilt, SizeField;
    RebuiltParses(raw, |shard|);
  }

  lemma WordHasData(fec: FecSet, c: Codec, word: seq<Bytes>)
    requires CodecFor(c, (fec.numData, fec.numCoding)) && fec.shardSize >= 0 && Codeword(c, word, fec.shardSize)
    ensures |word| == fec.numData + fec.numCoding
  {
    hide Codec.Valid;
    CodewordLength(c, word, fec.shardSize);
  }

  /** A packet rebuilt from its shard is stored as the original would have been. */
  lemma RebuiltAsReceived(raw: Bytes, f: nat, shard: Bytes)
    requires HonestPacket(raw, f, shard) && Storable(Shreds.Rebuilt(shard))
    ensures SameAsReceived(Stored(Shreds.Rebuilt(shard), f), raw)
  {
    hide ParseKind, Shreds.Rebuilt, SizeField;
    RebuiltParses(raw, |shard|);
    StoredIntact(Shreds.Rebuilt(shard), f);
  }

  lemma RecoveryIsReceipt(fec: FecSet, before: PendingMap, after: PendingMap, f: nat, refs: seq<DataRef>,
                          out: seq<DataRef>)
    requires fec.Ok() && fec.Decodable() && Rebuilds(fec, refs, out)
    requires RefsFrom(before, f, fec.numData, refs) && FilledFrom(before, after, f, out)
    ensures RecoveredAsReceived(fec, before, after, f)
  {
    hide Storable, Stored, Shreds.Rebuilt, HonestPacket, CodecFor, Codeword, Honest, SameAsReceived, RefsFrom,
      HasPosition;
    forall c, word, packets, i | HonestSet(fec, before, f, c, word, packets) && i in after && i !in before
      ensures f <= i < f + |packets| && SameAsReceived(after[i], packets[i - f])
    {
      HonestSetIsHonest(fec, before, f, c, word, packets, refs);
      WordHasData(fec, c, word);
      assert FilledAt(after[i], i, f, out);
      var k :| 0 <= k < |out| && i == f + out[k].pos && Storable(out[k].raw) && after[i] == Stored(out[k].raw, f);
      RebuiltAsReceived(packets[out[k].pos], f, word[out[k].pos]);
    }
  }

  // ---------------------------------------------------------------------------
  // Several recoveries in a row

  /** Whatever is new belongs to one of the sets and lies in its range. */
  ghost predicate AddedFrom(before: PendingMap, after: PendingMap, sets: map<nat, FecSet>) {
    forall i :: i in after && i !in before ==> Reaches(sets, after[i].fecSetIndex, i)
  }

  /** Set `f` is there and covers index `i`. */
  predicate Reaches(sets: map<nat, FecSet>, f: nat, i: nat) {
    f in sets && f <= i < f + sets[f].numData
  }

  /** The sets with a known size that reach into the indices from `start` to `end`. */
  function Reaching(sets: map<nat, FecSet>, start: nat, end: nat): set<nat> {
    set f | f in sets && sets[f].numData != 0 && f + sets[f].numData > start && f <= end
  }

  lemma ReachingIsThere(sets: map<nat, FecSet>, start: nat, end: nat)
    ensures Reaching(sets, start, end) <= sets.Keys
  {}

  lemma FilledWithNothing(p: PendingMap, f: nat, refs: seq<DataRef>)
    ensures FilledFrom(p, p, f, refs)
  {}

  lemma FilledNothing(p: PendingMap, f: nat, nd: nat)
    ensures OnlyUnpooledAdded(p, p) && AddedBy(p, p, f, nd)
  {}

  /** Recovery adds intact shreds without pool buffers from the sets there are, and pays for
      it with sets. */
  ghost predicate FillFrame(p0: PendingMap, b0: map<nat, int>, f0: map<nat, FecSet>,
                            p1: PendingMap, b1: map<nat, int>, f1: map<nat, FecSet>) {
    && OnlyUnpooledAdded(p0, p1) && AddedFrom(p0, p1, f0)
    && f1.Keys <= f0.Keys && (forall f :: f in f1 ==> f1[f] == f0[f])
    && (f1.Keys == f0.Keys ==> p1 == p0 && b1 == b0)
  }

  lemma NothingFilled(p: PendingMap, b: map<nat, int>, f: map<nat, FecSet>)
    ensures FillFrame(p, b, f, p, b, f)
  {}

  lemma FilledOnce(p0: PendingMap, b0: map<nat, int>, f0: map<nat, FecSet>,
                   p1: PendingMap, b1: map<nat, int>, f1: map<nat, FecSet>, f: nat)
    requires OnlyUnpooledAdded(p0, p1)
    requires (p1 == p0 && b1 == b0 && f1 == f0) || (f in f0 && f1 == f0 - {f} && AddedBy(p0, p1, f, f0[f].numData))
    ensures FillFrame(p0, b0, f0, p1, b1, f1)
  {
    hide OnlyUnpooledAdded;
    if f1 != f0 {
      assert f in f0.Keys && f !in f1.Keys;
    }
  }

  /** Finishing a batch after recovery leaves fewer FEC sets or fewer boundaries. */
  lemma FillFrameShrinks(p0: PendingMap, b0: map<nat, int>, f0: map<nat, FecSet>,
                         p1: PendingMap, b1: map<nat, int>, f1: map<nat, FecSet>)
    requires FillFrame(p0, b0, f0, p1, b1, f1)
    ensures f1.Keys <= f0.Keys && (f1.Keys == f0.Keys ==> b1 == b0)
  {
    hide OnlyUnpooledAdded;
  }

  lemma FillFrameTransitive(p0: PendingMap, b0: map<nat, int>, f0: map<nat, FecSet>,
                            p1: PendingMap, b1: map<nat, int>, f1: map<nat, FecSet>,
                            p2: PendingMap, b2: map<nat, int>, f2: map<nat, FecSet>)
    requires FillFrame(p0, b0, f0, p1, b1, f1) && FillFrame(p1, b1, f1, p2, b2, f2)
    ensures FillFrame(p0, b0, f0, p2, b2, f2)
  {}

  /** Fewer FEC sets, or as many and fewer boundaries. */
  ghost predicate Progress(f0: set<nat>, b0: set<nat>, f1: set<nat>, b1: set<nat>) {
    f1 <= f0 && (f1 == f0 ==> b1 < b0)
  }

  lemma Shrinks(f0: map<nat, FecSet>, b0: map<nat, int>, f1: map<nat, FecSet>, b1: map<nat, int>)
    requires Progress(f0.Keys, b0.Keys, f1.Keys, b1.Keys)
    ensures |f1| < |f0| || (|f1| == |f0| && |b1| < |b0|)
  {
    SubsetSize(f1.Keys, f0.Keys);
    if f1.Keys == f0.Keys {
      SubsetSize(b1.Keys, b0.Keys);
    }
    assert |f1| == |f1.Keys| && |f0| == |f0.Keys| && |b1| == |b1.Keys| && |b0| == |b0.Keys|;
  }

  // ---------------------------------------------------------------------------
  // No recoverable set is passed over

  /** Enough shreds of set `f` are here to try recovering it. */
  predicate Fillable(sets: map<nat, FecSet>, pending: PendingMap, f: nat) {
    f in sets && sets[f].CanRecoverWith(DataCount(pending, f, sets[f].numData))
  }

  /** The set covers the streaming cursor and can be recovered. */
  predicate Candidate(sets: map<nat, FecSet>, pending: PendingMap, cursor: nat, f: nat) {
    Reaches(sets, f, cursor) && Fillable(sets, pending, f)
  }

  ghost predicate NoneFillable(sets: map<nat, FecSet>, pending: PendingMap) {
    forall f :: f in sets ==> !Fillable(sets, pending, f)
  }

  lemma {:induction false} GatherSome(pending: PendingMap, f: nat, nd: nat, done: set<nat>)
    returns (refs: seq<DataRef>)
    ensures Gathered(pending, f, nd, refs, pending.Keys - done)
    decreases done
  {
    hide Gathered, InSet;
    if done == {} {
      GatherNone(pending, f, nd);
      assert pending.Keys - {} == pending.Keys;
      refs := [];
    } else {
      var i :| i in done;
      refs := GatherSome(pending, f, nd, done - {i});
      var todo := pending.Keys - done;
      GatherMore(pending, f, nd, refs, pending.Keys - (done - {i}), todo + {i});
      GatherOne(pending, f, nd, refs, todo, i);
      if InSet(pending, f, nd, i) {
        refs := refs + [Ref(pending, f, nd, i)];
      }
    }
  }

  lemma GatherMore(pending: PendingMap, f: nat, nd: nat, refs: seq<DataRef>, todo: set<nat>, more: set<nat>)
    requires Gathered(pending, f, nd, refs, todo) && todo <= more
    ensures Gathered(pending, f, nd, refs, more)
  {}

  /** Every set has its list of data shreds. */
  lemma RefsExist(pending: PendingMap, f: nat, nd: nat) returns (refs: seq<DataRef>)
    ensures RefsFrom(pending, f, nd, refs)
  {
    hide Gathered, RefsFrom;
    refs := GatherSome(pending, f, nd, pending.Keys);
    assert pending.Keys - pending.Keys == {};
    GatheredAll(pending, f, nd, refs);
  }

  ghost function Below(s: set<nat>, bound: int): set<nat> {
    set x | x in s && x < bound
  }

  /** The indices of the set whose data packets are here in full. */
  ghost function DataHere(fec: FecSet, pending: PendingMap, f: nat): set<nat>
    requires fec.variant.Of?
  {
    set i | && i in pending && f <= i < f + fec.numData && pending[i].fecSetIndex == f
            && |pending[i].Buffer()| >= 64 + ShardSize(fec.variant.variant)
  }

  /** The code positions of the set whose packets are here in full. */
  ghost function CodeHere(fec: FecSet): set<nat>
    requires fec.variant.Of?
  {
    set p | p in fec.code && p < fec.numCoding && |fec.code[p]| >= 0x59 + ShardSize(fec.variant.variant)
  }

  lemma DataShardHere(fec: FecSet, pending: PendingMap, f: nat, refs: seq<DataRef>, i: nat)
    requires fec.Ok() && fec.Decodable() && RefsFrom(pending, f, fec.numData, refs) && i < fec.numData
    ensures HasShard(fec, refs, i) <==> f + i in DataHere(fec, pending, f)
  {
    hide ShardSize;
    var v := fec.variant.variant;
    if HasShard(fec, refs, i) {
      var shard :| Usable(fec, refs, i, shard);
      var k :| 0 <= k < |refs| && refs[k].pos == i && DataShardSlice(refs[k].raw, VariantAsData(v)) == Slice(shard);
      assert RefOk(pending, f, fec.numData, refs[k]);
      SameShardSize(v);
    }
    if f + i in DataHere(fec, pending, f) {
      assert InSet(pending, f, fec.numData, f + i) && HasPosition(refs, f + i - f);
      var k :| 0 <= k < |refs| && refs[k].pos == i;
      assert RefOk(pending, f, fec.numData, refs[k]);
      SameShardSize(v);
      RefUsable(fec, refs, k, DataShardSlice(refs[k].raw, VariantAsData(v)).bytes);
    }
  }

  lemma SameShardSize(v: Variant)
    requires v.kind == CodeMerkle
    ensures VariantAsData(v).kind == DataMerkle && ShardSize(VariantAsData(v)) == ShardSize(v)
  {}

  lemma CodeShardHere(fec: FecSet, refs: seq<DataRef>, p: nat)
    requires fec.Ok() && fec.Decodable() && p < fec.numCoding
    ensures HasShard(fec, refs, fec.numData + p) <==> p in CodeHere(fec)
  {
    hide ShardSize;
    if p in CodeHere(fec) {
      CodeUsable(fec, refs, p, CodeShardSlice(fec.code[p], fec.variant.variant).bytes);
    }
  }

  lemma BelowNext(s: set<nat>, n: nat)
    ensures |Below(s, n + 1)| == |Below(s, n)| + if n in s then 1 else 0
  {
    assert Below(s, n + 1) == if n in s then Below(s, n) + {n} else Below(s, n);
  }

  lemma BelowNothing(s: set<nat>, bound: int)
    requires bound <= 0 || forall x :: x in s ==> bound <= x
    ensures |Below(s, bound)| == 0
  {
    assert Below(s, bound) == {};
  }

  /** The data shards that are there, counted from the front. */
  lemma {:induction false} CountData(there: seq<bool>, k: nat, data: set<nat>, f: nat)
    requires k <= |there| && forall x :: x in data ==> f <= x
    requires forall i: nat :: i < k ==> (there[i] <==> f + i in data)
    ensures CountTrue(there, k) == |Below(data, f + k)|
  {
    if k == 0 {
      BelowNothing(data, f);
    } else {
      CountData(there, k - 1, data, f);
      BelowNext(data, f + k - 1);
    }
  }

  /** And then the code shards. */
  lemma {:induction false} CountCode(there: seq<bool>, k: nat, nd: nat, code: set<nat>)
    requires nd + k <= |there| && forall p: nat :: p < k ==> (there[nd + p] <==> p in code)
    ensures CountTrue(there, nd + k) == CountTrue(there, nd) + |Below(code, k)|
  {
    if k == 0 {
      BelowNothing(code, 0);
    } else {
      CountCode(there, k - 1, nd, code);
      BelowNext(code, k - 1);
      assert there[nd + (k - 1)] <==> k - 1 in code;
    }
  }

  /** A set can be decoded exactly if the packets of it that are here in full, data and code
      together, are at least as many as it has data packets. */
  lemma RipeExactly(fec: FecSet, pending: PendingMap, f: nat)
    requires fec.Ok() && fec.Decodable() && fec.numData + fec.numCoding <= 256
    ensures Ripe(fec, pending, f) <==> |DataHere(fec, pending, f)| + |CodeHere(fec)| >= fec.numData
  {
    hide HasShard, RefsFrom, CountTrue, FecSet.Ok, DataHere, CodeHere;
    forall refs | RefsFrom(pending, f, fec.numData, refs)
      ensures Enough(fec, refs) <==> |DataHere(fec, pending, f)| + |CodeHere(fec)| >= fec.numData
    {
      EnoughExactly(fec, pending, f, refs);
    }
    var refs := RefsExist(pending, f, fec.numData);
  }

  lemma EnoughExactly(fec: FecSet, pending: PendingMap, f: nat, refs: seq<DataRef>)
    requires fec.Ok() && fec.Decodable() && RefsFrom(pending, f, fec.numData, refs)
    ensures Enough(fec, refs) <==> |DataHere(fec, pending, f)| + |CodeHere(fec)| >= fec.numData
  {
    hide HasShard, RefsFrom, CountTrue, FecSet.Ok, ShardSize;
    var there := Available(fec, refs);
    var data, code := DataHere(fec, pending, f), CodeHere(fec);
    forall i: nat | i < fec.numData ensures there[i] <==> f + i in data {
      DataShardHere(fec, pending, f, refs, i);
    }
    forall p: nat | p < fec.numCoding ensures there[fec.numData + p] <==> p in code {
      CodeShardHere(fec, refs, p);
    }
    CountData(there, fec.numData, data, f);
    CountCode(there, fec.numCoding, fec.numData, code);
    assert Below(data, f + fec.numData) == data && Below(code, fec.numCoding) == code;
  }

  /** So a set that can be decoded is one that recovery tries. */
  lemma RipeIsFillable(sets: map<nat, FecSet>, pending: PendingMap, f: nat)
    requires f in sets
    ensures Ripe(sets[f], pending, f) ==> Fillable(sets, pending, f)
  {
    hide Ripe, FecSet.Ok, ShardSize;
    var fec := sets[f];
    if Ripe(fec, pending, f) {
      RipeSet(fec, pending, f);
      RipeExactly(fec, pending, f);
      SubsetSize(DataHere(fec, pending, f), set i | i in pending && InSet(pending, f, fec.numData, i));
      SubsetSize(CodeHere(fec), fec.code.Keys);
      assert |fec.code| == |fec.code.Keys|;
    }
  }

  lemma RipeSet(fec: FecSet, pending: PendingMap, f: nat)
    requires Ripe(fec, pending, f)
    ensures fec.Ok() && fec.Decodable() && fec.numData + fec.numCoding <= 256
  {}

  /** If set `f` of `sets0` could be decoded from the shreds in `p0`, its packets are in `p`. */
  ghost predicate Served(sets0: map<nat, FecSet>, p0: PendingMap, p: PendingMap, f: nat, start: nat) {
    f in sets0 && Ripe(sets0[f], p0, f) ==> RecoversAll(sets0[f], p0, p, f, start)
  }

  /** Nothing has happened to set `f`. */
  ghost predicate Untouched(sets0: map<nat, FecSet>, p0: PendingMap, sets: map<nat, FecSet>, p: PendingMap, f: nat) {
    && f in sets0 && f in sets && sets[f] == sets0[f]
    && (forall i :: i in p && i !in p0 ==> p[i].fecSetIndex != f)
  }

  /** On the way from `p0` to `p` every set was left alone or served. */
  ghost predicate Pursued(sets0: map<nat, FecSet>, p0: PendingMap, sets: map<nat, FecSet>, p: PendingMap, start: nat) {
    && OnlyUnpooledAdded(p0, p)
    && forall f :: f in sets0 ==> Untouched(sets0, p0, sets, p, f) || Served(sets0, p0, p, f, start)
  }

  /** All the sets in `which` were served. */
  ghost predicate AllServed(sets0: map<nat, FecSet>, p0: PendingMap, p: PendingMap, which: set<nat>, start: nat) {
    forall h :: h in which ==> Served(sets0, p0, p, h, start)
  }

  lemma OneMoreServed(sets0: map<nat, FecSet>, p0: PendingMap, p1: PendingMap, p2: PendingMap, which: set<nat>, h: nat,
                      start: nat)
    requires AllServed(sets0, p0, p1, which, start) && OnlyUnpooledAdded(p1, p2) && Served(sets0, p0, p2, h, start)
    ensures AllServed(sets0, p0, p2, which + {h}, start)
  {
    hide Served, OnlyUnpooledAdded;
    forall f | f in which ensures Served(sets0, p0, p2, f, start) {
      StaysServed(sets0, p0, p1, p2, f, start);
    }
  }

  lemma NoneServed(sets: map<nat, FecSet>, p: PendingMap, start: nat)
    ensures AllServed(sets, p, p, {}, start)
  {}

  lemma NothingPursued(sets: map<nat, FecSet>, p: PendingMap, start: nat)
    ensures Pursued(sets, p, sets, p, start)
  {
    hide Served;
  }

  /** Shreds of other sets do not matter to set `f`. */
  lemma SameData(p0: PendingMap, p1: PendingMap, f: nat, nd: nat)
    requires OnlyUnpooledAdded(p0, p1) && forall i :: i in p1 && i !in p0 ==> p1[i].fecSetIndex != f
    ensures forall i :: InSet(p0, f, nd, i) <==> InSet(p1, f, nd, i)
    ensures forall i :: InSet(p0, f, nd, i) ==> p1[i] == p0[i]
    ensures DataCount(p0, f, nd) == DataCount(p1, f, nd)
  {
    assert (set i | i in p0 && InSet(p0, f, nd, i)) == (set i | i in p1 && InSet(p1, f, nd, i));
  }

  lemma SameRefs(p0: PendingMap, p1: PendingMap, f: nat, nd: nat, refs: seq<DataRef>)
    requires OnlyUnpooledAdded(p0, p1) && forall i :: i in p1 && i !in p0 ==> p1[i].fecSetIndex != f
    ensures RefsFrom(p0, f, nd, refs) <==> RefsFrom(p1, f, nd, refs)
  {
    hide OnlyUnpooledAdded, InSet, HasPosition, Pending.Buffer;
    SameData(p0, p1, f, nd);
  }

  lemma SameRipe(fec: FecSet, p0: PendingMap, p1: PendingMap, f: nat)
    requires OnlyUnpooledAdded(p0, p1) && forall i :: i in p1 && i !in p0 ==> p1[i].fecSetIndex != f
    requires Ripe(fec, p0, f)
    ensures Ripe(fec, p1, f)
  {
    hide OnlyUnpooledAdded, RefsFrom, Enough;
    forall refs | RefsFrom(p1, f, fec.numData, refs) ensures Enough(fec, refs) {
      SameRefs(p0, p1, f, fec.numData, refs);
    }
  }

  lemma SameHonest(fec: FecSet, p0: PendingMap, p1: PendingMap, f: nat, c: Codec, word: seq<Bytes>, packets: seq<Bytes>)
    requires OnlyUnpooledAdded(p0, p1) && forall i :: i in p1 && i !in p0 ==> p1[i].fecSetIndex != f
    requires fec.Ok() && fec.Decodable() && HonestSet(fec, p0, f, c, word, packets)
    ensures HonestSet(fec, p1, f, c, word, packets)
  {
    hide OnlyUnpooledAdded, InSet, CarriesShard, HonestPacket, Codeword, CodecFor, DataShardSlice, CodeShardSlice,
      Pending.Buffer;
    SameData(p0, p1, f, fec.numData);
  }

  /** Serving a set later on serves it from the start. */
  lemma ServedLater(sets0: map<nat, FecSet>, p0: PendingMap, p1: PendingMap, p2: PendingMap, f: nat, start: nat)
    requires OnlyUnpooledAdded(p0, p1) && OnlyUnpooledAdded(p1, p2) && f in sets0
    requires forall i :: i in p1 && i !in p0 ==> p1[i].fecSetIndex != f
    requires Ripe(sets0[f], p1, f) ==> RecoversAll(sets0[f], p1, p2, f, start)
    ensures Served(sets0, p0, p2, f, start)
  {
    hide Ripe, HonestSet, Storable, SameAsReceived, Pending.Intact, FecSet.Ok;
    var fec := sets0[f];
    if Ripe(fec, p0, f) {
      SameRipe(fec, p0, p1, f);
      forall c, word, packets, k | HonestSet(fec, p0, f, c, word, packets) && 0 <= k < |packets|
                                   && Storable(packets[k]) && f + k >= start
        ensures Regained(p0, p2, f, k, packets[k])
      {
        SameHonest(fec, p0, p1, f, c, word, packets);
        assert Regained(p1, p2, f, k, packets[k]);
      }
    }
  }

  /** More shreds do not undo it. */
  lemma StaysServed(sets0: map<nat, FecSet>, p0: PendingMap, p1: PendingMap, p2: PendingMap, f: nat, start: nat)
    requires OnlyUnpooledAdded(p1, p2) && Served(sets0, p0, p1, f, start)
    ensures Served(sets0, p0, p2, f, start)
  {
    hide Ripe, HonestSet, Storable, SameAsReceived, Pending.Intact, FecSet.Ok;
    if f in sets0 && Ripe(sets0[f], p0, f) {
      forall c, word, packets, k | HonestSet(sets0[f], p0, f, c, word, packets) && 0 <= k < |packets|
                                   && Storable(packets[k]) && f + k >= start
        ensures Regained(p0, p2, f, k, packets[k])
      {
        assert Regained(p0, p1, f, k, packets[k]);
      }
    }
  }

  /** One attempt on the way, at the set `choice` names if any. */
  lemma PursueOne(sets0: map<nat, FecSet>, p0: PendingMap, sets1: map<nat, FecSet>, p1: PendingMap,
                  sets2: map<nat, FecSet>, p2: PendingMap, start: nat, choice: Choice)
    requires Pursued(sets0, p0, sets1, p1, start) && OnlyUnpooledAdded(p1, p2)
    requires Attempted(sets1, p1, sets2, p2, start, choice)
    ensures Pursued(sets0, p0, sets2, p2, start)
  {
    hide Served, OnlyUnpooledAdded, Ripe, RecoversAll;
    OnlyUnpooledOn(p0, p1, p2);
    forall f | f in sets0 ensures Untouched(sets0, p0, sets2, p2, f) || Served(sets0, p0, p2, f, start) {
      if Served(sets0, p0, p1, f, start) {
        StaysServed(sets0, p0, p1, p2, f, start);
      } else if choice == Chosen(f) {
        ServedLater(sets0, p0, p1, p2, f, start);
      } else {
        AddedStays(p0, p1, p2);
      }
    }
  }

  /** Trying set `h` serves it. */
  lemma PursueHint(sets0: map<nat, FecSet>, p0: PendingMap, sets1: map<nat, FecSet>, p1: PendingMap,
                   sets2: map<nat, FecSet>, p2: PendingMap, start: nat, choice: Choice, h: nat)
    requires Pursued(sets0, p0, sets1, p1, start) && OnlyUnpooledAdded(p1, p2) && h in sets0
    requires Attempted(sets1, p1, sets2, p2, start, choice)
    requires Fillable(sets1, p1, h) ==> choice == Chosen(h)
    ensures Served(sets0, p0, p2, h, start)
  {
    hide OnlyUnpooledAdded, Ripe, RecoversAll, DataCount;
    if Served(sets0, p0, p1, h, start) {
      StaysServed(sets0, p0, p1, p2, h, start);
    } else {
      RipeIsFillable(sets1, p1, h);
      ServedLater(sets0, p0, p1, p2, h, start);
    }
  }

  /** What one attempt at recovery does. */
  ghost predicate Attempted(sets1: map<nat, FecSet>, p1: PendingMap, sets2: map<nat, FecSet>, p2: PendingMap,
                            start: nat, choice: Choice) {
    && (choice.NoSet? ==> sets2 == sets1 && p2 == p1)
    && (choice.Chosen? ==>
          && choice.index in sets1 && (sets2 == sets1 || sets2 == sets1 - {choice.index})
          && AddedBy(p1, p2, choice.index, sets1[choice.index].numData)
          && (Ripe(sets1[choice.index], p1, choice.index) ==>
              RecoversAll(sets1[choice.index], p1, p2, choice.index, start)))
  }

  lemma AttemptServes(sets1: map<nat, FecSet>, p1: PendingMap, sets2: map<nat, FecSet>, p2: PendingMap, start: nat,
                      choice: Choice, h: nat)
    requires Attempted(sets1, p1, sets2, p2, start, choice) && (Fillable(sets1, p1, h) ==> choice == Chosen(h))
    ensures Served(sets1, p1, p2, h, start)
  {
    hide Ripe, RecoversAll, DataCount, AddedBy;
    if h in sets1 {
      RipeIsFillable(sets1, p1, h);
    }
  }

  lemma OnlyUnpooledOn(p0: PendingMap, p1: PendingMap, p2: PendingMap)
    requires OnlyUnpooledAdded(p0, p1) && OnlyUnpooledAdded(p1, p2)
    ensures OnlyUnpooledAdded(p0, p2)
  {
    hide Pending.Intact;
  }

  lemma AddedStays(p0: PendingMap, p1: PendingMap, p2: PendingMap)
    requires OnlyUnpooledAdded(p0, p1) && OnlyUnpooledAdded(p1, p2)
    ensures forall i :: i in p2 && i !in p0 ==> i !in p1 || (i in p1 && p2[i] == p1[i])
  {
    hide Pending.Intact;
  }

  /** Batches that are finished take their shreds with them. */
  lemma ServedFrom(fec: FecSet, p0: PendingMap, p1: PendingMap, p2: PendingMap, f: nat, start1: nat, start2: nat)
    requires RecoversAll(fec, p0, p1, f, start1) && start1 <= start2
    requires forall i :: i in p1 && i >= start2 ==> i in p2 && p2[i] == p1[i]
    ensures RecoversAll(fec, p0, p2, f, start2)
  {
    hide HonestSet, Storable, SameAsReceived, FecSet.Ok;
    forall c, word, packets, k | HonestSet(fec, p0, f, c, word, packets) && 0 <= k < |packets| && Storable(packets[k])
                                 && f + k >= start2
      ensures Regained(p0, p2, f, k, packets[k])
    {
      assert Regained(p0, p1, f, k, packets[k]);
    }
  }

  /** With fewer sets and fewer shreds, still nothing can be recovered. */
  lemma StillNoneFillable(sets0: map<nat, FecSet>, p0: PendingMap, sets1: map<nat, FecSet>, p1: PendingMap)
    requires NoneFillable(sets0, p0)
    requires forall f :: f in sets1 ==> f in sets0 && sets1[f] == sets0[f]
    requires forall i :: i in p1 ==> i in p0 && p1[i] == p0[i]
    ensures NoneFillable(sets1, p1)
  {
    forall f | f in sets1 ensures !Fillable(sets1, p1, f) {
      var nd := sets0[f].numData;
      SubsetSize(set i | i in p1 && InSet(p1, f, nd, i), set i | i in p0 && InSet(p0, f, nd, i));
    }
  }

  // ---------------------------------------------------------------------------
  // FEC sets that stay

  /** The sets that reach past `next`, or whose size is not known yet. */
  function SetsFrom(sets: map<nat, FecSet>, next: nat): map<nat, FecSet> {
    map f | f in sets && !(sets[f].numData > 0 && f + sets[f].numData <= next) :: sets[f]
  }

  lemma SetsFromOk(sets: map<nat, FecSet>, next: nat)
    requires FecSetsOk(sets)
    ensures FecSetsOk(SetsFrom(sets, next)) && SetsFrom(sets, next).Keys <= sets.Keys
  {
    hide FecSet.Ok;
  }

  lemma SetsFromMeaning(sets: map<nat, FecSet>, next: nat)
    ensures forall f :: f in sets ==>
              (f in SetsFrom(sets, next) <==> sets[f].numData == 0 || next < f + sets[f].numData)
  {}

  /** Every FEC set is still as it was, unless it ends at or before `start`. */
  ghost predicate SetsKept(before: map<nat, FecSet>, after: map<nat, FecSet>, start: nat) {
    forall f :: f in before ==> (f in after && after[f] == before[f]) || f + before[f].numData <= start
  }

  lemma AllKept(sets: map<nat, FecSet>, start: nat)
    ensures SetsKept(sets, sets, start)
  {}

  lemma KeptFrom(sets: map<nat, FecSet>, next: nat)
    ensures SetsKept(sets, SetsFrom(sets, next), next)
    ensures forall f :: f in SetsFrom(sets, next) ==> f in sets && SetsFrom(sets, next)[f] == sets[f]
    ensures SetsFrom(sets, next).Keys <= sets.Keys
  {}

  lemma SetsKeptOn(s0: map<nat, FecSet>, s1: map<nat, FecSet>, s2: map<nat, FecSet>, start1: nat, start2: nat)
    requires start1 <= start2
    ensures SetsKept(s0, s1, start1) && SetsKept(s1, s2, start2) ==> SetsKept(s0, s2, start2)
  {}
}
