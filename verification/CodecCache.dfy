/** The least-recently-used cache of codecs in front of newReedSolomon (fec.go). */
module CodecCache {
  import opened Galois
  import opened ReedSolomon

  type Key = (nat, nat)

  const CACHE_CAPACITY := 32

  // ---------------------------------------------------------------------------
  // Recency

  /** `keys` without `k`. */
  ghost function Remove(keys: seq<Key>, k: Key): (r: seq<Key>)
    ensures forall x :: x in r <==> x in keys && x != k
    ensures |r| <= |keys|
    ensures k !in keys ==> r == keys
  {
    if keys == [] then []
    else if keys[|keys| - 1] == k then Remove(keys[..|keys| - 1], k)
    else Remove(keys[..|keys| - 1], k) + [keys[|keys| - 1]]
  }

  /** The distinct keys of a history of uses, least recently used first. */
  ghost function ByLastUse(history: seq<Key>): seq<Key> {
    if history == [] then []
    else
      var k := history[|history| - 1];
      Remove(ByLastUse(history[..|history| - 1]), k) + [k]
  }

  ghost function LastN<T>(s: seq<T>, n: nat): seq<T> {
    if |s| <= n then s else s[|s| - n..]
  }

  ghost predicate NoRepeats(s: seq<Key>) {
    forall i, j :: 0 <= i < j < |s| ==> s[i] != s[j]
  }

  /** Position just after the last use of `k`; 0 if it was never used. */
  ghost function LastUse(history: seq<Key>, k: Key): (n: nat)
    ensures n <= |history| && (n == 0 <==> k !in history)
  {
    if history == [] then 0
    else if history[|history| - 1] == k then |history|
    else LastUse(history[..|history| - 1], k)
  }

  ghost predicate OrderedByUse(s: seq<Key>, history: seq<Key>) {
    forall i, j :: 0 <= i < j < |s| ==> LastUse(history, s[i]) < LastUse(history, s[j])
  }

  lemma {:induction false} RemoveKeepsOrder(s: seq<Key>, k: Key, history: seq<Key>)
    requires OrderedByUse(s, history)
    ensures OrderedByUse(Remove(s, k), history)
  {
    if s != [] {
      var front, last := s[..|s| - 1], s[|s| - 1];
      RemoveKeepsOrder(front, k, history);
      if last != k {
        var r := Remove(front, k);
        forall i | 0 <= i < |r| ensures LastUse(history, r[i]) < LastUse(history, last) {
          assert r[i] in front;
          var j :| 0 <= j < |front| && front[j] == r[i];
          assert s[j] == r[i];
        }
      }
    }
  }

  /** ByLastUse lists exactly the keys used, once each, in order of last use. */
  lemma {:induction false} ByLastUseMeaning(history: seq<Key>)
    ensures forall k :: k in ByLastUse(history) <==> k in history
    ensures OrderedByUse(ByLastUse(history), history)
    ensures NoRepeats(ByLastUse(history))
  {
    if history != [] {
      var front, k := history[..|history| - 1], history[|history| - 1];
      assert history == front + [k];
      ByLastUseMeaning(front);
      RemoveKeepsOrder(ByLastUse(front), k, front);
      var r := Remove(ByLastUse(front), k);
      forall i, j | 0 <= i < j < |r| ensures LastUse(history, r[i]) < LastUse(history, r[j]) {
        assert r[i] in r && r[j] in r;
      }
      forall i | 0 <= i < |r| ensures LastUse(history, r[i]) < LastUse(history, k) {
        assert r[i] in r;
      }
    }
  }

  lemma {:induction false} RemoveConcat(a: seq<Key>, b: seq<Key>, k: Key)
    ensures Remove(a + b, k) == Remove(a, k) + Remove(b, k)
  {
    if b == [] {
      assert a + b == a;
    } else {
      var front, last := b[..|b| - 1], b[|b| - 1];
      assert (a + b)[..|a + b| - 1] == a + front && (a + b)[|a + b| - 1] == last;
      RemoveConcat(a, front, k);
    }
  }

  lemma RemoveSelf(k: Key)
    ensures Remove([k], k) == []
  {
    var single: seq<Key> := [k];
    assert single[..0] == [];
    assert Remove(single, k) == Remove(single[..0], k);
  }

  lemma RemoveOne(s: seq<Key>, i: nat)
    requires i < |s| && NoRepeats(s)
    ensures Remove(s, s[i]) == s[..i] + s[i + 1..]
  {
    hide Remove;
    var k, a, b := s[i], s[..i], s[i + 1..];
    assert s == (a + [k]) + b;
    RemoveConcat(a + [k], b, k);
    RemoveConcat(a, [k], k);
    RemoveSelf(k);
    assert k !in a && k !in b;
  }

  /** One cache step on the key list. */
  ghost function Touch(keys: seq<Key>, k: Key): seq<Key> {
    if k in keys then Remove(keys, k) + [k]
    else if |keys| >= CACHE_CAPACITY then keys[1..] + [k]
    else keys + [k]
  }

  lemma LastNConcat(a: seq<Key>, b: seq<Key>, n: nat)
    requires |b| == n
    ensures LastN(a + b, n) == b
  {}

  lemma TouchHitAfterOverflow(a: seq<Key>, b: seq<Key>, k: Key, i: nat)
    requires |b| == CACHE_CAPACITY && NoRepeats(a + b) && i < |b| && b[i] == k
    ensures Touch(b, k) == LastN(Remove(a + b, k) + [k], CACHE_CAPACITY)
  {
    hide Remove, LastN;
    if k in a {
      var j :| 0 <= j < |a| && a[j] == k;
      assert (a + b)[j] == (a + b)[|a| + i];
    }
    assert NoRepeats(b) by {
      assert forall x :: 0 <= x < |b| ==> b[x] == (a + b)[|a| + x];
    }
    RemoveConcat(a, b, k);
    RemoveOne(b, i);
    var r := Remove(b, k);
    assert (a + r) + [k] == a + (r + [k]);
    LastNConcat(a, r + [k], CACHE_CAPACITY);
  }

  lemma TouchMissAfterOverflow(a: seq<Key>, b: seq<Key>, k: Key)
    requires |b| == CACHE_CAPACITY && k !in b
    ensures Touch(b, k) == LastN(Remove(a + b, k) + [k], CACHE_CAPACITY)
  {
    hide Remove, LastN;
    RemoveConcat(a, b, k);
    var r := Remove(a, k);
    assert (r + b) + [k] == (r + b[..1]) + (b[1..] + [k]);
    LastNConcat(r + b[..1], b[1..] + [k], CACHE_CAPACITY);
  }

  /** Touching the most recent keys gives the most recent keys of the longer history. */
  lemma TouchTracksRecency(recent: seq<Key>, k: Key)
    requires NoRepeats(recent)
    ensures Touch(LastN(recent, CACHE_CAPACITY), k) == LastN(Remove(recent, k) + [k], CACHE_CAPACITY)
  {
    hide Remove, Touch;
    if |recent| <= CACHE_CAPACITY {
      TouchUnfilled(recent, k);
    } else {
      var n := |recent| - CACHE_CAPACITY;
      var a, b := recent[..n], recent[n..];
      assert recent == a + b;
      if k in b {
        var i :| 0 <= i < |b| && b[i] == k;
        TouchHitAfterOverflow(a, b, k, i);
      } else {
        TouchMissAfterOverflow(a, b, k);
      }
    }
  }

  lemma TouchUnfilled(b: seq<Key>, k: Key)
    requires |b| <= CACHE_CAPACITY && NoRepeats(b)
    ensures Touch(b, k) == LastN(Remove(b, k) + [k], CACHE_CAPACITY)
  {
    hide Remove;
    if k in b {
      var i :| 0 <= i < |b| && b[i] == k;
      RemoveOne(b, i);
    } else if |b| == CACHE_CAPACITY {
      assert b + [k] == b[..1] + (b[1..] + [k]);
      LastNConcat(b[..1], b[1..] + [k], CACHE_CAPACITY);
    }
  }

  // ---------------------------------------------------------------------------
  // The cache

  /** reedSolomonCache: aligned key and value lists, oldest first. */
  class ReedSolomonCache {
    var keys: seq<Key>
    var values: seq<Codec>
    ghost var history: seq<Key>

    /** The cache holds the codecs of the most recently used keys, oldest first. */
    ghost predicate Valid()
      reads this
    {
      && keys == LastN(ByLastUse(history), 32)
      && |values| == |keys|
      && forall i :: 0 <= i < |keys| ==> CodecFor(values[i], keys[i])
    }

    constructor ()
      ensures Valid() && history == []
    {
      keys, values, history := [], [], [];
    }

    /** A hit: move entry `i` to the back. */
    method MoveToBack(i: nat)
      requires Valid() && i < |keys|
      modifies this
      ensures Valid() && history == old(history) + [old(keys)[i]]
    {
      hide CodecFor, ByLastUse, LastN, Remove;
      var key, codec := keys[i], values[i];
      RecencyStep(history, key);
      RemoveOne(keys, i);
      keys := keys[..i] + keys[i + 1..] + [key];
      values := values[..i] + values[i + 1..] + [codec];
      history := history + [key];
    }

    /** A miss: make room, then append. */
    method Insert(key: Key, codec: Codec)
      requires Valid() && key !in keys && CodecFor(codec, key)
      modifies this
      ensures Valid() && history == old(history) + [key]
    {
      hide CodecFor, ByLastUse, LastN, Remove;
      RecencyStep(history, key);
      if |keys| >= CACHE_CAPACITY {
        keys := keys[1..];
        values := values[1..];
      }
      keys := keys + [key];
      values := values + [codec];
      history := history + [key];
    }

    /** GetOrBuild answers as a fresh construction would, and records the use. */
    method GetOrBuild(t: Tables, numData: nat, numCoding: nat) returns (r: Build)
      requires t.Valid() && Valid()
      modifies this
      ensures Valid()
      ensures r.Built? <==> numData > 0 && numData + numCoding <= 256
      ensures r.Built? ==> CodecFor(r.codec, (numData, numCoding)) && history == old(history) + [(numData, numCoding)]
      ensures r.Refused? ==> r.error == (if numData == 0 then InvalidShardCounts else TooManyShards)
      ensures r.Refused? ==> keys == old(keys) && values == old(values) && history == old(history)
      ensures keys == LastN(ByLastUse(history), 32)
    {
      hide Codec.Valid, ByLastUse, LastN;
      var key := (numData, numCoding);
      for i := 0 to |keys|
        invariant keys == old(keys) && values == old(values) && history == old(history)
        invariant forall j :: 0 <= j < i ==> keys[j] != key
      {
        if keys[i] == key {
          r := Built(values[i]);
          CodecForCounts(r.codec, key);
          MoveToBack(i);
          return;
        }
      }
      r := NewReedSolomon(t, numData, numCoding);
      if r.Built? {
        Insert(key, r.codec);
      }
    }
  }

  /** The cached key list follows the history one use at a time. */
  lemma RecencyStep(history: seq<Key>, k: Key)
    ensures Touch(LastN(ByLastUse(history), CACHE_CAPACITY), k) == LastN(ByLastUse(history + [k]), CACHE_CAPACITY)
    ensures NoRepeats(LastN(ByLastUse(history), CACHE_CAPACITY))
  {
    ByLastUseMeaning(history);
    ByLastUseSnoc(history, k);
    TouchTracksRecency(ByLastUse(history), k);
  }

  lemma ByLastUseSnoc(history: seq<Key>, k: Key)
    ensures ByLastUse(history + [k]) == Remove(ByLastUse(history), k) + [k]
  {
    assert (history + [k])[..|history|] == history;
  }

  ghost predicate CodecFor(c: Codec, k: Key) {
    c.Valid() && c.dataShards == k.0 && c.totalShards == k.0 + k.1
  }

  lemma CodecForCounts(c: Codec, k: Key)
    requires CodecFor(c, k)
    ensures k.0 > 0 && k.0 + k.1 <= 256
  {}

  /** Whatever the cache returns is the codec a fresh construction would return. */
  lemma CachedEqualsFresh(cached: Codec, built: Codec, k: Key)
    requires CodecFor(cached, k) && CodecFor(built, k)
    ensures cached == built
  {
    CodecUnique(cached, built);
  }
}
