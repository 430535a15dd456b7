/** Encoding and reconstruction over shard buffers (fec.go). A nil shard is an empty
    buffer; non-empty buffers of one call never share memory. */
module ErasureCoding {
  import opened Galois
  import opened LinearAlgebra
  import opened Polynomials
  import opened Matrices
  import opened ReedSolomon

  /** The bytes currently held by each buffer. */
  ghost function Contents(buffers: seq<array<Byte>>): (m: Matrix)
    reads buffers
    ensures |m| == |buffers| && forall i :: 0 <= i < |buffers| ==> m[i] == buffers[i][..]
  {
    seq(|buffers|, i requires 0 <= i < |buffers| reads buffers => buffers[i][..])
  }

  ghost predicate Sized(buffers: seq<array<Byte>>, len: nat) {
    forall i :: 0 <= i < |buffers| ==> buffers[i].Length == len
  }

  ghost predicate Unaliased(buffers: seq<array<Byte>>) {
    forall i, j :: 0 <= i < j < |buffers| && buffers[i] == buffers[j] ==> buffers[i].Length == 0
  }

  // ---------------------------------------------------------------------------
  // Slices

  /** mulSlice: overwrite `out` with c times `src`. */
  method MulSlice(t: Tables, c: Byte, src: array<Byte>, out: array<Byte>)
    requires t.Valid() && src != out && src.Length == out.Length
    modifies out
    ensures out[..] == Scale(c, src[..])
  {
    hide Mul, Index;
    ScaleUnits(src[..]);
    if c == 0 {
      for i := 0 to out.Length
        invariant forall k :: 0 <= k < i ==> out[k] == 0
      {
        out[i] := 0;
      }
      VectorsEqual(out[..], Zeros(src.Length));
    } else if c == 1 {
      for i := 0 to out.Length
        invariant forall k :: 0 <= k < i ==> out[k] == src[k]
      {
        out[i] := src[i];
      }
      VectorsEqual(out[..], src[..]);
    } else {
      var row := t.mul[Index(c)];
      for i := 0 to src.Length
        invariant forall k :: 0 <= k < i ==> out[k] == Mul(c, src[k])
      {
        out[i] := row[Index(src[i])];
      }
      VectorsEqual(out[..], Scale(c, src[..]));
    }
  }

  /** mulSliceXor: add c times `src` to `out`. */
  method MulSliceXor(t: Tables, c: Byte, src: array<Byte>, out: array<Byte>)
    requires t.Valid() && src != out && src.Length == out.Length
    modifies out
    ensures out[..] == AddVectors(old(out[..]), Scale(c, src[..]))
  {
    hide Mul, Add, Index, Log, Power;
    ScaleUnits(src[..]);
    if c == 0 {
      AddVectorsLaws(out[..], out[..]);
      return;
    }
    if c == 1 {
      for i := 0 to src.Length
        invariant forall k :: 0 <= k < i ==> out[k] == Add(old(out[k]), src[k])
        invariant forall k :: i <= k < out.Length ==> out[k] == old(out[k])
      {
        out[i] := Add(out[i], src[i]);
      }
    } else {
      var row := t.mul[Index(c)];
      for i := 0 to src.Length
        invariant forall k :: 0 <= k < i ==> out[k] == Add(old(out[k]), Mul(c, src[k]))
        invariant forall k :: i <= k < out.Length ==> out[k] == old(out[k])
      {
        out[i] := Add(out[i], row[Index(src[i])]);
      }
    }
    VectorsEqual(out[..], AddVectors(old(out[..]), Scale(c, src[..])));
  }

  /** The inner loop of codeSomeSlices: one output shard. */
  method CodeOneSlice(t: Tables, row: Vector, inputs: seq<array<Byte>>, out: array<Byte>, ghost input: Matrix)
    requires t.Valid() && |row| == |inputs| > 0
    requires Sized(inputs, out.Length) && out !in inputs && input == Contents(inputs)
    modifies out
    ensures out[..] == Combine(row, input, out.Length)
  {
    hide Mul, Add, AddVectors, Scale, Zeros;
    ghost var len := out.Length;
    for i := 0 to |inputs|
      invariant i > 0 ==> out[..] == CombineTo(row, input, len, i)
      invariant Contents(inputs) == input
    {
      assert inputs[i][..] == input[i];
      if i == 0 {
        MulSlice(t, row[i], inputs[i], out);
        AddVectorsLaws(Scale(row[0], input[0]), Scale(row[0], input[0]));
        assert CombineTo(row, input, len, 0) == Zeros(len);
      } else {
        MulSliceXor(t, row[i], inputs[i], out);
      }
    }
  }

  /** codeSomeSlices: every output becomes its row's combination of the inputs. */
  method CodeSomeSlices(t: Tables, rows: seq<Vector>, inputs: seq<array<Byte>>, outputs: seq<array<Byte>>, len: nat)
    requires t.Valid() && |rows| == |outputs| && |inputs| > 0
    requires forall i :: 0 <= i < |rows| ==> |rows[i]| == |inputs|
    requires Sized(inputs, len) && Sized(outputs, len)
    requires forall i :: 0 <= i < |outputs| ==> outputs[i] !in inputs
    requires forall i, j :: 0 <= i < j < |outputs| ==> outputs[i] != outputs[j]
    modifies outputs
    ensures Contents(inputs) == old(Contents(inputs))
    ensures forall i :: 0 <= i < |outputs| ==> outputs[i][..] == Combine(rows[i], old(Contents(inputs)), len)
  {
    hide Combine;
    ghost var input := Contents(inputs);
    for r := 0 to |outputs|
      invariant Contents(inputs) == input
      invariant forall i :: 0 <= i < r ==> outputs[i][..] == Combine(rows[i], input, len)
    {
      CodeOneSlice(t, rows[r], inputs, outputs[r], input);
    }
  }

  // ---------------------------------------------------------------------------
  // Codewords

  /** Shards of equal length, each the generator row's combination of the data shards. */
  ghost predicate Codeword(c: Codec, word: Matrix, len: nat)
    requires c.Valid()
  {
    && Shape(word, c.totalShards, len)
    && forall i :: 0 <= i < c.totalShards ==> word[i] == Combine(c.matrix[i], word[..c.dataShards], len)
  }

  /** Column `j` of the shards is the values of `p` at the bytes 0, 1, 2, ... */
  ghost predicate Evaluates(word: Matrix, j: nat, p: Vector)
    requires |word| <= 256 && forall i :: 0 <= i < |word| ==> j < |word[i]|
  {
    forall i: nat :: i < |word| ==> word[i][j] == Eval(p, i as Byte)
  }

  ghost predicate ColumnEvaluates(word: Matrix, j: nat, d: nat)
    requires |word| <= 256 && forall i :: 0 <= i < |word| ==> j < |word[i]|
  {
    exists p :: |p| == d && Evaluates(word, j, p)
  }

  /** Shards of equal length, every column the values of one polynomial of `d` coefficients. */
  ghost predicate PolynomialColumns(word: Matrix, d: nat, len: nat) {
    && |word| <= 256 && Shape(word, |word|, len)
    && forall j: nat :: j < len ==> ColumnEvaluates(word, j, d)
  }

  ghost function Column(m: Matrix, cols: nat, j: nat): (x: Vector)
    requires Shape(m, |m|, cols) && j < cols
    ensures |x| == |m| && forall i :: 0 <= i < |m| ==> x[i] == m[i][j]
  {
    seq(|m|, i requires 0 <= i < |m| => m[i][j])
  }

  lemma {:induction false} CombineColumn(v: Vector, m: Matrix, cols: nat, k: nat, j: nat)
    requires |v| == |m| && k <= |m| && Shape(m, |m|, cols) && j < cols
    ensures CombineTo(v, m, cols, k)[j] == DotTo(v, Column(m, cols, j), k)
  {
    hide Mul, Add;
    CombineToEntry(v, m, cols, k, j);
    if k > 0 {
      CombineColumn(v, m, cols, k - 1, j);
    }
  }

  lemma ColumnIsPolynomial(c: Codec, word: Matrix, len: nat, j: nat)
    requires c.Valid() && Codeword(c, word, len) && j < len
    ensures ColumnEvaluates(word, j, c.dataShards)
  {
    hide Eval, DotTo, CombineTo, Vandermonde, Product, Invertible;
    var d := c.dataShards;
    var x := Column(word[..d], len, j);
    var p := Interpolation(c, x);
    forall i: nat | i < |word| ensures word[i][j] == Eval(p, i as Byte) {
      CombineColumn(c.matrix[i], word[..d], len, d, j);
      GeneratorEvaluates(c, p, i);
    }
    assert Evaluates(word, j, p);
  }

  lemma PolynomialsCode(c: Codec, word: Matrix, len: nat, i: nat, j: nat)
    requires c.Valid() && |word| == c.totalShards && PolynomialColumns(word, c.dataShards, len)
    requires i < c.totalShards && j < len
    ensures word[i][j] == Combine(c.matrix[i], word[..c.dataShards], len)[j]
  {
    hide Eval, DotTo, CombineTo, Vandermonde, Product, Invertible;
    var d := c.dataShards;
    assert ColumnEvaluates(word, j, d);
    var p :| |p| == d && Evaluates(word, j, p);
    var x := Column(word[..d], len, j);
    VectorsEqual(x, Values(p, d));
    CombineColumn(c.matrix[i], word[..d], len, d, j);
    GeneratorEvaluates(c, p, i);
  }

  /** The codewords are the shards whose columns are values of polynomials with `dataShards`
      coefficients at the bytes 0 .. totalShards - 1: shard i holds the values at i. */
  lemma CodewordsArePolynomials(c: Codec, word: Matrix, len: nat)
    requires c.Valid()
    ensures Codeword(c, word, len) <==> |word| == c.totalShards && PolynomialColumns(word, c.dataShards, len)
  {
    hide Eval, Combine, Vandermonde, Product, Invertible, ColumnEvaluates;
    if Codeword(c, word, len) {
      forall j: nat | j < len ensures ColumnEvaluates(word, j, c.dataShards) {
        ColumnIsPolynomial(c, word, len, j);
      }
    }
    if |word| == c.totalShards && PolynomialColumns(word, c.dataShards, len) {
      forall i | 0 <= i < c.totalShards ensures word[i] == Combine(c.matrix[i], word[..c.dataShards], len) {
        forall j: nat | j < len ensures word[i][j] == Combine(c.matrix[i], word[..c.dataShards], len)[j] {
          PolynomialsCode(c, word, len, i, j);
        }
        VectorsEqual(word[i], Combine(c.matrix[i], word[..c.dataShards], len));
      }
    }
  }

  lemma DataRowsAreCoded(c: Codec, data: Matrix, len: nat, i: nat)
    requires c.Valid() && Shape(data, c.dataShards, len) && i < c.dataShards
    ensures Combine(c.matrix[i], data, len) == data[i]
  {
    SystematicRow(c, i);
    CombineToUnit(c.dataShards, i, data, len, c.dataShards);
  }

  /** Decoding the selected rows of a codeword gives the data shards back. */
  lemma DecodedRow(c: Codec, rows: seq<nat>, decode: Matrix, word: Matrix, len: nat, i: nat)
    requires c.Valid() && Codeword(c, word, len) && i < c.dataShards
    requires |rows| == c.dataShards && DistinctRows(rows, c.totalShards)
    requires Shape(decode, c.dataShards, c.dataShards)
    requires Product(decode, Select(c.matrix, rows), c.dataShards) == IdentityMatrix(c.dataShards)
    ensures Combine(decode[i], Select(word, rows), len) == word[i]
  {
    hide Combine;
    var d := c.dataShards;
    var data, sub := word[..d], Select(c.matrix, rows);
    assert Select(word, rows) == Product(sub, data, len);
    CombineAssociates(decode[i], sub, data, len);
    assert Combine(decode[i], sub, d) == Product(decode, sub, d)[i] == Unit(d, i);
    UnitRow(data, len, i);
  }

  lemma UnitRow(m: Matrix, cols: nat, i: nat)
    requires Shape(m, |m|, cols) && i < |m|
    ensures Combine(Unit(|m|, i), m, cols) == m[i]
  {
    CombineToUnit(|m|, i, m, cols, |m|);
  }

  // ---------------------------------------------------------------------------
  // Encode

  /** The size scan of Encode; empty parity slots get a buffer of their own. */
  method CheckSizes(c: Codec, shards: seq<array<Byte>>) returns (r: Outcome, slots: seq<array<Byte>>)
    requires c.Valid() && |shards| == c.totalShards && Unaliased(shards)
    ensures r == (if Sized(shards, shards[0].Length) then Done else Failed(ShardSizeMismatch))
    ensures r == Done ==>
              && |slots| == |shards| && slots[..c.dataShards] == shards[..c.dataShards]
              && Sized(slots, shards[0].Length) && OwnParity(slots, c.dataShards) && Unaliased(slots)
              && (forall i :: 0 <= i < |slots| ==> slots[i] == shards[i] || fresh(slots[i]))
    ensures r != Done ==> slots == shards
  {
    slots := shards;
    var shardLen := shards[0].Length;
    for i := 0 to |shards|
      invariant |slots| == |shards| && slots[..c.dataShards] == shards[..c.dataShards]
      invariant forall k :: 0 <= k < i ==> shards[k].Length == slots[k].Length == shardLen
      invariant forall k :: i <= k < |shards| ==> slots[k] == shards[k]
      invariant forall k :: 0 <= k < i ==> slots[k] == shards[k] || fresh(slots[k])
      invariant OwnParity(slots[..i], c.dataShards)
    {
      if shards[i].Length != shardLen {
        return Failed(ShardSizeMismatch), shards;
      }
      if i >= c.dataShards && shards[i].Length == 0 {
        var empty := new Byte[shardLen];
        slots := slots[i := empty];
      }
    }
    assert slots[..|slots|] == slots;
    forall i, j | 0 <= i < j < |slots| && slots[i] == slots[j] ensures slots[i].Length == 0 {
      assert j < c.dataShards && slots[i] == slots[..c.dataShards][i] && slots[j] == slots[..c.dataShards][j];
    }
    r := Done;
  }

  /** Parity buffers from `d` on are shared with no other shard. */
  ghost predicate OwnParity(buffers: seq<array<Byte>>, d: nat) {
    forall i, j :: 0 <= i < j < |buffers| && d <= j ==> buffers[i] != buffers[j]
  }

  /** Encode fills the parity shards so that all shards form a codeword. */
  method Encode(t: Tables, c: Codec, shards: seq<array<Byte>>) returns (r: Outcome, coded: seq<array<Byte>>)
    requires t.Valid() && c.Valid() && Unaliased(shards)
    modifies shards
    ensures |shards| != c.totalShards ==> r == Failed(ShardCount)
    ensures |shards| == c.totalShards ==>
              r == (if Sized(shards, shards[0].Length) then Done else Failed(ShardSizeMismatch))
    ensures r == Done ==>
              && |coded| == |shards| && coded[..c.dataShards] == shards[..c.dataShards] && Unaliased(coded)
              && Codeword(c, Contents(coded), shards[0].Length)
              && Contents(coded)[..c.dataShards] == old(Contents(shards))[..c.dataShards]
              && (forall i :: 0 <= i < |coded| ==> coded[i] == shards[i] || fresh(coded[i]))
    ensures r == Done ==> PolynomialColumns(Contents(coded), c.dataShards, shards[0].Length)
    ensures r != Done ==> coded == shards && Contents(shards) == old(Contents(shards))
  {
    if |shards| != c.totalShards {
      return Failed(ShardCount), shards;
    }
    r, coded := CheckSizes(c, shards);
    if r != Done {
      return;
    }
    hide Codec.Valid, Tables.Valid, Codeword, OwnParity, Unaliased, PolynomialColumns;
    ContentsPrefix(coded, shards, c.dataShards);
    FillParity(t, c, coded, shards[0].Length);
    CodewordsArePolynomials(c, Contents(coded), shards[0].Length);
  }

  lemma ContentsPrefix(a: seq<array<Byte>>, b: seq<array<Byte>>, d: nat)
    requires d <= |a| == |b| && a[..d] == b[..d]
    ensures Contents(a)[..d] == Contents(b)[..d]
  {
    forall i | 0 <= i < d ensures a[i] == b[i] {
      assert a[i] == a[..d][i] && b[i] == b[..d][i];
    }
  }

  /** The parity buffers receive the coded data. */
  method FillParity(t: Tables, c: Codec, coded: seq<array<Byte>>, len: nat)
    requires t.Valid() && c.Valid() && |coded| == c.totalShards && Sized(coded, len) && OwnParity(coded, c.dataShards)
    modifies coded[c.dataShards..]
    ensures Codeword(c, Contents(coded), len)
    ensures Contents(coded)[..c.dataShards] == old(Contents(coded))[..c.dataShards]
  {
    hide Combine, Tables.Valid;
    var d := c.dataShards;
    var inputs, outputs := coded[..d], coded[d..];
    ghost var data := Contents(inputs);
    assert data == old(Contents(coded))[..d];
    CodeSomeSlices(t, c.parityRows, inputs, outputs, len);
    assert coded == inputs + outputs;
    assert Contents(coded)[..d] == Contents(inputs) == data;
    RowsFormCodeword(c, data, Contents(coded), len);
  }

  /** Unchanged data followed by coded parity is a codeword. */
  lemma RowsFormCodeword(c: Codec, data: Matrix, word: Matrix, len: nat)
    requires c.Valid() && Shape(data, c.dataShards, len) && Shape(word, c.totalShards, len)
    requires word[..c.dataShards] == data
    requires forall i :: c.dataShards <= i < c.totalShards ==>
              word[i] == Combine(c.parityRows[i - c.dataShards], data, len)
    ensures Codeword(c, word, len)
  {
    hide Combine;
    forall i | 0 <= i < c.totalShards ensures word[i] == Combine(c.matrix[i], data, len) {
      if i < c.dataShards {
        DataRowsAreCoded(c, data, len, i);
        assert word[i] == word[..c.dataShards][i];
      }
    }
  }

  // ---------------------------------------------------------------------------
  // Reconstruct

  ghost function CountTrue(flags: seq<bool>, k: nat): (n: nat)
    requires k <= |flags|
    ensures n <= k
    ensures n == k <==> forall i :: 0 <= i < k ==> flags[i]
  {
    if k == 0 then 0 else CountTrue(flags, k - 1) + if flags[k - 1] then 1 else 0
  }

  /** Present shards are non-empty and of length `len`. */
  ghost predicate PresentSized(shards: seq<array<Byte>>, present: seq<bool>, len: nat)
    requires |shards| == |present|
  {
    forall i :: 0 <= i < |present| && present[i] ==> shards[i].Length == len > 0
  }

  /** The first scan of reconstructInternal. */
  method CheckPresent(shards: seq<array<Byte>>, present: seq<bool>) returns (r: Outcome, shardLen: nat, numPresent: nat)
    requires |shards| == |present|
    ensures r == Done <==> exists len :: PresentSized(shards, present, len)
    ensures r == Done ==> PresentSized(shards, present, shardLen) && numPresent == CountTrue(present, |present|)
    ensures r == Done && numPresent > 0 ==> shardLen > 0
    ensures r != Done ==> r == Failed(EmptyShardPresent) || r == Failed(ShardSizeMismatch)
  {
    shardLen, numPresent := 0, 0;
    for i := 0 to |shards|
      invariant numPresent == CountTrue(present, i) && (shardLen == 0 <==> numPresent == 0)
      invariant forall k :: 0 <= k < i && present[k] ==> shards[k].Length == shardLen > 0
      invariant shardLen > 0 ==> exists k :: 0 <= k < i && present[k] && shards[k].Length == shardLen
    {
      if present[i] {
        if shards[i].Length == 0 {
          return Failed(EmptyShardPresent), shardLen, numPresent;
        }
        if shardLen == 0 {
          shardLen := shards[i].Length;
        } else if shards[i].Length != shardLen {
          return Failed(ShardSizeMismatch), shardLen, numPresent;
        }
        numPresent := numPresent + 1;
      }
    }
    assert PresentSized(shards, present, shardLen);
    r := Done;
  }

  ghost predicate Ascending(rows: seq<nat>, bound: nat) {
    && (forall k :: 0 <= k < |rows| ==> rows[k] < bound)
    && (forall i, j :: 0 <= i < j < |rows| ==> rows[i] < rows[j])
  }

  /** The indices below `k` whose flag is down, in order. */
  ghost function MissingTo(present: seq<bool>, k: nat): (missing: seq<nat>)
    requires k <= |present|
    ensures Ascending(missing, k)
    ensures forall i :: i in missing <==> 0 <= i < k && !present[i]
  {
    if k == 0 then []
    else if present[k - 1] then MissingTo(present, k - 1)
    else MissingTo(present, k - 1) + [k - 1]
  }

  /** The first `d` indices below `k` whose flag is up, in order. */
  ghost function FirstTo(present: seq<bool>, k: nat, d: nat): (valid: seq<nat>)
    requires k <= |present|
    ensures Ascending(valid, k) && |valid| == if CountTrue(present, k) < d then CountTrue(present, k) else d
    ensures forall j :: 0 <= j < |valid| ==> present[valid[j]]
  {
    if k == 0 then []
    else
      var earlier := FirstTo(present, k - 1, d);
      if present[k - 1] && |earlier| < d then earlier + [k - 1] else earlier
  }

  /** Split the indices into the first `d` present ones and all missing ones. */
  method PickRows(present: seq<bool>, d: nat) returns (valid: seq<nat>, missing: seq<nat>)
    ensures valid == FirstTo(present, |present|, d)
    ensures missing == MissingTo(present, |present|)
  {
    hide Ascending, CountTrue;
    valid, missing := [], [];
    for i := 0 to |present|
      invariant valid == FirstTo(present, i, d)
      invariant missing == MissingTo(present, i)
    {
      if present[i] && |valid| < d {
        valid := valid + [i];
      } else if !present[i] {
        missing := missing + [i];
      }
    }
  }

  method GatherRows(m: Matrix, rows: seq<nat>, d: nat) returns (sub: Matrix)
    requires DistinctRows(rows, |m|) && Shape(m, |m|, d)
    ensures sub == Select(m, rows)
  {
    var out := new Vector[|rows|](_ => []);
    for r := 0 to |rows|
      invariant forall k :: 0 <= k < r ==> out[k] == m[rows[k]]
    {
      out[r] := m[rows[r]];
    }
    sub := out[..];
  }

  /** Give every target a zeroed buffer of length `len`, reusing one that fits. */
  method PrepareTargets(shards: seq<array<Byte>>, targets: seq<nat>, len: nat)
    returns (slots: seq<array<Byte>>, outputs: seq<array<Byte>>)
    requires Ascending(targets, |shards|) && Unaliased(shards) && len > 0
    modifies set k | 0 <= k < |targets| :: shards[targets[k]]
    ensures |slots| == |shards| && Unaliased(slots) && |outputs| == |targets| && Sized(outputs, len)
    ensures forall k :: 0 <= k < |targets| ==> outputs[k] == slots[targets[k]]
    ensures forall k :: 0 <= k < |targets| ==> outputs[k] == shards[targets[k]] || fresh(outputs[k])
    ensures forall i :: 0 <= i < |shards| && i !in targets ==> slots[i] == shards[i]
    ensures forall i :: 0 <= i < |shards| && i !in targets ==> shards[i][..] == old(shards[i][..])
  {
    slots, outputs := shards, [];
    for n := 0 to |targets|
      invariant |slots| == |shards| && Unaliased(slots) && |outputs| == n && Sized(outputs, len)
      invariant forall k :: 0 <= k < n ==> outputs[k] == slots[targets[k]]
      invariant forall k :: 0 <= k < n ==> outputs[k] == shards[targets[k]] || fresh(outputs[k])
      invariant forall i :: 0 <= i < |shards| && i !in targets[..n] ==> slots[i] == shards[i]
      invariant forall i :: 0 <= i < |shards| && i !in targets ==> shards[i][..] == old(shards[i][..])
    {
      var mi := targets[n];
      assert mi !in targets[..n];
      if slots[mi].Length != len {
        var buffer := new Byte[len](_ => 0);
        slots := slots[mi := buffer];
      } else {
        assert forall i :: 0 <= i < |shards| && i != mi ==> shards[i] != shards[mi];
        ZeroFill(slots[mi]);
      }
      outputs := outputs + [slots[mi]];
      assert targets[..n + 1] == targets[..n] + [mi];
    }
    assert targets[..|targets|] == targets;
  }

  method ZeroFill(buffer: array<Byte>)
    modifies buffer
    ensures buffer[..] == Zeros(buffer.Length)
  {
    for j := 0 to buffer.Length
      invariant forall k :: 0 <= k < j ==> buffer[k] == 0
    {
      buffer[j] := 0;
    }
  }

  /** `buffer` is one of the shards that are not targets. */
  ghost predicate Spared(buffer: array<Byte>, shards: seq<array<Byte>>, targets: seq<nat>) {
    exists i :: 0 <= i < |shards| && i !in targets && buffer == shards[i]
  }

  /** Rebuild the target shards from the inputs, one matrix row per target. */
  method RestoreRows(t: Tables, shards: seq<array<Byte>>, targets: seq<nat>, rows: seq<Vector>,
                     inputs: seq<array<Byte>>, len: nat) returns (slots: seq<array<Byte>>)
    requires t.Valid() && Ascending(targets, |shards|) && Unaliased(shards) && len > 0
    requires |rows| == |targets| && |inputs| > 0 && Sized(inputs, len)
    requires forall k :: 0 <= k < |rows| ==> |rows[k]| == |inputs|
    requires forall j :: 0 <= j < |inputs| ==> Spared(inputs[j], shards, targets)
    modifies set k | 0 <= k < |targets| :: shards[targets[k]]
    ensures |slots| == |shards| && Unaliased(slots)
    ensures forall i :: 0 <= i < |shards| && i !in targets ==>
              slots[i] == shards[i] && slots[i][..] == old(shards[i][..])
    ensures forall k :: 0 <= k < |targets| ==> slots[targets[k]] == shards[targets[k]] || fresh(slots[targets[k]])
    ensures forall k :: 0 <= k < |targets| ==>
              slots[targets[k]].Length == len && slots[targets[k]][..] == Combine(rows[k], old(Contents(inputs)), len)
  {
    hide Combine;
    ghost var input := Contents(inputs);
    var outputs;
    slots, outputs := PrepareTargets(shards, targets, len);
    forall j | 0 <= j < |inputs| ensures inputs[j] !in outputs && inputs[j][..] == input[j] {
      var i :| 0 <= i < |shards| && i !in targets && inputs[j] == shards[i];
      assert slots[i] == shards[i];
    }
    assert Contents(inputs) == input;
    forall i, j | 0 <= i < j < |outputs| ensures outputs[i] != outputs[j] {
      assert targets[i] < targets[j];
    }
    if |outputs| > 0 {
      CodeSomeSlices(t, rows, inputs, outputs, len);
    }
    forall i | 0 <= i < |shards| && i !in targets ensures slots[i] == shards[i] && slots[i][..] == old(shards[i][..]) {
      if slots[i].Length > 0 {
        assert slots[i] !in outputs;
      }
    }
  }

  /** Every shard that survived agrees with `word`. */
  ghost predicate Agrees(word: Matrix, bytes: Matrix, present: seq<bool>)
    requires |bytes| == |present|
  {
    |word| == |present| && forall i :: 0 <= i < |present| && present[i] ==> bytes[i] == word[i]
  }

  ghost predicate AllTrue(flags: seq<bool>, n: nat)
    requires n <= |flags|
  {
    forall i :: 0 <= i < n ==> flags[i]
  }

  /** The decode matrix: the inverse of the surviving generator rows always exists. */
  method DecodeMatrix(t: Tables, c: Codec, valid: seq<nat>) returns (r: Inversion)
    requires t.Valid() && c.Valid() && |valid| == c.dataShards && DistinctRows(valid, c.totalShards)
    ensures r.Inverted? && Shape(r.inverse, c.dataShards, c.dataShards)
    ensures Product(r.inverse, Select(c.matrix, valid), c.dataShards) == IdentityMatrix(c.dataShards)
  {
    hide Combine, TrivialKernel, Vandermonde;
    MaximumDistanceSeparable(c, valid);
    var sub := GatherRows(c.matrix, valid, c.dataShards);
    r := Inverse(t, sub);
  }

  /** What decoding writes into the missing data shards is the lost data. */
  lemma RestoredMatches(c: Codec, valid: seq<nat>, decode: Matrix, before: Matrix, present: seq<bool>, word: Matrix,
                        len: nat, i: nat)
    requires c.Valid() && |valid| == c.dataShards && DistinctRows(valid, c.totalShards) && i < c.dataShards
    requires |before| == |present| == c.totalShards && forall k :: 0 <= k < |valid| ==> present[valid[k]]
    requires Shape(decode, c.dataShards, c.dataShards)
    requires Product(decode, Select(c.matrix, valid), c.dataShards) == IdentityMatrix(c.dataShards)
    requires Codeword(c, word, len) && Agrees(word, before, present)
    requires Shape(Select(before, valid), c.dataShards, len)
    ensures Combine(decode[i], Select(before, valid), len) == word[i]
  {
    hide Combine;
    DecodedRow(c, valid, decode, word, len, i);
    assert Select(word, valid) == Select(before, valid);
  }

  /** Rebuild missing data shards: invert the surviving rows of the generator. */
  method RestoreData(t: Tables, c: Codec, shards: seq<array<Byte>>, present: seq<bool>,
                     valid: seq<nat>, missing: seq<nat>, len: nat)
    returns (r: Outcome, slots: seq<array<Byte>>)
    requires t.Valid() && c.Valid() && |shards| == |present| == c.totalShards && Unaliased(shards)
    requires PresentSized(shards, present, len) && len > 0
    requires |valid| == c.dataShards && Ascending(valid, |present|)
    requires forall k :: 0 <= k < |valid| ==> present[valid[k]]
    requires missing == MissingTo(present, |present|)
    modifies set i | 0 <= i < |shards| && !present[i] :: shards[i]
    ensures r == Done && |slots| == |shards| && Unaliased(slots)
    ensures forall i :: 0 <= i < |shards| && (present[i] || i >= c.dataShards) ==> slots[i] == shards[i]
    ensures forall i :: 0 <= i < |shards| && present[i] ==> slots[i][..] == old(shards[i][..])
    ensures forall i :: 0 <= i < |shards| ==> slots[i] == shards[i] || fresh(slots[i])
    ensures forall i :: 0 <= i < c.dataShards ==> slots[i].Length == len
    ensures forall word :: Codeword(c, word, len) && Agrees(word, old(Contents(shards)), present) ==>
              forall i :: 0 <= i < c.dataShards ==> slots[i][..] == word[i]
  {
    hide Combine, TrivialKernel, Vandermonde, Product, Invertible, Contents, MissingTo;
    var d := c.dataShards;
    var inversion := DecodeMatrix(t, c, valid);
    if inversion.Singular? {
      return Failed(SingularMatrix), shards;
    }
    var decode := inversion.inverse;
    ghost var before := Contents(shards);
    var inputs := seq(d, k requires 0 <= k < d => shards[valid[k]]);
    assert Contents(inputs) == Select(before, valid);
    var targets := DataTargets(missing, d);
    forall k | 0 <= k < |targets| ensures targets[k] < d && !present[targets[k]] {
      assert targets[k] in targets;
    }
    var rows := seq(|targets|, k requires 0 <= k < |targets| => decode[targets[k]]);
    forall j | 0 <= j < |inputs| ensures Spared(inputs[j], shards, targets) {
      assert inputs[j] == shards[valid[j]];
    }
    slots := RestoreRows(t, shards, targets, rows, inputs, len);
    r := Done;
    forall word, i | Codeword(c, word, len) && Agrees(word, before, present) && 0 <= i < d
      ensures slots[i][..] == word[i]
    {
      if !present[i] {
        var k :| 0 <= k < |targets| && targets[k] == i;
        RestoredMatches(c, valid, decode, before, present, word, len, i);
      }
    }
  }

  /** The loop over missing indices that stops at the first parity index. */
  method DataTargets(missing: seq<nat>, d: nat) returns (targets: seq<nat>)
    requires forall i, j :: 0 <= i < j < |missing| ==> missing[i] < missing[j]
    ensures forall i, j :: 0 <= i < j < |targets| ==> targets[i] < targets[j]
    ensures forall i :: i in targets <==> i in missing && i < d
  {
    targets := [];
    var n := 0;
    while n < |missing| && missing[n] < d
      invariant n <= |missing| && targets == missing[..n]
      invariant forall i :: i in targets ==> i < d
    {
      targets := targets + [missing[n]];
      n := n + 1;
    }
  }

  /** The loop over missing indices that skips the data indices. */
  method ParityTargets(missing: seq<nat>, d: nat) returns (targets: seq<nat>)
    requires forall i, j :: 0 <= i < j < |missing| ==> missing[i] < missing[j]
    ensures forall i, j :: 0 <= i < j < |targets| ==> targets[i] < targets[j]
    ensures forall i :: i in targets <==> i in missing && i >= d
  {
    targets := [];
    for n := 0 to |missing|
      invariant forall i, j :: 0 <= i < j < |targets| ==> targets[i] < targets[j]
      invariant forall i, j :: 0 <= i < |targets| && n <= j < |missing| ==> targets[i] < missing[j]
      invariant forall i :: i in targets <==> i in missing[..n] && i >= d
    {
      assert missing[..n + 1] == missing[..n] + [missing[n]];
      if missing[n] >= d {
        targets := targets + [missing[n]];
      }
    }
    assert missing[..|missing|] == missing;
  }

  /** Rebuild missing parity shards from the complete data shards. */
  method RestoreParity(t: Tables, c: Codec, shards: seq<array<Byte>>, present: seq<bool>, missing: seq<nat>, len: nat)
    returns (slots: seq<array<Byte>>)
    requires t.Valid() && c.Valid() && |shards| == |present| == c.totalShards && Unaliased(shards)
    requires Sized(shards[..c.dataShards], len) && len > 0
    requires missing == MissingTo(present, |present|)
    modifies set i | c.dataShards <= i < |shards| && !present[i] :: shards[i]
    ensures |slots| == |shards|
    ensures forall i :: 0 <= i < |shards| && (present[i] || i < c.dataShards) ==>
              slots[i] == shards[i] && slots[i][..] == old(shards[i][..])
    ensures forall i :: 0 <= i < |shards| ==> slots[i] == shards[i] || fresh(slots[i])
    ensures forall i :: c.dataShards <= i < |shards| && !present[i] ==>
              slots[i][..] == Combine(c.matrix[i], old(Contents(shards[..c.dataShards])), len)
  {
    hide Combine, Vandermonde, Product, Invertible, Contents, MissingTo;
    var d := c.dataShards;
    var inputs := shards[..d];
    var targets := ParityTargets(missing, d);
    forall k | 0 <= k < |targets| ensures d <= targets[k] < |shards| && !present[targets[k]] {
      assert targets[k] in targets;
    }
    var rows := seq(|targets|, k requires 0 <= k < |targets| => c.parityRows[targets[k] - d]);
    forall j | 0 <= j < |inputs| ensures Spared(inputs[j], shards, targets) {
      assert inputs[j] == shards[j];
    }
    slots := RestoreRows(t, shards, targets, rows, inputs, len);
    forall i | d <= i < |shards| && !present[i]
      ensures slots[i][..] == Combine(c.matrix[i], old(Contents(shards[..d])), len)
    {
      var k :| 0 <= k < |targets| && targets[k] == i;
      assert rows[k] == c.matrix[i];
    }
  }

  lemma {:induction false} SomePresent(present: seq<bool>, k: nat) returns (i: nat)
    requires k <= |present| && CountTrue(present, k) > 0
    ensures i < k && present[i]
  {
    if present[k - 1] {
      i := k - 1;
    } else {
      i := SomePresent(present, k - 1);
    }
  }

  /** Mark the first `n` shards present. */
  method MarkPresent(present: seq<bool>, n: nat) returns (marked: seq<bool>)
    requires n <= |present|
    ensures |marked| == |present| && AllTrue(marked, n) && marked[n..] == present[n..]
  {
    marked := present;
    for i := 0 to n
      invariant |marked| == |present| && AllTrue(marked, i) && marked[n..] == present[n..]
    {
      marked := marked[i := true];
    }
  }

  /** Enough intact shards to rebuild the rest. */
  ghost predicate Recoverable(c: Codec, shards: seq<array<Byte>>, present: seq<bool>)
    requires |shards| == |present|
  {
    && (exists len :: PresentSized(shards, present, len))
    && CountTrue(present, |present|) >= c.dataShards
  }

  /** Shards rebuilt from the survivors of a codeword carry that codeword. */
  ghost predicate Restored(c: Codec, before: Matrix, present: seq<bool>, after: Matrix, dataOnly: bool)
    requires c.Valid() && |before| == |present| == |after|
  {
    forall word, len :: Codeword(c, word, len) && Agrees(word, before, present) ==>
      forall i :: 0 <= i < |after| && (i < c.dataShards || !dataOnly || present[i]) ==> after[i] == word[i]
  }

  /** reconstructInternal with `dataOnly`: ReconstructData, otherwise Reconstruct. */
  method Reconstruct(t: Tables, c: Codec, shards: seq<array<Byte>>, present: seq<bool>, dataOnly: bool)
    returns (r: Outcome, slots: seq<array<Byte>>, marked: seq<bool>)
    requires t.Valid() && c.Valid() && Unaliased(shards)
    modifies set i | 0 <= i < |shards| && i < |present| && !present[i] :: shards[i]
    ensures r == Failed(ShardCount) <==> |shards| != c.totalShards || |present| != c.totalShards
    ensures r != Failed(ShardCount) ==> (r == Done <==> Recoverable(c, shards, present))
    ensures r == Failed(TooFewShards) ==> CountTrue(present, |present|) < c.dataShards
    ensures r != Done ==> slots == shards && marked == present && Contents(shards) == old(Contents(shards))
    ensures r == Done ==>
              && |slots| == |shards| && |marked| == |present|
              && Restored(c, old(Contents(shards)), present, Contents(slots), dataOnly)
              && (forall i, len :: 0 <= i < c.dataShards && PresentSized(shards, present, len) ==>
                  slots[i].Length == len)
              && AllTrue(marked, if dataOnly then c.dataShards else c.totalShards)
              && (forall i :: 0 <= i < |present| && present[i] ==> marked[i] && slots[i] == shards[i])
              && (forall i :: 0 <= i < |slots| ==> slots[i] == shards[i] || fresh(slots[i]))
  {
    hide Codeword, Contents, Combine, Product, Vandermonde, Invertible;
    slots, marked := shards, present;
    if |shards| != c.totalShards || |present| != c.totalShards {
      return Failed(ShardCount), slots, marked;
    }
    var shardLen, numPresent;
    r, shardLen, numPresent := CheckPresent(shards, present);
    if r != Done {
      return;
    }
    if numPresent == c.totalShards {
      return;
    }
    if numPresent < c.dataShards {
      return Failed(TooFewShards), slots, marked;
    }
    r, slots := RestoreMissing(t, c, shards, present, shardLen, dataOnly);
    if r != Done {
      return r, shards, present;
    }
    forall i, len | 0 <= i < c.dataShards && PresentSized(shards, present, len) ensures slots[i].Length == len {
      var k := SomePresent(present, |present|);
      assert shards[k].Length == len == shardLen;
      assert slots[i] == slots[..c.dataShards][i];
    }
    marked := MarkPresent(present, if dataOnly then c.dataShards else c.totalShards);
    forall i | 0 <= i < |present| && present[i] ensures marked[i] {
      var n := if dataOnly then c.dataShards else c.totalShards;
      if i >= n {
        assert marked[i] == marked[n..][i - n];
      }
    }
  }

  /** The rebuilding part of reconstructInternal, once its checks have passed. */
  method RestoreMissing(t: Tables, c: Codec, shards: seq<array<Byte>>, present: seq<bool>, len: nat, dataOnly: bool)
    returns (r: Outcome, slots: seq<array<Byte>>)
    requires t.Valid() && c.Valid() && Unaliased(shards) && |shards| == |present| == c.totalShards
    requires PresentSized(shards, present, len) && len > 0 && CountTrue(present, |present|) >= c.dataShards
    modifies set i | 0 <= i < |shards| && !present[i] :: shards[i]
    ensures r == Done && |slots| == |shards|
    ensures Restored(c, old(Contents(shards)), present, Contents(slots), dataOnly)
    ensures Sized(slots[..c.dataShards], len)
    ensures forall i :: 0 <= i < |present| && present[i] ==> slots[i] == shards[i]
    ensures forall i :: 0 <= i < |slots| ==> slots[i] == shards[i] || fresh(slots[i])
  {
    hide Restored, Codeword, Contents, Combine, Product, Vandermonde, Invertible, CountTrue, FirstTo, MissingTo,
      Unaliased;
    ghost var before := Contents(shards);
    var valid, missing := PickRows(present, c.dataShards);
    assert present[valid[0]] && |before[valid[0]]| == len;
    var filled;
    r, filled := RestoreData(t, c, shards, present, valid, missing, len);
    if r != Done {
      return r, shards;
    }
    slots := filled;
    ghost var data := Contents(filled[..c.dataShards]);
    forall word | Codeword(c, word, len) && Agrees(word, before, present) ensures data == word[..c.dataShards] {
      CodewordLength(c, word, len);
    }
    if !dataOnly {
      slots := RestoreParity(t, c, filled, present, missing, len);
    }
    assert Contents(slots)[..c.dataShards] == data;
    RestoredByRows(c, before, present, data, Contents(slots), len, dataOnly);
  }

  lemma CodewordLength(c: Codec, word: Matrix, len: nat)
    requires c.Valid() && Codeword(c, word, len)
    ensures |word| == c.totalShards
  {}

  lemma RestoredByRows(c: Codec, before: Matrix, present: seq<bool>, data: Matrix, after: Matrix, len: nat,
                       dataOnly: bool)
    requires c.Valid() && |before| == |present| == |after| == c.totalShards && Shape(data, c.dataShards, len)
    requires exists i :: 0 <= i < |present| && present[i] && |before[i]| == len
    requires forall word :: Codeword(c, word, len) && Agrees(word, before, present) ==> data == word[..c.dataShards]
    requires after[..c.dataShards] == data
    requires forall i :: 0 <= i < |present| && present[i] ==> after[i] == before[i]
    requires !dataOnly ==>
              forall i :: c.dataShards <= i < |present| && !present[i] ==> after[i] == Combine(c.matrix[i], data, len)
    ensures Restored(c, before, present, after, dataOnly)
  {
    hide Combine, Vandermonde;
    forall word, n, i | Codeword(c, word, n) && Agrees(word, before, present)
                        && 0 <= i < |after| && (i < c.dataShards || !dataOnly || present[i])
      ensures after[i] == word[i]
    {
      var k :| 0 <= k < |present| && present[k] && |before[k]| == len;
      assert word[k] == before[k] && |word[k]| == n;
      if i < c.dataShards {
        assert after[i] == after[..c.dataShards][i];
      }
    }
  }

  /** Encode the data shards, lose any shards but at least `dataShards` of them
      (each lost one is replaced by arbitrary bytes), reconstruct: the encoded
      shards come back, all of them or, in data-only mode, all data shards. */
  method RoundTrip(t: Tables, c: Codec, shards: seq<array<Byte>>, noise: seq<array<Byte>>, present: seq<bool>,
                   dataOnly: bool)
    returns (r: Outcome, ghost word: Matrix, slots: seq<array<Byte>>)
    requires t.Valid() && c.Valid() && |shards| == |noise| == |present| == c.totalShards
    requires Unaliased(shards + noise) && shards[0].Length > 0 && Sized(shards, shards[0].Length)
    requires CountTrue(present, |present|) >= c.dataShards
    modifies shards, noise
    ensures r == Done && |word| == |slots| == c.totalShards
    ensures Codeword(c, word, shards[0].Length)
    ensures word[..c.dataShards] == old(Contents(shards))[..c.dataShards]
    ensures forall i :: 0 <= i < c.totalShards && (i < c.dataShards || !dataOnly) ==> slots[i][..] == word[i]
  {
    hide Combine, Product, Vandermonde, Invertible, Contents, CountTrue;
    var coded, marked;
    assert forall i :: 0 <= i < |shards| ==> shards[i] == (shards + noise)[i];
    assert forall i :: 0 <= i < |noise| ==> noise[i] == (shards + noise)[|shards| + i];
    r, coded := Encode(t, c, shards);
    word := Contents(coded);
    var received := seq(|coded|, i requires 0 <= i < |coded| => if present[i] then coded[i] else noise[i]);
    forall i, j | 0 <= i < j < |received| && received[i] == received[j] ensures received[i].Length == 0 {
      assert coded[i] == shards[i] || fresh(coded[i]);
      assert coded[j] == shards[j] || fresh(coded[j]);
    }
    assert PresentSized(received, present, shards[0].Length);
    assert Agrees(word, Contents(received), present);
    r, slots, marked := Reconstruct(t, c, received, present, dataOnly);
  }
}
