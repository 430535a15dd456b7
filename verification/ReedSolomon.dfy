/** The systematic Vandermonde erasure code of fec.go. Shard buffers are arrays that
    encoding and reconstruction overwrite in place. */
module ReedSolomon {
  import opened Galois
  import opened LinearAlgebra
  import opened Polynomials
  import opened Matrices

  datatype FecError =
    | InvalidShardCounts | TooManyShards | SingularMatrix
    | ShardCount | ShardSizeMismatch | EmptyShardPresent | TooFewShards

  datatype Outcome = Done | Failed(error: FecError)
  datatype Build = Built(codec: Codec) | Refused(error: FecError)

  ghost function Vandermonde(rows: nat, cols: nat): (v: Matrix)
    requires rows <= 256
    ensures Shape(v, rows, cols)
  {
    seq(rows, r requires 0 <= r < rows => seq(cols, c requires c >= 0 => Pow(FromIndex(r), c)))
  }

  /** The rows of `m` picked by `rows`, in that order. */
  ghost function Select(m: Matrix, rows: seq<nat>): (s: Matrix)
    requires forall k :: 0 <= k < |rows| ==> rows[k] < |m|
    ensures |s| == |rows| && forall k :: 0 <= k < |rows| ==> s[k] == m[rows[k]]
  {
    seq(|rows|, k requires 0 <= k < |rows| => m[rows[k]])
  }

  ghost predicate DistinctRows(rows: seq<nat>, bound: nat) {
    && (forall k :: 0 <= k < |rows| ==> rows[k] < bound)
    && (forall i, j :: 0 <= i < j < |rows| ==> rows[i] != rows[j])
  }

  /** reedSolomon: the systematic generator matrix and its parity rows. */
  datatype Codec = Codec(dataShards: nat, totalShards: nat, matrix: Matrix, parityRows: seq<Vector>) {

    /** The code generated by a Vandermonde matrix, in systematic form. */
    ghost predicate Valid() {
      && 1 <= dataShards <= totalShards <= 256
      && Shape(matrix, totalShards, dataShards)
      && parityRows == matrix[dataShards..]
      && Invertible(Vandermonde(dataShards, dataShards))
      && Product(matrix, Vandermonde(dataShards, dataShards), dataShards) == Vandermonde(totalShards, dataShards)
    }
  }

  // ---------------------------------------------------------------------------
  // The code is maximum distance separable

  lemma DistinctPoints(rows: seq<nat>)
    requires DistinctRows(rows, 256)
    ensures Distinct(seq(|rows|, k requires 0 <= k < |rows| => FromIndex(rows[k])))
  {
    hide FromIndex, Index;
    var points := seq(|rows|, k requires 0 <= k < |rows| => FromIndex(rows[k]));
    forall i, j | 0 <= i < j < |rows| ensures points[i] != points[j] {
      IndexRoundTrip(rows[i]);
      IndexRoundTrip(rows[j]);
    }
  }

  /** Any `d` distinct rows of a Vandermonde matrix with `d` columns are independent. */
  lemma VandermondeRows(total: nat, d: nat, rows: seq<nat>)
    requires total <= 256 && |rows| == d && DistinctRows(rows, total)
    ensures TrivialKernel(Select(Vandermonde(total, d), rows), d)
  {
    hide Pow, FromIndex;
    DistinctPoints(rows);
    VandermondeIndependent(Select(Vandermonde(total, d), rows),
                           seq(|rows|, k requires 0 <= k < |rows| => FromIndex(rows[k])));
  }

  ghost function Prefix(d: nat): seq<nat> {
    seq(d, k requires k >= 0 => k)
  }

  lemma TopIndependent(d: nat)
    requires d <= 256
    ensures TrivialKernel(Vandermonde(d, d), d)
  {
    VandermondeRows(d, d, Prefix(d));
    assert Select(Vandermonde(d, d), Prefix(d)) == Vandermonde(d, d);
  }

  /** t (u x) == x when t u is the identity. */
  lemma ApplyInverse(t: Matrix, u: Matrix, x: Vector)
    requires Shape(t, |x|, |x|) && RightInverse(t, u)
    ensures Apply(t, Apply(u, x)) == x
  {
    hide Mul, Add, DotTo, CombineTo;
    var d := |x|;
    forall r | 0 <= r < d ensures Apply(t, Apply(u, x))[r] == x[r] {
      DotOfCombine(t[r], u, x, d);
      assert Product(t, u, d)[r] == IdentityMatrix(d)[r] == Unit(d, r);
      DotUnit(x, r);
    }
    VectorsEqual(Apply(t, Apply(u, x)), x);
  }

  /** With c t == v and t invertible, the kernel of c maps into the kernel of v. */
  lemma FactorKernel(c: Matrix, t: Matrix, v: Matrix, d: nat)
    requires Shape(c, |c|, d) && Shape(t, d, d) && Shape(v, |v|, d)
    requires Product(c, t, d) == v && TrivialKernel(v, d) && Invertible(t)
    ensures TrivialKernel(c, d)
  {
    hide Mul, Add, DotTo, CombineTo;
    var u :| RightInverse(t, u);
    forall x: Vector | |x| == d && Kills(c, x) ensures x == Zeros(d) {
      var y := Apply(u, x);
      ApplyInverse(t, u, x);
      forall r | 0 <= r < |v| ensures Dot(v[r], y) == 0 {
        DotOfCombine(c[r], t, y, d);
        assert v[r] == Product(c, t, d)[r];
        assert Dot(c[r], x) == 0;
      }
      assert y == Zeros(d);
      forall r | 0 <= r < d ensures x[r] == 0 {
        DotToZeros(t[r], y, d);
        assert Apply(t, y)[r] == Dot(t[r], y);
      }
      VectorsEqual(x, Zeros(d));
    }
  }

  /** Every choice of `dataShards` distinct rows of the generator is independent. */
  lemma MaximumDistanceSeparable(c: Codec, rows: seq<nat>)
    requires c.Valid() && |rows| == c.dataShards && DistinctRows(rows, c.totalShards)
    ensures TrivialKernel(Select(c.matrix, rows), c.dataShards)
  {
    hide Combine;
    var d := c.dataShards;
    VandermondeRows(c.totalShards, d, rows);
    var v := Vandermonde(d, d);
    assert Product(Select(c.matrix, rows), v, d) == Select(Product(c.matrix, v, d), rows);
    FactorKernel(Select(c.matrix, rows), v, Select(Vandermonde(c.totalShards, d), rows), d);
  }

  /** The code is systematic: data shards are carried unchanged. */
  lemma SystematicRow(c: Codec, i: nat)
    requires c.Valid() && i < c.dataShards
    ensures c.matrix[i] == Unit(c.dataShards, i)
  {
    hide Combine, Pow, FromIndex;
    var d := c.dataShards;
    var v := Vandermonde(d, d);
    var u :| RightInverse(v, u);
    assert Combine(c.matrix[i], v, d) == Product(c.matrix, v, d)[i] == Vandermonde(c.totalShards, d)[i] == v[i];
    UndoRightInverse(c.matrix[i], v, u);
    assert Combine(v[i], u, d) == Product(v, u, d)[i] == IdentityMatrix(d)[i];
  }

  /** The shard counts determine the codec. */
  lemma CodecUnique(a: Codec, b: Codec)
    requires a.Valid() && b.Valid() && a.dataShards == b.dataShards && a.totalShards == b.totalShards
    ensures a == b
  {
    hide Combine, Pow, FromIndex;
    var d := a.dataShards;
    var v := Vandermonde(d, d);
    var u :| RightInverse(v, u);
    forall i | 0 <= i < a.totalShards ensures a.matrix[i] == b.matrix[i] {
      assert Combine(a.matrix[i], v, d) == Product(a.matrix, v, d)[i];
      assert Combine(b.matrix[i], v, d) == Product(b.matrix, v, d)[i];
      UndoRightInverse(a.matrix[i], v, u);
      UndoRightInverse(b.matrix[i], v, u);
    }
    assert a.matrix == b.matrix;
  }

  // ---------------------------------------------------------------------------
  // The code evaluates polynomials at the bytes 0, 1, 2, ...

  /** The values of a polynomial at the first `n` bytes. */
  ghost function Values(p: Vector, n: nat): (v: Vector)
    requires n <= 256
    ensures |v| == n && forall i: nat :: i < n ==> v[i] == Eval(p, i as Byte)
  {
    seq(n, i requires 0 <= i < n => Eval(p, i as Byte))
  }

  lemma VandermondeRowEvaluates(rows: nat, p: Vector, i: nat)
    requires i < rows <= 256
    ensures Dot(Vandermonde(rows, |p|)[i], p) == Eval(p, i as Byte)
  {
    hide Pow, Eval, DotTo;
    EvalIsDotTo(Vandermonde(rows, |p|)[i], p, FromIndex(i), |p|);
    assert p[..|p|] == p;
  }

  /** A generator row takes the values of a polynomial at 0 .. dataShards - 1 to its value at
      the row's own index. */
  lemma GeneratorEvaluates(c: Codec, p: Vector, i: nat)
    requires c.Valid() && |p| == c.dataShards && i < c.totalShards
    ensures Dot(c.matrix[i], Values(p, c.dataShards)) == Eval(p, i as Byte)
  {
    hide Eval, DotTo, CombineTo, Vandermonde;
    var d := c.dataShards;
    var v := Vandermonde(d, d);
    forall r: nat | r < d ensures Apply(v, p)[r] == Values(p, d)[r] {
      VandermondeRowEvaluates(d, p, r);
    }
    VectorsEqual(Apply(v, p), Values(p, d));
    DotOfCombine(c.matrix[i], v, p, d);
    assert Combine(c.matrix[i], v, d) == Product(c.matrix, v, d)[i] == Vandermonde(c.totalShards, d)[i];
    VandermondeRowEvaluates(c.totalShards, p, i);
  }

  /** Any `dataShards` bytes are the values of some polynomial of as many coefficients. */
  lemma Interpolation(c: Codec, x: Vector) returns (p: Vector)
    requires c.Valid() && |x| == c.dataShards
    ensures |p| == |x| && Values(p, |x|) == x
  {
    hide Eval, DotTo, CombineTo, Vandermonde, Product;
    var v := Vandermonde(|x|, |x|);
    var u :| RightInverse(v, u);
    p := Apply(u, x);
    ApplyInverse(v, u, x);
    forall r: nat | r < |x| ensures Values(p, |x|)[r] == x[r] {
      VandermondeRowEvaluates(|x|, p, r);
      assert Apply(v, p)[r] == Dot(v[r], p);
    }
    VectorsEqual(Values(p, |x|), x);
  }

  /** (v u) t == v when u t is the identity. */
  lemma ProductUndone(v: Matrix, u: Matrix, t: Matrix, d: nat)
    requires Shape(v, |v|, d) && Shape(u, d, d) && Shape(t, d, d)
    requires Product(u, t, d) == IdentityMatrix(d)
    ensures Product(Product(v, u, d), t, d) == v
  {
    hide Combine;
    forall i | 0 <= i < |v| ensures Product(Product(v, u, d), t, d)[i] == v[i] {
      CombineAssociates(v[i], u, t, d);
      CombineIdentity(v[i]);
    }
  }

  method BuildVandermonde(t: Tables, rows: nat, cols: nat) returns (m: Matrix)
    requires t.Valid() && rows <= 256
    ensures m == Vandermonde(rows, cols)
  {
    hide Pow, FromIndex;
    m := NewVandermonde(t, rows, cols);
    assert forall r :: 0 <= r < rows ==> r % 256 == r;
    MatricesEqual(m, Vandermonde(rows, cols), rows, cols);
  }

  method TopBlock(v: Matrix, rows: nat, d: nat) returns (top: Matrix)
    requires d <= rows <= 256 && v == Vandermonde(rows, d)
    ensures top == Vandermonde(d, d)
  {
    hide Pow, FromIndex;
    top := SubMatrix(v, 0, 0, d, d);
    forall r | 0 <= r < d ensures top[r] == Vandermonde(d, d)[r] {
      assert top[r - 0] == v[r][0..d] == v[r];
      VectorsEqual(v[r], Vandermonde(d, d)[r]);
    }
    MatricesEqual(top, Vandermonde(d, d), d, d);
  }

  method CopyParityRows(m: Matrix, data: nat, coding: nat) returns (parity: seq<Vector>)
    requires |m| == data + coding
    ensures parity == m[data..]
  {
    var rows := new Vector[coding](_ => []);
    for i := 0 to coding
      invariant forall k :: 0 <= k < i ==> rows[k] == m[data + k]
    {
      rows[i] := m[data + i];
    }
    parity := rows[..];
  }

  /** newReedSolomon: V times the inverse of its top block. Construction is refused
      for bad counts only; the top block is never singular. */
  method NewReedSolomon(t: Tables, data: int, coding: int) returns (r: Build)
    requires t.Valid()
    ensures data <= 0 || coding < 0 ==> r == Refused(InvalidShardCounts)
    ensures data > 0 && coding >= 0 && data + coding > 256 ==> r == Refused(TooManyShards)
    ensures data > 0 && coding >= 0 && data + coding <= 256 ==>
              r.Built? && r.codec.Valid() && r.codec.dataShards == data && r.codec.totalShards == data + coding
    ensures r.Built? ==>
              forall p: Vector, i: nat :: |p| == data && i < data + coding ==>
                Dot(r.codec.matrix[i], Values(p, data)) == Eval(p, i as Byte)
  {
    if data <= 0 || coding < 0 {
      return Refused(InvalidShardCounts);
    }
    var total := data + coding;
    if total > 256 {
      return Refused(TooManyShards);
    }
    hide Vandermonde, TrivialKernel, Product;
    var vand := BuildVandermonde(t, total, data);
    var top := TopBlock(vand, total, data);
    TopIndependent(data);
    var inversion := Inverse(t, top);
    if inversion.Singular? {
      return Refused(SingularMatrix);
    }
    var topInv := inversion.inverse;
    assert RightInverse(top, topInv);
    var m := Multiply(t, vand, topInv);
    ProductUndone(vand, topInv, top, data);
    var parity := CopyParityRows(m, data, coding);
    var codec := Codec(data, total, m, parity);
    forall p: Vector, i: nat | |p| == data && i < total
      ensures Dot(codec.matrix[i], Values(p, data)) == Eval(p, i as Byte)
    {
      GeneratorEvaluates(codec, p, i);
    }
    return Built(codec);
  }

  lemma MatricesEqual(a: Matrix, b: Matrix, rows: nat, cols: nat)
    requires Shape(a, rows, cols) && Shape(b, rows, cols)
    requires forall r, c :: 0 <= r < rows && 0 <= c < cols ==> a[r][c] == b[r][c]
    ensures a == b
  {
    forall r | 0 <= r < rows ensures a[r] == b[r] {
      VectorsEqual(a[r], b[r]);
    }
  }
}
