/** Vectors and matrices over GF(256): dot products, row combinations, kernels. */
module LinearAlgebra {
  import opened Galois

  type Vector = seq<Byte>
  type Matrix = seq<Vector>

  ghost predicate Shape(m: Matrix, rows: nat, cols: nat) {
    |m| == rows && forall r :: 0 <= r < rows ==> |m[r]| == cols
  }

  ghost function Zeros(n: nat): Vector {
    seq(n, i => 0)
  }

  ghost function Unit(n: nat, k: nat): Vector {
    seq(n, i => if i == k then 1 else 0)
  }

  ghost function IdentityMatrix(n: nat): Matrix {
    seq(n, k requires k >= 0 => Unit(n, k))
  }

  ghost function Scale(s: Byte, u: Vector): (r: Vector)
    ensures |r| == |u|
  {
    seq(|u|, i requires 0 <= i < |u| => Mul(s, u[i]))
  }

  ghost function AddVectors(u: Vector, v: Vector): (r: Vector)
    requires |u| == |v|
    ensures |r| == |u|
  {
    seq(|u|, i requires 0 <= i < |u| => Add(u[i], v[i]))
  }

  // ---------------------------------------------------------------------------
  // Dot product

  /** Sum of the first `k` products. */
  ghost function DotTo(u: Vector, v: Vector, k: nat): Byte
    requires k <= |u| && k <= |v|
  {
    if k == 0 then 0 else Add(DotTo(u, v, k - 1), Mul(u[k - 1], v[k - 1]))
  }

  ghost function Dot(u: Vector, v: Vector): Byte
    requires |u| == |v|
  {
    DotTo(u, v, |u|)
  }

  ghost function Apply(m: Matrix, x: Vector): Vector
    requires Shape(m, |m|, |x|)
  {
    seq(|m|, r requires 0 <= r < |m| => Dot(m[r], x))
  }

  lemma {:induction false} DotToScale(s: Byte, u: Vector, v: Vector, k: nat)
    requires |u| == |v| && k <= |u|
    ensures DotTo(Scale(s, u), v, k) == Mul(s, DotTo(u, v, k))
  {
    hide Mul, Add;
    if k == 0 {
      MulZero(s);
    } else {
      DotToScale(s, u, v, k - 1);
      MulAdd(s, DotTo(u, v, k - 1), Mul(u[k - 1], v[k - 1]));
      MulAssociates(s, u[k - 1], v[k - 1]);
    }
  }

  lemma {:induction false} DotToAdd(u: Vector, w: Vector, v: Vector, k: nat)
    requires |u| == |v| == |w| && k <= |u|
    ensures DotTo(AddVectors(u, w), v, k) == Add(DotTo(u, v, k), DotTo(w, v, k))
  {
    if k == 0 {
      AddZero(0);
    } else {
      hide Mul, Add;
      DotToAdd(u, w, v, k - 1);
      MulAdd(v[k - 1], u[k - 1], w[k - 1]);
      AddInterchange(DotTo(u, v, k - 1), DotTo(w, v, k - 1), Mul(u[k - 1], v[k - 1]), Mul(w[k - 1], v[k - 1]));
    }
  }

  lemma {:induction false} DotToZeros(u: Vector, v: Vector, k: nat)
    requires k <= |u| && k <= |v|
    requires forall i :: 0 <= i < k ==> u[i] == 0 || v[i] == 0
    ensures DotTo(u, v, k) == 0
  {
    if k != 0 {
      hide Mul, Add;
      DotToZeros(u, v, k - 1);
      MulZero(u[k - 1]);
      MulZero(v[k - 1]);
      AddZero(0);
    }
  }

  /** Changing one zero coordinate of `v` adds one product. */
  lemma {:induction false} DotToUpdate(u: Vector, v: Vector, j: nat, b: Byte, k: nat)
    requires |u| == |v| && j < |v| && v[j] == 0 && k <= |u|
    ensures DotTo(u, v[j := b], k) == if j < k then Add(DotTo(u, v, k), Mul(u[j], b)) else DotTo(u, v, k)
  {
    if k != 0 {
      hide Mul, Add;
      DotToUpdate(u, v, j, b, k - 1);
      MulZero(u[k - 1]);
      AddZero(DotTo(u, v, k - 1));
      var p, q := Mul(u[j], b), Mul(u[k - 1], v[k - 1]);
      AddInterchange(DotTo(u, v, k - 1), p, 0, q);
      AddZero(p);
      AddZero(q);
      AddZero(DotTo(u, v, k - 1));
    }
  }

  lemma DotUnit(u: Vector, k: nat)
    requires k < |u|
    ensures Dot(u, Unit(|u|, k)) == u[k] && Dot(Unit(|u|, k), u) == u[k]
  {
    hide Mul, Add;
    var z := Zeros(|u|);
    assert Unit(|u|, k) == z[k := 1];
    DotToZeros(u, z, |u|);
    DotToUpdate(u, z, k, 1, |u|);
    MulOne(u[k]);
    AddZero(u[k]);
    DotCommutes(u, Unit(|u|, k), |u|);
  }

  lemma {:induction false} DotCommutes(u: Vector, v: Vector, k: nat)
    requires |u| == |v| && k <= |u|
    ensures DotTo(u, v, k) == DotTo(v, u, k)
  {
    if k != 0 {
      hide Mul, Add;
      DotCommutes(u, v, k - 1);
      MulCommutes(u[k - 1], v[k - 1]);
    }
  }

  lemma {:induction false} DotToPrefix(u: Vector, v: Vector, u': Vector, v': Vector, k: nat)
    requires k <= |u| && k <= |v| && k <= |u'| && k <= |v'|
    requires u[..k] == u'[..k] && v[..k] == v'[..k]
    ensures DotTo(u, v, k) == DotTo(u', v', k)
  {
    if k != 0 {
      hide Mul, Add;
      assert u[k - 1] == u[..k][k - 1] && v[k - 1] == v[..k][k - 1];
      assert u[..k - 1] == u[..k][..k - 1] && v[..k - 1] == v[..k][..k - 1];
      assert u'[..k - 1] == u'[..k][..k - 1] && v'[..k - 1] == v'[..k][..k - 1];
      DotToPrefix(u, v, u', v', k - 1);
    }
  }

  lemma {:induction false} DotToConcat(u: Vector, v: Vector, w: Vector, x: Vector, k: nat)
    requires |u| == |v| && |w| == |x| && k <= |w|
    ensures DotTo(u + w, v + x, |u| + k) == Add(Dot(u, v), DotTo(w, x, k))
  {
    hide Mul, Add;
    if k == 0 {
      DotToPrefix(u + w, v + x, u, v, |u|);
      AddZero(Dot(u, v));
    } else {
      DotToConcat(u, v, w, x, k - 1);
      AddAssociates(Dot(u, v), DotTo(w, x, k - 1), Mul(w[k - 1], x[k - 1]));
    }
  }

  lemma DotConcat(u: Vector, v: Vector, w: Vector, x: Vector)
    requires |u| == |v| && |w| == |x|
    ensures Dot(u + w, v + x) == Add(Dot(u, v), Dot(w, x))
  {
    DotToConcat(u, v, w, x, |w|);
  }

  // ---------------------------------------------------------------------------
  // Row combinations: the product of a row vector and a matrix

  /** Combination of the first `k` rows of `m` with the coefficients `v`. */
  ghost function CombineTo(v: Vector, m: Matrix, cols: nat, k: nat): (r: Vector)
    requires k <= |v| && k <= |m| && Shape(m, |m|, cols)
    ensures |r| == cols
  {
    if k == 0 then Zeros(cols)
    else AddVectors(CombineTo(v, m, cols, k - 1), Scale(v[k - 1], m[k - 1]))
  }

  ghost function Combine(v: Vector, m: Matrix, cols: nat): (r: Vector)
    requires |v| == |m| && Shape(m, |m|, cols)
    ensures |r| == cols
  {
    CombineTo(v, m, cols, |m|)
  }

  /** The matrix product, row by row. */
  ghost function Product(a: Matrix, b: Matrix, cols: nat): (p: Matrix)
    requires Shape(a, |a|, |b|) && Shape(b, |b|, cols)
    ensures Shape(p, |a|, cols)
  {
    seq(|a|, r requires 0 <= r < |a| => Combine(a[r], b, cols))
  }

  /** Entry by entry, a combination adds one product per row. */
  lemma CombineToEntry(v: Vector, m: Matrix, cols: nat, k: nat, c: nat)
    requires k <= |v| && k <= |m| && Shape(m, |m|, cols) && c < cols
    ensures k == 0 ==> CombineTo(v, m, cols, k)[c] == 0
    ensures k > 0 ==> CombineTo(v, m, cols, k)[c] == Add(CombineTo(v, m, cols, k - 1)[c], Mul(v[k - 1], m[k - 1][c]))
  {
    hide Mul, Add;
  }

  lemma {:induction false} DotOfCombine(v: Vector, m: Matrix, x: Vector, k: nat)
    requires k <= |v| && |v| == |m| && Shape(m, |m|, |x|)
    ensures Dot(CombineTo(v, m, |x|, k), x) == DotTo(v, Apply(m, x), k)
  {
    hide Mul, Add;
    if k == 0 {
      DotToZeros(Zeros(|x|), x, |x|);
    } else {
      DotOfCombine(v, m, x, k - 1);
      DotToAdd(CombineTo(v, m, |x|, k - 1), Scale(v[k - 1], m[k - 1]), x, |x|);
      DotToScale(v[k - 1], m[k - 1], x, |x|);
    }
  }

  lemma VectorsEqual(u: Vector, v: Vector)
    requires |u| == |v| && forall k :: 0 <= k < |u| ==> u[k] == v[k]
    ensures u == v
  {}

  lemma AddVectorsLaws(u: Vector, v: Vector)
    requires |u| == |v|
    ensures AddVectors(u, Zeros(|u|)) == u && AddVectors(Zeros(|u|), u) == u
    ensures AddVectors(u, v) == AddVectors(v, u)
  {
    forall k | 0 <= k < |u| ensures Add(u[k], 0) == u[k] && Add(0, u[k]) == u[k] {
      AddZero(u[k]);
    }
    VectorsEqual(AddVectors(u, Zeros(|u|)), u);
    VectorsEqual(AddVectors(Zeros(|u|), u), u);
    VectorsEqual(AddVectors(u, v), AddVectors(v, u));
  }

  lemma AddVectorsInterchange(a: Vector, b: Vector, c: Vector, d: Vector)
    requires |a| == |b| == |c| == |d|
    ensures AddVectors(AddVectors(a, b), AddVectors(c, d)) == AddVectors(AddVectors(a, c), AddVectors(b, d))
  {
    hide Add;
    forall k | 0 <= k < |a|
      ensures Add(Add(a[k], b[k]), Add(c[k], d[k])) == Add(Add(a[k], c[k]), Add(b[k], d[k]))
    {
      AddInterchange(a[k], b[k], c[k], d[k]);
    }
    VectorsEqual(AddVectors(AddVectors(a, b), AddVectors(c, d)), AddVectors(AddVectors(a, c), AddVectors(b, d)));
  }

  lemma ScaleLaws(s: Byte, t: Byte, u: Vector, v: Vector)
    requires |u| == |v|
    ensures Scale(s, AddVectors(u, v)) == AddVectors(Scale(s, u), Scale(s, v))
    ensures Scale(Add(s, t), u) == AddVectors(Scale(s, u), Scale(t, u))
    ensures Scale(Mul(s, t), u) == Scale(s, Scale(t, u))
  {
    hide Mul, Add;
    forall k | 0 <= k < |u|
      ensures Mul(s, Add(u[k], v[k])) == Add(Mul(s, u[k]), Mul(s, v[k]))
      ensures Mul(Add(s, t), u[k]) == Add(Mul(s, u[k]), Mul(t, u[k]))
      ensures Mul(Mul(s, t), u[k]) == Mul(s, Mul(t, u[k]))
    {
      MulAdd(s, u[k], v[k]);
      MulAdd(u[k], s, t);
      MulAssociates(s, t, u[k]);
    }
    VectorsEqual(Scale(s, AddVectors(u, v)), AddVectors(Scale(s, u), Scale(s, v)));
    VectorsEqual(Scale(Add(s, t), u), AddVectors(Scale(s, u), Scale(t, u)));
    VectorsEqual(Scale(Mul(s, t), u), Scale(s, Scale(t, u)));
  }

  lemma ScaleUnits(u: Vector)
    ensures Scale(0, u) == Zeros(|u|) && Scale(1, u) == u
  {
    hide Mul;
    forall k | 0 <= k < |u| ensures Mul(0, u[k]) == 0 && Mul(1, u[k]) == u[k] {
      MulZero(u[k]);
      MulOne(u[k]);
    }
    VectorsEqual(Scale(0, u), Zeros(|u|));
    VectorsEqual(Scale(1, u), u);
  }

  lemma ScaleZeros(s: Byte, n: nat)
    ensures Scale(s, Zeros(n)) == Zeros(n)
  {
    MulZero(s);
    VectorsEqual(Scale(s, Zeros(n)), Zeros(n));
  }

  /** Combining is linear in the coefficients. */
  lemma {:induction false} CombineToAdd(u: Vector, v: Vector, m: Matrix, cols: nat, k: nat)
    requires |u| == |v| == |m| && k <= |m| && Shape(m, |m|, cols)
    ensures CombineTo(AddVectors(u, v), m, cols, k) == AddVectors(CombineTo(u, m, cols, k), CombineTo(v, m, cols, k))
  {
    hide Mul, Add, AddVectors, Scale;
    if k == 0 {
      AddVectorsLaws(Zeros(cols), Zeros(cols));
    } else {
      CombineToAdd(u, v, m, cols, k - 1);
      AddVectorsAt(u, v, k - 1);
      ScaleLaws(u[k - 1], v[k - 1], m[k - 1], m[k - 1]);
      ScaleLength(u[k - 1], m[k - 1]);
      ScaleLength(v[k - 1], m[k - 1]);
      AddVectorsInterchange(CombineTo(u, m, cols, k - 1), CombineTo(v, m, cols, k - 1),
                            Scale(u[k - 1], m[k - 1]), Scale(v[k - 1], m[k - 1]));
    }
  }

  lemma AddVectorsAt(u: Vector, v: Vector, k: nat)
    requires |u| == |v| && k < |u|
    ensures |AddVectors(u, v)| == |u| && AddVectors(u, v)[k] == Add(u[k], v[k])
  {}

  lemma ScaleLength(s: Byte, u: Vector)
    ensures |Scale(s, u)| == |u|
    ensures forall k :: 0 <= k < |u| ==> Scale(s, u)[k] == Mul(s, u[k])
  {}

  lemma {:induction false} CombineToScale(s: Byte, v: Vector, m: Matrix, cols: nat, k: nat)
    requires |v| == |m| && k <= |m| && Shape(m, |m|, cols)
    ensures |Scale(s, v)| == |v|
    ensures CombineTo(Scale(s, v), m, cols, k) == Scale(s, CombineTo(v, m, cols, k))
  {
    ScaleLength(s, v);
    hide Mul, Add, AddVectors, Scale;
    if k == 0 {
      ScaleZeros(s, cols);
    } else {
      CombineToScale(s, v, m, cols, k - 1);
      ScaleLength(v[k - 1], m[k - 1]);
      ScaleLaws(s, v[k - 1], m[k - 1], m[k - 1]);
      ScaleLaws(s, 0, CombineTo(v, m, cols, k - 1), Scale(v[k - 1], m[k - 1]));
    }
  }

  lemma {:induction false} CombineToZeros(v: Vector, m: Matrix, cols: nat, k: nat)
    requires k <= |v| && k <= |m| && Shape(m, |m|, cols)
    requires forall i :: 0 <= i < k ==> v[i] == 0
    ensures CombineTo(v, m, cols, k) == Zeros(cols)
  {
    if k != 0 {
      CombineToZeros(v, m, cols, k - 1);
      ScaleUnits(m[k - 1]);
      AddVectorsLaws(Zeros(cols), Zeros(cols));
    }
  }

  lemma {:induction false} CombineToUnit(n: nat, r: nat, m: Matrix, cols: nat, k: nat)
    requires r < n == |m| && k <= n && Shape(m, |m|, cols)
    ensures CombineTo(Unit(n, r), m, cols, k) == if r < k then m[r] else Zeros(cols)
  {
    if k != 0 {
      hide Mul, Add, AddVectors, Scale;
      CombineToUnit(n, r, m, cols, k - 1);
      ScaleUnits(m[k - 1]);
      AddVectorsLaws(m[r], m[r]);
      AddVectorsLaws(m[k - 1], m[k - 1]);
      AddVectorsLaws(Zeros(cols), m[k - 1]);
    }
  }

  /** (v a) b == v (a b): combining associates with the matrix product. */
  lemma {:induction false} CombineToAssociates(v: Vector, a: Matrix, b: Matrix, cols: nat, k: nat)
    requires |v| == |a| && k <= |a| && Shape(a, |a|, |b|) && Shape(b, |b|, cols)
    ensures Combine(CombineTo(v, a, |b|, k), b, cols) == CombineTo(v, Product(a, b, cols), cols, k)
  {
    hide Mul, Add, AddVectors, Scale;
    if k == 0 {
      CombineToZeros(Zeros(|b|), b, cols, |b|);
    } else {
      CombineToAssociates(v, a, b, cols, k - 1);
      ScaleLength(v[k - 1], a[k - 1]);
      CombineToAdd(CombineTo(v, a, |b|, k - 1), Scale(v[k - 1], a[k - 1]), b, cols, |b|);
      CombineToScale(v[k - 1], a[k - 1], b, cols, |b|);
    }
  }

  lemma CombineAssociates(v: Vector, a: Matrix, b: Matrix, cols: nat)
    requires |v| == |a| && Shape(a, |a|, |b|) && Shape(b, |b|, cols)
    ensures Combine(Combine(v, a, |b|), b, cols) == Combine(v, Product(a, b, cols), cols)
  {
    CombineToAssociates(v, a, b, cols, |a|);
  }

  lemma {:induction false} CombineToIdentity(v: Vector, k: nat, c: nat)
    requires k <= |v| && c < |v|
    ensures CombineTo(v, IdentityMatrix(|v|), |v|, k)[c] == if c < k then v[c] else 0
  {
    hide Mul, Add, AddVectors, Scale;
    CombineToEntry(v, IdentityMatrix(|v|), |v|, k, c);
    if k != 0 {
      CombineToIdentity(v, k - 1, c);
      MulZero(v[k - 1]);
      MulOne(v[k - 1]);
      AddZero(v[k - 1]);
      AddZero(v[c]);
      AddZero(0);
    }
  }

  lemma CombineIdentity(v: Vector)
    ensures Combine(v, IdentityMatrix(|v|), |v|) == v
  {
    forall c | 0 <= c < |v| ensures Combine(v, IdentityMatrix(|v|), |v|)[c] == v[c] {
      CombineToIdentity(v, |v|, c);
    }
    VectorsEqual(Combine(v, IdentityMatrix(|v|), |v|), v);
  }

  /** `m` has a right inverse. */
  ghost predicate Invertible(m: Matrix) {
    Shape(m, |m|, |m|) && exists u :: RightInverse(m, u)
  }

  ghost predicate RightInverse(m: Matrix, u: Matrix)
    requires Shape(m, |m|, |m|)
  {
    Shape(u, |m|, |m|) && Product(m, u, |m|) == IdentityMatrix(|m|)
  }

  /** Multiplying a row by `m` and then by its right inverse gives the row back. */
  lemma UndoRightInverse(v: Vector, m: Matrix, u: Matrix)
    requires |v| == |m| && Shape(m, |m|, |m|) && RightInverse(m, u)
    ensures Combine(Combine(v, m, |m|), u, |m|) == v
  {
    CombineAssociates(v, m, u, |m|);
    CombineIdentity(v);
  }

  // ---------------------------------------------------------------------------
  // Kernels

  /** Every row of `m` is orthogonal to `z`. */
  ghost predicate Kills(m: Matrix, z: Vector)
    requires Shape(m, |m|, |z|)
  {
    forall r :: 0 <= r < |m| ==> Dot(m[r], z) == 0
  }

  ghost predicate TrivialKernel(m: Matrix, cols: nat)
    requires Shape(m, |m|, cols)
  {
    forall x: Vector :: |x| == cols && Kills(m, x) ==> x == Zeros(cols)
  }

  ghost predicate SameSolutions(a: Matrix, b: Matrix, cols: nat)
    requires Shape(a, |a|, cols) && Shape(b, |b|, cols)
  {
    forall z: Vector :: |z| == cols ==> (Kills(a, z) <==> Kills(b, z))
  }
}
