/** Polynomials over GF(256) and the independence of Vandermonde rows. */
module Polynomials {
  import opened Galois
  import opened LinearAlgebra

  /** Value at `a`; the constant coefficient comes first. */
  ghost function Eval(p: Vector, a: Byte): Byte {
    if |p| == 0 then 0 else Add(p[0], Mul(a, Eval(p[1..], a)))
  }

  /** The quotient of p(X) - p(a) by X - a. */
  ghost function Quotient(p: Vector, a: Byte): (q: Vector)
    requires |p| >= 1
    ensures |q| == |p| - 1
  {
    if |p| == 1 then [] else [Eval(p[1..], a)] + Quotient(p[1..], a)
  }

  lemma DivisionStep(c: Byte, a: Byte, b: Byte, e: Byte, q: Byte)
    ensures Add(c, Mul(b, Add(e, Mul(Add(b, a), q))))
         == Add(Add(c, Mul(a, e)), Mul(Add(b, a), Add(e, Mul(b, q))))
  {
    hide Mul, Add;
    var s := Add(b, a);
    var w := Mul(s, Mul(b, q));
    MulAdd(b, e, Mul(s, q));
    MulAssociates(b, s, q);
    MulCommutes(b, s);
    MulAssociates(s, b, q);
    assert Mul(b, Add(e, Mul(s, q))) == Add(Mul(b, e), w);
    MulAdd(s, e, Mul(b, q));
    MulAdd(e, b, a);
    assert Mul(s, Add(e, Mul(b, q))) == Add(Add(Mul(b, e), Mul(a, e)), w);
    var be, ae := Mul(b, e), Mul(a, e);
    AddAssociates(c, be, w);
    AddAssociates(Add(c, ae), Add(be, ae), w);
    AddCommutes(be, ae);
    AddAssociates(c, ae, Add(ae, be));
    AddAssociates(ae, ae, be);
    AddZero(ae);
    AddZero(be);
  }

  lemma {:induction false} Division(p: Vector, a: Byte, b: Byte)
    requires |p| >= 1
    ensures Eval(p, b) == Add(Eval(p, a), Mul(Add(b, a), Eval(Quotient(p, a), b)))
  {
    hide Mul, Add;
    var p1 := p[1..];
    if |p| == 1 {
      MulZero(a);
      MulZero(b);
      MulZero(Add(b, a));
      AddZero(Eval(p, a));
    } else {
      Division(p1, a, b);
      assert Quotient(p, a)[1..] == Quotient(p1, a);
      DivisionStep(p[0], a, b, Eval(p1, a), Eval(Quotient(p1, a), b));
    }
  }

  lemma {:induction false} ZeroQuotient(p: Vector, a: Byte)
    requires |p| >= 1 && Eval(p, a) == 0 && Quotient(p, a) == Zeros(|p| - 1)
    ensures p == Zeros(|p|)
  {
    hide Mul, Add;
    var p1 := p[1..];
    MulZero(a);
    AddZero(p[0]);
    if |p| > 1 {
      assert Quotient(p, a)[0] == 0;
      assert Quotient(p1, a) == Quotient(p, a)[1..] == Zeros(|p| - 2);
      ZeroQuotient(p1, a);
      assert p == [p[0]] + p1;
    }
    VectorsEqual(p, Zeros(|p|));
  }

  ghost predicate Distinct(points: seq<Byte>) {
    forall i, j :: 0 <= i < j < |points| ==> points[i] != points[j]
  }

  /** A polynomial with as many distinct roots as coefficients is zero. */
  lemma {:induction false} RootCount(p: Vector, roots: seq<Byte>)
    requires |roots| >= |p| && Distinct(roots)
    requires forall i :: 0 <= i < |roots| ==> Eval(p, roots[i]) == 0
    ensures p == Zeros(|p|)
    decreases |p|
  {
    hide Mul, Add;
    if |p| == 0 {
      VectorsEqual(p, Zeros(0));
    } else {
      var a, rest := roots[0], roots[1..];
      var q := Quotient(p, a);
      forall i | 0 <= i < |rest| ensures Eval(q, rest[i]) == 0 {
        var b := rest[i];
        assert b == roots[i + 1] && b != a;
        Division(p, a, b);
        AddCancels(b, a);
        AddZero(Mul(Add(b, a), Eval(q, b)));
        if Eval(q, b) != 0 {
          MulNonzero(Add(b, a), Eval(q, b));
        }
      }
      RootCount(q, rest);
      ZeroQuotient(p, a);
    }
  }

  lemma {:induction false} EvalSnoc(p: Vector, c: Byte, a: Byte)
    ensures Eval(p + [c], a) == Add(Eval(p, a), Mul(Pow(a, |p|), c))
  {
    hide Mul, Add;
    if |p| == 0 {
      assert (p + [c])[1..] == [];
      MulZero(a);
      MulOne(c);
      AddZero(c);
    } else {
      var e, m := Eval(p[1..], a), Mul(Pow(a, |p| - 1), c);
      assert (p + [c])[1..] == p[1..] + [c];
      EvalSnoc(p[1..], c, a);
      MulAdd(a, e, m);
      MulAssociates(a, Pow(a, |p| - 1), c);
      AddAssociates(p[0], Mul(a, e), Mul(a, m));
    }
  }

  lemma {:induction false} EvalIsDotTo(row: Vector, p: Vector, a: Byte, k: nat)
    requires |row| == |p| && k <= |p|
    requires forall c :: 0 <= c < |row| ==> row[c] == Pow(a, c)
    ensures DotTo(row, p, k) == Eval(p[..k], a)
  {
    hide Mul, Add, Pow;
    if k != 0 {
      EvalIsDotTo(row, p, a, k - 1);
      assert p[..k] == p[..k - 1] + [p[k - 1]];
      EvalSnoc(p[..k - 1], p[k - 1], a);
    }
  }

  /** As many rows of powers of distinct points as columns: trivial kernel. */
  lemma VandermondeIndependent(m: Matrix, points: seq<Byte>)
    requires |points| == |m| && Shape(m, |m|, |m|) && Distinct(points)
    requires forall r, c :: 0 <= r < |m| && 0 <= c < |m| ==> m[r][c] == Pow(points[r], c)
    ensures TrivialKernel(m, |m|)
  {
    hide Mul, Add, Pow;
    forall x: Vector | |x| == |m| && Kills(m, x) ensures x == Zeros(|m|) {
      forall i | 0 <= i < |points| ensures Eval(x, points[i]) == 0 {
        EvalIsDotTo(m[i], x, points[i], |x|);
        assert x[..|x|] == x;
        assert Dot(m[i], x) == 0;
      }
      RootCount(x, points);
    }
  }
}
