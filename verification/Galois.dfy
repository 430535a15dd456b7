/** The field GF(256) over the polynomial 0x11D, as byte arithmetic driven by
    discrete-logarithm tables (internal/galois/gf256.go). */
module Galois {
  type Byte = bv8

  /** Addition (and subtraction) of field elements. */
  function Add(a: Byte, b: Byte): Byte {
    a ^ b
  }

  lemma AddZero(a: Byte)
    ensures Add(a, 0) == a && Add(0, a) == a && Add(a, a) == 0
  {}

  lemma AddAssociates(a: Byte, b: Byte, c: Byte)
    ensures Add(Add(a, b), c) == Add(a, Add(b, c))
  {}

  lemma AddCommutes(a: Byte, b: Byte)
    ensures Add(a, b) == Add(b, a)
  {}

  lemma AddInterchange(a: Byte, b: Byte, c: Byte, d: Byte)
    ensures Add(Add(a, b), Add(c, d)) == Add(Add(a, c), Add(b, d))
  {
    hide Add;
    AddAssociates(a, b, Add(c, d));
    AddAssociates(b, c, d);
    AddCommutes(b, c);
    AddAssociates(c, b, d);
    AddAssociates(a, c, Add(b, d));
  }

  lemma AddCancels(a: Byte, b: Byte)
    ensures Add(a, b) == 0 <==> a == b
    ensures Add(Add(a, b), b) == a
  {}

  /** One doubling step: multiplication by x modulo x^8 + x^4 + x^3 + x^2 + 1. */
  function Xtime(b: Byte): Byte {
    (b << 1) ^ (if b & 0x80 != 0 then 0x1D else 0)
  }

  /** `n` doublings of `b`. */
  function Iterate(n: nat, b: Byte): Byte
    decreases n
  {
    if n == 0 then b else Iterate(n - 1, Xtime(b))
  }

  /** The n-th power of the generator. */
  function Power(n: nat): Byte {
    Iterate(n, 1)
  }

  // ---------------------------------------------------------------------------
  // Doubling is linear and injective

  lemma ShiftXor(a: Byte, b: Byte)
    ensures (a ^ b) << 1 == (a << 1) ^ (b << 1)
  {}

  lemma TopBit(a: Byte, b: Byte)
    ensures (a ^ b) & 0x80 == (a & 0x80) ^ (b & 0x80)
    ensures a & 0x80 == 0 || a & 0x80 == 0x80
  {}

  lemma XtimeAdd(a: Byte, b: Byte)
    ensures Xtime(Add(a, b)) == Add(Xtime(a), Xtime(b))
  {
    ShiftXor(a, b);
    TopBit(a, b);
    TopBit(b, a);
    if a & 0x80 == 0 {
      if b & 0x80 == 0 {} else {}
    } else {
      if b & 0x80 == 0 {} else {}
    }
  }

  lemma XtimeInjective(a: Byte, b: Byte)
    requires Xtime(a) == Xtime(b)
    ensures a == b
  {}

  lemma {:induction false} IterateAdd(n: nat, a: Byte, b: Byte)
    ensures Iterate(n, Add(a, b)) == Add(Iterate(n, a), Iterate(n, b))
    decreases n
  {
    hide Xtime;
    if n != 0 {
      XtimeAdd(a, b);
      IterateAdd(n - 1, Xtime(a), Xtime(b));
    }
  }

  lemma {:induction false} IterateZero(n: nat)
    ensures Iterate(n, 0) == 0
  {
    if n != 0 {
      assert Xtime(0) == 0;
      IterateZero(n - 1);
    }
  }

  lemma {:induction false} IterateSum(m: nat, n: nat, b: Byte)
    ensures Iterate(m + n, b) == Iterate(m, Iterate(n, b))
    decreases n
  {
    if n != 0 {
      IterateSum(m, n - 1, Xtime(b));
    }
  }

  lemma {:induction false} IterateInjective(n: nat, a: Byte, b: Byte)
    requires Iterate(n, a) == Iterate(n, b)
    ensures a == b
    decreases n
  {
    if n != 0 {
      IterateInjective(n - 1, Xtime(a), Xtime(b));
      XtimeInjective(a, b);
    }
  }

  // ---------------------------------------------------------------------------
  // The generator has order exactly 255

  /** Doubling `b` reaches 1 for the first time after exactly `n` steps. */
  predicate ReturnsAfter(n: nat, b: Byte)
    decreases n
  {
    if n == 0 then b == 1 else b != 1 && ReturnsAfter(n - 1, Xtime(b))
  }

  function Xtime4(b: Byte): Byte {
    Xtime(Xtime(Xtime(Xtime(b))))
  }

  /** Neither `b` nor its next three doublings is 1. */
  predicate Avoids4(b: Byte) {
    b != 1 && Xtime(b) != 1 && Xtime(Xtime(b)) != 1 && Xtime(Xtime(Xtime(b))) != 1
  }

  lemma EightSteps(n: nat, b: Byte)
    requires ReturnsAfter(n, Xtime4(Xtime4(b))) && Avoids4(b) && Avoids4(Xtime4(b))
    ensures ReturnsAfter(n + 8, b)
  {
    hide Xtime;
    FourSteps(n, Xtime4(b));
    FourSteps(n + 4, b);
  }

  lemma FourSteps(n: nat, b: Byte)
    requires ReturnsAfter(n, Xtime4(b)) && Avoids4(b)
    ensures ReturnsAfter(n + 4, b)
  {
    hide Xtime;
    assert ReturnsAfter(n + 1, Xtime(Xtime(Xtime(b))));
    assert ReturnsAfter(n + 2, Xtime(Xtime(b)));
    assert ReturnsAfter(n + 3, Xtime(b));
  }

  lemma OrbitTail()
    ensures ReturnsAfter(126, 0x17)
  {
    assert ReturnsAfter(6, 0x36);
    EightSteps(6, 0x58); EightSteps(14, 0xf3); EightSteps(22, 0x24); EightSteps(30, 0x9b);
    EightSteps(38, 0xa2); EightSteps(46, 0x38); EightSteps(54, 0x19); EightSteps(62, 0x37);
    EightSteps(70, 0xdb); EightSteps(78, 0xe5); EightSteps(86, 0xd1); EightSteps(94, 0x92);
    EightSteps(102, 0x4d); EightSteps(110, 0x9e); EightSteps(118, 0x17);
  }

  lemma OrbitMiddle()
    ensures ReturnsAfter(198, 0xba)
  {
    OrbitTail();
    EightSteps(126, 0x76); EightSteps(134, 0x1f); EightSteps(142, 0x1a); EightSteps(150, 0xaf);
    EightSteps(158, 0xe1); EightSteps(166, 0xe7); EightSteps(174, 0xca); EightSteps(182, 0xbe);
    EightSteps(190, 0xba);
  }

  lemma GeneratorOrbit()
    ensures ReturnsAfter(254, 2)
  {
    OrbitMiddle();
    EightSteps(198, 0x8c); EightSteps(206, 0xd4); EightSteps(214, 0x27); EightSteps(222, 0x03);
    EightSteps(230, 0x98); EightSteps(238, 0x3a); EightSteps(246, 0x02);
  }

  lemma {:induction false} FirstReturn(n: nat, b: Byte, k: nat)
    requires ReturnsAfter(n, b) && k <= n
    ensures (Iterate(k, b) == 1) == (k == n)
    decreases n
  {
    if k != 0 {
      FirstReturn(n - 1, Xtime(b), k - 1);
    }
  }

  lemma GeneratorOrder(k: nat)
    requires 0 < k <= 255
    ensures (Power(k) == 1) == (k == 255)
  {
    GeneratorOrbit();
    FirstReturn(254, 2, k - 1);
    assert Xtime(1) == 2;
  }

  lemma PowerPeriod(n: nat)
    ensures Power(n + 255) == Power(n)
  {
    GeneratorOrder(255);
    IterateSum(n, 255, 1);
  }

  lemma {:induction false} PowerPeriods(n: nat, q: nat)
    ensures Power(n + 255 * q) == Power(n)
    decreases q
  {
    if q != 0 {
      PowerPeriods(n, q - 1);
      PowerPeriod(n + 255 * (q - 1));
    }
  }

  lemma PowerNonzero(n: nat)
    ensures Power(n) != 0
  {
    if Power(n) == 0 {
      IterateZero(n);
      IterateInjective(n, 1, 0);
    }
  }

  lemma PowerInjective(i: nat, j: nat)
    requires i < j < 255
    ensures Power(i) != Power(j)
  {
    if Power(i) == Power(j) {
      IterateSum(i, j - i, 1);
      IterateInjective(i, 1, Power(j - i));
      GeneratorOrder(j - i);
    }
  }

  // ---------------------------------------------------------------------------
  // Every nonzero byte is a power of the generator

  /** The table index of a byte. */
  function Index(b: Byte): (i: int)
    ensures 0 <= i < 256
  {
    b as int
  }

  lemma IndexInjective(a: Byte, b: Byte)
    requires Index(a) == Index(b)
    ensures a == b
  {}

  lemma IndexZero(a: Byte)
    ensures (Index(a) == 0) == (a == 0)
  {}

  ghost function PowersBelow(n: nat): set<int> {
    set i | 0 <= i < n :: Index(Power(i))
  }

  ghost function NonzeroCodes(n: nat): (s: set<int>)
    ensures forall k :: k in s <==> 1 <= k <= n
    ensures |s| == n
  {
    if n == 0 then {} else NonzeroCodes(n - 1) + {n}
  }

  lemma {:induction false} PowersAreMany(n: nat)
    requires n <= 255
    ensures |PowersBelow(n)| == n
    ensures forall k :: k in PowersBelow(n) ==> 1 <= k <= 255
  {
    hide Power, Index;
    if n != 0 {
      PowersAreMany(n - 1);
      assert PowersBelow(n) == PowersBelow(n - 1) + {Index(Power(n - 1))};
      PowerNonzero(n - 1);
      IndexZero(Power(n - 1));
      forall i | 0 <= i < n - 1 ensures Index(Power(i)) != Index(Power(n - 1)) {
        PowerInjective(i, n - 1);
        if Index(Power(i)) == Index(Power(n - 1)) {
          IndexInjective(Power(i), Power(n - 1));
        }
      }
    }
  }

  lemma SameSizeSubset(s: set<int>, t: set<int>)
    requires s <= t && |s| == |t|
    ensures s == t
  {
    assert t == s + (t - s);
    assert |t| == |s| + |t - s|;
  }

  lemma PowerSurjective(a: Byte)
    requires a != 0
    ensures exists i: nat :: i < 255 && Power(i) == a
  {
    hide Power, Index;
    PowersAreMany(255);
    SameSizeSubset(PowersBelow(255), NonzeroCodes(255));
    IndexZero(a);
    assert Index(a) in PowersBelow(255);
    var i: nat :| i < 255 && Index(Power(i)) == Index(a);
    IndexInjective(Power(i), a);
  }

  /** The discrete logarithm of a nonzero byte. */
  ghost function Log(a: Byte): (i: nat)
    requires a != 0
    ensures i < 255 && Power(i) == a
  {
    PowerSurjective(a);
    var i: nat :| i < 255 && Power(i) == a;
    i
  }

  lemma LogOfPower(i: nat)
    requires i < 255
    ensures Power(i) != 0 && Log(Power(i)) == i
  {
    PowerNonzero(i);
    var j := Log(Power(i));
    if i < j {
      PowerInjective(i, j);
    } else if j < i {
      PowerInjective(j, i);
    }
  }

  // ---------------------------------------------------------------------------
  // Field operations and their laws

  ghost function Mul(a: Byte, b: Byte): Byte {
    if a == 0 || b == 0 then 0 else Power(Log(a) + Log(b))
  }

  /** Multiplying by a nonzero `a` is doubling `Log(a)` times. */
  lemma MulIsIterate(a: Byte, b: Byte)
    requires a != 0
    ensures Mul(a, b) == Iterate(Log(a), b)
  {
    if b == 0 {
      IterateZero(Log(a));
    } else {
      IterateSum(Log(a), Log(b), 1);
    }
  }

  lemma MulCommutes(a: Byte, b: Byte)
    ensures Mul(a, b) == Mul(b, a)
  {}

  lemma MulZero(a: Byte)
    ensures Mul(a, 0) == 0 && Mul(0, a) == 0
  {}

  lemma MulOne(a: Byte)
    ensures Mul(1, a) == a && Mul(a, 1) == a
  {
    if a != 0 {
      LogOfPower(0);
    }
  }

  lemma MulAdd(a: Byte, b: Byte, c: Byte)
    ensures Mul(a, Add(b, c)) == Add(Mul(a, b), Mul(a, c))
    ensures Mul(Add(b, c), a) == Add(Mul(b, a), Mul(c, a))
  {
    assert Add(0, 0) == 0;
    hide Add;
    if a != 0 {
      MulIsIterate(a, Add(b, c));
      MulIsIterate(a, b);
      MulIsIterate(a, c);
      IterateAdd(Log(a), b, c);
    }
    MulCommutes(a, Add(b, c));
    MulCommutes(a, b);
    MulCommutes(a, c);
  }

  lemma MulNonzero(a: Byte, b: Byte)
    requires a != 0 && b != 0
    ensures Mul(a, b) != 0
  {
    PowerNonzero(Log(a) + Log(b));
  }

  lemma MulAssociates(a: Byte, b: Byte, c: Byte)
    ensures Mul(Mul(a, b), c) == Mul(a, Mul(b, c))
  {
    if a != 0 && c != 0 {
      MulCommutes(b, c);
      MulCommutes(Mul(a, b), c);
      MulIsIterate(a, b);
      MulIsIterate(c, b);
      MulIsIterate(c, Mul(a, b));
      MulIsIterate(a, Mul(c, b));
      IterateSum(Log(a), Log(c), b);
      IterateSum(Log(c), Log(a), b);
    }
  }

  /** The multiplicative inverse. */
  ghost function Reciprocal(a: Byte): Byte
    requires a != 0
  {
    Power(255 - Log(a))
  }

  lemma MulInverse(a: Byte)
    requires a != 0
    ensures Reciprocal(a) != 0
    ensures Mul(a, Reciprocal(a)) == 1 && Mul(Reciprocal(a), a) == 1
  {
    PowerNonzero(255 - Log(a));
    MulIsIterate(a, Reciprocal(a));
    IterateSum(Log(a), 255 - Log(a), 1);
    GeneratorOrder(255);
  }

  // ---------------------------------------------------------------------------
  // Mul is the product of polynomials over GF(2) reduced modulo 0x11D

  /** Shift-and-add product of two polynomials, reducing at every doubling. */
  function ShiftAndAdd(a: Byte, b: Byte): Byte
    decreases a
  {
    if a == 0 then 0
    else Add(if a & 1 == 1 then b else 0, ShiftAndAdd(a >> 1, Xtime(b)))
  }

  lemma SplitLowBit(a: Byte)
    ensures a == Add(a & 1, Xtime(a >> 1))
    ensures a & 1 == 0 || a & 1 == 1
  {
    assert (a >> 1) & 0x80 == 0;
    assert a == (a & 1) ^ ((a >> 1) << 1);
  }

  lemma XtimeIsMulTwo(a: Byte)
    ensures Xtime(a) == Mul(2, a)
  {
    assert Xtime(1) == 2;
    assert Power(1) == Iterate(0, Xtime(1)) == 2;
    LogOfPower(1);
    MulIsIterate(2, a);
    assert Iterate(1, a) == Iterate(0, Xtime(a));
  }

  lemma {:induction false} MulIsPolynomialProduct(a: Byte, b: Byte)
    ensures Mul(a, b) == ShiftAndAdd(a, b)
    decreases a
  {
    hide Xtime, Mul;
    MulZero(b);
    if a != 0 {
      var h := a >> 1;
      SplitLowBit(a);
      MulAdd(b, a & 1, Xtime(h));
      MulOne(b);
      XtimeIsMulTwo(h);
      XtimeIsMulTwo(b);
      MulCommutes(2, h);
      MulAssociates(h, 2, b);
      MulIsPolynomialProduct(h, Xtime(b));
    }
  }

  // ---------------------------------------------------------------------------
  // Powers of an arbitrary element

  ghost function Pow(a: Byte, n: nat): Byte {
    if n == 0 then 1 else Mul(a, Pow(a, n - 1))
  }

  lemma {:induction false} PowIsPower(a: Byte, n: nat)
    requires a != 0
    ensures Pow(a, n) == Power(Log(a) * n)
  {
    if n != 0 {
      PowIsPower(a, n - 1);
      MulIsIterate(a, Pow(a, n - 1));
      assert Log(a) + Log(a) * (n - 1) == Log(a) * n;
      IterateSum(Log(a), Log(a) * (n - 1), 1);
    }
  }

  lemma PowIsModularPower(a: Byte, n: nat)
    requires a != 0
    ensures Pow(a, n) == Power((Log(a) * n) % 255)
  {
    var m := Log(a) * n;
    PowIsPower(a, n);
    PowerPeriods(m % 255, m / 255);
  }

  // ---------------------------------------------------------------------------
  // The lookup tables

  /** The three package tables once `init` has filled them. */
  datatype Tables = Tables(exp: seq<Byte>, log: seq<nat>, mul: seq<seq<Byte>>) {

    ghost predicate Valid() {
      && |exp| == 510 && (forall i :: 0 <= i < 510 ==> exp[i] == Power(i))
      && |log| == 256 && (forall a: Byte :: a != 0 ==> log[Index(a)] == Log(a))
      && |mul| == 256 && (forall a: Byte :: MulRow(mul[Index(a)], a))
    }

    /** Product by adding logarithms; zero has none. */
    function Times(a: Byte, b: Byte): (r: Byte)
      requires Valid()
      ensures r == Mul(a, b)
    {
      if a == 0 || b == 0 then 0 else exp[log[Index(a)] + log[Index(b)]]
    }

    /** Quotient; the original panics on a nonzero dividend over zero. */
    function Div(a: Byte, b: Byte): (r: Byte)
      requires Valid()
      requires a == 0 || b != 0
      ensures b != 0 ==> Mul(r, b) == a && Mul(b, r) == a
    {
      if a == 0 then MulZero(b); 0
      else
        QuotientIsPower(a, b);
        var la: int, lb: int := log[Index(a)], log[Index(b)];
        var e := if la < lb then la - lb + 255 else la - lb;
        assert e == LogDifference(a, b);
        exp[e]
    }

    /** Inverse; the original panics on zero. */
    function Inv(a: Byte): (r: Byte)
      requires Valid()
      requires a != 0
      ensures Mul(a, r) == 1
    {
      MulInverse(a);
      exp[255 - log[Index(a)]]
    }

    /** `a` to the power `n`, with 0 to the power 0 equal to 1. */
    function Exp(a: Byte, n: nat): (r: Byte)
      requires Valid()
      ensures r == Pow(a, n)
    {
      if n == 0 then 1
      else if a == 0 then MulZero(Pow(a, n - 1)); 0
      else
        PowIsModularPower(a, n);
        exp[(log[Index(a)] * n) % 255]
    }
  }

  ghost predicate MulRow(row: seq<Byte>, a: Byte) {
    |row| == 256 && forall b: Byte :: row[Index(b)] == Mul(a, b)
  }

  lemma QuotientIsPower(a: Byte, b: Byte)
    requires a != 0 && b != 0
    ensures
      var q := Power(LogDifference(a, b));
      Mul(q, b) == a && Mul(b, q) == a
  {
    var e := LogDifference(a, b);
    MulIsIterate(b, Power(e));
    MulCommutes(b, Power(e));
    IterateSum(Log(b), e, 1);
    if Log(a) < Log(b) {
      PowerPeriod(Log(a));
    }
  }

  ghost function LogDifference(a: Byte, b: Byte): (d: nat)
    requires a != 0 && b != 0
    ensures d < 255
  {
    if Log(a) < Log(b) then Log(a) + 255 - Log(b) else Log(a) - Log(b)
  }

  /** The doubling loop of `init` on machine integers. */
  function DoubleAndReduce(b: bv16): bv16 {
    var d := b << 1;
    if d >= 256 then (d ^ 0x11D) & 0xFF else d
  }

  lemma DoubleAndReduceIsXtime(b: bv16)
    requires b < 256
    ensures DoubleAndReduce(b) < 256
    ensures DoubleAndReduce(b) as Byte == Xtime(b as Byte)
  {}

  function FromIndex(i: int): Byte
    requires 0 <= i < 256
  {
    i as Byte
  }

  lemma IndexSuccessor(a: Byte)
    requires a != 255
    ensures Index(a + 1) == Index(a) + 1
  {}

  /** Every table index belongs to a byte. */
  lemma {:induction false} ByteAt(i: int) returns (a: Byte)
    requires 0 <= i < 256
    ensures Index(a) == i
    decreases i
  {
    a := 0;
    if i != 0 {
      var b := ByteAt(i - 1);
      assert b != 255;
      IndexSuccessor(b);
      a := b + 1;
    }
  }

  lemma IndexRoundTrip(i: int)
    requires 0 <= i < 256
    ensures Index(FromIndex(i)) == i
  {
    hide FromIndex, Index;
    var a := ByteAt(i);
    FromIndexRoundTrip(a);
  }

  lemma FromIndexRoundTrip(a: Byte)
    ensures FromIndex(Index(a)) == a
  {}

  /** First loop of `init`: walk the powers of the generator. */
  method FillLogTables() returns (expTable: array<Byte>, logTable: array<nat>)
    ensures fresh(expTable) && fresh(logTable)
    ensures expTable.Length == 510 && forall i :: 0 <= i < 510 ==> expTable[i] == Power(i)
    ensures logTable.Length == 256 && forall i: nat :: i < 255 ==> logTable[Index(Power(i))] == i
  {
    hide Power, Index, DoubleAndReduce;
    expTable := new Byte[510];
    logTable := new nat[256];
    var b: bv16 := 1;
    PowerZero();
    for log := 0 to 255
      invariant b < 256 && b as Byte == Power(log)
      invariant forall i :: 0 <= i < log ==> expTable[i] == Power(i)
      invariant forall i :: 255 <= i < log + 255 ==> expTable[i] == Power(i)
      invariant forall i: nat :: i < log ==> logTable[Index(Power(i))] == i
    {
      forall i: nat | i < log ensures Index(Power(i)) != Index(Power(log)) {
        PowerInjective(i, log);
        if Index(Power(i)) == Index(Power(log)) {
          IndexInjective(Power(i), Power(log));
        }
      }
      PowerPeriod(log);
      logTable[Index(b as Byte)] := log;
      expTable[log] := b as Byte;
      expTable[log + 255] := b as Byte;
      DoubleAndReduceIsXtime(b);
      PowerNext(log);
      b := DoubleAndReduce(b);
    }
  }

  lemma PowerZero()
    ensures Power(0) == 1
  {}

  lemma PowerNext(n: nat)
    ensures Power(n + 1) == Xtime(Power(n))
  {
    IterateSum(1, n, 1);
    assert Iterate(1, Power(n)) == Iterate(0, Xtime(Power(n)));
  }

  /** `init`: fills the exponent, logarithm and product tables. */
  method InitTables() returns (t: Tables)
    ensures t.Valid()
  {
    hide Power, Index, Mul, FromIndex;
    var expTable, logTable := FillLogTables();
    var exp, log := expTable[..], logTable[..];
    forall a: Byte | a != 0 ensures log[Index(a)] == Log(a) {
      assert logTable[Index(Power(Log(a)))] == Log(a);
    }
    var mulTable := new seq<Byte>[256];
    for a := 0 to 256
      invariant forall i :: 0 <= i < a ==> MulRow(mulTable[i], FromIndex(i))
    {
      var row := FillMulRow(exp, log, a);
      mulTable[a] := row;
    }
    t := Tables(exp, log, mulTable[..]);
    forall a: Byte ensures MulRow(t.mul[Index(a)], a) {
      FromIndexRoundTrip(a);
    }
  }

  /** Second loop of `init`: one row of products. */
  method FillMulRow(exp: seq<Byte>, log: seq<nat>, a: int) returns (row: seq<Byte>)
    requires |exp| == 510 && forall i :: 0 <= i < 510 ==> exp[i] == Power(i)
    requires |log| == 256 && forall a: Byte :: a != 0 ==> log[Index(a)] == Log(a)
    requires 0 <= a < 256
    ensures MulRow(row, FromIndex(a))
  {
    hide Power, Index, FromIndex;
    var cells := new Byte[256];
    IndexRoundTrip(a);
    IndexZero(FromIndex(a));
    for c := 0 to 256
      invariant forall j :: 0 <= j < c ==> cells[j] == Mul(FromIndex(a), FromIndex(j))
    {
      IndexRoundTrip(c);
      IndexZero(FromIndex(c));
      if a == 0 || c == 0 {
        cells[c] := 0;
      } else {
        cells[c] := exp[log[a] + log[c]];
      }
    }
    row := cells[..];
    forall b: Byte ensures row[Index(b)] == Mul(FromIndex(a), b) {
      FromIndexRoundTrip(b);
    }
  }
}
