/** Matrix operations of internal/galois/matrix.go. A matrix under elimination is an
    array of rows; a finished matrix is a value. */
module Matrices {
  import opened Galois
  import opened LinearAlgebra

  datatype Inversion = Inverted(inverse: Matrix) | Singular

  // ---------------------------------------------------------------------------
  // Elementary row operations keep the solutions of m z = 0

  lemma SameSolutionsTransitive(a: Matrix, b: Matrix, c: Matrix, cols: nat)
    requires Shape(a, |a|, cols) && Shape(b, |b|, cols) && Shape(c, |c|, cols)
    requires SameSolutions(a, b, cols) && SameSolutions(b, c, cols)
    ensures SameSolutions(a, c, cols)
  {
    hide Kills;
  }

  ghost function Swapped(m: Matrix, i: nat, j: nat): Matrix
    requires i < |m| && j < |m|
  {
    m[i := m[j]][j := m[i]]
  }

  lemma SwapKeepsSolutions(m: Matrix, i: nat, j: nat, cols: nat)
    requires Shape(m, |m|, cols) && i < |m| && j < |m|
    ensures SameSolutions(Swapped(m, i, j), m, cols)
  {
    hide Dot;
    var s := Swapped(m, i, j);
    assert m[i] == s[j] && m[j] == s[i];
    forall z: Vector | |z| == cols ensures Kills(s, z) <==> Kills(m, z) {
      if Kills(s, z) {
        forall r | 0 <= r < |m| ensures Dot(m[r], z) == 0 {
          assert m[r] == s[if r == i then j else if r == j then i else r];
        }
      }
    }
  }

  lemma ScaleKeepsSolutions(m: Matrix, r: nat, s: Byte, cols: nat)
    requires Shape(m, |m|, cols) && r < |m| && s != 0
    ensures SameSolutions(m[r := Scale(s, m[r])], m, cols)
  {
    hide Mul;
    var m' := m[r := Scale(s, m[r])];
    forall z: Vector | |z| == cols ensures Kills(m', z) <==> Kills(m, z) {
      DotToScale(s, m[r], z, cols);
      MulZero(s);
      if Dot(m[r], z) != 0 {
        MulNonzero(s, Dot(m[r], z));
      }
      assert Dot(m'[r], z) == 0 <==> Dot(m[r], z) == 0;
      hide Dot;
      assert forall i :: 0 <= i < |m| && i != r ==> m'[i] == m[i];
    }
  }

  lemma EliminateKeepsSolutions(m: Matrix, rb: nat, r: nat, s: Byte, cols: nat)
    requires Shape(m, |m|, cols) && r < |m| && rb < |m| && r != rb
    ensures SameSolutions(m[rb := AddVectors(m[rb], Scale(s, m[r]))], m, cols)
  {
    hide Mul, Add;
    var m' := m[rb := AddVectors(m[rb], Scale(s, m[r]))];
    forall z: Vector | |z| == cols ensures Kills(m', z) <==> Kills(m, z) {
      DotToScale(s, m[r], z, cols);
      DotToAdd(m[rb], Scale(s, m[r]), z, cols);
      MulZero(s);
      AddZero(Dot(m[rb], z));
      assert Dot(m[r], z) == 0 ==> Dot(m'[rb], z) == Dot(m[rb], z);
      hide Dot;
      assert forall i :: 0 <= i < |m| && i != rb ==> m'[i] == m[i];
      assert m'[r] == m[r];
      if Kills(m', z) {
        assert Dot(m'[rb], z) == 0 && Dot(m'[r], z) == 0;
        forall i | 0 <= i < |m| ensures Dot(m[i], z) == 0 {
          assert Dot(m'[i], z) == 0;
        }
      }
    }
  }

  // ---------------------------------------------------------------------------
  // Row operations in place

  /** SwapRows exchanges two row slices. */
  method SwapRows(m: array<Vector>, i: nat, j: nat)
    requires i < m.Length && j < m.Length
    modifies m
    ensures m[..] == Swapped(old(m[..]), i, j)
  {
    if i != j {
      m[i], m[j] := m[j], m[i];
    }
  }

  /** The column loop that scales one row. */
  method ScaleRow(t: Tables, m: array<Vector>, r: nat, s: Byte)
    requires t.Valid() && r < m.Length
    modifies m
    ensures m[..] == old(m[..])[r := Scale(s, old(m[r]))]
  {
    hide Mul;
    var cols := |m[r]|;
    for c := 0 to cols
      invariant forall i :: 0 <= i < m.Length && i != r ==> m[i] == old(m[i])
      invariant |m[r]| == cols
      invariant forall k :: 0 <= k < c ==> m[r][k] == Mul(s, old(m[r])[k])
      invariant forall k :: c <= k < cols ==> m[r][k] == old(m[r])[k]
    {
      m[r] := m[r][c := t.Times(s, m[r][c])];
    }
    VectorsEqual(m[r], Scale(s, old(m[r])));
  }

  /** The column loop that adds a multiple of row `r` to row `rb`. */
  method EliminateRow(t: Tables, m: array<Vector>, rb: nat, r: nat, s: Byte)
    requires t.Valid() && r < m.Length && rb < m.Length && r != rb && |m[r]| == |m[rb]|
    modifies m
    ensures m[..] == old(m[..])[rb := AddVectors(old(m[rb]), Scale(s, old(m[r])))]
  {
    hide Mul, Add;
    var cols := |m[r]|;
    for c := 0 to cols
      invariant forall i :: 0 <= i < m.Length && i != rb ==> m[i] == old(m[i])
      invariant |m[rb]| == cols
      invariant forall k :: 0 <= k < c ==> m[rb][k] == Add(old(m[rb])[k], Mul(s, old(m[r])[k]))
      invariant forall k :: c <= k < cols ==> m[rb][k] == old(m[rb])[k]
    {
      m[rb] := m[rb][c := Add(m[rb][c], t.Times(s, m[r][c]))];
    }
    VectorsEqual(m[rb], AddVectors(old(m[rb]), Scale(s, old(m[r]))));
  }

  // ---------------------------------------------------------------------------
  // Gauss-Jordan elimination

  /** Columns below `r` are finished: ones on the diagonal, zeros underneath. */
  ghost predicate Echelon(m: Matrix, r: nat, cols: nat) {
    && r <= |m| <= cols && Shape(m, |m|, cols)
    && (forall i :: 0 <= i < r ==> m[i][i] == 1)
    && (forall i, j :: 0 <= j < r && j < i < |m| ==> m[i][j] == 0)
  }

  /** Columns below `d` are zero above the diagonal too. */
  ghost predicate Reduced(m: Matrix, d: nat, cols: nat)
    requires Shape(m, |m|, cols) && d <= |m| <= cols
  {
    forall i, j :: 0 <= i < j < d ==> m[i][j] == 0
  }

  /** No nonzero combination of the first |m| columns vanishes. */
  ghost predicate IndependentColumns(m: Matrix, cols: nat)
    requires Shape(m, |m|, cols) && |m| <= cols
  {
    forall z: Vector :: |z| == cols && SupportedOn(z, |m|) && Kills(m, z) ==> z == Zeros(cols)
  }

  ghost predicate SupportedOn(z: Vector, n: nat) {
    forall j :: n <= j < |z| ==> z[j] == 0
  }

  /** Back substitution: a finished block followed by a column with no pivot
      has a kernel vector with a one in that column. */
  lemma {:induction false} BackSubstitute(m: Matrix, r: nat, k: nat, cols: nat) returns (z: Vector)
    requires Echelon(m, r, cols) && r < |m| && k <= r
    requires forall i :: r <= i < |m| ==> m[i][r] == 0
    ensures |z| == cols && z[r] == 1
    ensures forall j :: 0 <= j < k || r < j < cols ==> z[j] == 0
    ensures forall i :: k <= i < |m| ==> Dot(m[i], z) == 0
    decreases r - k
  {
    hide Mul, Add;
    if k == r {
      z := Unit(cols, r);
      forall i | r <= i < |m| ensures Dot(m[i], z) == 0 {
        DotUnit(m[i], r);
      }
    } else {
      var y := BackSubstitute(m, r, k + 1, cols);
      var b := Dot(m[k], y);
      z := y[k := b];
      forall i | k <= i < |m| ensures Dot(m[i], z) == 0 {
        DotToUpdate(m[i], y, k, b, cols);
        MulZero(b);
        MulOne(b);
        AddZero(0);
        AddZero(b);
      }
    }
  }

  lemma PivotlessColumn(m: Matrix, r: nat, cols: nat)
    requires Echelon(m, r, cols) && r < |m|
    requires forall i :: r <= i < |m| ==> m[i][r] == 0
    ensures !IndependentColumns(m, cols)
  {
    var z := BackSubstitute(m, r, 0, cols);
    assert Kills(m, z) && SupportedOn(z, |m|) && z != Zeros(cols);
  }

  /** An identity block on the left leaves no freedom in its columns. */
  lemma IdentityBlockIndependent(m: Matrix, cols: nat)
    requires Echelon(m, |m|, cols) && Reduced(m, |m|, cols)
    ensures IndependentColumns(m, cols)
  {
    hide Dot;
    forall z: Vector | |z| == cols && SupportedOn(z, |m|) && Kills(m, z) ensures z == Zeros(cols) {
      forall i | 0 <= i < |m| ensures z[i] == 0 {
        IdentityRow(m, i, z, cols);
        assert Dot(m[i], z) == 0;
      }
      VectorsEqual(z, Zeros(cols));
    }
  }

  lemma IdentityRow(m: Matrix, i: nat, z: Vector, cols: nat)
    requires Echelon(m, |m|, cols) && Reduced(m, |m|, cols) && i < |m|
    requires |z| == cols && SupportedOn(z, |m|)
    ensures Dot(m[i], z) == z[i]
  {
    hide Mul, Add;
    var y := z[i := 0];
    DotToZeros(m[i], y, cols);
    DotToUpdate(m[i], y, i, z[i], cols);
    assert y[i := z[i]] == z;
    MulOne(z[i]);
    AddZero(z[i]);
  }

  lemma SolutionsKeepIndependence(a: Matrix, b: Matrix, cols: nat)
    requires Shape(a, |a|, cols) && Shape(b, |b|, cols) && |a| == |b| <= cols
    requires SameSolutions(a, b, cols)
    ensures IndependentColumns(a, cols) <==> IndependentColumns(b, cols)
  {
    hide Kills;
  }

  lemma ScaledPivot(m: Matrix, r: nat, s: Byte, cols: nat)
    requires Echelon(m, r, cols) && r < |m| && Mul(s, m[r][r]) == 1
    ensures Echelon(m[r := Scale(s, m[r])], r, cols)
    ensures m[r := Scale(s, m[r])][r][r] == 1
  {
    hide Mul;
    MulZero(s);
  }

  lemma EliminatedEntry(m: Matrix, rb: nat, r: nat, s: Byte, j: nat, cols: nat)
    requires Shape(m, |m|, cols) && r < |m| && rb < |m| && j < cols
    ensures
      var row := AddVectors(m[rb], Scale(s, m[r]));
      && |row| == cols
      && (m[r][j] == 0 ==> row[j] == m[rb][j])
      && (m[r][j] == 1 && s == m[rb][j] ==> row[j] == 0)
  {
    hide Mul, Add;
    MulZero(s);
    MulOne(s);
    AddZero(m[rb][j]);
  }

  /** Bring a nonzero entry onto the diagonal, if the column still has one. */
  method PivotRow(m: array<Vector>, r: nat, ghost cols: nat)
    requires Echelon(m[..], r, cols) && r < m.Length
    modifies m
    ensures Echelon(m[..], r, cols)
    ensures SameSolutions(m[..], old(m[..]), cols)
    ensures m[r][r] == 0 ==> forall i :: r <= i < m.Length ==> m[i][r] == 0
  {
    hide Kills;
    if m[r][r] == 0 {
      var rb := r + 1;
      while rb < m.Length && m[rb][r] == 0
        invariant r < rb <= m.Length
        invariant forall i :: r <= i < rb ==> m[i][r] == 0
      {
        rb := rb + 1;
      }
      if rb < m.Length {
        SwapKeepsSolutions(m[..], r, rb, cols);
        SwapRows(m, r, rb);
      }
    }
  }

  /** Clear column `r` in the rows below the pivot. */
  method ClearBelow(t: Tables, m: array<Vector>, r: nat, ghost cols: nat)
    requires t.Valid() && Echelon(m[..], r, cols) && r < m.Length && m[r][r] == 1
    modifies m
    ensures Echelon(m[..], r + 1, cols)
    ensures SameSolutions(m[..], old(m[..]), cols)
  {
    hide Kills, AddVectors, Scale;
    for rb := r + 1 to m.Length
      invariant Echelon(m[..], r, cols) && m[r][r] == 1
      invariant forall i :: r < i < rb ==> m[i][r] == 0
      invariant SameSolutions(m[..], old(m[..]), cols)
    {
      if m[rb][r] != 0 {
        ghost var before := m[..];
        var scale := m[rb][r];
        EliminateKeepsSolutions(before, rb, r, scale, cols);
        forall j | 0 <= j <= r
          ensures var row := AddVectors(before[rb], Scale(scale, before[r]));
                  |row| == cols && row[j] == if j == r then 0 else before[rb][j]
        {
          EliminatedEntry(before, rb, r, scale, j, cols);
        }
        EliminateRow(t, m, rb, r, scale);
        SameSolutionsTransitive(m[..], before, old(m[..]), cols);
      }
    }
  }

  /** First pass: row echelon form with unit pivots, or a column without a pivot. */
  method ForwardPass(t: Tables, m: array<Vector>, ghost cols: nat) returns (ok: bool)
    requires t.Valid() && Shape(m[..], m.Length, cols) && m.Length <= cols
    modifies m
    ensures Shape(m[..], m.Length, cols) && SameSolutions(m[..], old(m[..]), cols)
    ensures ok ==> Echelon(m[..], m.Length, cols)
    ensures !ok ==> !IndependentColumns(m[..], cols)
  {
    hide Kills, Scale;
    for r := 0 to m.Length
      invariant Echelon(m[..], r, cols) && SameSolutions(m[..], old(m[..]), cols)
    {
      ghost var m0 := m[..];
      PivotRow(m, r, cols);
      ghost var m1 := m[..];
      SameSolutionsTransitive(m1, m0, old(m[..]), cols);
      if m[r][r] == 0 {
        PivotlessColumn(m1, r, cols);
        return false;
      }
      if m[r][r] != 1 {
        var scale := t.Div(1, m[r][r]);
        MulZero(m[r][r]);
        ScaleKeepsSolutions(m1, r, scale, cols);
        ScaledPivot(m1, r, scale, cols);
        ScaleRow(t, m, r, scale);
        SameSolutionsTransitive(m[..], m1, old(m[..]), cols);
      }
      ghost var m2 := m[..];
      ClearBelow(t, m, r, cols);
      SameSolutionsTransitive(m[..], m2, old(m[..]), cols);
    }
    return true;
  }

  /** Clear column `d` in the rows above the diagonal. */
  method ClearAbove(t: Tables, m: array<Vector>, d: nat, ghost cols: nat)
    requires t.Valid() && Echelon(m[..], m.Length, cols) && d < m.Length && Reduced(m[..], d, cols)
    modifies m
    ensures Echelon(m[..], m.Length, cols) && Reduced(m[..], d + 1, cols)
    ensures SameSolutions(m[..], old(m[..]), cols)
  {
    hide Kills, AddVectors, Scale;
    for ra := 0 to d
      invariant Echelon(m[..], m.Length, cols) && Reduced(m[..], d, cols)
      invariant forall i :: 0 <= i < ra ==> m[i][d] == 0
      invariant SameSolutions(m[..], old(m[..]), cols)
    {
      if m[ra][d] != 0 {
        ghost var before := m[..];
        var scale := m[ra][d];
        EliminateKeepsSolutions(before, ra, d, scale, cols);
        forall j | 0 <= j <= d
          ensures var row := AddVectors(before[ra], Scale(scale, before[d]));
                  |row| == cols && row[j] == if j == d then 0 else before[ra][j]
        {
          EliminatedEntry(before, ra, d, scale, j, cols);
        }
        EliminateRow(t, m, ra, d, scale);
        SameSolutionsTransitive(m[..], before, old(m[..]), cols);
      }
    }
  }

  /** GaussianElim: succeeds exactly when the leading columns are independent, and
      then turns them into the identity without changing the solutions. */
  method GaussianElim(t: Tables, m: array<Vector>, ghost cols: nat) returns (ok: bool)
    requires t.Valid() && Shape(m[..], m.Length, cols) && m.Length <= cols
    modifies m
    ensures ok <==> IndependentColumns(old(m[..]), cols)
    ensures Shape(m[..], m.Length, cols) && SameSolutions(m[..], old(m[..]), cols)
    ensures ok ==> Echelon(m[..], m.Length, cols) && Reduced(m[..], m.Length, cols)
  {
    hide Kills, IndependentColumns;
    ok := ForwardPass(t, m, cols);
    if ok {
      for d := 0 to m.Length
        invariant Echelon(m[..], m.Length, cols) && Reduced(m[..], d, cols)
        invariant SameSolutions(m[..], old(m[..]), cols)
      {
        ghost var before := m[..];
        ClearAbove(t, m, d, cols);
        SameSolutionsTransitive(m[..], before, old(m[..]), cols);
      }
      IdentityBlockIndependent(m[..], cols);
    }
    SolutionsKeepIndependence(m[..], old(m[..]), cols);
  }

  // ---------------------------------------------------------------------------
  // Building matrices

  function Cols(m: Matrix): nat {
    if |m| == 0 then 0 else |m[0]|
  }

  method Identity(n: nat) returns (m: Matrix)
    ensures m == IdentityMatrix(n)
  {
    var rows := new Vector[n](_ => []);
    for i := 0 to n
      invariant forall k :: 0 <= k < i ==> rows[k] == Unit(n, k)
    {
      var row: Vector := seq(n, _ => 0);
      rows[i] := row[i := 1];
    }
    m := rows[..];
  }

  /** Row r of the Vandermonde matrix: the powers of the byte r. */
  method VandermondeRow(t: Tables, r: nat, cols: nat) returns (row: Vector)
    requires t.Valid() && r < 256
    ensures |row| == cols && forall c :: 0 <= c < cols ==> row[c] == Pow(FromIndex(r), c)
  {
    hide Pow, FromIndex;
    var cells := new Byte[cols];
    for c := 0 to cols
      invariant forall j :: 0 <= j < c ==> cells[j] == Pow(FromIndex(r), j)
    {
      cells[c] := t.Exp(FromIndex(r), c);
    }
    row := cells[..];
  }

  /** Row numbers beyond a byte wrap around. */
  method NewVandermonde(t: Tables, rows: nat, cols: nat) returns (m: Matrix)
    requires t.Valid()
    ensures Shape(m, rows, cols)
    ensures forall r, c :: 0 <= r < rows && 0 <= c < cols ==> m[r][c] == Pow(FromIndex(r % 256), c)
  {
    hide Pow, FromIndex;
    var out := new Vector[rows](_ => []);
    for r := 0 to rows
      invariant forall k :: 0 <= k < r ==> |out[k]| == cols
      invariant forall k, c :: 0 <= k < r && 0 <= c < cols ==> out[k][c] == Pow(FromIndex(k % 256), c)
    {
      out[r] := VandermondeRow(t, r % 256, cols);
    }
    m := out[..];
  }

  /** The two inner loops of Multiply: one row of the product. */
  method MultiplyRow(t: Tables, v: Vector, rhs: Matrix) returns (row: Vector)
    requires t.Valid() && |v| == |rhs| && Shape(rhs, |rhs|, Cols(rhs))
    ensures row == Combine(v, rhs, Cols(rhs))
  {
    hide Mul, Add, AddVectors, Scale;
    var cols := Cols(rhs);
    ghost var product := Combine(v, rhs, cols);
    var cells := new Byte[cols];
    for c := 0 to cols
      invariant forall k :: 0 <= k < c ==> cells[k] == product[k]
    {
      var sum: Byte := 0;
      CombineToEntry(v, rhs, cols, 0, c);
      for i := 0 to |rhs|
        invariant sum == CombineTo(v, rhs, cols, i)[c]
        invariant forall k :: 0 <= k < c ==> cells[k] == product[k]
      {
        CombineToEntry(v, rhs, cols, i + 1, c);
        sum := Add(sum, t.Times(v[i], rhs[i][c]));
      }
      cells[c] := sum;
    }
    row := cells[..];
    VectorsEqual(row, product);
  }

  /** Multiply; the original panics when the inner dimensions differ. */
  method Multiply(t: Tables, m: Matrix, rhs: Matrix) returns (out: Matrix)
    requires t.Valid()
    requires Shape(m, |m|, |rhs|) && Shape(rhs, |rhs|, Cols(rhs)) && Cols(m) == |rhs|
    ensures out == Product(m, rhs, Cols(rhs))
  {
    hide Combine;
    var rows := new Vector[|m|](_ => []);
    for r := 0 to |m|
      invariant forall k :: 0 <= k < r ==> rows[k] == Combine(m[k], rhs, Cols(rhs))
    {
      rows[r] := MultiplyRow(t, m[r], rhs);
    }
    out := rows[..];
  }

  method Augment(m: Matrix, rhs: Matrix) returns (out: array<Vector>)
    requires |m| == |rhs|
    ensures fresh(out) && out.Length == |m|
    ensures forall r :: 0 <= r < |m| ==> out[r] == m[r] + rhs[r]
  {
    out := new Vector[|m|](_ => []);
    for r := 0 to |m|
      invariant forall k :: 0 <= k < r ==> out[k] == m[k] + rhs[k]
    {
      out[r] := m[r] + rhs[r];
    }
  }

  method SubMatrix(m: Matrix, r0: nat, c0: nat, r1: nat, c1: nat) returns (out: Matrix)
    requires r0 <= r1 <= |m| && c0 <= c1
    requires forall r :: r0 <= r < r1 ==> c1 <= |m[r]|
    ensures Shape(out, r1 - r0, c1 - c0)
    ensures forall r :: r0 <= r < r1 ==> out[r - r0] == m[r][c0..c1]
  {
    var rows := new Vector[r1 - r0](_ => []);
    for r := r0 to r1
      invariant forall k :: r0 <= k < r ==> rows[k - r0] == m[k][c0..c1]
    {
      rows[r - r0] := m[r][c0..c1];
    }
    out := rows[..];
    forall r | 0 <= r < r1 - r0 ensures |out[r]| == c1 - c0 {
      assert out[r] == m[r + r0][c0..c1];
    }
  }

  // ---------------------------------------------------------------------------
  // Inversion

  ghost function Augmented(m: Matrix, n: nat): (w: Matrix)
    requires Shape(m, n, n)
    ensures Shape(w, n, 2 * n)
  {
    seq(n, r requires 0 <= r < n => m[r] + Unit(n, r))
  }

  /** [m | I] (x, y) == 0 says y == m x. */
  lemma AugmentedSolutions(m: Matrix, n: nat, x: Vector, y: Vector)
    requires Shape(m, n, n) && |x| == n && |y| == n
    ensures Kills(Augmented(m, n), x + y) <==> Apply(m, x) == y
  {
    forall r | 0 <= r < n ensures Dot(Augmented(m, n)[r], x + y) == 0 <==> Dot(m[r], x) == y[r] {
      DotConcat(m[r], x, Unit(n, r), y);
      DotUnit(y, r);
      AddCancels(Dot(m[r], x), y[r]);
    }
    hide Dot;
    if Kills(Augmented(m, n), x + y) {
      forall r | 0 <= r < n ensures Apply(m, x)[r] == y[r] {
        assert Dot(Augmented(m, n)[r], x + y) == 0;
      }
      VectorsEqual(Apply(m, x), y);
    } else {
      var r :| 0 <= r < n && Dot(Augmented(m, n)[r], x + y) != 0;
      assert Apply(m, x)[r] != y[r];
    }
  }

  ghost function RightBlock(w: Matrix, n: nat): (m: Matrix)
    requires Shape(w, n, 2 * n)
    ensures Shape(m, n, n)
  {
    seq(n, r requires 0 <= r < n => w[r][n..2 * n])
  }

  /** [I | w] (x, y) == 0 says x == w y. */
  lemma ReducedSolutions(w: Matrix, n: nat, x: Vector, y: Vector)
    requires Shape(w, n, 2 * n) && |x| == n && |y| == n
    requires Echelon(w, n, 2 * n) && Reduced(w, n, 2 * n)
    ensures Kills(w, x + y) <==> Apply(RightBlock(w, n), y) == x
  {
    var right := RightBlock(w, n);
    forall r | 0 <= r < n ensures Dot(w[r], x + y) == 0 <==> Dot(right[r], y) == x[r] {
      assert w[r] == w[r][..n] + right[r];
      VectorsEqual(w[r][..n], Unit(n, r));
      DotConcat(w[r][..n], x, right[r], y);
      DotUnit(x, r);
      AddCancels(x[r], Dot(right[r], y));
    }
    hide Dot;
    if Kills(w, x + y) {
      forall r | 0 <= r < n ensures Apply(right, y)[r] == x[r] {
        assert Dot(w[r], x + y) == 0;
      }
      VectorsEqual(Apply(right, y), x);
    } else {
      var r :| 0 <= r < n && Dot(w[r], x + y) != 0;
      assert Apply(right, y)[r] != x[r];
    }
  }

  /** Matrices that undo each other on vectors multiply to the identity. */
  lemma UndoingIsProduct(a: Matrix, b: Matrix, n: nat)
    requires Shape(a, n, n) && Shape(b, n, n)
    requires forall x: Vector :: |x| == n ==> Apply(a, Apply(b, x)) == x
    ensures Product(a, b, n) == IdentityMatrix(n)
  {
    hide Mul, Add, CombineTo, DotTo;
    forall r | 0 <= r < n ensures Product(a, b, n)[r] == Unit(n, r) {
      var row := Combine(a[r], b, n);
      forall c | 0 <= c < n ensures row[c] == Unit(n, r)[c] {
        var x := Unit(n, c);
        DotOfCombine(a[r], b, x, n);
        DotUnit(row, c);
        assert Apply(a, Apply(b, x))[r] == x[r];
      }
      VectorsEqual(row, Unit(n, r));
    }
    assert |Product(a, b, n)| == |IdentityMatrix(n)|;
    assert Product(a, b, n) == IdentityMatrix(n);
  }

  lemma AugmentedIndependence(m: Matrix, n: nat)
    requires Shape(m, n, n)
    ensures IndependentColumns(Augmented(m, n), 2 * n) <==> TrivialKernel(m, n)
  {
    hide Dot, Apply;
    if TrivialKernel(m, n) {
      forall z: Vector | |z| == 2 * n && SupportedOn(z, n) && Kills(Augmented(m, n), z) ensures z == Zeros(2 * n) {
        assert z == z[..n] + z[n..] && z[n..] == Zeros(n);
        AugmentedSolutions(m, n, z[..n], z[n..]);
        KernelIsApplyZero(m, z[..n]);
        assert z == Zeros(n) + Zeros(n) == Zeros(2 * n);
      }
    } else {
      var x: Vector :| |x| == n && Kills(m, x) && x != Zeros(n);
      KernelIsApplyZero(m, x);
      AugmentedSolutions(m, n, x, Zeros(n));
      var z := x + Zeros(n);
      assert z[..n] == x && Zeros(2 * n)[..n] == Zeros(n);
      assert SupportedOn(z, n) && Kills(Augmented(m, n), z) && z != Zeros(2 * n);
    }
  }

  lemma KernelIsApplyZero(m: Matrix, x: Vector)
    requires Shape(m, |m|, |x|)
    ensures Kills(m, x) <==> Apply(m, x) == Zeros(|m|)
  {
    if Kills(m, x) {
      VectorsEqual(Apply(m, x), Zeros(|m|));
    } else if Apply(m, x) == Zeros(|m|) {
      forall r | 0 <= r < |m| ensures Dot(m[r], x) == 0 {
        assert Dot(m[r], x) == Apply(m, x)[r];
      }
    }
  }

  /** Equal solution sets of [m | I] and [I | n] make the two matrices inverse. */
  lemma EliminationInverts(m: Matrix, w: Matrix, n: nat)
    requires Shape(m, n, n) && Shape(w, n, 2 * n)
    requires Echelon(w, n, 2 * n) && Reduced(w, n, 2 * n)
    requires SameSolutions(w, Augmented(m, n), 2 * n)
    ensures Product(m, RightBlock(w, n), n) == IdentityMatrix(n)
    ensures Product(RightBlock(w, n), m, n) == IdentityMatrix(n)
  {
    hide Kills, Dot;
    var right := RightBlock(w, n);
    forall x: Vector | |x| == n ensures Apply(right, Apply(m, x)) == x {
      AugmentedSolutions(m, n, x, Apply(m, x));
      ReducedSolutions(w, n, x, Apply(m, x));
    }
    forall y: Vector | |y| == n ensures Apply(m, Apply(right, y)) == y {
      ReducedSolutions(w, n, Apply(right, y), y);
      AugmentedSolutions(m, n, Apply(right, y), y);
    }
    UndoingIsProduct(right, m, n);
    UndoingIsProduct(m, right, n);
  }

  /** Inverse: eliminate [m | I] and read off the right half. The original panics
      on a matrix that is not square. */
  method Inverse(t: Tables, m: Matrix) returns (r: Inversion)
    requires t.Valid() && Shape(m, |m|, |m|)
    ensures r.Inverted? <==> TrivialKernel(m, |m|)
    ensures r.Inverted? ==>
              && Shape(r.inverse, |m|, |m|)
              && Product(m, r.inverse, |m|) == IdentityMatrix(|m|)
              && Product(r.inverse, m, |m|) == IdentityMatrix(|m|)
  {
    hide Kills, IndependentColumns, TrivialKernel;
    var n := |m|;
    var id := Identity(n);
    var work := Augment(m, id);
    assert work[..] == Augmented(m, n);
    var ok := GaussianElim(t, work, 2 * n);
    AugmentedIndependence(m, n);
    if !ok {
      return Singular;
    }
    var inverse := SubMatrix(work[..], 0, n, n, 2 * n);
    assert inverse == RightBlock(work[..], n);
    EliminationInverts(m, work[..], n);
    return Inverted(inverse);
  }
}
