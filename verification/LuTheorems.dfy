/**
 What the factorisation and the solver promise together: every nonsingular system without a zero
 row is solved exactly, and the pivots that had to be raised are exactly the sign of singularity.
 */
module LuTheorems {
  import opened Matrices
  import opened Lu
  import opened LuSolve
  import opened Underdetermined

  // ------------------------------------------------------------ the recorded exchanges

  ghost predicate Onto(p: seq<nat>, n: nat) {
    |p| == n && forall r | 0 <= r < n :: r in p
  }

  lemma SwapMembers<T>(s: seq<T>, i: nat, j: nat, x: T)
    requires i < |s| && j < |s| && x in s
    ensures x in Swap(s, i, j)
  {
    var k :| 0 <= k < |s| && s[k] == x;
    assert Swap(s, i, j)[Swapped(k, i, j)] == x;
  }

  /** Exchanging a vector reads it through the origins, and no row is lost. */
  lemma {:induction false} ExchangedReadsOrigin<T>(b: seq<T>, indx: seq<int>, n: nat)
    requires |b| == n && PivotRows(indx, n)
    ensures InRange(Origin(indx, n), n) && Onto(Origin(indx, n), n)
    ensures forall i | 0 <= i < n :: Exchanged(b, indx)[i] == b[Origin(indx, n)[i]]
    decreases |indx|
  {
    var k := |indx| - 1;
    if k < 0 {
      forall r | 0 <= r < n
        ensures r in Origin(indx, n)
      {
        assert Identity(n)[r] == r;
      }
    } else {
      ExchangedReadsOrigin(b, indx[..k], n);
      var p := Origin(indx[..k], n);
      forall r | 0 <= r < n
        ensures r in Origin(indx, n)
      {
        SwapMembers(p, k, indx[k], r);
      }
    }
  }

  // ------------------------------------------------------------ the product and the input

  /** A row of L U applied to x is the input's row applied to x, plus what the diagonal was raised by. */
  lemma ProductApplied(a: Matrix, m: Matrix, indx: seq<int>, e: seq<real>, x: seq<real>, i: nat, n: nat)
    requires Factorises(a, m, indx, e, n) && |x| == n && i < n
    ensures Apply(Times(UnitLower(m, n), Upper(m, n), n), x, n)[i] == Dot(a[Origin(indx, n)[i]], x, n) + e[i] * x[i]
  {
    var p, t := Origin(indx, n), Times(UnitLower(m, n), Upper(m, n), n);
    forall c | 0 <= c < n
      ensures t[i][c] == a[p[i]][c] + (if i == c then e[c] else 0.0)
    {
      assert ProductAt(a, m, p, e, i, c, n);
    }
    RaisedRow(t[i], a[p[i]], e, x, i, n, n);
  }

  lemma {:induction false} RaisedRow(t: seq<real>, row: seq<real>, e: seq<real>, x: seq<real>, i: nat, n: nat, len: nat)
    requires |t| == |row| == |e| == |x| == n && i < n && len <= n
    requires forall c | 0 <= c < n :: t[c] == row[c] + (if i == c then e[c] else 0.0)
    ensures Dot(t, x, len) == Dot(row, x, len) + (if i < len then e[i] * x[i] else 0.0)
    decreases len
  {
    if len == 0 {
    } else {
      RaisedRow(t, row, e, x, i, n, len - 1);
    }
  }

  /** x satisfies the equation of the row that ends in place i, up to what that pivot was raised by. */
  ghost predicate RowMet(a: Matrix, p: seq<nat>, e: seq<real>, b: seq<real>, x: seq<real>, i: nat, n: nat)
    requires Square(a, n) && InRange(p, n) && |e| == |b| == |x| == n && i < n
  {
    Dot(a[p[i]], x, n) + e[i] * x[i] == b[p[i]]
  }

  /** The solution satisfies every equation of the input, up to the raised pivots. */
  lemma SolutionMeetsRows(a: Matrix, m: Matrix, indx: seq<int>, e: seq<real>, b: seq<real>, x: seq<real>, n: nat)
    requires Factorises(a, m, indx, e, n) && |b| == |x| == n
    requires Apply(Times(UnitLower(m, n), Upper(m, n), n), x, n) == Exchanged(b, indx)
    ensures forall i | 0 <= i < n :: RowMet(a, Origin(indx, n), e, b, x, i, n)
  {
    ExchangedReadsOrigin(b, indx, n);
    forall i | 0 <= i < n
      ensures RowMet(a, Origin(indx, n), e, b, x, i, n)
    {
      ProductApplied(a, m, indx, e, x, i, n);
    }
  }

  lemma UnraisedSolves(a: Matrix, indx: seq<int>, e: seq<real>, b: seq<real>, x: seq<real>, n: nat)
    requires Square(a, n) && |indx| == n && PivotRows(indx, n) && InRange(Origin(indx, n), n)
    requires |b| == |x| == n && e == Zeros(n)
    requires forall i | 0 <= i < n :: RowMet(a, Origin(indx, n), e, b, x, i, n)
    ensures Apply(a, x, n) == b
  {
    var p := Origin(indx, n);
    ExchangedReadsOrigin(b, indx, n);
    forall r | 0 <= r < n
      ensures Apply(a, x, n)[r] == b[r]
    {
      assert r in p;
      var i :| 0 <= i < n && p[i] == r;
      assert RowMet(a, p, e, b, x, i, n);
    }
  }

  // ------------------------------------------------------------ singular exactly when a pivot is raised

  lemma {:induction false} LowerInjective(m: Matrix, w: seq<real>, n: nat, k: nat)
    requires Square(m, n) && |w| == n && k <= n && Apply(UnitLower(m, n), w, n) == Zeros(n)
    ensures forall r | 0 <= r < k :: w[r] == 0.0
    decreases k
  {
    if k == 0 {
    } else {
      LowerInjective(m, w, n, k - 1);
      var l := UnitLower(m, n)[k - 1];
      assert Apply(UnitLower(m, n), w, n)[k - 1] == 0.0;
      DotTail(l, w, k, n);
      DotZero(l, w, k - 1);
    }
  }

  lemma {:induction false} UpperInjective(m: Matrix, v: seq<real>, n: nat, k: nat)
    requires Square(m, n) && PivotsNonzero(m, n) && |v| == n && k <= n && Apply(Upper(m, n), v, n) == Zeros(n)
    ensures forall r | k <= r < n :: v[r] == 0.0
    decreases n - k
  {
    if k == n {
    } else {
      UpperInjective(m, v, n, k + 1);
      var u := Upper(m, n)[k];
      assert Apply(Upper(m, n), v, n)[k] == 0.0;
      DotTail(u, v, k + 1, n);
      DotZero(u, v, k);
      NoZeroDivisor(v[k], m[k][k]);
    }
  }

  lemma PivotsAreNonzero(a: Matrix, m: Matrix, indx: seq<int>, e: seq<real>, n: nat)
    requires Factorises(a, m, indx, e, n)
    ensures PivotsNonzero(m, n)
  {
    forall i | 0 <= i < n
      ensures m[i][i] != 0.0
    {
      assert PivotSound(m, e, i, i, n);
    }
  }

  lemma UnraisedIsNonsingular(a: Matrix, m: Matrix, indx: seq<int>, e: seq<real>, n: nat)
    requires Factorises(a, m, indx, e, n) && e == Zeros(n)
    ensures Nonsingular(a, n)
  {
    PivotsAreNonzero(a, m, indx, e, n);
    var l, u := UnitLower(m, n), Upper(m, n);
    forall v: seq<real> | |v| == n && Apply(a, v, n) == Zeros(n)
      ensures v == Zeros(n)
    {
      forall i | 0 <= i < n
        ensures Apply(Times(l, u, n), v, n)[i] == 0.0
      {
        ProductApplied(a, m, indx, e, v, i, n);
        assert Apply(a, v, n)[Origin(indx, n)[i]] == 0.0;
      }
      TimesAssociative(l, u, v, n);
      var w := Apply(u, v, n);
      assert Apply(l, w, n) == Zeros(n);
      LowerInjective(m, w, n, n);
      assert w == Zeros(n);
      UpperInjective(m, v, n, 0);
    }
  }

  /** A vector that is 1 at place j, 0 after it, and that U's rows k..j send to zero. */
  ghost function NullTail(m: Matrix, j: nat, k: nat, n: nat): (v: seq<real>)
    requires Square(m, n) && k <= j < n
    ensures |v| == n
    decreases j - k
  {
    if k == j then Zeros(n)[j := 1.0]
    else
      var v := NullTail(m, j, k + 1, n);
      if m[k][k] == 0.0 then v else v[k := -DotFrom(m[k], v, k + 1, n) / m[k][k]]
  }

  lemma {:induction false} NullTailWorks(m: Matrix, j: nat, k: nat, n: nat)
    requires Square(m, n) && k <= j < n && PivotsNonzero(m, n)
    ensures NullTail(m, j, k, n)[j] == 1.0
    ensures forall c | 0 <= c < n && (c < k || c > j) :: NullTail(m, j, k, n)[c] == 0.0
    ensures forall r | k <= r < j :: DotFrom(m[r], NullTail(m, j, k, n), r, n) == 0.0
    decreases j - k
  {
    var v := NullTail(m, j, k, n);
    if k == j {
      assert v == Zeros(n)[j := 1.0];
    } else {
      NullTailWorks(m, j, k + 1, n);
      var v0 := NullTail(m, j, k + 1, n);
      assert v == v0[k := -DotFrom(m[k], v0, k + 1, n) / m[k][k]];
      forall r | k <= r < j
        ensures DotFrom(m[r], v, r, n) == 0.0
      {
        if r == k {
          NullTailStep(m[k], v0, v, k, n);
        } else {
          DotFromCongruent(m[r], v0, m[r], v, r, n);
        }
      }
    }
  }

  lemma NullTailStep(row: seq<real>, v0: seq<real>, v: seq<real>, k: nat, n: nat)
    requires |row| == |v0| == n && k < n && row[k] != 0.0
    requires v == v0[k := -DotFrom(row, v0, k + 1, n) / row[k]]
    ensures DotFrom(row, v, k, n) == 0.0
  {
    DotFromCongruent(row, v0, row, v, k + 1, n);
    DivideBack(-DotFrom(row, v0, k + 1, n), row[k]);
    assert Dot(row, v, k + 1) == Dot(row, v, k) + row[k] * v[k];
  }

  lemma UpperRow(m: Matrix, v: seq<real>, r: nat, n: nat)
    requires Square(m, n) && |v| == n && r < n
    ensures Apply(Upper(m, n), v, n)[r] == DotFrom(m[r], v, r, n)
  {
    DotZero(Upper(m, n)[r], v, r);
    DotFromCongruent(Upper(m, n)[r], v, m[r], v, r, n);
  }

  /** U sends the null vector of the first raised pivot to TINY at that place alone. */
  lemma NullVectorThroughUpper(m: Matrix, j: nat, n: nat)
    requires Square(m, n) && PivotsNonzero(m, n) && j < n && m[j][j] == TINY
    ensures Apply(Upper(m, n), NullTail(m, j, 0, n), n) == Zeros(n)[j := TINY]
  {
    var v := NullTail(m, j, 0, n);
    NullTailWorks(m, j, 0, n);
    forall r | 0 <= r < n
      ensures Apply(Upper(m, n), v, n)[r] == if r == j then TINY else 0.0
    {
      UpperRow(m, v, r, n);
      if r == j {
        DotTail(m[j], v, j + 1, n);
      } else if r > j {
        DotTail(m[r], v, r, n);
      }
    }
  }

  lemma RaisedIsSingular(a: Matrix, m: Matrix, indx: seq<int>, e: seq<real>, j: nat, n: nat)
    requires Factorises(a, m, indx, e, n) && j < n && e[j] != 0.0
    requires forall k | 0 <= k < j :: e[k] == 0.0
    ensures NullTail(m, j, 0, n) != Zeros(n) && Apply(a, NullTail(m, j, 0, n), n) == Zeros(n)
  {
    PivotsAreNonzero(a, m, indx, e, n);
    assert PivotSound(m, e, j, j, n);
    var v, w, p := NullTail(m, j, 0, n), Zeros(n)[j := TINY], Origin(indx, n);
    var l, u := UnitLower(m, n), Upper(m, n);
    NullTailWorks(m, j, 0, n);
    NullVectorThroughUpper(m, j, n);
    TimesAssociative(l, u, v, n);
    forall i | 0 <= i < n
      ensures Dot(a[p[i]], v, n) == 0.0
    {
      ProductApplied(a, m, indx, e, v, i, n);
      if i > j {
        assert PivotSound(m, e, i, j, n);
      }
      LowerPicksColumn(l[i], w, j, n);
    }
    ExchangedReadsOrigin(v, indx, n);
    forall r | 0 <= r < n
      ensures Apply(a, v, n)[r] == 0.0
    {
      assert r in p;
      var i :| 0 <= i < n && p[i] == r;
    }
    assert v[j] == 1.0;
  }

  lemma LowerPicksColumn(row: seq<real>, w: seq<real>, j: nat, n: nat)
    requires |row| == |w| == n && j < n
    requires forall k | 0 <= k < n && k != j :: w[k] == 0.0
    ensures Dot(row, w, n) == row[j] * w[j]
  {
    DotTail(row, w, j + 1, n);
    DotZero(row, w, j);
  }

  lemma {:induction false} FirstRaised(e: seq<real>, n: nat, k: nat) returns (j: nat)
    requires |e| == n && k <= n && forall i | 0 <= i < k :: e[i] == 0.0
    requires exists i :: k <= i < n && e[i] != 0.0
    ensures j < n && e[j] != 0.0 && forall i | 0 <= i < j :: e[i] == 0.0
    decreases n - k
  {
    if e[k] != 0.0 {
      j := k;
    } else {
      j := FirstRaised(e, n, k + 1);
    }
  }

  /** No pivot has to be raised exactly when the input is nonsingular. */
  lemma RaisedIffSingular(a: Matrix, m: Matrix, indx: seq<int>, e: seq<real>, n: nat)
    requires Factorises(a, m, indx, e, n)
    ensures e == Zeros(n) <==> Nonsingular(a, n)
  {
    if forall i | 0 <= i < n :: e[i] == 0.0 {
      assert e == Zeros(n);
      UnraisedIsNonsingular(a, m, indx, e, n);
    } else {
      var j := FirstRaised(e, n, 0);
      RaisedIsSingular(a, m, indx, e, j, n);
    }
  }

  /** The whole promise in one statement: factor, then substitute, and a nonsingular system is solved. */
  lemma SystemSolved(a: Matrix, m: Matrix, indx: seq<int>, e: seq<real>, b: seq<real>, x: seq<real>, n: nat)
    requires Factorises(a, m, indx, e, n) && Nonsingular(a, n) && |b| == |x| == n
    requires Apply(Times(UnitLower(m, n), Upper(m, n), n), x, n) == Exchanged(b, indx)
    ensures Apply(a, x, n) == b
  {
    RaisedIffSingular(a, m, indx, e, n);
    SolutionMeetsRows(a, m, indx, e, b, x, n);
    UnraisedSolves(a, indx, e, b, x, n);
  }

  // ------------------------------------------------------------ and no other matrix always gets its solution

  /** The right-hand side that the recorded exchanges turn into y. */
  ghost function Restored<T>(y: seq<T>, indx: seq<int>): (b: seq<T>)
    requires PivotRows(indx, |y|)
    ensures |b| == |y|
    decreases |indx|
  {
    var k := |indx| - 1;
    if k < 0 then y else Restored(Swap(y, k, indx[k]), indx[..k])
  }

  lemma {:induction false} RestoredExchanges<T>(y: seq<T>, indx: seq<int>)
    requires PivotRows(indx, |y|)
    ensures Exchanged(Restored(y, indx), indx) == y
    decreases |indx|
  {
    var k := |indx| - 1;
    if k < 0 {
    } else {
      RestoredExchanges(Swap(y, k, indx[k]), indx[..k]);
      assert Swap(Swap(y, k, indx[k]), k, indx[k]) == y;
    }
  }

  /** What the two substitutions give for b, by the contract of Lubksb. */
  ghost predicate Substituted(m: Matrix, indx: seq<int>, b: seq<real>, x: seq<real>, n: nat) {
    Square(m, n) && PivotRows(indx, n) && |b| == |x| == n &&
    Apply(Times(UnitLower(m, n), Upper(m, n), n), x, n) == Exchanged(b, indx)
  }

  /** Some right-hand side of a singular system gets an answer that does not satisfy it. */
  lemma SingularIsMissed(a: Matrix, m: Matrix, indx: seq<int>, e: seq<real>, n: nat)
    returns (b: seq<real>, x: seq<real>)
    requires Factorises(a, m, indx, e, n) && !Nonsingular(a, n)
    ensures Substituted(m, indx, b, x, n) && Apply(a, x, n) != b
  {
    hide ProductAt, PivotSound, MultiplierBounded, RowScales, Nonsingular, Origin, Exchanged;
    RaisedIffSingular(a, m, indx, e, n);
    assert exists i :: 0 <= i < n && e[i] != Zeros(n)[i];
    var j := FirstRaised(e, n, 0);
    RaisedIsSingular(a, m, indx, e, j, n);
    PivotsAreNonzero(a, m, indx, e, n);
    x := NullTail(m, j, 0, n);
    NullTailWorks(m, j, 0, n);
    b := Restored(Apply(Times(UnitLower(m, n), Upper(m, n), n), x, n), indx);
    RestoredExchanges(Apply(Times(UnitLower(m, n), Upper(m, n), n), x, n), indx);
    SolutionMeetsRows(a, m, indx, e, b, x, n);
    MissedRow(a, Origin(indx, n), e, b, x, j, n);
  }

  lemma MissedRow(a: Matrix, p: seq<nat>, e: seq<real>, b: seq<real>, x: seq<real>, j: nat, n: nat)
    requires Square(a, n) && InRange(p, n) && |e| == |b| == |x| == n && j < n
    requires RowMet(a, p, e, b, x, j, n) && e[j] != 0.0 && x[j] == 1.0 && Apply(a, x, n) == Zeros(n)
    ensures Apply(a, x, n) != b
  {
    assert Apply(a, x, n)[p[j]] == 0.0;
  }

  /** Every right-hand side is answered with a solution exactly when the input is nonsingular. */
  lemma AllSolvedIffNonsingular(a: Matrix, m: Matrix, indx: seq<int>, e: seq<real>, n: nat)
    requires Factorises(a, m, indx, e, n)
    ensures (forall b, x | Substituted(m, indx, b, x, n) :: Apply(a, x, n) == b) <==> Nonsingular(a, n)
  {
    assert Square(a, n);
    hide Factorises, Nonsingular;
    if Nonsingular(a, n) {
      forall b, x | Substituted(m, indx, b, x, n)
        ensures Apply(a, x, n) == b
      {
        SystemSolved(a, m, indx, e, b, x, n);
      }
    } else {
      var b, x := SingularIsMissed(a, m, indx, e, n);
    }
  }

  /** What a pivot is raised by is nothing or 10^-20, and it is that only if the pivot came out as zero. */
  lemma RaisedBy(a: Matrix, m: Matrix, indx: seq<int>, e: seq<real>, n: nat, j: nat)
    requires Factorises(a, m, indx, e, n) && j < n
    ensures e[j] == 0.0 || (e[j] == m[j][j] && 100_000_000_000_000_000_000.0 * e[j] == 1.0)
  {
    assert PivotSound(m, e, j, j, n);
  }

  /** The scale of a row is its largest entry without its sign. */
  lemma {:induction false} ScaleIsLargest(row: seq<real>, len: nat) returns (k: nat)
    requires 0 < len <= |row|
    ensures forall c | 0 <= c < len :: -RowMax(row, len) <= row[c] <= RowMax(row, len)
    ensures k < len && (RowMax(row, len) == row[k] || RowMax(row, len) == -row[k])
    decreases len
  {
    k := len - 1;
    if Abs(row[len - 1]) > RowMax(row, len - 1) || len == 1 {
    } else {
      k := ScaleIsLargest(row, len - 1);
    }
  }

  /** A singular matrix need not have a row of zeros, so the factorisation does meet raised pivots. */
  lemma SingularWithoutZeroRow()
    ensures var a := [[1.0, 1.0], [1.0, 1.0]];
            Square(a, 2) && Positive(RowScales(a, 2), 2) && !Nonsingular(a, 2)
  {
    var a, v := [[1.0, 1.0], [1.0, 1.0]], [1.0, -1.0];
    forall r | 0 <= r < 2
      ensures RowMax(a[r], 2) == 1.0 && Dot(a[r], v, 2) == 0.0
    {
      assert RowMax(a[r], 1) == 1.0;
      assert Dot(a[r], v, 1) == 1.0;
    }
    assert Apply(a, v, 2) == Zeros(2);
    assert v[0] != Zeros(2)[0];
  }

  /** A nonsingular matrix has no row of zeros, so the factorisation never gives up on one. */
  lemma NonsingularIsFactored(a: Matrix, n: nat)
    requires Square(a, n) && Nonsingular(a, n)
    ensures Positive(RowScales(a, n), n)
  {
    hide Nonsingular;
    forall r | 0 <= r < n
      ensures RowScales(a, n)[r] > 0.0
    {
      ScaleOfZeroRow(a[r], n);
      if forall c | 0 <= c < n :: a[r][c] == 0.0 {
        ZeroRowIsSingular(a, r, n);
      }
    }
  }

  lemma ScaleOfZeroRow(row: seq<real>, n: nat)
    requires |row| == n
    ensures RowMax(row, n) > 0.0 || forall c | 0 <= c < n :: row[c] == 0.0
  {
  }

  /** GFIR/lms.c 166-167: a nonsingular system comes back solved. */
  method Solve(a: array2<real>, n: nat, indx: array<int>, b: array<real>) returns (ok: bool)
    requires a.Length0 == a.Length1 == indx.Length == b.Length == n
    modifies a, indx, b
    ensures ok == Positive(RowScales(old(Entries(a)), n), n)
    ensures Nonsingular(old(Entries(a)), n) ==> ok && Apply(old(Entries(a)), b[..], n) == old(b[..])
    ensures !ok ==> Entries(a) == old(Entries(a)) && indx[..] == old(indx[..]) && b[..] == old(b[..])
  {
    ghost var input, rhs := Entries(a), b[..];
    if Nonsingular(input, n) {
      NonsingularIsFactored(input, n);
    }
    var d;
    ghost var e;
    ok, d, e := Ludcmp(a, n, indx);
    if ok {
      PivotsAreNonzero(input, Entries(a), indx[..], e, n);
      Lubksb(a, n, indx, b);
      if Nonsingular(input, n) {
        SystemSolved(input, Entries(a), indx[..], e, rhs, b[..], n);
      }
    }
  }
}
