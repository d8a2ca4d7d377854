/**
 Solving with a factored matrix (GFIR/recipes.c, lubksb), and what decomposition and
 solution promise together.
 */
module LuSolve {
  import opened Matrices
  import opened Lu

  // ------------------------------------------------------------ forward substitution

  /** y solves L y == pb in its first i places. */
  ghost predicate ForwardSolved(m: Matrix, pb: seq<real>, y: seq<real>, i: nat, n: nat)
    requires Square(m, n) && |pb| == |y| == n && i <= n
  {
    forall r | 0 <= r < i :: ForwardAt(m, pb, y, r, n)
  }

  ghost predicate ForwardAt(m: Matrix, pb: seq<real>, y: seq<real>, r: nat, n: nat)
    requires Square(m, n) && |pb| == |y| == n && r < n
  {
    Dot(m[r], y, r) + y[r] == pb[r]
  }

  /** Rows from k on are as the first k recorded exchanges leave them; rows before k will not move again. */
  lemma {:induction false} ExchangesSettle(b: seq<real>, indx: seq<int>, n: nat, k: nat, r: nat)
    requires |b| == n && |indx| == n && PivotRows(indx, n) && r < k <= n
    ensures Exchanged(b, indx[..k])[r] == Exchanged(b, indx)[r]
    decreases n - k
  {
    if k == n {
      assert indx[..k] == indx;
    } else {
      ExchangesSettle(b, indx, n, k + 1, r);
      assert indx[..k + 1][..k] == indx[..k];
    }
  }

  /** The buffer halfway through the first loop: solved places, then the exchanged right-hand side. */
  ghost predicate HalfSolved(m: Matrix, indx: seq<int>, b0: seq<real>, b: seq<real>, i: nat, n: nat)
    requires Square(m, n) && |indx| == n && PivotRows(indx, n) && |b0| == |b| == n && i <= n
  {
    ForwardSolved(m, Exchanged(b0, indx), b, i, n) &&
    forall r | i <= r < n :: b[r] == Exchanged(b0, indx[..i])[r]
  }

  /** `ii` is one more than the place of the first nonzero entry met, or zero while there is none. */
  ghost predicate LeadingZeros(b: seq<real>, ii: nat, i: nat)
    requires i <= |b|
  {
    ii <= i && forall r | 0 <= r < (if ii == 0 then i else ii - 1) :: b[r] == 0.0
  }

  /** Starting the inner sum at the first nonzero entry loses nothing. */
  lemma ShortSumSuffices(row: seq<real>, was: seq<real>, b: seq<real>, lo: nat, len: nat)
    requires lo <= len <= |row| && len <= |b| && len <= |was|
    requires forall r | 0 <= r < len :: b[r] == was[r]
    requires forall r | 0 <= r < lo :: was[r] == 0.0
    ensures DotFrom(row, b, lo, len) == Dot(row, was, len)
  {
    DotZero(row, b, lo);
    DotCongruent(row, b, row, was, len);
  }

  /** Storing the next solved place. */
  lemma ForwardStep(m: Matrix, indx: seq<int>, b0: seq<real>, b: seq<real>, b': seq<real>, i: nat, n: nat)
    requires Square(m, n) && |indx| == n && PivotRows(indx, n) && |b0| == |b| == |b'| == n && i < n
    requires HalfSolved(m, indx, b0, b, i, n)
    requires b' == Swap(b, indx[i], i)[i := b[indx[i]] - Dot(m[i], b, i)]
    ensures HalfSolved(m, indx, b0, b', i + 1, n)
  {
    var pb := Exchanged(b0, indx);
    assert indx[..i + 1][..i] == indx[..i];
    ExchangesSettle(b0, indx, n, i + 1, i);
    forall r | 0 <= r < i + 1
      ensures ForwardAt(m, pb, b', r, n)
    {
      DotCongruent(m[r], b, m[r], b', r);
      if r < i {
        assert ForwardAt(m, pb, b, r, n);
      }
    }
  }

  // ------------------------------------------------------------ back substitution

  /** x solves U x == y in its places from i on. */
  ghost predicate BackSolved(m: Matrix, y: seq<real>, x: seq<real>, i: nat, n: nat)
    requires Square(m, n) && |y| == |x| == n
  {
    forall r | i <= r < n :: BackAt(m, y, x, r, n)
  }

  ghost predicate BackAt(m: Matrix, y: seq<real>, x: seq<real>, r: nat, n: nat)
    requires Square(m, n) && |y| == |x| == n && r < n
  {
    DotFrom(m[r], x, r, n) == y[r]
  }

  /** The sum of u[k] * v[k] over lo <= k < hi. */
  ghost function DotFrom(u: seq<real>, v: seq<real>, lo: nat, hi: nat): real
    requires lo <= hi <= |u| && hi <= |v|
  {
    Dot(u, v, hi) - Dot(u, v, lo)
  }

  lemma {:induction false} DotFromCongruent(u: seq<real>, v: seq<real>, u': seq<real>, v': seq<real>, lo: nat, hi: nat)
    requires lo <= hi && hi <= |u| && hi <= |v| && hi <= |u'| && hi <= |v'|
    requires forall k | lo <= k < hi :: u[k] * v[k] == u'[k] * v'[k]
    ensures DotFrom(u, v, lo, hi) == DotFrom(u', v', lo, hi)
    decreases hi
  {
    if lo == hi {
    } else {
      DotFromCongruent(u, v, u', v', lo, hi - 1);
    }
  }

  lemma DivideBack(x: real, q: real)
    requires q != 0.0
    ensures q * (x / q) == x
  {
  }

  lemma BackStep(m: Matrix, y: seq<real>, x: seq<real>, x': seq<real>, i: nat, n: nat)
    requires Square(m, n) && |y| == |x| == |x'| == n && i < n && m[i][i] != 0.0
    requires BackSolved(m, y, x, i + 1, n)
    requires x' == x[i := (y[i] - DotFrom(m[i], x, i + 1, n)) / m[i][i]]
    ensures BackSolved(m, y, x', i, n)
  {
    forall r | i <= r < n
      ensures BackAt(m, y, x', r, n)
    {
      if r > i {
        assert BackAt(m, y, x, r, n);
        DotFromCongruent(m[r], x, m[r], x', r, n);
      } else {
        DotFromCongruent(m[i], x, m[i], x', i + 1, n);
        DivideBack(y[i] - DotFrom(m[i], x, i + 1, n), m[i][i]);
        assert Dot(m[i], x', i + 1) == Dot(m[i], x', i) + m[i][i] * x'[i];
      }
    }
  }

  // ------------------------------------------------------------ the solver

  ghost predicate PivotsNonzero(m: Matrix, n: nat)
    requires Square(m, n)
  {
    forall i | 0 <= i < n :: m[i][i] != 0.0
  }

  /** recipes.c 238. */
  method SubtractSolved(a: array2<real>, n: nat, b: array<real>, i: nat, lo: nat, sum0: real) returns (sum: real)
    requires a.Length0 == a.Length1 == b.Length == n && lo <= i < n
    ensures sum == sum0 - DotFrom(Entries(a)[i], b[..], lo, i)
  {
    sum := sum0;
    for j := lo to i
      invariant sum == sum0 - DotFrom(Entries(a)[i], b[..], lo, j)
    {
      sum := sum - a[i, j] * b[j];
    }
  }

  /** recipes.c 234-242: one place of the forward substitution. */
  method ForwardEntry(a: array2<real>, n: nat, indx: array<int>, b: array<real>, i: nat, ii0: nat) returns (ii: nat)
    requires a.Length0 == a.Length1 == indx.Length == b.Length == n && i < n && i <= indx[i] < n
    requires LeadingZeros(b[..], ii0, i)
    modifies b
    ensures b[..] == Swap(old(b[..]), indx[i], i)[i := old(b[indx[i]]) - Dot(Entries(a)[i], old(b[..]), i)]
    ensures LeadingZeros(b[..], ii, i + 1)
  {
    ghost var was, row := b[..], Entries(a)[i];
    ii := ii0;
    var ip := indx[i];
    var sum := b[ip];
    b[ip] := b[i];
    if ii != 0 {
      ShortSumSuffices(row, was, b[..], ii - 1, i);
      sum := SubtractSolved(a, n, b, i, ii - 1, sum);
    } else {
      ShortSumSuffices(row, was, was, i, i);
      if sum != 0.0 {
        ii := i + 1;
      }
    }
    b[i] := sum;
  }

  /** recipes.c 233-243: forward substitution with the recorded exchanges. */
  method Forward(a: array2<real>, n: nat, indx: array<int>, b: array<real>)
    requires a.Length0 == a.Length1 == indx.Length == b.Length == n && PivotRows(indx[..], n)
    modifies b
    ensures ForwardSolved(Entries(a), Exchanged(old(b[..]), indx[..]), b[..], n, n)
  {
    ghost var b0, m := b[..], Entries(a);
    var ii := 0;
    for i := 0 to n
      invariant HalfSolved(m, indx[..], b0, b[..], i, n)
      invariant LeadingZeros(b[..], ii, i)
    {
      ghost var was := b[..];
      ii := ForwardEntry(a, n, indx, b, i, ii);
      ForwardStep(m, indx[..], b0, was, b[..], i, n);
    }
  }

  /** recipes.c 244-248: back substitution. */
  method Backward(a: array2<real>, n: nat, b: array<real>)
    requires a.Length0 == a.Length1 == b.Length == n && PivotsNonzero(Entries(a), n)
    modifies b
    ensures BackSolved(Entries(a), old(b[..]), b[..], 0, n)
  {
    ghost var y, m := b[..], Entries(a);
    for i := n downto 0
      invariant BackSolved(m, y, b[..], i, n)
      invariant forall r | 0 <= r < i :: b[r] == y[r]
    {
      ghost var was := b[..];
      var sum := b[i];
      for j := i + 1 to n
        invariant sum == y[i] - DotFrom(m[i], was, i + 1, j)
      {
        sum := sum - a[i, j] * b[j];
      }
      b[i] := sum / a[i, i];
      BackStep(m, y, was, b[..], i, n);
    }
  }

  /** recipes.c 226-250: b becomes the solution x of L U x == the exchanged right-hand side. */
  method Lubksb(a: array2<real>, n: nat, indx: array<int>, b: array<real>)
    requires a.Length0 == a.Length1 == indx.Length == b.Length == n && PivotRows(indx[..], n)
    requires PivotsNonzero(Entries(a), n)
    modifies b
    ensures Apply(Times(UnitLower(Entries(a), n), Upper(Entries(a), n), n), b[..], n)
            == Exchanged(old(b[..]), indx[..])
  {
    ghost var b0, m := b[..], Entries(a);
    Forward(a, n, indx, b);
    ghost var y := b[..];
    Backward(a, n, b);
    SubstitutionsCompose(m, Exchanged(b0, indx[..]), y, b[..], n);
  }

  lemma UpperApplied(m: Matrix, y: seq<real>, x: seq<real>, n: nat)
    requires Square(m, n) && |y| == |x| == n && BackSolved(m, y, x, 0, n)
    ensures Apply(Upper(m, n), x, n) == y
  {
    forall r | 0 <= r < n
      ensures Dot(Upper(m, n)[r], x, n) == y[r]
    {
      assert BackAt(m, y, x, r, n);
      DotZero(Upper(m, n)[r], x, r);
      DotFromCongruent(Upper(m, n)[r], x, m[r], x, r, n);
    }
  }

  lemma LowerApplied(m: Matrix, pb: seq<real>, y: seq<real>, n: nat)
    requires Square(m, n) && |y| == |pb| == n && ForwardSolved(m, pb, y, n, n)
    ensures Apply(UnitLower(m, n), y, n) == pb
  {
    forall r | 0 <= r < n
      ensures Dot(UnitLower(m, n)[r], y, n) == pb[r]
    {
      var l := UnitLower(m, n)[r];
      assert ForwardAt(m, pb, y, r, n);
      DotTail(l, y, r + 1, n);
      DotCongruent(l, y, m[r], y, r);
    }
  }

  lemma SubstitutionsCompose(m: Matrix, pb: seq<real>, y: seq<real>, x: seq<real>, n: nat)
    requires Square(m, n) && |pb| == |y| == |x| == n
    requires ForwardSolved(m, pb, y, n, n) && BackSolved(m, y, x, 0, n)
    ensures Apply(Times(UnitLower(m, n), Upper(m, n), n), x, n) == pb
  {
    UpperApplied(m, y, x, n);
    LowerApplied(m, pb, y, n);
    TimesAssociative(UnitLower(m, n), Upper(m, n), x, n);
  }
}
