/**
 LU factorisation in place with scaled partial pivoting, and the solver that uses it
 (GFIR/recipes.c), over exact reals. Indices run from 0 where the original runs from 1.
 */
module Lu {
  import opened Matrices

  /** What replaces a pivot that comes out as zero. */
  const TINY: real := 1.0 / 100000000000000000000.0

  // ------------------------------------------------------------ specification

  /** The rows of an array, as a value. */
  ghost function Entries(a: array2<real>): (m: Matrix)
    reads a
    ensures |m| == a.Length0 && forall i | 0 <= i < |m| :: |m[i]| == a.Length1
    ensures forall i, j | 0 <= i < a.Length0 && 0 <= j < a.Length1 :: m[i][j] == a[i, j]
  {
    seq(a.Length0, i requires 0 <= i < a.Length0 reads a =>
      seq(a.Length1, j requires 0 <= j < a.Length1 reads a => a[i, j]))
  }

  /** The largest magnitude among the first len entries of a row. */
  function RowMax(row: seq<real>, len: nat): (big: real)
    requires len <= |row|
    ensures big >= 0.0
    ensures forall j | 0 <= j < len :: Abs(row[j]) <= big
  {
    if len == 0 then 0.0
    else
      var big := RowMax(row, len - 1);
      if Abs(row[len - 1]) > big then Abs(row[len - 1]) else big
  }

  ghost function RowScales(a: Matrix, n: nat): (s: seq<real>)
    requires Square(a, n)
    ensures |s| == n
  {
    seq(n, r requires 0 <= r < n => RowMax(a[r], n))
  }

  /** The unit lower triangle packed below the diagonal. */
  ghost function UnitLower(m: Matrix, n: nat): (l: Matrix)
    requires Square(m, n)
    ensures Square(l, n)
  {
    seq(n, i requires 0 <= i < n =>
      seq(n, k requires 0 <= k < n => if k < i then m[i][k] else if k == i then 1.0 else 0.0))
  }

  /** The upper triangle packed on and above the diagonal. */
  ghost function Upper(m: Matrix, n: nat): (u: Matrix)
    requires Square(m, n)
    ensures Square(u, n)
  {
    seq(n, i requires 0 <= i < n =>
      seq(n, c requires 0 <= c < n => if i <= c then m[i][c] else 0.0))
  }

  /** `s` with two places exchanged. */
  function Swap<T>(s: seq<T>, i: nat, j: nat): (t: seq<T>)
    requires i < |s| && j < |s|
    ensures |t| == |s|
  {
    s[i := s[j]][j := s[i]]
  }

  /** A record of row exchanges: entry j names the row, j or later, exchanged with row j. */
  ghost predicate PivotRows(indx: seq<int>, n: nat) {
    |indx| <= n && forall j | 0 <= j < |indx| :: j <= indx[j] < n
  }

  /** `s` after the recorded exchanges, in order. */
  ghost function Exchanged<T>(s: seq<T>, indx: seq<int>): (t: seq<T>)
    requires PivotRows(indx, |s|)
    ensures |t| == |s|
  {
    var k := |indx| - 1;
    if k < 0 then s else Swap(Exchanged(s, indx[..k]), k, indx[k])
  }

  ghost function Identity(n: nat): seq<nat> {
    seq(n, i requires 0 <= i < n => i)
  }

  /** Which original row the recorded exchanges bring to each place. */
  ghost function Origin(indx: seq<int>, n: nat): (p: seq<nat>)
    requires PivotRows(indx, n)
    ensures |p| == n
  {
    Exchanged(Identity(n), indx)
  }

  /** +1 or -1 with the parity of the proper exchanges recorded. */
  ghost function Parity(indx: seq<int>): real {
    var k := |indx| - 1;
    if k < 0 then 1.0 else if indx[k] != k then -Parity(indx[..k]) else Parity(indx[..k])
  }

  ghost predicate InRange(p: seq<nat>, n: nat) {
    |p| == n && forall i | 0 <= i < n :: p[i] < n
  }

  /** What the decomposition promises: L U is the exchanged input with `e` added on its diagonal,
      where e is TINY exactly at the pivots that came out zero, above a column of zeros; no pivot is
      left zero; and every multiplier respects the row scales that pivoting used. */
  ghost predicate Factorises(a: Matrix, m: Matrix, indx: seq<int>, e: seq<real>, n: nat) {
    Square(a, n) && Square(m, n) && |e| == n && |indx| == n &&
    PivotRows(indx, n) && InRange(Origin(indx, n), n) &&
    var p := Origin(indx, n);
    (forall i, c | 0 <= i < n && 0 <= c < n :: ProductAt(a, m, p, e, i, c, n)) &&
    (forall i, c | 0 <= c <= i < n :: PivotSound(m, e, i, c, n) && MultiplierBounded(RowScales(a, n), m, p, i, c, n))
  }

  ghost predicate ProductAt(a: Matrix, m: Matrix, p: seq<nat>, e: seq<real>, i: nat, c: nat, n: nat)
    requires Square(a, n) && Square(m, n) && |e| == n && InRange(p, n) && i < n && c < n
  {
    Times(UnitLower(m, n), Upper(m, n), n)[i][c] == a[p[i]][c] + (if i == c then e[c] else 0.0)
  }

  /** A pivot is nonzero, and is TINY above a column of zeros when it had to be raised. */
  ghost predicate PivotSound(m: Matrix, e: seq<real>, i: nat, c: nat, n: nat)
    requires Square(m, n) && |e| == n && c <= i < n
  {
    if i == c then m[c][c] != 0.0 && (e[c] == 0.0 || e[c] == TINY == m[c][c])
    else e[c] == 0.0 || m[i][c] == 0.0
  }

  ghost predicate MultiplierBounded(s: seq<real>, m: Matrix, p: seq<nat>, i: nat, c: nat, n: nat)
    requires |s| == n && Square(m, n) && InRange(p, n) && c <= i < n
  {
    i == c || Abs(m[i][c]) * s[p[c]] <= s[p[i]]
  }

  // ------------------------------------------------------------ loop-level sums

  /** The part of the (i, c) product that has been subtracted once k runs below len. */
  function Partial(m: Matrix, i: nat, c: nat, len: nat): real
    requires i < |m| && len <= |m| && len <= |m[i]|
    requires forall k | 0 <= k < len :: c < |m[k]|
  {
    if len == 0 then 0.0 else Partial(m, i, c, len - 1) + m[i][len - 1] * m[len - 1][c]
  }

  lemma {:induction false} PartialFrame(m: Matrix, i: nat, m': Matrix, i': nat, c: nat, len: nat)
    requires i < |m| && len <= |m| && len <= |m[i]| && i' < |m'| && len <= |m'| && len <= |m'[i']|
    requires forall k | 0 <= k < len :: c < |m[k]| && c < |m'[k]|
    requires forall k | 0 <= k < len :: m[i][k] == m'[i'][k]
    requires forall k | 0 <= k < len :: m[k][c] == m'[k][c]
    ensures Partial(m, i, c, len) == Partial(m', i', c, len)
  {
    if len == 0 {
    } else {
      PartialFrame(m, i, m', i', c, len - 1);
    }
  }

  /** The (i, c) entry of L U, summed as far as the packed triangles reach. */
  ghost function LuEntry(m: Matrix, i: nat, c: nat, n: nat): real
    requires Square(m, n) && i < n && c < n
  {
    if i <= c then Partial(m, i, c, i) + m[i][c] else Partial(m, i, c, c) + m[i][c] * m[c][c]
  }

  lemma {:induction false} CombineIsPartial(m: Matrix, i: nat, c: nat, n: nat, len: nat)
    requires Square(m, n) && i < n && c < n && len <= n
    ensures len <= i && len <= c ==>
              Combine(UnitLower(m, n)[i], Upper(m, n), c, len) == Partial(m, i, c, len)
    ensures len > i || len > c ==>
              Combine(UnitLower(m, n)[i], Upper(m, n), c, len) == LuEntry(m, i, c, n)
    decreases len
  {
    if len == 0 {
    } else {
      CombineIsPartial(m, i, c, n, len - 1);
    }
  }

  lemma ProductEntry(m: Matrix, i: nat, c: nat, n: nat)
    requires Square(m, n) && i < n && c < n
    ensures Times(UnitLower(m, n), Upper(m, n), n)[i][c] == LuEntry(m, i, c, n)
  {
    CombineIsPartial(m, i, c, n, n);
  }

  // ------------------------------------------------------------ one column at a time

  ghost predicate Shaped(a: Matrix, s: seq<real>, m: Matrix, p: seq<nat>, e: seq<real>, n: nat) {
    Square(a, n) && |s| == n && Square(m, n) && |e| == n && InRange(p, n)
  }

  /** Place (i, c) of a finished column. */
  ghost predicate Factored(a: Matrix, s: seq<real>, m: Matrix, p: seq<nat>, e: seq<real>, i: nat, c: nat, n: nat)
    requires Shaped(a, s, m, p, e, n) && i < n && c < n
  {
    LuEntry(m, i, c, n) == a[p[i]][c] + (if i == c then e[c] else 0.0) &&
    (c <= i ==> PivotSound(m, e, i, c, n) && MultiplierBounded(s, m, p, i, c, n))
  }

  ghost predicate FactoredBelow(a: Matrix, s: seq<real>, m: Matrix, p: seq<nat>, e: seq<real>, j: nat, n: nat)
    requires Shaped(a, s, m, p, e, n) && j <= n
  {
    forall i, c | 0 <= i < n && 0 <= c < j :: Factored(a, s, m, p, e, i, c, n)
  }

  ghost predicate PlainFrom(a: Matrix, m: Matrix, p: seq<nat>, j: nat, n: nat)
    requires Square(a, n) && Square(m, n) && InRange(p, n)
  {
    forall i, c | 0 <= i < n && j <= c < n :: m[i][c] == a[p[i]][c]
  }

  /** The state of the factorisation before column j is taken up. */
  ghost predicate Reduced(a: Matrix, s: seq<real>, m: Matrix, p: seq<nat>, e: seq<real>, j: nat, n: nat) {
    Shaped(a, s, m, p, e, n) && j <= n && FactoredBelow(a, s, m, p, e, j, n) && PlainFrom(a, m, p, j, n)
  }

  /** The inner loop shared by both halves of a column: recipes.c 185-186 and 191-193. */
  method Residual(a: array2<real>, n: nat, i: nat, j: nat, len: nat) returns (sum: real)
    requires a.Length0 == a.Length1 == n && i < n && j < n && len <= n
    ensures sum == a[i, j] - Partial(Entries(a), i, j, len)
  {
    ghost var m := Entries(a);
    sum := a[i, j];
    for k := 0 to len
      invariant sum == m[i][j] - Partial(m, i, j, k)
    {
      sum := sum - a[i, k] * a[k, j];
    }
  }

  /** Rows lo..hi of column j hold their residuals with respect to the original m0. */
  ghost predicate Settled(m0: Matrix, m: Matrix, j: nat, lo: nat, hi: nat, n: nat)
    requires Square(m0, n) && Square(m, n) && j < n && hi <= n
  {
    forall r | lo <= r < hi :: SettledAt(m0, m, r, j, n)
  }

  ghost predicate SettledAt(m0: Matrix, m: Matrix, r: nat, j: nat, n: nat)
    requires Square(m0, n) && Square(m, n) && j < n && r < n
  {
    LuEntryOpen(m, r, j, n) == m0[r][j]
  }

  /** Like LuEntry, before the multipliers of column c have been divided by their pivot. */
  ghost function LuEntryOpen(m: Matrix, r: nat, c: nat, n: nat): real
    requires Square(m, n) && r < n && c < n
  {
    Partial(m, r, c, Depth(r, c)) + m[r][c]
  }

  function Depth(r: nat, c: nat): nat {
    if r < c then r else c
  }

  ghost predicate Untouched(m0: Matrix, m: Matrix, j: nat, lo: nat, hi: nat, n: nat)
    requires Square(m0, n) && Square(m, n) && j < n && hi <= n
  {
    forall r, c | 0 <= r < n && 0 <= c < n && (c != j || r < lo || r >= hi) :: m[r][c] == m0[r][c]
  }

  /** Storing one residual settles its row and disturbs no row settled before. */
  lemma StoreSettles(m0: Matrix, m: Matrix, m': Matrix, j: nat, lo: nat, i: nat, n: nat)
    requires Square(m0, n) && Square(m, n) && Square(m', n) && j < n && lo <= i < n
    requires i < j || lo == j
    requires Settled(m0, m, j, lo, i, n) && Untouched(m0, m, j, lo, i, n)
    requires Untouched(m, m', j, i, i + 1, n)
    requires m'[i][j] == m[i][j] - Partial(m, i, j, Depth(i, j))
    ensures Settled(m0, m', j, lo, i + 1, n) && Untouched(m0, m', j, lo, i + 1, n)
  {
    forall r | lo <= r < i + 1
      ensures SettledAt(m0, m', r, j, n)
    {
      forall k | 0 <= k < Depth(r, j)
        ensures m[r][k] == m'[r][k] && m[k][j] == m'[k][j]
      {
      }
      PartialFrame(m, r, m', r, j, Depth(r, j));
      if r < i {
        assert SettledAt(m0, m, r, j, n);
      }
    }
  }

  /** Entries above the diagonal of column j: recipes.c 184-188. */
  method ReduceUpper(a: array2<real>, n: nat, j: nat)
    requires a.Length0 == a.Length1 == n && j < n
    modifies a
    ensures Settled(old(Entries(a)), Entries(a), j, 0, j, n)
    ensures Untouched(old(Entries(a)), Entries(a), j, 0, j, n)
  {
    ghost var m0 := Entries(a);
    for i := 0 to j
      invariant Settled(m0, Entries(a), j, 0, i, n)
      invariant Untouched(m0, Entries(a), j, 0, i, n)
    {
      ghost var m := Entries(a);
      var sum := Residual(a, n, i, j, i);
      a[i, j] := sum;
      StoreSettles(m0, m, Entries(a), j, 0, i, n);
    }
  }

  /** One row of the lower half and its weight in the pivot search: recipes.c 191-195. */
  method SettleEntry(a: array2<real>, vv: array<real>, n: nat, i: nat, j: nat, ghost m0: Matrix) returns (dum: real)
    requires a.Length0 == a.Length1 == vv.Length == n && j <= i < n && vv[i] > 0.0
    requires Square(m0, n) && Settled(m0, Entries(a), j, j, i, n) && Untouched(m0, Entries(a), j, j, i, n)
    modifies a
    ensures Settled(m0, Entries(a), j, j, i + 1, n) && Untouched(m0, Entries(a), j, j, i + 1, n)
    ensures Weights(vv[..], Entries(a), j, n)[i] == dum >= 0.0
    ensures forall r | 0 <= r < n && r != i ::
              Weights(vv[..], Entries(a), j, n)[r] == old(Weights(vv[..], Entries(a), j, n))[r]
  {
    ghost var m := Entries(a);
    var sum := Residual(a, n, i, j, j);
    a[i, j] := sum;
    StoreSettles(m0, m, Entries(a), j, j, i, n);
    dum := vv[i] * Abs(sum);
    WeightsAgree(vv[..], m, Entries(a), i, j, n);
  }

  /** Entries on and below the diagonal of column j, with the search for the pivot row: the last row
      whose entry is largest relative to its scale. recipes.c 189-199. */
  method ReduceLower(a: array2<real>, vv: array<real>, n: nat, j: nat) returns (imax: nat)
    requires a.Length0 == a.Length1 == vv.Length == n && j < n
    requires forall r | 0 <= r < n :: vv[r] > 0.0
    modifies a
    ensures Settled(old(Entries(a)), Entries(a), j, j, n, n)
    ensures Untouched(old(Entries(a)), Entries(a), j, j, n, n)
    ensures LastLargest(Weights(vv[..], Entries(a), j, n), j, n, imax)
  {
    ghost var m0 := Entries(a);
    ghost var v := vv[..];
    ghost var w := Weights(v, m0, j, n);
    var big := 0.0;
    imax := 0;
    for i := j to n
      invariant vv[..] == v
      invariant Settled(m0, Entries(a), j, j, i, n)
      invariant Untouched(m0, Entries(a), j, j, i, n)
      invariant i == j ==> big == 0.0
      invariant w == Weights(v, Entries(a), j, n)
      invariant i > j ==> LastLargest(w, j, i, imax) && big == w[imax]
    {
      ghost var w0 := w;
      var dum := SettleEntry(a, vv, n, i, j, m0);
      w := Weights(v, Entries(a), j, n);
      SearchStep(w0, w, j, i, imax, big);
      if dum >= big {
        big := dum;
        imax := i;
      }
    }
  }

  /** The scaled magnitudes of column j that the pivot search compares. */
  ghost function Weights(v: seq<real>, m: Matrix, j: nat, n: nat): (w: seq<real>)
    requires Square(m, n) && j < n && |v| == n
    ensures |w| == n
  {
    seq(n, r requires 0 <= r < n => v[r] * Abs(m[r][j]))
  }

  lemma WeightsAgree(v: seq<real>, m: Matrix, m': Matrix, i: nat, j: nat, n: nat)
    requires Square(m, n) && Square(m', n) && j < n && i < n && |v| == n
    requires Untouched(m, m', j, i, i + 1, n)
    ensures forall r | 0 <= r < n && r != i :: Weights(v, m', j, n)[r] == Weights(v, m, j, n)[r]
  {
    assert forall r | 0 <= r < n && r != i :: m'[r][j] == m[r][j];
  }

  /** Among places lo..hi, imax is the last to hold the largest value. */
  ghost predicate LastLargest(w: seq<real>, lo: nat, hi: nat, imax: nat)
    requires hi <= |w|
  {
    lo <= imax < hi &&
    (forall r | lo <= r < hi :: w[r] <= w[imax]) &&
    (forall r | imax < r < hi :: w[r] < w[imax])
  }

  /** Comparing the next weight with the largest so far, ties going to the later place. */
  lemma SearchStep(w: seq<real>, w': seq<real>, lo: nat, i: nat, imax: nat, big: real)
    requires |w| == |w'| && lo <= i < |w| && w'[i] >= 0.0
    requires forall r | 0 <= r < |w| && r != i :: w'[r] == w[r]
    requires i == lo ==> big == 0.0
    requires i > lo ==> LastLargest(w, lo, i, imax) && big == w[imax]
    ensures w'[i] >= big ==> LastLargest(w', lo, i + 1, i)
    ensures w'[i] < big ==> LastLargest(w', lo, i + 1, imax) && big == w'[imax]
  {
  }

  /** recipes.c 201-205. */
  method SwapRows(a: array2<real>, n: nat, imax: nat, j: nat)
    requires a.Length0 == a.Length1 == n && imax < n && j < n && imax != j
    modifies a
    ensures Entries(a) == Swap(old(Entries(a)), imax, j)
  {
    ghost var m0 := Entries(a);
    for k := 0 to n
      invariant forall r, c | 0 <= r < n && 0 <= c < n && (c >= k || (r != imax && r != j)) :: a[r, c] == m0[r][c]
      invariant forall c | 0 <= c < k :: a[imax, c] == m0[j][c] && a[j, c] == m0[imax][c]
    {
      var dum := a[imax, k];
      a[imax, k] := a[j, k];
      a[j, k] := dum;
    }
    assert forall r | 0 <= r < n :: Entries(a)[r] == Swap(m0, imax, j)[r];
  }

  /** q is x divided by p. */
  predicate Quotient(q: real, p: real, x: real) {
    q * p == x
  }

  lemma TimesInverse(x: real, p: real, dum: real)
    requires p != 0.0 && dum == 1.0 / p
    ensures Quotient(x * dum, p, x)
  {
    assert dum * p == 1.0;
    assert (x * dum) * p == x * (dum * p);
  }

  /** Rows j+1..hi of column j have been divided by the pivot. */
  ghost predicate Divided(m0: Matrix, m: Matrix, j: nat, hi: nat, n: nat)
    requires Square(m0, n) && Square(m, n) && j < n && hi <= n
  {
    Untouched(m0, m, j, j + 1, hi, n) && forall r | j < r < hi :: Quotient(m[r][j], m[j][j], m0[r][j])
  }

  lemma StoreDivides(m0: Matrix, m: Matrix, m': Matrix, j: nat, i: nat, dum: real, n: nat)
    requires Square(m0, n) && Square(m, n) && Square(m', n) && j < i < n
    requires m0[j][j] != 0.0 && dum == 1.0 / m0[j][j]
    requires Divided(m0, m, j, i, n) && Untouched(m, m', j, i, i + 1, n) && m'[i][j] == m[i][j] * dum
    ensures Divided(m0, m', j, i + 1, n)
  {
    TimesInverse(m[i][j], m[j][j], dum);
  }

  /** Dividing the multipliers by the pivot: recipes.c 213-216. */
  method ScaleColumn(a: array2<real>, n: nat, j: nat)
    requires a.Length0 == a.Length1 == n && j < n && a[j, j] != 0.0
    modifies a
    ensures Divided(old(Entries(a)), Entries(a), j, n, n)
  {
    if j != n - 1 {
      ghost var m0 := Entries(a);
      var dum := 1.0 / a[j, j];
      for i := j + 1 to n
        invariant Divided(m0, Entries(a), j, i, n)
      {
        ghost var m := Entries(a);
        a[i, j] := a[i, j] * dum;
        StoreDivides(m0, m, Entries(a), j, i, dum, n);
      }
    }
  }

  // ------------------------------------------------------------ what each phase of a column achieves

  /** Columns before j are factored, columns after j are the exchanged input, and column j is reduced
      but not yet divided; `bump` is what its pivot was raised by. */
  ghost predicate Open(a: Matrix, s: seq<real>, m: Matrix, p: seq<nat>, e: seq<real>, j: nat, bump: real, n: nat) {
    Shaped(a, s, m, p, e, n) && j < n && FactoredBelow(a, s, m, p, e, j, n) && PlainFrom(a, m, p, j + 1, n) &&
    forall r | 0 <= r < n :: OpenAt(a, m, p, r, j, bump, n)
  }

  ghost predicate OpenAt(a: Matrix, m: Matrix, p: seq<nat>, r: nat, j: nat, bump: real, n: nat)
    requires Square(a, n) && Square(m, n) && InRange(p, n) && r < n && j < n
  {
    LuEntryOpen(m, r, j, n) == a[p[r]][j] + (if r == j then bump else 0.0)
  }

  /** A finished place depends only on its row up to its column and its column down to its row. */
  lemma FactoredFrame(a: Matrix, s: seq<real>, m: Matrix, p: seq<nat>, i: nat, m': Matrix, p': seq<nat>, i': nat,
                      e: seq<real>, c: nat, n: nat)
    requires Shaped(a, s, m, p, e, n) && Shaped(a, s, m', p', e, n) && i < n && i' < n && c < n
    requires i == i' || (c < i && c < i')
    requires forall k | 0 <= k <= c :: m[i][k] == m'[i'][k] && m[k][c] == m'[k][c]
    requires p[i] == p'[i'] && p[c] == p'[c]
    requires Factored(a, s, m, p, e, i, c, n)
    ensures Factored(a, s, m', p', e, i', c, n)
  {
    PartialFrame(m, i, m', i', c, Depth(i, c));
  }

  /** Work on column j leaves the finished columns finished. */
  lemma FinishedKept(a: Matrix, s: seq<real>, m: Matrix, m': Matrix, p: seq<nat>, e: seq<real>, j: nat, n: nat)
    requires Shaped(a, s, m, p, e, n) && j < n && FactoredBelow(a, s, m, p, e, j, n) && Square(m', n)
    requires Untouched(m, m', j, 0, n, n)
    ensures FactoredBelow(a, s, m', p, e, j, n)
  {
    forall i, c | 0 <= i < n && 0 <= c < j
      ensures Factored(a, s, m', p, e, i, c, n)
    {
      assert forall k | 0 <= k <= c :: m[i][k] == m'[i][k] && m[k][c] == m'[k][c];
      FactoredFrame(a, s, m, p, i, m', p, i, e, c, n);
    }
  }

  lemma ColumnReduced(a: Matrix, s: seq<real>, m0: Matrix, m1: Matrix, m2: Matrix, p: seq<nat>, e: seq<real>, j: nat,
                      n: nat)
    requires j < n && Square(m1, n) && Square(m2, n) && Reduced(a, s, m0, p, e, j, n)
    requires Settled(m0, m1, j, 0, j, n) && Untouched(m0, m1, j, 0, j, n)
    requires Settled(m1, m2, j, j, n, n) && Untouched(m1, m2, j, j, n, n)
    ensures Open(a, s, m2, p, e, j, 0.0, n)
  {
    assert Untouched(m0, m2, j, 0, n, n);
    FinishedKept(a, s, m0, m2, p, e, j, n);
    forall r | 0 <= r < n
      ensures OpenAt(a, m2, p, r, j, 0.0, n)
    {
      if r < j {
        assert SettledAt(m0, m1, r, j, n);
        UpperKept(m1, m2, r, j, n);
      } else {
        assert SettledAt(m1, m2, r, j, n);
      }
    }
  }

  lemma UpperKept(m: Matrix, m': Matrix, r: nat, j: nat, n: nat)
    requires Square(m, n) && Square(m', n) && r < j < n && Untouched(m, m', j, j, n, n)
    ensures LuEntryOpen(m', r, j, n) == LuEntryOpen(m, r, j, n)
  {
    PartialFrame(m, r, m', r, j, r);
  }

  /** The row that an exchange of x and y brings to place i. */
  function Swapped(i: nat, x: nat, y: nat): nat {
    if i == y then x else if i == x then y else i
  }

  lemma RowsSwapped(a: Matrix, s: seq<real>, m: Matrix, p: seq<nat>, e: seq<real>, j: nat, imax: nat, n: nat)
    requires Open(a, s, m, p, e, j, 0.0, n) && j <= imax < n
    ensures Open(a, s, Swap(m, imax, j), Swap(p, imax, j), e, j, 0.0, n)
  {
    var m', p' := Swap(m, imax, j), Swap(p, imax, j);
    assert forall i | 0 <= i < n :: m'[i] == m[Swapped(i, imax, j)] && p'[i] == p[Swapped(i, imax, j)];
    forall i, c | 0 <= i < n && 0 <= c < j
      ensures Factored(a, s, m', p', e, i, c, n)
    {
      assert Factored(a, s, m, p, e, Swapped(i, imax, j), c, n);
      FactoredFrame(a, s, m, p, Swapped(i, imax, j), m', p', i, e, c, n);
    }
    forall r | 0 <= r < n
      ensures OpenAt(a, m', p', r, j, 0.0, n)
    {
      assert OpenAt(a, m, p, Swapped(r, imax, j), j, 0.0, n);
      PartialFrame(m, Swapped(r, imax, j), m', r, j, Depth(r, j));
    }
  }

  /** The pivot's entry is the largest of its column once every row is measured by its own scale. */
  ghost predicate PivotLargest(s: seq<real>, m: Matrix, p: seq<nat>, j: nat, n: nat)
    requires |s| == n && Square(m, n) && InRange(p, n) && j < n
  {
    forall r | j < r < n :: PivotBeats(s, m, p, j, r, n)
  }

  ghost predicate PivotBeats(s: seq<real>, m: Matrix, p: seq<nat>, j: nat, r: nat, n: nat)
    requires |s| == n && Square(m, n) && InRange(p, n) && j < n && r < n
  {
    Abs(m[r][j]) * s[p[j]] <= Abs(m[j][j]) * s[p[r]]
  }

  /** v holds the reciprocal scales of the rows from j on. */
  ghost predicate Reciprocals(v: seq<real>, s: seq<real>, p: seq<nat>, j: nat, n: nat)
    requires |s| == n && InRange(p, n) && |v| == n
  {
    (forall r | 0 <= r < n :: v[r] > 0.0) &&
    forall r | j <= r < n :: Quotient(v[r], s[p[r]], 1.0)
  }

  ghost predicate Positive(s: seq<real>, n: nat) {
    |s| == n && forall r | 0 <= r < n :: s[r] > 0.0
  }

  lemma ScaledComparison(v: real, s: real, x: real, v': real, s': real, x': real)
    requires Quotient(v, s, 1.0) && Quotient(v', s', 1.0) && s > 0.0 && s' > 0.0
    requires v * x <= v' * x'
    ensures x * s' <= x' * s
  {
    assert x * s' == (v * x) * (s * s') by {
      assert (v * x) * (s * s') == (v * s) * (x * s');
    }
    assert x' * s == (v' * x') * (s * s') by {
      assert (v' * x') * (s * s') == (v' * s') * (x' * s);
    }
    assert s * s' > 0.0;
    MultiplyBoth(v * x, v' * x', s * s');
  }

  lemma MultiplyBoth(x: real, y: real, z: real)
    requires x <= y && z >= 0.0
    ensures x * z <= y * z
  {
  }

  lemma PivotChosen(s: seq<real>, m: Matrix, p: seq<nat>, v: seq<real>, j: nat, imax: nat, n: nat)
    requires Square(m, n) && InRange(p, n) && |v| == n && j < n && Positive(s, n)
    requires Reciprocals(v, s, p, j, n) && LastLargest(Weights(v, m, j, n), j, n, imax)
    ensures PivotLargest(s, Swap(m, imax, j), Swap(p, imax, j), j, n)
  {
    forall r | j < r < n
      ensures PivotBeats(s, Swap(m, imax, j), Swap(p, imax, j), j, r, n)
    {
      PivotBeatsRow(s, m, p, v, j, imax, r, n);
    }
  }

  lemma PivotBeatsRow(s: seq<real>, m: Matrix, p: seq<nat>, v: seq<real>, j: nat, imax: nat, r: nat, n: nat)
    requires Square(m, n) && InRange(p, n) && |v| == n && j < r < n && Positive(s, n)
    requires Reciprocals(v, s, p, j, n) && LastLargest(Weights(v, m, j, n), j, n, imax)
    ensures PivotBeats(s, Swap(m, imax, j), Swap(p, imax, j), j, r, n)
  {
    var r0, w := Swapped(r, imax, j), Weights(v, m, j, n);
    assert w[r0] <= w[imax];
    ScaledComparison(v[r0], s[p[r0]], Abs(m[r0][j]), v[imax], s[p[imax]], Abs(m[imax][j]));
  }

  lemma ReciprocalsMoved(s: seq<real>, p: seq<nat>, v: seq<real>, j: nat, imax: nat, n: nat)
    requires |s| == n && InRange(p, n) && |v| == n && j <= imax < n && Reciprocals(v, s, p, j, n)
    ensures Reciprocals(v[imax := v[j]], s, Swap(p, imax, j), j + 1, n)
  {
    var p' := Swap(p, imax, j);
    assert forall i | 0 <= i < n :: p'[i] == p[Swapped(i, imax, j)];
  }

  /** recipes.c 210-212: a zero pivot becomes TINY; nothing below it was nonzero. */
  lemma PivotRaised(a: Matrix, s: seq<real>, m: Matrix, m': Matrix, p: seq<nat>, e: seq<real>, j: nat, n: nat)
    requires Open(a, s, m, p, e, j, 0.0, n) && PivotLargest(s, m, p, j, n) && Positive(s, n)
    requires Square(m', n) && Untouched(m, m', j, j, j + 1, n)
    requires m[j][j] == 0.0 && m'[j][j] == TINY
    ensures Open(a, s, m', p, e, j, TINY, n) && PivotLargest(s, m', p, j, n)
    ensures forall r | j < r < n :: m'[r][j] == 0.0
  {
    FinishedKept(a, s, m, m', p, e, j, n);
    forall r | 0 <= r < n
      ensures OpenAt(a, m', p, r, j, TINY, n)
    {
      assert OpenAt(a, m, p, r, j, 0.0, n);
      PartialFrame(m, r, m', r, j, Depth(r, j));
    }
    forall r | j < r < n
      ensures m'[r][j] == 0.0 && PivotBeats(s, m', p, j, r, n)
    {
      assert PivotBeats(s, m, p, j, r, n);
      PositiveFactor(Abs(m[r][j]), s[p[j]], s[p[r]]);
    }
  }

  lemma PositiveFactor(x: real, s: real, t: real)
    requires x >= 0.0 && s > 0.0 && x * s <= 0.0 * t
    ensures x == 0.0
  {
  }

  lemma QuotientBounded(q: real, pivot: real, x: real, s: real, t: real)
    requires Quotient(q, pivot, x) && pivot != 0.0 && s > 0.0
    requires Abs(x) * s <= Abs(pivot) * t
    ensures Abs(q) * s <= t
  {
    AbsTimes(q, pivot);
    assert (Abs(q) * s) * Abs(pivot) == (Abs(q) * Abs(pivot)) * s;
    CancelFactor(Abs(q) * s, t, Abs(pivot));
  }

  lemma CancelFactor(x: real, y: real, z: real)
    requires x * z <= y * z && z > 0.0
    ensures x <= y
  {
  }

  lemma AbsTimes(x: real, y: real)
    ensures Abs(x * y) == Abs(x) * Abs(y)
  {
  }

  /** Dividing column j by its pivot completes it. */
  lemma ColumnCompleted(a: Matrix, s: seq<real>, m: Matrix, m': Matrix, p: seq<nat>, e: seq<real>, j: nat, bump: real,
                        n: nat)
    requires Open(a, s, m, p, e, j, bump, n) && PivotLargest(s, m, p, j, n) && Positive(s, n)
    requires Square(m', n) && Divided(m, m', j, n, n) && m[j][j] != 0.0
    requires bump == 0.0 || (bump == TINY == m[j][j] && forall r | j < r < n :: m[r][j] == 0.0)
    ensures Reduced(a, s, m', p, e[j := bump], j + 1, n)
  {
    var e' := e[j := bump];
    FinishedKept(a, s, m, m', p, e, j, n);
    forall i, c | 0 <= i < n && 0 <= c < j + 1
      ensures Factored(a, s, m', p, e', i, c, n)
    {
      if c < j {
        assert Factored(a, s, m', p, e, i, c, n);
      } else {
        PlaceCompleted(a, s, m, m', p, e', i, j, n);
      }
    }
  }

  lemma PlaceCompleted(a: Matrix, s: seq<real>, m: Matrix, m': Matrix, p: seq<nat>, e: seq<real>, i: nat, j: nat,
                       n: nat)
    requires Shaped(a, s, m, p, e, n) && i < n && j < n && Square(m', n)
    requires OpenAt(a, m, p, i, j, e[j], n)
    requires PivotLargest(s, m, p, j, n) && Positive(s, n)
    requires Divided(m, m', j, n, n) && m[j][j] != 0.0
    requires e[j] == 0.0 || (e[j] == TINY == m[j][j] && forall r | j < r < n :: m[r][j] == 0.0)
    ensures Factored(a, s, m', p, e, i, j, n)
  {
    PartialFrame(m, i, m', i, j, Depth(i, j));
    if i > j {
      assert PivotBeats(s, m, p, j, i, n);
      assert Quotient(m'[i][j], m[j][j], m[i][j]);
      QuotientBounded(m'[i][j], m[j][j], m[i][j], s[p[j]], s[p[i]]);
      if e[j] != 0.0 {
        NoZeroDivisor(m'[i][j], m[j][j]);
      }
    }
  }

  lemma NoZeroDivisor(x: real, y: real)
    requires x * y == 0.0 && y != 0.0
    ensures x == 0.0
  {
  }

  // ------------------------------------------------------------ the decomposition

  /** recipes.c 177-179. */
  method RowScale(a: array2<real>, n: nat, i: nat) returns (big: real)
    requires a.Length0 == a.Length1 == n && i < n
    ensures big == RowScales(Entries(a), n)[i]
  {
    big := 0.0;
    for j := 0 to n
      invariant big == RowMax(Entries(a)[i], j)
    {
      var temp := Abs(a[i, j]);
      if temp > big {
        big := temp;
      }
    }
  }

  /** The row scales: recipes.c 176-182. Stops at a row of zeros. */
  method ScaleRows(a: array2<real>, n: nat) returns (ok: bool, vv: array<real>)
    requires a.Length0 == a.Length1 == n
    ensures fresh(vv) && vv.Length == n
    ensures ok == Positive(RowScales(Entries(a), n), n)
    ensures ok ==> Reciprocals(vv[..], RowScales(Entries(a), n), Identity(n), 0, n)
  {
    ghost var s := RowScales(Entries(a), n);
    vv := new real[n];
    for i := 0 to n
      invariant forall r | 0 <= r < i :: s[r] > 0.0 && vv[r] > 0.0 && Quotient(vv[r], s[r], 1.0)
    {
      var big := RowScale(a, n, i);
      if big == 0.0 {
        return false, vv;
      }
      vv[i] := 1.0 / big;
      ReciprocalPositive(big);
    }
    ok := true;
  }

  lemma ReciprocalPositive(x: real)
    requires x > 0.0
    ensures 1.0 / x > 0.0 && Quotient(1.0 / x, x, 1.0)
  {
  }

  /** recipes.c 200-209. */
  method ExchangeRows(a: array2<real>, n: nat, indx: array<int>, vv: array<real>, imax: nat, j: nat, d0: real)
    returns (d: real)
    requires a.Length0 == a.Length1 == indx.Length == vv.Length == n && j < n && imax < n
    modifies a, indx, vv
    ensures Entries(a) == Swap(old(Entries(a)), imax, j)
    ensures vv[..] == old(vv[..])[imax := old(vv[j])]
    ensures indx[..] == old(indx[..])[j := imax]
    ensures d == if imax != j then -d0 else d0
  {
    d := d0;
    if j != imax {
      SwapRows(a, n, imax, j);
      d := -d;
      vv[imax] := vv[j];
    }
    indx[j] := imax;
  }

  /** One turn of the outer loop: recipes.c 184-216. `p` and `e` follow the origin of the rows and the raised
      pivots. */
  method FactorColumn(a: array2<real>, n: nat, indx: array<int>, vv: array<real>, j: nat, d0: real,
                      ghost input: Matrix, ghost s: seq<real>, ghost p: seq<nat>, ghost e: seq<real>)
    returns (d: real, ghost bump: real)
    requires a.Length0 == a.Length1 == indx.Length == vv.Length == n && j < n && indx != vv as object
    requires Positive(s, n) && Reduced(input, s, Entries(a), p, e, j, n) && Reciprocals(vv[..], s, p, j, n)
    modifies a, indx, vv
    ensures j <= indx[j] < n && indx[..j] == old(indx[..j])
    ensures Reduced(input, s, Entries(a), Swap(p, indx[j], j), e[j := bump], j + 1, n)
    ensures Reciprocals(vv[..], s, Swap(p, indx[j], j), j + 1, n)
    ensures d == if indx[j] != j then -d0 else d0
  {
    ghost var m0 := Entries(a);
    ReduceUpper(a, n, j);
    ghost var m1 := Entries(a);
    var imax := ReduceLower(a, vv, n, j);
    ghost var m2 := Entries(a);
    ColumnReduced(input, s, m0, m1, m2, p, e, j, n);
    PivotChosen(s, m2, p, vv[..], j, imax, n);
    RowsSwapped(input, s, m2, p, e, j, imax, n);
    ReciprocalsMoved(s, p, vv[..], j, imax, n);
    d := ExchangeRows(a, n, indx, vv, imax, j, d0);
    ghost var p' := Swap(p, imax, j);
    ghost var m3 := Entries(a);
    bump := 0.0;
    if a[j, j] == 0.0 {
      a[j, j] := TINY;
      bump := TINY;
      PivotRaised(input, s, m3, Entries(a), p', e, j, n);
    }
    ghost var m4 := Entries(a);
    ScaleColumn(a, n, j);
    ColumnCompleted(input, s, m4, Entries(a), p', e, j, bump, n);
  }

  lemma FullyReduced(a: Matrix, m: Matrix, indx: seq<int>, e: seq<real>, n: nat)
    requires Square(a, n) && |indx| == n && PivotRows(indx, n)
    requires Reduced(a, RowScales(a, n), m, Origin(indx, n), e, n, n)
    ensures Factorises(a, m, indx, e, n)
  {
    var p, s := Origin(indx, n), RowScales(a, n);
    forall i, c | 0 <= i < n && 0 <= c < n
      ensures ProductAt(a, m, p, e, i, c, n)
      ensures c <= i ==> PivotSound(m, e, i, c, n) && MultiplierBounded(s, m, p, i, c, n)
    {
      assert Factored(a, s, m, p, e, i, c, n);
      ProductEntry(m, i, c, n);
    }
  }

  lemma RecordExtended(indx: seq<int>, imax: int, indx': seq<int>, n: nat)
    requires PivotRows(indx, n) && |indx| <= imax < n && indx' == indx + [imax]
    ensures PivotRows(indx', n)
    ensures Origin(indx', n) == Swap(Origin(indx, n), imax, |indx|)
    ensures Parity(indx') == if imax != |indx| then -Parity(indx) else Parity(indx)
  {
    assert indx'[..|indx|] == indx;
  }

  /** The loop invariant of the decomposition, once the exchanges in `done` are recorded. */
  ghost predicate Progress(a: Matrix, s: seq<real>, m: Matrix, v: seq<real>, done: seq<int>, e: seq<real>, d: real,
                           n: nat) {
    PivotRows(done, n) && Positive(s, n) && |v| == n &&
    Reduced(a, s, m, Origin(done, n), e, |done|, n) &&
    Reciprocals(v, s, Origin(done, n), |done|, n) && d == Parity(done)
  }

  lemma ProgressStarts(a: Matrix, s: seq<real>, v: seq<real>, n: nat)
    requires Square(a, n) && Positive(s, n) && |v| == n && Reciprocals(v, s, Identity(n), 0, n)
    ensures Progress(a, s, a, v, [], Zeros(n), 1.0, n)
  {
    assert Origin([], n) == Identity(n);
  }

  lemma ProgressEnds(a: Matrix, s: seq<real>, m: Matrix, v: seq<real>, done: seq<int>, e: seq<real>, d: real, n: nat)
    requires Square(a, n) && s == RowScales(a, n) && |done| == n && Progress(a, s, m, v, done, e, d, n)
    ensures Factorises(a, m, done, e, n) && d == Parity(done)
  {
    FullyReduced(a, m, done, e, n);
  }

  /** One turn with its exchange recorded: recipes.c 183-217. */
  method NextColumn(a: array2<real>, n: nat, indx: array<int>, vv: array<real>, j: nat, d0: real,
                    ghost input: Matrix, ghost s: seq<real>, ghost e0: seq<real>)
    returns (d: real, ghost e: seq<real>)
    requires a.Length0 == a.Length1 == indx.Length == vv.Length == n && j < n
    requires Progress(input, s, Entries(a), vv[..], indx[..j], e0, d0, n)
    modifies a, indx, vv
    ensures Progress(input, s, Entries(a), vv[..], indx[..j + 1], e, d, n)
  {
    ghost var done := indx[..j];
    ghost var bump;
    d, bump := FactorColumn(a, n, indx, vv, j, d0, input, s, Origin(done, n), e0);
    e := e0[j := bump];
    RecordExtended(done, indx[j], indx[..j + 1], n);
  }

  /** recipes.c 163-221. `e` is what the diagonal of the input was raised by. */
  method Ludcmp(a: array2<real>, n: nat, indx: array<int>) returns (ok: bool, d: real, ghost e: seq<real>)
    requires a.Length0 == a.Length1 == indx.Length == n
    modifies a, indx
    ensures ok == Positive(RowScales(old(Entries(a)), n), n)
    ensures !ok ==> Entries(a) == old(Entries(a)) && indx[..] == old(indx[..])
    ensures ok ==> Factorises(old(Entries(a)), Entries(a), indx[..], e, n) && d == Parity(indx[..])
  {
    ghost var input := Entries(a);
    ghost var s := RowScales(input, n);
    d := 1.0;
    e := Zeros(n);
    var vv;
    ok, vv := ScaleRows(a, n);
    if !ok {
      return;
    }
    ProgressStarts(input, s, vv[..], n);
    for j := 0 to n
      invariant Progress(input, s, Entries(a), vv[..], indx[..j], e, d, n)
    {
      d, e := NextColumn(a, n, indx, vv, j, d, input, s, e);
    }
    assert indx[..] == indx[..n];
    ProgressEnds(input, s, Entries(a), vv[..], indx[..], e, d, n);
  }
}
