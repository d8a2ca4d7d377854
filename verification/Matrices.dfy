/**
 Real matrices as sequences of rows, and the algebra the LU solver is judged by.
 */
module Matrices {

  type Matrix = seq<seq<real>>

  ghost predicate Square(m: Matrix, n: nat) {
    |m| == n && forall i | 0 <= i < n :: |m[i]| == n
  }

  function Abs(x: real): real {
    if x < 0.0 then -x else x
  }

  /** The sum of u[k] * v[k] over k < len. */
  function Dot(u: seq<real>, v: seq<real>, len: nat): real
    requires len <= |u| && len <= |v|
  {
    if len == 0 then 0.0 else Dot(u, v, len - 1) + u[len - 1] * v[len - 1]
  }

  /** The sum of u[k] * m[k][c] over k < len: one entry of a row times a matrix. */
  ghost function Combine(u: seq<real>, m: Matrix, c: nat, len: nat): real
    requires len <= |u| && len <= |m|
    requires forall k | 0 <= k < len :: c < |m[k]|
  {
    if len == 0 then 0.0 else Combine(u, m, c, len - 1) + u[len - 1] * m[len - 1][c]
  }

  ghost function Times(p: Matrix, q: Matrix, n: nat): (r: Matrix)
    requires Square(p, n) && Square(q, n)
    ensures Square(r, n)
  {
    seq(n, i requires 0 <= i < n => seq(n, c requires 0 <= c < n => Combine(p[i], q, c, n)))
  }

  /** The matrix applied to a vector. */
  ghost function Apply(m: Matrix, x: seq<real>, n: nat): (r: seq<real>)
    requires Square(m, n) && |x| == n
    ensures |r| == n
  {
    seq(n, i requires 0 <= i < n => Dot(m[i], x, n))
  }

  ghost function Zeros(n: nat): seq<real> {
    seq(n, _ => 0.0)
  }

  /** No vector but zero is sent to zero. */
  ghost predicate Nonsingular(m: Matrix, n: nat)
    requires Square(m, n)
  {
    forall v: seq<real> | |v| == n && Apply(m, v, n) == Zeros(n) :: v == Zeros(n)
  }

  // ---------------------------------------------------------------- sums

  /** Splitting the last column off a weighted sum of row products. */
  lemma {:induction false} CombineDistributes(u: seq<real>, m: Matrix, x: seq<real>, s: seq<real>, t: seq<real>,
                                              q: nat, len: nat)
    requires len <= |u| && len <= |m| && len <= |s| && len <= |t| && q < |x|
    requires forall k | 0 <= k < len :: q < |m[k]|
    requires forall k | 0 <= k < len :: t[k] == s[k] + m[k][q] * x[q]
    ensures Dot(u, t, len) == Dot(u, s, len) + Combine(u, m, q, len) * x[q]
  {
    if len == 0 {
    } else {
      CombineDistributes(u, m, x, s, t, q, len - 1);
      var k := len - 1;
      assert u[k] * t[k] == u[k] * s[k] + (u[k] * m[k][q]) * x[q];
      assert Combine(u, m, q, len) * x[q] == Combine(u, m, q, k) * x[q] + (u[k] * m[k][q]) * x[q];
    }
  }

  lemma {:induction false} DotZero(u: seq<real>, z: seq<real>, len: nat)
    requires len <= |u| && len <= |z|
    requires forall k | 0 <= k < len :: z[k] == 0.0 || u[k] == 0.0
    ensures Dot(u, z, len) == 0.0
  {
    if len == 0 {
    } else {
      DotZero(u, z, len - 1);
    }
  }

  /** Two sums agree when their terms agree. */
  lemma {:induction false} DotCongruent(u: seq<real>, v: seq<real>, u': seq<real>, v': seq<real>, len: nat)
    requires len <= |u| && len <= |v| && len <= |u'| && len <= |v'|
    requires forall k | 0 <= k < len :: u[k] * v[k] == u'[k] * v'[k]
    ensures Dot(u, v, len) == Dot(u', v', len)
  {
    if len == 0 {
    } else {
      DotCongruent(u, v, u', v', len - 1);
    }
  }

  /** Terms that vanish outside lo..hi may be dropped from the end of a sum. */
  lemma {:induction false} DotTail(u: seq<real>, v: seq<real>, lo: nat, hi: nat)
    requires lo <= hi <= |u| && hi <= |v|
    requires forall k | lo <= k < hi :: u[k] == 0.0 || v[k] == 0.0
    ensures Dot(u, v, hi) == Dot(u, v, lo)
  {
    if lo == hi {
    } else {
      DotTail(u, v, lo, hi - 1);
    }
  }

  /** Row `u` of a product applied to `x` is `u` applied to the product of the right factor and `x`. */
  lemma {:induction false} RowAssociative(u: seq<real>, m: Matrix, x: seq<real>, r: seq<real>, y: seq<real>, n: nat,
                                          q: nat)
    requires Square(m, n) && |u| == |x| == |r| == |y| == n && q <= n
    requires forall c | 0 <= c < n :: r[c] == Combine(u, m, c, n)
    requires forall k | 0 <= k < n :: y[k] == Dot(m[k], x, q)
    ensures Dot(r, x, q) == Dot(u, y, n)
    decreases q
  {
    if q == 0 {
      DotZero(u, y, n);
    } else {
      var y' := seq(n, k requires 0 <= k < n => Dot(m[k], x, q - 1));
      RowAssociative(u, m, x, r, y', n, q - 1);
      CombineDistributes(u, m, x, y', y, q - 1, n);
    }
  }

  /** (P Q) x == P (Q x). */
  lemma TimesAssociative(p: Matrix, q: Matrix, x: seq<real>, n: nat)
    requires Square(p, n) && Square(q, n) && |x| == n
    ensures Apply(Times(p, q, n), x, n) == Apply(p, Apply(q, x, n), n)
  {
    forall i | 0 <= i < n
      ensures Dot(Times(p, q, n)[i], x, n) == Dot(p[i], Apply(q, x, n), n)
    {
      RowAssociative(p[i], q, x, Times(p, q, n)[i], Apply(q, x, n), n, n);
    }
  }
}
