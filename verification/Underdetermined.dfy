/**
 Fewer equations than unknowns: there is always a nonzero solution. So a square matrix with a row of zeros, at which
 the factorisation gives up (recipes.c 179), is singular.
 */
module Underdetermined {
  import opened Matrices

  ghost predicate Long(rows: seq<seq<real>>, n: nat) {
    forall i | 0 <= i < |rows| :: |rows[i]| == n
  }

  ghost predicate SentToZero(rows: seq<seq<real>>, v: seq<real>, n: nat) {
    Long(rows, n) && |v| == n && forall i | 0 <= i < |rows| :: Dot(rows[i], v, n) == 0.0
  }

  /** A row after the last unknown is eliminated with the pivot's row, where q times the pivot is the row's last
      entry. */
  function Eliminated(row: seq<real>, pivot: seq<real>, q: real, n: nat): (r: seq<real>)
    requires |row| == |pivot| == n > 0
    ensures |r| == n - 1
  {
    seq(n - 1, c requires 0 <= c < n - 1 => row[c] - q * pivot[c])
  }

  lemma {:induction false} DotEliminated(row: seq<real>, pivot: seq<real>, q: real, v: seq<real>, n: nat, len: nat)
    requires |row| == |pivot| == n > 0 && |v| == n - 1 && len <= n - 1
    ensures Dot(Eliminated(row, pivot, q, n), v, len) == Dot(row, v, len) - q * Dot(pivot, v, len)
    decreases len
  {
    if len == 0 {
    } else {
      DotEliminated(row, pivot, q, v, n, len - 1);
      var x, y, z := row[len - 1], pivot[len - 1], v[len - 1];
      assert (x - q * y) * z == x * z - q * (y * z);
      assert q * (Dot(pivot, v, len - 1) + y * z) == q * Dot(pivot, v, len - 1) + q * (y * z);
    }
  }

  function Ratio(x: real, y: real): (q: real)
    requires y != 0.0
    ensures q * y == x
  {
    x / y
  }

  /** One more unknown, chosen so that the pivot's row comes out zero. */
  function Extended(pivot: seq<real>, v: seq<real>, n: nat): (r: seq<real>)
    requires |pivot| == n > 0 && |v| == n - 1 && pivot[n - 1] != 0.0
    ensures |r| == n && forall c | 0 <= c < n - 1 :: r[c] == v[c]
    ensures r[n - 1] == -Ratio(Dot(pivot, v, n - 1), pivot[n - 1])
  {
    v + [-Ratio(Dot(pivot, v, n - 1), pivot[n - 1])]
  }

  lemma DotExtended(row: seq<real>, pivot: seq<real>, v: seq<real>, n: nat)
    requires |row| == |pivot| == n > 0 && |v| == n - 1 && pivot[n - 1] != 0.0
    ensures Dot(row, Extended(pivot, v, n), n)
         == Dot(Eliminated(row, pivot, Ratio(row[n - 1], pivot[n - 1]), n), v, n - 1)
  {
    hide Ratio, Eliminated, Extended;
    var r, q, d := Extended(pivot, v, n), Ratio(row[n - 1], pivot[n - 1]), Dot(pivot, v, n - 1);
    DotEliminated(row, pivot, q, v, n, n - 1);
    DotCongruent(row, r, row, v, n - 1);
    RatioExchanged(row[n - 1], d, pivot[n - 1]);
    NegatedFactor(row[n - 1], Ratio(d, pivot[n - 1]));
  }

  lemma NegatedFactor(x: real, y: real)
    ensures x * -y == -(x * y)
  {
  }

  lemma RatioExchanged(x: real, d: real, p: real)
    requires p != 0.0
    ensures x * Ratio(d, p) == Ratio(x, p) * d
  {
    hide Ratio;
    var q, t := Ratio(x, p), Ratio(d, p);
    assert (q * p) * t == q * (t * p);
  }

  lemma PivotRowVanishes(pivot: seq<real>, v: seq<real>, n: nat)
    requires |pivot| == n > 0 && |v| == n - 1 && pivot[n - 1] != 0.0
    ensures Dot(pivot, Extended(pivot, v, n), n) == 0.0
  {
    var r, d := Extended(pivot, v, n), Dot(pivot, v, n - 1);
    DotCongruent(pivot, r, pivot, v, n - 1);
    assert pivot[n - 1] * r[n - 1] == -d;
  }

  lemma LastUnknownFree(row: seq<real>, n: nat)
    requires |row| == n > 0 && row[n - 1] == 0.0
    ensures Dot(row, Zeros(n)[n - 1 := 1.0], n) == 0.0
  {
    DotZero(row, Zeros(n)[n - 1 := 1.0], n - 1);
  }

  /** By elimination, one unknown and one equation at a time. */
  lemma {:induction false} NonzeroSolution(rows: seq<seq<real>>, n: nat) returns (v: seq<real>)
    requires |rows| < n && Long(rows, n)
    ensures SentToZero(rows, v, n) && v != Zeros(n)
    decreases n
  {
    hide Dot, Eliminated, Extended, Ratio;
    if p :| 0 <= p < |rows| && rows[p][n - 1] != 0.0 {
      var pivot, others := rows[p], rows[..p] + rows[p + 1..];
      var fewer := seq(|others|, i requires 0 <= i < |others| =>
                                   Eliminated(others[i], pivot, Ratio(others[i][n - 1], pivot[n - 1]), n));
      var w := NonzeroSolution(fewer, n - 1);
      v := Extended(pivot, w, n);
      forall i | 0 <= i < |rows|
        ensures Dot(rows[i], v, n) == 0.0
      {
        if i == p {
          PivotRowVanishes(pivot, w, n);
        } else {
          DotExtended(rows[i], pivot, w, n);
          var j := if i < p then i else i - 1;
          assert others[j] == rows[i] && Dot(fewer[j], w, n - 1) == 0.0;
        }
      }
      assert Zeros(n)[..n - 1] == Zeros(n - 1);
    } else {
      v := Zeros(n)[n - 1 := 1.0];
      forall i | 0 <= i < |rows|
        ensures Dot(rows[i], v, n) == 0.0
      {
        LastUnknownFree(rows[i], n);
      }
      assert v[n - 1] != Zeros(n)[n - 1];
    }
  }

  /** A row of zeros makes a square matrix singular. */
  lemma ZeroRowIsSingular(a: Matrix, r: nat, n: nat)
    requires Square(a, n) && r < n && forall c | 0 <= c < n :: a[r][c] == 0.0
    ensures !Nonsingular(a, n)
  {
    hide Dot;
    var others := a[..r] + a[r + 1..];
    var v := NonzeroSolution(others, n);
    forall i | 0 <= i < n
      ensures Dot(a[i], v, n) == 0.0
    {
      if i == r {
        DotZero(a[r], v, n);
      } else {
        var j := if i < r then i else i - 1;
        assert others[j] == a[i];
      }
    }
    assert Apply(a, v, n) == Zeros(n);
  }
}
