/**
 Numbers held in 32-bit machine words, bit by bit.
 */
module WordNumbers {
  import opened Arithmetic

  /** The word holding n modulo 2^32. */
  function AsWord(n: nat): bv32 {
    if n == 0 then 0 else Append(AsWord(n / 2), n % 2 == 1)
  }

  /** A word with one more bit put in at the low end. */
  function Append(a: bv32, odd: bool): bv32 {
    if odd then (a << 1) | 1 else a << 1
  }

  /** The number spelled by the k lowest bits of a word. */
  function FromWord(w: bv32, k: nat): nat {
    if k == 0 then 0 else (if w & 1 == 1 then 1 else 0) + 2 * FromWord(w >> 1, k - 1)
  }

  /** One more, in the word. */
  function Successor(w: bv32): bv32 {
    w + 1
  }

  lemma AppendOne(a: bv32)
    ensures Append(a, true) == Successor(Append(a, false))
    ensures Successor(Append(a, true)) == Append(Successor(a), false)
  {
  }

  lemma NextOfEven(h: nat)
    ensures AsWord(2 * h + 1) == Successor(AsWord(2 * h))
  {
    hide Append, Successor, AsWord;
    AsWordUnfold(h, true);
    AsWordUnfold(h, false);
    AppendOne(AsWord(h));
  }

  lemma NextOfOdd(h: nat)
    requires AsWord(h + 1) == Successor(AsWord(h))
    ensures AsWord(2 * h + 2) == Successor(AsWord(2 * h + 1))
  {
    hide Append, Successor, AsWord;
    AsWordUnfold(h, true);
    AsWordUnfold(h + 1, false);
    AppendOne(AsWord(h));
  }

  /** Adding one to the word is adding one to the number. */
  lemma {:induction false} AsWordNext(n: nat)
    ensures AsWord(n + 1) == Successor(AsWord(n))
    decreases n
  {
    hide AsWord, Successor;
    var h := n / 2;
    Halved(n);
    if n % 2 == 0 {
      NextOfEven(h);
    } else {
      AsWordNext(h);
      NextOfOdd(h);
    }
  }

  lemma AsWordUnfold(h: nat, odd: bool)
    ensures AsWord(2 * h + if odd then 1 else 0) == Append(AsWord(h), odd)
  {
    Halves(h, if odd then 1 else 0);
    if h == 0 && !odd {
      assert Append(0, false) == 0;
    }
  }

  /** The k lowest bits of a mask are all ones. */
  predicate LowOnes(m: bv32, k: nat) {
    k == 0 || (m & 1 == 1 && LowOnes(m >> 1, k - 1))
  }

  lemma MaskShift(w: bv32, m: bv32)
    ensures (w & m) >> 1 == (w >> 1) & (m >> 1)
    ensures m & 1 == 1 ==> (w & m) & 1 == w & 1
  {
  }

  lemma {:induction false} MaskKeeps(w: bv32, m: bv32, k: nat)
    requires LowOnes(m, k)
    ensures FromWord(w & m, k) == FromWord(w, k)
    decreases k
  {
    if k == 0 {
    } else {
      MaskShift(w, m);
      MaskKeeps(w >> 1, m >> 1, k - 1);
    }
  }

  lemma {:induction false} FewerOnes(m: bv32, j: nat, k: nat)
    requires j <= k && LowOnes(m, k)
    ensures LowOnes(m, j)
    decreases k
  {
    if j == 0 {
    } else {
      FewerOnes(m >> 1, j - 1, k - 1);
    }
  }

  lemma SeventeenOnes()
    ensures LowOnes(0x1FFFF, 17) && LowOnes(0x7FFFFFFF, 17)
  {
    assert LowOnes(0x0, 0) && LowOnes(0x1, 1) && LowOnes(0x3, 2) && LowOnes(0x7, 3) && LowOnes(0xF, 4);
    assert LowOnes(0x1F, 5) && LowOnes(0x3F, 6) && LowOnes(0x7F, 7) && LowOnes(0xFF, 8);
    assert LowOnes(0x1FF, 9) && LowOnes(0x3FF, 10) && LowOnes(0x7FF, 11) && LowOnes(0xFFF, 12);
    assert LowOnes(0x1FFF, 13) && LowOnes(0x3FFF, 14) && LowOnes(0x7FFF, 15) && LowOnes(0xFFFF, 16);
    assert LowOnes(0x3FFF, 0) && LowOnes(0x7FFF, 1) && LowOnes(0xFFFF, 2) && LowOnes(0x1FFFF, 3);
    assert LowOnes(0x3FFFF, 4) && LowOnes(0x7FFFF, 5) && LowOnes(0xFFFFF, 6) && LowOnes(0x1FFFFF, 7);
    assert LowOnes(0x3FFFFF, 8) && LowOnes(0x7FFFFF, 9) && LowOnes(0xFFFFFF, 10) && LowOnes(0x1FFFFFF, 11);
    assert LowOnes(0x3FFFFFF, 12) && LowOnes(0x7FFFFFF, 13) && LowOnes(0xFFFFFFF, 14) && LowOnes(0x1FFFFFFF, 15);
    assert LowOnes(0x3FFFFFFF, 16);
  }

  lemma LowBitOut(a: bv32, odd: bool)
    ensures (Append(a, odd) & 1 == 1) == odd
    ensures Append(a, odd) >> 1 == a & 0x7FFFFFFF
  {
  }

  lemma FromAppend(a: bv32, odd: bool, k: nat)
    requires k > 0
    ensures FromWord(Append(a, odd), k) == (if odd then 1 else 0) + 2 * FromWord(a & 0x7FFFFFFF, k - 1)
  {
    hide Append;
    LowBitOut(a, odd);
  }

  lemma FromAsWordStep(h: nat, odd: bool, k: nat)
    requires 0 < k <= 17
    ensures FromWord(AsWord(2 * h + if odd then 1 else 0), k) == (if odd then 1 else 0) + 2 * FromWord(AsWord(h), k - 1)
  {
    hide Append, FromWord;
    AsWordUnfold(h, odd);
    FromAppend(AsWord(h), odd, k);
    SeventeenOnes();
    FewerOnes(0x7FFFFFFF, k - 1, 17);
    MaskKeeps(AsWord(h), 0x7FFFFFFF, k - 1);
  }

  /** Reading back the low bits of a word gives the number modulo their range. */
  lemma {:induction false} FromAsWord(n: nat, k: nat)
    requires k <= 17
    ensures FromWord(AsWord(n), k) == n % Pow2(k)
    decreases k
  {
    if k == 0 {
    } else {
      hide AsWord, FromWord;
      Halved(n);
      FromAsWordStep(n / 2, n % 2 == 1, k);
      FromAsWord(n / 2, k - 1);
      ModDouble(n, Pow2(k - 1));
    }
  }
}
