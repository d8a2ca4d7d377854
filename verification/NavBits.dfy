/**
 The message bit by bit, in the order it is sent: the bits of a word spell its number, its last six are the parity
 bits, and the TOW count and the week number can be read off the air (gpssim.c 1366, 2353).
 */
module NavBits {
  import opened Arithmetic
  import opened NavWord
  import opened WordNumbers
  import opened NavMessage
  import opened NavStream

  // ------------------------------------------------------------ shifts by a number

  /** A number of places below 32, in a word. */
  function Places(s: nat): Word
    requires s < 32
  {
    s as Word
  }

  function Shifted(w: Word, b: Word): Word
    requires b < 32
  {
    w >> b
  }

  predicate Low(w: Word) {
    w & 1 == 1
  }

  lemma PlacesNumber(s: nat)
    requires s < 32
    ensures Places(s) < 32 && Places(s) as int == s
  {
    CastBack(s);
  }

  lemma CastBack(s: nat)
    requires s < 32
    ensures (s as Word) as int == s && s as Word < 32
  {
  }

  lemma ShiftByCast(w: Word, s: nat, b: Word)
    requires s < 32 && b == s as Word && b < 32
    ensures w >> s == Shifted(w, b)
  {
  }

  lemma ShiftByPlaces(w: Word, s: nat)
    requires s < 32
    ensures Places(s) < 32 && w >> s == Shifted(w, Places(s))
  {
    hide Shifted;
    CastBack(s);
    ShiftByCast(w, s, Places(s));
  }

  lemma OnePlaceLess(s: nat, b: Word)
    requires 0 < s < 32 && b as int == s
    ensures b > 0 && Places(s - 1) == b - 1
  {
    assert (b - 1) as int == s - 1;
  }

  lemma ShiftTwice(w: Word, b: Word)
    requires 0 < b < 32
    ensures Shifted(w, b) == Shifted(w >> 1, b - 1) == Shifted(w, b - 1) >> 1
  {
  }

  lemma NoShift(w: Word)
    ensures Shifted(w, 0) == w
  {
  }

  /** Moving a word by n places, one place at a time. */
  function Moved(w: Word, n: nat): Word {
    if n == 0 then w else Moved(w >> 1, n - 1)
  }

  lemma {:induction false} MovedIsShift(w: Word, n: nat)
    requires n < 32
    ensures Places(n) < 32 && Moved(w, n) == Shifted(w, Places(n))
    decreases n
  {
    hide Places, Shifted;
    PlacesNumber(n);
    if n == 0 {
      NoPlaces();
      NoShift(w);
    } else {
      MovedIsShift(w >> 1, n - 1);
      OnePlaceLess(n, Places(n));
      ShiftTwice(w, Places(n));
    }
  }

  lemma NoPlaces()
    ensures Places(0) == 0
  {
  }

  lemma {:induction false} MovedSnoc(w: Word, n: nat)
    ensures Moved(w, n + 1) == Moved(w, n) >> 1
    decreases n
  {
    if n == 0 {
      assert Moved(w, 1) == Moved(w >> 1, 0);
    } else {
      MovedSnoc(w >> 1, n - 1);
    }
  }

  lemma MessageBitShift(w: Word, k: nat)
    requires k < 30
    ensures Places(29 - k) < 32 && MessageBit(w, k) == Low(Shifted(w, Places(29 - k)))
  {
    hide Places, Shifted;
    ShiftByPlaces(w, 29 - k);
  }

  /** A message bit is the lowest bit once those sent after it are moved out. */
  lemma MessageBitIs(w: Word, k: nat)
    requires k < 30
    ensures MessageBit(w, k) == Low(Moved(w, 29 - k))
  {
    hide Places, Shifted, Moved, MessageBit, Low;
    MovedIsShift(w, 29 - k);
    MessageBitShift(w, k);
  }

  // ------------------------------------------------------------ bits and numbers

  /** The number that bits spell, the first of them worth most. */
  function Spelled(bits: seq<bool>): nat {
    if bits == [] then 0 else 2 * Spelled(bits[..|bits| - 1]) + if bits[|bits| - 1] then 1 else 0
  }

  /** The first n bits of a word as they are sent. */
  function FirstBits(w: Word, n: nat): (bits: seq<bool>)
    requires n <= 30
    ensures |bits| == n
  {
    seq(n, k requires 0 <= k < n => MessageBit(w, k))
  }

  /** The first n of the 30 bits sent spell what the word holds above the last 30 - n. */
  lemma {:induction false} FirstBitsSpell(w: Word, n: nat)
    requires n <= 30
    ensures Spelled(FirstBits(w, n)) == FromWord(Moved(w, 30 - n), n)
    decreases n
  {
    hide MessageBit, Moved;
    if n == 0 {
    } else {
      FirstBitsSpell(w, n - 1);
      assert FirstBits(w, n)[..n - 1] == FirstBits(w, n - 1);
      MessageBitIs(w, n - 1);
      MovedSnoc(w, 30 - n);
    }
  }

  /** The 30 bits of a word, in the order they are sent, spell its number: bit k is worth 2^(29-k). */
  lemma WordSpelled(w: Word)
    ensures Spelled(FirstBits(w, 30)) == FromWord(w, 30)
  {
    FirstBitsSpell(w, 30);
  }

  lemma {:induction false} BitWorth(bits: seq<bool>, k: nat)
    requires k < |bits|
    ensures Spelled(bits[k := true]) == Spelled(bits[k := false]) + Pow2(|bits| - 1 - k)
    decreases |bits|
  {
    var n := |bits| - 1;
    if k == n {
      assert bits[k := true][..n] == bits[..n] == bits[k := false][..n];
    } else {
      BitWorth(bits[..n], k);
      assert bits[k := true][..n] == bits[..n][k := true] && bits[k := false][..n] == bits[..n][k := false];
    }
  }

  lemma MovedFew(w: Word)
    ensures Moved(w, 0) == w && Moved(w, 1) == w >> 1 && Moved(w, 2) == w >> 2
    ensures Moved(w, 3) == w >> 3 && Moved(w, 4) == w >> 4 && Moved(w, 5) == w >> 5
  {
    var a, b, c, d := w >> 1, w >> 2, w >> 3, w >> 4;
    Twice(w);
    assert Moved(w, 1) == Moved(a, 0) && Moved(w, 2) == Moved(a, 1) == Moved(b, 0);
    assert Moved(w, 3) == Moved(a, 2) == Moved(b, 1) == Moved(c, 0);
    assert Moved(w, 4) == Moved(a, 3) == Moved(b, 2) == Moved(c, 1) == Moved(d, 0);
    assert Moved(w, 5) == Moved(a, 4) == Moved(b, 3) == Moved(c, 2) == Moved(d, 1) == Moved(w >> 5, 0);
  }

  lemma Twice(w: Word)
    ensures (w >> 1) >> 1 == w >> 2 && (w >> 2) >> 1 == w >> 3 && (w >> 3) >> 1 == w >> 4 && (w >> 4) >> 1 == w >> 5
  {
  }

  /** The last six bits sent are the parity bits D25 to D30. */
  lemma ParityOnAir(w: Word)
    ensures MessageBit(w, 24) == D25(w) && MessageBit(w, 25) == D26(w) && MessageBit(w, 26) == D27(w)
    ensures MessageBit(w, 27) == D28(w) && MessageBit(w, 28) == D29(w) && MessageBit(w, 29) == D30(w)
  {
    hide MessageBit, Moved, Low, D25, D26, D27, D28, D29, D30;
    MovedFew(w);
    MessageBitIs(w, 24);
    MessageBitIs(w, 25);
    MessageBitIs(w, 26);
    MessageBitIs(w, 27);
    MessageBitIs(w, 28);
    MessageBitIs(w, 29);
    LowBits(w);
  }

  lemma LowBits(w: Word)
    ensures Low(w >> 5) == D25(w) && Low(w >> 4) == D26(w) && Low(w >> 3) == D27(w)
    ensures Low(w >> 2) == D28(w) && Low(w >> 1) == D29(w) && Low(w) == D30(w)
  {
  }

  // ------------------------------------------------------------ data bits

  /** What turning over or clearing the places below and above the data bits does to a data bit. */
  lemma InversionShift(w: Word, b: Word)
    requires 6 <= b < 30
    ensures Low(Shifted((w ^ 0x3FFFFFC0) & 0x3FFFFFC0, b)) == !Low(Shifted(w, b))
    ensures Low(Shifted(w & 0x3FFFFFC0, b)) == Low(Shifted(w, b))
  {
  }

  lemma KeptShift(w: Word, b: Word)
    requires 8 <= b < 30
    ensures Low(Shifted(w & 0x3FFFFF00, b)) == Low(Shifted(w, b))
  {
  }

  lemma PlacesFrom(s: nat, low: Word)
    requires s < 30 && low as int <= s && low < 30
    ensures low <= Places(s) < 30
  {
    PlacesNumber(s);
  }

  /** A data bit on the air is the bit a receiver recovers, turned over if the word before ended in a one. */
  lemma DataBitOnAir(prev: Word, w: Word, k: nat)
    requires k < 24
    ensures MessageBit(Recover(prev, w), k) == (MessageBit(w, k) != D30(prev))
  {
    hide MessageBit, Places, Shifted, Low, D30;
    MessageBitShift(w, k);
    MessageBitShift(Recover(prev, w), k);
    PlacesFrom(29 - k, 6);
    InversionShift(w, Places(29 - k));
  }

  lemma KeptBits(d: Word, e: Word, k: nat)
    requires Kept(d) == Kept(e) && k < 22
    ensures MessageBit(d, k) == MessageBit(e, k)
  {
    hide MessageBit, Places, Shifted, Low;
    MessageBitShift(d, k);
    MessageBitShift(e, k);
    PlacesFrom(29 - k, 8);
    KeptShift(d, Places(29 - k));
    KeptShift(e, Places(29 - k));
  }

  // ------------------------------------------------------------ the stream on the air

  /** The n bits from a place of the stream on, turned over if the bit before them is a one. */
  function Heard(words: seq<Word>, place: nat, n: nat): (bits: seq<bool>)
    requires 0 < place && place + n <= 30 * |words|
    ensures |bits| == n
  {
    seq(n, k requires 0 <= k < n => BitAt(words, place + k) != BitAt(words, place - 1))
  }

  lemma PlaceOfBit(i: nat, k: nat)
    requires k < 30
    ensures (30 * i + k) / 30 == i && (30 * i + k) % 30 == k
    ensures i > 0 ==> (30 * i - 1) / 30 == i - 1 && (30 * i - 1) % 30 == 29
  {
  }

  /** What is heard of a word are the first data bits a receiver recovers from it. */
  lemma HeardIsRecovered(words: seq<Word>, i: nat, n: nat)
    requires 0 < i < |words| && n <= 24
    ensures Heard(words, 30 * i, n) == FirstBits(Recover(words[i - 1], words[i]), n)
  {
    hide MessageBit, Recover, D30;
    PlaceOfBit(i, 0);
    ParityOnAir(words[i - 1]);
    forall k | 0 <= k < n
      ensures Heard(words, 30 * i, n)[k] == FirstBits(Recover(words[i - 1], words[i]), n)[k]
    {
      PlaceOfBit(i, k);
      DataBitOnAir(words[i - 1], words[i], k);
    }
  }

  lemma TowFieldMoved(d: Word)
    ensures FromWord(Moved(d, 13), 17) == TowNumber(d)
  {
    hide Moved, FromWord;
    MovedIsShift(d, 13);
    FieldOfShift(d);
    SeventeenOnes();
    MaskKeeps(d >> 13, 0x1FFFF, 17);
  }

  lemma FieldOfShift(d: Word)
    ensures Places(13) == 13 && Places(20) == 20
    ensures Shifted(d, 13) == d >> 13 && Shifted(d, 20) == d >> 20
  {
  }

  lemma WeekFieldMoved(d: Word)
    ensures FromWord(Moved(d, 20), 10) == WeekNumber(d)
  {
    hide Moved, FromWord;
    MovedIsShift(d, 20);
    FieldOfShift(d);
    TenOnes();
    MaskKeeps(d >> 20, 0x3FF, 10);
  }

  /** Over any run: the 17 bits sent from the start of word 2 of a subframe, turned over if the bit before them is a
      one, spell the TOW count, which is the standard's but for the last subframe of a week. */
  lemma TowOnAir(sbfs: Refreshes, start: Start, k: nat, j: nat)
    requires Usable(sbfs) && k < |sbfs| && j < 6 + 5 * k && start.frame < FRAMES_IN_WEEK
    ensures var tow := Spelled(Heard(Stream(sbfs, start, k), 300 * j + 30, 17));
            && tow == ReceivedTow(Stream(sbfs, start, k), j)
            && tow == if j > 0 && (5 * start.frame + j) % 100800 == 0 then 100800 else (5 * start.frame + j) % 100800
  {
    hide Stream, Recover, TowNumber, FromWord, Heard, FirstBits, Moved, Call, Turn, CallFrame;
    var stream := Stream(sbfs, start, k);
    var i := 10 * j + 1;
    var d := Recover(stream[i - 1], stream[i]);
    assert 30 * i == 300 * j + 30;
    HeardIsRecovered(stream, i, 17);
    FirstBitsSpell(d, 17);
    TowFieldMoved(d);
    TowMatchesStandardIff(sbfs, start, k, j);
    CountsOfFrame(start, j);
  }

  /** And the 10 bits from the start of word 3 of every first subframe spell the week number. */
  lemma WeekOnAir(sbfs: Refreshes, start: Start, k: nat, c: nat)
    requires Usable(sbfs) && c <= k < |sbfs|
    ensures Spelled(Heard(Stream(sbfs, start, k), 1500 * c + 360, 10)) == CallWeek(start, c) % 1024
  {
    hide Stream, Recover, WeekNumber, FromWord, Heard, FirstBits, Moved, CallWeek;
    var stream := Stream(sbfs, start, k);
    var i := 50 * c + 12;
    var d := Recover(stream[i - 1], stream[i]);
    assert 30 * i == 1500 * c + 360;
    HeardIsRecovered(stream, i, 10);
    FirstBitsSpell(d, 10);
    WeekFieldMoved(d);
    WeekReceived(sbfs, start, k, c);
  }

  /** Every data bit on the air, but for the two that are solved for in words 2 and 10, is the source word's. */
  lemma SourceOnAir(sbfs: Refreshes, start: Start, k: nat, i: nat, b: nat)
    requires Usable(sbfs) && k < |sbfs| && 0 < i < 60 + 50 * k
    requires b < if i % 10 == 1 || i % 10 == 9 then 22 else 24
    ensures Call(i / 10) <= k
    ensures var source := Source(sbfs[Call(i / 10)], Turn(i / 10), i % 10, SentWeek(start, i / 10),
                                 SentTow(start, i / 10));
            Heard(Stream(sbfs, start, k), 30 * i, 24)[b] == MessageBit(source, b)
  {
    hide Stream, Recover, MessageBit, Kept, Data, Source, Heard, ParityHolds, TowNumber, WeekNumber, D29, D30, SentTow,
         SentWeek;
    var stream := Stream(sbfs, start, k);
    StreamReceived(sbfs, start, k, i);
    HeardIsRecovered(stream, i, 24);
    var source := Source(sbfs[Call(i / 10)], Turn(i / 10), i % 10, SentWeek(start, i / 10), SentTow(start, i / 10));
    var d := Recover(stream[i - 1], stream[i]);
    if b < 22 {
      KeptBits(d, source, b);
    } else {
      DataBits(source, b);
    }
  }

  lemma DataBits(source: Word, k: nat)
    requires k < 24
    ensures MessageBit(Data(source), k) == MessageBit(source, k)
  {
    hide MessageBit, Places, Shifted, Low;
    MessageBitShift(source, k);
    MessageBitShift(Data(source), k);
    PlacesFrom(29 - k, 6);
    InversionShift(source, Places(29 - k));
  }
}
