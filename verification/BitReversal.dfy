/** Reversing the bits of a number with a 256-byte table, as the power-of-two digit of the index table needs it. */
module BitReversal {
  import opened Nonlinear
  import opened MixedRadix
  import opened DftFactorize

  /** m binary digits. */
  function Twos(m: nat): (fs: seq<int>)
    ensures |fs| == m
    ensures forall k :: 0 <= k < m ==> fs[k] == 2
  {
    seq(m, _ => 2)
  }

  lemma TwosSplit(a: nat, b: nat)
    ensures Twos(a + b) == Twos(a) + Twos(b)
  {
  }

  lemma {:induction false} ProductTwos(m: nat)
    ensures Product(Twos(m)) == Pow(2, m)
  {
    if m > 0 {
      assert Twos(m)[1..] == Twos(m - 1);
      ProductTwos(m - 1);
    }
  }

  // ---- the table ----

  /** Sixteen entries that differ only in their reversed low nibble. */
  function RowOver(low: nat): (row: seq<nat>)
    ensures |row| == 16
  {
    [low, low + 0x80, low + 0x40, low + 0xc0, low + 0x20, low + 0xa0, low + 0x60, low + 0xe0, low + 0x10, low + 0x90,
      low + 0x50, low + 0xd0, low + 0x30, low + 0xb0, low + 0x70, low + 0xf0]
  }

  /** The four bits of x in reverse. */
  function Nibble(x: nat): nat {
    8 * (x % 2) + 4 * (x / 2 % 2) + 2 * (x / 4 % 2) + x / 8 % 2
  }

  /** The four bits of each nibble in reverse. */
  const NIBBLES: seq<nat> := [0x0, 0x8, 0x4, 0xc, 0x2, 0xa, 0x6, 0xe, 0x1, 0x9, 0x5, 0xd, 0x3, 0xb, 0x7, 0xf]

  lemma NibblesAt(r: nat)
    requires r < 16
    ensures NIBBLES[r] == Nibble(r)
  {
  }

  /** bitrevTab, sixteen entries to a row; the result says that the row number is reversed into the low nibble. */
  function BitrevRow(r: nat): (row: seq<nat>)
    requires r < 16
    ensures row == RowOver(NIBBLES[r])
  {
    if r == 0 then
      [0x00, 0x80, 0x40, 0xc0, 0x20, 0xa0, 0x60, 0xe0,
        0x10, 0x90, 0x50, 0xd0, 0x30, 0xb0, 0x70, 0xf0]
    else if r == 1 then
      [0x08, 0x88, 0x48, 0xc8, 0x28, 0xa8, 0x68, 0xe8,
        0x18, 0x98, 0x58, 0xd8, 0x38, 0xb8, 0x78, 0xf8]
    else if r == 2 then
      [0x04, 0x84, 0x44, 0xc4, 0x24, 0xa4, 0x64, 0xe4,
        0x14, 0x94, 0x54, 0xd4, 0x34, 0xb4, 0x74, 0xf4]
    else if r == 3 then
      [0x0c, 0x8c, 0x4c, 0xcc, 0x2c, 0xac, 0x6c, 0xec,
        0x1c, 0x9c, 0x5c, 0xdc, 0x3c, 0xbc, 0x7c, 0xfc]
    else if r == 4 then
      [0x02, 0x82, 0x42, 0xc2, 0x22, 0xa2, 0x62, 0xe2,
        0x12, 0x92, 0x52, 0xd2, 0x32, 0xb2, 0x72, 0xf2]
    else if r == 5 then
      [0x0a, 0x8a, 0x4a, 0xca, 0x2a, 0xaa, 0x6a, 0xea,
        0x1a, 0x9a, 0x5a, 0xda, 0x3a, 0xba, 0x7a, 0xfa]
    else if r == 6 then
      [0x06, 0x86, 0x46, 0xc6, 0x26, 0xa6, 0x66, 0xe6,
        0x16, 0x96, 0x56, 0xd6, 0x36, 0xb6, 0x76, 0xf6]
    else if r == 7 then
      [0x0e, 0x8e, 0x4e, 0xce, 0x2e, 0xae, 0x6e, 0xee,
        0x1e, 0x9e, 0x5e, 0xde, 0x3e, 0xbe, 0x7e, 0xfe]
    else if r == 8 then
      [0x01, 0x81, 0x41, 0xc1, 0x21, 0xa1, 0x61, 0xe1,
        0x11, 0x91, 0x51, 0xd1, 0x31, 0xb1, 0x71, 0xf1]
    else if r == 9 then
      [0x09, 0x89, 0x49, 0xc9, 0x29, 0xa9, 0x69, 0xe9,
        0x19, 0x99, 0x59, 0xd9, 0x39, 0xb9, 0x79, 0xf9]
    else if r == 10 then
      [0x05, 0x85, 0x45, 0xc5, 0x25, 0xa5, 0x65, 0xe5,
        0x15, 0x95, 0x55, 0xd5, 0x35, 0xb5, 0x75, 0xf5]
    else if r == 11 then
      [0x0d, 0x8d, 0x4d, 0xcd, 0x2d, 0xad, 0x6d, 0xed,
        0x1d, 0x9d, 0x5d, 0xdd, 0x3d, 0xbd, 0x7d, 0xfd]
    else if r == 12 then
      [0x03, 0x83, 0x43, 0xc3, 0x23, 0xa3, 0x63, 0xe3,
        0x13, 0x93, 0x53, 0xd3, 0x33, 0xb3, 0x73, 0xf3]
    else if r == 13 then
      [0x0b, 0x8b, 0x4b, 0xcb, 0x2b, 0xab, 0x6b, 0xeb,
        0x1b, 0x9b, 0x5b, 0xdb, 0x3b, 0xbb, 0x7b, 0xfb]
    else if r == 14 then
      [0x07, 0x87, 0x47, 0xc7, 0x27, 0xa7, 0x67, 0xe7,
        0x17, 0x97, 0x57, 0xd7, 0x37, 0xb7, 0x77, 0xf7]
    else
      [0x0f, 0x8f, 0x4f, 0xcf, 0x2f, 0xaf, 0x6f, 0xef,
        0x1f, 0x9f, 0x5f, 0xdf, 0x3f, 0xbf, 0x7f, 0xff]
  }

  function BitrevTab(x: nat): nat
    requires x < 256
  {
    BitrevRow(x / 16)[x % 16]
  }

  lemma RowOverAt(low: nat, c: nat)
    requires c < 16
    ensures RowOver(low)[c] == Nibble(c) * 16 + low
  {
    if c < 8 {
      RowOverLow(low, c);
    } else {
      RowOverHigh(low, c);
    }
  }

  lemma RowOverLow(low: nat, c: nat)
    requires c < 8
    ensures RowOver(low)[c] == Nibble(c) * 16 + low
  {
  }

  lemma RowOverHigh(low: nat, c: nat)
    requires 8 <= c < 16
    ensures RowOver(low)[c] == Nibble(c) * 16 + low
  {
  }

  lemma PairReversal(x: nat)
    requires x < 4
    ensures Reversal(Twos(2), x) == 2 * (x % 2) + x / 2
  {
    assert Twos(2)[1..] == [2];
    ReversalOne(2, x / 2);
  }

  lemma NibbleOfPairs(x: nat)
    requires x < 16
    ensures Nibble(x) == (2 * (x % 4 % 2) + x % 4 / 2) * 4 + (2 * (x / 4 % 2) + x / 4 / 2)
  {
    assert x == 8 * (x / 8) + 4 * (x / 4 % 2) + 2 * (x / 2 % 2) + x % 2;
    assert x / 4 % 2 == x / 4 - 2 * (x / 8) && x / 4 / 2 == x / 8 && x / 8 % 2 == x / 8;
    assert x % 4 % 2 == x % 2 && x % 4 / 2 == x / 2 % 2;
  }

  /** Bits split into a low and a high part: each part is reversed, and the parts change places. */
  lemma BitsSplit(a: nat, b: nat, low: nat, high: nat)
    requires low < Pow(2, a)
    ensures high * Pow(2, a) + low >= 0
    ensures Reversal(Twos(a + b), high * Pow(2, a) + low)
            == Reversal(Twos(a), low) * Pow(2, b) + Reversal(Twos(b), high)
  {
    TwosSplit(a, b);
    ProductTwos(a);
    ProductTwos(b);
    ReversalSplit(Twos(a), Twos(b), low, high);
  }

  lemma NibbleReversal(x: nat)
    requires x < 16
    ensures Reversal(Twos(4), x) == Nibble(x)
  {
    hide *;
    SmallPowers();
    NibbleOfPairs(x);
    PairReversal(x % 4);
    PairReversal(x / 4);
    BitsSplit(2, 2, x % 4, x / 4);
  }

  lemma SmallPowers()
    ensures Pow(2, 0) == 1 && Pow(2, 1) == 2 && Pow(2, 2) == 4 && Pow(2, 3) == 8 && Pow(2, 4) == 16
    ensures Pow(2, 8) == 256
  {
    assert Pow(2, 5) == 32;
    assert Pow(2, 6) == 64;
    assert Pow(2, 7) == 128;
  }

  /** Every entry of the table is its index with the eight bits reversed. */
  lemma TableReverses(x: nat)
    requires x < 256
    ensures BitrevTab(x) == Reversal(Twos(8), x)
  {
    hide Reversal, Twos, Pow, Nibble, BitrevRow, RowOver;
    var c, r := x % 16, x / 16;
    NibblesAt(r);
    RowOverAt(Nibble(r), c);
    NibbleReversal(c);
    NibbleReversal(r);
    SmallPowers();
    BitsSplit(4, 4, c, r);
  }

  /** A 32-bit word put together from four table look-ups, the lowest byte on top. */
  function Word(a: nat, b: nat, c: nat, d: nat): nat
    requires a < 256 && b < 256 && c < 256 && d < 256
  {
    BitrevTab(a) * 0x100_0000 + BitrevTab(b) * 0x1_0000 + BitrevTab(c) * 0x100 + BitrevTab(d)
  }

  function ShiftRight(x: nat, k: nat): nat {
    if k == 0 then x else ShiftRight(x / 2, k - 1)
  }

  lemma {:induction false} ShiftMultiple(v: nat, k: nat)
    ensures v * Pow(2, k) >= 0 && ShiftRight(v * Pow(2, k), k) == v
  {
    if k > 0 {
      var p := Pow(2, k - 1);
      ShiftMultiple(v, k - 1);
      assert v * (2 * p) == 2 * (v * p);
    }
  }

  /** The BitRev macro. */
  function BitRev(i: nat, shift: nat): nat
    requires i < 0x1_0000_0000
  {
    ShiftRight(Word(i % 256, i / 0x100 % 256, i / 0x1_0000 % 256, i / 0x100_0000), shift)
  }

  lemma SixteenBits(i: nat)
    requires i < 0x1_0000
    ensures Reversal(Twos(16), i) == BitrevTab(i % 256) * 256 + BitrevTab(i / 256)
  {
    hide Reversal, Twos, Pow, BitrevTab;
    SmallPowers();
    TableReverses(i % 256);
    TableReverses(i / 256);
    BitsSplit(8, 8, i % 256, i / 256);
  }

  lemma PowTimes(a: nat, b: nat)
    ensures Pow(2, a + b) == Pow(2, a) * Pow(2, b)
  {
    TwosSplit(a, b);
    ProductTwos(a + b);
    ProductTwos(a);
    ProductTwos(b);
    ProductConcat(Twos(a), Twos(b));
  }

  lemma Halves(i: nat)
    ensures i % 0x1_0000 % 256 == i % 256 && i % 0x1_0000 / 256 == i / 0x100 % 256
    ensures i / 0x1_0000 / 256 == i / 0x100_0000
  {
    DivModProduct(i, 256, 256);
    DivModProduct(i, 0x1_0000, 256);
    DivModUnique(i % 0x1_0000, 256, i / 0x100 % 256, i % 256);
  }

  lemma ThirtyTwoBits(i: nat)
    requires i < 0x1_0000_0000
    ensures Reversal(Twos(32), i) == Word(i % 256, i / 0x100 % 256, i / 0x1_0000 % 256, i / 0x100_0000)
  {
    hide Reversal, Twos, Pow, BitrevTab;
    Halves(i);
    SmallPowers();
    PowTimes(8, 8);
    SixteenBits(i % 0x1_0000);
    SixteenBits(i / 0x1_0000);
    BitsSplit(16, 16, i % 0x1_0000, i / 0x1_0000);
  }

  /** A number of b bits, reversed over more bits and shifted back, is reversed over its own. */
  lemma ReverseAndShift(b: nat, wide: nat, x: nat)
    requires x < Pow(2, b) && b <= wide
    ensures ShiftRight(Reversal(Twos(wide), x), wide - b) == Reversal(Twos(b), x)
  {
    hide Reversal, Pow, ShiftRight;
    BitsSplit(b, wide - b, x, 0);
    ReversalZero(Twos(wide - b));
    ShiftMultiple(Reversal(Twos(b), x), wide - b);
  }

  lemma BitRevReverses(i: nat, b: nat)
    requires b <= 32 && i < Pow(2, b) && i < 0x1_0000_0000
    ensures BitRev(i, 32 - b) == Reversal(Twos(b), i)
  {
    hide Reversal, Twos, Pow, Word, ShiftRight;
    ThirtyTwoBits(i);
    ReverseAndShift(b, 32, i);
  }

  lemma ByteReverses(i: nat, b: nat)
    requires b <= 8 && i < Pow(2, b) && i < 256
    ensures ShiftRight(BitrevTab(i), 8 - b) == Reversal(Twos(b), i)
  {
    TableReverses(i);
    ReverseAndShift(b, 8, i);
  }
}
