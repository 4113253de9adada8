/** The 64-bit words the grid cursor keeps its marks in, read one bit at a time.
    Every fact about a shift is reduced to a shift by one. */
module Words {

  const WORD_BITS := 64

  predicate Odd(w: bv64) { w & 1 == 1 }

  function Half(w: bv64): bv64 { w >> 1 }

  /** Bit k of w, bit 0 lowest. */
  ghost predicate Bit(w: bv64, k: nat) {
    if k == 0 then Odd(w) else Bit(Half(w), k - 1)
  }

  /** The word holding bit k alone: 1 << k. */
  function One(k: nat): bv64
    requires k < WORD_BITS
  {
    if k == 0 then 1 else One(k - 1) << 1
  }

  /** math/bits.TrailingZeros64 on a non-zero word. */
  function TrailingZeros(w: bv64): (k: nat)
    requires w != 0
    decreases w
  {
    if Odd(w) then 0
    else
      HalfSmaller(w);
      1 + TrailingZeros(Half(w))
  }

  lemma HalfSmaller(w: bv64)
    requires w != 0
    ensures Half(w) < w
    ensures !Odd(w) ==> Half(w) != 0
  {}

  lemma OrHalf(w: bv64, b: bv64)
    ensures Half(w | b) == Half(w) | Half(b)
    ensures Odd(w | b) <==> Odd(w) || Odd(b)
  {}

  lemma AndHalf(w: bv64, b: bv64)
    ensures Half(w & b) == Half(w) & Half(b)
    ensures Odd(w & b) <==> Odd(w) && Odd(b)
  {}

  lemma DoubleHalf(w: bv64)
    requires w <= 0x7FFF_FFFF_FFFF_FFFF
    ensures Half(w << 1) == w
  {}

  lemma DoubleEven(w: bv64)
    ensures !Odd(w << 1)
  {}

  lemma ClearHalf(w: bv64)
    requires w != 0
    ensures !Odd(w & (w - 1))
    ensures Odd(w) ==> Half(w & (w - 1)) == Half(w)
    ensures !Odd(w) ==> Half(w) != 0 && Half(w & (w - 1)) == Half(w) & (Half(w) - 1)
  {}

  lemma {:induction false} ZeroBits(k: nat)
    ensures !Bit(0, k)
  {
    if k > 0 {
      assert Half(0) == 0;
      ZeroBits(k - 1);
    }
  }

  lemma ShiftEight(w: bv64)
    ensures Half(Half(Half(Half(Half(Half(Half(Half(w)))))))) == w >> 8
  {}

  lemma BitHalf(w: bv64, k: nat)
    ensures Bit(w, k + 1) == Bit(Half(w), k)
  {}

  lemma BitEight(w: bv64, k: nat)
    ensures Bit(w, k + 8) == Bit(w >> 8, k)
  {
    var w1 := Half(w); BitHalf(w, k + 7);
    var w2 := Half(w1); BitHalf(w1, k + 6);
    var w3 := Half(w2); BitHalf(w2, k + 5);
    var w4 := Half(w3); BitHalf(w3, k + 4);
    var w5 := Half(w4); BitHalf(w4, k + 3);
    var w6 := Half(w5); BitHalf(w5, k + 2);
    var w7 := Half(w6); BitHalf(w6, k + 1);
    BitHalf(w7, k);
    ShiftEight(w);
  }

  lemma BitSixteen(w: bv64, k: nat)
    ensures Bit(w, k + 16) == Bit(w >> 16, k)
  {
    BitEight(w, k + 8);
    BitEight(w >> 8, k);
    assert w >> 8 >> 8 == w >> 16;
  }

  lemma BitThirtyTwo(w: bv64, k: nat)
    ensures Bit(w, k + 32) == Bit(w >> 32, k)
  {
    BitSixteen(w, k + 16);
    BitSixteen(w >> 16, k);
    assert w >> 16 >> 16 == w >> 32;
  }

  lemma ShiftTop(w: bv64)
    requires w > 0x7FFF_FFFF_FFFF_FFFF
    ensures Odd(Half(Half(Half(Half(Half(Half(Half(w >> 32 >> 16 >> 8))))))))
  {}

  /** The top bit of a word is bit 63. */
  lemma TopBit(w: bv64)
    requires w > 0x7FFF_FFFF_FFFF_FFFF
    ensures Bit(w, 63)
  {
    ShiftTop(w);
    var w0 := w >> 32 >> 16 >> 8;
    var w1 := Half(w0); BitHalf(w0, 6);
    var w2 := Half(w1); BitHalf(w1, 5);
    var w3 := Half(w2); BitHalf(w2, 4);
    var w4 := Half(w3); BitHalf(w3, 3);
    var w5 := Half(w4); BitHalf(w4, 2);
    var w6 := Half(w5); BitHalf(w5, 1);
    BitHalf(w6, 0);
    BitEight(w >> 32 >> 16, 7);
    BitSixteen(w >> 32, 15);
    BitThirtyTwo(w, 31);
  }

  /** A word has no bit past its width. */
  lemma BitBelow(w: bv64, k: nat)
    requires Bit(w, k)
    ensures k < WORD_BITS
  {
    if k >= WORD_BITS {
      BitThirtyTwo(w, k - 32);
      BitThirtyTwo(w >> 32, k - 64);
      ShiftOut(w);
      ZeroBits(k - 64);
    }
  }

  lemma ShiftOut(w: bv64)
    ensures w >> 32 >> 32 == 0
  {}

  /** The lowest set bit is set, lies within the word, and nothing below it is set. */
  lemma {:induction false} LowestBit(w: bv64)
    requires w != 0
    ensures Bit(w, TrailingZeros(w))
    ensures TrailingZeros(w) < WORD_BITS
    ensures forall j: nat :: j < TrailingZeros(w) ==> !Bit(w, j)
    decreases w
  {
    if !Odd(w) {
      HalfSmaller(w);
      LowestBit(Half(w));
    }
    BitBelow(w, TrailingZeros(w));
  }

  lemma {:induction false} OrBit(w: bv64, b: bv64, j: nat)
    ensures Bit(w | b, j) <==> Bit(w, j) || Bit(b, j)
    decreases j
  {
    OrHalf(w, b);
    if j > 0 {
      OrBit(Half(w), Half(b), j - 1);
    }
  }

  lemma OneZero(j: nat)
    ensures Bit(1, j) <==> j == 0
  {
    if j > 0 {
      assert Half(1) == 0;
      ZeroBits(j - 1);
    }
  }

  lemma {:induction false} OneBit(k: nat, j: nat)
    requires k < WORD_BITS
    ensures Bit(One(k), j) <==> j == k
    decreases k
  {
    if k == 0 {
      OneZero(j);
    } else {
      var w := One(k - 1);
      OneBit(k - 1, 63);
      if w > 0x7FFF_FFFF_FFFF_FFFF {
        TopBit(w);
      }
      DoubleHalf(w);
      DoubleEven(w);
      if j > 0 {
        OneBit(k - 1, j - 1);
      }
    }
  }

  /** b holds bit k alone. */
  ghost predicate IsOne(b: bv64, k: nat) {
    forall j: nat :: Bit(b, j) <==> j == k
  }

  /** The mask of bit k: uint64(1) << k. */
  method Mask(k: nat) returns (b: bv64)
    requires k < WORD_BITS
    ensures IsOne(b, k)
  {
    b := One(k);
    forall j: nat
      ensures Bit(b, j) <==> j == k
    {
      OneBit(k, j);
    }
  }

  /** Oring a single bit in sets that bit and no other. */
  lemma SetBit(w: bv64, b: bv64, k: nat)
    requires IsOne(b, k)
    ensures forall j: nat :: Bit(w | b, j) <==> Bit(w, j) || j == k
  {
    forall j: nat
      ensures Bit(w | b, j) <==> Bit(w, j) || j == k
    {
      OrBit(w, b, j);
    }
  }

  lemma NonZero(w: bv64, k: nat)
    requires Bit(w, k)
    ensures w != 0
  {
    ZeroBits(k);
  }

  lemma {:induction false} AndBit(w: bv64, b: bv64, j: nat)
    ensures Bit(w & b, j) <==> Bit(w, j) && Bit(b, j)
    decreases j
  {
    AndHalf(w, b);
    if j > 0 {
      AndBit(Half(w), Half(b), j - 1);
    }
  }

  /** Masking with a single bit tests that bit. */
  lemma TestBit(w: bv64, b: bv64, k: nat)
    requires IsOne(b, k)
    ensures w & b != 0 <==> Bit(w, k)
  {
    var m := w & b;
    AndBit(w, b, k);
    if Bit(w, k) {
      NonZero(m, k);
    } else if m != 0 {
      LowestBit(m);
      AndBit(w, b, TrailingZeros(m));
    }
  }

  /** w & (w - 1) drops the lowest set bit and keeps the rest. */
  lemma {:induction false} ClearLowest(w: bv64, j: nat)
    requires w != 0
    ensures Bit(w & (w - 1), j) <==> Bit(w, j) && j != TrailingZeros(w)
    decreases j
  {
    ClearHalf(w);
    if j > 0 && !Odd(w) {
      ClearLowest(Half(w), j - 1);
    }
  }
}
