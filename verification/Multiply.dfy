/** The 32 by 32 bit multiplication of code/machine/mipssim.cc. */
module Multiply {
  import opened Bytes
  import opened Bitmaps

  /** A double word. */
  function Wide(hi: Word, lo: Word): (n: nat)
  {
    hi * WORD_VALUES + lo
  }

  /** C's `-a` on 32-bit integers: the most negative one is its own negation. */
  function Negate(a: Int32): (r: Int32)
    ensures a != -0x8000_0000 ==> r == -a
    ensures ToWord(r) == (WORD_VALUES - ToWord(a)) % WORD_VALUES
  {
    if a == -0x8000_0000 then a else -a
  }

  lemma WideBelow(x: nat, y: nat)
    requires x < WORD_VALUES && y < WORD_VALUES
    ensures x * y < WORD_VALUES * WORD_VALUES
  {
    MulMonotonic(x, y, WORD_VALUES);
    assert x * WORD_VALUES < WORD_VALUES * WORD_VALUES;
  }

  /** Adding two double words, low half first, with the carry found by comparing. */
  method AddWide(hi: Word, lo: Word, bHi: Word, bLo: Word) returns (hi': Word, lo': Word)
    requires Wide(hi, lo) + Wide(bHi, bLo) < WORD_VALUES * WORD_VALUES
    ensures Wide(hi', lo') == Wide(hi, lo) + Wide(bHi, bLo)
  {
    hi' := hi;
    lo' := (lo + bLo) % WORD_VALUES;
    if lo' < bLo {
      hi' := (hi' + 1) % WORD_VALUES;
    }
    hi' := (hi' + bHi) % WORD_VALUES;
  }

  /** Shifting a double word left by one. */
  method ShiftWide(bHi: Word, bLo: Word) returns (bHi': Word, bLo': Word)
    requires 2 * Wide(bHi, bLo) < WORD_VALUES * WORD_VALUES
    ensures Wide(bHi', bLo') == 2 * Wide(bHi, bLo)
  {
    bHi' := (2 * bHi) % WORD_VALUES;
    if bLo >= 0x8000_0000 {
      bHi' := bHi' + 1;
    }
    bLo' := (2 * bLo) % WORD_VALUES;
  }

  /** Two's complement of a double word: invert both halves, then add one. */
  method NegateWide(hi: Word, lo: Word) returns (hi': Word, lo': Word)
    ensures Wide(hi', lo') == if Wide(hi, lo) == 0 then 0 else WORD_VALUES * WORD_VALUES - Wide(hi, lo)
  {
    hi', lo' := WORD_VALUES - 1 - hi, WORD_VALUES - 1 - lo;
    lo' := (lo' + 1) % WORD_VALUES;
    if lo' == 0 {
      hi' := (hi' + 1) % WORD_VALUES;
    }
  }

  /** The state of the loop: `sum` so far, `wide` still to be added `r` times, `a` the signed view of `r`. */
  ghost predicate Progress(a: int, r: nat, i: nat, wide: nat, sum: nat, x: nat, y: nat)
  {
    && i <= 32 && r < Pow2(32 - i)
    && (a == r || a == r - Pow2(32 - i))
    && wide == y * Pow2(i)
    && sum + wide * r == x * y
  }

  /** What one round may assume: the sum still fits, the shift still fits, and the low bit of `a` is that of `r`. */
  lemma Room(a: int, r: nat, i: nat, wide: nat, sum: nat, x: nat, y: nat)
    requires Progress(a, r, i, wide, sum, x, y) && i < 32 && x < WORD_VALUES && y < WORD_VALUES
    ensures r % 2 == a % 2
    ensures r >= 1 ==> sum + wide < WORD_VALUES * WORD_VALUES
    ensures 2 * wide < WORD_VALUES * WORD_VALUES
    ensures a == 1 ==> r == 1
  {
    assert Pow2(32 - i) == 2 * Pow2(31 - i);
    WideBelow(x, y);
    if r >= 1 {
      MulMonotonic(wide, 1, r);
    }
    ShiftFits(y, i);
  }

  lemma {:induction false} ShiftFits(y: nat, i: nat)
    requires y < WORD_VALUES && i < 32
    ensures 2 * (y * Pow2(i)) < WORD_VALUES * WORD_VALUES
  {
    Pow2Monotonic(i + 1, 32);
    WordWidth();
    MulMonotonic(y, Pow2(i + 1), WORD_VALUES);
    Twice(y, Pow2(i), Pow2(i + 1));
    assert y * WORD_VALUES < WORD_VALUES * WORD_VALUES;
  }

  lemma {:induction false} Pow2Monotonic(i: nat, j: nat)
    requires i <= j
    ensures Pow2(i) <= Pow2(j)
  {
    if i < j {
      Pow2Monotonic(i, j - 1);
    }
  }

  /** One round: the low bit of `r` is used up. */
  lemma NextRound(a: int, r: nat, i: nat, wide: nat, sum: nat, x: nat, y: nat)
    requires Progress(a, r, i, wide, sum, x, y) && i < 32
    ensures Progress(a / 2, r / 2, i + 1, 2 * wide, if r % 2 == 1 then sum + wide else sum, x, y)
  {
    assert Pow2(32 - i) == 2 * Pow2(31 - i);
    HalveSigned(a, r, Pow2(31 - i));
    Twice(y, Pow2(i), Pow2(i + 1));
    Halve(wide, r);
  }

  lemma HalveSigned(a: int, r: nat, p: nat)
    requires r < 2 * p && (a == r || a == r - 2 * p)
    ensures r / 2 < p && (a / 2 == r / 2 || a / 2 == r / 2 - p)
  {
  }

  lemma Twice(y: nat, p: nat, q: nat)
    requires q == 2 * p
    ensures y * q == 2 * (y * p)
  {
  }

  lemma Halve(wide: nat, r: nat)
    ensures wide * r == (2 * wide) * (r / 2) + if r % 2 == 1 then wide else 0
  {
    var h := r / 2;
    Twice(wide, h, 2 * h);
    assert (2 * wide) * h == 2 * (wide * h);
  }

  /** The main loop, on operands taken as unsigned; `a` is shifted as a signed integer. */
  method MultiplyUnsigned(a: Int32, b: Int32) returns (hi: Word, lo: Word)
    ensures Wide(hi, lo) == ToWord(a) * ToWord(b)
  {
    var bits: int, bLo: Word, bHi: Word := a, ToWord(b), 0;
    ghost var r: nat := ToWord(a);
    lo, hi := 0, 0;
    WordWidth();
    var i := 0;
    while i < 32
      invariant Progress(bits, r, i, Wide(bHi, bLo), Wide(hi, lo), ToWord(a), ToWord(b))
      decreases 32 - i
    {
      Room(bits, r, i, Wide(bHi, bLo), Wide(hi, lo), ToWord(a), ToWord(b));
      NextRound(bits, r, i, Wide(bHi, bLo), Wide(hi, lo), ToWord(a), ToWord(b));
      if bits % 2 == 1 {
        hi, lo := AddWide(hi, lo, bHi, bLo);
        if bits == 0 || bits == 1 {
          break;
        }
      }
      bHi, bLo := ShiftWide(bHi, bLo);
      bits := bits / 2;
      r := r / 2;
      i := i + 1;
    }
  }

  /** The double word, read as signed or unsigned, is the exact product. */
  method Mult(a: Int32, b: Int32, signedArith: bool) returns (hi: Int32, lo: Int32)
    ensures signedArith ==> hi * WORD_VALUES + ToWord(lo) == a * b
    ensures !signedArith ==> ToWord(hi) * WORD_VALUES + ToWord(lo) == ToWord(a) * ToWord(b)
  {
    if a == 0 || b == 0 {
      return 0, 0;
    }
    var negative := false;
    var x, y := a, b;
    if signedArith {
      if x < 0 {
        negative := !negative;
        x := Negate(x);
      }
      if y < 0 {
        negative := !negative;
        y := Negate(y);
      }
    }
    var uHi, uLo := MultiplyUnsigned(x, y);
    if signedArith {
      SignedProduct(a, b, x, y);
    }
    if negative {
      uHi, uLo := NegateWide(uHi, uLo);
    }
    hi, lo := FromWord(uHi), FromWord(uLo);
  }

  /** The magnitudes multiply to the magnitude of the product, which fits a signed double word. */
  lemma SignedProduct(a: Int32, b: Int32, x: Int32, y: Int32)
    requires a != 0 && b != 0
    requires x == if a < 0 then Negate(a) else a
    requires y == if b < 0 then Negate(b) else b
    ensures ToWord(x) * ToWord(y) == if (a < 0) == (b < 0) then a * b else -(a * b)
    ensures 0 < ToWord(x) * ToWord(y) <= 0x8000_0000 * 0x8000_0000
  {
    var m: int, n: int := a, b;
    var p: nat, q: nat := if m < 0 then -m else m, if n < 0 then -n else n;
    assert ToWord(x) == p && ToWord(y) == q;
    MulMonotonic(p, q, 0x8000_0000);
    MulMonotonic(0x8000_0000, p, 0x8000_0000);
    assert p * q == if (a < 0) == (b < 0) then a * b else -(a * b);
    MulMonotonic(p, 1, q);
  }
}
