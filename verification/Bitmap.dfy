/** The bitmap of code/lib/bitmap.cc: an array of 32-bit words used to hand out numbered items. */
module Bitmaps {
  import opened Bytes

  const BITS_IN_WORD: nat := 32

  function Pow2(n: nat): (p: nat)
  {
    if n == 0 then 1 else 2 * Pow2(n - 1)
  }

  lemma WordWidth()
    ensures Pow2(BITS_IN_WORD) == 0x1_0000_0000
  {
    assert Pow2(8) == 0x100;
    assert Pow2(16) == 0x1_0000;
    assert Pow2(24) == 0x100_0000;
    assert Pow2(32) == 0x1_0000_0000;
  }

  /** `w & (1 << b)` is not zero. */
  predicate HasBit(w: nat, b: nat)
  {
    if b == 0 then w % 2 == 1 else HasBit(w / 2, b - 1)
  }

  /** `w | (1 << b)`. */
  function SetBit(w: nat, b: nat): (r: nat)
  {
    if b == 0 then w - w % 2 + 1 else 2 * SetBit(w / 2, b - 1) + w % 2
  }

  /** `w & ~(1 << b)`. */
  function ClearBit(w: nat, b: nat): (r: nat)
    ensures r <= w
  {
    if b == 0 then w - w % 2 else 2 * ClearBit(w / 2, b - 1) + w % 2
  }

  lemma {:induction false} SetBitFits(w: nat, b: nat, width: nat)
    requires b < width && w < Pow2(width)
    ensures SetBit(w, b) < Pow2(width)
  {
    var half := Pow2(width - 1);
    assert Pow2(width) == 2 * half;
    HalfFits(w, half);
    if b > 0 {
      var high := SetBit(w / 2, b - 1);
      SetBitFits(w / 2, b - 1, width - 1);
      assert high <= half - 1;
      assert SetBit(w, b) == 2 * high + w % 2;
    }
  }

  lemma HalfFits(w: nat, half: nat)
    requires w < 2 * half
    ensures w / 2 < half && w - w % 2 + 1 < 2 * half
  {
  }

  lemma {:induction false} SetBitSetsOne(w: nat, b: nat, c: nat)
    ensures HasBit(SetBit(w, b), c) <==> b == c || HasBit(w, c)
  {
    if b > 0 && c > 0 {
      SetBitSetsOne(w / 2, b - 1, c - 1);
    }
  }

  lemma {:induction false} ClearBitClearsOne(w: nat, b: nat, c: nat)
    ensures HasBit(ClearBit(w, b), c) <==> b != c && HasBit(w, c)
  {
    if b > 0 && c > 0 {
      ClearBitClearsOne(w / 2, b - 1, c - 1);
    }
  }

  lemma {:induction false} ZeroHasNoBits(b: nat)
    ensures !HasBit(0, b)
  {
    if b > 0 {
      ZeroHasNoBits(b - 1);
    }
  }

  /** Bit `i` of a bitmap held in `words`. */
  predicate BitSet(words: seq<Word>, i: nat)
    requires i / BITS_IN_WORD < |words|
  {
    HasBit(words[i / BITS_IN_WORD], i % BITS_IN_WORD)
  }

  /** The numbers below `n` whose bit is set. */
  ghost function Marked(words: seq<Word>, n: nat): (s: set<nat>)
    requires n <= BITS_IN_WORD * |words|
  {
    if n == 0 then {}
    else if BitSet(words, n - 1) then Marked(words, n - 1) + {n - 1}
    else Marked(words, n - 1)
  }

  lemma {:induction false} MarkedBelow(words: seq<Word>, n: nat)
    requires n <= BITS_IN_WORD * |words|
    ensures forall i: nat :: i in Marked(words, n) ==> i < n
  {
    if n > 0 {
      MarkedBelow(words, n - 1);
    }
  }

  lemma {:induction false} MarkedIff(words: seq<Word>, n: nat, i: nat)
    requires n <= BITS_IN_WORD * |words| && i < n
    ensures i in Marked(words, n) <==> BitSet(words, i)
  {
    if i < n - 1 {
      MarkedIff(words, n - 1, i);
    } else {
      MarkedBelow(words, n - 1);
    }
  }

  lemma OneMoreMarked(words: seq<Word>, n: nat, i: nat)
    requires n <= BITS_IN_WORD * |words| && i < n
    ensures |Marked(words, i + 1)| == |Marked(words, i)| + if i in Marked(words, n) then 1 else 0
  {
    MarkedIff(words, n, i);
    MarkedBelow(words, i);
  }

  lemma {:induction false} MarkedBits(words: seq<Word>, n: nat, s: set<nat>)
    requires n <= BITS_IN_WORD * |words| && forall i: nat :: i in s ==> i < n
    requires forall i: nat :: i < n ==> (i in s <==> BitSet(words, i))
    ensures Marked(words, n) == s
  {
    MarkedBelow(words, n);
    forall i: nat | i < n
      ensures i in Marked(words, n) <==> i in s
    {
      MarkedIff(words, n, i);
    }
  }

  lemma {:induction false} MarkedAfterSet(before: seq<Word>, n: nat, which: nat, after: seq<Word>)
    requires which < n <= BITS_IN_WORD * |before| && |after| == |before|
    requires var w := which / BITS_IN_WORD;
             && after[w] == SetBit(before[w], which % BITS_IN_WORD)
             && forall i :: 0 <= i < |before| && i != w ==> after[i] == before[i]
    ensures Marked(after, n) == Marked(before, n) + {which}
  {
    forall j: nat | j < n
      ensures BitSet(after, j) <==> j in Marked(before, n) + {which}
    {
      MarkedIff(before, n, j);
      SetBitSetsOne(before[which / BITS_IN_WORD], which % BITS_IN_WORD, j % BITS_IN_WORD);
    }
    MarkedBelow(before, n);
    MarkedBits(after, n, Marked(before, n) + {which});
  }

  lemma {:induction false} MarkedAfterClear(before: seq<Word>, n: nat, which: nat, after: seq<Word>)
    requires which < n <= BITS_IN_WORD * |before| && |after| == |before|
    requires var w := which / BITS_IN_WORD;
             && after[w] == ClearBit(before[w], which % BITS_IN_WORD)
             && forall i :: 0 <= i < |before| && i != w ==> after[i] == before[i]
    ensures Marked(after, n) == Marked(before, n) - {which}
  {
    forall j: nat | j < n
      ensures BitSet(after, j) <==> j in Marked(before, n) - {which}
    {
      MarkedIff(before, n, j);
      ClearBitClearsOne(before[which / BITS_IN_WORD], which % BITS_IN_WORD, j % BITS_IN_WORD);
    }
    MarkedBelow(before, n);
    MarkedBits(after, n, Marked(before, n) - {which});
  }

  /** `found` is the smallest item below `n` outside `marks`, or -1 when there is none. */
  ghost predicate LeastFree(marks: set<nat>, n: nat, found: int)
  {
    && (found == -1 || (0 <= found < n && found !in marks))
    && forall i: nat :: i < (if found == -1 then n else found) ==> i in marks
  }

  class Bitmap {
    const numBits: nat
    const words: array<Word>

    ghost predicate Valid() {
      0 < numBits && words.Length == DivRoundUp(numBits, BITS_IN_WORD)
    }

    /** The items currently handed out. */
    ghost function Marks(): (s: set<nat>)
      requires Valid()
      reads words
    {
      Marked(words[..], numBits)
    }

    constructor (numItems: nat)
      requires numItems > 0
      ensures Valid() && fresh(words) && numBits == numItems
      ensures Marks() == {}
    {
      numBits := numItems;
      words := new Word[DivRoundUp(numItems, BITS_IN_WORD)](_ => 0);
      new;
      forall j: nat | j < numBits
        ensures !BitSet(words[..], j)
      {
        ZeroHasNoBits(j % BITS_IN_WORD);
      }
      MarkedBits(words[..], numBits, {});
    }

    method Mark(which: nat)
      requires Valid() && which < numBits
      modifies words
      ensures Marks() == old(Marks()) + {which}
    {
      var w := which / BITS_IN_WORD;
      ghost var before := words[..];
      WordWidth();
      SetBitFits(words[w], which % BITS_IN_WORD, BITS_IN_WORD);
      words[w] := SetBit(words[w], which % BITS_IN_WORD);
      MarkedAfterSet(before, numBits, which, words[..]);
    }

    method Clear(which: nat)
      requires Valid() && which < numBits
      modifies words
      ensures Marks() == old(Marks()) - {which}
    {
      var w := which / BITS_IN_WORD;
      ghost var before := words[..];
      words[w] := ClearBit(words[w], which % BITS_IN_WORD);
      MarkedAfterClear(before, numBits, which, words[..]);
    }

    method Test(which: nat) returns (set_: bool)
      requires Valid() && which < numBits
      ensures set_ <==> which in Marks()
    {
      MarkedIff(words[..], numBits, which);
      return HasBit(words[which / BITS_IN_WORD], which % BITS_IN_WORD);
    }

    /** Hands out the smallest free item; -1 exactly when every item is taken. */
    method FindAndSet() returns (found: int)
      requires Valid()
      modifies words
      ensures LeastFree(old(Marks()), numBits, found)
      ensures Marks() == if found == -1 then old(Marks()) else old(Marks()) + {found}
    {
      for i := 0 to numBits
        invariant words[..] == old(words[..])
        invariant forall j: nat :: j < i ==> j in old(Marks())
      {
        var marked := Test(i);
        if !marked {
          Mark(i);
          return i;
        }
      }
      return -1;
    }

    /** Counts the free items. */
    method NumClear() returns (count: nat)
      requires Valid()
      ensures count + |Marks()| == numBits
    {
      count := 0;
      for i := 0 to numBits
        invariant count + |Marked(words[..], i)| == i
      {
        var marked := Test(i);
        OneMoreMarked(words[..], numBits, i);
        if !marked {
          count := count + 1;
        }
      }
    }
  }
}
