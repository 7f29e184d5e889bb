/**
  Merging the bytes of two words, for the unaligned loads and stores of code/machine/mipssim.cc.
  Words are numbers below 2^32, so `x & 0xffff` is `x % 0x1_0000`, `x & 0xffff0000` is what that
  leaves of `x`, a shift multiplies or divides, and `|` of words without common bits adds.
 */
module WordBytes {
  import opened Bytes

  lemma BytesRoundTrip(bs: seq<Byte>)
    requires |bs| == 4
    ensures EncodeWord(DecodeWord(bs)) == bs
  {
    var b0: int, b1: int, b2: int, b3: int := bs[0], bs[1], bs[2], bs[3];
    FourBytes(DecodeWord(bs));
    Digit(b0, b1 + 0x100 * (b2 + 0x100 * b3));
    Digit(b1, b2 + 0x100 * b3);
    Digit(b2, b3);
  }

  lemma Digit(low: int, high: int)
    requires 0 <= low < 0x100
    ensures (low + 0x100 * high) % 0x100 == low && (low + 0x100 * high) / 0x100 == high
  {
  }

  /** A word and its bytes, for use in arithmetic. */
  lemma Digits(w: Word) returns (b0: int, b1: int, b2: int, b3: int)
    ensures 0 <= b0 < 0x100 && 0 <= b1 < 0x100 && 0 <= b2 < 0x100 && 0 <= b3 < 0x100
    ensures EncodeWord(w) == [b0, b1, b2, b3]
    ensures w == b0 + 0x100 * b1 + 0x1_0000 * b2 + 0x100_0000 * b3
  {
    var s := EncodeWord(w);
    WordRoundTrip(w);
    b0, b1, b2, b3 := s[0], s[1], s[2], s[3];
  }

  lemma FromDigits(w: Word, b0: Byte, b1: Byte, b2: Byte, b3: Byte)
    requires w == b0 + 0x100 * b1 + 0x1_0000 * b2 + 0x100_0000 * b3
    ensures EncodeWord(w) == [b0, b1, b2, b3]
  {
    assert w == DecodeWord([b0, b1, b2, b3]);
    BytesRoundTrip([b0, b1, b2, b3]);
  }

  lemma Parts(low: nat, high: nat, n: nat)
    requires low < n
    ensures (low + n * high) % n == low && (low + n * high) / n == high
  {
    var x := low + n * high;
    var d := high - x / n;
    assert n * d == n * high - n * (x / n) == x % n - low;
    if d >= 1 {
      MulMonotonic(n, 1, d);
    }
  }

  /** `(p & 0xff) | (x << 8)`. */
  method Low8(p: Word, x: Word) returns (r: Word)
    ensures EncodeWord(r) == EncodeWord(p)[..1] + EncodeWord(x)[..3]
  {
    ghost var p0, p1, p2, p3 := Digits(p);
    ghost var x0, x1, x2, x3 := Digits(x);
    Parts(p0, p1 + 0x100 * p2 + 0x1_0000 * p3, 0x100);
    Parts(0x100 * x0 + 0x1_0000 * x1 + 0x100_0000 * x2, x3, WORD_VALUES);
    r := p % 0x100 + x * 0x100 % WORD_VALUES;
    FromDigits(r, p0, x0, x1, x2);
  }

  /** `(p & 0xffff) | (x << 16)`. */
  method Low16(p: Word, x: Word) returns (r: Word)
    ensures EncodeWord(r) == EncodeWord(p)[..2] + EncodeWord(x)[..2]
  {
    ghost var p0, p1, p2, p3 := Digits(p);
    ghost var x0, x1, x2, x3 := Digits(x);
    Parts(p0 + 0x100 * p1, p2 + 0x100 * p3, 0x1_0000);
    Parts(0x1_0000 * x0 + 0x100_0000 * x1, x2 + 0x100 * x3, WORD_VALUES);
    r := p % 0x1_0000 + x * 0x1_0000 % WORD_VALUES;
    FromDigits(r, p0, p1, x0, x1);
  }

  /** `(p & 0xffffff) | (x << 24)`. */
  method Low24(p: Word, x: Word) returns (r: Word)
    ensures EncodeWord(r) == EncodeWord(p)[..3] + EncodeWord(x)[..1]
  {
    ghost var p0, p1, p2, p3 := Digits(p);
    ghost var x0, x1, x2, x3 := Digits(x);
    Parts(p0 + 0x100 * p1 + 0x1_0000 * p2, p3, 0x100_0000);
    Parts(0x100_0000 * x0, x1 + 0x100 * x2 + 0x1_0000 * x3, WORD_VALUES);
    r := p % 0x100_0000 + x * 0x100_0000 % WORD_VALUES;
    FromDigits(r, p0, p1, p2, x0);
  }

  /** `(p & 0xffffff00) | ((x >> 24) & 0xff)`. */
  method High8(p: Word, x: Word) returns (r: Word)
    ensures EncodeWord(r) == EncodeWord(x)[3..] + EncodeWord(p)[1..]
  {
    ghost var p0, p1, p2, p3 := Digits(p);
    ghost var x0, x1, x2, x3 := Digits(x);
    Parts(p0, p1 + 0x100 * p2 + 0x1_0000 * p3, 0x100);
    Parts(x0 + 0x100 * x1 + 0x1_0000 * x2, x3, 0x100_0000);
    r := p - p % 0x100 + x / 0x100_0000;
    FromDigits(r, x3, p1, p2, p3);
  }

  /** `(p & 0xffff0000) | ((x >> 16) & 0xffff)`. */
  method High16(p: Word, x: Word) returns (r: Word)
    ensures EncodeWord(r) == EncodeWord(x)[2..] + EncodeWord(p)[2..]
  {
    ghost var p0, p1, p2, p3 := Digits(p);
    ghost var x0, x1, x2, x3 := Digits(x);
    Parts(p0 + 0x100 * p1, p2 + 0x100 * p3, 0x1_0000);
    Parts(x0 + 0x100 * x1, x2 + 0x100 * x3, 0x1_0000);
    r := p - p % 0x1_0000 + x / 0x1_0000;
    FromDigits(r, x2, x3, p2, p3);
  }

  /** `(p & 0xff000000) | ((x >> 8) & 0xffffff)`. */
  method High24(p: Word, x: Word) returns (r: Word)
    ensures EncodeWord(r) == EncodeWord(x)[1..] + EncodeWord(p)[3..]
  {
    ghost var p0, p1, p2, p3 := Digits(p);
    ghost var x0, x1, x2, x3 := Digits(x);
    Parts(p0 + 0x100 * p1 + 0x1_0000 * p2, p3, 0x100_0000);
    Parts(x0, x1 + 0x100 * x2 + 0x1_0000 * x3, 0x100);
    r := p - p % 0x100_0000 + x / 0x100;
    FromDigits(r, x1, x2, x3, p3);
  }

  /** LWL: the high-order bytes of a register come from the low end of the aligned word. */
  method MergeLeft(before: Word, value: Word, byte: nat) returns (r: Word)
    requires byte < 4
    ensures EncodeWord(r) == EncodeWord(before)[..3 - byte] + EncodeWord(value)[..byte + 1]
  {
    if byte == 3 {
      r := value;
    } else if byte == 2 {
      r := Low8(before, value);
    } else if byte == 1 {
      r := Low16(before, value);
    } else {
      r := Low24(before, value);
    }
  }

  /** LWR: the low-order bytes come from the high end. */
  method MergeRight(before: Word, value: Word, byte: nat) returns (r: Word)
    requires byte < 4
    ensures EncodeWord(r) == EncodeWord(value)[byte..] + EncodeWord(before)[4 - byte..]
  {
    if byte == 3 {
      r := High8(before, value);
    } else if byte == 2 {
      r := High16(before, value);
    } else if byte == 1 {
      r := High24(before, value);
    } else {
      r := value;
    }
  }

  /** SWL: the low-order bytes of the aligned word come from the high end of a register. */
  method StoreLeft(value: Word, reg: Word, byte: nat) returns (r: Word)
    requires byte < 4
    ensures EncodeWord(r) == EncodeWord(reg)[3 - byte..] + EncodeWord(value)[byte + 1..]
  {
    if byte == 3 {
      r := reg;
    } else if byte == 2 {
      r := High24(value, reg);
    } else if byte == 1 {
      r := High16(value, reg);
    } else {
      r := High8(value, reg);
    }
  }

  /** SWR: its high-order bytes come from the low end. */
  method StoreRight(value: Word, reg: Word, byte: nat) returns (r: Word)
    requires byte < 4
    ensures EncodeWord(r) == EncodeWord(value)[..byte] + EncodeWord(reg)[..4 - byte]
  {
    if byte == 3 {
      r := Low24(value, reg);
    } else if byte == 2 {
      r := Low16(value, reg);
    } else if byte == 1 {
      r := Low8(value, reg);
    } else {
      r := reg;
    }
  }
}

/** The bytes around an unaligned word in memory. */
module UnalignedBytes {
  import opened Bytes

  /** The bytes of the current address space, at the addresses that translate. */
  type Memory = map<int, Byte>

  /** An address some bytes further on, wrapping around at the width of an address. */
  function Plus(a: Word, k: nat): (r: Word)
    requires k < 4
  {
    if a + k < WORD_VALUES then a + k else a + k - WORD_VALUES
  }

  predicate Mapped(m: Memory, a: Word)
  {
    a in m && Plus(a, 1) in m && Plus(a, 2) in m && Plus(a, 3) in m
  }

  /** The four bytes from `a` on. */
  function BytesAt(m: Memory, a: Word): (bs: seq<Byte>)
    requires Mapped(m, a)
    ensures |bs| == 4
  {
    [m[a], m[Plus(a, 1)], m[Plus(a, 2)], m[Plus(a, 3)]]
  }

  /** Memory with the first `n` of these bytes put from `a` on. */
  function PutBytes(m: Memory, a: Word, bs: seq<Byte>, n: nat): (m': Memory)
    requires |bs| == 4 && n <= 4
  {
    if n == 0 then m else PutBytes(m, a, bs, n - 1)[Plus(a, n - 1) as int := bs[n - 1]]
  }

  /** Memory with the four bytes from `a` on replaced. */
  function Put(m: Memory, a: Word, bs: seq<Byte>): (m': Memory)
    requires |bs| == 4
  {
    PutBytes(m, a, bs, 4)
  }

  /** Memory with a byte put at each of four addresses, in order. */
  function PutEach(m: Memory, w0: int, w1: int, w2: int, w3: int, bs: seq<Byte>): (m': Memory)
    requires |bs| == 4
  {
    m[w0 := bs[0]][w1 := bs[1]][w2 := bs[2]][w3 := bs[3]]
  }

  lemma PutIs(m: Memory, a: Word, bs: seq<Byte>)
    requires |bs| == 4
    ensures Put(m, a, bs) == PutEach(m, a, Plus(a, 1), Plus(a, 2), Plus(a, 3), bs)
  {
    assert PutBytes(m, a, bs, 1) == m[a as int := bs[0]];
    assert PutBytes(m, a, bs, 2) == m[a as int := bs[0]][Plus(a, 1) as int := bs[1]];
    assert PutBytes(m, a, bs, 3) == m[a as int := bs[0]][Plus(a, 1) as int := bs[1]][Plus(a, 2) as int := bs[2]];
  }

  lemma PutKeys(m: Memory, a: Word, bs: seq<Byte>)
    requires |bs| == 4 && Mapped(m, a)
    ensures Put(m, a, bs).Keys == m.Keys
  {
    PutIs(m, a, bs);
  }

  function Aligned(a: Word): (r: Word)
  {
    a - a % 4
  }

  /** The aligned words that an unaligned word reaches into. */
  lemma Around(a: Word)
    ensures var b, c, k := Aligned(a), Aligned(Plus(a, 3)), a % 4;
            && Plus(b, k) == a && Plus(a, 3) % 4 == (k + 3) % 4
            && (k == 0 ==> c == a)
            && (k == 1 ==> Plus(b, 2) == Plus(a, 1) && Plus(b, 3) == Plus(a, 2) && c == Plus(a, 3))
            && (k == 2 ==> Plus(b, 3) == Plus(a, 1) && c == Plus(a, 2) && Plus(c, 1) == Plus(a, 3))
            && (k == 3 ==> c == Plus(a, 1) && Plus(c, 1) == Plus(a, 2) && Plus(c, 2) == Plus(a, 3))
  {
  }

  /** What LWR at `a` makes of a register with bytes `before`. */
  function LoadedRight(m: Memory, a: Word, before: seq<Byte>): (bs: seq<Byte>)
    requires |before| == 4 && Mapped(m, Aligned(a))
    ensures |bs| == 4
  {
    BytesAt(m, Aligned(a))[a % 4..] + before[4 - a % 4..]
  }

  /** What LWL at `c` makes of it. */
  function LoadedLeft(m: Memory, c: Word, before: seq<Byte>): (bs: seq<Byte>)
    requires |before| == 4 && Mapped(m, Aligned(c))
    ensures |bs| == 4
  {
    before[..3 - c % 4] + BytesAt(m, Aligned(c))[..c % 4 + 1]
  }

  /** Memory after SWR at `a` of a register with bytes `reg`. */
  function StoredRight(m: Memory, a: Word, reg: seq<Byte>): (m': Memory)
    requires |reg| == 4 && Mapped(m, Aligned(a))
  {
    Put(m, Aligned(a), BytesAt(m, Aligned(a))[..a % 4] + reg[..4 - a % 4])
  }

  /** Memory after SWL at `c`. */
  function StoredLeft(m: Memory, c: Word, reg: seq<Byte>): (m': Memory)
    requires |reg| == 4 && Mapped(m, Aligned(c))
  {
    Put(m, Aligned(c), reg[3 - c % 4..] + BytesAt(m, Aligned(c))[c % 4 + 1..])
  }

  lemma SameMapped(m: Memory, m': Memory, c: Word)
    requires m'.Keys == m.Keys
    ensures Mapped(m', c) <==> Mapped(m, c)
  {
  }

  /** What LWR at `a` leaves of a register, then LWL at `a + 3`: the four bytes from `a` on; so in the other order. */
  lemma LoadPair(m: Memory, a: Word, before: seq<Byte>)
    requires |before| == 4 && Mapped(m, Aligned(a)) && Mapped(m, Aligned(Plus(a, 3)))
    ensures Mapped(m, a)
    ensures LoadedLeft(m, Plus(a, 3), LoadedRight(m, a, before)) == BytesAt(m, a)
    ensures LoadedRight(m, a, LoadedLeft(m, Plus(a, 3), before)) == BytesAt(m, a)
  {
    Around(a);
  }

  /** A word at the first byte of an aligned one: both stores write all of it. */
  lemma Store0(m: Memory, e0: int, e1: int, e2: int, e3: int, reg: seq<Byte>)
    requires |reg| == 4
    ensures PutEach(PutEach(m, e0, e1, e2, e3, reg), e0, e1, e2, e3, reg) == PutEach(m, e0, e1, e2, e3, reg)
  {
  }

  /** At the second: SWR writes three bytes and puts `b0` back, SWL writes one and puts three back. */
  lemma Store1(m: Memory, e0: int, e1: int, e2: int, e3: int, b0: int, c1: int, c2: int, c3: int,
               reg: seq<Byte>, low: seq<Byte>, m1: Memory, high: seq<Byte>)
    requires |reg| == 4 && b0 in m && low == [m[b0], reg[0], reg[1], reg[2]] && m1 == PutEach(m, b0, e0, e1, e2, low)
    requires c1 in m1 && c2 in m1 && c3 in m1 && c1 != e3 && c2 != e3 && c3 != e3
    requires high == [reg[3], m1[c1], m1[c2], m1[c3]]
    ensures PutEach(m1, e3, c1, c2, c3, high) == PutEach(m, e0, e1, e2, e3, reg)
  {
  }

  /** At the third: two and two. */
  lemma Store2(m: Memory, e0: int, e1: int, e2: int, e3: int, b0: int, b1: int, c2: int, c3: int,
               reg: seq<Byte>, low: seq<Byte>, m1: Memory, high: seq<Byte>)
    requires |reg| == 4 && b0 in m && b1 in m && low == [m[b0], m[b1], reg[0], reg[1]]
    requires m1 == PutEach(m, b0, b1, e0, e1, low)
    requires c2 in m1 && c3 in m1 && c2 != e2 && c3 != e2 && c2 != e3 && c3 != e3
    requires high == [reg[2], reg[3], m1[c2], m1[c3]]
    ensures PutEach(m1, e2, e3, c2, c3, high) == PutEach(m, e0, e1, e2, e3, reg)
  {
  }

  /** At the fourth: one and three. */
  lemma Store3(m: Memory, e0: int, e1: int, e2: int, e3: int, b0: int, b1: int, b2: int, c3: int,
               reg: seq<Byte>, low: seq<Byte>, m1: Memory, high: seq<Byte>)
    requires |reg| == 4 && b0 in m && b1 in m && b2 in m && low == [m[b0], m[b1], m[b2], reg[0]]
    requires m1 == PutEach(m, b0, b1, b2, e0, low)
    requires c3 in m1 && c3 != e1 && c3 != e2 && c3 != e3 && high == [reg[1], reg[2], reg[3], m1[c3]]
    ensures PutEach(m1, e1, e2, e3, c3, high) == PutEach(m, e0, e1, e2, e3, reg)
  {
  }

  /** What SWR at `a` and then SWL at `a + 3` write: the four bytes from `a` on and no others. */
  lemma StorePair(m: Memory, a: Word, reg: seq<Byte>)
    requires |reg| == 4 && Mapped(m, Aligned(a)) && Mapped(m, Aligned(Plus(a, 3)))
    ensures var m1 := StoredRight(m, a, reg);
            Mapped(m1, Aligned(Plus(a, 3))) && StoredLeft(m1, Plus(a, 3), reg) == Put(m, a, reg)
  {
    var b, c, k := Aligned(a), Aligned(Plus(a, 3)), a % 4;
    Around(a);
    var m1, low := StoredRight(m, a, reg), BytesAt(m, b)[..k] + reg[..4 - k];
    PutKeys(m, b, low);
    SameMapped(m, m1, c);
    var j := Plus(a, 3) % 4;
    var high := reg[3 - j..] + BytesAt(m1, c)[j + 1..];
    PutIs(m, a, reg);
    PutIs(m, b, low);
    PutIs(m1, c, high);
    Slices(BytesAt(m, b), reg, k);
    Slices(reg, BytesAt(m1, c), 3 - j);
    if k == 0 {
      FirstOffset(m, a, b, c, reg, low, m1, high);
    } else if k == 1 {
      SecondOffset(m, a, b, c, reg, low, m1, high);
    } else if k == 2 {
      ThirdOffset(m, a, b, c, reg, low, m1, high);
    } else {
      FourthOffset(m, a, b, c, reg, low, m1, high);
    }
  }

  /** The first `k` bytes of one word, then the first of another; all but `k` of one, then the last of another. */
  lemma Slices(x: seq<Byte>, y: seq<Byte>, k: nat)
    requires |x| == 4 && |y| == 4 && k < 4
    ensures x[..k] + y[..4 - k] == if k == 0 then [y[0], y[1], y[2], y[3]] else if k == 1 then [x[0], y[0], y[1], y[2]]
                                   else if k == 2 then [x[0], x[1], y[0], y[1]] else [x[0], x[1], x[2], y[0]]
    ensures x[k..] + y[4 - k..] == if k == 0 then [x[0], x[1], x[2], x[3]] else if k == 1 then [x[1], x[2], x[3], y[3]]
                                   else if k == 2 then [x[2], x[3], y[2], y[3]] else [x[3], y[1], y[2], y[3]]
  {
  }

  lemma FirstOffset(m: Memory, a: Word, b: Word, c: Word, reg: seq<Byte>, low: seq<Byte>, m1: Memory, high: seq<Byte>)
    requires |reg| == 4 && b == a && c == a && low == reg && high == reg
    requires m1 == PutEach(m, b, Plus(b, 1), Plus(b, 2), Plus(b, 3), low)
    ensures PutEach(m1, c, Plus(c, 1), Plus(c, 2), Plus(c, 3), high)
         == PutEach(m, a, Plus(a, 1), Plus(a, 2), Plus(a, 3), reg)
  {
    Store0(m, a, Plus(a, 1), Plus(a, 2), Plus(a, 3), reg);
  }

  lemma SecondOffset(m: Memory, a: Word, b: Word, c: Word, reg: seq<Byte>, low: seq<Byte>, m1: Memory, high: seq<Byte>)
    requires |reg| == 4 && Mapped(m, b) && Mapped(m1, c)
    requires Plus(b, 1) == a && Plus(b, 2) == Plus(a, 1) && Plus(b, 3) == Plus(a, 2) && c == Plus(a, 3)
    requires low == [m[b], reg[0], reg[1], reg[2]] && m1 == PutEach(m, b, Plus(b, 1), Plus(b, 2), Plus(b, 3), low)
    requires high == [reg[3], m1[Plus(c, 1)], m1[Plus(c, 2)], m1[Plus(c, 3)]]
    ensures PutEach(m1, c, Plus(c, 1), Plus(c, 2), Plus(c, 3), high)
         == PutEach(m, a, Plus(a, 1), Plus(a, 2), Plus(a, 3), reg)
  {
    Store1(m, a, Plus(a, 1), Plus(a, 2), c, b, Plus(c, 1), Plus(c, 2), Plus(c, 3), reg, low, m1, high);
  }

  lemma ThirdOffset(m: Memory, a: Word, b: Word, c: Word, reg: seq<Byte>, low: seq<Byte>, m1: Memory, high: seq<Byte>)
    requires |reg| == 4 && Mapped(m, b) && Mapped(m1, c)
    requires Plus(b, 2) == a && Plus(b, 3) == Plus(a, 1) && c == Plus(a, 2) && Plus(c, 1) == Plus(a, 3)
    requires low == [m[b], m[Plus(b, 1)], reg[0], reg[1]]
    requires m1 == PutEach(m, b, Plus(b, 1), Plus(b, 2), Plus(b, 3), low)
    requires high == [reg[2], reg[3], m1[Plus(c, 2)], m1[Plus(c, 3)]]
    ensures PutEach(m1, c, Plus(c, 1), Plus(c, 2), Plus(c, 3), high)
         == PutEach(m, a, Plus(a, 1), Plus(a, 2), Plus(a, 3), reg)
  {
    Store2(m, a, Plus(a, 1), c, Plus(c, 1), b, Plus(b, 1), Plus(c, 2), Plus(c, 3), reg, low, m1, high);
  }

  lemma FourthOffset(m: Memory, a: Word, b: Word, c: Word, reg: seq<Byte>, low: seq<Byte>, m1: Memory, high: seq<Byte>)
    requires |reg| == 4 && Mapped(m, b) && Mapped(m1, c)
    requires Plus(b, 3) == a && c == Plus(a, 1) && Plus(c, 1) == Plus(a, 2) && Plus(c, 2) == Plus(a, 3)
    requires low == [m[b], m[Plus(b, 1)], m[Plus(b, 2)], reg[0]]
    requires m1 == PutEach(m, b, Plus(b, 1), Plus(b, 2), Plus(b, 3), low)
    requires high == [reg[1], reg[2], reg[3], m1[Plus(c, 3)]]
    ensures PutEach(m1, c, Plus(c, 1), Plus(c, 2), Plus(c, 3), high)
         == PutEach(m, a, Plus(a, 1), Plus(a, 2), Plus(a, 3), reg)
  {
    Store3(m, a, c, Plus(c, 1), Plus(c, 2), b, Plus(b, 1), Plus(b, 2), Plus(c, 3), reg, low, m1, high);
  }

  /** What was stored is what is loaded. */
  lemma PutThenRead(m: Memory, a: Word, bs: seq<Byte>)
    requires |bs| == 4
    ensures Mapped(Put(m, a, bs), a) && BytesAt(Put(m, a, bs), a) == bs
  {
    PutIs(m, a, bs);
  }
}

/** The simulated processor as far as delayed loads and unaligned accesses go. */
module Unaligned {
  import opened Bytes
  import opened WordBytes
  import opened UnalignedBytes

  const NUM_GP_REGS: nat := 32

  /** The effective address of a load or store. */
  function Address(base: Word, extra: int): (a: Word)
  {
    (base + extra) % WORD_VALUES
  }

  lemma ThreeOn(base: Word, extra: int)
    ensures Address(base, extra + 3) == Plus(Address(base, extra), 3)
  {
  }

  /** The pair of loads at a base that has not changed. */
  lemma PairIs(m: Memory, base: Word, now: Word, extra: int, before: seq<Byte>)
    requires |before| == 4 && Mapped(m, Aligned(Address(base, extra))) && Mapped(m, Aligned(Address(now, extra + 3)))
    ensures now == base ==>
              && Mapped(m, Address(base, extra))
              && LoadedLeft(m, Address(now, extra + 3), LoadedRight(m, Address(base, extra), before)) ==
                   BytesAt(m, Address(base, extra))
  {
    ThreeOn(base, extra);
    if now == base {
      LoadPair(m, Address(base, extra), before);
    }
  }

  /** The pair of stores. */
  lemma StoresAre(m: Memory, base: Word, now: Word, extra: int, reg: seq<Byte>)
    requires |reg| == 4 && Mapped(m, Aligned(Address(base, extra))) && Mapped(m, Aligned(Address(now, extra + 3)))
    ensures now == base ==>
              var m1 := StoredRight(m, Address(base, extra), reg);
              && Mapped(m1, Aligned(Address(now, extra + 3)))
              && StoredLeft(m1, Address(now, extra + 3), reg) == Put(m, Address(base, extra), reg)
  {
    ThreeOn(base, extra);
    if now == base {
      StorePair(m, Address(base, extra), reg);
    }
  }

  class Machine {
    /**
      The general registers; the target and value of a delayed load, which the source keeps in registers 37
      and 38, are apart.
     */
    const registers: array<Word>
    var loadReg: nat
    var loadValueReg: Word
    var mainMemory: Memory

    ghost predicate Valid()
      reads this, registers
    {
      registers.Length == NUM_GP_REGS && loadReg < NUM_GP_REGS && registers[0] == 0
    }

    constructor (memory: Memory)
      ensures Valid() && fresh(registers) && mainMemory == memory
    {
      registers := new Word[NUM_GP_REGS](_ => 0);
      loadReg, loadValueReg, mainMemory := 0, 0, memory;
    }

    /** Completes the load in progress and starts the next one; register 0 stays zero. */
    method DelayedLoad(nextReg: nat, nextValue: Word)
      requires Valid() && nextReg < NUM_GP_REGS
      modifies this`loadReg, this`loadValueReg, registers
      ensures Valid() && loadReg == nextReg && loadValueReg == nextValue
      ensures registers[..] == Completed(old(registers[..]), old(loadReg), old(loadValueReg))
    {
      registers[loadReg] := loadValueReg;
      loadReg, loadValueReg := nextReg, nextValue;
      registers[0] := 0;
    }

    /** Reads an aligned word; fails where the address does not translate. */
    method ReadMem(a: Word) returns (ok: bool, value: Word)
      ensures ok <==> Mapped(mainMemory, a)
      ensures ok ==> EncodeWord(value) == BytesAt(mainMemory, a)
    {
      ok, value := Mapped(mainMemory, a), 0;
      if ok {
        value := DecodeWord(BytesAt(mainMemory, a));
        BytesRoundTrip(BytesAt(mainMemory, a));
      }
    }

    method WriteMem(a: Word, value: Word) returns (ok: bool)
      modifies this`mainMemory
      ensures ok <==> old(Mapped(mainMemory, a))
      ensures mainMemory == if ok then Put(old(mainMemory), a, EncodeWord(value)) else old(mainMemory)
      ensures mainMemory.Keys == old(mainMemory).Keys
    {
      ok := Mapped(mainMemory, a);
      if ok {
        PutKeys(mainMemory, a, EncodeWord(value));
        mainMemory := Put(mainMemory, a, EncodeWord(value));
      }
    }

    /** What a register will hold once the load in progress completes. */
    function Latest(r: nat): (v: Word)
      requires Valid() && r < NUM_GP_REGS
      reads this, registers
    {
      if loadReg == r then loadValueReg else registers[r]
    }

    /**
      An access that fails raises an exception, which completes the load in progress and ends the program; so
      in the other three.
     */
    method Lwl(rs: nat, extra: int, rt: nat) returns (ok: bool)
      requires Valid() && rs < NUM_GP_REGS && rt < NUM_GP_REGS
      modifies this`loadReg, this`loadValueReg, registers
      ensures Valid()
      ensures var a := Address(old(registers[rs]), extra);
              && (ok <==> Mapped(mainMemory, Aligned(a)))
              && (ok ==>
                    && LoadStarted(rt)
                    && EncodeWord(loadValueReg) == LoadedLeft(mainMemory, a, EncodeWord(old(Latest(rt)))))
      ensures !ok ==> LoadStarted(0)
    {
      var tmp := Address(registers[rs], extra);
      var value;
      ok, value := ReadMem(Aligned(tmp));
      if ok {
        var next := MergeLeft(Latest(rt), value, tmp % 4);
        DelayedLoad(rt, next);
      } else {
        DelayedLoad(0, 0);
      }
    }

    method Lwr(rs: nat, extra: int, rt: nat) returns (ok: bool)
      requires Valid() && rs < NUM_GP_REGS && rt < NUM_GP_REGS
      modifies this`loadReg, this`loadValueReg, registers
      ensures Valid()
      ensures var a := Address(old(registers[rs]), extra);
              && (ok <==> Mapped(mainMemory, Aligned(a)))
              && (ok ==>
                    && LoadStarted(rt)
                    && EncodeWord(loadValueReg) == LoadedRight(mainMemory, a, EncodeWord(old(Latest(rt)))))
      ensures !ok ==> LoadStarted(0)
    {
      var tmp := Address(registers[rs], extra);
      var value;
      ok, value := ReadMem(Aligned(tmp));
      if ok {
        var next := MergeRight(Latest(rt), value, tmp % 4);
        DelayedLoad(rt, next);
      } else {
        DelayedLoad(0, 0);
      }
    }

    method Swl(rs: nat, extra: int, rt: nat) returns (ok: bool)
      requires Valid() && rs < NUM_GP_REGS && rt < NUM_GP_REGS
      modifies this, registers
      ensures Valid()
      ensures var a, m := Address(old(registers[rs]), extra), old(mainMemory);
              && (ok <==> Mapped(m, Aligned(a)))
              && (ok ==> LoadStarted(0) && mainMemory == StoredLeft(m, a, EncodeWord(old(registers[rt]))))
      ensures mainMemory.Keys == old(mainMemory).Keys
      ensures !ok ==> LoadStarted(0) && mainMemory == old(mainMemory)
    {
      var tmp := Address(registers[rs], extra);
      var value;
      ok, value := ReadMem(Aligned(tmp));
      if ok {
        value := StoreLeft(value, registers[rt], tmp % 4);
        ok := WriteMem(Aligned(tmp), value);
      }
      DelayedLoad(0, 0);
    }

    method Swr(rs: nat, extra: int, rt: nat) returns (ok: bool)
      requires Valid() && rs < NUM_GP_REGS && rt < NUM_GP_REGS
      modifies this, registers
      ensures Valid()
      ensures var a, m := Address(old(registers[rs]), extra), old(mainMemory);
              && (ok <==> Mapped(m, Aligned(a)))
              && (ok ==> LoadStarted(0) && mainMemory == StoredRight(m, a, EncodeWord(old(registers[rt]))))
      ensures mainMemory.Keys == old(mainMemory).Keys
      ensures !ok ==> LoadStarted(0) && mainMemory == old(mainMemory)
    {
      var tmp := Address(registers[rs], extra);
      var value;
      ok, value := ReadMem(Aligned(tmp));
      if ok {
        value := StoreRight(value, registers[rt], tmp % 4);
        ok := WriteMem(Aligned(tmp), value);
      }
      DelayedLoad(0, 0);
    }

    /** The registers once the load in progress completes. */
    ghost function Settled(): (s: seq<Word>)
      requires Valid()
      reads this, registers
      ensures |s| == NUM_GP_REGS
    {
      Completed(registers[..], loadReg, loadValueReg)
    }

    /** LWR and perhaps an interrupt, which completes its load early. */
    method LoadRight(rs: nat, extra: int, rt: nat, interrupted: bool) returns (ok: bool, ghost half: Word)
      requires Valid() && rs < NUM_GP_REGS && rt < NUM_GP_REGS
      modifies this`loadReg, this`loadValueReg, registers
      ensures Valid() && (ok <==> Mapped(mainMemory, Aligned(Address(old(registers[rs]), extra))))
      ensures ok ==>
                EncodeWord(half) ==
                  LoadedRight(mainMemory, Address(old(registers[rs]), extra), EncodeWord(old(Latest(rt))))
      ensures ok ==> Settled() == Completed(old(Settled()), rt, half) && (rt != 0 ==> Latest(rt) == half)
      ensures ok ==> registers[rs] == BaseAfter(old(Settled()), rs, rt, half, interrupted)
      ensures !ok ==> registers[..] == old(Settled())
    {
      ok := Lwr(rs, extra, rt);
      half := loadValueReg;
      if interrupted {
        DelayedLoad(0, 0);
      }
    }

    /**
      LWR and LWL as a compiler pairs them load the unaligned word, with or without an interrupt in
      between, if both work on the base that LWR finds. LWL works on another one when a load in progress
      to the base register completes between them, or when the base is the target and an interrupt
      completes the load of LWR.
     */
    method LoadUnaligned(rs: nat, extra: int, rt: nat, interrupted: bool) returns (ok: bool, ghost base: Word)
      requires Valid() && rs < NUM_GP_REGS && rt < NUM_GP_REGS
      modifies this`loadReg, this`loadValueReg, registers
      ensures var m, a, before := mainMemory, Address(old(registers[rs]), extra), EncodeWord(old(Latest(rt)));
              && (Mapped(m, Aligned(a)) ==>
                    base == BaseAfter(old(Settled()), rs, rt, DecodeWord(LoadedRight(m, a, before)), interrupted))
              && (ok <==> Mapped(m, Aligned(a)) && Mapped(m, Aligned(Address(base, extra + 3))))
              && (ok ==> registers[..] == Completed(old(Settled()), rt,
                           DecodeWord(LoadedLeft(m, Address(base, extra + 3), LoadedRight(m, a, before)))))
              && (ok && base == old(registers[rs]) ==>
                    Mapped(m, a) && registers[..] == Completed(old(Settled()), rt, DecodeWord(BytesAt(m, a))))
      ensures Valid() && (!ok ==> registers[..] == Completed(old(Settled()), rt, registers[rt]))
    {
      ghost var was, before, half := registers[rs], EncodeWord(Latest(rt)), 0;
      ok, half := LoadRight(rs, extra, rt, interrupted);
      base := registers[rs];
      if !ok {
        return;
      }
      WordRoundTrip(half);
      ok := Lwl(rs, extra + 3, rt);
      if ok {
        PairIs(mainMemory, was, base, extra, before);
        WordRoundTrip(loadValueReg);
      }
      DelayedLoad(0, 0);
    }

    /** SWR and perhaps an interrupt. */
    method StoreFirst(rs: nat, extra: int, rt: nat, interrupted: bool) returns (ok: bool)
      requires Valid() && rs < NUM_GP_REGS && rt < NUM_GP_REGS
      modifies this, registers
      ensures Valid() && registers[..] == old(Settled()) && loadReg == 0 && mainMemory.Keys == old(mainMemory).Keys
      ensures ok <==> old(Mapped(mainMemory, Aligned(Address(registers[rs], extra))))
      ensures ok ==>
                mainMemory ==
                  StoredRight(old(mainMemory), Address(old(registers[rs]), extra), EncodeWord(old(registers[rt])))
    {
      ok := Swr(rs, extra, rt);
      if interrupted {
        DelayedLoad(0, 0);
      }
    }

    /** SWR, perhaps an interrupt, and SWL: each takes the registers as it finds them. */
    method StoreBoth(rs: nat, extra: int, rt: nat, interrupted: bool, ghost a: Word, ghost c: Word)
      returns (ok: bool, ghost m1: Memory)
      requires Valid() && rs < NUM_GP_REGS && rt < NUM_GP_REGS
      requires a == Address(registers[rs], extra) && c == Address(Settled()[rs], extra + 3)
      modifies this, registers
      ensures Valid() && registers[..] == old(Settled()) && loadReg == 0 && mainMemory.Keys == old(mainMemory).Keys
      ensures ok <==> old(Mapped(mainMemory, Aligned(a)) && Mapped(mainMemory, Aligned(c)))
      ensures ok ==> m1 == StoredRight(old(mainMemory), a, EncodeWord(old(registers[rt])))
      ensures ok ==> Mapped(m1, Aligned(c)) && mainMemory == StoredLeft(m1, c, EncodeWord(old(Settled())[rt]))
    {
      ghost var m, s := mainMemory, Settled();
      ok := StoreFirst(rs, extra, rt, interrupted);
      m1 := mainMemory;
      if ok {
        SameMapped(m, m1, Aligned(c));
        assert registers[rs] == s[rs] && registers[rt] == s[rt];
        ok := Swl(rs, extra + 3, rt);
      }
    }

    /**
      SWR and SWL as a compiler pairs them write the unaligned word and nothing else, unless a load in
      progress changes a register between them.
     */
    method StoreUnaligned(rs: nat, extra: int, rt: nat, interrupted: bool) returns (ok: bool)
      requires Valid() && rs < NUM_GP_REGS && rt < NUM_GP_REGS
      modifies this, registers
      ensures Valid() && registers[..] == old(Settled()) && loadReg == 0 && mainMemory.Keys == old(mainMemory).Keys
      ensures var a, c := Address(old(registers[rs]), extra), Address(old(Settled())[rs], extra + 3);
              var m := old(mainMemory);
              && (ok <==> Mapped(m, Aligned(a)) && Mapped(m, Aligned(c)))
              && (ok ==> var m1 := StoredRight(m, a, EncodeWord(old(registers[rt])));
                         Mapped(m1, Aligned(c)) && mainMemory == StoredLeft(m1, c, EncodeWord(old(Settled())[rt])))
              && (ok && old(Settled())[rs] == old(registers[rs]) && old(Settled())[rt] == old(registers[rt]) ==>
                    mainMemory == Put(m, a, EncodeWord(old(registers[rt]))))
    {
      ghost var base, now, reg, m := registers[rs], Settled()[rs], EncodeWord(registers[rt]), mainMemory;
      ghost var m1;
      ok, m1 := StoreBoth(rs, extra, rt, interrupted, Address(base, extra), Address(now, extra + 3));
      if ok {
        StoresAre(m, base, now, extra, reg);
      }
    }

    /** A word stored at any address is loaded back from it, into any register but 0. */
    method StoreThenLoad(rs: nat, extra: int, rt: nat, rd: nat) returns (ok: bool)
      requires Valid() && rs < NUM_GP_REGS && rt < NUM_GP_REGS && rd < NUM_GP_REGS
      modifies this, registers
      ensures Valid()
      ensures ok && old(Settled())[rs] == old(registers[rs]) && old(Settled())[rt] == old(registers[rt]) ==>
                registers[rd] == if rd == 0 then 0 else old(registers[rt])
      ensures old(Settled())[rs] == old(registers[rs]) ==>
                var a := Address(old(registers[rs]), extra);
                ok <==> old(Mapped(mainMemory, Aligned(a)) && Mapped(mainMemory, Aligned(Plus(a, 3))))
    {
      ghost var a, value, m := Address(registers[rs], extra), registers[rt], mainMemory;
      ThreeOn(registers[rs], extra);
      ok := StoreUnaligned(rs, extra, rt, false);
      if !ok {
        return;
      }
      SameMapped(m, mainMemory, Aligned(a));
      SameMapped(m, mainMemory, Aligned(Plus(a, 3)));
      ghost var base;
      ok, base := LoadUnaligned(rs, extra, rd, false);
      PutThenRead(m, a, EncodeWord(value));
      WordRoundTrip(value);
    }

    /** The load that was in progress is complete, and one to register `rt` has begun. */
    twostate predicate LoadStarted(rt: nat)
      reads this, registers
    {
      && registers.Length == NUM_GP_REGS && loadReg == rt && old(loadReg) < NUM_GP_REGS
      && registers[..] == Completed(old(registers[..]), old(loadReg), old(loadValueReg))
    }
  }

  /** The registers after the load of `value` to register `r` has completed. */
  function Completed(registers: seq<Word>, r: nat, value: Word): (s: seq<Word>)
    requires |registers| == NUM_GP_REGS && r < NUM_GP_REGS
    ensures |s| == NUM_GP_REGS
  {
    registers[r := value][0 := 0]
  }

  /**
    The base register as LWL finds it behind LWR, which loads `half` into register `rt`, over the settled
    registers `s`.
   */
  function BaseAfter(s: seq<Word>, rs: nat, rt: nat, half: Word, interrupted: bool): (base: Word)
    requires |s| == NUM_GP_REGS && rs < NUM_GP_REGS && rt < NUM_GP_REGS
  {
    if interrupted then Completed(s, rt, half)[rs] else s[rs]
  }
}
