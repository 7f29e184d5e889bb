/**
  Bytes and the little-endian layout of 32-bit integers, as the kernel sees them when it
  casts a structure to `char *` before a disk transfer.
 */
module Bytes {

  type Byte = x: int | 0 <= x < 0x100

  const MIN_INT: int := -0x8000_0000
  const MAX_INT: int := 0x7fff_ffff

  /** How many values a word has. */
  const WORD_VALUES: nat := 0x1_0000_0000

  /** A C `unsigned int`. */
  type Word = x: int | 0 <= x < 0x1_0000_0000

  /** A C `int`. */
  type Int32 = x: int | MIN_INT <= x <= MAX_INT

  /** C's `/` truncates toward zero. */
  function TruncDiv(n: int, d: int): (q: int)
    requires d > 0
    ensures n >= 0 ==> q == n / d
    ensures n < 0 ==> q <= 0
  {
    if n >= 0 then n / d else -((-n) / d)
  }

  /** The macro `divRoundUp`: a positive remainder adds one; a negative one, as C defines it, does not. */
  function DivRoundUp(n: int, d: int): (q: int)
    requires d > 0
    ensures n >= 0 ==> (q - 1) * d < n <= q * d
    ensures n < 0 ==> q <= 0
  {
    var rem := n - TruncDiv(n, d) * d;
    TruncDiv(n, d) + if rem > 0 then 1 else 0
  }

  /** The `count` low-order bytes of a number, least significant byte first. */
  function LowBytes(n: nat, count: nat): (s: seq<Byte>)
    ensures |s| == count
  {
    if count == 0 then [] else [n % 0x100] + LowBytes(n / 0x100, count - 1)
  }

  function EncodeWord(w: Word): (s: seq<Byte>)
    ensures |s| == 4
  {
    LowBytes(w, 4)
  }

  function DecodeWord(s: seq<Byte>): (w: Word)
    requires |s| == 4
  {
    var b0: int, b1: int, b2: int, b3: int := s[0], s[1], s[2], s[3];
    b0 + 0x100 * (b1 + 0x100 * (b2 + 0x100 * b3))
  }

  lemma WordRoundTrip(w: Word)
    ensures DecodeWord(EncodeWord(w)) == w
  {
    FourBytes(w);
  }

  lemma FourBytes(w: Word)
    ensures EncodeWord(w) == [w % 0x100, w / 0x100 % 0x100, w / 0x100 / 0x100 % 0x100, w / 0x100 / 0x100 / 0x100]
  {
    var w1 := w / 0x100;
    var w2 := w1 / 0x100;
    var w3 := w2 / 0x100;
    assert LowBytes(w3, 1) == [w3];
    assert LowBytes(w2, 2) == [w2 % 0x100, w3];
    assert LowBytes(w1, 3) == [w1 % 0x100, w2 % 0x100, w3];
  }

  /** Two's complement. */
  function ToWord(x: Int32): (w: Word)
  {
    if x < 0 then x + 0x1_0000_0000 else x
  }

  function FromWord(w: Word): (x: Int32)
    ensures ToWord(x) == w
  {
    if w > MAX_INT then w - 0x1_0000_0000 else w
  }

  /** What is left of a number in a C `int`, which wraps around. */
  function Wrap(n: int): (r: Int32)
    ensures MIN_INT <= n <= MAX_INT ==> r == n
    ensures (n - r) % WORD_VALUES == 0
  {
    (n - MIN_INT) % WORD_VALUES + MIN_INT
  }

  /** Consecutive words of a structure. */
  function EncodeWords(ws: seq<Word>): (s: seq<Byte>)
    ensures |s| == 4 * |ws|
  {
    if ws == [] then [] else EncodeWord(ws[0]) + EncodeWords(ws[1..])
  }

  function DecodeWords(s: seq<Byte>): (ws: seq<Word>)
    requires |s| % 4 == 0
    ensures |ws| == |s| / 4
  {
    if s == [] then [] else [DecodeWord(s[..4])] + DecodeWords(s[4..])
  }

  lemma {:induction false} WordsRoundTrip(ws: seq<Word>)
    ensures DecodeWords(EncodeWords(ws)) == ws
  {
    if ws != [] {
      var s := EncodeWords(ws);
      assert s[..4] == EncodeWord(ws[0]);
      assert s[4..] == EncodeWords(ws[1..]);
      WordRoundTrip(ws[0]);
      WordsRoundTrip(ws[1..]);
    }
  }

  lemma MulMonotonic(k: nat, a: nat, b: nat)
    requires a <= b
    ensures k * a <= k * b
  {
  }
}
