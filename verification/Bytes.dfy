/** Bytes, bit masks and the 32-bit words of the wire format. */
module Bytes {

  type byte = b: int | 0 <= b < 0x100

  /** A 32-bit field as it lies in a buffer, before its sign is interpreted. */
  type word = w: int | 0 <= w < 0x1_0000_0000

  /** The weight of one bit of a byte. */
  type bit = w: int | w in {1, 2, 4, 8, 16, 32, 64, 128} witness 1

  /** `b & w` is not zero. */
  predicate Has(b: byte, w: bit)
  {
    b / w % 2 == 1
  }

  /** `b | w` */
  function Set(b: byte, w: bit): byte
  {
    if Has(b, w) then b else b + w
  }

  /** `b & ~w` */
  function Clear(b: byte, w: bit): byte
  {
    if Has(b, w) then b - w else b
  }

  /** The value `ByteBuffer::getInt` yields for the four bytes at the head of `s`. */
  function WordAt(s: seq<byte>, big: bool): word
    requires |s| >= 4
  {
    var b0: int, b1: int, b2: int, b3: int := s[0], s[1], s[2], s[3];
    if big then b0 * 0x100_0000 + b1 * 0x1_0000 + b2 * 0x100 + b3
    else b3 * 0x100_0000 + b2 * 0x1_0000 + b1 * 0x100 + b0
  }

  /** The four bytes `ByteBuffer::putInt` writes: those that read back as `w`. */
  function WordBytes(w: word, big: bool): (s: seq<byte>)
    ensures |s| == 4
    ensures WordAt(s, big) == w
  {
    WordHasBytes(w, big);
    WordBytesUnique(w, big);
    var s: seq<byte> :| |s| == 4 && WordAt(s, big) == w;
    s
  }

  lemma {:induction false} WordHasBytes(w: word, big: bool)
    ensures exists s: seq<byte> :: |s| == 4 && WordAt(s, big) == w
  {
    var hi, mid := w / 0x1_0000, w / 0x100;
    assert mid / 0x100 == hi;
    var b3: byte, b2: byte, b1: byte, b0: byte := hi / 0x100, hi % 0x100, mid % 0x100, w % 0x100;
    var s: seq<byte> := if big then [b3, b2, b1, b0] else [b0, b1, b2, b3];
    assert |s| == 4 && WordAt(s, big) == w;
  }

  lemma {:induction false} WordBytesUnique(w: word, big: bool)
    ensures forall s: seq<byte>, t: seq<byte> ::
              |s| == 4 && |t| == 4 && WordAt(s, big) == w && WordAt(t, big) == w ==> s == t
  {
    forall s: seq<byte>, t: seq<byte> | |s| == 4 && |t| == 4 && WordAt(s, big) == w && WordAt(t, big) == w
      ensures s == t
    {
      var i, j := if big then (0, 1) else (3, 2), if big then (2, 3) else (1, 0);
      assert s[i.0] == t[i.0] && s[i.1] == t[i.1] && s[j.0] == t[j.0] && s[j.1] == t[j.1];
    }
  }

  /** A 16-bit field. */
  type half = h: int | 0 <= h < 0x1_0000

  function HalfAt(s: seq<byte>, big: bool): half
    requires |s| >= 2
  {
    var b0: int, b1: int := s[0], s[1];
    if big then b0 * 0x100 + b1 else b1 * 0x100 + b0
  }

  function HalfBytes(h: half, big: bool): (s: seq<byte>)
    ensures |s| == 2 && HalfAt(s, big) == h
  {
    var b1: byte, b0: byte := h / 0x100, h % 0x100;
    if big then [b1, b0] else [b0, b1]
  }

  /** Two's complement reading of a word. */
  function Signed(w: word): int
  {
    if w < 0x8000_0000 then w else w - 0x1_0000_0000
  }

  function Min(a: nat, b: nat): nat
  {
    if a <= b then a else b
  }

  function Max(a: int, b: int): int
  {
    if a >= b then a else b
  }

  /** All bytes of a list of chunks, in order. */
  function Flatten(chunks: seq<seq<byte>>): seq<byte>
  {
    if chunks == [] then [] else chunks[0] + Flatten(chunks[1..])
  }

  lemma {:induction false} SplitFront<T>(a: seq<T>, b: seq<T>, n: nat)
    requires n <= |a|
    ensures (a + b)[..n] == a[..n] && (a + b)[n..] == a[n..] + b
  {
  }

  lemma {:induction false} ConcatAssociative<T>(a: seq<T>, b: seq<T>, c: seq<T>)
    ensures (a + b) + c == a + (b + c)
  {
  }
}
