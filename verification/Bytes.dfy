/** Bytes, machine words and their little-endian images, as they lie in memory and on disk. */
module Bytes {
  const WORD_LIMIT := 0x1_0000_0000

  type Byte = b: int | 0 <= b < 256
  type Word = w: int | 0 <= w < WORD_LIMIT

  /** The `size` low bytes of a value, least significant first. */
  function EncodeLE(value: int, size: nat): (r: seq<Byte>)
    ensures |r| == size
    decreases size
  {
    if size == 0 then [] else [value % 256] + EncodeLE(value / 256, size - 1)
  }

  function DecodeLE(bytes: seq<Byte>): (r: nat)
  {
    if bytes == [] then 0 else bytes[0] + 256 * DecodeLE(bytes[1..])
  }

  function Pow256(n: nat): (p: nat)
    ensures p > 0
  {
    if n == 0 then 1 else 256 * Pow256(n - 1)
  }

  lemma {:induction false} ProductStep(m: nat, d: nat)
    requires d >= 1
    ensures m * d >= m
  {
    assert m * d == m * (d - 1) + m;
    assert m * (d - 1) >= 0;
  }

  lemma QuotientNotLess(modulus: nat, q: int, r: nat, d: nat, r': nat)
    requires r < modulus && modulus * q + r == modulus * (q + d) + r'
    ensures d == 0
  {
    assert modulus * (q + d) == modulus * q + modulus * d;
    if d >= 1 {
      ProductStep(modulus, d);
    }
  }

  lemma QuotientIsUnique(modulus: nat, q: int, r: nat, q': int, r': nat)
    requires r < modulus && r' < modulus && modulus * q + r == modulus * q' + r'
    ensures q == q' && r == r'
  {
    if q < q' {
      QuotientNotLess(modulus, q, r, q' - q, r');
    } else {
      QuotientNotLess(modulus, q', r', q - q', r);
    }
  }

  lemma RemainderIs(value: int, modulus: nat, q: int, r: nat)
    requires r < modulus && value == modulus * q + r
    ensures value % modulus == r
  {
    QuotientIsUnique(modulus, value / modulus, value % modulus, q, r);
  }

  /** The low byte of a remainder is the value's own. */
  lemma LowByteOfRemainder(value: int, p: nat)
    requires p > 0
    ensures value % (256 * p) == value % 256 + 256 * (value / 256 % p)
  {
    var high := value / 256;
    var q, r := high / p, high % p;
    RemainderBelow(value % 256, r, p);
    assert 256 * (p * q) == (256 * p) * q;
    RemainderIs(value, 256 * p, q, 256 * r + value % 256);
  }

  lemma RemainderBelow(low: nat, r: nat, p: nat)
    requires low < 256 && r < p
    ensures 256 * r + low < 256 * p
  {
  }

  /** Decoding what was encoded gives the value back, reduced to the bytes kept. */
  lemma {:induction false} DecodeEncode(value: int, size: nat)
    ensures DecodeLE(EncodeLE(value, size)) == value % Pow256(size)
    decreases size
  {
    if size > 0 {
      DecodeEncode(value / 256, size - 1);
      assert EncodeLE(value, size)[1..] == EncodeLE(value / 256, size - 1);
      LowByteOfRemainder(value, Pow256(size - 1));
    }
  }

  lemma {:induction false} DecodeBound(bytes: seq<Byte>)
    ensures DecodeLE(bytes) < Pow256(|bytes|)
  {
    if bytes != [] {
      DecodeBound(bytes[1..]);
    }
  }

  lemma WordIsFourBytes()
    ensures Pow256(4) == WORD_LIMIT
  {
    assert Pow256(2) == 65536;
  }

  function EncodeWord(w: Word): (r: seq<Byte>)
    ensures |r| == 4
  {
    EncodeLE(w, 4)
  }

  function DecodeWord(bytes: seq<Byte>): (w: Word)
    requires |bytes| == 4
  {
    DecodeBound(bytes);
    WordIsFourBytes();
    DecodeLE(bytes)
  }

  lemma WordRoundTrip(w: Word)
    ensures DecodeWord(EncodeWord(w)) == w
  {
    WordIsFourBytes();
    DecodeEncode(w, 4);
  }

  function EncodeWords(ws: seq<Word>): (r: seq<Byte>)
    ensures |r| == 4 * |ws|
  {
    if ws == [] then [] else EncodeWord(ws[0]) + EncodeWords(ws[1..])
  }

  function DecodeWords(bytes: seq<Byte>): (ws: seq<Word>)
    requires |bytes| % 4 == 0
    ensures 4 * |ws| == |bytes|
  {
    if bytes == [] then [] else [DecodeWord(bytes[..4])] + DecodeWords(bytes[4..])
  }

  /** Raw memory written out and read back is the same array of words. */
  lemma {:induction false} WordsRoundTrip(ws: seq<Word>)
    ensures DecodeWords(EncodeWords(ws)) == ws
  {
    if ws != [] {
      var bytes := EncodeWords(ws);
      WordsRoundTrip(ws[1..]);
      WordRoundTrip(ws[0]);
      assert bytes[..4] == EncodeWord(ws[0]);
      assert bytes[4..] == EncodeWords(ws[1..]);
    }
  }
}
