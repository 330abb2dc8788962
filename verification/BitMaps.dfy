/** The word-packed bit set: bit operations on words, their meaning as a sequence of booleans, and the class. */
module BitMaps {
  import opened Bytes

  const BITS_IN_WORD := 32

  function DivRoundUp(n: nat, s: nat): (r: nat)
    requires s > 0
  {
    n / s + if n % s > 0 then 1 else 0
  }

  // ---- bits of a word ----

  /** w & (1 << b), as a test */
  predicate TestBit(w: nat, b: nat) {
    if b == 0 then w % 2 == 1 else TestBit(w / 2, b - 1)
  }

  /** w | (1 << b) */
  function SetBit(w: nat, b: nat): (r: nat)
    decreases b
  {
    if b == 0 then w - w % 2 + 1 else 2 * SetBit(w / 2, b - 1) + w % 2
  }

  /** w & ~(1 << b) */
  function ClearBit(w: nat, b: nat): (r: nat)
    decreases b
  {
    if b == 0 then w - w % 2 else 2 * ClearBit(w / 2, b - 1) + w % 2
  }

  function Pow2(n: nat): (p: nat)
    ensures p > 0
  {
    if n == 0 then 1 else 2 * Pow2(n - 1)
  }

  lemma Pow2Word()
    ensures Pow2(32) == WORD_LIMIT
  {
    assert Pow2(8) == 256;
    assert Pow2(16) == 256 * 256;
    assert Pow2(24) == 256 * 256 * 256;
  }

  /** Setting or clearing one bit changes that bit alone. */
  lemma {:induction false} OneBitChanges(w: nat, b: nat, c: nat)
    ensures TestBit(SetBit(w, b), c) <==> b == c || TestBit(w, c)
    ensures TestBit(ClearBit(w, b), c) <==> b != c && TestBit(w, c)
    decreases b
  {
    if b > 0 && c > 0 {
      OneBitChanges(w / 2, b - 1, c - 1);
      assert SetBit(w, b) / 2 == SetBit(w / 2, b - 1);
      assert ClearBit(w, b) / 2 == ClearBit(w / 2, b - 1);
    } else if c > 0 {
      assert SetBit(w, b) / 2 == w / 2 && ClearBit(w, b) / 2 == w / 2;
    }
  }

  lemma {:induction false} OneBitFits(w: nat, b: nat, n: nat)
    requires w < Pow2(n) && b < n
    ensures SetBit(w, b) < Pow2(n) && ClearBit(w, b) < Pow2(n)
    decreases b
  {
    if b > 0 {
      OneBitFits(w / 2, b - 1, n - 1);
    }
  }

  // ---- bits of an array of words ----

  /** The first `n` bits stored in the words. */
  function BitsOf(words: seq<Word>, n: nat): (bits: seq<bool>)
    requires |words| == DivRoundUp(n, BITS_IN_WORD)
    ensures |bits| == n
    ensures forall k :: 0 <= k < n ==> bits[k] == TestBit(words[k / BITS_IN_WORD], k % BITS_IN_WORD)
  {
    seq(n, k requires 0 <= k < n => TestBit(words[k / BITS_IN_WORD], k % BITS_IN_WORD))
  }

  lemma MarkWord(words: seq<Word>, n: nat, which: nat, value: bool)
    requires |words| == DivRoundUp(n, BITS_IN_WORD) && which < n
    ensures var (i, b) := (which / BITS_IN_WORD, which % BITS_IN_WORD);
            var w := if value then SetBit(words[i], b) else ClearBit(words[i], b);
            w < WORD_LIMIT && BitsOf(words[i := w], n) == BitsOf(words, n)[which := value]
  {
    var (i, b) := (which / BITS_IN_WORD, which % BITS_IN_WORD);
    Pow2Word();
    OneBitFits(words[i], b, 32);
    var w := if value then SetBit(words[i], b) else ClearBit(words[i], b);
    var after, expected := BitsOf(words[i := w], n), BitsOf(words, n)[which := value];
    forall k | 0 <= k < n ensures after[k] == expected[k] {
      OneBitChanges(words[i], b, k % BITS_IN_WORD);
      assert k == which <==> k / BITS_IN_WORD == i && k % BITS_IN_WORD == b;
    }
  }

  /** The first clear bit at or after `from`, or -1. */
  function FirstClear(bits: seq<bool>, from: nat := 0): (i: int)
    requires from <= |bits|
    ensures i == -1 || from <= i < |bits|
    ensures i == -1 ==> forall k :: from <= k < |bits| ==> bits[k]
    ensures i != -1 ==> !bits[i] && forall k :: from <= k < i ==> bits[k]
    decreases |bits| - from
  {
    if from == |bits| then -1 else if !bits[from] then from else FirstClear(bits, from + 1)
  }

  /** How many bits before `n` are clear. */
  function CountClear(bits: seq<bool>, n: nat): (c: nat)
    requires n <= |bits|
    ensures c <= n
  {
    if n == 0 then 0 else CountClear(bits, n - 1) + if bits[n - 1] then 0 else 1
  }

  /** A clear bit exists exactly when the count is positive, and marking it takes one from the count. */
  lemma {:induction false} CountAfterMark(bits: seq<bool>, which: nat, n: nat)
    requires which < |bits| && !bits[which] && n <= |bits|
    ensures CountClear(bits[which := true], n) == CountClear(bits, n) - if which < n then 1 else 0
    decreases n
  {
    if n > 0 {
      CountAfterMark(bits, which, n - 1);
    }
  }

  lemma {:induction false} PositiveCountHasClear(bits: seq<bool>, n: nat)
    requires n <= |bits| && CountClear(bits, n) > 0
    ensures exists k :: 0 <= k < n && !bits[k]
    decreases n
  {
    if bits[n - 1] {
      PositiveCountHasClear(bits, n - 1);
    }
  }

  class BitMap {
    const numBits: nat
    const words: array<Word>

    ghost predicate Valid() {
      words.Length == DivRoundUp(numBits, BITS_IN_WORD)
    }

    ghost function Bits(): (bits: seq<bool>)
      requires Valid()
      reads this, words
      ensures |bits| == numBits
    {
      BitsOf(words[..], numBits)
    }

    /** Bits start out clear; the words come from uninitialised memory and are cleared bit by bit. */
    constructor (nitems: nat)
      ensures Valid() && fresh(words) && numBits == nitems
      ensures forall k :: 0 <= k < nitems ==> !Bits()[k]
    {
      numBits := nitems;
      words := new Word[DivRoundUp(nitems, BITS_IN_WORD)];
      new;
      var i := 0;
      while i < numBits
        invariant 0 <= i <= numBits && Valid()
        invariant forall k :: 0 <= k < i ==> !Bits()[k]
      {
        Clear(i);
        i := i + 1;
      }
    }

    method Mark(which: nat)
      requires Valid() && which < numBits
      modifies words
      ensures Bits() == old(Bits())[which := true]
    {
      MarkWord(words[..], numBits, which, true);
      var i := which / BITS_IN_WORD;
      ghost var before := words[..];
      words[i] := SetBit(words[i], which % BITS_IN_WORD);
      assert words[..] == before[i := words[i]];
    }

    method Clear(which: nat)
      requires Valid() && which < numBits
      modifies words
      ensures Bits() == old(Bits())[which := false]
    {
      MarkWord(words[..], numBits, which, false);
      var i := which / BITS_IN_WORD;
      ghost var before := words[..];
      words[i] := ClearBit(words[i], which % BITS_IN_WORD);
      assert words[..] == before[i := words[i]];
    }

    method Test(which: nat) returns (r: bool)
      requires Valid() && which < numBits
      ensures r == Bits()[which]
    {
      r := TestBit(words[which / BITS_IN_WORD], which % BITS_IN_WORD);
    }

    /** Takes the first clear bit and sets it; -1 and no change when there is none. */
    method Find() returns (r: int)
      requires Valid()
      modifies words
      ensures r == FirstClear(old(Bits()))
      ensures Bits() == if r == -1 then old(Bits()) else old(Bits())[r := true]
    {
      var i := 0;
      while i < numBits
        invariant 0 <= i <= numBits && words[..] == old(words[..])
        invariant FirstClear(Bits()) == FirstClear(Bits(), i)
      {
        var used := Test(i);
        if !used {
          Mark(i);
          return i;
        }
        i := i + 1;
      }
      return -1;
    }

    method NumClear() returns (count: nat)
      requires Valid()
      ensures count == CountClear(Bits(), numBits)
    {
      count := 0;
      var i := 0;
      while i < numBits
        invariant 0 <= i <= numBits && count == CountClear(Bits(), i)
      {
        var used := Test(i);
        if !used {
          count := count + 1;
        }
        i := i + 1;
      }
    }
  }
}
