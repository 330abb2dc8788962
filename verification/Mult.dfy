/** The R2000 multiplication: 32 shift-and-add steps on 32-bit words, with a two's complement fix-up. */
module Mult {
  import opened BitMaps
  import opened Texts

  const WORD := 0x1_0000_0000

  type UInt = x: int | 0 <= x < WORD

  type Int = x: int | -INT_LIMIT <= x < INT_LIMIT

  /** The bits of an int, read as an unsigned word, and back. */
  function Unsigned(x: Int): (u: UInt) { if x < 0 then x + WORD else x }

  function Signed(u: UInt): (x: Int) { if u >= INT_LIMIT then u - WORD else u }

  function Long(hi: UInt, lo: UInt): (v: nat) { hi * WORD + lo }

  lemma ProductBound(x: UInt, y: UInt)
    ensures 0 <= x * y < WORD * WORD
  {
    MulGrows(x, WORD - 1, y);
    MulGrows(y, WORD - 1, WORD - 1);
    assert x * y == y * x && (WORD - 1) * y == y * (WORD - 1);
  }

  lemma Distribute(bit: nat, rest: nat, b: nat)
    ensures (2 * rest + bit) * b == bit * b + rest * (2 * b)
  {
  }

  lemma AtLeastOnce(r: nat, b: nat)
    requires r >= 1
    ensures r * b >= b
  {
    MulGrows(1, r, b);
  }

  /** One step on values: the lowest bit's share is added, twice the addend is left for the others. */
  lemma StepSum(acc: nat, rest: nat, addend: nat, product: nat)
    requires acc + rest * addend == product
    ensures rest % 2 == 1 ==> acc + addend <= product
    ensures rest / 2 >= 1 ==> 2 * addend <= product
    ensures rest == 1 ==> acc + addend == product
    ensures (acc + if rest % 2 == 1 then addend else 0) + (rest / 2) * (2 * addend) == product
  {
    Distribute(rest % 2, rest / 2, addend);
    assert rest == 2 * (rest / 2) + rest % 2;
    if rest / 2 >= 1 { AtLeastOnce(rest / 2, 2 * addend); }
  }

  lemma NothingLeft(addend: nat, addend': nat, rest: nat)
    requires rest >= 1 ==> addend' == addend
    ensures rest * addend' == rest * addend
  {
  }

  /** The double word plus the shifted addend, with the carry found by comparison. */
  method AddShifted(hi: UInt, lo: UInt, bHi: UInt, bLo: UInt) returns (hi': UInt, lo': UInt)
    requires Long(hi, lo) + Long(bHi, bLo) < WORD * WORD
    ensures Long(hi', lo') == Long(hi, lo) + Long(bHi, bLo)
  {
    lo' := (lo + bLo) % WORD;
    hi' := hi;
    if lo' < bLo {
      hi' := (hi' + 1) % WORD;
    }
    hi' := (hi' + bHi) % WORD;
  }

  /** The addend moves one bit up; the bit above the double word is lost. */
  method ShiftUp(bHi: UInt, bLo: UInt) returns (bHi': UInt, bLo': UInt)
    ensures 2 * Long(bHi, bLo) < WORD * WORD ==> Long(bHi', bLo') == 2 * Long(bHi, bLo)
  {
    bHi' := (bHi * 2) % WORD;
    if bLo >= INT_LIMIT {
      bHi' := bHi' - bHi' % 2 + 1;
    }
    bLo' := (bLo * 2) % WORD;
  }

  /** The bits of `a` still to come at step i, as the arithmetic right shift keeps them: the sign is copied in from
      above, which matters to no step. */
  predicate Shifted(a: Int, rest: nat, i: nat, negative: bool)
    requires i <= 32
  {
    rest < Pow2(32 - i) && a == rest - if negative then Pow2(32 - i) else 0
  }

  lemma ShiftDown(a: Int, rest: nat, i: nat, negative: bool)
    requires i < 32 && Shifted(a, rest, i, negative)
    ensures Shifted(a / 2, rest / 2, i + 1, negative) && a % 2 == rest % 2
  {
  }

  /** The main loop: every step keeps the sum of what is accumulated and what is still to be added. */
  method MultiplyUnsigned(a0: Int, b: UInt) returns (hi: UInt, lo: UInt)
    ensures Long(hi, lo) == Unsigned(a0) * b
  {
    var a := a0;
    var bHi, bLo: UInt := 0, b;
    hi, lo := 0, 0;
    ghost var rest: nat := Unsigned(a0);
    ghost var product := Unsigned(a0) * b;
    ProductBound(Unsigned(a0), b);
    Pow2Word();
    var i := 0;
    while i < 32
      invariant 0 <= i <= 32 && Shifted(a, rest, i, a0 < 0)
      invariant Long(hi, lo) + rest * Long(bHi, bLo) == product < WORD * WORD
    {
      ghost var addend := Long(bHi, bLo);
      ShiftDown(a, rest, i, a0 < 0);
      StepSum(Long(hi, lo), rest, addend, product);
      if a % 2 == 1 {
        hi, lo := AddShifted(hi, lo, bHi, bLo);
        if a == 0 || a == 1 {
          OnlyBit(a, rest, i, a0 < 0);
          break;
        }
      }
      bHi, bLo := ShiftUp(bHi, bLo);
      NothingLeft(2 * addend, Long(bHi, bLo), rest / 2);
      a := a / 2;
      rest := rest / 2;
      i := i + 1;
    }
  }

  /** The early break: with no other bit set in the shifted word nothing is left to add. */
  lemma OnlyBit(a: Int, rest: nat, i: nat, negative: bool)
    requires i < 32 && Shifted(a, rest, i, negative) && a == 1
    ensures rest == 1
  {
  }

  /** -x in 32-bit ints: the most negative number is its own negation. */
  function Negated(x: Int): (r: Int)
    ensures Unsigned(if x < 0 then r else x) == Magnitude(x)
  {
    if x == -INT_LIMIT then x else -x
  }

  /** The two's complement of a double word. */
  method Complement(hi: UInt, lo: UInt) returns (hi': UInt, lo': UInt)
    requires Long(hi, lo) > 0
    ensures Long(hi', lo') == WORD * WORD - Long(hi, lo)
  {
    hi' := WORD - 1 - hi;
    lo' := WORD - 1 - lo;
    lo' := (lo' + 1) % WORD;
    if lo' == 0 {
      hi' := (hi' + 1) % WORD;
    }
  }

  /** For all operands, the most negative ones included, hi and lo are the 64-bit product: signed, the high word
      with its sign over the low one; unsigned, the two words of the product of the operands' bits. */
  method Multiply(a: Int, b: Int, signedArith: bool) returns (hi: Int, lo: Int)
    ensures signedArith ==> hi * WORD + Unsigned(lo) == a * b
    ensures !signedArith ==> Long(Unsigned(hi), Unsigned(lo)) == Unsigned(a) * Unsigned(b)
  {
    if a == 0 || b == 0 {
      return 0, 0;
    }
    var negative, x, y := false, a, b;
    if signedArith {
      if x < 0 {
        negative := !negative;
        x := Negated(x);
      }
      if y < 0 {
        negative := !negative;
        y := Negated(y);
      }
    }
    var h, l := MultiplyUnsigned(x, Unsigned(y));
    if signedArith {
      SignedProduct(a, b);
    }
    if negative {
      h, l := Complement(h, l);
    }
    hi, lo := Signed(h), Signed(l);
  }

  lemma SignedProduct(a: Int, b: Int)
    requires a != 0 && b != 0
    ensures 0 < Magnitude(a) * Magnitude(b) <= INT_LIMIT * INT_LIMIT
    ensures a * b == if (a < 0) != (b < 0) then -(Magnitude(a) * Magnitude(b)) else Magnitude(a) * Magnitude(b)
  {
    var x, y := Magnitude(a), Magnitude(b);
    MulGrows(y, INT_LIMIT, x);
    MulGrows(x, INT_LIMIT, INT_LIMIT);
    AtLeastOnce(x, y);
    assert x * y == y * x && x * INT_LIMIT == INT_LIMIT * x;
  }
}
