/** Message text: decimal numbers as printf writes them and atoi reads them, the "%d_%s" framing, and itoa. */
module Texts {
  import opened Options

  // ---- decimal text ----

  function Digit(d: nat): (c: char)
    requires d < 10
  {
    '0' + d as char
  }

  predicate IsDigit(c: char) { '0' <= c <= '9' }

  function DecimalText(n: nat): (s: string)
    ensures s != "" && forall i :: 0 <= i < |s| ==> IsDigit(s[i])
  {
    if n < 10 then [Digit(n)] else DecimalText(n / 10) + [Digit(n % 10)]
  }

  /** printf("%d") */
  function IntText(n: int): (s: string)
    ensures s != "" && forall i :: 0 <= i < |s| ==> IsDigit(s[i]) || s[i] == '-'
  {
    if n < 0 then "-" + DecimalText(-n) else DecimalText(n)
  }

  /** The number the leading digits of `s` add to `acc`. */
  function DigitsValue(s: string, acc: int): (v: int) {
    if s == "" || !IsDigit(s[0]) then acc else DigitsValue(s[1..], acc * 10 + (s[0] - '0') as int)
  }

  predicate IsSpace(c: char) { c == ' ' || '\t' <= c <= '\r' }

  function Atoi(s: string): (v: int) {
    if s == "" then 0
    else if IsSpace(s[0]) then Atoi(s[1..])
    else if s[0] == '-' then -DigitsValue(s[1..], 0)
    else if s[0] == '+' then DigitsValue(s[1..], 0)
    else DigitsValue(s, 0)
  }

  lemma {:induction false} LastDigit(s: string, c: char, acc: int)
    requires IsDigit(c) && forall i :: 0 <= i < |s| ==> IsDigit(s[i])
    ensures DigitsValue(s + [c], acc) == DigitsValue(s, acc) * 10 + (c - '0') as int
  {
    if s == "" {
      assert s + [c] == [c] && [c][1..] == "";
    } else {
      assert (s + [c])[1..] == s[1..] + [c];
      LastDigit(s[1..], c, acc * 10 + (s[0] - '0') as int);
    }
  }

  lemma {:induction false} DecimalReadsBack(n: nat)
    ensures DigitsValue(DecimalText(n), 0) == n
  {
    if n < 10 {
      assert [Digit(n)][1..] == "";
    } else {
      DecimalReadsBack(n / 10);
      LastDigit(DecimalText(n / 10), Digit(n % 10), 0);
    }
  }

  /** What printf writes for a number, atoi reads as that number. */
  lemma AtoiIntText(n: int)
    ensures Atoi(IntText(n)) == n
  {
    DecimalReadsBack(if n < 0 then -n else n);
  }

  // ---- "%d_%s" ----

  /** Where parseValue stops: the first '_' from `start` on, or the end of the text. */
  function Delimiter(text: string, start: nat): (i: nat)
    requires start <= |text|
    ensures start <= i <= |text| && (i < |text| ==> text[i] == '_')
    ensures forall k :: start <= k < i ==> text[k] != '_'
    decreases |text| - start
  {
    if start == |text| || text[start] == '_' then start else Delimiter(text, start + 1)
  }

  /** The number at `start`, and the index after its delimiter (one past the terminator when there is no '_'). */
  function ParseValue(text: string, start: nat): (r: (int, nat))
    requires start <= |text|
    ensures start < r.1 <= |text| + 1
  {
    var i := Delimiter(text, start);
    (Atoi(text[start..i]), i + 1)
  }

  /** parseValue copies characters up to the delimiter, then reads the copy with atoi. */
  method ParseValueLoop(startIndex: nat, buf: string) returns (value: int, next: nat)
    requires startIndex <= |buf| && forall k :: 0 <= k < |buf| ==> buf[k] != '\0'
    ensures (value, next) == ParseValue(buf, startIndex)
  {
    var valueStr: string := "";
    var i := startIndex;
    var c := '?';
    while c != '_' && c != '\0'
      invariant startIndex <= i <= |buf| && valueStr == buf[startIndex..i]
      invariant c != '_' && c != '\0' && Delimiter(buf, startIndex) == Delimiter(buf, i)
      decreases |buf| - i
    {
      c := if i < |buf| then buf[i] else '\0';
      if c == '_' || c == '\0' {
        break;
      }
      valueStr := valueStr + [c];
      i := i + 1;
    }
    return Atoi(valueStr), i + 1;
  }

  /** sprintf("%d_%s", value, data) */
  function Frame(value: int, data: string): (text: string)
  {
    IntText(value) + "_" + data
  }

  /** parseValue undoes the framing: it gives back the number and the start of the data. */
  lemma FrameParses(value: int, data: string)
    ensures var (v, next) := ParseValue(Frame(value, data), 0);
            v == value && next <= |Frame(value, data)| && Frame(value, data)[next..] == data
  {
    var text, n := Frame(value, data), |IntText(value)|;
    assert text[n] == '_' && text[0..n] == IntText(value);
    var i := Delimiter(text, 0);
    assert forall k :: 0 <= k < n ==> text[k] == IntText(value)[k];
    AtoiIntText(value);
  }

  // ---- itoa ----

  const INT_LIMIT := 0x8000_0000

  predicate IsInt(v: int) { -INT_LIMIT <= v < INT_LIMIT }

  /** The value of a 32-bit int after overflow. */
  function WrapInt(v: int): (r: int)
    ensures IsInt(r) && (r - v) % 0x1_0000_0000 == 0
  {
    (v + INT_LIMIT) % 0x1_0000_0000 - INT_LIMIT
  }

  /** Division of C ints: the quotient is rounded toward zero. */
  function TruncDiv(a: int, b: int): (q: int)
    requires b > 0
  {
    if a < 0 then -(-a / b) else a / b
  }

  function Pow10(n: nat): (p: nat)
    ensures p > 0
  {
    if n == 0 then 1 else 10 * Pow10(n - 1)
  }

  /** myexp in 32-bit ints */
  function MyExp(n: nat): (p: int)
  {
    if n == 0 then 1 else WrapInt(MyExp(n - 1) * 10)
  }

  lemma TenDigits()
    ensures Pow10(9) == 1000000000 && Pow10(10) == 10000000000
  {
    assert Pow10(5) == 100000;
  }

  lemma WrapFits(v: int)
    requires IsInt(v)
    ensures WrapInt(v) == v
  {
  }

  lemma MyExpStep(i: nat)
    requires 0 < i < 10 && MyExp(i - 1) == Pow10(i - 1)
    ensures MyExp(i) == Pow10(i)
  {
    TenDigits();
    Pow10Grows(i, 9);
    WrapFits(Pow10(i));
  }

  lemma MyExpOverflows(i: nat)
    requires i > 0 && MyExp(i - 1) == 1000000000
    ensures MyExp(i) == 1410065408
  {
    assert (10000000000 + INT_LIMIT) % 0x1_0000_0000 == 1410065408 + INT_LIMIT;
  }

  /** The powers of ten, except that myexp(10) overflows. */
  lemma {:induction false} MyExpValues(i: nat)
    requires i <= 10
    ensures MyExp(i) == if i < 10 then Pow10(i) else 1410065408
    ensures 0 < MyExp(i) <= Pow10(i) && MyExp(i) <= 1410065408
  {
    TenDigits();
    if i > 0 {
      MyExpValues(i - 1);
      if i < 10 {
        MyExpStep(i);
      } else {
        MyExpOverflows(i);
      }
    }
    if i < 10 {
      Pow10Grows(i, 9);
    }
  }

  lemma {:induction false} Pow10Grows(a: nat, b: nat)
    requires a <= b
    ensures Pow10(a) <= Pow10(b)
    decreases b
  {
    if a < b { Pow10Grows(a, b - 1); }
  }

  method MyExpLoop(count: nat) returns (val: int)
    ensures val == MyExp(count)
  {
    val := 1;
    for i := 0 to count
      invariant val == MyExp(i)
    {
      val := WrapInt(val * 10);
    }
  }

  /** One less than the first i from `from` to 10 with val / myexp(i) == 0, if there is one. */
  function TopExponent(val: int, from: nat := 1): (r: Option<nat>)
    requires 1 <= from <= 11
    ensures r.Some? ==> from - 1 <= r.value <= 9
    decreases 11 - from
  {
    if from == 11 then None
    else
      MyExpValues(from);
      if TruncDiv(val, MyExp(from)) == 0 then Some(from - 1) else TopExponent(val, from + 1)
  }

  /** The characters itoa writes for the remaining value, from 10^i down. */
  function ItoaDigits(rest: int, i: nat): (s: seq<int>)
    ensures |s| == i + 1
    decreases i
  {
    var q := TruncDiv(rest, Pow10(i));
    if i == 0 then [48 + q] else [48 + q] + ItoaDigits(rest - q * Pow10(i), i - 1)
  }

  /** What itoa writes; None when `max` is never set. */
  function ItoaText(val: int): (r: Option<seq<int>>) {
    match TopExponent(val)
    case None => None
    case Some(max) => Some(ItoaDigits(val, max))
  }

  /** itoa on an array the text fits in. `ok` is whether `max` was set before it was used. */
  method Itoa(arr: array<int>, size: nat, val: int) returns (ok: bool)
    requires IsInt(val) && size <= arr.Length
    requires ItoaText(val).Some? ==> |ItoaText(val).value| <= size
    modifies arr
    ensures ok <==> ItoaText(val).Some?
    ensures ok ==> var text := ItoaText(val).value;
                   |text| <= size && arr[..|text|] == text && forall k :: |text| <= k < size ==> arr[k] == 0
  {
    var i := 0;
    while i < size
      invariant 0 <= i <= size && forall k :: 0 <= k < i ==> arr[k] == 0
    {
      arr[i] := 0;
      i := i + 1;
    }
    var max := FindMax(val);
    if max == -1 {
      return false;
    }
    WriteDigits(arr, size, val, max);
    return true;
  }

  /** The first loop of itoa; -1 stands for a `max` that was not set. */
  method FindMax(val: int) returns (max: int)
    ensures match TopExponent(val) case None => max == -1 case Some(m) => max == m
  {
    var i := 1;
    while i <= 10
      invariant 1 <= i <= 11 && TopExponent(val) == TopExponent(val, i)
    {
      MyExpValues(i);
      var e := MyExpLoop(i);
      if TruncDiv(val, e) == 0 {
        return i - 1;
      }
      i := i + 1;
    }
    return -1;
  }

  /** The second loop of itoa. */
  method WriteDigits(arr: array<int>, size: nat, val: int, max: nat)
    requires max <= 9 && max < size <= arr.Length && forall k :: 0 <= k < size ==> arr[k] == 0
    modifies arr
    ensures arr[..max + 1] == ItoaDigits(val, max) && forall k :: max + 1 <= k < size ==> arr[k] == 0
  {
    var subval, loc := 0, 0;
    var i: int := max;
    ghost var text := ItoaDigits(val, max);
    ghost var rest := text;
    while i >= 0
      invariant -1 <= i <= max && loc == max - i && |text| == max + 1
      invariant rest == text[loc..] && (i >= 0 ==> rest == ItoaDigits(val - subval, i))
      invariant forall k :: 0 <= k < loc ==> arr[k] == text[k]
      invariant forall k :: loc <= k < size ==> arr[k] == 0
    {
      MyExpValues(i);
      var e := MyExpLoop(i);
      var dig := 48 + TruncDiv(val - subval, e);
      rest := NextDigit(val, subval, i, e, dig);
      Suffix(text, loc, dig, rest);
      subval := subval + (dig - 48) * e;
      arr[loc] := dig;
      loc := loc + 1;
      i := i - 1;
    }
  }

  lemma Suffix(text: seq<int>, loc: nat, first: int, rest: seq<int>)
    requires loc <= |text| && text[loc..] == [first] + rest
    ensures loc < |text| && text[loc] == first && text[loc + 1..] == rest
  {
    assert text[loc..][0] == first && text[loc..][1..] == rest;
  }

  lemma NextDigit(val: int, subval: int, i: nat, e: int, dig: int) returns (rest: seq<int>)
    requires e == Pow10(i) && dig == 48 + TruncDiv(val - subval, e)
    ensures ItoaDigits(val - subval, i) == [dig] + rest
    ensures rest == if i > 0 then ItoaDigits(val - (subval + (dig - 48) * e), i - 1) else []
  {
    rest := if i > 0 then ItoaDigits(val - (subval + (dig - 48) * e), i - 1) else [];
  }

  function AsText(codes: seq<int>): (s: string)
    requires forall k :: 0 <= k < |codes| ==> 0 <= codes[k] < 128
    ensures |s| == |codes|
  {
    seq(|codes|, k requires 0 <= k < |codes| => codes[k] as char)
  }

  lemma MulGrows(a: nat, b: nat, p: nat)
    requires a <= b
    ensures a * p <= b * p
  {
  }

  lemma Shifted(acc: int, q: int, p: int, rest: int)
    ensures (acc * 10 + q) * p + (rest - q * p) == acc * (10 * p) + rest
  {
  }

  lemma Quotient(rest: nat, p: nat)
    requires p > 0 && rest < 10 * p
    ensures var q := rest / p; 0 <= q < 10 && 0 <= rest - q * p < p
  {
    var q := rest / p;
    assert rest == q * p + rest % p;
    if q >= 10 {
      MulGrows(10, q, p);
    }
  }

  /** The digits of a non-negative number read back as that number. */
  lemma {:induction false} DigitsOfNonNegative(rest: nat, i: nat, acc: int)
    requires rest < Pow10(i + 1)
    ensures forall k :: 0 <= k <= i ==> 48 <= ItoaDigits(rest, i)[k] < 58
    ensures DigitsValue(AsText(ItoaDigits(rest, i)), acc) == acc * Pow10(i + 1) + rest
    decreases i
  {
    var p := Pow10(i);
    Quotient(rest, p);
    var q := rest / p;
    if i == 0 {
      assert ItoaDigits(rest, i) == [48 + rest] + [];
      FirstDigit(rest, [], acc);
    } else {
      var left := rest - q * p;
      DigitsOfNonNegative(left, i - 1, acc * 10 + q);
      FirstDigit(q, ItoaDigits(left, i - 1), acc);
      assert ItoaDigits(rest, i) == [48 + q] + ItoaDigits(left, i - 1);
      Shifted(acc, q, p, rest);
    }
  }

  lemma FirstDigit(q: nat, codes: seq<int>, acc: int)
    requires q < 10 && forall k :: 0 <= k < |codes| ==> 48 <= codes[k] < 58
    ensures var all := [48 + q] + codes;
            && (forall k :: 0 <= k < |all| ==> 48 <= all[k] < 58)
            && DigitsValue(AsText(all), acc) == DigitsValue(AsText(codes), acc * 10 + q)
  {
    var s := AsText([48 + q] + codes);
    assert s[0] == Digit(q) && s[1..] == AsText(codes);
  }

  lemma {:induction false} DigitsOfNegative(rest: int, i: nat)
    requires rest <= 0 && -rest < Pow10(i + 1)
    ensures forall k :: 0 <= k <= i ==> 38 < ItoaDigits(rest, i)[k] <= 48
    decreases i
  {
    var p := Pow10(i);
    Quotient(-rest, p);
    var q := -rest / p;
    assert TruncDiv(rest, p) == -q;
    if i > 0 {
      assert rest - (-q) * p == rest + q * p;
      DigitsOfNegative(rest + q * p, i - 1);
    }
  }

  lemma {:induction false} NoDigitAboveZero(s: string)
    requires forall k :: 0 <= k < |s| ==> s[k] <= '0'
    ensures DigitsValue(s, 0) == 0
  {
    if s != "" && IsDigit(s[0]) {
      NoDigitAboveZero(s[1..]);
    }
  }

  function Magnitude(v: int): nat { if v < 0 then -v else v }

  lemma QuotientIsZero(val: int, e: nat)
    requires e > 0
    ensures TruncDiv(val, e) == 0 <==> Magnitude(val) < e
  {
  }

  /** The loop finds an exponent exactly for magnitudes below 1410065408. */
  lemma {:induction false} TopExponentIs(val: int, from: nat)
    requires 1 <= from <= 10
    ensures var r := TopExponent(val, from);
            && (r.Some? <==> Magnitude(val) < 1410065408)
            && (r.Some? ==> Magnitude(val) < Pow10(r.value + 1))
    decreases 11 - from
  {
    MyExpValues(from);
    QuotientIsZero(val, MyExp(from));
    if from < 10 {
      TopExponentIs(val, from + 1);
    } else {
      assert TopExponent(val, 11).None?;
    }
  }

  /** The exponent found is not too large. */
  lemma {:induction false} TopExponentReached(val: int, from: nat)
    requires 1 <= from <= 10 && (from > 1 ==> Pow10(from - 1) <= Magnitude(val))
    ensures var r := TopExponent(val, from); r.Some? && r.value > 0 ==> Pow10(r.value) <= Magnitude(val)
    decreases 11 - from
  {
    MyExpValues(from);
    QuotientIsZero(val, MyExp(from));
    if from < 10 && TruncDiv(val, MyExp(from)) != 0 {
      TopExponentReached(val, from + 1);
    } else {
      assert TopExponent(val, 11).None?;
    }
  }

  /** itoa writes no leading zero: with ItoaReadsBackIff, this makes its text the one printf writes. */
  lemma ItoaHasNoLeadingZero(val: int)
    ensures var r := ItoaText(val); r.Some? && |r.value| > 1 ==> r.value[0] != 48
  {
    TopExponentReached(val, 1);
    var r := TopExponent(val);
    if r.Some? {
      QuotientIsZero(val, Pow10(r.value));
    }
  }

  lemma {:induction false} AtoiOfDigits(s: string)
    requires s != "" && forall k :: 0 <= k < |s| ==> IsDigit(s[k])
    ensures Atoi(s) == DigitsValue(s, 0)
  {
    assert IsDigit(s[0]);
  }

  lemma {:induction false} AtoiOfLow(s: string)
    requires s != "" && forall k :: 0 <= k < |s| ==> '&' < s[k] <= '0'
    ensures Atoi(s) == 0
  {
    assert '&' < s[0] <= '0';
    NoDigitAboveZero(s);
    NoDigitAboveZero(s[1..]);
  }

  lemma {:induction false} NonNegativeReadsBack(val: nat, max: nat)
    requires val < Pow10(max + 1)
    ensures forall k :: 0 <= k <= max ==> 48 <= ItoaDigits(val, max)[k] < 58
    ensures Atoi(AsText(ItoaDigits(val, max))) == val
  {
    DigitsOfNonNegative(val, max, 0);
    AtoiOfDigits(AsText(ItoaDigits(val, max)));
  }

  lemma {:induction false} NegativeReadsZero(val: int, max: nat)
    requires val < 0 && -val < Pow10(max + 1)
    ensures forall k :: 0 <= k <= max ==> 38 < ItoaDigits(val, max)[k] <= 48
    ensures Atoi(AsText(ItoaDigits(val, max))) == 0
  {
    DigitsOfNegative(val, max);
    AtoiOfLow(AsText(ItoaDigits(val, max)));
  }

  /** itoa's text reads back as its argument exactly for 0 <= val < 1410065408: a negative number gives
      characters below '0', and past the overflow of myexp(10) the loop bound is never set. */
  lemma ItoaReadsBackIff(val: int)
    requires IsInt(val)
    ensures var r := ItoaText(val);
            && (r.Some? ==> forall k :: 0 <= k < |r.value| ==> 0 <= r.value[k] < 128)
            && (r.Some? && Atoi(AsText(r.value)) == val <==> 0 <= val < 1410065408)
  {
    TopExponentIs(val, 1);
    match TopExponent(val)
    case None =>
    case Some(max) =>
      if val >= 0 {
        NonNegativeReadsBack(val, max);
      } else {
        NegativeReadsZero(val, max);
      }
  }
}
