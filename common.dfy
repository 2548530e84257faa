/** Small shared vocabulary: an option type, bytes, and Python's rendering of
    integers as decimal text (`str(n)`, `f"{n:02d}"`). */
module Common {

  datatype Option<T> = None | Some(value: T)
  {
    predicate IsFailure() { None? }

    function PropagateFailure<U>(): Option<U>
      requires None?
    {
      None
    }

    function Extract(): T
      requires Some?
    {
      value
    }
  }

  /** A byte as Python's `bytes` holds it. */
  type byte = x: int | 0 <= x < 256

  predicate IsDigit(c: char) { '0' <= c <= '9' }

  predicate AllDigits(s: string) { forall i :: 0 <= i < |s| ==> IsDigit(s[i]) }

  function DigitChar(d: int): (c: char)
    requires 0 <= d < 10
    ensures IsDigit(c) && c as int - '0' as int == d
  {
    ('0' as int + d) as char
  }

  /** The number a run of decimal digits denotes (most significant first). */
  function DigitsValue(s: string): nat
    requires AllDigits(s)
  {
    if s == [] then 0
    else DigitsValue(s[..|s| - 1]) * 10 + (s[|s| - 1] as int - '0' as int)
  }

  /** `str(n)` for a non-negative integer: no sign, no leading zero. */
  function NatToString(n: nat): (r: string)
    ensures |r| >= 1 && AllDigits(r)
    ensures DigitsValue(r) == n
    ensures r[0] == '0' ==> n == 0
  {
    if n < 10 then [DigitChar(n)]
    else
      var prefix := NatToString(n / 10);
      assert (prefix + [DigitChar(n % 10)])[..|prefix|] == prefix;
      prefix + [DigitChar(n % 10)]
  }

  /** `str(i)` for any integer: a leading '-' for negative values. */
  function IntToString(i: int): (r: string)
    ensures |r| >= 1
    ensures i >= 0 ==> r == NatToString(i)
    ensures i < 0 ==> r == "-" + NatToString(-i)
  {
    if i < 0 then "-" + NatToString(-i) else NatToString(i)
  }

  /** `f"{n:02d}"` for 0 <= n < 100: exactly two digits, zero padded. */
  function Pad2(n: int): (r: string)
    requires 0 <= n < 100
    ensures |r| == 2 && AllDigits(r) && DigitsValue(r) == n
  {
    var r := [DigitChar(n / 10), DigitChar(n % 10)];
    assert r[..1][..0] == [];
    assert DigitsValue(r[..1]) == n / 10;
    r
  }

  /** `f"{n:04d}"` for 0 <= n < 10000: exactly four digits, zero padded. */
  function Pad4(n: int): (r: string)
    requires 0 <= n < 10000
    ensures |r| == 4 && AllDigits(r) && DigitsValue(r) == n
  {
    var r := Pad2(n / 100) + Pad2(n % 100);
    DigitsValueAppend2(Pad2(n / 100), Pad2(n % 100));
    r
  }

  lemma {:induction false} DigitsValueAppend2(a: string, b: string)
    requires AllDigits(a) && AllDigits(b) && |b| == 2
    ensures AllDigits(a + b)
    ensures DigitsValue(a + b) == DigitsValue(a) * 100 + DigitsValue(b)
  {
    var ab := a + b;
    var a1 := a + b[..1];
    assert ab[..|ab| - 1] == a1;
    assert a1[..|a1| - 1] == a;
    assert DigitsValue(a1) == DigitsValue(a) * 10 + (b[0] as int - '0' as int);
    assert b[..1][..0] == [];
    assert DigitsValue(b[..1]) == b[0] as int - '0' as int;
  }

  /** Python's `<` on `str`: lexicographic by code point, a proper prefix is smaller. */
  predicate LexLess(a: string, b: string)
  {
    if b == [] then false
    else if a == [] then true
    else if a[0] != b[0] then a[0] < b[0]
    else LexLess(a[1..], b[1..])
  }

  /** Equal-length digit strings compare lexicographically exactly as their values do. */
  lemma {:induction false} LexLessDigits(a: string, b: string)
    requires AllDigits(a) && AllDigits(b) && |a| == |b|
    ensures LexLess(a, b) <==> DigitsValue(a) < DigitsValue(b)
  {
    if |a| > 0 {
      assert LexLess(a, b) <==> a[0] < b[0] || (a[0] == b[0] && LexLess(a[1..], b[1..]));
      DigitsSplitFirst(a);
      DigitsSplitFirst(b);
      LexLessDigits(a[1..], b[1..]);
      DigitsBound(a[1..]);
      DigitsBound(b[1..]);
      CompareSplit(a[0] as int - '0' as int, b[0] as int - '0' as int,
                   DigitsValue(a[1..]), DigitsValue(b[1..]), Pow10(|a| - 1));
    }
  }

  /** Two numbers written as a leading digit times p plus a remainder below p
      compare first by the leading digit, then by the remainder. */
  lemma CompareSplit(da: int, db: int, ra: int, rb: int, p: int)
    requires 0 <= ra < p && 0 <= rb < p
    ensures da * p + ra < db * p + rb <==> da < db || (da == db && ra < rb)
  {
    if da < db {
      MulMono(da + 1, db, p);
    } else if db < da {
      MulMono(db + 1, da, p);
    }
  }

  lemma MulMono(x: int, y: int, p: nat)
    requires x <= y
    ensures x * p <= y * p
  {
  }

  function Pow10(k: nat): (r: nat)
    ensures r >= 1
  {
    if k == 0 then 1 else 10 * Pow10(k - 1)
  }

  lemma {:induction false} DigitsBound(s: string)
    requires AllDigits(s)
    ensures DigitsValue(s) < Pow10(|s|)
  {
    if s != [] {
      DigitsBound(s[..|s| - 1]);
    }
  }

  /** Reading the first digit off: value = first * 10^(len-1) + value of the rest. */
  lemma {:induction false} DigitsSplitFirst(s: string)
    requires AllDigits(s) && |s| > 0
    ensures DigitsValue(s) == (s[0] as int - '0' as int) * Pow10(|s| - 1) + DigitsValue(s[1..])
  {
    if |s| > 1 {
      var init, rest := s[..|s| - 1], s[1..];
      var d, last := s[0] as int - '0' as int, s[|s| - 1] as int - '0' as int;
      DigitsSplitFirst(init);
      assert init[1..] == rest[..|rest| - 1];
      assert init[0] == s[0];
      var p, v := Pow10(|s| - 2), DigitsValue(init[1..]);
      assert DigitsValue(init) == d * p + v;
      assert DigitsValue(rest) == v * 10 + last;
      assert DigitsValue(s) == DigitsValue(init) * 10 + last;
      ShiftDigit(d, p, v);
      assert Pow10(|s| - 1) == p * 10;
    } else {
      assert s[1..] == [];
    }
  }

  /** A non-empty run of decimal digits read as a number, or None. */
  function ReadNat(s: string): (r: Option<nat>)
    ensures r.Some? <==> |s| >= 1 && AllDigits(s)
  {
    if |s| >= 1 && AllDigits(s) then Some(DigitsValue(s)) else None
  }

  /** `int(s)` on what `str` writes: digits, with a leading '-' when
      negative. */
  function ReadInt(s: string): (r: Option<int>)
  {
    if |s| >= 2 && s[0] == '-' then
      (if ReadNat(s[1..]).Some? then Some(-(ReadNat(s[1..]).value as int)) else None)
    else if ReadNat(s).Some? then Some(ReadNat(s).value as int)
    else None
  }

  /** `str` of an integer reads back as that integer. */
  lemma ReadIntString(i: int)
    ensures ReadInt(IntToString(i)) == Some(i)
  {
    if i < 0 {
      assert ("-" + NatToString(-i))[1..] == NatToString(-i);
    } else {
      assert IsDigit(NatToString(i)[0]);
    }
  }

  /** The position of the first `c` in `s`, or `|s|` when there is none. */
  function IndexOf(s: string, c: char): (k: nat)
    ensures k <= |s| && (k < |s| ==> s[k] == c)
    ensures forall i :: 0 <= i < k ==> s[i] != c
  {
    if s == [] || s[0] == c then 0 else 1 + IndexOf(s[1..], c)
  }

  /** The first `c` after a stretch without one. */
  lemma IndexOfAfter(a: string, c: char, b: string)
    requires forall i :: 0 <= i < |a| ==> a[i] != c
    ensures IndexOf(a + [c] + b, c) == |a|
  {
    var t := a + [c] + b;
    assert t[|a|] == c;
  }

  lemma ShiftDigit(d: int, p: int, v: int)
    ensures (d * p + v) * 10 == d * (p * 10) + v * 10
  {
  }

  /** Python's `int(a / b)` for a positive divisor: the quotient truncated
      toward zero. */
  function TruncDiv(a: int, b: int): (q: int)
    requires b > 0
    ensures a >= 0 ==> q * b <= a < (q + 1) * b
    ensures a < 0 ==> (q - 1) * b < a <= q * b
  {
    if a >= 0 then a / b else -((-a) / b)
  }

  /** Python's `int(x)` on a number: truncation toward zero. */
  function Trunc(x: real): (n: int)
    ensures x >= 0.0 ==> n as real <= x < n as real + 1.0
    ensures x < 0.0 ==> n as real - 1.0 < x <= n as real
  {
    if x >= 0.0 then x.Floor else -((-x).Floor)
  }
}
