/** Exact equality of JSON numbers by digit-string shifting
    (operator/internal/renderer/overrides.go, numbersEqual and ratFromNumber).
    A big.Rat is modelled by the real it holds. */
module Numbers {
  import opened Wrappers
  import opened Strings

  // ------------------------------------------------------- section 6 of RFC 8259

  /** A JSON number: [ "-" ] int [ "." frac ] [ e exponent ]. */
  datatype Literal = Literal(negative: bool, whole: string, frac: string, exponent: Option<Exponent>)

  datatype Exponent = Exponent(mark: char, sign: string, digits: string)

  ghost predicate Json(n: Literal) {
    && n.whole != "" && AllDigits(n.whole) && (n.whole[0] == '0' ==> n.whole == "0")
    && AllDigits(n.frac)
    && (n.exponent.Some? ==>
          var x := n.exponent.value;
          x.mark in {'e', 'E'} && x.sign in {"", "+", "-"} && x.digits != "" && AllDigits(x.digits))
  }

  function Sign(n: Literal): string { if n.negative then "-" else "" }

  function Mantissa(n: Literal): string {
    Sign(n) + n.whole + if n.frac == "" then "" else "." + n.frac
  }

  function ExponentText(x: Exponent): string { x.sign + x.digits }

  function Text(n: Literal): string {
    Mantissa(n) + match n.exponent case None => "" case Some(x) => [x.mark] + ExponentText(x)
  }

  /** Its value: an integer mantissa times a power of ten. */
  function Digits(n: Literal): string { Sign(n) + n.whole + n.frac }

  function Exp(n: Literal): int {
    match n.exponent
    case None => 0
    case Some(x) => if x.sign == "-" then -Natural(x.digits) else Natural(x.digits)
  }

  function Value(n: Literal): real {
    Scaled(Signed(Digits(n)), Exp(n) - |n.frac|)
  }

  // ------------------------------------------------------------------ arithmetic

  function Pow10(n: nat): (p: int)
    ensures p > 0
  {
    if n == 0 then 1 else 10 * Pow10(n - 1)
  }

  /** m times ten to the k. */
  function Scaled(m: int, k: int): real {
    if k >= 0 then (m * Pow10(k)) as real else m as real / Pow10(-k) as real
  }

  /** The integer an optionally signed digit string spells. */
  function Signed(s: string): int {
    if s != "" && s[0] == '-' then -Natural(s[1..]) else Natural(s)
  }

  function Zeros(n: nat): (z: string)
    ensures |z| == n && forall i :: 0 <= i < n ==> z[i] == '0'
  {
    seq(n, i => '0')
  }

  function Int64(x: int): int {
    var m := x % 0x1_0000_0000_0000_0000;
    if m <= MAX_INT64 then m else m - 0x1_0000_0000_0000_0000
  }

  // -------------------------------------------------------- the code's own steps

  /** strings.IndexAny(s, "eE"). */
  function MarkIndex(s: string): (i: int)
    ensures -1 <= i < |s|
  {
    var e, f := IndexOf(s, 'e'), IndexOf(s, 'E');
    if e < 0 then f else if f < 0 then e else if e < f then e else f
  }

  function FracDigits(mant: string): nat {
    var dot := IndexOf(mant, '.');
    if dot < 0 then 0 else |mant| - dot - 1
  }

  /** strings.ReplaceAll(s, ".", ""). */
  function Undot(s: string): string {
    if s == "" then "" else (if s[0] == '.' then "" else [s[0]]) + Undot(s[1..])
  }

  predicate IsDigitString(s: string) {
    var body := if s != "" && s[0] == '-' then s[1..] else s;
    body != "" && AllDigits(body)
  }

  /** strings.Trim(s, "0-") == "". */
  predicate OnlyZeros(s: string) { forall i :: 0 <= i < |s| ==> s[i] == '0' || s[i] == '-' }

  function TrailingZeros(s: string): (z: nat)
    ensures z <= |s|
    ensures forall i :: |s| - z <= i < |s| ==> s[i] == '0'
    ensures z < |s| ==> s[|s| - 1 - z] != '0'
  {
    if s != "" && s[|s| - 1] == '0' then 1 + TrailingZeros(s[..|s| - 1]) else 0
  }

  /** big.Rat.SetString of a plain decimal. */
  function DecimalValue(s: string): Option<real> {
    var digits := Undot(s);
    if IsDigitString(digits) then Some(Scaled(Signed(digits), -(FracDigits(s) as int))) else None
  }

  /** ratFromNumber, without the counting loop. */
  function RatOf(s: string): Option<real> {
    var i := MarkIndex(s);
    if i < 0 then DecimalValue(s)
    else
      match ParseInt(s[i + 1..])
      case None => None
      case Some(exp) =>
        var digits := Undot(s[..i]);
        if !IsDigitString(digits) then None
        else if OnlyZeros(digits) then Some(0.0)
        else Shifted(digits, Int64(exp - FracDigits(s[..i])))
  }

  /** The digit string moved by `scale` places, when that leaves an integer of at most 10^19 times it. */
  function Shifted(digits: string, scale: int): Option<real> {
    if scale > 19 then None
    else if scale < 0 then
      var need := Int64(-scale);
      if need < 0 || TrailingZeros(digits) < need then None
      else Some(Signed(digits[..|digits| - need]) as real)
    else Some(Signed(digits + Zeros(scale)) as real)
  }

  method CountTrailingZeros(digits: string) returns (zeros: nat)
    ensures zeros == TrailingZeros(digits)
  {
    zeros := 0;
    var j := |digits| - 1;
    assert digits[..j + 1] == digits;
    while j >= 0 && digits[j] == '0'
      invariant -1 <= j < |digits|
      invariant TrailingZeros(digits) == zeros + TrailingZeros(digits[..j + 1])
    {
      assert digits[..j + 1][..j] == digits[..j];
      zeros, j := zeros + 1, j - 1;
    }
  }

  method RatFromNumber(s: string) returns (r: Option<real>)
    ensures r == RatOf(s)
  {
    hide Undot, ParseInt, MarkIndex, FracDigits, Signed, Int64, Zeros, DecimalValue, TrailingZeros;
    var i := MarkIndex(s);
    if i < 0 { return DecimalValue(s); }
    var exp := ParseInt(s[i + 1..]);
    if exp.None? { return None; }
    var mant := s[..i];
    var digits := Undot(mant);
    if digits == "" || !IsDigitString(digits) { return None; }
    if OnlyZeros(digits) { return Some(0.0); }
    var scale := Int64(exp.value - FracDigits(mant));
    if scale > 19 { return None; }
    if scale < 0 {
      var need := Int64(-scale);
      if need < 0 { return None; }
      var zeros := CountTrailingZeros(digits);
      if zeros < need { return None; }
      return Some(Signed(digits[..|digits| - need]) as real);
    }
    return Some(Signed(digits + Zeros(scale)) as real);
  }

  /** numbersEqual. */
  function Equal(a: string, b: string): bool {
    var x, y := ParseInt(a), ParseInt(b);
    if x.Some? && y.Some? then x == y
    else
      var r, q := RatOf(a), RatOf(b);
      r.Some? && q.Some? && r == q
  }

  method NumbersEqual(a: string, b: string) returns (equal: bool)
    ensures equal == Equal(a, b)
  {
    var x, y := ParseInt(a), ParseInt(b);
    if x.Some? && y.Some? { return x == y; }
    var r := RatFromNumber(a);
    var q := RatFromNumber(b);
    return r.Some? && q.Some? && r == q;
  }

  // ------------------------------------------------------------- reading the text

  lemma {:induction false} UndotConcat(a: string, b: string)
    ensures Undot(a + b) == Undot(a) + Undot(b)
  {
    if a == "" {
      assert a + b == b;
    } else {
      assert (a + b)[1..] == a[1..] + b;
      UndotConcat(a[1..], b);
    }
  }

  lemma {:induction false} UndotKeeps(s: string)
    requires '.' !in s
    ensures Undot(s) == s
  {
    if s != "" { UndotKeeps(s[1..]); }
  }

  lemma DigitsPlain(s: string)
    requires AllDigits(s)
    ensures '.' !in s && 'e' !in s && 'E' !in s && '-' !in s && '+' !in s
  {}

  /** Nothing in a mantissa is an exponent mark, and only its fraction has a point. */
  lemma MantissaChars(n: Literal)
    requires Json(n)
    ensures '.' !in Sign(n) + n.whole && '.' !in n.frac
    ensures forall i :: 0 <= i < |Mantissa(n)| ==> Mantissa(n)[i] != 'e' && Mantissa(n)[i] != 'E'
  {
    DigitsPlain(n.whole);
    DigitsPlain(n.frac);
  }

  lemma UndotPoint(s: string)
    ensures Undot("." + s) == Undot(s)
  {
    assert ("." + s)[1..] == s;
  }

  lemma MantissaUndots(n: Literal)
    requires Json(n)
    ensures Undot(Mantissa(n)) == Digits(n)
  {
    var head, point := Sign(n) + n.whole, "." + n.frac;
    MantissaChars(n);
    UndotKeeps(head);
    UndotKeeps(n.frac);
    hide Json, Undot;
    if n.frac == "" {
      assert Mantissa(n) == head && Digits(n) == head;
    } else {
      assert Mantissa(n) == head + point;
      UndotConcat(head, point);
      UndotPoint(n.frac);
    }
  }

  lemma MantissaPoint(n: Literal)
    requires Json(n)
    ensures FracDigits(Mantissa(n)) == |n.frac|
  {
    var head, m := Sign(n) + n.whole, Mantissa(n);
    MantissaChars(n);
    var dot := IndexOf(m, '.');
    if n.frac == "" {
      assert m == head;
    } else {
      assert m == head + "." + n.frac && m[|head|] == '.';
      assert forall i :: 0 <= i < |head| ==> m[i] == head[i];
      assert dot == |head|;
    }
  }

  lemma DigitsAreDigits(n: Literal)
    requires Json(n)
    ensures IsDigitString(Digits(n))
  {
    var body := n.whole + n.frac;
    assert Digits(n) == Sign(n) + body && AllDigits(body);
    if n.negative { assert Digits(n)[1..] == body; } else { assert Digits(n) == body && IsDigit(body[0]); }
  }

  /** The text splits at its exponent mark. */
  lemma TextSplits(n: Literal)
    requires Json(n) && n.exponent.Some?
    ensures MarkIndex(Text(n)) == |Mantissa(n)|
    ensures Text(n)[..|Mantissa(n)|] == Mantissa(n)
    ensures Text(n)[|Mantissa(n)| + 1..] == ExponentText(n.exponent.value)
  {
    hide Mantissa, ExponentText;
    MantissaChars(n);
    var m, x := Mantissa(n), n.exponent.value;
    var t, tail := Text(n), ExponentText(x);
    assert t == m + [x.mark] + tail;
    assert t[|m|] == x.mark && forall i :: 0 <= i < |m| ==> t[i] == m[i];
    assert MarkIndex(t) == |m|;
  }

  /** The exponent is read exactly when it fits an int. */
  lemma ExponentReads(n: Literal)
    requires Json(n) && n.exponent.Some?
    ensures ParseInt(ExponentText(n.exponent.value)) ==
            if -MAX_INT64 - 1 <= Exp(n) <= MAX_INT64 then Some(Exp(n)) else None
  {
    hide Natural;
    var x := n.exponent.value;
    var t := ExponentText(x);
    if x.sign == "" {
      assert t == x.digits && IsDigit(t[0]);
    } else {
      assert t[0] == x.sign[0] && t[1..] == x.digits;
    }
  }

  // --------------------------------------------------------------- moving digits

  lemma ConcatStep(x: int, p: int, n: int, d: int)
    ensures 10 * (x * p + n) + d == x * (10 * p) + (10 * n + d)
  {}

  lemma MinusTimes(x: int, p: int)
    ensures (-x) * p == -(x * p)
  {}

  lemma {:induction false} NaturalConcat(a: string, b: string)
    ensures Natural(a + b) == Natural(a) * Pow10(|b|) + Natural(b)
  {
    if b == "" {
      assert a + b == a;
    } else {
      var b' := b[..|b| - 1];
      assert (a + b)[..|a + b| - 1] == a + b';
      NaturalConcat(a, b');
      ConcatStep(Natural(a), Pow10(|b'|), Natural(b'), DigitValue(b[|b| - 1]));
    }
  }

  lemma {:induction false} NaturalZeros(z: string)
    requires forall i :: 0 <= i < |z| ==> z[i] == '0'
    ensures Natural(z) == 0
  {
    if z != "" { NaturalZeros(z[..|z| - 1]); }
  }

  /** Appending zeros multiplies by a power of ten, sign or not. */
  lemma AppendZeros(s: string, z: string)
    requires s != "" && forall i :: 0 <= i < |z| ==> z[i] == '0'
    ensures Signed(s + z) == Signed(s) * Pow10(|z|)
  {
    hide Natural, Pow10, Signed;
    NaturalZeros(z);
    var p := Pow10(|z|);
    if s[0] == '-' {
      var t := s[1..];
      SignedMinus(s);
      SignedMinus(s + z);
      assert (s + z)[1..] == t + z;
      NaturalConcat(t, z);
      MinusTimes(Natural(t), p);
    } else {
      SignedPlain(s);
      SignedPlain(s + z);
      NaturalConcat(s, z);
    }
  }

  lemma SignedMinus(s: string)
    requires s != "" && s[0] == '-'
    ensures Signed(s) == -Natural(s[1..])
  {}

  lemma SignedPlain(s: string)
    requires s != "" && s[0] != '-'
    ensures Signed(s) == Natural(s)
  {}

  lemma {:induction false} NaturalBound(s: string)
    requires AllDigits(s)
    ensures 0 <= Natural(s) < Pow10(|s|)
  {
    if s != "" { NaturalBound(s[..|s| - 1]); }
  }

  lemma {:induction false} NonZeroDigits(s: string)
    requires AllDigits(s) && exists i :: 0 <= i < |s| && s[i] != '0'
    ensures Natural(s) > 0
  {
    if s[|s| - 1] == '0' {
      var i :| 0 <= i < |s| && s[i] != '0';
      assert s[..|s| - 1][i] != '0';
      NonZeroDigits(s[..|s| - 1]);
    } else {
      NaturalBound(s[..|s| - 1]);
    }
  }

  /** A digit string is not zero unless it is made of zeros. */
  lemma SignedZero(s: string)
    requires IsDigitString(s)
    ensures Signed(s) == 0 <==> OnlyZeros(s)
  {
    var body := if s[0] == '-' then s[1..] else s;
    if OnlyZeros(s) {
      NaturalZeros(body);
    } else {
      var i :| 0 <= i < |s| && s[i] != '0' && s[i] != '-';
      assert body[if s[0] == '-' then i - 1 else i] != '0';
      NonZeroDigits(body);
    }
  }

  lemma {:induction false} Pow10Sum(a: nat, b: nat)
    ensures Pow10(a + b) == Pow10(a) * Pow10(b)
  {
    if a > 0 { Pow10Sum(a - 1, b); }
  }

  /** The trailing zeros say exactly by which powers of ten the number divides. */
  lemma TrailingZerosDivide(s: string, need: nat, q: int)
    requires IsDigitString(s) && !OnlyZeros(s) && Signed(s) == q * Pow10(need)
    ensures need <= TrailingZeros(s)
  {
    hide Signed, OnlyZeros, IsDigitString;
    var z := TrailingZeros(s);
    if need > z {
      var keep, zs := s[..|s| - z], s[|s| - z..];
      assert s == keep + zs;
      KeepsDigit(s, z);
      AppendZeros(keep, zs);
      var t := q * Pow10(need - z - 1);
      SplitPower(q, z, need);
      CancelFactor(Signed(keep), 10 * t, Pow10(z));
      LastDigit(keep, t);
    }
  }

  lemma SplitPower(q: int, z: nat, need: nat)
    requires z < need
    ensures q * Pow10(need) == 10 * (q * Pow10(need - z - 1)) * Pow10(z)
  {
    Pow10Sum(z, need - z);
    var a, b := Pow10(z), Pow10(need - z - 1);
    assert Pow10(need - z) == 10 * b;
    assert q * (a * (10 * b)) == 10 * (q * b) * a;
  }

  lemma CancelFactor(a: int, b: int, m: int)
    requires m > 0 && a * m == b * m
    ensures a == b
  {
    assert (a - b) * m == 0;
  }

  /** What is left before the trailing zeros ends in a digit that is not zero. */
  lemma KeepsDigit(s: string, z: nat)
    requires IsDigitString(s) && !OnlyZeros(s) && z == TrailingZeros(s)
    ensures z < |s| && var keep := s[..|s| - z]; keep != "" && IsDigit(keep[|keep| - 1]) && keep[|keep| - 1] != '0'
  {
    assert z < |s|;
    var c := s[|s| - 1 - z];
    assert c == '-' ==> |s| - 1 - z == 0;
  }

  /** A number whose last digit is not zero is no multiple of ten. */
  lemma LastDigit(s: string, q: int)
    requires s != "" && IsDigit(s[|s| - 1]) && s[|s| - 1] != '0'
    ensures Signed(s) != 10 * q
  {
    if s[0] == '-' {
      assert s[1..][|s| - 2] == s[|s| - 1];
      var d := DigitValue(s[|s| - 1]);
      assert Natural(s[1..]) == 10 * Natural(s[1..][..|s| - 2]) + d;
    } else {
      assert Natural(s) == 10 * Natural(s[..|s| - 1]) + DigitValue(s[|s| - 1]);
    }
  }

  // ------------------------------------------------------------------ exactness

  /** A literal ratFromNumber turns into a number: one without an exponent; or one whose exponent
      fits an int, and whose digits are all zero, or at most 19 places short of an integer and
      with enough trailing zeros to lose. */
  ghost predicate Convertible(n: Literal) {
    n.exponent.Some? ==>
      && -MAX_INT64 - 1 <= Exp(n) <= MAX_INT64
      && (OnlyZeros(Digits(n)) || -(TrailingZeros(Digits(n)) as int) <= Exp(n) - |n.frac| <= 19)
  }

  /** What the literal's shift comes to in a 64-bit int: a text that fits in memory cannot make it
      wrap back into range. */
  lemma ScaleFits(n: Literal)
    requires Json(n) && n.exponent.Some? && |Text(n)| <= MAX_INT64 && -MAX_INT64 - 1 <= Exp(n) <= MAX_INT64
    ensures var scale := Exp(n) - |n.frac|;
            if scale >= -MAX_INT64 - 1 then Int64(scale) == scale else Int64(scale) > 19
  {
    var x := n.exponent.value;
    var scale := Exp(n) - |n.frac|;
    assert |Text(n)| >= |n.whole| + |n.frac| + 1 + |x.digits| + |x.sign|;
    if scale < -MAX_INT64 - 1 {
      NaturalBound(x.digits);
      if |x.digits| < 19 {
        PowerOfEighteen();
        PowMonotone(|x.digits|, 18);
      }
    }
  }

  lemma {:induction false} PowMonotone(a: nat, b: nat)
    requires a <= b
    ensures Pow10(a) <= Pow10(b)
  {
    if a < b { PowMonotone(a, b - 1); }
  }

  lemma PowerOfEighteen()
    ensures Pow10(18) == 1_000_000_000_000_000_000
    ensures Pow10(20) == 100_000_000_000_000_000_000
  {
    assert Pow10(4) == 10_000;
    assert Pow10(8) == 100_000_000;
    assert Pow10(12) == 1_000_000_000_000;
    assert Pow10(16) == 10_000_000_000_000_000;
  }

  /** A literal without an exponent is read as the decimal it is. */
  lemma PlainExact(n: Literal)
    requires Json(n) && n.exponent.None?
    ensures RatOf(Text(n)) == Some(Value(n))
  {
    MantissaUndots(n);
    MantissaPoint(n);
    MantissaChars(n);
    DigitsAreDigits(n);
    hide Undot, Mantissa, Digits, FracDigits, IsDigitString, Signed, Scaled;
    assert Text(n) == Mantissa(n) && MarkIndex(Text(n)) == -1;
  }

  /** What is read off a literal with an exponent. */
  lemma ExponentForm(n: Literal)
    requires Json(n) && n.exponent.Some?
    ensures RatOf(Text(n)) ==
            if !(-MAX_INT64 - 1 <= Exp(n) <= MAX_INT64) then None
            else if OnlyZeros(Digits(n)) then Some(0.0)
            else Shifted(Digits(n), Int64(Exp(n) - |n.frac|))
  {
    hide Undot, Mantissa, Digits, FracDigits, IsDigitString, OnlyZeros, Int64, Shifted, Exp, ParseInt, MarkIndex, Text;
    hide Json, DecimalValue;
    MantissaUndots(n);
    MantissaPoint(n);
    DigitsAreDigits(n);
    TextSplits(n);
    ExponentReads(n);
  }

  lemma ExponentExact(n: Literal)
    requires Json(n) && n.exponent.Some? && |Text(n)| <= MAX_INT64
    ensures RatOf(Text(n)) == if Convertible(n) then Some(Value(n)) else None
  {
    hide RatOf, Digits, IsDigitString, Signed, Scaled, OnlyZeros, TrailingZeros, Int64, Shifted, Exp, Text, Json;
    ExponentForm(n);
    DigitsAreDigits(n);
    SignedZero(Digits(n));
    if -MAX_INT64 - 1 <= Exp(n) <= MAX_INT64 {
      if OnlyZeros(Digits(n)) { ZeroScaled(Exp(n) - |n.frac|); } else { ShiftExact(n); }
    }
  }

  /** ratFromNumber is exact: it converts the convertible literals, each to its own value. */
  lemma RatOfExact(n: Literal)
    requires Json(n) && |Text(n)| <= MAX_INT64
    ensures RatOf(Text(n)) == if Convertible(n) then Some(Value(n)) else None
  {
    hide RatOf, Value, Text;
    if n.exponent.None? { PlainExact(n); } else { ExponentExact(n); }
  }

  lemma ZeroScaled(k: int)
    ensures Scaled(0, k) == 0.0
  {}

  lemma ShiftExact(n: Literal)
    requires Json(n) && n.exponent.Some? && |Text(n)| <= MAX_INT64 && -MAX_INT64 - 1 <= Exp(n) <= MAX_INT64
    requires IsDigitString(Digits(n)) && !OnlyZeros(Digits(n))
    ensures Shifted(Digits(n), Int64(Exp(n) - |n.frac|)) == if Convertible(n) then Some(Value(n)) else None
  {
    hide Signed, TrailingZeros, OnlyZeros, IsDigitString, Exp, Pow10, Int64, Text;
    var d, scale := Digits(n), Exp(n) - |n.frac|;
    ScaleFits(n);
    assert |d| <= MAX_INT64 by { DigitsInText(n); }
    SmallInt64(scale);
    if scale >= 0 {
      AppendZeros(d, Zeros(scale));
    } else if scale >= -MAX_INT64 {
      SmallInt64(-scale);
      var need := -scale;
      if need <= TrailingZeros(d) {
        var keep, zs := d[..|d| - need], d[|d| - need..];
        assert d == keep + zs;
        KeepsDigit(d, TrailingZeros(d));
        AppendZeros(keep, zs);
        DivideBack(Signed(keep), Pow10(need));
      }
    }
  }

  lemma DigitsInText(n: Literal)
    ensures |Digits(n)| <= |Text(n)|
  {}

  /** A 64-bit int holds every number in range; the one below negates to itself. */
  lemma SmallInt64(x: int)
    ensures -MAX_INT64 - 1 <= x <= MAX_INT64 ==> Int64(x) == x
    ensures x == -MAX_INT64 - 1 ==> Int64(-x) < 0
  {}

  lemma DivideBack(k: int, p: int)
    requires p > 0
    ensures (k * p) as real / p as real == k as real
  {
    assert (k * p) as real == k as real * p as real;
  }

  /** Without an exponent or a fraction, the literal is read as an integer when it fits. */
  lemma IntegerReads(n: Literal)
    requires Json(n)
    ensures ParseInt(Text(n)).Some? <==>
              n.exponent.None? && n.frac == "" && -MAX_INT64 - 1 <= Signed(Digits(n)) <= MAX_INT64
    ensures ParseInt(Text(n)).Some? ==> ParseInt(Text(n)).value as real == Value(n)
  {
    var t := Text(n);
    if n.exponent.Some? {
      var i := |Mantissa(n)|;
      assert t[i] == n.exponent.value.mark;
      ParseIntRejects(t, i);
    } else if n.frac != "" {
      var i := |Sign(n) + n.whole|;
      assert t == Mantissa(n) && t[i] == '.';
      ParseIntRejects(t, i);
    } else {
      assert t == Digits(n);
      if n.negative { assert t[1..] == n.whole; } else { assert t == n.whole && IsDigit(t[0]); }
      assert Pow10(0) == 1;
    }
  }

  lemma SignedText(n: Literal)
    requires Json(n) && n.exponent.None? && n.frac == ""
    ensures ParseInt(Text(n)).Some? ==> ParseInt(Text(n)).value == Signed(Digits(n))
  {
    var t := Text(n);
    assert t == Digits(n);
    if n.negative { assert t[1..] == n.whole; } else { assert t == n.whole && IsDigit(t[0]); }
  }

  /** Which literals convert, digit by digit: every one without an exponent; and of the others, those whose
      exponent is an int64 and whose digits are all zero, or are followed by at most 19 zeros once the point is
      moved, or end in the zeros a move to the left drops. */
  lemma ConvertsIff(n: Literal)
    requires Json(n) && |Text(n)| <= MAX_INT64
    ensures var d, scale := n.whole + n.frac, Exp(n) - |n.frac|;
            RatOf(Text(n)).Some? <==>
            || n.exponent.None?
            || (&& -0x8000_0000_0000_0000 <= Exp(n) <= 0x7fff_ffff_ffff_ffff
                && (|| (forall i :: 0 <= i < |d| ==> d[i] == '0')
                    || (-|d| <= scale <= 19 && forall i :: |d| + scale <= i < |d| ==> d[i] == '0')))
  {
    hide RatOf, Exp, Text, Value, Signed, Scaled, Pow10;
    RatOfExact(n);
    var d := n.whole + n.frac;
    assert Digits(n) == Sign(n) + d;
    assert |Digits(n)| == |Sign(n)| + |d|;
    assert forall i :: 0 <= i < |d| ==> Digits(n)[|Sign(n)| + i] == d[i];
    assert OnlyZeros(Digits(n)) <==> forall i :: 0 <= i < |d| ==> d[i] == '0' by { ZerosOnly(n); }
  }

  lemma ZerosOnly(n: Literal)
    requires Json(n)
    ensures var d := n.whole + n.frac; OnlyZeros(Digits(n)) <==> forall i :: 0 <= i < |d| ==> d[i] == '0'
  {
    var d := n.whole + n.frac;
    assert Digits(n) == Sign(n) + d;
    assert forall i :: 0 <= i < |d| ==> Digits(n)[|Sign(n)| + i] == d[i];
    assert forall i :: 0 <= i < |d| ==> IsDigit(d[i]);
  }

  /** numbersEqual is exact: it says yes exactly when both literals convert and their values agree. */
  lemma EqualExact(a: Literal, b: Literal)
    requires Json(a) && Json(b) && |Text(a)| <= MAX_INT64 && |Text(b)| <= MAX_INT64
    ensures Equal(Text(a), Text(b)) <==> Value(a) == Value(b) && Convertible(a) && Convertible(b)
  {
    hide Value, Text, RatOf, ParseInt, Signed, Digits, Exp, OnlyZeros, TrailingZeros, Json;
    RatOfExact(a);
    RatOfExact(b);
    IntegerReads(a);
    IntegerReads(b);
  }

  /** A value that an int64 has is reached by every spelling of it whose exponent fits an int. */
  lemma IntegerConverts(n: Literal, v: int)
    requires Json(n) && -MAX_INT64 - 1 <= v <= MAX_INT64 && Value(n) == v as real
    requires -MAX_INT64 - 1 <= Exp(n) <= MAX_INT64
    ensures Convertible(n)
  {
    hide Signed, OnlyZeros, IsDigitString, Exp;
    var d, scale := Digits(n), Exp(n) - |n.frac|;
    DigitsAreDigits(n);
    if !OnlyZeros(d) {
      SignedZero(d);
      if scale >= 0 {
        assert Signed(d) * Pow10(scale) == v;
        if scale > 19 {
          PowerOfEighteen();
          PowMonotone(20, scale);
          TooLarge(Signed(d), Pow10(scale));
        }
      } else {
        var p := Pow10(-scale);
        assert Signed(d) as real == v as real * p as real;
        assert Signed(d) == v * p;
        TrailingZerosDivide(d, -scale, v);
      }
    }
  }

  lemma TooLarge(m: int, p: int)
    requires m != 0 && p > 0
    ensures m * p >= p || m * p <= -p
  {}

  /** Against an int64 literal the comparison is exact both ways, for every literal whose exponent
      fits an int: `100e-2` is 1, `1.5e1` is 15, and any zero mantissa is 0. */
  lemma EqualToInteger(a: Literal, b: Literal)
    requires Json(a) && Json(b) && |Text(a)| <= MAX_INT64 && |Text(b)| <= MAX_INT64
    requires ParseInt(Text(a)).Some? && -MAX_INT64 - 1 <= Exp(b) <= MAX_INT64
    ensures Equal(Text(a), Text(b)) <==> Value(a) == Value(b)
  {
    hide Value, Text, Equal;
    EqualExact(a, b);
    IntegerReads(a);
    if Value(a) == Value(b) {
      IntegerConverts(b, ParseInt(Text(a)).value);
    }
  }

  /** Against an int64 literal, exactly: equal when the values agree and the other side converts. */
  lemma IntegerEqualIff(a: Literal, b: Literal)
    requires Json(a) && Json(b) && |Text(a)| <= MAX_INT64 && |Text(b)| <= MAX_INT64 && ParseInt(Text(a)).Some?
    ensures Equal(Text(a), Text(b)) <==> Value(a) == Value(b) && Convertible(b)
  {
    hide Value, Text, Equal, Json, ParseInt;
    EqualExact(a, b);
    IntegerReads(a);
  }

  lemma TenToTheTwentieth() returns (digits: string)
    ensures AllDigits(digits) && |digits| == 21 && Natural(digits) == 100_000_000_000_000_000_000
  {
    hide Pow10;
    digits := "1" + Zeros(20);
    NaturalConcat("1", Zeros(20));
    NaturalZeros(Zeros(20));
    PowerOfEighteen();
    assert Natural("1") == 1;
  }

  /** Zero, with an exponent no int holds. */
  lemma HugeZero() returns (n: Literal)
    ensures Json(n) && |Text(n)| <= MAX_INT64 && Value(n) == 0.0 && !Convertible(n)
  {
    hide Pow10, Zeros;
    var digits := TenToTheTwentieth();
    n := Literal(false, "0", "", Some(Exponent('e', "", digits)));
    assert Digits(n) == "0" && Natural("0") == 0;
    ZeroScaled(Exp(n));
  }

  /** Between two other spellings it is not: 0.01 and 1e-2 have one value and are not equal.  (The
      operator only ever compares against an int64 literal.) */
  lemma FractionsDiffer() returns (a: Literal, b: Literal)
    ensures Json(a) && Json(b) && Text(a) == "0.01" && Text(b) == "1e-2"
    ensures Value(a) == Value(b) && !Equal(Text(a), Text(b))
  {
    hide Equal, ParseInt;
    a := Literal(false, "0", "01", None);
    b := Literal(false, "1", "", Some(Exponent('e', "-", "2")));
    assert Natural("2") == 2 && Natural("1") == 1;
    assert Digits(a) == "001" && "001"[..2] == "00" && "00"[..1] == "0" && Natural("001") == 1;
    assert Digits(b) == "1" && TrailingZeros("1") == 0;
    assert Exp(b) == -2;
    EqualExact(a, b);
  }
}
