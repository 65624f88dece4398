/** The parts of Go's strings and strconv packages the operator relies on. */
module Strings {
  import opened Wrappers

  const MAX_INT64: int := 0x7fff_ffff_ffff_ffff
  const MAX_UINT64: int := 0xffff_ffff_ffff_ffff

  /** Go's int32(x): the low 32 bits, as a signed number. */
  function Int32(x: int): (r: int)
    ensures -0x8000_0000 <= r < 0x8000_0000 && (x - r) % 0x1_0000_0000 == 0
  {
    var m := x % 0x1_0000_0000;
    if m < 0x8000_0000 then m else m - 0x1_0000_0000
  }

  lemma Int32Keeps(x: int)
    requires 0 <= x < 0x8000_0000
    ensures Int32(x) == x
  {}

  predicate IsDigit(c: char) { '0' <= c <= '9' }

  predicate AllDigits(s: string) { forall i :: 0 <= i < |s| ==> IsDigit(s[i]) }

  function Digit(d: int): char
    requires 0 <= d < 10
  {
    ['0', '1', '2', '3', '4', '5', '6', '7', '8', '9'][d]
  }

  function DigitValue(c: char): int { c as int - '0' as int }

  /** The number a digit string spells; leading zeros are allowed. */
  function Natural(s: string): (n: int)
    ensures AllDigits(s) ==> n >= 0
  {
    if s == "" then 0 else 10 * Natural(s[..|s| - 1]) + DigitValue(s[|s| - 1])
  }

  /** Decimal digits without leading zeros. */
  function Itoa(n: nat): (s: string)
    ensures |s| > 0 && AllDigits(s) && (n > 0 ==> s[0] != '0')
    decreases n
  {
    if n < 10 then [Digit(n)] else Itoa(n / 10) + [Digit(n % 10)]
  }

  lemma {:induction false} ItoaNatural(n: nat)
    ensures Natural(Itoa(n)) == n
  {
    if n >= 10 {
      ItoaNatural(n / 10);
      assert Itoa(n)[..|Itoa(n)| - 1] == Itoa(n / 10);
    }
  }

  function ItoaInt(n: int): string {
    if n >= 0 then Itoa(n) else "-" + Itoa(-n)
  }

  /** strconv.ParseUint(s, 10, 64). */
  function ParseUint(s: string): Option<int> {
    if s != "" && AllDigits(s) && Natural(s) <= MAX_UINT64 then Some(Natural(s)) else None
  }

  /** strconv.ParseInt(s, 10, 64), and strconv.Atoi on a 64-bit platform. */
  function ParseInt(s: string): Option<int> {
    var signed := s != "" && (s[0] == '+' || s[0] == '-');
    var body := if signed then s[1..] else s;
    if body == "" || !AllDigits(body) then None
    else
      var n := if signed && s[0] == '-' then -Natural(body) else Natural(body);
      if -MAX_INT64 - 1 <= n <= MAX_INT64 then Some(n) else None
  }

  lemma ParseUintItoa(n: nat)
    requires n <= MAX_UINT64
    ensures ParseUint(Itoa(n)) == Some(n)
  {
    ItoaNatural(n);
  }

  lemma ParseIntItoa(n: int)
    requires -MAX_INT64 - 1 <= n <= MAX_INT64
    ensures ParseInt(ItoaInt(n)) == Some(n)
  {
    if n >= 0 {
      ItoaNatural(n);
      assert IsDigit(Itoa(n)[0]);
    } else {
      ItoaNatural(-n);
      assert ("-" + Itoa(-n))[1..] == Itoa(-n);
    }
  }

  /** A signed integer may carry either sign, an unsigned one none, and a sign alone is no number. */
  lemma ParseIntForms(n: int)
    requires 0 <= n <= MAX_INT64
    ensures ParseInt("+" + Itoa(n)) == Some(n) && ParseInt("-" + Itoa(n)) == Some(-n)
    ensures ParseInt("") == None && ParseInt("+") == None && ParseInt("-") == None
    ensures ParseUint("+" + Itoa(n)) == None && ParseUint("-" + Itoa(n)) == None && ParseUint("") == None
  {
    ItoaNatural(n);
    assert ("+" + Itoa(n))[1..] == Itoa(n) && ("-" + Itoa(n))[1..] == Itoa(n);
  }

  /** A character that is neither a digit nor a leading sign spoils the parse. */
  lemma ParseIntRejects(s: string, i: nat)
    requires i < |s| && !IsDigit(s[i]) && s[i] != '+' && s[i] != '-'
    ensures ParseInt(s) == None
  {
    if i > 0 { assert s[1..][i - 1] == s[i]; }
  }

  // ------------------------------------------------------------------- search

  predicate At(s: string, sub: string, i: int) {
    0 <= i <= i + |sub| <= |s| && s[i..i + |sub|] == sub
  }

  function LastFrom(s: string, sub: string, i: int): (r: int)
    requires i <= |s|
    ensures -1 <= r
    ensures r >= 0 ==> r <= i && At(s, sub, r)
    ensures forall j :: r < j <= i ==> !At(s, sub, j)
    decreases i + 1
  {
    if i < 0 then -1 else if At(s, sub, i) then i else LastFrom(s, sub, i - 1)
  }

  /** strings.LastIndex: the last occurrence, or -1. */
  function LastIndex(s: string, sub: string): (r: int)
    ensures -1 <= r
    ensures r >= 0 ==> At(s, sub, r)
    ensures forall j :: r < j ==> !At(s, sub, j)
  {
    LastFrom(s, sub, |s|)
  }

  function FirstFrom(s: string, c: char, i: nat): (r: int)
    requires i <= |s|
    ensures r == -1 || (i <= r < |s| && s[r] == c)
    ensures forall j :: i <= j < (if r < 0 then |s| else r) ==> s[j] != c
    decreases |s| - i
  {
    if i == |s| then -1 else if s[i] == c then i else FirstFrom(s, c, i + 1)
  }

  /** strings.IndexByte. */
  function IndexOf(s: string, c: char): (r: int)
    ensures r == -1 || (0 <= r < |s| && s[r] == c)
    ensures forall j :: 0 <= j < (if r < 0 then |s| else r) ==> s[j] != c
  {
    FirstFrom(s, c, 0)
  }

  /** strings.LastIndexByte. */
  function LastIndexOf(s: string, c: char): (r: int)
    ensures r == -1 || (0 <= r < |s| && s[r] == c)
    ensures forall j :: r < j < |s| ==> s[j] != c
  {
    var r := LastIndex(s, [c]);
    assert forall j :: 0 <= j < |s| ==> (At(s, [c], j) <==> s[j] == c) by {
      forall j | 0 <= j < |s| ensures At(s, [c], j) <==> s[j] == c { assert s[j..j + 1] == [s[j]]; }
    }
    r
  }

  // --------------------------------------------------------------- whitespace

  /** unicode.IsSpace. */
  predicate IsSpace(c: char) {
    c in {' ', '\t', '\n', '\r', '\U{0B}', '\U{0C}', '\U{85}', '\U{A0}', '\U{1680}', '\U{2028}', '\U{2029}', '\U{202F}',
          '\U{205F}', '\U{3000}'} || '\U{2000}' <= c <= '\U{200A}'
  }

  predicate NoSpace(s: string) { forall i :: 0 <= i < |s| ==> !IsSpace(s[i]) }

  /** A field: what strings.Fields returns. */
  predicate IsField(s: string) { s != "" && NoSpace(s) }

  function WordEnd(s: string): (n: nat)
    ensures n <= |s| && NoSpace(s[..n])
    ensures n < |s| ==> IsSpace(s[n])
  {
    if s == "" || IsSpace(s[0]) then 0
    else
      var n := 1 + WordEnd(s[1..]);
      assert s[..n] == [s[0]] + s[1..][..n - 1];
      n
  }

  /** strings.Fields: the runs of non-space characters. */
  function Fields(s: string): (fs: seq<string>)
    ensures forall i :: 0 <= i < |fs| ==> IsField(fs[i])
    decreases |s|
  {
    if s == "" then []
    else if IsSpace(s[0]) then Fields(s[1..])
    else
      var n := WordEnd(s);
      [s[..n]] + Fields(s[n..])
  }

  /** strings.Join(fs, " "). */
  function Join(fs: seq<string>): string {
    if fs == [] then "" else if |fs| == 1 then fs[0] else fs[0] + " " + Join(fs[1..])
  }

  lemma {:induction false} WordEndOf(w: string, rest: string)
    requires NoSpace(w) && (rest == "" || IsSpace(rest[0]))
    ensures WordEnd(w + rest) == |w|
  {
    if w == "" {
      assert w + rest == rest;
    } else {
      assert (w + rest)[1..] == w[1..] + rest;
      WordEndOf(w[1..], rest);
    }
  }

  lemma FieldsCons(w: string, rest: string)
    requires IsField(w) && (rest == "" || IsSpace(rest[0]))
    ensures Fields(w + rest) == [w] + Fields(rest)
  {
    WordEndOf(w, rest);
    assert (w + rest)[0] == w[0];
    assert (w + rest)[..|w|] == w && (w + rest)[|w|..] == rest;
  }

  /** Splitting undoes joining, and a trailing space changes nothing. */
  lemma {:induction false} FieldsJoin(fs: seq<string>, tail: string)
    requires forall i :: 0 <= i < |fs| ==> IsField(fs[i])
    requires tail == "" || (|tail| == 1 && IsSpace(tail[0]))
    ensures Fields(Join(fs) + tail) == fs
  {
    if fs == [] {
      assert Join(fs) + tail == tail;
      if tail != "" { assert tail[1..] == ""; }
    } else if |fs| == 1 {
      FieldsCons(fs[0], tail);
      if tail != "" { assert tail[1..] == ""; }
      assert fs == [fs[0]];
    } else {
      var rest := " " + (Join(fs[1..]) + tail);
      assert Join(fs) + tail == fs[0] + rest;
      FieldsCons(fs[0], rest);
      assert rest[1..] == Join(fs[1..]) + tail;
      FieldsJoin(fs[1..], tail);
      assert fs == [fs[0]] + fs[1..];
    }
  }

  function TrimLeft(s: string): string {
    if s != "" && IsSpace(s[0]) then TrimLeft(s[1..]) else s
  }

  function TrimRight(s: string): string {
    if s != "" && IsSpace(s[|s| - 1]) then TrimRight(s[..|s| - 1]) else s
  }

  /** strings.TrimSpace. */
  function TrimSpace(s: string): string { TrimRight(TrimLeft(s)) }
}
