/** Validating the user's overrides of a profile (operator/internal/renderer/overrides.go:58-227). */
module Overrides {
  import opened Wrappers
  import opened Strings
  import Numbers

  /** A decoded JSON value; a number keeps its text. */
  datatype Json = Null | Bool(b: bool) | Num(text: string) | Str(s: string) | List(items: seq<Json>)
                | Obj(fields: map<string, Json>)

  datatype Type = Integer | Text | TextList | Boolean

  /** `allowed`: the enum, whose entries may fail to decode; empty for none. */
  datatype Override = Override(name: string, kind: Type, min: Option<int>, max: Option<int>, allowed: seq<Option<Json>>,
                               default: Option<Option<Json>>)

  predicate Matches(v: Json, want: Option<Json>) {
    && want.Some?
    && (if v.Num? && want.value.Num? then Numbers.Equal(v.text, want.value.text) else v == want.value)
  }

  ghost predicate In(v: Json, allowed: seq<Option<Json>>) { exists i :: 0 <= i < |allowed| && Matches(v, allowed[i]) }

  /** The entry is a number equal to this one. */
  ghost predicate NumberIs(entry: Option<Json>, text: string) {
    entry.Some? && entry.value.Num? && Numbers.Equal(text, entry.value.text)
  }

  /** Numbers match by value, everything else by equality. */
  lemma EnumMeans(v: Json, allowed: seq<Option<Json>>)
    ensures !v.Num? ==> (In(v, allowed) <==> Some(v) in allowed)
    ensures v.Num? ==> (In(v, allowed) <==> exists i :: 0 <= i < |allowed| && NumberIs(allowed[i], v.text))
  {
    hide Numbers.Equal;
    if Some(v) in allowed {
      var i :| 0 <= i < |allowed| && allowed[i] == Some(v);
      assert v.Num? || Matches(v, allowed[i]);
    }
    if v.Num? && exists i :: 0 <= i < |allowed| && NumberIs(allowed[i], v.text) {
      var i :| 0 <= i < |allowed| && NumberIs(allowed[i], v.text);
      assert Matches(v, allowed[i]);
    }
    if In(v, allowed) {
      var i :| 0 <= i < |allowed| && Matches(v, allowed[i]);
      assert v.Num? ==> NumberIs(allowed[i], v.text);
    }
  }

  method EnumContains(allowed: seq<Option<Json>>, v: Json) returns (found: bool)
    ensures found <==> In(v, allowed)
    ensures !v.Num? ==> (found <==> Some(v) in allowed)
    ensures v.Num? ==> (found <==> exists i :: 0 <= i < |allowed| && NumberIs(allowed[i], v.text))
  {
    EnumMeans(v, allowed);
    hide Numbers.Equal;
    for i := 0 to |allowed|
      invariant forall j :: 0 <= j < i ==> !Matches(v, allowed[j])
    {
      if allowed[i].Some? {
        var want := allowed[i].value;
        if v.Num? && want.Num? {
          var equal := Numbers.NumbersEqual(v.text, want.text);
          if equal { return true; }
        } else if v == want {
          return true;
        }
      }
    }
    return false;
  }

  // ------------------------------------------------------------ what a value must be

  predicate InRange(ov: Override, n: int) {
    (ov.min.Some? ==> n >= ov.min.value) && (ov.max.Some? ==> n <= ov.max.value)
  }

  /** Digits, and no point or exponent: `1.0` and `1e0` are not integers. */
  predicate IntegerText(s: string) {
    (exists i :: 0 <= i < |s| && IsDigit(s[i])) && forall i :: 0 <= i < |s| ==> s[i] !in {'.', 'e', 'E'}
  }

  predicate CommaFree(s: string) { forall i :: 0 <= i < |s| ==> s[i] != ',' }

  predicate Entries(items: seq<Json>) { forall i :: 0 <= i < |items| ==> items[i].Str? && CommaFree(items[i].s) }

  predicate OfType(ov: Override, v: Json) {
    match ov.kind
    case Integer => v.Num? && IntegerText(v.text) && ParseInt(v.text).Some? && InRange(ov, ParseInt(v.text).value)
    case Text => v.Str?
    case TextList => v.List? && Entries(v.items)
    case Boolean => v.Bool?
  }

  /** A list is held to the enum entry by entry, anything else as a whole. */
  ghost predicate Allowed(ov: Override, v: Json) {
    ov.allowed == [] ||
    if ov.kind == TextList && v.List? then forall i :: 0 <= i < |v.items| ==> In(v.items[i], ov.allowed)
    else In(v, ov.allowed)
  }

  /** What the type asks of a value. */
  lemma TypeMeans(ov: Override, v: Json)
    ensures ov.kind.Text? ==> (OfType(ov, v) <==> v.Str?)
    ensures ov.kind.Boolean? ==> (OfType(ov, v) <==> v.Bool?)
    ensures ov.kind.TextList? ==> (OfType(ov, v) <==>
              v.List? && forall i :: 0 <= i < |v.items| ==> v.items[i].Str? && ',' !in v.items[i].s)
    ensures ov.kind.Integer? && OfType(ov, v) ==> v.Num? && ParseInt(v.text).Some?
    ensures ov.kind.Integer? && OfType(ov, v) && ov.min.Some? ==> ov.min.value <= ParseInt(v.text).value
    ensures ov.kind.Integer? && OfType(ov, v) && ov.max.Some? ==> ParseInt(v.text).value <= ov.max.value
  {}

  /** Of JSON numbers, the integers are those without a point or an exponent that an int64 holds. */
  lemma IntegersAccepted(ov: Override, n: Numbers.Literal)
    requires ov.kind.Integer? && Numbers.Json(n)
    ensures OfType(ov, Num(Numbers.Text(n))) <==>
            && n.frac == "" && n.exponent.None?
            && -0x8000_0000_0000_0000 <= Numbers.Signed(Numbers.Digits(n)) <= 0x7fff_ffff_ffff_ffff
            && (ov.min.Some? ==> ov.min.value <= Numbers.Signed(Numbers.Digits(n)))
            && (ov.max.Some? ==> Numbers.Signed(Numbers.Digits(n)) <= ov.max.value)
  {
    hide Numbers.Signed, Natural;
    Numbers.IntegerReads(n);
    if n.frac == "" && n.exponent.None? {
      PlainText(n);
      Numbers.SignedText(n);
    }
  }

  lemma PlainText(n: Numbers.Literal)
    requires Numbers.Json(n) && n.frac == "" && n.exponent.None?
    ensures IntegerText(Numbers.Text(n))
  {
    var t := Numbers.Text(n);
    assert t[if n.negative then 1 else 0] == n.whole[0] && IsDigit(n.whole[0]);
    assert forall i :: 0 <= i < |t| ==> IsDigit(t[i]) || t[i] == '-';
  }

  /** What the enum asks of one. */
  lemma AllowedMeans(ov: Override, v: Json)
    requires OfType(ov, v)
    ensures ov.allowed == [] ==> Allowed(ov, v)
    ensures ov.allowed != [] && (ov.kind.Text? || ov.kind.Boolean?) ==> (Allowed(ov, v) <==> Some(v) in ov.allowed)
    ensures ov.allowed != [] && ov.kind.TextList? ==>
              (Allowed(ov, v) <==> forall i :: 0 <= i < |v.items| ==> Some(v.items[i]) in ov.allowed)
    ensures ov.allowed != [] && ov.kind.Integer? ==>
              (Allowed(ov, v) <==> exists i :: 0 <= i < |ov.allowed| && NumberIs(ov.allowed[i], v.text))
  {
    EnumMeans(v, ov.allowed);
    if ov.kind.TextList? {
      forall i | 0 <= i < |v.items| ensures In(v.items[i], ov.allowed) <==> Some(v.items[i]) in ov.allowed {
        EnumMeans(v.items[i], ov.allowed);
      }
    }
    hide In, NumberIs;
  }

  function Texts(items: seq<Json>): seq<string>
    requires Entries(items)
  {
    seq(|items|, i requires 0 <= i < |items| => items[i].s)
  }

  /** strings.Join(parts, ","). */
  function CommaJoin(parts: seq<string>): string {
    if parts == [] then ""
    else if |parts| == 1 then parts[0]
    else CommaJoin(parts[..|parts| - 1]) + "," + parts[|parts| - 1]
  }

  function Canonical(ov: Override, v: Json): string
    requires OfType(ov, v)
  {
    match ov.kind
    case Integer => ItoaInt(ParseInt(v.text).value)
    case Text => v.s
    case TextList => CommaJoin(Texts(v.items))
    case Boolean => if v.b then "true" else "false"
  }

  /** The canonical form says what the value says: the truth value, the string itself, the number, or the
      entries, which can be split apart again. */
  ghost predicate Restates(ov: Override, v: Json, canonical: string) {
    match ov.kind
    case Boolean => (v == Bool(true) && canonical == "true") || (v == Bool(false) && canonical == "false")
    case Text => v == Str(canonical)
    case Integer => v.Num? && ParseInt(v.text).Some? && ParseInt(canonical) == ParseInt(v.text)
    case TextList =>
      && v.List?
      && (v.items == [] ==> canonical == "")
      && (v.items != [] ==>
            var parts := CommaSplit(canonical);
            |parts| == |v.items| && forall i :: 0 <= i < |parts| ==> v.items[i] == Str(parts[i]))
  }

  lemma CanonicalRestates(ov: Override, v: Json)
    requires OfType(ov, v)
    ensures Restates(ov, v, Canonical(ov, v))
  {
    hide CommaSplit, ItoaInt;
    match ov.kind {
      case Integer => ParseIntItoa(ParseInt(v.text).value);
      case TextList => ReadsBack(v.items);
      case Text =>
      case Boolean =>
    }
  }

  method JoinEntries(items: seq<Json>) returns (r: Option<string>)
    ensures r.Some? <==> Entries(items)
    ensures r.Some? ==> r.value == CommaJoin(Texts(items))
  {
    var parts: seq<string> := [];
    for i := 0 to |items|
      invariant |parts| == i
      invariant forall j :: 0 <= j < i ==> items[j].Str? && CommaFree(items[j].s) && parts[j] == items[j].s
    {
      if !items[i].Str? || !CommaFree(items[i].s) { return None; }
      parts := parts + [items[i].s];
    }
    assert parts == Texts(items);
    return Some(CommaJoin(parts));
  }

  method CheckEnum(ov: Override, v: Json) returns (ok: bool)
    ensures ok <==> Allowed(ov, v)
  {
    if ov.allowed == [] { return true; }
    if ov.kind != TextList || !v.List? {
      ok := EnumContains(ov.allowed, v);
      return;
    }
    for i := 0 to |v.items|
      invariant forall j :: 0 <= j < i ==> In(v.items[j], ov.allowed)
    {
      var found := EnumContains(ov.allowed, v.items[i]);
      if !found { return false; }
    }
    return true;
  }

  /** validateValue: the canonical form of a value of the declared type that the enum allows. */
  method ValidateValue(ov: Override, raw: Option<Json>) returns (r: Option<string>)
    ensures r.Some? <==> raw.Some? && OfType(ov, raw.value) && Allowed(ov, raw.value)
    ensures r.Some? ==> r.value == Canonical(ov, raw.value)
    ensures r.Some? ==> Restates(ov, raw.value, r.value)
  {
    if raw.Some? && OfType(ov, raw.value) { CanonicalRestates(ov, raw.value); }
    hide In, CommaJoin, ParseInt, IntegerText, Allowed, Restates;
    if raw.None? { return None; }
    var v, canonical := raw.value, "";
    match ov.kind {
      case Integer =>
        if !v.Num? || !IntegerText(v.text) { return None; }
        var n := ParseInt(v.text);
        if n.None? || (ov.min.Some? && n.value < ov.min.value) || (ov.max.Some? && n.value > ov.max.value) {
          return None;
        }
        canonical := ItoaInt(n.value);
      case Text =>
        if !v.Str? { return None; }
        canonical := v.s;
      case TextList =>
        if !v.List? { return None; }
        var joined := JoinEntries(v.items);
        if joined.None? { return None; }
        canonical := joined.value;
      case Boolean =>
        if !v.Bool? { return None; }
        canonical := if v.b then "true" else "false";
    }
    var ok := CheckEnum(ov, v);
    return if ok then Some(canonical) else None;
  }

  // ---------------------------------------------------------------------- resolution

  /** The value an override takes: the user's, else its default, else none. */
  function Chosen(ov: Override, user: map<string, Option<Json>>): Option<Option<Json>> {
    if ov.name in user then Some(user[ov.name]) else ov.default
  }

  ghost predicate Valid(ov: Override, raw: Option<Json>) {
    raw.Some? && OfType(ov, raw.value) && Allowed(ov, raw.value)
  }

  ghost predicate Resolves(declared: seq<Override>, user: map<string, Option<Json>>, n: nat)
    requires n <= |declared|
  {
    forall i :: 0 <= i < n && Chosen(declared[i], user).Some? ==> Valid(declared[i], Chosen(declared[i], user).value)
  }

  ghost predicate Declares(declared: seq<Override>, name: string) {
    exists i :: 0 <= i < |declared| && declared[i].name == name
  }

  /** The override takes this value: its canonical form is what is resolved. */
  ghost predicate Takes(ov: Override, raw: Option<Json>, resolved: map<string, string>) {
    && Valid(ov, raw) && ov.name in resolved
    && resolved[ov.name] == Canonical(ov, raw.value) && Restates(ov, raw.value, resolved[ov.name])
  }

  /** ResolveOverrides: it succeeds exactly when every value taken is valid and every user key is
      declared, and then gives each override that takes a value its canonical form, and no other. */
  method ResolveOverrides(declared: seq<Override>, user: map<string, Option<Json>>)
    returns (resolved: map<string, string>, ok: bool)
    requires forall i, j :: 0 <= i < j < |declared| ==> declared[i].name != declared[j].name
    ensures ok <==> Resolves(declared, user, |declared|) && forall name :: name in user ==> Declares(declared, name)
    ensures ok ==> forall i :: 0 <= i < |declared| ==>
              (declared[i].name in resolved <==> Chosen(declared[i], user).Some?)
              && (declared[i].name in resolved ==>
                resolved[declared[i].name] == Canonical(declared[i], Chosen(declared[i], user).value.value))
    ensures forall name :: name in resolved ==> Declares(declared, name)
    // the user's value before the default, and nothing where there is neither
    ensures ok ==> forall i :: 0 <= i < |declared| ==>
              var ov := declared[i];
              && (ov.name in user ==> Takes(ov, user[ov.name], resolved))
              && (ov.name !in user && ov.default.Some? ==> Takes(ov, ov.default.value, resolved))
              && (ov.name !in user && ov.default.None? ==> ov.name !in resolved)
  {
    hide Allowed, OfType, Canonical, Restates;
    resolved, ok := map[], true;
    for i := 0 to |declared|
      invariant ok <==> Resolves(declared, user, i)
      invariant forall name :: name in resolved ==> exists j :: 0 <= j < i && declared[j].name == name
      invariant forall j :: 0 <= j < i ==>
                  (declared[j].name in resolved <==>
                    Chosen(declared[j], user).Some? && Valid(declared[j], Chosen(declared[j], user).value))
                  && (declared[j].name in resolved ==> Takes(declared[j], Chosen(declared[j], user).value, resolved))
    {
      var ov := declared[i];
      var raw := Chosen(ov, user);
      if raw.Some? {
        var value := ValidateValue(ov, raw.value);
        if value.None? { ok := false; } else { resolved := resolved[ov.name := value.value]; }
      }
    }
    var todo := user.Keys;
    while todo != {}
      invariant todo <= user.Keys
      invariant ok <==> Resolves(declared, user, |declared|)
                        && forall name :: name in user && name !in todo ==> Declares(declared, name)
      decreases |todo|
    {
      var name :| name in todo;
      todo := todo - {name};
      var found := false;
      for i := 0 to |declared|
        invariant found <==> exists j :: 0 <= j < i && declared[j].name == name
      {
        if declared[i].name == name { found := true; }
      }
      if !found { ok := false; }
    }
  }

  // ------------------------------------------------------------- what the forms mean

  /** What decoding an enum gives: a number has the text of a JSON number. */
  ghost predicate Decoded(entry: Option<Json>) {
    entry.Some? && entry.value.Num? ==> exists n :: Spells(n, entry)
  }

  ghost predicate Spells(n: Numbers.Literal, entry: Option<Json>) {
    entry == Some(Num(Numbers.Text(n))) && Numbers.Json(n) && |Numbers.Text(n)| <= MAX_INT64
  }

  ghost predicate HasValue(n: Numbers.Literal, a: Numbers.Literal) {
    Numbers.Value(n) == Numbers.Value(a) && Numbers.Convertible(n)
  }

  /** An integer is allowed exactly when the enum spells a number of its value that the comparison
      converts, whatever else the enum holds. */
  lemma IntegerEnumIsByValue(a: Numbers.Literal, allowed: seq<Option<Json>>)
    requires Numbers.Json(a) && |Numbers.Text(a)| <= MAX_INT64 && ParseInt(Numbers.Text(a)).Some?
    requires forall i :: 0 <= i < |allowed| ==> Decoded(allowed[i])
    ensures In(Num(Numbers.Text(a)), allowed) <==>
            exists i, n :: 0 <= i < |allowed| && Spells(n, allowed[i]) && HasValue(n, a)
  {
    hide Numbers.Json, Numbers.Value, Numbers.Text, Numbers.Equal, Numbers.Exp, Numbers.Convertible, ParseInt;
    var v := Num(Numbers.Text(a));
    forall i, n | 0 <= i < |allowed| && Spells(n, allowed[i]) ensures Matches(v, allowed[i]) <==> HasValue(n, a) {
      Numbers.IntegerEqualIff(a, n);
    }
    if i :| 0 <= i < |allowed| && Matches(v, allowed[i]) {
      assert Decoded(allowed[i]);
      var n :| Spells(n, allowed[i]);
      assert HasValue(n, a);
    }
  }

  /** A reachable case in which it does not: 0 is not found in an enum that spells it with an exponent
      beyond an int, although a zero mantissa is meant to be 0 under any exponent. */
  lemma HugeExponentRejected() returns (ov: Override, v: Json, n: Numbers.Literal)
    ensures ov.kind == Integer && OfType(ov, v) && v.text == "0" && Numbers.Json(n) && Numbers.Value(n) == 0.0
    ensures ov.allowed == [Some(Num(Numbers.Text(n)))] && !Allowed(ov, v)
  {
    var zero := Numbers.Literal(false, "0", "", None);
    n := Numbers.HugeZero();
    v := Num("0");
    ov := Override("x", Integer, None, None, [Some(Num(Numbers.Text(n)))], None);
    assert IsDigit("0"[0]) && IntegerText("0") && Natural("0") == 0 && ParseInt("0").Some?;
    assert Numbers.Text(zero) == "0";
    Numbers.IntegerEqualIff(zero, n);
    assert !Matches(v, ov.allowed[0]);
  }

  /** Integers with one canonical form have one value: `-0` and `0` are the only spellings it merges. */
  lemma CanonicalIntegers(ov: Override, a: Json, b: Json)
    requires ov.kind == Integer && OfType(ov, a) && OfType(ov, b)
    ensures Canonical(ov, a) == Canonical(ov, b) <==> ParseInt(a.text) == ParseInt(b.text)
  {
    hide ItoaInt, IntegerText;
    ParseIntItoa(ParseInt(a.text).value);
    ParseIntItoa(ParseInt(b.text).value);
  }

  /** strings.Split(s, ","). */
  function CommaSplit(s: string): seq<string>
    decreases |s|
  {
    var i := LastIndexOf(s, ',');
    if i < 0 then [s] else CommaSplit(s[..i]) + [s[i + 1..]]
  }

  lemma LastComma(front: string, p: string)
    requires CommaFree(p)
    ensures var s := front + "," + p;
            LastIndexOf(s, ',') == |front| && s[..|front|] == front && s[|front| + 1..] == p
  {
    var s := front + "," + p;
    assert s[|front|] == ',';
    assert forall j :: |front| < j < |s| ==> s[j] == p[j - |front| - 1];
  }

  /** The joined form is the parts with one comma between each two, and can be split back apart. */
  lemma {:induction false} SplitJoin(parts: seq<string>)
    requires parts != [] && forall i :: 0 <= i < |parts| ==> CommaFree(parts[i])
    ensures CommaSplit(CommaJoin(parts)) == parts
    ensures forall i :: 0 <= i < |parts| ==> ',' !in parts[i]
    ensures |parts| == 1 ==> CommaJoin(parts) == parts[0]
    ensures |parts| > 1 ==> CommaJoin(parts) == CommaJoin(parts[..|parts| - 1]) + "," + parts[|parts| - 1]
  {
    hide LastIndexOf;
    var last := |parts| - 1;
    if last == 0 {
      NoComma(parts[0]);
      assert CommaSplit(parts[0]) == [parts[0]];
    } else {
      SplitJoin(parts[..last]);
      LastComma(CommaJoin(parts[..last]), parts[last]);
      assert parts == parts[..last] + [parts[last]];
    }
  }

  lemma NoComma(p: string)
    requires CommaFree(p)
    ensures LastIndexOf(p, ',') == -1
  {}

  /** Lists with one canonical form are one list, except that no entry and one empty entry look alike. */
  lemma CanonicalLists(ov: Override, a: Json, b: Json)
    requires ov.kind == TextList && OfType(ov, a) && OfType(ov, b)
    ensures Canonical(ov, a) == Canonical(ov, b) <==>
            a == b || (a.items in {[], [Str("")]} && b.items in {[], [Str("")]})
  {
    ReadsBack(a.items);
    ReadsBack(b.items);
    if a.items == [] && b.items == [Str("")] { assert Texts(b.items) == [""]; }
    if b.items == [] && a.items == [Str("")] { assert Texts(a.items) == [""]; }
  }

  /** The two lists that look alike. */
  lemma EmptyListsLookAlike() returns (ov: Override, a: Json, b: Json)
    ensures ov.kind == TextList && OfType(ov, a) && OfType(ov, b) && a == List([]) && b == List([Str("")])
    ensures a != b && Canonical(ov, a) == Canonical(ov, b)
  {
    ov, a, b := Override("x", TextList, None, None, [], None), List([]), List([Str("")]);
    CanonicalLists(ov, a, b);
  }

  lemma ReadsBack(items: seq<Json>)
    requires Entries(items)
    ensures var r := CommaSplit(CommaJoin(Texts(items)));
            if items == [] then r == [""]
            else r == Texts(items) && |r| == |items| && forall i :: 0 <= i < |items| ==> items[i] == Str(r[i])
  {
    if items != [] { SplitJoin(Texts(items)); }
  }
}
