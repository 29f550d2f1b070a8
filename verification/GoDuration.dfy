/** Go-style durations as text, from `duration.rs`, in nanoseconds. */
module GoDuration {
  import opened Decimal

  datatype Option<T> = None | Some(value: T)

  const SECOND: nat := 1_000_000_000
  const MINUTE: nat := 60 * SECOND
  const HOUR: nat := 60 * MINUTE
  const DAY: nat := 24 * HOUR

  /** The bounds of the 128-bit arithmetic. */
  const LIMIT: int := 0x8000_0000_0000_0000_0000_0000_0000_0000

  /** Fraction digits past this scale are ignored. */
  const MAX_SCALE: nat := 1_000_000_000_000_000_000

  function Unit(u: string): Option<nat> {
    if u == "ns" then Some(1)
    else if u == "us" || u == "\U{B5}s" || u == "\U{3BC}s" then Some(1_000)
    else if u == "ms" then Some(1_000_000)
    else if u == "s" then Some(SECOND)
    else if u == "m" then Some(MINUTE)
    else if u == "h" then Some(HOUR)
    else if u == "d" then Some(DAY)
    else None
  }

  /** How many leading characters belong to a unit: neither digits nor dots. */
  function UnitRun(s: string): (k: nat)
    ensures k <= |s|
  {
    if s == [] || IsDigit(s[0]) || s[0] == '.' then 0 else 1 + UnitRun(s[1..])
  }

  /** A fraction's digits read so far, and the power of ten they are over. */
  function Fraction(s: string): (nat, nat)
    requires AllDigits(s)
  {
    if s == [] then (0, 1)
    else
      var (frac, scale) := Fraction(s[..|s| - 1]);
      if scale > MAX_SCALE then (frac, scale)
      else (frac * 10 + (s[|s| - 1] as nat - '0' as nat), scale * 10)
  }

  /** An unchecked addition wraps. */
  function Wrap(n: int): int {
    if n < LIMIT then n else n - 2 * LIMIT
  }

  /** The mantissa at the front: integer digits, fraction digits, and what follows. */
  function Mantissa(s: string): (m: (string, string, string))
    ensures AllDigits(m.0) && AllDigits(m.1) && |m.2| <= |s|
    ensures m.0 != [] || m.1 != [] ==> |m.2| < |s|
  {
    hide DigitRun;
    var k := DigitRun(s);
    var rest := s[k..];
    if rest != [] && rest[0] == '.' then
      var f := DigitRun(rest[1..]);
      (s[..k], rest[1..][..f], rest[1..][f..])
    else (s[..k], "", rest)
  }

  /** One component's nanoseconds and what follows it. */
  function Component(s: string): (r: Option<(int, string)>)
    ensures r.Some? ==> |r.value.1| < |s|
  {
    hide Mantissa, UnitRun, Unit, Value, Fraction, Amount;
    var (int0, frac0, rest) := Mantissa(s);
    var u := UnitRun(rest);
    if (int0 == [] && frac0 == []) || u == 0 || Unit(rest[..u]).None? then None
    else
      var unit := Unit(rest[..u]).value;
      var whole := Value(int0);
      if whole >= LIMIT || whole * unit >= LIMIT then None
      else
        var (frac, scale) := Fraction(frac0);
        Some((Amount(whole * unit, frac, scale, unit, frac0 != []), rest[u..]))
  }

  function Amount(nanos: int, frac: nat, scale: nat, unit: nat, has: bool): int {
    if has && scale > 0 then Wrap(nanos + frac * unit / scale) else nanos
  }

  /** The sum of the components of `s` and what came before. */
  function Total(s: string, total: int): Option<int>
    decreases |s|
  {
    if s == [] then Some(total)
    else
      var c := Component(s);
      if c.None? || !(-LIMIT <= total + c.value.0 < LIMIT) then None
      else Total(c.value.1, total + c.value.0)
  }

  function Unsigned(s: string): Option<int> {
    if s == "0" then Some(0) else if s == [] then None else Total(s, 0)
  }

  function Parse(s: string): Option<int> {
    if s != [] && s[0] == '-' then
      match Unsigned(s[1..]) case None => None case Some(n) => Some(-n)
    else if s != [] && s[0] == '+' then Unsigned(s[1..])
    else Unsigned(s)
  }

  /** `parse_go_duration`, walking the text component by component. */
  method ParseDuration(orig: string) returns (r: Option<int>)
    ensures r == Parse(orig)
  {
    hide Component;
    var s, neg := orig, false;
    if s != [] && s[0] == '-' {
      s, neg := s[1..], true;
    } else if s != [] && s[0] == '+' {
      s := s[1..];
    }
    if s == "0" {
      return Some(0);
    }
    if s == [] {
      return None;
    }
    var total: int, i: nat := 0, 0;
    assert s[0..] == s;
    while i < |s|
      invariant i <= |s|
      invariant Total(s[i..], total) == Total(s, 0)
    {
      var c := ParseComponent(s, i);
      if c.None? {
        return None;
      }
      var (nanos, next) := c.value;
      if !(-LIMIT <= total + nanos < LIMIT) {
        return None;
      }
      total, i := total + nanos, next;
    }
    r := Some(if neg then -total else total);
  }

  /** One turn of the outer loop: digits, an optional fraction, and a unit, from position `at`. */
  method ParseComponent(s: string, at: nat) returns (r: Option<(int, nat)>)
    requires at < |s|
    ensures r.None? <==> Component(s[at..]).None?
    ensures r.Some? ==> at < r.value.1 <= |s| && Component(s[at..]) == Some((r.value.0, s[r.value.1..]))
  {
    hide Unit, Value, Fraction, Mantissa, UnitRun, Amount;
    var int0, frac0, i := ParseMantissa(s, at);
    if int0 == [] && frac0 == [] {
      return None;
    }
    var end := SkipUnit(s, i);
    assert s[i..][..end - i] == s[i..end] && s[i..][end - i..] == s[end..];
    if end == i {
      return None;
    }
    var unit := Unit(s[i..end]);
    if unit.None? {
      return None;
    }
    var whole := Value(int0);
    if whole >= LIMIT || whole * unit.value >= LIMIT {
      return None;
    }
    var frac, scale := ReadFraction(frac0);
    r := Some((Amount(whole * unit.value, frac, scale, unit.value, frac0 != []), end));
  }

  method ParseMantissa(s: string, at: nat) returns (int0: string, frac0: string, i: nat)
    requires at < |s|
    ensures at <= i <= |s| && Mantissa(s[at..]) == (int0, frac0, s[i..])
  {
    hide DigitRun;
    i := SkipDigits(s, at);
    int0, frac0 := s[at..i], "";
    SliceTwice(s, at, i);
    if i < |s| && s[i] == '.' {
      var from := i + 1;
      assert s[i..][1..] == s[from..];
      i := SkipDigits(s, from);
      frac0 := s[from..i];
      SliceTwice(s, from, i);
    }
  }

  lemma SliceTwice(s: string, from: nat, to: nat)
    requires from <= to <= |s|
    ensures s[from..][..to - from] == s[from..to] && s[from..][to - from..] == s[to..]
  {
  }

  method SkipDigits(s: string, at: nat) returns (i: nat)
    requires at <= |s|
    ensures at <= i <= |s| && i - at == DigitRun(s[at..])
  {
    i := at;
    while i < |s| && IsDigit(s[i])
      invariant at <= i <= |s|
      invariant DigitRun(s[at..]) == (i - at) + DigitRun(s[i..])
    {
      assert s[i..][1..] == s[i + 1..];
      i := i + 1;
    }
  }

  method SkipUnit(s: string, at: nat) returns (i: nat)
    requires at <= |s|
    ensures at <= i <= |s| && i - at == UnitRun(s[at..])
  {
    i := at;
    while i < |s| && !IsDigit(s[i]) && s[i] != '.'
      invariant at <= i <= |s|
      invariant UnitRun(s[at..]) == (i - at) + UnitRun(s[i..])
    {
      assert s[i..][1..] == s[i + 1..];
      i := i + 1;
    }
  }

  lemma {:induction false} FractionStops(s: string, i: nat)
    requires AllDigits(s) && i <= |s| && Fraction(s[..i]).1 > MAX_SCALE
    ensures Fraction(s) == Fraction(s[..i])
    decreases |s|
  {
    if i == |s| {
      assert s[..i] == s;
    } else {
      assert s[..|s| - 1][..i] == s[..i];
      FractionStops(s[..|s| - 1], i);
    }
  }

  method ReadFraction(s: string) returns (frac: nat, scale: nat)
    requires AllDigits(s)
    ensures (frac, scale) == Fraction(s)
  {
    frac, scale := 0, 1;
    for i := 0 to |s|
      invariant (frac, scale) == Fraction(s[..i])
    {
      if scale > MAX_SCALE {
        FractionStops(s, i);
        return;
      }
      assert s[..i + 1][..i] == s[..i];
      frac := frac * 10 + (s[i] as nat - '0' as nat);
      scale := scale * 10;
    }
    assert s[..|s|] == s;
  }

  /** `Display` on whole seconds: the largest unit that divides, once. */
  function Print(n: int): string
    requires n % SECOND == 0
  {
    if n == 0 then "0s"
    else if n < 0 then "-" + PrintPositive(-n)
    else PrintPositive(n)
  }

  function PrintPositive(a: nat): string
    requires a % SECOND == 0
  {
    if a % DAY == 0 then Digits(a / DAY) + "d"
    else if a % HOUR == 0 then Digits(a / HOUR) + "h"
    else if a % MINUTE == 0 then Digits(a / MINUTE) + "m"
    else Digits(a / SECOND) + "s"
  }

  // ---- sums of components

  /** A component: digits, perhaps a dot and more digits, and a unit. */
  datatype Part = Part(whole: string, dot: bool, frac: string, unit: string)

  type Parts = seq<Part>

  predicate WellFormed(p: Part) {
    && AllDigits(p.whole) && AllDigits(p.frac) && (p.whole != "" || p.frac != "") && (p.frac != "" ==> p.dot)
    && Unit(p.unit).Some?
  }

  predicate AllWellFormed(ps: Parts) {
    forall i :: 0 <= i < |ps| ==> WellFormed(ps[i])
  }

  function PartText(p: Part): string {
    p.whole + (if p.dot then "." + p.frac else "") + p.unit
  }

  function Text(ps: Parts): string {
    if ps == [] then "" else PartText(ps[0]) + Text(ps[1..])
  }

  function Pow10(n: nat): (p: nat)
    ensures p > 0
  {
    if n == 0 then 1 else 10 * Pow10(n - 1)
  }

  /** The fraction digits that count: the first nineteen. */
  function Counted(frac: string): (used: string)
    ensures AllDigits(frac) ==> AllDigits(used)
  {
    if |frac| <= 19 then frac else frac[..19]
  }

  /** `part` out of `whole` of a unit, rounded down. */
  function Proportion(part: nat, unit: nat, whole: nat): nat
    requires whole > 0
  {
    part * unit / whole
  }

  /** What fraction digits are worth, rounded down to whole nanoseconds. */
  function Share(frac: string, unit: nat): nat
    requires AllDigits(frac)
  {
    Proportion(Value(Counted(frac)), unit, Pow10(|Counted(frac)|))
  }

  /** What a component is worth in nanoseconds. */
  function Nanos(p: Part): nat
    requires WellFormed(p)
  {
    hide Unit, Value, Share;
    var unit := Unit(p.unit).value;
    Value(p.whole) * unit + if p.frac == "" then 0 else Share(p.frac, unit)
  }

  function Sum(ps: Parts): nat
    requires AllWellFormed(ps)
  {
    if ps == [] then 0 else Nanos(ps[0]) + Sum(ps[1..])
  }

  lemma {:induction false} Pow10Grows(m: nat, n: nat)
    requires m <= n
    ensures Pow10(m) <= Pow10(n)
    decreases n
  {
    if m < n {
      Pow10Grows(m, n - 1);
    }
  }

  lemma Pow10Of18()
    ensures Pow10(18) == MAX_SCALE
  {
    assert Pow10(6) == 1_000_000;
    assert Pow10(12) == 1_000_000_000_000;
  }

  lemma FractionStep(s: string)
    requires AllDigits(s) && s != ""
    ensures var (frac, scale) := Fraction(s[..|s| - 1]);
            Fraction(s) == if scale > MAX_SCALE then (frac, scale)
                           else (frac * 10 + (s[|s| - 1] as nat - '0' as nat), scale * 10)
  {
  }

  /** The digits read are the first nineteen, and the scale is their power of ten. */
  lemma {:induction false} FractionIs(s: string)
    requires AllDigits(s)
    ensures Fraction(s) == (Value(Counted(s)), Pow10(|Counted(s)|))
  {
    if s == [] {
      NoDigits();
    } else {
      hide Value, Fraction;
      var n := |s| - 1;
      FractionIs(s[..n]);
      FractionStep(s);
      Pow10Of18();
      if n >= 19 {
        Pow10Grows(19, 19);
        assert Counted(s[..n]) == Counted(s);
      } else {
        Pow10Grows(n, 18);
        OneMoreDigit(s);
      }
    }
  }

  lemma NoDigits()
    ensures Value("") == 0
  {
  }

  lemma OneMoreDigit(s: string)
    requires AllDigits(s) && s != ""
    ensures Value(s) == 10 * Value(s[..|s| - 1]) + (s[|s| - 1] as nat - '0' as nat)
  {
  }

  lemma {:induction false} UnitRunOf(u: string, rest: string)
    requires forall i :: 0 <= i < |u| ==> !IsDigit(u[i]) && u[i] != '.'
    requires rest == [] || IsDigit(rest[0]) || rest[0] == '.'
    ensures UnitRun(u + rest) == |u|
  {
    if u == [] {
      assert u + rest == rest;
    } else {
      assert (u + rest)[1..] == u[1..] + rest;
      UnitRunOf(u[1..], rest);
    }
  }

  lemma UnitShape(u: string)
    requires Unit(u).Some?
    ensures u != [] && Unit(u).value > 0
    ensures forall i :: 0 <= i < |u| ==> !IsDigit(u[i]) && u[i] != '.'
  {
  }

  /** A mantissa is split at its dot, in front of whatever begins with neither digit nor dot. */
  lemma MantissaOf(whole: string, dot: bool, frac: string, rest: string)
    requires AllDigits(whole) && AllDigits(frac) && (frac != "" ==> dot)
    requires rest != [] && !IsDigit(rest[0]) && rest[0] != '.'
    ensures Mantissa(whole + (if dot then "." + frac else "") + rest) == (whole, frac, rest)
  {
    var tail := (if dot then "." + frac else "") + rest;
    assert whole + (if dot then "." + frac else "") + rest == whole + tail;
    DigitRunOf(whole, tail);
    if dot {
      assert tail[1..] == frac + rest;
      DigitRunOf(frac, rest);
    } else {
      assert tail == rest;
    }
  }

  lemma AmountIs(whole: nat, unit: nat, frac0: string)
    requires AllDigits(frac0) && unit > 0
    requires whole * unit + (if frac0 == "" then 0 else Share(frac0, unit)) < LIMIT
    ensures whole < LIMIT && whole * unit < LIMIT
    ensures Amount(whole * unit, Fraction(frac0).0, Fraction(frac0).1, unit, frac0 != "")
            == whole * unit + if frac0 == "" then 0 else Share(frac0, unit)
  {
    hide Value, Fraction, Counted, Pow10;
    FractionIs(frac0);
    NoSmaller(whole, unit);
  }

  /** The component at the front is read whole. */
  lemma FirstComponent(p: Part, rest: string)
    requires WellFormed(p) && Nanos(p) < LIMIT && (rest == [] || IsDigit(rest[0]) || rest[0] == '.')
    ensures Component(PartText(p) + rest) == Some((Nanos(p), rest))
  {
    hide Unit, Value, Fraction, Mantissa, UnitRun, Amount, Share;
    UnitShape(p.unit);
    assert PartText(p) + rest == p.whole + (if p.dot then "." + p.frac else "") + (p.unit + rest);
    MantissaOf(p.whole, p.dot, p.frac, p.unit + rest);
    UnitRunOf(p.unit, rest);
    assert (p.unit + rest)[..|p.unit|] == p.unit && (p.unit + rest)[|p.unit|..] == rest;
    AmountIs(Value(p.whole), Unit(p.unit).value, p.frac);
  }

  lemma NoSmaller(n: nat, m: nat)
    requires m > 0
    ensures n <= n * m
  {
  }

  lemma TextStart(ps: Parts)
    requires AllWellFormed(ps)
    ensures Text(ps) == [] || IsDigit(Text(ps)[0]) || Text(ps)[0] == '.'
  {
    hide Unit;
  }

  /** Text made of components parses to their sum, as long as it fits in 128 bits. */
  lemma {:induction false} TotalOfText(ps: Parts, total: nat)
    requires AllWellFormed(ps) && total + Sum(ps) < LIMIT
    ensures Total(Text(ps), total) == Some(total + Sum(ps))
  {
    hide Component, Unit, Nanos, PartText, WellFormed;
    if ps != [] {
      TextStart(ps[1..]);
      FirstComponent(ps[0], Text(ps[1..]));
      TotalOfText(ps[1..], total + Nanos(ps[0]));
    }
  }

  /** Either sign of a sum of components, with fractions or without, is read as its exact sum, each
      rounded down to nanoseconds; text with no component is not read. */
  lemma SumParses(ps: Parts)
    requires AllWellFormed(ps) && Sum(ps) < LIMIT
    ensures ps != [] ==>
              && Parse(Text(ps)) == Some(Sum(ps)) && Parse("+" + Text(ps)) == Some(Sum(ps))
              && Parse("-" + Text(ps)) == Some(-(Sum(ps) as int))
    ensures ps == [] ==> Parse(Text(ps)).None?
  {
    hide Total, Sum, Unit, PartText;
    TotalOfText(ps, 0);
    if ps != [] {
      TextLong(ps);
      assert ("-" + Text(ps))[1..] == Text(ps) && ("+" + Text(ps))[1..] == Text(ps);
    }
  }

  lemma TextLong(ps: Parts)
    requires ps != [] && AllWellFormed(ps)
    ensures |Text(ps)| >= 2 && (IsDigit(Text(ps)[0]) || Text(ps)[0] == '.')
  {
    hide Unit;
    UnitShape(ps[0].unit);
  }

  /** A mantissa and what follows it are the whole text. */
  lemma MantissaSplits(s: string)
    ensures var (whole, frac, rest) := Mantissa(s); var dot := |whole| < |s| && s[|whole|] == '.';
            (frac != "" ==> dot) && s == whole + (if dot then "." + frac else "") + rest
  {
    hide DigitRun;
    var k := DigitRun(s);
    var rest := s[k..];
    if rest != [] && rest[0] == '.' {
      assert rest == "." + rest[1..];
      assert s == s[..k] + rest;
    }
  }

  /** A component that is read is one, followed by what is left. */
  lemma Decompose(s: string) returns (p: Part)
    requires Component(s).Some?
    ensures WellFormed(p) && s == PartText(p) + Component(s).value.1
  {
    hide Unit, Value, Fraction, Amount, UnitRun, Mantissa;
    MantissaSplits(s);
    var (whole, frac, rest) := Mantissa(s);
    var u := UnitRun(rest);
    p := Part(whole, |whole| < |s| && s[|whole|] == '.', frac, rest[..u]);
    assert rest == rest[..u] + rest[u..];
  }

  /** Nothing else is read: a text that parses is a sum of components. */
  lemma {:induction false} OnlySumsParse(s: string, total: int) returns (ps: Parts)
    requires Total(s, total).Some?
    ensures AllWellFormed(ps) && Text(ps) == s
    decreases |s|
  {
    hide Component, PartText, WellFormed;
    if s == [] {
      ps := [];
    } else {
      var p := Decompose(s);
      var c := Component(s).value;
      var more := OnlySumsParse(c.1, total + c.0);
      ps := [p] + more;
      assert ps[1..] == more;
    }
  }

  lemma OnePart(n: nat, u: string)
    requires Unit(u).Some?
    ensures var ps := [Part(Digits(n), false, "", u)];
            Text(ps) == Digits(n) + u && AllWellFormed(ps) && Sum(ps) == n * Unit(u).value
  {
    hide Digits, Unit;
    ValueOfDigits(n);
    var ps := [Part(Digits(n), false, "", u)];
    assert ps[1..] == [];
    assert Digits(n) + "" + u == Digits(n) + u;
  }

  /** The one component a positive duration is printed as. */
  function PartOf(a: nat): (p: (nat, string))
    requires a % SECOND == 0
    ensures Unit(p.1).Some? && p.0 * Unit(p.1).value == a
    ensures PrintPositive(a) == Digits(p.0) + p.1
  {
    if a % DAY == 0 then (a / DAY, "d")
    else if a % HOUR == 0 then (a / HOUR, "h")
    else if a % MINUTE == 0 then (a / MINUTE, "m")
    else (a / SECOND, "s")
  }

  lemma NotTheLeast(n: int)
    requires n % SECOND == 0
    ensures n != -LIMIT
  {
  }

  /** Parsing undoes printing for whole seconds of either sign that fit in 128 bits. */
  lemma RoundTrip(n: int)
    requires n % SECOND == 0 && -LIMIT <= n < LIMIT
    ensures Parse(Print(n)) == Some(n)
  {
    hide Parse, PrintPositive, PartOf, Digits, Unit, Text, Sum, AllWellFormed;
    if n == 0 {
      ZeroUnit();
      OnePart(0, "s");
      assert "0" + "s" == "0s";
      SumParses([Part(Digits(0), false, "", "s")]);
    } else {
      NotTheLeast(n);
      var a: nat := if n < 0 then -n else n;
      var p := PartOf(a);
      OnePart(p.0, p.1);
      SumParses([Part(Digits(p.0), false, "", p.1)]);
    }
  }

  lemma ZeroUnit()
    ensures Unit("s") == Some(SECOND) && Digits(0) == "0"
  {
  }
}
