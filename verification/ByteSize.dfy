/** Byte counts as text, from `bytesize.rs`. */
module ByteSize {
  import opened Decimal

  datatype Option<T> = None | Some(value: T)

  const KB: nat := 1024
  const MB: nat := 1024 * KB
  const GB: nat := 1024 * MB
  const TB: nat := 1024 * GB
  const PB: nat := 1024 * TB
  const EB: nat := 1024 * PB
  const U64_LIMIT: nat := 16 * EB

  /** The units `Display` tries, largest first. */
  const UNITS: seq<(nat, string)> := [(EB, "EB"), (PB, "PB"), (TB, "TB"), (GB, "GB"), (MB, "MB"), (KB, "KB")]

  /** Unicode white space. */
  predicate IsSpace(c: char) {
    || '\t' <= c <= '\r' || c == ' ' || c == '\U{85}' || c == '\U{A0}' || c == '\U{1680}'
    || '\U{2000}' <= c <= '\U{200A}' || c == '\U{2028}' || c == '\U{2029}' || c == '\U{202F}'
    || c == '\U{205F}' || c == '\U{3000}'
  }

  function TrimStart(s: string): string {
    if s != [] && IsSpace(s[0]) then TrimStart(s[1..]) else s
  }

  function TrimEnd(s: string): string {
    if s != [] && IsSpace(s[|s| - 1]) then TrimEnd(s[..|s| - 1]) else s
  }

  function Trim(s: string): string {
    TrimEnd(TrimStart(s))
  }

  function UpperChar(c: char): char {
    if 'a' <= c <= 'z' then 'A' + (c as int - 'a' as int) as char else c
  }

  function Upper(s: string): string {
    if s == [] then [] else [UpperChar(s[0])] + Upper(s[1..])
  }

  function Multiplier(unit: string): Option<nat> {
    if unit == "" || unit == "B" then Some(1)
    else if unit == "K" || unit == "KB" then Some(KB)
    else if unit == "M" || unit == "MB" then Some(MB)
    else if unit == "G" || unit == "GB" then Some(GB)
    else if unit == "T" || unit == "TB" then Some(TB)
    else if unit == "P" || unit == "PB" then Some(PB)
    else if unit == "E" || unit == "EB" then Some(EB)
    else None
  }

  function Parse(s: string): Option<nat> {
    var t := Trim(s);
    var split := DigitRun(t);
    if split == 0 then None
    else
      var n, mult := Value(t[..split]), Multiplier(Upper(Trim(t[split..])));
      if n >= U64_LIMIT || mult.None? || n * mult.value >= U64_LIMIT then None
      else Some(n * mult.value)
  }

  /** The text with the largest unit, from the `i`th on, that divides the value. */
  function PrintFrom(v: nat, i: nat): string
    requires i <= |UNITS|
    decreases |UNITS| - i
  {
    if i == |UNITS| then Digits(v) + "B"
    else if v >= UNITS[i].0 && v % UNITS[i].0 == 0 then Digits(v / UNITS[i].0) + UNITS[i].1
    else PrintFrom(v, i + 1)
  }

  function Print(v: nat): string {
    PrintFrom(v, 0)
  }

  /** Text that starts with a digit and ends with a letter is not touched by trimming. */
  lemma TrimNothing(s: string)
    requires s != [] && !IsSpace(s[0]) && !IsSpace(s[|s| - 1])
    ensures Trim(s) == s
  {
  }

  /** A number followed by a unit parses to their product. */
  lemma ParseNumber(n: nat, unit: string, mult: nat)
    requires unit != [] && !IsSpace(unit[0]) && !IsDigit(unit[0]) && !IsSpace(unit[|unit| - 1])
    requires Multiplier(Upper(unit)) == Some(mult) && mult > 0 && n * mult < U64_LIMIT
    ensures Parse(Digits(n) + unit) == Some(n * mult)
  {
    hide Digits, Multiplier, Upper, Trim, IsSpace, Value;
    var s := Digits(n) + unit;
    DigitNotSpace(s[0]);
    TrimNothing(s);
    TrimNothing(unit);
    DigitRunOf(Digits(n), unit);
    ValueOfDigits(n);
    Shrinks(n, mult);
  }

  lemma Shrinks(n: nat, mult: nat)
    requires mult > 0
    ensures n <= n * mult
  {
  }

  lemma DigitNotSpace(c: char)
    ensures IsDigit(c) ==> !IsSpace(c)
  {
  }

  lemma UpperUnits(c: char)
    requires c == 'E' || c == 'P' || c == 'T' || c == 'G' || c == 'M' || c == 'K'
    ensures Upper([c, 'B']) == [c, 'B'] && Upper("B") == "B"
    ensures !IsSpace(c) && !IsSpace('B') && !IsDigit(c) && !IsDigit('B')
  {
    assert "B"[1..] == "";
    assert [c, 'B'][1..] == "B";
  }

  lemma UnitMultiplier(i: nat)
    requires i < |UNITS|
    ensures UNITS[i].0 > 0 && Multiplier(Upper(UNITS[i].1)) == Some(UNITS[i].0)
    ensures |UNITS[i].1| == 2 && !IsSpace(UNITS[i].1[0]) && !IsSpace(UNITS[i].1[1]) && !IsDigit(UNITS[i].1[0])
  {
    hide IsSpace, Upper;
    UpperUnits(UNITS[i].1[0]);
    assert UNITS[i].1 == [UNITS[i].1[0], 'B'];
  }

  lemma {:induction false} PrintFromRoundTrip(v: nat, i: nat)
    requires v < U64_LIMIT && i <= |UNITS|
    ensures Parse(PrintFrom(v, i)) == Some(v)
    decreases |UNITS| - i
  {
    hide Parse, Digits, IsSpace, Multiplier, Upper;
    if i == |UNITS| {
      UpperUnits('K');
      PlainBytes();
      ParseNumber(v, "B", 1);
    } else if v >= UNITS[i].0 && v % UNITS[i].0 == 0 {
      UnitMultiplier(i);
      Divides(v, UNITS[i].0);
      ParseNumber(v / UNITS[i].0, UNITS[i].1, UNITS[i].0);
    } else {
      PrintFromRoundTrip(v, i + 1);
    }
  }

  lemma PlainBytes()
    ensures Multiplier("B") == Some(1)
  {
  }

  lemma Divides(v: nat, m: nat)
    requires m > 0 && v % m == 0
    ensures v / m * m == v
  {
  }

  /** Parsing undoes printing for every 64-bit size. */
  lemma RoundTrip(v: nat)
    requires v < U64_LIMIT
    ensures Parse(Print(v)) == Some(v)
  {
    hide Parse;
    PrintFromRoundTrip(v, 0);
  }

  // ---- loose spellings

  predicate Blank(s: string) {
    forall i :: 0 <= i < |s| ==> IsSpace(s[i])
  }

  lemma {:induction false} StartTrimmed(pre: string, core: string)
    requires Blank(pre) && (core == [] || !IsSpace(core[0]))
    ensures TrimStart(pre + core) == core
  {
    hide IsSpace;
    if pre == [] {
      assert pre + core == core;
    } else {
      assert (pre + core)[1..] == pre[1..] + core;
      StartTrimmed(pre[1..], core);
    }
  }

  lemma {:induction false} EndTrimmed(core: string, post: string)
    requires Blank(post) && (core == [] || !IsSpace(core[|core| - 1]))
    ensures TrimEnd(core + post) == core
    decreases |post|
  {
    hide IsSpace;
    if post == [] {
      assert core + post == core;
    } else {
      var all := core + post;
      assert all[..|all| - 1] == core + post[..|post| - 1];
      EndTrimmed(core, post[..|post| - 1]);
    }
  }

  /** Trimming takes the white space off both ends and nothing else. */
  lemma TrimAround(pre: string, core: string, post: string)
    requires Blank(pre) && Blank(post) && core != [] && !IsSpace(core[0]) && !IsSpace(core[|core| - 1])
    ensures Trim(pre + core + post) == core
  {
    hide IsSpace;
    assert pre + core + post == pre + (core + post);
    StartTrimmed(pre, core + post);
    EndTrimmed(core, post);
  }

  /** A unit in letters. */
  predicate Lettered(unit: string) {
    unit != "" && !IsSpace(unit[0]) && !IsSpace(unit[|unit| - 1]) && !IsDigit(unit[0])
  }

  lemma BlankNotDigit(gap: string, unit: string)
    requires Blank(gap) && Lettered(unit)
    ensures gap + unit != "" && !IsDigit((gap + unit)[0])
  {
    if gap != "" {
      DigitNotSpace(gap[0]);
    }
  }

  /** A number and a unit, with any white space before, between and after, parse to their product when
      it fits 64 bits, and do not parse when it does not or the unit is unknown. */
  lemma ParsesLoosely(pre: string, n: nat, gap: string, unit: string, post: string)
    requires Blank(pre) && Blank(gap) && Blank(post) && Lettered(unit)
    ensures Parse(pre + Digits(n) + gap + unit + post)
            == match Multiplier(Upper(unit))
               case None => None
               case Some(m) => if n < U64_LIMIT && n * m < U64_LIMIT then Some(n * m) else None
  {
    hide Digits, Multiplier, Upper, Trim, IsSpace, Value;
    var core := Digits(n) + (gap + unit);
    assert pre + Digits(n) + gap + unit + post == pre + core + post;
    DigitNotSpace(core[0]);
    TrimAround(pre, core, post);
    BlankNotDigit(gap, unit);
    DigitRunOf(Digits(n), gap + unit);
    assert gap + unit == gap + unit + "";
    TrimAround(gap, unit, "");
    ValueOfDigits(n);
  }

  /** The known units, and what they stand for. */
  lemma UnitValues(unit: string)
    ensures Multiplier(unit)
            == if unit in ["", "B"] then Some(1)
               else if unit in ["K", "KB"] then Some(1_024)
               else if unit in ["M", "MB"] then Some(1_048_576)
               else if unit in ["G", "GB"] then Some(1_073_741_824)
               else if unit in ["T", "TB"] then Some(1_099_511_627_776)
               else if unit in ["P", "PB"] then Some(1_125_899_906_842_624)
               else if unit in ["E", "EB"] then Some(1_152_921_504_606_846_976)
               else None
  {
  }
}
