/** `datetime.strptime(text, '%Y-%m-%d %H:%M:%S')` and the text `strftime` writes with
    the same format. Python turns the format into a regular expression: `%Y` is exactly
    four digits, `%m`, `%d`, `%H`, `%M` and `%S` are one or two digits within their
    range (`%d` also accepts a space followed by one non-zero digit, `%S` goes up to 61),
    the space in the format matches one or more whitespace characters, and the whole
    text must be consumed. `datetime` then rejects year 0, a day past the month's end
    and seconds 60 and 61. Here the format is a list of directives, read by `Match` and
    written by `Render`. */
module Strptime {
  import opened Base
  import opened Text
  import opened Clock

  /** A field read from the front of the text, and the text after it. */
  datatype Scan = Scan(value: nat, rest: string)

  /** A numeric directive: the run of digits at the front of `s`, which must be
      `minLen` to `maxLen` long and spell a value from `lo` to `hi`. Every directive is
      followed by a non-digit or by the end of the text, so the regular expression's
      alternatives succeed exactly on such a run. */
  function Number(s: string, minLen: nat, maxLen: nat, lo: int, hi: int): (r: Option<Scan>)
    ensures r.Some? ==> lo <= r.value.value <= hi
    ensures r.Some? ==> minLen <= |s| - |r.value.rest| <= maxLen && r.value.rest == s[|s| - |r.value.rest|..]
    ensures r.Some? ==> r.value.rest == [] || !IsDigit(r.value.rest[0])
  {
    var n := DigitRun(s);
    var v := DecimalValue(s[..n]);
    if minLen <= n <= maxLen && lo <= v <= hi then Some(Scan(v, s[n..])) else None
  }

  /** A literal character of the format. */
  function Literal(s: string, c: char): (r: Option<string>)
    ensures r.Some? <==> s != [] && s[0] == c
    ensures r.Some? ==> s == [c] + r.value
  {
    if s != [] && s[0] == c then Some(s[1..]) else None
  }

  /** The length of the run of whitespace at the start of `s`. */
  function SpaceRun(s: string): (n: nat)
    ensures n <= |s|
    ensures forall i :: 0 <= i < n ==> IsSpace(s[i])
    ensures n < |s| ==> !IsSpace(s[n])
  {
    if s != [] && IsSpace(s[0]) then 1 + SpaceRun(s[1..]) else 0
  }

  /** The format's space: one or more whitespace characters. */
  function Blanks(s: string): (r: Option<string>)
    ensures r.Some? ==> |r.value| < |s| && r.value == s[|s| - |r.value|..]
    ensures r.Some? ==> forall i :: 0 <= i < |s| - |r.value| ==> IsSpace(s[i])
  {
    var n := SpaceRun(s);
    if n >= 1 then Some(s[n..]) else None
  }

  /** One piece of a compiled format: a numeric directive, a literal character, or the
      format's space. `%d` is the numeric directive that also accepts a space and one
      non-zero digit (`blankDigit`). */
  datatype Directive =
    | Field(minLen: nat, maxLen: nat, lo: int, hi: int, blankDigit: bool)
    | Char(c: char)
    | Space

  /** `'%Y-%m-%d %H:%M:%S'` as the pieces of its regular expression. */
  const DateTimeFormat: seq<Directive> := [
    Field(4, 4, 0, 9999, false), Char('-'), Field(1, 2, 1, 12, false), Char('-'),
    Field(1, 2, 1, 31, true), Space, Field(1, 2, 0, 23, false), Char(':'),
    Field(1, 2, 0, 59, false), Char(':'), Field(1, 2, 0, 61, false)]

  /** What a numeric directive reads at the front of `s`. */
  function ReadField(s: string, d: Directive): (r: Option<Scan>)
    requires d.Field?
    ensures r.Some? ==> |r.value.rest| < |s|
  {
    if d.blankDigit && |s| >= 2 && s[0] == ' ' && '1' <= s[1] <= '9' then
      Some(Scan(DigitValue(s[1]) as nat, s[2..]))
    else if d.minLen == 0 then None
    else Number(s, d.minLen, d.maxLen, d.lo, d.hi)
  }

  /** How many values the directives from `k` on read. */
  function FieldCount(fmt: seq<Directive>, k: nat): (n: nat)
    requires k <= |fmt|
    ensures n <= |fmt| - k
    decreases |fmt| - k
  {
    if k == |fmt| then 0
    else (if fmt[k].Field? then 1 else 0) + FieldCount(fmt, k + 1)
  }

  /** Matches the directives from `k` on against the whole of `s`, left to right, and
      returns the values the numeric ones read; text left over is an error. */
  function Match(fmt: seq<Directive>, k: nat, s: string): (r: Option<seq<nat>>)
    requires k <= |fmt|
    decreases |fmt| - k
  {
    if k == |fmt| then (if s == [] then Some([]) else None)
    else
      match fmt[k]
      case Char(c) =>
        var rest :- Literal(s, c);
        Match(fmt, k + 1, rest)
      case Space =>
        var rest :- Blanks(s);
        Match(fmt, k + 1, rest)
      case Field(_, _, _, _, _) =>
        var f :- ReadField(s, fmt[k]);
        var vs :- Match(fmt, k + 1, f.rest);
        Some([f.value] + vs)
  }

  /** A successful match returns one value per numeric directive. */
  lemma {:induction false} MatchLength(fmt: seq<Directive>, k: nat, s: string)
    requires k <= |fmt|
    ensures Match(fmt, k, s).Some? ==> |Match(fmt, k, s).value| == FieldCount(fmt, k)
    decreases |fmt| - k
  {
    if k < |fmt| {
      match fmt[k]
      case Char(c) =>
        if s != [] && s[0] == c { MatchLength(fmt, k + 1, s[1..]); }
      case Space =>
        if SpaceRun(s) >= 1 { MatchLength(fmt, k + 1, s[SpaceRun(s)..]); }
      case Field(_, _, _, _, _) =>
        var f := ReadField(s, fmt[k]);
        if f.Some? { MatchLength(fmt, k + 1, f.value.rest); }
    }
  }

  /** The six values of a moment, in the order of the format. */
  function Fields(dt: DateTime): seq<nat>
    requires Valid(dt)
  {
    [dt.year, dt.month, dt.day, dt.hour, dt.minute, dt.second]
  }

  /** `datetime.strptime(s, '%Y-%m-%d %H:%M:%S')`; `None` stands for the ValueError. */
  function ParseDateTime(s: string): (r: Option<DateTime>)
    ensures r.Some? ==> Valid(r.value)
  {
    var v :- Match(DateTimeFormat, 0, s);
    MatchLength(DateTimeFormat, 0, s);
    assert FieldCount(DateTimeFormat, 0) == 6;
    var dt := DateTime(v[0], v[1], v[2], v[3], v[4], v[5]);
    if Valid(dt) then Some(dt) else None
  }

  function Pow10(n: nat): (p: nat)
    ensures p >= 1
  {
    if n == 0 then 1 else 10 * Pow10(n - 1)
  }

  /** `%0<w>d`: the last `w` decimal digits of `v`, with leading zeros. */
  function PadTo(v: nat, w: nat): (r: string)
    ensures |r| == w && AllDigits(r)
    ensures v < Pow10(w) ==> DecimalValue(r) == v
  {
    if w == 0 then []
    else
      var r := PadTo(v / 10, w - 1) + [DigitChar(v % 10)];
      assert r[..|r| - 1] == PadTo(v / 10, w - 1);
      r
  }

  /** The text `strftime` writes for the directives from `k` on, given the values of
      the numeric ones: each value padded with zeros to the directive's longest width,
      each literal as itself, the format's space as one space. */
  function Render(fmt: seq<Directive>, k: nat, vals: seq<nat>): string
    requires k <= |fmt| && |vals| == FieldCount(fmt, k)
    decreases |fmt| - k
  {
    if k == |fmt| then []
    else
      match fmt[k]
      case Char(c) => [c] + Render(fmt, k + 1, vals)
      case Space => " " + Render(fmt, k + 1, vals)
      case Field(_, maxLen, _, _, _) => PadTo(vals[0], maxLen) + Render(fmt, k + 1, vals[1..])
  }

  /** The directives from `k` on can write `vals` and read them back: each value lies in
      its directive's range and fits its width, no numeric directive is directly followed
      by another or by a digit, and the format's space is not followed by whitespace. */
  predicate Fits(fmt: seq<Directive>, k: nat, vals: seq<nat>)
    requires k <= |fmt| && |vals| == FieldCount(fmt, k)
    decreases |fmt| - k
  {
    if k == |fmt| then true
    else
      match fmt[k]
      case Char(c) => Fits(fmt, k + 1, vals)
      case Space =>
        && (k + 1 < |fmt| ==> !fmt[k + 1].Space? && !(fmt[k + 1].Char? && IsSpace(fmt[k + 1].c)))
        && Fits(fmt, k + 1, vals)
      case Field(minLen, maxLen, lo, hi, _) =>
        && 1 <= minLen <= maxLen && lo <= vals[0] <= hi && vals[0] < Pow10(maxLen)
        && (k + 1 < |fmt| ==> !fmt[k + 1].Field? && !(fmt[k + 1].Char? && IsDigit(fmt[k + 1].c)))
        && Fits(fmt, k + 1, vals[1..])
  }

  /** `strftime('%Y-%m-%d %H:%M:%S')`. */
  function FormatDateTime(dt: DateTime): string
    requires Valid(dt)
  {
    assert FieldCount(DateTimeFormat, 0) == 6;
    Render(DateTimeFormat, 0, Fields(dt))
  }

  /** `strftime('%Y-%m-%d')`. */
  function DateText(dt: DateTime): (r: string)
    requires Valid(dt)
    ensures Lacks(r, ' ')
  {
    PadTo(dt.year, 4) + "-" + PadTo(dt.month, 2) + "-" + PadTo(dt.day, 2)
  }

  /** `strftime('%H:%M:%S')`. */
  function ClockText(dt: DateTime): (r: string)
    requires Valid(dt)
    ensures Lacks(r, ' ') && Lacks(r, ',')
  {
    PadTo(dt.hour, 2) + ":" + PadTo(dt.minute, 2) + ":" + PadTo(dt.second, 2)
  }

  /** The digit run of a run of digits followed by a non-digit is the run itself. */
  lemma {:induction false} DigitRunOfDigits(digits: string, rest: string)
    requires AllDigits(digits)
    requires rest == [] || !IsDigit(rest[0])
    ensures DigitRun(digits + rest) == |digits|
  {
    if digits != [] {
      assert (digits + rest)[1..] == digits[1..] + rest;
      DigitRunOfDigits(digits[1..], rest);
    } else {
      assert digits + rest == rest;
    }
  }

  /** A padded field reads back as its value. */
  lemma NumberOfDigits(digits: string, rest: string, minLen: nat, maxLen: nat, lo: int, hi: int)
    requires AllDigits(digits) && minLen <= |digits| <= maxLen
    requires lo <= DecimalValue(digits) <= hi
    requires rest == [] || !IsDigit(rest[0])
    ensures Number(digits + rest, minLen, maxLen, lo, hi) == Some(Scan(DecimalValue(digits), rest))
  {
    DigitRunOfDigits(digits, rest);
    assert (digits + rest)[..|digits|] == digits;
    assert (digits + rest)[|digits|..] == rest;
  }

  /** What the directives from `k` on write starts with the literal, a space or a digit. */
  lemma RenderHead(fmt: seq<Directive>, k: nat, vals: seq<nat>)
    requires k < |fmt| && |vals| == FieldCount(fmt, k) && Fits(fmt, k, vals)
    ensures Render(fmt, k, vals) != []
    ensures fmt[k].Char? ==> Render(fmt, k, vals)[0] == fmt[k].c
    ensures fmt[k].Space? ==> Render(fmt, k, vals)[0] == ' '
    ensures fmt[k].Field? ==> IsDigit(Render(fmt, k, vals)[0])
  {
  }

  /** A literal reads back as itself. */
  lemma MatchRenderChar(fmt: seq<Directive>, k: nat, vals: seq<nat>)
    requires k < |fmt| && fmt[k].Char? && |vals| == FieldCount(fmt, k)
    requires Match(fmt, k + 1, Render(fmt, k + 1, vals)) == Some(vals)
    ensures Match(fmt, k, Render(fmt, k, vals)) == Some(vals)
  {
    var rest := Render(fmt, k + 1, vals);
    assert ([fmt[k].c] + rest)[1..] == rest;
  }

  /** The format's space reads back the one space `strftime` writes. */
  lemma MatchRenderSpace(fmt: seq<Directive>, k: nat, vals: seq<nat>)
    requires k < |fmt| && fmt[k].Space? && |vals| == FieldCount(fmt, k) && Fits(fmt, k, vals)
    requires Match(fmt, k + 1, Render(fmt, k + 1, vals)) == Some(vals)
    ensures Match(fmt, k, Render(fmt, k, vals)) == Some(vals)
  {
    var rest := Render(fmt, k + 1, vals);
    assert Render(fmt, k, vals) == " " + rest;
    if k + 1 < |fmt| {
      RenderHead(fmt, k + 1, vals);
      assert !IsSpace(rest[0]);
    }
    OneBlank(rest);
  }

  /** One space before text that does not start with whitespace is read as the
      format's space, leaving that text. */
  lemma OneBlank(rest: string)
    requires rest == [] || !IsSpace(rest[0])
    ensures Blanks(" " + rest) == Some(rest)
  {
    assert (" " + rest)[1..] == rest;
    assert SpaceRun(" " + rest) == 1;
  }

  /** A numeric directive reads back the padded value `strftime` writes. */
  lemma MatchRenderField(fmt: seq<Directive>, k: nat, vals: seq<nat>)
    requires k < |fmt| && fmt[k].Field? && |vals| == FieldCount(fmt, k) && Fits(fmt, k, vals)
    requires Match(fmt, k + 1, Render(fmt, k + 1, vals[1..])) == Some(vals[1..])
    ensures Match(fmt, k, Render(fmt, k, vals)) == Some(vals)
  {
    var d := fmt[k];
    var rest := Render(fmt, k + 1, vals[1..]);
    var digits := PadTo(vals[0], d.maxLen);
    if k + 1 < |fmt| {
      RenderHead(fmt, k + 1, vals[1..]);
    }
    NumberOfDigits(digits, rest, d.minLen, d.maxLen, d.lo, d.hi);
    assert (digits + rest)[0] == digits[0];
    assert [vals[0]] + vals[1..] == vals;
  }

  /** Reading back what `strftime` writes gives the values it wrote. */
  lemma {:induction false} MatchRender(fmt: seq<Directive>, k: nat, vals: seq<nat>)
    requires k <= |fmt| && |vals| == FieldCount(fmt, k) && Fits(fmt, k, vals)
    ensures Match(fmt, k, Render(fmt, k, vals)) == Some(vals)
    decreases |fmt| - k
  {
    if k < |fmt| {
      match fmt[k]
      case Char(_) =>
        MatchRender(fmt, k + 1, vals);
        MatchRenderChar(fmt, k, vals);
      case Space =>
        MatchRender(fmt, k + 1, vals);
        MatchRenderSpace(fmt, k, vals);
      case Field(_, _, _, _, _) =>
        MatchRender(fmt, k + 1, vals[1..]);
        MatchRenderField(fmt, k, vals);
    }
  }

  /** The values of a valid moment's clock fit the format's last six directives. */
  lemma ClockFits(dt: DateTime)
    requires Valid(dt)
    ensures FieldCount(DateTimeFormat, 5) == 3 && Fits(DateTimeFormat, 5, Fields(dt)[3..])
  {
    var F, v := DateTimeFormat, Fields(dt);
    assert FieldCount(F, 5) == 3;
    assert Fits(F, 10, v[5..]);
    assert Fits(F, 9, v[5..]);
    assert Fits(F, 8, v[4..]);
    assert Fits(F, 7, v[4..]);
    assert Fits(F, 6, v[3..]);
  }

  /** The values of a valid moment fit the format. */
  lemma FieldsFit(dt: DateTime)
    requires Valid(dt)
    ensures FieldCount(DateTimeFormat, 0) == 6 && Fits(DateTimeFormat, 0, Fields(dt))
  {
    var F, v := DateTimeFormat, Fields(dt);
    ClockFits(dt);
    assert FieldCount(F, 0) == 6;
    assert Fits(F, 4, v[2..]);
    assert Fits(F, 3, v[2..]);
    assert Fits(F, 2, v[1..]);
    assert Fits(F, 1, v[1..]);
    assert v[0..] == v;
  }

  /** The last five directives write the clock. */
  lemma RenderClock(dt: DateTime)
    requires Valid(dt)
    ensures FieldCount(DateTimeFormat, 6) == 3
    ensures Render(DateTimeFormat, 6, Fields(dt)[3..]) == ClockText(dt)
  {
    var F, v := DateTimeFormat, Fields(dt);
    assert FieldCount(F, 6) == 3;
    var s := PadTo(dt.second, 2);
    assert Render(F, 10, v[5..]) == s;
    assert Render(F, 9, v[5..]) == ":" + s;
    assert Render(F, 8, v[4..]) == PadTo(dt.minute, 2) + (":" + s);
  }

  /** From the day on, the directives write the day, one space and the clock. */
  lemma RenderFromDay(dt: DateTime)
    requires Valid(dt)
    ensures FieldCount(DateTimeFormat, 4) == 4
    ensures Render(DateTimeFormat, 4, Fields(dt)[2..]) == PadTo(dt.day, 2) + (" " + ClockText(dt))
  {
    var F, v := DateTimeFormat, Fields(dt);
    assert FieldCount(F, 4) == 4;
    RenderClock(dt);
    assert Render(F, 5, v[3..]) == " " + ClockText(dt);
  }

  /** From the month on, the directives write the month, the day, one space and the clock. */
  lemma RenderFromMonth(dt: DateTime)
    requires Valid(dt)
    ensures FieldCount(DateTimeFormat, 2) == 5
    ensures Render(DateTimeFormat, 2, Fields(dt)[1..])
         == PadTo(dt.month, 2) + ("-" + (PadTo(dt.day, 2) + (" " + ClockText(dt))))
  {
    var F, v := DateTimeFormat, Fields(dt);
    assert FieldCount(F, 2) == 5;
    RenderFromDay(dt);
    assert Render(F, 3, v[2..]) == "-" + (PadTo(dt.day, 2) + (" " + ClockText(dt)));
  }

  /** Regrouping seven concatenated pieces. */
  lemma Regroup(a: string, b: string, c: string, d: string, e: string, f: string, g: string)
    ensures a + (b + (c + (d + (e + (f + g))))) == a + b + c + d + e + f + g
  {
  }

  /** The timestamp text is the date, one space and the clock. */
  lemma FormatSplits(dt: DateTime)
    requires Valid(dt)
    ensures FormatDateTime(dt) == DateText(dt) + " " + ClockText(dt)
  {
    var F, v := DateTimeFormat, Fields(dt);
    assert FieldCount(F, 0) == 6;
    RenderFromMonth(dt);
    var y, m, d, c := PadTo(dt.year, 4), PadTo(dt.month, 2), PadTo(dt.day, 2), ClockText(dt);
    assert Render(F, 0, v) == y + ("-" + (m + ("-" + (d + (" " + c)))));
    Regroup(y, "-", m, "-", d, " ", c);
  }

  /** Reading back what `FormatDateTime` writes gives the same moment. */
  lemma ParseFormatted(dt: DateTime)
    requires Valid(dt)
    ensures ParseDateTime(FormatDateTime(dt)) == Some(dt)
  {
    FieldsFit(dt);
    MatchRender(DateTimeFormat, 0, Fields(dt));
  }
}
