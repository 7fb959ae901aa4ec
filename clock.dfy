/**
  Wall-clock readings and the two `strftime` patterns the app prints them
  with: "%Y%m%d_%H%M%S" in export filenames and "%Y-%m-%d %H:%M:%S" in rating
  records. The clock itself is not modelled: a reading is an input.
 */
module Clock {
  import opened Wrappers
  import opened Text

  /** Years that `%Y` prints as exactly four digits. */
  type Year = y: int | 1000 <= y <= 9999 witness 1000
  type Month = m: int | 1 <= m <= 12 witness 1
  type Day = d: int | 1 <= d <= 31 witness 1
  type Hour = h: int | 0 <= h < 24
  type Minute = m: int | 0 <= m < 60
  type Second = s: int | 0 <= s < 60

  /** A `datetime` reading at second precision. */
  datatype DateTime = DateTime(year: Year, month: Month, day: Day, hour: Hour, minute: Minute, second: Second)

  /** The literal text a pattern puts between date fields, between date and time, and between time fields. */
  datatype Layout = Layout(dateSep: string, middle: string, timeSep: string)

  /** "%Y%m%d_%H%M%S" */
  const Compact: Layout := Layout("", "_", "")

  /** "%Y-%m-%d %H:%M:%S" */
  const Display: Layout := Layout("-", " ", ":")

  /**
    Three zero-padded fields with `sep` between them: the date part
    ("%Y", "%m", "%d") or the time part ("%H", "%M", "%S") of a pattern.
   */
  function Triple(a: nat, b: nat, c: nat, width: nat, sep: string): string
    requires a < Pow10(width) && b < 100 && c < 100
  {
    Padded(a, width) + sep + Padded(b, 2) + sep + Padded(c, 2)
  }

  /** `t.strftime(pattern)` for a pattern of the shape Layout describes. */
  function Format(t: DateTime, layout: Layout): string {
    Triple(t.year, t.month, t.day, 4, layout.dateSep) + layout.middle +
    Triple(t.hour, t.minute, t.second, 2, layout.timeSep)
  }

  /** "%Y%m%d_%H%M%S", the timestamp of an export file name. */
  function CompactStamp(t: DateTime): string {
    Format(t, Compact)
  }

  /** "%Y-%m-%d %H:%M:%S", the timestamp of a rating record. */
  function DisplayStamp(t: DateTime): string {
    Format(t, Display)
  }

  /** Without separators, the three fields print as `width + 4` digits. */
  lemma TripleDigits(a: nat, b: nat, c: nat, width: nat)
    requires a < Pow10(width) && b < 100 && c < 100
    ensures |Triple(a, b, c, width, "")| == width + 4 && AllDigits(Triple(a, b, c, width, ""))
  {
    PaddedSpec(a, width);
    PaddedSpec(b, 2);
    PaddedSpec(c, 2);
    AllDigitsConcat(Padded(a, width), Padded(b, 2));
    AllDigitsConcat(Padded(a, width) + Padded(b, 2), Padded(c, 2));
    assert Triple(a, b, c, width, "") == Padded(a, width) + Padded(b, 2) + Padded(c, 2);
  }

  /** An export timestamp is 15 characters: eight digits of date, `_`, six digits of time. */
  lemma CompactStampLayout(t: DateTime)
    ensures var s := CompactStamp(t);
      |s| == 15 && s[8] == '_' && AllDigits(s[..8]) && AllDigits(s[9..])
  {
    var date := Triple(t.year, t.month, t.day, 4, "");
    var time := Triple(t.hour, t.minute, t.second, 2, "");
    TripleDigits(t.year, t.month, t.day, 4);
    TripleDigits(t.hour, t.minute, t.second, 2);
    var s := CompactStamp(t);
    assert s == date + "_" + time;
    assert s[..8] == date && s[9..] == time;
  }

  /** A record timestamp is 19 characters with `-`, `-`, ` `, `:`, `:` between the fields. */
  lemma DisplayStampLayout(t: DateTime)
    ensures var s := DisplayStamp(t);
      && |s| == 19
      && s[4] == '-' && s[7] == '-' && s[10] == ' ' && s[13] == ':' && s[16] == ':'
  {
    SeparatedTriple(t.year, t.month, t.day, 4, '-');
    SeparatedTriple(t.hour, t.minute, t.second, 2, ':');
    var date := Triple(t.year, t.month, t.day, 4, "-");
    var time := Triple(t.hour, t.minute, t.second, 2, ":");
    var s := DisplayStamp(t);
    assert s == date + " " + time;
    assert s[4] == date[4] && s[7] == date[7] && s[10] == ' ' && s[13] == time[2] && s[16] == time[5];
  }

  /** With a one-character separator, it sits after the first field and after the second. */
  lemma SeparatedTriple(a: nat, b: nat, c: nat, width: nat, sep: char)
    requires a < Pow10(width) && b < 100 && c < 100
    ensures var s := Triple(a, b, c, width, [sep]);
      |s| == width + 6 && s[width] == sep && s[width + 3] == sep
  {
    PaddedSpec(a, width);
    PaddedSpec(b, 2);
    PaddedSpec(c, 2);
  }

  /** A field read so far and the text after it. */
  datatype Parsed = Parsed(value: nat, rest: string)

  /** Reads a decimal field of exactly `width` digits. */
  function Field(s: string, width: nat): Option<Parsed> {
    if width <= |s| && AllDigits(s[..width]) then Some(Parsed(DecimalValue(s[..width]), s[width..])) else None
  }

  /** Consumes a literal part of the pattern. */
  function Literal(s: string, lit: string): Option<string> {
    if lit <= s then Some(s[|lit|..]) else None
  }

  /** Three fields read back, and the text after them. */
  datatype Fields = Fields(a: nat, b: nat, c: nat, rest: string)

  /** Reads back what Triple prints, at the front of `s`. */
  function ReadTriple(s: string, width: nat, sep: string): Option<Fields> {
    var f :- Field(s, width);
    var r1 :- Literal(f.rest, sep);
    var g :- Field(r1, 2);
    var r2 :- Literal(g.rest, sep);
    var h :- Field(r2, 2);
    Some(Fields(f.value, g.value, h.value, h.rest))
  }

  /**
    A strict reader of exactly what Format prints: every field must have its
    full zero-padded width and lie in the range of its DateTime field, and
    nothing may follow. It is not Python's `strptime`, which also accepts
    unpadded fields and checks the day against the month; the app never
    parses a timestamp, and this reader serves only to show that Format
    loses nothing.
   */
  function Parse(s: string, layout: Layout): Option<DateTime> {
    var date :- ReadTriple(s, 4, layout.dateSep);
    var r :- Literal(date.rest, layout.middle);
    var time :- ReadTriple(r, 2, layout.timeSep);
    if time.rest == [] && 1000 <= date.a <= 9999 && 1 <= date.b <= 12 && 1 <= date.c <= 31
       && time.a < 24 && time.b < 60 && time.c < 60
    then Some(DateTime(date.a, date.b, date.c, time.a, time.b, time.c))
    else None
  }

  lemma FieldOfPadded(n: nat, width: nat, rest: string)
    requires n < Pow10(width)
    ensures Field(Padded(n, width) + rest, width) == Some(Parsed(n, rest))
  {
    var s := Padded(n, width) + rest;
    PaddedSpec(n, width);
    assert s[..width] == Padded(n, width);
    assert s[width..] == rest;
  }

  lemma FieldInverse(s: string, width: nat)
    requires Field(s, width).Some?
    ensures Field(s, width).value.value < Pow10(width)
    ensures s == Padded(Field(s, width).value.value, width) + Field(s, width).value.rest
  {
    var digits := s[..width];
    assert Field(s, width) == Some(Parsed(DecimalValue(digits), s[width..]));
    PaddedDecimalValue(digits);
    assert s == digits + s[width..];
  }

  lemma LiteralOf(lit: string, rest: string)
    ensures Literal(lit + rest, lit) == Some(rest)
  {
    assert lit <= lit + rest;
    assert (lit + rest)[|lit|..] == rest;
  }

  lemma LiteralInverse(s: string, lit: string)
    requires Literal(s, lit).Some?
    ensures s == lit + Literal(s, lit).value
  {
    assert s == s[..|lit|] + s[|lit|..];
  }

  /** Three printed fields read back as themselves, leaving what follows them. */
  lemma ReadTripleOf(a: nat, b: nat, c: nat, width: nat, sep: string, rest: string)
    requires a < Pow10(width) && b < 100 && c < 100
    ensures ReadTriple(Triple(a, b, c, width, sep) + rest, width, sep) == Some(Fields(a, b, c, rest))
  {
    var tail1 := sep + (Padded(c, 2) + rest);
    var tail0 := sep + (Padded(b, 2) + tail1);
    assert Triple(a, b, c, width, sep) + rest == Padded(a, width) + tail0;
    FieldOfPadded(a, width, tail0);
    LiteralOf(sep, Padded(b, 2) + tail1);
    FieldOfPadded(b, 2, tail1);
    LiteralOf(sep, Padded(c, 2) + rest);
    FieldOfPadded(c, 2, rest);
  }

  /** Text that ReadTriple accepts starts with the three fields it read, printed. */
  lemma ReadTripleInverse(s: string, width: nat, sep: string)
    requires ReadTriple(s, width, sep).Some?
    ensures var r := ReadTriple(s, width, sep).value;
      && r.a < Pow10(width) && r.b < 100 && r.c < 100
      && s == Triple(r.a, r.b, r.c, width, sep) + r.rest
  {
    var f := Field(s, width).value;
    FieldInverse(s, width);
    LiteralInverse(f.rest, sep);
    var r1 := Literal(f.rest, sep).value;
    var g := Field(r1, 2).value;
    FieldInverse(r1, 2);
    LiteralInverse(g.rest, sep);
    var r2 := Literal(g.rest, sep).value;
    var h := Field(r2, 2).value;
    FieldInverse(r2, 2);
    var pa, pb, pc := Padded(f.value, width), Padded(g.value, 2), Padded(h.value, 2);
    assert s == pa + (sep + (pb + (sep + (pc + h.rest))));
    Reassociate(pa, sep, pb, sep, pc, h.rest);
  }

  lemma Reassociate(p: string, q: string, r: string, u: string, v: string, w: string)
    ensures p + (q + (r + (u + (v + w)))) == p + q + r + u + v + w
  {
  }

  /** Every printed timestamp reads back as the reading it was printed from. */
  lemma ParseFormat(t: DateTime, layout: Layout)
    ensures Parse(Format(t, layout), layout) == Some(t)
  {
    var time := Triple(t.hour, t.minute, t.second, 2, layout.timeSep);
    assert Format(t, layout) == Triple(t.year, t.month, t.day, 4, layout.dateSep) + (layout.middle + time);
    ReadTripleOf(t.year, t.month, t.day, 4, layout.dateSep, layout.middle + time);
    LiteralOf(layout.middle, time);
    ReadTripleOf(t.hour, t.minute, t.second, 2, layout.timeSep, []);
    assert time + [] == time;
  }

  /** Text that reads back as a reading is exactly that reading printed: the format has no other spellings. */
  lemma FormatParse(s: string, layout: Layout)
    requires Parse(s, layout).Some?
    ensures Format(Parse(s, layout).value, layout) == s
  {
    var date := ReadTriple(s, 4, layout.dateSep).value;
    ReadTripleInverse(s, 4, layout.dateSep);
    LiteralInverse(date.rest, layout.middle);
    var r := Literal(date.rest, layout.middle).value;
    ReadTripleInverse(r, 2, layout.timeSep);
    var time := ReadTriple(r, 2, layout.timeSep).value;
    var pd := Triple(date.a, date.b, date.c, 4, layout.dateSep);
    var pt := Triple(time.a, time.b, time.c, 2, layout.timeSep);
    assert r == pt + [] == pt;
    assert s == pd + (layout.middle + pt);
  }
}
