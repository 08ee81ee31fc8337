/** Timestamps as the expense store writes and reads them.

    The store writes `new Date().toISOString()`, the ISO-8601 extended
    format `YYYY-MM-DDThh:mm:ss.sssZ` in UTC, and reads it back through
    SQLite's date functions: `strftime('%Y', date)`, `strftime('%m', date)`
    and `datetime(date)`. SQLite parses the text into a calendar time and
    prints the fields it is asked for; `ParseIso` is that parse for the one
    text shape the store ever writes, and NULL (`None`) for anything else. */
module IsoTime {
  import opened Results
  import opened Decimal
  import opened Collation

  datatype Timestamp = Timestamp(
    year: int, month: int, day: int,
    hour: int, minute: int, second: int, millisecond: int)

  predicate IsLeapYear(y: int) {
    y % 4 == 0 && (y % 100 != 0 || y % 400 == 0)
  }

  function DaysInMonth(y: int, m: int): int
    requires 1 <= m <= 12
  {
    if m == 2 then (if IsLeapYear(y) then 29 else 28)
    else if m == 4 || m == 6 || m == 9 || m == 11 then 30
    else 31
  }

  /** A calendar time whose ISO-8601 form has a four-digit year. */
  predicate Valid(t: Timestamp) {
    && 0 <= t.year <= 9999
    && 1 <= t.month <= 12
    && 1 <= t.day <= DaysInMonth(t.year, t.month)
    && 0 <= t.hour < 24
    && 0 <= t.minute < 60
    && 0 <= t.second < 60
    && 0 <= t.millisecond < 1000
  }

  /** One fixed-width number followed by a separator and the rest of the text. */
  function Field(n: nat, w: nat, sep: char, rest: string): string {
    Pad(n, w) + [sep] + rest
  }

  /** Reads `w` digits followed by `sep`; yields their value and the rest of the text. */
  function ParseField(s: string, w: nat, sep: char): Option<(nat, string)> {
    if |s| > w && AllDigits(s[..w]) && s[w] == sep then Some((Value(s[..w]), s[w + 1..])) else None
  }

  lemma ParseFieldOfField(n: nat, w: nat, sep: char, rest: string)
    requires n < Pow10(w)
    ensures ParseField(Field(n, w, sep, rest), w, sep) == Some((n, rest))
  {
    var s := Field(n, w, sep, rest);
    assert s[..w] == Pad(n, w) && s[w] == sep && s[w + 1..] == rest;
    ValueOfPad(n, w);
  }

  lemma FieldOfParseField(s: string, w: nat, sep: char)
    requires ParseField(s, w, sep).Some?
    ensures var (n, rest) := ParseField(s, w, sep).value;
      n < Pow10(w) && Field(n, w, sep, rest) == s
  {
    PadOfValue(s[..w]);
    assert s == s[..w] + [s[w]] + s[w + 1..];
  }

  /** `Date.prototype.toISOString()`. */
  function ToIsoString(t: Timestamp): (s: string)
    requires Valid(t)
    ensures |s| == 24
  {
    Field(t.year, 4, '-', Field(t.month, 2, '-', Field(t.day, 2, 'T',
      Field(t.hour, 2, ':', Field(t.minute, 2, ':', Field(t.second, 2, '.',
      Field(t.millisecond, 3, 'Z', [])))))))
  }

  /** SQLite's reading of a text in the shape `toISOString` writes. */
  function ParseIso(s: string): (r: Option<Timestamp>)
    ensures r.Some? ==> Valid(r.value)
  {
    var y :- ParseField(s, 4, '-');
    var mo :- ParseField(y.1, 2, '-');
    var d :- ParseField(mo.1, 2, 'T');
    var h :- ParseField(d.1, 2, ':');
    var mi :- ParseField(h.1, 2, ':');
    var sec :- ParseField(mi.1, 2, '.');
    var ms :- ParseField(sec.1, 3, 'Z');
    var t := Timestamp(y.0, mo.0, d.0, h.0, mi.0, sec.0, ms.0);
    if ms.1 == [] && Valid(t) then Some(t) else None
  }

  /** What `toISOString` writes, SQLite reads back as the same time. */
  lemma IsoRoundTrip(t: Timestamp)
    requires Valid(t)
    ensures ParseIso(ToIsoString(t)) == Some(t)
  {
    var s7 := Field(t.millisecond, 3, 'Z', []);
    var s6 := Field(t.second, 2, '.', s7);
    var s5 := Field(t.minute, 2, ':', s6);
    var s4 := Field(t.hour, 2, ':', s5);
    var s3 := Field(t.day, 2, 'T', s4);
    var s2 := Field(t.month, 2, '-', s3);
    var s1 := Field(t.year, 4, '-', s2);
    assert Pow10(2) == 100 && Pow10(3) == 1000 && Pow10(4) == 10000;
    ParseFieldOfField(t.year, 4, '-', s2);
    ParseFieldOfField(t.month, 2, '-', s3);
    ParseFieldOfField(t.day, 2, 'T', s4);
    ParseFieldOfField(t.hour, 2, ':', s5);
    ParseFieldOfField(t.minute, 2, ':', s6);
    ParseFieldOfField(t.second, 2, '.', s7);
    ParseFieldOfField(t.millisecond, 3, 'Z', []);
  }

  /** Every text SQLite reads as a time is exactly what `toISOString` writes for it. */
  lemma IsoInverse(s: string)
    requires ParseIso(s).Some?
    ensures ToIsoString(ParseIso(s).value) == s
  {
    var y := ParseField(s, 4, '-').value;
    var mo := ParseField(y.1, 2, '-').value;
    var d := ParseField(mo.1, 2, 'T').value;
    var h := ParseField(d.1, 2, ':').value;
    var mi := ParseField(h.1, 2, ':').value;
    var sec := ParseField(mi.1, 2, '.').value;
    var ms := ParseField(sec.1, 3, 'Z').value;
    FieldOfParseField(s, 4, '-');
    FieldOfParseField(y.1, 2, '-');
    FieldOfParseField(mo.1, 2, 'T');
    FieldOfParseField(d.1, 2, ':');
    FieldOfParseField(h.1, 2, ':');
    FieldOfParseField(mi.1, 2, '.');
    FieldOfParseField(sec.1, 3, 'Z');
  }

  /** Where the fields of a `toISOString` text stand: the year in its first
      four characters, the month in characters 5 and 6, and `datetime()`'s
      text is its first nineteen characters with the `T` turned into a space. */
  lemma IsoTextFields(t: Timestamp)
    requires Valid(t)
    ensures var s := ToIsoString(t);
      && s[..4] == Pad(t.year, 4)
      && s[5..7] == Pad(t.month, 2)
      && s[..10] + " " + s[11..19] == DateTimeText(t)
  {
    var s := ToIsoString(t);
    var ms := Field(t.millisecond, 3, 'Z', []);
    var sec := Field(t.second, 2, '.', ms);
    var mi := Field(t.minute, 2, ':', sec);
    var h := Field(t.hour, 2, ':', mi);
    var d := Field(t.day, 2, 'T', h);
    var mo := Field(t.month, 2, '-', d);
    assert s == Pad(t.year, 4) + ['-'] + mo;
    assert s[5..] == mo;
    assert mo[..2] == Pad(t.month, 2);
    assert s[..10] == Pad(t.year, 4) + ['-'] + Pad(t.month, 2) + ['-'] + Pad(t.day, 2);
    assert s[11..] == h;
    assert h[..8] == Pad(t.hour, 2) + [':'] + Pad(t.minute, 2) + [':'] + Pad(t.second, 2);
    assert s[11..19] == h[..8];
  }

  /** `strftime('%Y', date)`: the four-digit year, or NULL. On the store's
      text it is the year as written, its first four characters. */
  function StrftimeYear(date: string): (r: Option<string>)
    ensures r.Some? <==> ParseIso(date).Some?
    ensures r.Some? ==> |date| == 24 && r.value == date[..4]
  {
    match ParseIso(date)
    case None => None
    case Some(t) =>
      IsoInverse(date);
      IsoTextFields(t);
      Some(Pad(t.year, 4))
  }

  /** `strftime('%m', date)`: the two-digit month, or NULL. On the store's
      text it is the month as written, its characters 5 and 6. */
  function StrftimeMonth(date: string): (r: Option<string>)
    ensures r.Some? <==> ParseIso(date).Some?
    ensures r.Some? ==> |date| == 24 && r.value == date[5..7]
  {
    match ParseIso(date)
    case None => None
    case Some(t) =>
      IsoInverse(date);
      IsoTextFields(t);
      Some(Pad(t.month, 2))
  }

  /** The text `datetime()` prints: `YYYY-MM-DD hh:mm:ss`, without the milliseconds. */
  function DateTimeText(t: Timestamp): string
    requires Valid(t)
  {
    Field(t.year, 4, '-', Field(t.month, 2, '-', Field(t.day, 2, ' ',
      Field(t.hour, 2, ':', Field(t.minute, 2, ':', Pad(t.second, 2))))))
  }

  /** `datetime(date)`, or NULL. On the store's text it is the date and the
      time to the second as written, with a space for the `T`. */
  function DateTime(date: string): (r: Option<string>)
    ensures r.Some? <==> ParseIso(date).Some?
    ensures r.Some? ==> |date| == 24 && r.value == date[..10] + " " + date[11..19]
  {
    match ParseIso(date)
    case None => None
    case Some(t) =>
      IsoInverse(date);
      IsoTextFields(t);
      Some(DateTimeText(t))
  }

  /** `t1` is no later than `t2` on the one-second clock of `datetime()`. */
  predicate SameOrEarlierSecond(t1: Timestamp, t2: Timestamp) {
    if t1.year != t2.year then t1.year < t2.year
    else if t1.month != t2.month then t1.month < t2.month
    else if t1.day != t2.day then t1.day < t2.day
    else if t1.hour != t2.hour then t1.hour < t2.hour
    else if t1.minute != t2.minute then t1.minute < t2.minute
    else t1.second <= t2.second
  }

  /** Fixed-width digit strings sort as the numbers they denote. */
  lemma {:induction false} PadOrder(a: nat, b: nat, w: nat)
    requires a < Pow10(w) && b < Pow10(w)
    ensures LexLe(Pad(a, w), Pad(b, w)) <==> a <= b
  {
    if w > 0 {
      var pa, pb := Pad(a / 10, w - 1), Pad(b / 10, w - 1);
      assert a / 10 < Pow10(w - 1) && b / 10 < Pow10(w - 1);
      LexLeConcat(pa, [DigitChar(a % 10)], pb, [DigitChar(b % 10)]);
      PadInjective(a / 10, b / 10, w - 1);
      PadOrder(a / 10, b / 10, w - 1);
      DigitCharOrder(a % 10, b % 10);
    }
  }

  lemma FieldOrder(a: nat, b: nat, w: nat, sep: char, r1: string, r2: string)
    requires a < Pow10(w) && b < Pow10(w)
    ensures LexLe(Field(a, w, sep, r1), Field(b, w, sep, r2)) <==> a < b || (a == b && LexLe(r1, r2))
  {
    var xa, xb := Pad(a, w) + [sep], Pad(b, w) + [sep];
    LexLeConcat(xa, r1, xb, r2);
    LexLeConcat(Pad(a, w), [sep], Pad(b, w), [sep]);
    PadInjective(a, b, w);
    PadOrder(a, b, w);
    assert xa == xb ==> Pad(a, w) == Pad(b, w) by {
      if xa == xb {
        assert xa[..w] == Pad(a, w) && xb[..w] == Pad(b, w);
      }
    }
  }

  /** Sorting on the text `datetime()` prints is sorting by time, to the second. */
  lemma DateTimeTextOrder(t1: Timestamp, t2: Timestamp)
    requires Valid(t1) && Valid(t2)
    ensures LexLe(DateTimeText(t1), DateTimeText(t2)) <==> SameOrEarlierSecond(t1, t2)
  {
    assert Pow10(2) == 100 && Pow10(4) == 10000;
    var m1 := Field(t1.minute, 2, ':', Pad(t1.second, 2));
    var m2 := Field(t2.minute, 2, ':', Pad(t2.second, 2));
    var h1, h2 := Field(t1.hour, 2, ':', m1), Field(t2.hour, 2, ':', m2);
    var d1, d2 := Field(t1.day, 2, ' ', h1), Field(t2.day, 2, ' ', h2);
    var o1, o2 := Field(t1.month, 2, '-', d1), Field(t2.month, 2, '-', d2);
    PadOrder(t1.second, t2.second, 2);
    FieldOrder(t1.minute, t2.minute, 2, ':', Pad(t1.second, 2), Pad(t2.second, 2));
    FieldOrder(t1.hour, t2.hour, 2, ':', m1, m2);
    FieldOrder(t1.day, t2.day, 2, ' ', h1, h2);
    FieldOrder(t1.month, t2.month, 2, '-', d1, d2);
    FieldOrder(t1.year, t2.year, 4, '-', o1, o2);
  }
}
