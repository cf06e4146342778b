/**
 * The date line and the reference code of `generate_receipt`, computed from
 * the clock reading that the bot takes with `datetime.now()`; here the
 * reading is a parameter.
 */
module Timestamp {
  import opened Wrappers
  import opened Decimal
  import opened Strings

  /** The components of one clock reading. */
  datatype Clock = Clock(year: nat, month: nat, day: nat, hour: nat, minute: nat, second: nat, micro: nat)

  /** The ranges a Python `datetime` guarantees for its components. */
  predicate ValidClock(t: Clock) {
    && 1 <= t.year <= 9999 && 1 <= t.month <= 12 && 1 <= t.day <= 31
    && t.hour < 24 && t.minute < 60 && t.second < 60 && t.micro < 1000000
  }

  /** The month table `meses`, January first. */
  const Meses: seq<string> := ["enero", "febrero", "marzo", "abril", "mayo", "junio", "julio",
                               "agosto", "septiembre", "octubre", "noviembre", "diciembre"]

  function MonthName(m: nat): (name: string)
    requires 1 <= m <= 12
  {
    Meses[m - 1]
  }

  /** Looks a month name up in the table: the inverse of `MonthName`. */
  function MonthNumber(name: string): (m: Option<nat>)
    ensures m.Some? ==> 1 <= m.value <= 12
  {
    if name == "enero" then Some(1) else if name == "febrero" then Some(2)
    else if name == "marzo" then Some(3) else if name == "abril" then Some(4)
    else if name == "mayo" then Some(5) else if name == "junio" then Some(6)
    else if name == "julio" then Some(7) else if name == "agosto" then Some(8)
    else if name == "septiembre" then Some(9) else if name == "octubre" then Some(10)
    else if name == "noviembre" then Some(11) else if name == "diciembre" then Some(12)
    else None
  }

  /** Every month name is found again, and holds no space. */
  lemma MonthNameRoundTrip(m: nat)
    requires 1 <= m <= 12
    ensures MonthNumber(MonthName(m)) == Some(m)
    ensures MonthName(m) != [] && ' ' !in MonthName(m)
  {
  }

  /**
   * The hour of `%I`: midnight is 12, hours 1 to 12 are themselves, and
   * hours 13 to 23 lose twelve.
   */
  function Hour12(h: nat): (r: nat)
    requires h < 24
    ensures 1 <= r <= 12
    ensures r == if h == 0 then 12 else if h <= 12 then h else h - 12
  {
    if h % 12 == 0 then 12 else h % 12
  }

  /** `%p` for the C locale, lower-cased. */
  function Meridiem(h: nat): string {
    if h < 12 then "am" else "pm"
  }

  /** Recovers the hour of the day from the 12-hour clock and the marker. */
  function Hour24(h12: nat, pm: bool): nat {
    if pm then (if h12 == 12 then 12 else h12 + 12) else (if h12 == 12 then 0 else h12)
  }

  /** `strftime('%I:%M %p').lower()`. */
  function ClockText(h: nat, mi: nat): (r: string)
    requires h < 24 && mi < 60
    ensures |r| == 8 && r[2] == ':' && r[5] == ' '
  {
    PadDigits(Hour12(h), 2) + ":" + PadDigits(mi, 2) + " " + Meridiem(h)
  }

  /** Reads "hh:mm" and "am"/"pm" back into the hour of the day and the minute. */
  function ReadClock(hhmm: string, marker: string): Option<(nat, nat)> {
    if |hhmm| == 5 && hhmm[2] == ':' && AllDigits(hhmm[..2]) && AllDigits(hhmm[3..])
       && (marker == "am" || marker == "pm")
    then Some((Hour24(Value(hhmm[..2]), marker == "pm"), Value(hhmm[3..])))
    else None
  }

  /**
   * The clock text shows the hour as two digits from 01 to 12, then ':',
   * the minute as two digits, and "am" exactly before noon; reading it
   * back gives the hour of the day and the minute.
   */
  lemma ClockTextRoundTrip(h: nat, mi: nat)
    requires h < 24 && mi < 60
    ensures var r := ClockText(h, mi);
            && AllDigits(r[..2]) && Value(r[..2]) == Hour12(h) && 1 <= Value(r[..2]) <= 12
            && AllDigits(r[3..5]) && Value(r[3..5]) == mi
            && (r[6..] == "am" <==> h < 12)
            && ReadClock(r[..5], r[6..]) == Some((h, mi))
  {
    var hh, mm := PadDigits(Hour12(h), 2), PadDigits(mi, 2);
    PadDigits2(Hour12(h));
    PadDigits2(mi);
    ClockParts(hh, mm, Meridiem(h));
  }

  /** The pieces of an "hh:mm xx" text sit at fixed offsets. */
  lemma ClockParts(hh: string, mm: string, p: string)
    requires |hh| == 2 && |mm| == 2
    ensures var r := hh + ":" + mm + " " + p;
            r[..2] == hh && r[..5][..2] == hh && r[..5][3..] == mm && r[3..5] == mm && r[6..] == p
  {
  }

  /** `f"{now.day} de {meses[now.month]} de {now.year} a las {...}"`. */
  function FormatDate(t: Clock): string
    requires ValidClock(t)
  {
    Digits(t.day) + " de " + MonthName(t.month) + " de " + Digits(t.year)
    + " a las " + ClockText(t.hour, t.minute)
  }

  /** What a reader can recover from the date line. */
  datatype DateFields = DateFields(day: nat, month: nat, year: nat, hour: nat, minute: nat)

  /** Reads a date line back: nine words separated by single spaces. */
  function ReadDate(s: string): Option<DateFields> {
    var w := Split(s, ' ');
    if |w| == 9 && w[1] == "de" && w[3] == "de" && w[5] == "a" && w[6] == "las"
       && AllDigits(w[0]) && AllDigits(w[4]) && MonthNumber(w[2]).Some?
       && ReadClock(w[7], w[8]).Some?
    then
      var c := ReadClock(w[7], w[8]).value;
      Some(DateFields(Value(w[0]), MonthNumber(w[2]).value, Value(w[4]), c.0, c.1))
    else None
  }

  /** The words of a date line, in order. */
  function DateWords(t: Clock): (w: seq<string>)
    requires ValidClock(t)
    ensures |w| == 9
  {
    var c := ClockText(t.hour, t.minute);
    [Digits(t.day), "de", MonthName(t.month), "de", Digits(t.year), "a", "las", c[..5], c[6..]]
  }

  lemma JoinStep(w: seq<string>, k: nat, sep: char)
    requires k + 1 < |w|
    ensures Join(w[k..], sep) == w[k] + [sep] + Join(w[k + 1..], sep)
  {
    assert w[k..][1..] == w[k + 1..];
  }

  /** Joining four words from position `k` on. */
  lemma JoinFour(w: seq<string>, k: nat, sep: char)
    requires k + 4 < |w|
    ensures Join(w[k..], sep)
            == w[k] + [sep] + w[k + 1] + [sep] + w[k + 2] + [sep] + w[k + 3] + [sep] + Join(w[k + 4..], sep)
  {
    JoinStep(w, k, sep);
    JoinStep(w, k + 1, sep);
    JoinStep(w, k + 2, sep);
    JoinStep(w, k + 3, sep);
  }

  lemma RegroupDe(x: string, y: string)
    ensures x + [' '] + "de" + [' '] + y == x + " de " + y
  {
  }

  lemma RegroupALas(x: string, y: string, z: string)
    ensures x + [' '] + "a" + [' '] + "las" + [' '] + y + [' '] + z == x + " a las " + (y + " " + z)
  {
  }

  /** The shape of a date line, as words joined by single spaces. */
  lemma JoinDateShape(w: seq<string>, c: string)
    requires |w| == 9 && w[1] == "de" && w[3] == "de" && w[5] == "a" && w[6] == "las"
    requires c == w[7] + " " + w[8]
    ensures Join(w, ' ') == w[0] + " de " + w[2] + " de " + w[4] + " a las " + c
  {
    assert Join(w[8..], ' ') == w[8];
    JoinFour(w, 4, ' ');
    RegroupALas(w[4], w[7], w[8]);
    var tail := w[4] + " a las " + c;
    assert Join(w[4..], ' ') == tail;
    JoinFour(w, 0, ' ');
    assert w[0..] == w;
    RegroupDe(w[0], w[2]);
    var head := w[0] + " de " + w[2];
    RegroupDe(head, tail);
    assert Join(w, ' ') == head + " de " + tail;
  }

  lemma DateWordsJoin(t: Clock)
    requires ValidClock(t)
    ensures Join(DateWords(t), ' ') == FormatDate(t)
  {
    var c := ClockText(t.hour, t.minute);
    assert c == c[..5] + " " + c[6..];
    JoinDateShape(DateWords(t), c);
  }

  /**
   * The date line loses nothing: reading it back gives the day, the month,
   * the year, the hour of the day and the minute.
   */
  lemma DateRoundTrip(t: Clock)
    requires ValidClock(t)
    ensures ReadDate(FormatDate(t)) == Some(DateFields(t.day, t.month, t.year, t.hour, t.minute))
  {
    var w := DateWords(t);
    DateWordsJoin(t);
    DateWordsFree(t);
    SplitJoin(w, ' ');
    assert Split(FormatDate(t), ' ') == w;
    MonthNameRoundTrip(t.month);
    ClockTextRoundTrip(t.hour, t.minute);
  }

  /** No word of a date line holds a space. */
  lemma DateWordsFree(t: Clock)
    requires ValidClock(t)
    ensures forall i :: 0 <= i < 9 ==> ' ' !in DateWords(t)[i]
  {
    var w := DateWords(t);
    MonthNameRoundTrip(t.month);
    ClockTextRoundTrip(t.hour, t.minute);
    var c := ClockText(t.hour, t.minute);
    DigitsNoSpace(w[0]);
    DigitsNoSpace(w[4]);
    ClockNoSpace(c);
  }

  lemma DigitsNoSpace(s: string)
    requires AllDigits(s)
    ensures ' ' !in s
  {
    forall i | 0 <= i < |s|
      ensures s[i] != ' '
    {
      assert IsDigit(s[i]);
    }
  }

  /** Neither half of a clock text holds a space. */
  lemma ClockNoSpace(c: string)
    requires |c| == 8 && c[5] == ' ' && c[2] == ':' && AllDigits(c[..2])
    requires c[6..] == "am" || c[6..] == "pm"
    requires AllDigits(c[3..5])
    ensures ' ' !in c[..5] && ' ' !in c[6..]
  {
    assert c[..5] == c[..2] + [':'] + c[3..5];
    DigitsNoSpace(c[..2]);
    DigitsNoSpace(c[3..5]);
  }

  /** The first two digits of the six-digit microsecond field. */
  lemma MicroPrefix(u: nat)
    ensures PadDigits(u, 6)[..2] == PadDigits(u / 10000, 2)
  {
    var a := u / 10;
    var b := a / 10;
    var c := b / 10;
    var d := c / 10;
    DivModUnique(u, 10000, d, 1000 * (c % 10) + 100 * (b % 10) + 10 * (a % 10) + u % 10);
    PadDigitsDrop(u, 6);
    PadDigitsDrop(a, 5);
    PadDigitsDrop(b, 4);
    PadDigitsDrop(c, 3);
    assert PadDigits(u, 6)[..2] == PadDigits(u, 6)[..5][..4][..3][..2];
  }

  /**
   * `"M" + now.strftime('%H%M%S%f')[:8]`: 'M', then the hour, minute and
   * second as two digits each, then the hundredths of a second.
   */
  function Reference(t: Clock): (r: string)
    requires ValidClock(t)
    ensures |r| == 9 && r[0] == 'M' && AllDigits(r[1..])
    ensures r[1..] == PadDigits(t.hour, 2) + PadDigits(t.minute, 2) + PadDigits(t.second, 2)
                      + PadDigits(t.micro / 10000, 2)
  {
    var hms := PadDigits(t.hour, 2) + PadDigits(t.minute, 2) + PadDigits(t.second, 2);
    MicroPrefix(t.micro);
    var r := "M" + (hms + PadDigits(t.micro, 6))[..8];
    assert (hms + PadDigits(t.micro, 6))[..8] == hms + PadDigits(t.micro, 6)[..2];
    r
  }

  /** Reads a reference back into hour, minute, second and hundredths. */
  function ReadReference(r: string): Option<(nat, nat, nat, nat)> {
    if |r| == 9 && r[0] == 'M' && AllDigits(r[1..])
    then Some((Value(r[1..3]), Value(r[3..5]), Value(r[5..7]), Value(r[7..9])))
    else None
  }

  lemma ReferenceSlices(a: string, b: string, c: string, d: string)
    requires |a| == |b| == |c| == |d| == 2
    ensures var r := "M" + a + b + c + d;
            |r| == 9 && r[0] == 'M' && r[1..] == a + b + c + d
            && r[1..3] == a && r[3..5] == b && r[5..7] == c && r[7..9] == d
  {
    var x := a + b + c + d;
    var r := "M" + a + b + c + d;
    assert r == "M" + x;
    assert r[1..3] == x[0..2] == a;
    assert r[3..5] == x[2..4] == b;
    assert r[5..7] == x[4..6] == c;
    assert r[7..9] == x[6..8] == d;
  }

  lemma ReadReferenceParts(a: string, b: string, c: string, d: string)
    requires |a| == |b| == |c| == |d| == 2
    requires AllDigits(a) && AllDigits(b) && AllDigits(c) && AllDigits(d)
    ensures ReadReference("M" + a + b + c + d) == Some((Value(a), Value(b), Value(c), Value(d)))
  {
    ReferenceSlices(a, b, c, d);
    assert AllDigits(a + b + c + d);
  }

  /** Reading a reference back gives the hour, minute, second and hundredths. */
  lemma ReferenceRoundTrip(t: Clock)
    requires ValidClock(t)
    ensures ReadReference(Reference(t)) == Some((t.hour, t.minute, t.second, t.micro / 10000))
  {
    var a, b := PadDigits(t.hour, 2), PadDigits(t.minute, 2);
    var c, d := PadDigits(t.second, 2), PadDigits(t.micro / 10000, 2);
    var r := Reference(t);
    assert r == [r[0]] + r[1..];
    assert r == "M" + a + b + c + d;
    PadDigits2(t.hour);
    PadDigits2(t.minute);
    PadDigits2(t.second);
    PadDigits2(t.micro / 10000);
    ReadReferenceParts(a, b, c, d);
  }

  /**
   * Two readings get the same reference exactly when they agree on the
   * hour, minute, second and hundredths of a second, whatever their dates:
   * the reference is unique only to the hundredth of a second within a day.
   */
  lemma ReferenceCollision(t1: Clock, t2: Clock)
    requires ValidClock(t1) && ValidClock(t2)
    ensures Reference(t1) == Reference(t2)
            <==> && t1.hour == t2.hour && t1.minute == t2.minute && t1.second == t2.second
                 && t1.micro / 10000 == t2.micro / 10000
  {
    ReferenceRoundTrip(t1);
    ReferenceRoundTrip(t2);
  }
}
