/**
 * The pure helpers of the merge script: the basename used as join key,
 * the hour normaliser, the date-hour combination and the two calendar
 * labels.
 */
module MergeDatasets {
  import opened Wrappers
  import opened Chars
  import opened HourPattern
  import opened Calendar

  // ---------------------------------------------------------------------
  // basename(p) = os.path.basename(str(p)).strip()
  // ---------------------------------------------------------------------

  /** Path separators of Windows paths (`ntpath`), the repository's platform. */
  predicate IsSep(c: char) { c == '/' || c == '\\' }

  predicate NoSeps(s: string) { forall i :: 0 <= i < |s| ==> !IsSep(s[i]) }

  /** `ntpath.splitdrive` for a drive of the form `X:`. */
  function DropDrive(p: string): string {
    if |p| >= 2 && p[1] == ':' then p[2..] else p
  }

  /** The text after the last separator. */
  function LastComponent(p: string): (r: string)
    ensures NoSeps(r) && |r| <= |p| && r == p[|p| - |r|..]
    ensures |r| == |p| || IsSep(p[|p| - |r| - 1])
  {
    if p == [] then []
    else if IsSep(p[|p| - 1]) then []
    else
      var r := LastComponent(p[..|p| - 1]) + [p[|p| - 1]];
      assert p[..|p| - 1][|p| - 1 - (|r| - 1)..] + [p[|p| - 1]] == p[|p| - |r|..];
      r
  }

  lemma StripKeepsNoSeps(s: string)
    requires NoSeps(s)
    ensures NoSeps(Strip(s))
  {
    var l := DropLeadingSpaces(s);
    assert forall i :: 0 <= i < |l| ==> l[i] == s[|s| - |l| + i];
    var t := DropTrailingSpaces(l);
    assert forall i :: 0 <= i < |t| ==> t[i] == l[i];
  }

  function Basename(p: string): (r: string)
    ensures NoSeps(r)
  {
    StripKeepsNoSeps(LastComponent(DropDrive(p)));
    Strip(LastComponent(DropDrive(p)))
  }

  lemma {:induction false} LastComponentAfterSep(u: string, name: string)
    requires NoSeps(name)
    ensures LastComponent(u + "\\" + name) == name
    decreases |name|
  {
    var p := u + "\\" + name;
    if name == [] {
      assert p == u + "\\";
    } else {
      var init := name[..|name| - 1];
      assert p[..|p| - 1] == u + "\\" + init;
      assert p[|p| - 1] == name[|name| - 1];
      LastComponentAfterSep(u, init);
      assert init + [name[|name| - 1]] == name;
    }
  }

  /** The basename of `dir\name` is the stripped file name. */
  lemma BasenameOfJoin(dir: string, name: string)
    requires dir != [] && NoSeps(name)
    ensures Basename(dir + "\\" + name) == Strip(name)
  {
    var p := dir + "\\" + name;
    if |p| >= 2 && p[1] == ':' {
      assert |dir| >= 2;
      assert p[2..] == dir[2..] + "\\" + name;
      LastComponentAfterSep(dir[2..], name);
    } else {
      LastComponentAfterSep(dir, name);
    }
  }

  /** A bare file name without a drive is its own last component. */
  lemma BasenameOfName(name: string)
    requires NoSeps(name) && !(|name| >= 2 && name[1] == ':')
    ensures Basename(name) == Strip(name)
  {
    assert LastComponent(name) == name;
  }

  // ---------------------------------------------------------------------
  // limpiar_hhmm(texto)
  // ---------------------------------------------------------------------

  /**
   * `re.sub(r"\s+", " ", texto.replace("\n", " ").replace("\r", " ")).strip()`,
   * which does not change what the hour pattern finds.
   */
  function Prepare(t: string): (r: string)
    ensures Search(r) == Search(t)
  {
    var a := ReplaceChar(t, '\n', ' ');
    var b := ReplaceChar(a, '\r', ' ');
    SearchReplaceSpace(t, '\n', ' ');
    SearchReplaceSpace(a, '\r', ' ');
    SearchCollapse(b);
    SearchStrip(CollapseSpaces(b));
    Strip(CollapseSpaces(b))
  }

  /**
   * `limpiar_hhmm`: None for a null input; the zero-padded leftmost match
   * of the pattern; otherwise the `%H:%M` of what `parse` (standing for
   * `pd.to_datetime(s, errors="coerce")`) makes of the prepared text.
   */
  function LimpiarHhmm(texto: Option<string>, parse: string -> Option<TimeOfDay>): (r: Option<string>)
    ensures texto.None? ==> r.None?
    ensures r.Some? ==> IsCanonical(r.value)
    ensures texto.Some? && Search(texto.value).Some? ==> r == Search(texto.value)
    ensures texto.Some? && Search(texto.value).None? ==>
      r == match parse(Prepare(texto.value)) case Some(c) => Some(FormatClock(c)) case None => None
  {
    match texto
    case None => None
    case Some(t) =>
      var s := Prepare(t);
      match Search(s)
      case Some(hhmm) => Some(hhmm)
      case None =>
        match parse(s)
        case Some(c) => Some(FormatClock(c))
        case None => None
  }

  /** A canonical `HH:MM` is returned unchanged. */
  lemma LimpiarHhmmFixesCanonical(r: string, parse: string -> Option<TimeOfDay>)
    requires IsCanonical(r)
    ensures LimpiarHhmm(Some(r), parse) == Some(r)
  {
    SearchOfCanonical(r);
  }

  /** Normalising twice is normalising once, whatever the fallback parser does. */
  lemma LimpiarHhmmIdempotent(texto: Option<string>, parse: string -> Option<TimeOfDay>)
    ensures LimpiarHhmm(LimpiarHhmm(texto, parse), parse) == LimpiarHhmm(texto, parse)
  {
    var r := LimpiarHhmm(texto, parse);
    if r.Some? {
      LimpiarHhmmFixesCanonical(r.value, parse);
    }
  }

  /** Text without a colon holds no match. */
  lemma SearchWithoutColon(s: string)
    requires forall i :: 0 <= i < |s| ==> s[i] != ':'
    ensures Search(s).None?
  {
    forall q | 0 <= q <= |s| ensures MatchAt(s, q).None? {
      var t := s[q..];
      assert forall i :: 0 <= i < |t| ==> t[i] == s[q + i];
    }
    SearchFromNone(s, 0);
  }

  /** A date has no colon, so no hour. */
  lemma SearchExampleDate()
    ensures Search("2025-10-05").None?
  {
    SearchWithoutColon("2025-10-05");
  }

  /** A timestamp "2025-10-05 08:30:00" gives the hour of its time part. */
  lemma SearchExampleTimestamp()
    ensures Search("2025-10-05" + " " + "08:30:00") == Some("08:30")
  {
    SearchExampleDate();
    SearchExampleTime();
    SearchSplit("2025-10-05", ' ', "08:30:00");
  }

  /** The time part of a timestamp, seconds included, gives its hour and minute. */
  lemma SearchExampleTime()
    ensures Search("08:30:00") == Some("08:30")
  {
    var v := "08:30:00";
    assert v[0..] == v && LowTwoDigits(v) && v[3..5] == "30";
    assert DigitVal(v[0]) * 10 + DigitVal(v[1]) == 8;
    assert Format(8, "30") == "08:30" by { assert Pad2(8) == "08"; }
    assert MatchAt(v, 0) == Some("08:30");
    SearchLeftmost(v, "08:30");
  }

  lemma SearchExampleOneDigit()
    ensures Search("8:05") == Some("08:05")
  {
    var e := "8:05";
    assert e[0..] == e;
    assert OneDigit(e) && e[2..4] == "05";
    assert !LowTwoDigits(e);
    assert DigitVal(e[0]) == 8;
    assert Format(8, "05") == "08:05" by { assert Pad2(8) == "08"; }
    assert MatchAt(e, 0) == Some("08:05");
    SearchLeftmost(e, "08:05");
  }

  /** "24:00" is outside the pattern: no hour 24, and "4:00" is not at a word boundary. */
  lemma SearchExampleHour24()
    ensures Search("24:00").None?
  {
    var s := "24:00";
    forall q | 0 <= q <= |s| ensures MatchAt(s, q).None? {
      var t := s[q..];
      assert forall i :: 0 <= i < |t| ==> t[i] == s[q + i];
    }
    SearchFromNone(s, 0);
  }

  lemma LimpiarHhmmExamples(parse: string -> Option<TimeOfDay>)
    ensures LimpiarHhmm(Some("2025-10-05" + " " + "08:30:00"), parse) == Some("08:30")
    ensures LimpiarHhmm(Some("8:05"), parse) == Some("08:05")
    ensures LimpiarHhmm(Some("24:00"), parse).Some? ==> parse(Prepare("24:00")).Some?
  {
    SearchExampleTimestamp();
    SearchExampleOneDigit();
    SearchExampleHour24();
  }

  // ---------------------------------------------------------------------
  // combinar_fecha_hora(fecha_str, hhmm_str)
  // ---------------------------------------------------------------------

  /** The minute of the day that a canonical `HH:MM` names. */
  function MinuteOfDay(hhmm: string): (m: int)
    requires IsCanonical(hhmm)
    ensures 0 <= m < 1440
    ensures m / 60 == ClockOf(hhmm).hour && m % 60 == ClockOf(hhmm).minute
  {
    var c := ClockOf(hhmm);
    assert (c.hour * 60 + c.minute) / 60 == c.hour && (c.hour * 60 + c.minute) % 60 == c.minute;
    c.hour * 60 + c.minute
  }

  /**
   * `combinar_fecha_hora`: NaT (None) when the hour does not normalise or
   * `f"{fecha} {hhmm}"` does not parse as `%Y-%m-%d %H:%M`. The normalised
   * hour always parses, so the outcome rests on the date fields and on the
   * combined minute lying inside the Timestamp range.
   */
  function CombinarFechaHora(fecha: string, hhmm: Option<string>, parse: string -> Option<TimeOfDay>): (r: Option<Instant>)
    ensures r.None? <==>
      LimpiarHhmm(hhmm, parse).None? || ParseCalendarDate(fecha).None? ||
      !InTimestampInstant(Instant(ParseCalendarDate(fecha).value, MinuteOfDay(LimpiarHhmm(hhmm, parse).value)))
    ensures r.Some? ==> ParseCalendarDate(fecha) == Some(r.value.date) && 0 <= r.value.minute < 1440
    ensures r.Some? ==> InTimestampInstant(r.value) && r.value.minute == MinuteOfDay(LimpiarHhmm(hhmm, parse).value)
    ensures r.Some? ==> FormatClock(Clock(r.value.minute / 60, r.value.minute % 60)) == LimpiarHhmm(hhmm, parse).value
  {
    var h := LimpiarHhmm(hhmm, parse);
    if h.None? || h.value == "" then None
    else
      match ParseCalendarDate(fecha)
      case None => None
      case Some(d) =>
        var m := MinuteOfDay(h.value);
        FormatClockOf(h.value);
        assert Clock(m / 60, m % 60) == ClockOf(h.value);
        if InTimestampInstant(Instant(d, m)) then Some(Instant(d, m)) else None
  }

  /** A normalised hour on a calendar date gives its minute, if the Timestamp range holds it. */
  lemma CombinarOfParsed(fecha: string, hhmm: Option<string>, parse: string -> Option<TimeOfDay>)
    requires LimpiarHhmm(hhmm, parse).Some? && ParseCalendarDate(fecha).Some?
    ensures var t := Instant(ParseCalendarDate(fecha).value, MinuteOfDay(LimpiarHhmm(hhmm, parse).value));
      CombinarFechaHora(fecha, hhmm, parse) == if InTimestampInstant(t) then Some(t) else None
  {
  }

  /** The canonical hour `c`, normalised, is itself and falls on minute `60 * hour + minute`. */
  lemma CanonicalMinute(c: TimeOfDay, parse: string -> Option<TimeOfDay>)
    ensures LimpiarHhmm(Some(FormatClock(c)), parse) == Some(FormatClock(c))
    ensures MinuteOfDay(FormatClock(c)) == c.hour * 60 + c.minute
  {
    LimpiarHhmmFixesCanonical(FormatClock(c), parse);
    ClockOfFormat(c);
  }

  /** On the first day of the Timestamp range, whose midnight is out of range, the minute decides. */
  lemma CombinarAtEarliestDay(parse: string -> Option<TimeOfDay>)
    ensures CombinarFechaHora("1677-09-21", Some(FormatClock(Clock(0, 20))), parse) == Some(Instant(Date(1677, 9, 21), 20))
    ensures CombinarFechaHora("1677-09-21", Some(FormatClock(Clock(0, 10))), parse).None?
  {
    CombinarEarliestInRange(parse);
    CombinarEarliestOutOfRange(parse);
  }

  lemma CombinarEarliestInRange(parse: string -> Option<TimeOfDay>)
    ensures CombinarFechaHora("1677-09-21", Some(FormatClock(Clock(0, 20))), parse) == Some(Instant(Date(1677, 9, 21), 20))
  {
    var d, h := Date(1677, 9, 21), FormatClock(Clock(0, 20));
    RangeEndInstants();
    ParseEarliestDay();
    assert ParseCalendarDate("1677-09-21") == Some(d);
    CanonicalMinute(Clock(0, 20), parse);
    assert LimpiarHhmm(Some(h), parse) == Some(h) && MinuteOfDay(h) == 20;
    CombinarOfParsed("1677-09-21", Some(h), parse);
  }

  lemma CombinarEarliestOutOfRange(parse: string -> Option<TimeOfDay>)
    ensures CombinarFechaHora("1677-09-21", Some(FormatClock(Clock(0, 10))), parse).None?
  {
    var d, h := Date(1677, 9, 21), FormatClock(Clock(0, 10));
    RangeEndInstants();
    ParseEarliestDay();
    assert ParseCalendarDate("1677-09-21") == Some(d);
    CanonicalMinute(Clock(0, 10), parse);
    assert LimpiarHhmm(Some(h), parse) == Some(h) && MinuteOfDay(h) == 10;
    CombinarOfParsed("1677-09-21", Some(h), parse);
  }

  /** On the last day of the Timestamp range the minutes after 23:47 are out of range. */
  lemma CombinarAtLatestDay(parse: string -> Option<TimeOfDay>)
    ensures CombinarFechaHora("2262-04-11", Some(FormatClock(Clock(23, 40))), parse) == Some(Instant(Date(2262, 4, 11), 23 * 60 + 40))
    ensures CombinarFechaHora("2262-04-11", Some(FormatClock(Clock(23, 50))), parse).None?
  {
    CombinarLatestInRange(parse);
    CombinarLatestOutOfRange(parse);
  }

  lemma CombinarLatestInRange(parse: string -> Option<TimeOfDay>)
    ensures CombinarFechaHora("2262-04-11", Some(FormatClock(Clock(23, 40))), parse) == Some(Instant(Date(2262, 4, 11), 23 * 60 + 40))
  {
    var d, h := Date(2262, 4, 11), FormatClock(Clock(23, 40));
    RangeEndInstants();
    ParseLatestDay();
    assert ParseCalendarDate("2262-04-11") == Some(d);
    CanonicalMinute(Clock(23, 40), parse);
    assert LimpiarHhmm(Some(h), parse) == Some(h) && MinuteOfDay(h) == 23 * 60 + 40;
    CombinarOfParsed("2262-04-11", Some(h), parse);
  }

  lemma CombinarLatestOutOfRange(parse: string -> Option<TimeOfDay>)
    ensures CombinarFechaHora("2262-04-11", Some(FormatClock(Clock(23, 50))), parse).None?
  {
    var d, h := Date(2262, 4, 11), FormatClock(Clock(23, 50));
    RangeEndInstants();
    ParseLatestDay();
    assert ParseCalendarDate("2262-04-11") == Some(d);
    CanonicalMinute(Clock(23, 50), parse);
    assert LimpiarHhmm(Some(h), parse) == Some(h) && MinuteOfDay(h) == 23 * 60 + 50;
    CombinarOfParsed("2262-04-11", Some(h), parse);
  }

  lemma ClockExamples()
    ensures FormatClock(Clock(0, 20)) == "00:20" && FormatClock(Clock(0, 10)) == "00:10"
    ensures FormatClock(Clock(23, 40)) == "23:40" && FormatClock(Clock(23, 50)) == "23:50"
  {
  }

  /** The script combines an hour column it has already normalised; that changes nothing. */
  lemma CombinarAfterLimpiar(fecha: string, hhmm: Option<string>, parse: string -> Option<TimeOfDay>)
    ensures CombinarFechaHora(fecha, LimpiarHhmm(hhmm, parse), parse) == CombinarFechaHora(fecha, hhmm, parse)
  {
    LimpiarHhmmIdempotent(hhmm, parse);
  }

  // ---------------------------------------------------------------------
  // es_festivo_madrid_2025, etiqueta_laborable, franja_horaria
  // ---------------------------------------------------------------------

  /** The holiday table, as the strings the script compares against. */
  const FestivosTexto: set<string> := {
    "2025-01-01", "2025-01-06", "2025-03-19", "2025-03-20", "2025-05-01",
    "2025-05-02", "2025-07-25", "2025-08-15", "2025-10-12",
    "2025-11-01", "2025-12-06", "2025-12-08", "2025-12-25"
  }

  /** The same thirteen days as dates. */
  const FestivosFechas: set<Date> := {
    Date(2025, 1, 1), Date(2025, 1, 6), Date(2025, 3, 19), Date(2025, 3, 20), Date(2025, 5, 1),
    Date(2025, 5, 2), Date(2025, 7, 25), Date(2025, 8, 15), Date(2025, 10, 12),
    Date(2025, 11, 1), Date(2025, 12, 6), Date(2025, 12, 8), Date(2025, 12, 25)
  }

  /** `dtobj.strftime("%Y-%m-%d") in festivos`. */
  predicate EsFestivoMadrid2025(d: Date)
    requires IsCalendarDate(d)
  {
    FormatDate(d) in FestivosTexto
  }

  lemma FormatDate2025(m: nat, day: nat)
    requires IsCalendarDate(Date(2025, m, day))
    ensures FormatDate(Date(2025, m, day)) == "2025-" + Pad2(m) + "-" + Pad2(day)
  {
    assert Pad2(20) == "20";
    assert Pad2(25) == "25";
  }

  /** A 2025 date formats as the digits that name its month and day. */
  lemma FormattedAs(f: Date, s: string)
    requires f.year == 2025 && IsCalendarDate(f)
    requires |s| == 10 && s[..5] == "2025-" && s[7] == '-'
    requires IsDigit(s[5]) && IsDigit(s[6]) && IsDigit(s[8]) && IsDigit(s[9])
    requires f.month == DigitVal(s[5]) * 10 + DigitVal(s[6]) && f.day == DigitVal(s[8]) * 10 + DigitVal(s[9])
    ensures FormatDate(f) == s
  {
    FormatDate2025(f.month, f.day);
    Pad2OfDigits(s[5..7]);
    Pad2OfDigits(s[8..10]);
    assert s == "2025-" + s[5..7] + "-" + s[8..10];
  }

  /** Every listed date formats as one of the listed strings. */
  lemma Formatted(f: Date)
    requires f in FestivosFechas
    ensures IsTimestampDate(f) && FormatDate(f) in FestivosTexto
  {
    if f.month <= 5 {
      FormattedFirstHalf(f);
    } else {
      FormattedSecondHalf(f);
    }
  }

  lemma FormattedFirstHalf(f: Date)
    requires f in FestivosFechas && f.month <= 5
    ensures IsTimestampDate(f) && FormatDate(f) in FestivosTexto
  {
    if f == Date(2025, 1, 1) { FormattedAs(f, "2025-01-01"); }
    else if f == Date(2025, 1, 6) { FormattedAs(f, "2025-01-06"); }
    else if f == Date(2025, 3, 19) { FormattedAs(f, "2025-03-19"); }
    else if f == Date(2025, 3, 20) { FormattedAs(f, "2025-03-20"); }
    else if f == Date(2025, 5, 1) { FormattedAs(f, "2025-05-01"); }
    else if f == Date(2025, 5, 2) { FormattedAs(f, "2025-05-02"); }
  }

  lemma FormattedSecondHalf(f: Date)
    requires f in FestivosFechas && f.month > 5
    ensures IsTimestampDate(f) && FormatDate(f) in FestivosTexto
  {
    if f == Date(2025, 7, 25) { FormattedAs(f, "2025-07-25"); }
    else if f == Date(2025, 8, 15) { FormattedAs(f, "2025-08-15"); }
    else if f == Date(2025, 10, 12) { FormattedAs(f, "2025-10-12"); }
    else if f == Date(2025, 11, 1) { FormattedAs(f, "2025-11-01"); }
    else if f == Date(2025, 12, 6) { FormattedAs(f, "2025-12-06"); }
    else if f == Date(2025, 12, 8) { FormattedAs(f, "2025-12-08"); }
    else if f == Date(2025, 12, 25) { FormattedAs(f, "2025-12-25"); }
  }

  /** Every listed string is the format of a listed date. */
  lemma Listed(s: string)
    requires s in FestivosTexto
    ensures exists f :: f in FestivosFechas && FormatDate(f) == s
  {
    var f := Date(2025, DigitVal(s[5]) * 10 + DigitVal(s[6]), DigitVal(s[8]) * 10 + DigitVal(s[9]));
    assert f in FestivosFechas;
    FormattedAs(f, s);
  }

  /** A date whose format is listed is a listed date, since formatting is injective. */
  lemma ListedDate(d: Date)
    requires IsTimestampDate(d) && FormatDate(d) in FestivosTexto
    ensures d in FestivosFechas
  {
    Listed(FormatDate(d));
    var f :| f in FestivosFechas && FormatDate(f) == FormatDate(d);
    Formatted(f);
    ParseFormatDate(f);
    ParseFormatDate(d);
  }

  /** Comparing formatted strings is comparing dates: the holidays are exactly the thirteen dates. */
  lemma EsFestivoIffListed(d: Date)
    requires IsTimestampDate(d)
    ensures EsFestivoMadrid2025(d) <==> d in FestivosFechas
  {
    if FormatDate(d) in FestivosTexto {
      ListedDate(d);
    }
    if d in FestivosFechas {
      Formatted(d);
    }
  }

  datatype Laborable = Laborable | NoLaborable {
    function Label(): string {
      match this
      case Laborable => "Laborable"
      case NoLaborable => "No laborable"
    }
  }

  /** `etiqueta_laborable`: Saturday, Sunday or a listed holiday is a non-working day. */
  function EtiquetaLaborable(d: Date): (r: Laborable)
    requires IsTimestampDate(d)
    ensures r == NoLaborable <==> Weekday(d) == 5 || Weekday(d) == 6 || d in FestivosFechas
  {
    EsFestivoIffListed(d);
    if Weekday(d) >= 5 || EsFestivoMadrid2025(d) then NoLaborable else Laborable
  }

  lemma EtiquetaExamples()
    ensures EtiquetaLaborable(Date(2025, 10, 11)) == NoLaborable
    ensures EtiquetaLaborable(Date(2025, 10, 13)) == Laborable
    ensures EtiquetaLaborable(Date(2025, 12, 8)) == NoLaborable
  {
    WeekdaysOctober2025();
    WeekdayDecember8th2025();
  }

  datatype Franja = Madrugada | Manana | Mediodia | Tarde | Noche {
    function Label(): string {
      match this
      case Madrugada => "madrugada"
      case Manana => "ma\U{00F1}ana"
      case Mediodia => "mediod\U{00ED}a"
      case Tarde => "tarde"
      case Noche => "noche"
    }
  }

  /** The bucket of an hour: 5-7, 8-12, 13-16, 17-20, and night for the rest. */
  function FranjaDeHora(h: int): (r: Franja)
    ensures r == Madrugada <==> 5 <= h <= 7
    ensures r == Manana <==> 8 <= h <= 12
    ensures r == Mediodia <==> 13 <= h <= 16
    ensures r == Tarde <==> 17 <= h <= 20
    ensures r == Noche <==> h < 5 || h > 20
  {
    if 5 <= h <= 7 then Madrugada
    else if 8 <= h <= 12 then Manana
    else if 13 <= h <= 16 then Mediodia
    else if 17 <= h <= 20 then Tarde
    else Noche
  }

  /** The five buckets split the 24 hours into 3 + 5 + 4 + 4 + 8 hours. */
  lemma FranjasPartitionDay()
    ensures (set h | 0 <= h < 24 && FranjaDeHora(h) == Madrugada) == {5, 6, 7}
    ensures (set h | 0 <= h < 24 && FranjaDeHora(h) == Manana) == {8, 9, 10, 11, 12}
    ensures (set h | 0 <= h < 24 && FranjaDeHora(h) == Mediodia) == {13, 14, 15, 16}
    ensures (set h | 0 <= h < 24 && FranjaDeHora(h) == Tarde) == {17, 18, 19, 20}
    ensures (set h | 0 <= h < 24 && FranjaDeHora(h) == Noche) == {0, 1, 2, 3, 4, 21, 22, 23}
  {
  }

  /**
   * `franja_horaria(dtobj)` on a Timestamp; NaT's `hour` is NaN, every
   * comparison with it is false, and the result is "noche".
   */
  function FranjaHoraria(t: Option<Instant>): (r: Franja)
    ensures t.None? ==> r == Noche
    ensures t.Some? ==> r == FranjaDeHora(t.value.minute / 60)
  {
    match t
    case None => Noche
    case Some(i) => FranjaDeHora(i.minute / 60)
  }
}
