/**
 * `preprocess`: turns an exported chat into one row per message. The text is
 * cut at every marker; each row gets the sender and text found after its
 * marker, the marker's date and time, and the date and hour components the
 * analyses group by. It raises when a time cannot be read, and when no date
 * format reads the whole date column.
 */
module Preprocessor {
  import opened Wrappers
  import opened Text
  import opened Calendar
  import opened Strptime
  import Marker
  import DateResolution
  import TimeConversion
  import SenderSplit

  /** One row of the returned frame, column by column. */
  datatype Row = Row(
    user: string,
    message: string,
    date: Date,
    time: Time,
    year: int,
    month: string,
    monthNum: int,
    day: int,
    hour: int,
    minute: int,
    onlyDate: Date,
    dayName: string,
    period: string)

  /** Why `preprocess` raises. */
  datatype ParseError =
    | UnparseableTime(token: string)  // `convert_to_24hr` on the first time token it cannot read
    | UnresolvedDates                 // no format read the whole date column, so `.dt` fails

  /** The `period` column: the hour and the next one as `HH-HH`, where 23 gives `23-00`. */
  function Period(h: int): string
    requires 0 <= h <= 23
  {
    if h != 23 then Pad2(h) + "-" + Pad2(h + 1) else "23-00"
  }

  /** A period is two two-digit numbers around a dash: the hour, and the hour after it on a 24-hour clock. */
  lemma PeriodNamesHourAndNext(h: int)
    requires 0 <= h <= 23
    ensures |Period(h)| == 5 && Period(h)[2] == '-'
    ensures AllDigits(Period(h)[..2]) && Value(Period(h)[..2]) == h
    ensures AllDigits(Period(h)[3..]) && Value(Period(h)[3..]) == (h + 1) % 24
  {
    var p := Period(h);
    var next := if h != 23 then h + 1 else 0;
    assert p == Pad2(h) + "-" + Pad2(next) by {
      if h == 23 {
        assert Pad2(23) == "23" && Pad2(0) == "00";
      }
    }
    assert p[..2] == Pad2(h);
    assert p[3..] == Pad2(next);
  }

  /** Different hours fall in different periods. */
  lemma PeriodInjective(h1: int, h2: int)
    requires 0 <= h1 <= 23 && 0 <= h2 <= 23
    ensures Period(h1) == Period(h2) <==> h1 == h2
  {
    PeriodNamesHourAndNext(h1);
    PeriodNamesHourAndNext(h2);
  }

  /** The columns computed for one message. */
  function MakeRow(text: string, d: Date, t: Time): Row
    requires ValidDate(d) && ValidTime(t)
  {
    Row(
      user := SenderSplit.UserOf(text),
      message := SenderSplit.MessageOf(text),
      date := d,
      time := t,
      year := d.year,
      month := MonthName(d.month),
      monthNum := d.month,
      day := d.day,
      hour := t.hour,
      minute := t.minute,
      onlyDate := d,
      dayName := DayName(d),
      period := Period(t.hour))
  }

  /**
   * What the columns of a row mean: the month name names the month number,
   * the day name is the weekday of the date, the period names the hour and the next,
   * and the user and message are what the sender split gives for the text.
   */
  predicate Describes(r: Row, text: string, d: Date, t: Time) {
    ValidDate(d) && ValidTime(t)
    && r.date == d && r.onlyDate == d && r.time == t
    && r.year == d.year && r.monthNum == d.month && r.day == d.day
    && MonthNumber(r.month) == r.monthNum
    && r.dayName == DayNames[Weekday(d)]
    && r.hour == t.hour && r.minute == t.minute
    && NamesHour(r.period, r.hour)
    && r.user == SenderSplit.UserOf(text) && r.message == SenderSplit.MessageOf(text)
  }

  /** `p` is the `HH-HH` label of hour `h` and the hour after it, modulo 24. */
  predicate NamesHour(p: string, h: int) {
    |p| == 5 && AllDigits(p[..2]) && Value(p[..2]) == h
    && p[2] == '-' && AllDigits(p[3..]) && Value(p[3..]) == (h + 1) % 24
  }

  lemma MakeRowDescribes(text: string, d: Date, t: Time)
    requires ValidDate(d) && ValidTime(t)
    ensures Describes(MakeRow(text, d, t), text, d, t)
    ensures SenderSplit.NoColon(MakeRow(text, d, t).user)
  {
    MonthNameRoundTrip(d.month);
    assert NamesHour(Period(t.hour), t.hour) by {
      PeriodNamesHourAndNext(t.hour);
    }
    SenderSplit.UserHasNoColon(text);
  }

  /** What `convert_to_24hr` gives for each token, in column order. */
  function Readings(toks: seq<string>): (rs: seq<Option<Time>>)
    ensures |rs| == |toks|
    ensures forall i | 0 <= i < |toks| :: rs[i] == TimeConversion.TimeOf(toks[i])
  {
    seq(|toks|, i requires 0 <= i < |toks| => TimeConversion.TimeOf(toks[i]))
  }

  /**
   * `Series.apply` over the tokens with their readings: the values in order,
   * or the error for the first token with no reading.
   */
  function Collect(toks: seq<string>, rs: seq<Option<Time>>): (r: Result<seq<Time>, ParseError>)
    requires |rs| == |toks|
    decreases |toks|
  {
    if toks == [] then Ok([])
    else
      match rs[0]
      case None => Err(UnparseableTime(toks[0]))
      case Some(t) =>
        match Collect(toks[1..], rs[1..])
        case Err(e) => Err(e)
        case Ok(ts) => Ok([t] + ts)
  }

  /** `df['time'].apply(convert_to_24hr)`. */
  function ConvertTimes(toks: seq<string>): Result<seq<Time>, ParseError> {
    Collect(toks, Readings(toks))
  }

  lemma {:induction false} CollectSpec(toks: seq<string>, rs: seq<Option<Time>>)
    requires |rs| == |toks|
    ensures Collect(toks, rs).Ok? <==> forall i | 0 <= i < |rs| :: rs[i].Some?
    ensures Collect(toks, rs).Ok? ==>
              |Collect(toks, rs).value| == |rs| && forall i | 0 <= i < |rs| :: rs[i] == Some(Collect(toks, rs).value[i])
    decreases |toks|
  {
    if toks != [] {
      CollectSpec(toks[1..], rs[1..]);
      assert forall i | 1 <= i < |rs| :: rs[i] == rs[1..][i - 1];
    }
  }

  lemma {:induction false} CollectFirstError(toks: seq<string>, rs: seq<Option<Time>>, j: nat)
    requires |rs| == |toks| && j < |toks| && rs[j].None?
    requires forall i | 0 <= i < j :: rs[i].Some?
    ensures Collect(toks, rs) == Err(UnparseableTime(toks[j]))
    decreases j
  {
    if j > 0 {
      assert rs[0].Some?;
      assert toks[1..][j - 1] == toks[j];
      forall i | 0 <= i < j - 1 ensures rs[1..][i].Some? {
        assert rs[1..][i] == rs[i + 1];
      }
      CollectFirstError(toks[1..], rs[1..], j - 1);
    }
  }

  /** The conversion succeeds exactly when every token is read, and then each time is its own token's reading. */
  lemma ConvertTimesSpec(toks: seq<string>)
    ensures ConvertTimes(toks).Ok? <==> forall i | 0 <= i < |toks| :: TimeConversion.TimeOf(toks[i]).Some?
    ensures ConvertTimes(toks).Ok? ==>
              |ConvertTimes(toks).value| == |toks|
              && forall i | 0 <= i < |toks| :: TimeConversion.TimeOf(toks[i]) == Some(ConvertTimes(toks).value[i])
  {
    CollectSpec(toks, Readings(toks));
  }

  /** The error names the first token that cannot be read, whatever comes after it. */
  lemma FirstBadTimeRaises(toks: seq<string>, j: nat)
    requires j < |toks| && TimeConversion.TimeOf(toks[j]).None?
    requires forall i | 0 <= i < j :: TimeConversion.TimeOf(toks[i]).Some?
    ensures ConvertTimes(toks) == Err(UnparseableTime(toks[j]))
  {
    CollectFirstError(toks, Readings(toks), j);
  }

  /** Converted times are valid times of day. */
  lemma ConvertedTimesValid(toks: seq<string>)
    requires ConvertTimes(toks).Ok?
    ensures forall i | 0 <= i < |ConvertTimes(toks).value| :: ValidTime(ConvertTimes(toks).value[i])
  {
    ConvertTimesSpec(toks);
  }

  /** The rows built from the aligned text, date and time columns. */
  function Rows(texts: seq<string>, dates: seq<Date>, times: seq<Time>): (rows: seq<Row>)
    requires |texts| == |dates| == |times|
    requires forall i | 0 <= i < |dates| :: ValidDate(dates[i])
    requires forall i | 0 <= i < |times| :: ValidTime(times[i])
    ensures |rows| == |texts|
  {
    seq(|texts|, i requires 0 <= i < |texts| => MakeRow(texts[i], dates[i], times[i]))
  }

  /**
   * What `preprocess(data)` returns. The date column is resolved first but
   * only used once the times are converted, so an unreadable time is reported
   * even when the dates are unresolved too.
   */
  function Preprocessed(data: string): (r: Result<seq<Row>, ParseError>)
    ensures r.Ok? ==> |r.value| == |Marker.Matches(data)|
  {
    var texts := Marker.SplitMessages(data);
    var dates := Marker.DateColumn(data);
    var times := Marker.TimeColumn(data);
    Marker.ColumnsAlign(data);
    match ConvertTimes(times)
    case Err(e) => Err(e)
    case Ok(ts) =>
      match DateResolution.ResolveDates(dates)
      case None => Err(UnresolvedDates)
      case Some(ds) =>
        ConvertTimesSpec(times);
        DateResolution.ResolvedDatesValid(dates);
        Ok(Rows(texts, ds, ts))
  }

  /** A prefix one longer is the prefix with the next element appended. */
  lemma PrefixStep<T>(xs: seq<T>, i: nat)
    requires i < |xs|
    ensures xs[..i + 1] == xs[..i] + [xs[i]]
  {
  }

  /** The loop over `re.finditer(pattern, data)`: the first and second group of every match, in order. */
  method CollectMarkers(data: string) returns (dates: seq<string>, times: seq<string>)
    ensures dates == Marker.DateColumn(data) && times == Marker.TimeColumn(data)
  {
    var ms := Marker.Matches(data);
    ghost var dc, tc := Marker.DateColumn(data), Marker.TimeColumn(data);
    dates, times := [], [];
    for i := 0 to |ms|
      invariant dates == dc[..i] && times == tc[..i]
    {
      PrefixStep(dc, i);
      PrefixStep(tc, i);
      dates := dates + [Marker.DateText(data, ms[i])];
      times := times + [Marker.TimeText(data, ms[i])];
    }
    assert dc[..|ms|] == dc && tc[..|ms|] == tc;
  }

  /** `df['time'].apply(convert_to_24hr)`: stops at the first token that raises. */
  method ConvertTimeColumn(times: seq<string>) returns (r: Result<seq<Time>, ParseError>)
    ensures r == ConvertTimes(times)
  {
    var parsed: seq<Time> := [];
    ghost var rs := Readings(times);
    for i := 0 to |times|
      invariant |parsed| == i
      invariant forall k | 0 <= k < i :: rs[k] == Some(parsed[k])
    {
      var t := TimeConversion.ConvertTo24Hr(times[i]);
      if t.None? {
        CollectFirstError(times, rs, i);
        return Err(UnparseableTime(times[i]));
      }
      parsed := parsed + [t.value];
    }
    CollectSpec(times, rs);
    var all := Collect(times, rs).value;
    assert all == parsed by {
      forall k | 0 <= k < |times| ensures all[k] == parsed[k] {
        assert rs[k] == Some(all[k]);
      }
    }
    r := Ok(parsed);
  }

  /** The `user`, `message` and component columns, row by row. */
  method BuildRows(texts: seq<string>, dates: seq<Date>, times: seq<Time>) returns (rows: seq<Row>)
    requires |texts| == |dates| == |times|
    requires forall i | 0 <= i < |dates| :: ValidDate(dates[i])
    requires forall i | 0 <= i < |times| :: ValidTime(times[i])
    ensures rows == Rows(texts, dates, times)
  {
    rows := [];
    ghost var all := Rows(texts, dates, times);
    for i := 0 to |texts|
      invariant rows == all[..i]
    {
      PrefixStep(all, i);
      rows := rows + [MakeRow(texts[i], dates[i], times[i])];
    }
    assert all[..|texts|] == all;
  }

  method Preprocess(data: string) returns (r: Result<seq<Row>, ParseError>)
    ensures r == Preprocessed(data)
  {
    // The text after each marker: `re.split(pattern, data)[3::3]`.
    var texts := Marker.SplitMessages(data);
    var dates, times := CollectMarkers(data);
    Marker.ColumnsAlign(data);
    var resolved := DateResolution.ResolveDateColumn(dates);
    var converted := ConvertTimeColumn(times);
    if converted.Err? {
      return Err(converted.error);
    }
    if resolved.None? {
      return Err(UnresolvedDates);
    }
    ConvertTimesSpec(times);
    DateResolution.ResolvedDatesValid(dates);
    var rows := BuildRows(texts, resolved.value, converted.value);
    r := Ok(rows);
  }

  /**
   * `preprocess` succeeds exactly when every marker's time is read and one
   * date format reads every marker's date.
   */
  lemma PreprocessedOkIff(data: string)
    ensures Preprocessed(data).Ok? <==>
              (forall i | 0 <= i < |Marker.TimeColumn(data)| :: TimeConversion.TimeOf(Marker.TimeColumn(data)[i]).Some?)
              && DateResolution.ResolveDates(Marker.DateColumn(data)).Some?
  {
    ConvertTimesSpec(Marker.TimeColumn(data));
  }

  /** The first marker whose time cannot be read is what `preprocess` reports, however the dates stand. */
  lemma TimeErrorComesFirst(data: string, j: nat)
    requires j < |Marker.TimeColumn(data)| && TimeConversion.TimeOf(Marker.TimeColumn(data)[j]).None?
    requires forall i | 0 <= i < j :: TimeConversion.TimeOf(Marker.TimeColumn(data)[i]).Some?
    ensures Preprocessed(data) == Err(UnparseableTime(Marker.TimeColumn(data)[j]))
  {
    FirstBadTimeRaises(Marker.TimeColumn(data), j);
  }

  /**
   * Every row stands for one marker, in order: its user and message come from
   * the text after that marker, its date is the marker's date as the chosen
   * format reads it, and its time is the marker's time as converted.
   */
  lemma RowsFollowMarkers(data: string)
    requires Preprocessed(data).Ok?
    ensures |Preprocessed(data).value| == |Marker.Messages(data)|
    ensures |Preprocessed(data).value| == |Marker.DateColumn(data)| == |Marker.TimeColumn(data)|
    ensures DateResolution.ResolveDates(Marker.DateColumn(data)).Some?
    ensures forall i | 0 <= i < |Marker.TimeColumn(data)| :: TimeConversion.TimeOf(Marker.TimeColumn(data)[i]).Some?
    ensures forall i | 0 <= i < |Preprocessed(data).value| ::
              Describes(Preprocessed(data).value[i],
                        Marker.Messages(data)[i],
                        DateResolution.ResolveDates(Marker.DateColumn(data)).value[i],
                        TimeConversion.TimeOf(Marker.TimeColumn(data)[i]).value)
  {
    var texts := Marker.SplitMessages(data);
    var dates := Marker.DateColumn(data);
    var times := Marker.TimeColumn(data);
    Marker.ColumnsAlign(data);
    ConvertTimesSpec(times);
    DateResolution.ResolvedDatesValid(dates);
    var ds := DateResolution.ResolveDates(dates).value;
    var ts := ConvertTimes(times).value;
    var rows := Preprocessed(data).value;
    assert rows == Rows(texts, ds, ts);
    forall i | 0 <= i < |rows|
      ensures Describes(rows[i], Marker.Messages(data)[i], ds[i], TimeConversion.TimeOf(times[i]).value)
    {
      MakeRowDescribes(texts[i], ds[i], ts[i]);
    }
  }

  /** A text with no marker gives an empty frame, not an error. */
  lemma NoMarkersNoRows(data: string)
    requires Marker.Matches(data) == []
    ensures Preprocessed(data) == Ok([])
  {
    Marker.ColumnsAlign(data);
    DateResolution.EmptyColumn();
    assert Marker.DateColumn(data) == [] && Marker.TimeColumn(data) == [];
  }

  /** Every marker ends in a dash, so a text without one gives an empty frame. */
  lemma NoDashNoRows(data: string)
    requires forall k | 0 <= k < |data| :: data[k] != '-'
    ensures Preprocessed(data) == Ok([])
  {
    Marker.NoDashNoMessages(data);
    NoMarkersNoRows(data);
  }

  /**
   * The tokens handed to the date and time readers have the shapes the
   * marker pattern allows: `D[/-]D[/-]Y` with one or two digits per field and
   * two to four for the year, and `H[:.]MM` with an optional suffix.
   */
  lemma MarkerTokenShapes(data: string, i: nat)
      returns (f1: string, s1: char, f2: string, s2: char, f3: string, hs: string, sep: char, ms: string, rest: string)
    requires i < |Marker.Matches(data)|
    ensures DateResolution.DateShape(Marker.DateColumn(data)[i], f1, s1, f2, s2, f3)
    ensures Marker.IsDateSeparator(s1) && Marker.IsDateSeparator(s2)
    ensures TimeConversion.ClockShape(Marker.TimeColumn(data)[i], hs, sep, ms, rest)
    ensures Marker.IsClockSeparator(sep) && Marker.ClockSuffix(rest)
  {
    var m := Marker.Matches(data)[i];
    Marker.MatchesAreLeftmost(data);
    assert Marker.MatchAt(data, m.start) == Some(m);
    Marker.MatchGroups(data, m.start);
    f1, s1, f2, s2, f3 := Marker.DateGroupShape(data, m.dateStart);
    hs, sep, ms, rest := Marker.ClockGroupShape(data, m.timeStart);
  }

  /**
   * A chat that writes one marker's date with a dash and another's with a
   * slash cannot be preprocessed: no format reads both, so the date column
   * stays text.
   */
  lemma MixedDateSeparatorsFail(data: string, i: nat, j: nat)
    requires i < |Marker.Matches(data)| && j < |Marker.Matches(data)|
    requires '-' in Marker.DateColumn(data)[i] && '/' in Marker.DateColumn(data)[j]
    ensures DateResolution.ResolveDates(Marker.DateColumn(data)).None?
    ensures Preprocessed(data).Err?
  {
    var f1, s1, f2, s2, f3, _, _, _, _ := MarkerTokenShapes(data, i);
    var g1, t1, g2, t2, g3, _, _, _, _ := MarkerTokenShapes(data, j);
    DateResolution.MixedSeparatorsUnresolved(Marker.DateColumn(data), i, j, f1, s1, f2, s2, f3, g1, t1, g2, t2, g3);
  }

  /**
   * The marker pattern accepts seconds (`10:30:15`) but no time format reads
   * them, so one such marker anywhere makes `preprocess` raise.
   */
  lemma SecondsInAMarkerFail(data: string, i: nat, hs: string, sep: char, ms: string, rest: string)
    requires i < |Marker.TimeColumn(data)|
    requires TimeConversion.ClockShape(Marker.TimeColumn(data)[i], hs, sep, ms, rest) && rest != [] && rest[0] == ':'
    ensures Preprocessed(data).Err?
  {
    TimeConversion.SecondsTokens(Marker.TimeColumn(data)[i], hs, sep, ms, rest);
    PreprocessedOkIff(data);
  }

  /**
   * Every row with a sender holds a stripped message; only notification rows
   * keep their text as it was, trailing newline included.
   */
  lemma SenderMessagesStripped(data: string)
    requires Preprocessed(data).Ok?
    ensures forall r | r in Preprocessed(data).value && r.user != SenderSplit.GroupNotification ::
              Trimmed(r.message)
  {
    var rows := Preprocessed(data).value;
    forall r | r in rows && r.user != SenderSplit.GroupNotification
      ensures Trimmed(r.message)
    {
      var i :| 0 <= i < |rows| && rows[i] == r;
      RowText(data, i);
      var text := Marker.Messages(data)[i];
      SenderSplit.UserHasNoColon(text);
      SenderSplit.MessageTrimmedOrUnchanged(text);
    }
  }

  /** Row `i` takes its user and message from the `i`-th message text. */
  lemma RowText(data: string, i: nat)
    requires Preprocessed(data).Ok? && i < |Preprocessed(data).value|
    ensures i < |Marker.Messages(data)|
    ensures Preprocessed(data).value[i].user == SenderSplit.UserOf(Marker.Messages(data)[i])
    ensures Preprocessed(data).value[i].message == SenderSplit.MessageOf(Marker.Messages(data)[i])
  {
    RowsFollowMarkers(data);
    var ds := DateResolution.ResolveDates(Marker.DateColumn(data)).value;
    var t := TimeConversion.TimeOf(Marker.TimeColumn(data)[i]).value;
    assert Describes(Preprocessed(data).value[i], Marker.Messages(data)[i], ds[i], t);
  }

  /** Every row's `day_name` is one of the seven day names. */
  lemma RowsNameTheirDay(data: string)
    requires Preprocessed(data).Ok?
    ensures forall r | r in Preprocessed(data).value :: r.dayName in DayNames
  {
    RowsFollowMarkers(data);
  }
}
