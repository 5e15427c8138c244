/** `convert_to_24hr`: a time token is read by the first of six formats that accepts it. */
module TimeConversion {
  import opened Wrappers
  import opened Text
  import opened Strptime
  import opened Calendar

  /** The formats `convert_to_24hr` tries, in order: two explicit attempts, then its loop. */
  const TimeFormats: seq<string> := ["%H:%M", "%I:%M %p", "%I:%M%p", "%I.%M %p", "%I.%M%p", "%I:%M"]

  /** The same formats as `_strptime` compiles them. */
  const TimeItems: seq<seq<Item>> := [
    [Directive('H'), Lit(':'), Directive('M')],
    [Directive('I'), Lit(':'), Directive('M'), Space, Directive('p')],
    [Directive('I'), Lit(':'), Directive('M'), Directive('p')],
    [Directive('I'), Lit('.'), Directive('M'), Space, Directive('p')],
    [Directive('I'), Lit('.'), Directive('M'), Directive('p')],
    [Directive('I'), Lit(':'), Directive('M')]
  ]

  /** `datetime.strptime(s, fmt).time()`, None where it raises ValueError. */
  function ParseTime(fmt: string, s: string): (r: Option<Time>)
    ensures r.Some? ==> ValidTime(r.value)
  {
    match Parse(fmt, s)
    case None => None
    case Some(p) => Some(p.1)
  }

  /** The time compiled items read from `s`. */
  function ReadTime(items: seq<Item>, s: string): (r: Option<Time>)
    ensures r.Some? ==> ValidTime(r.value)
  {
    match ParseItems(items, s)
    case None => None
    case Some(p) => Some(p.1)
  }

  /** The reading of the first format, from entry `k` of the table on, that accepts `s`. */
  function FirstTime(s: string, k: nat): (r: Option<Time>)
    requires k <= |TimeItems|
    ensures r.Some? ==> ValidTime(r.value)
    decreases |TimeItems| - k
  {
    if k == |TimeItems| then None
    else
      match ReadTime(TimeItems[k], s)
      case Some(t) => Some(t)
      case None => FirstTime(s, k + 1)
  }

  /** What `convert_to_24hr(s)` returns; None where it raises ValueError. */
  function TimeOf(s: string): (r: Option<Time>)
    ensures r.Some? ==> ValidTime(r.value)
  {
    FirstTime(s, 0)
  }

  method ConvertTo24Hr(timeStr: string) returns (r: Option<Time>)
    ensures r == TimeOf(timeStr)
    ensures r.Some? ==> ValidTime(r.value)
  {
    CompiledTimeFormat(0, timeStr);
    CompiledTimeFormat(1, timeStr);
    r := ParseTime("%H:%M", timeStr);
    if r.Some? {
      return;
    }
    r := ParseTime("%I:%M %p", timeStr);
    if r.Some? {
      return;
    }
    var formats := ["%I:%M%p", "%I.%M %p", "%I.%M%p", "%I:%M"];
    assert formats == TimeFormats[2..];
    for i := 0 to |formats|
      invariant TimeOf(timeStr) == FirstTime(timeStr, 2 + i)
    {
      CompiledTimeFormat(2 + i, timeStr);
      r := ParseTime(formats[i], timeStr);
      if r.Some? {
        return;
      }
    }
    r := None;
  }

  // Each format of the table compiles to its entry of `TimeItems`, one format per lemma.
  lemma CompiledHourMinute()
    ensures Compile(TimeFormats[0]) == TimeItems[0]
  {
  }

  lemma CompiledColonSpaceMeridiem()
    ensures Compile(TimeFormats[1]) == TimeItems[1]
  {
    CompileSpacedMeridiem('I', ':', 'M', ' ', 'p');
    assert TimeFormats[1] == ['%', 'I', ':', '%', 'M', ' ', '%', 'p'];
  }

  /** A single space before a `%` compiles to one whitespace item. */
  lemma CompileSpace(rest: string)
    requires |rest| > 0 && rest[0] == '%'
    ensures Compile([' '] + rest) == [Space] + Compile(rest)
  {
    var t := [' '] + rest;
    assert SpaceRun(t, 1) == 0;
    assert t[1..] == rest;
  }

  /** `%<hd><sep>%<m> %<p>` compiles item by item. */
  lemma CompileSpacedMeridiem(hd: char, sep: char, m: char, sp: char, p: char)
    requires sep != '%' && !IsSpace(sep) && sp == ' '
    ensures Compile(['%', hd, sep, '%', m, sp, '%', p])
         == [Directive(hd), Lit(sep), Directive(m), Space, Directive(p)]
  {
    var t2: string := ['%', m, sp, '%', p];
    var t3: string := [sep, '%', m, sp, '%', p];
    CompileSpacedTail(m, sp, p);
    CompileLiteral(sep, t2);
    assert t3 == [sep] + t2;
    CompileDirective(hd, t3);
    assert ['%', hd, sep, '%', m, sp, '%', p] == ['%', hd] + t3;
  }

  /** `%<m> %<p>` compiles item by item. */
  lemma CompileSpacedTail(m: char, sp: char, p: char)
    requires sp == ' '
    ensures Compile(['%', m, sp, '%', p]) == [Directive(m), Space, Directive(p)]
  {
    var empty: string := [];
    var t0: string := ['%', p];
    var t1: string := [sp, '%', p];
    CompileDirective(p, empty);
    assert t0 == ['%', p] + empty;
    CompileSpace(t0);
    assert t1 == [' '] + t0;
    CompileDirective(m, t1);
    assert ['%', m, sp, '%', p] == ['%', m] + t1;
  }

  lemma CompiledColonMeridiem()
    ensures Compile(TimeFormats[2]) == TimeItems[2]
  {
  }

  lemma CompiledDotSpaceMeridiem()
    ensures Compile(TimeFormats[3]) == TimeItems[3]
  {
    CompileSpacedMeridiem('I', '.', 'M', ' ', 'p');
    assert TimeFormats[3] == ['%', 'I', '.', '%', 'M', ' ', '%', 'p'];
  }

  lemma CompiledDotMeridiem()
    ensures Compile(TimeFormats[4]) == TimeItems[4]
  {
  }

  lemma CompiledTwelveHourMinute()
    ensures Compile(TimeFormats[5]) == TimeItems[5]
  {
  }

  /** Parsing with a format of the table reads what its compiled entry reads. */
  lemma CompiledTimeFormat(k: nat, s: string)
    requires k < |TimeFormats|
    ensures ParseTime(TimeFormats[k], s) == ReadTime(TimeItems[k], s)
  {
    if k == 0 {
      CompiledHourMinute();
    } else if k == 1 {
      CompiledColonSpaceMeridiem();
    } else if k == 2 {
      CompiledColonMeridiem();
    } else if k == 3 {
      CompiledDotSpaceMeridiem();
    } else if k == 4 {
      CompiledDotMeridiem();
    } else {
      CompiledTwelveHourMinute();
    }
  }

  /** Twelve-hour clock to 24-hour clock as `_strptime` does it. */
  function To24(h12: int, pm: bool): int {
    if pm then (if h12 == 12 then 12 else h12 + 12) else (if h12 == 12 then 0 else h12)
  }

  predicate IsPm(a: char) {
    a == 'p' || a == 'P'
  }

  /** A clock token: hour digits, separator, two minute digits, then `rest`. */
  predicate ClockShape(tok: string, hs: string, sep: char, ms: string, rest: string) {
    tok == hs + [sep] + ms + rest && AllDigits(hs) && 1 <= |hs| <= 2 && AllDigits(ms) && |ms| == 2
    && !IsDigit(sep) && (rest == [] || !IsDigit(rest[0]))
  }

  /** Reading the hour of a clock token. */
  lemma ScanHour(tok: string, hs: string, sep: char, ms: string, rest: string, hd: char, tail: seq<Item>)
    requires ClockShape(tok, hs, sep, ms, rest)
    requires hd == 'H' ==> Value(hs) <= 23
    requires hd == 'I' ==> 1 <= Value(hs) <= 12
    requires hd == 'H' || hd == 'I'
    ensures Scan([Directive(hd)] + tail, tok, 0, NoFields) == Scan(tail, tok, |hs|, Store(NoFields, hd, Value(hs)))
  {
    assert tok[0..|hs|] == hs;
    NumberOfDigits(hd, tok, 0, hs);
    assert ([Directive(hd)] + tail)[1..] == tail;
  }

  lemma MinutesNumber(tok: string, hs: string, sep: char, ms: string, rest: string)
    requires ClockShape(tok, hs, sep, ms, rest) && Value(ms) <= 59
    ensures Number('M', tok, |hs| + 1) == Some((Value(ms), |hs| + 3))
  {
    var L := |hs|;
    assert tok[L + 1..L + 3] == ms;
    assert L + 3 < |tok| ==> tok[L + 3] == rest[0];
    NumberOfDigits('M', tok, L + 1, ms);
  }

  /** Reading the minutes of a clock token once its separator has matched. */
  lemma ScanMinutes(tok: string, hs: string, sep: char, ms: string, rest: string, f: Fields, tail: seq<Item>)
    requires ClockShape(tok, hs, sep, ms, rest) && Value(ms) <= 59 && InRange(f)
    ensures Scan([Directive('M')] + tail, tok, |hs| + 1, f) == Scan(tail, tok, |hs| + 3, Store(f, 'M', Value(ms)))
  {
    MinutesNumber(tok, hs, sep, ms, rest);
    ScanNumberStep('M', tail, tok, |hs| + 1, f, Value(ms), |hs| + 3);
  }

  /** The separator of a clock token: the format's literal must be that character. */
  lemma ScanSeparator(tok: string, hs: string, sep: char, ms: string, rest: string, f: Fields, c: char, tail: seq<Item>)
    requires ClockShape(tok, hs, sep, ms, rest) && InRange(f)
    ensures Scan([Lit(c)] + tail, tok, |hs|, f) == if c == sep then Scan(tail, tok, |hs| + 1, f) else None
  {
    assert tok[|hs|] == sep;
    assert ([Lit(c)] + tail)[1..] == tail;
  }

  /** The hour, separator and minutes of a clock token are read the same way by every format. */
  lemma ScanClock(tok: string, hs: string, sep: char, ms: string, rest: string, hd: char, c: char, tail: seq<Item>)
    requires ClockShape(tok, hs, sep, ms, rest)
    requires hd == 'H' || hd == 'I'
    requires hd == 'H' ==> Value(hs) <= 23
    requires hd == 'I' ==> 1 <= Value(hs) <= 12
    requires Value(ms) <= 59
    ensures Scan([Directive(hd), Lit(c), Directive('M')] + tail, tok, 0, NoFields)
         == if c == sep
            then Scan(tail, tok, |hs| + 3, Store(Store(NoFields, hd, Value(hs)), 'M', Value(ms)))
            else None
  {
    var f1 := Store(NoFields, hd, Value(hs));
    assert [Directive(hd), Lit(c), Directive('M')] + tail == [Directive(hd)] + ([Lit(c)] + ([Directive('M')] + tail));
    ScanHour(tok, hs, sep, ms, rest, hd, [Lit(c)] + ([Directive('M')] + tail));
    ScanSeparator(tok, hs, sep, ms, rest, f1, c, [Directive('M')] + tail);
    ScanMinutes(tok, hs, sep, ms, rest, f1, tail);
  }

  /** Compiled items that reject `s` read nothing; items that accept it without a date directive read the clock their fields name. */
  lemma ReadTimeOfScan(items: seq<Item>, s: string)
    ensures Scan(items, s, 0, NoFields) == None ==> ReadTime(items, s) == None
    ensures match Scan(items, s, 0, NoFields)
            case Some(f) =>
              f.year.None? && f.month.None? && f.day.None? ==> ReadTime(items, s) == Some(Time(Hour(f), OrElse(f.minute, 0)))
            case None => true
  {
    assert ValidDate(Date(1900, 1, 1));
  }

  /** The am/pm tail of a token, read with or without a whitespace item before `%p`. */
  lemma MeridiemTail(tok: string, p: nat, gap: string, a: char, b: char, f: Fields, spaced: bool)
    requires p <= |tok| && tok[p..] == gap + [a, b]
    requires AllSpace(gap) && IsAmPmFirst(a) && IsAmPmSecond(b) && InRange(f)
    ensures Scan(if spaced then [Space, Directive('p')] else [Directive('p')], tok, p, f)
         == if spaced == (gap != []) then Some(f.(pm := Some(IsPm(a)))) else None
  {
    var G := |gap|;
    assert tok[p + G] == a && tok[p + G + 1] == b && |tok| == p + G + 2;
    assert forall k :: p <= k < p + G ==> tok[k] == gap[k - p];
    assert !IsSpace(a);
    SpaceRunIs(tok, p, G);
    assert [Directive('p')] == [Directive('p')] + [];
    assert [Space, Directive('p')] == [Space] + [Directive('p')];
    if spaced {
      ScanSpaceStep([Directive('p')], tok, p, f);
      if G > 0 {
        ScanMeridiemStep([], tok, p + G, f);
      }
    } else if G == 0 {
      ScanMeridiemStep([], tok, p, f);
    } else {
      assert IsSpace(tok[p]);
    }
  }

  /** The fields a twelve-hour token leaves: hour, minute and am/pm, no date. */
  function MeridiemFields(h12: int, m: int, pm: bool): (f: Fields)
    requires 1 <= h12 <= 12 && 0 <= m <= 59
    ensures InRange(f)
  {
    Store(Store(NoFields, 'I', h12), 'M', m).(pm := Some(pm))
  }

  lemma MeridiemFieldsTime(h12: int, m: int, pm: bool)
    requires 1 <= h12 <= 12 && 0 <= m <= 59
    ensures var f := MeridiemFields(h12, m, pm);
            f.year.None? && f.month.None? && f.day.None? && Time(Hour(f), OrElse(f.minute, 0)) == Time(To24(h12, pm), m)
  {
  }

  /** One of the four meridiem formats against a twelve-hour token. */
  lemma MeridiemFormat(hs: string, sep: char, ms: string, gap: string, a: char, b: char, c: char, spaced: bool)
    requires AllDigits(hs) && 1 <= |hs| <= 2 && 1 <= Value(hs) <= 12
    requires !IsDigit(sep)
    requires AllDigits(ms) && |ms| == 2 && Value(ms) <= 59
    requires AllSpace(gap) && IsAmPmFirst(a) && IsAmPmSecond(b)
    ensures var tok := hs + [sep] + ms + gap + [a, b];
            var tail := if spaced then [Space, Directive('p')] else [Directive('p')];
            Scan([Directive('I'), Lit(c), Directive('M')] + tail, tok, 0, NoFields)
            == if c == sep && spaced == (gap != []) then Some(MeridiemFields(Value(hs), Value(ms), IsPm(a))) else None
  {
    var tok := hs + [sep] + ms + gap + [a, b];
    var rest := gap + [a, b];
    assert tok == hs + [sep] + ms + rest;
    assert rest[0] == a || IsSpace(rest[0]);
    var tail := if spaced then [Space, Directive('p')] else [Directive('p')];
    ScanClock(tok, hs, sep, ms, rest, 'I', c, tail);
    assert tok[|hs| + 3..] == rest;
    MeridiemTail(tok, |hs| + 3, gap, a, b, Store(Store(NoFields, 'I', Value(hs)), 'M', Value(ms)), spaced);
  }

  /** The entry of the table that fits a separator and the presence of whitespace before am/pm. */
  function MeridiemIndex(sep: char, spaced: bool): nat {
    if sep == ':' then (if spaced then 1 else 2) else (if spaced then 3 else 4)
  }

  /** Format `k` (1 to 4) accepts a twelve-hour token exactly when it fits its separator and spacing. */
  lemma MeridiemReadTime(hs: string, sep: char, ms: string, gap: string, a: char, b: char, k: nat)
    requires AllDigits(hs) && 1 <= |hs| <= 2 && 1 <= Value(hs) <= 12
    requires sep == ':' || sep == '.'
    requires AllDigits(ms) && |ms| == 2 && Value(ms) <= 59
    requires AllSpace(gap) && IsAmPmFirst(a) && IsAmPmSecond(b)
    requires 1 <= k <= 4
    ensures ReadTime(TimeItems[k], hs + [sep] + ms + gap + [a, b])
         == if k == MeridiemIndex(sep, gap != []) then Some(Time(To24(Value(hs), IsPm(a)), Value(ms))) else None
  {
    var tok := hs + [sep] + ms + gap + [a, b];
    var items := TimeItems[k];
    if k == 1 {
      assert items == [Directive('I'), Lit(':'), Directive('M')] + [Space, Directive('p')];
      MeridiemFormat(hs, sep, ms, gap, a, b, ':', true);
    } else if k == 2 {
      assert items == [Directive('I'), Lit(':'), Directive('M')] + [Directive('p')];
      MeridiemFormat(hs, sep, ms, gap, a, b, ':', false);
    } else if k == 3 {
      assert items == [Directive('I'), Lit('.'), Directive('M')] + [Space, Directive('p')];
      MeridiemFormat(hs, sep, ms, gap, a, b, '.', true);
    } else {
      assert items == [Directive('I'), Lit('.'), Directive('M')] + [Directive('p')];
      MeridiemFormat(hs, sep, ms, gap, a, b, '.', false);
    }
    var fp := MeridiemFields(Value(hs), Value(ms), IsPm(a));
    assert Scan(items, tok, 0, NoFields) == if k == MeridiemIndex(sep, gap != []) then Some(fp) else None;
    ReadTimeOfScan(items, tok);
    MeridiemFieldsTime(Value(hs), Value(ms), IsPm(a));
  }

  /** `%H:%M` reads the clock of a twelve-hour token and then finds the am/pm left over. */
  lemma HourFormatRejectsMeridiem(hs: string, sep: char, ms: string, gap: string, a: char, b: char)
    requires AllDigits(hs) && 1 <= |hs| <= 2 && 1 <= Value(hs) <= 12
    requires sep == ':' || sep == '.'
    requires AllDigits(ms) && |ms| == 2 && Value(ms) <= 59
    requires AllSpace(gap) && IsAmPmFirst(a) && IsAmPmSecond(b)
    ensures ReadTime(TimeItems[0], hs + [sep] + ms + gap + [a, b]) == None
  {
    var tok := hs + [sep] + ms + gap + [a, b];
    var rest := gap + [a, b];
    assert tok == hs + [sep] + ms + rest;
    assert rest[0] == a || IsSpace(rest[0]);
    assert [Directive('H'), Lit(':'), Directive('M')] == [Directive('H'), Lit(':'), Directive('M')] + [];
    ScanClock(tok, hs, sep, ms, rest, 'H', ':', []);
  }

  /** A twelve-hour token (`2:30 pm`, `2.30pm`, `12:05 AM`) reads as the 24-hour time it names. */
  lemma TwelveHourTokens(hs: string, sep: char, ms: string, gap: string, a: char, b: char)
    requires AllDigits(hs) && 1 <= |hs| <= 2 && 1 <= Value(hs) <= 12
    requires sep == ':' || sep == '.'
    requires AllDigits(ms) && |ms| == 2 && Value(ms) <= 59
    requires AllSpace(gap)
    requires IsAmPmFirst(a) && IsAmPmSecond(b)
    ensures TimeOf(hs + [sep] + ms + gap + [a, b]) == Some(Time(To24(Value(hs), IsPm(a)), Value(ms)))
  {
    var tok := hs + [sep] + ms + gap + [a, b];
    var want := Time(To24(Value(hs), IsPm(a)), Value(ms));
    var k := MeridiemIndex(sep, gap != []);
    HourFormatRejectsMeridiem(hs, sep, ms, gap, a, b);
    MeridiemReadTime(hs, sep, ms, gap, a, b, 1);
    MeridiemReadTime(hs, sep, ms, gap, a, b, 2);
    MeridiemReadTime(hs, sep, ms, gap, a, b, 3);
    MeridiemReadTime(hs, sep, ms, gap, a, b, 4);
    assert FirstTime(tok, k) == Some(want);
    if k >= 4 { assert FirstTime(tok, 3) == Some(want); }
    if k >= 3 { assert FirstTime(tok, 2) == Some(want); }
    if k >= 2 { assert FirstTime(tok, 1) == Some(want); }
  }

  /** Every format from entry `k` on rejects `s`: nothing is read from there. */
  lemma {:induction false} FirstTimeNone(s: string, k: nat)
    requires k <= |TimeItems|
    requires forall j | k <= j < |TimeItems| :: ReadTime(TimeItems[j], s) == None
    ensures FirstTime(s, k) == None
    decreases |TimeItems| - k
  {
    if k < |TimeItems| {
      FirstTimeNone(s, k + 1);
    }
  }

  /** The first accepting format decides, whatever the later ones would say. */
  lemma {:induction false} FirstTimeIsFirst(s: string, k: nat, j: nat)
    requires k <= j < |TimeItems|
    requires forall l | k <= l < j :: ReadTime(TimeItems[l], s) == None
    requires ReadTime(TimeItems[j], s).Some?
    ensures FirstTime(s, k) == ReadTime(TimeItems[j], s)
    decreases j - k
  {
    if k < j {
      FirstTimeIsFirst(s, k + 1, j);
    }
  }

  /** A 24-hour token `H:MM` or `HH:MM` is read as written, by the first format. */
  lemma TwentyFourHourTokens(hs: string, ms: string)
    requires AllDigits(hs) && 1 <= |hs| <= 2 && Value(hs) <= 23
    requires AllDigits(ms) && |ms| == 2 && Value(ms) <= 59
    ensures TimeOf(hs + [':'] + ms) == Some(Time(Value(hs), Value(ms)))
  {
    var tok := hs + [':'] + ms;
    assert tok == hs + [':'] + ms + [];
    var items := TimeItems[0];
    assert items == [Directive('H'), Lit(':'), Directive('M')] + [];
    ScanClock(tok, hs, ':', ms, [], 'H', ':', []);
    ReadTimeOfScan(items, tok);
    FirstTimeIsFirst(tok, 0, 0);
  }

  /** `%I` rejects an hour above 12, so every twelve-hour format fails on such a token. */
  lemma LateHourTwelveHourFormats(tok: string, hs: string, sep: char, ms: string, rest: string, k: nat)
    requires ClockShape(tok, hs, sep, ms, rest) && 13 <= Value(hs)
    requires 1 <= k < |TimeItems|
    ensures ReadTime(TimeItems[k], tok) == None
  {
    var items := TimeItems[k];
    assert items == [Directive('I')] + items[1..];
    assert tok[0..|hs|] == hs;
    NumberOfDigits('I', tok, 0, hs);
    ScanNumberFails('I', items[1..], tok, 0, NoFields);
    ReadTimeOfScan(items, tok);
  }

  /**
   * A token whose hour is 13 to 23 is read only by `%H:%M`: it must be exactly
   * `HH:MM`. `14:30:15`, `14.30` and `14:30 pm` all fail.
   */
  lemma LateHourTokens(tok: string, hs: string, sep: char, ms: string, rest: string)
    requires ClockShape(tok, hs, sep, ms, rest) && 13 <= Value(hs) <= 23 && Value(ms) <= 59
    ensures TimeOf(tok) == if sep == ':' && rest == [] then Some(Time(Value(hs), Value(ms))) else None
  {
    forall k | 1 <= k < |TimeItems|
      ensures ReadTime(TimeItems[k], tok) == None
    {
      LateHourTwelveHourFormats(tok, hs, sep, ms, rest, k);
    }
    if sep == ':' && rest == [] {
      assert tok == hs + [':'] + ms;
      TwentyFourHourTokens(hs, ms);
    } else {
        var items := TimeItems[0];
      assert items == [Directive('H'), Lit(':'), Directive('M')] + [];
      ScanClock(tok, hs, sep, ms, rest, 'H', ':', []);
      ReadTimeOfScan(items, tok);
      FirstTimeNone(tok, 0);
    }
  }

  /** Every entry of the table is an hour directive, a separator literal, `%M`, then the rest. */
  lemma ClockItems(k: nat) returns (hd: char, c: char, tail: seq<Item>)
    requires k < |TimeItems|
    ensures TimeItems[k] == [Directive(hd)] + ([Lit(c)] + ([Directive('M')] + tail))
    ensures hd == 'H' || hd == 'I'
  {
    hd := TimeItems[k][0].d;
    c := TimeItems[k][1].c;
    tail := TimeItems[k][3..];
    if k == 0 {
      assert TimeItems[0] == [Directive('H')] + ([Lit(':')] + ([Directive('M')] + []));
    } else if k == 1 {
      assert TimeItems[1] == [Directive('I')] + ([Lit(':')] + ([Directive('M')] + [Space, Directive('p')]));
    } else if k == 2 {
      assert TimeItems[2] == [Directive('I')] + ([Lit(':')] + ([Directive('M')] + [Directive('p')]));
    } else if k == 3 {
      assert TimeItems[3] == [Directive('I')] + ([Lit('.')] + ([Directive('M')] + [Space, Directive('p')]));
    } else if k == 4 {
      assert TimeItems[4] == [Directive('I')] + ([Lit('.')] + ([Directive('M')] + [Directive('p')]));
    } else {
      assert TimeItems[5] == [Directive('I')] + ([Lit(':')] + ([Directive('M')] + []));
    }
  }

  /** Two minute digits above 59 are no `%M` number. */
  lemma MinutesOutOfRange(tok: string, hs: string, sep: char, ms: string, rest: string)
    requires ClockShape(tok, hs, sep, ms, rest) && Value(ms) > 59
    ensures Number('M', tok, |hs| + 1) == None
  {
    var L := |hs|;
    assert tok[L + 1..L + 3] == ms;
    assert L + 3 < |tok| ==> tok[L + 3] == rest[0];
    NumberOfDigits('M', tok, L + 1, ms);
  }

  /** `%M` refuses two digits above 59 right after the separator. */
  lemma MinutesRefused(tok: string, hs: string, sep: char, ms: string, rest: string, f: Fields, tail: seq<Item>)
    requires ClockShape(tok, hs, sep, ms, rest) && Value(ms) > 59 && InRange(f)
    ensures Scan([Directive('M')] + tail, tok, |hs| + 1, f) == None
  {
    MinutesOutOfRange(tok, hs, sep, ms, rest);
    ScanNumberFails('M', tail, tok, |hs| + 1, f);
  }

  /** Whatever the hour and separator items do, the minutes stop the scan. */
  lemma ClockRefused(tok: string, hs: string, sep: char, ms: string, rest: string, hd: char, c: char, tail: seq<Item>)
    requires ClockShape(tok, hs, sep, ms, rest) && Value(ms) > 59
    requires hd == 'H' || hd == 'I'
    ensures Scan([Directive(hd)] + ([Lit(c)] + ([Directive('M')] + tail)), tok, 0, NoFields) == None
  {
    var after := [Lit(c)] + ([Directive('M')] + tail);
    assert tok[0..|hs|] == hs;
    NumberOfDigits(hd, tok, 0, hs);
    if Number(hd, tok, 0).None? {
      ScanNumberFails(hd, after, tok, 0, NoFields);
    } else {
      var f1 := Store(NoFields, hd, Value(hs));
      ScanHour(tok, hs, sep, ms, rest, hd, after);
      ScanSeparator(tok, hs, sep, ms, rest, f1, c, [Directive('M')] + tail);
      if c == sep {
        MinutesRefused(tok, hs, sep, ms, rest, f1, tail);
      }
    }
  }

  /** Minutes above 59 fail every format, whatever the hour and separator. */
  lemma BadMinutesFormat(tok: string, hs: string, sep: char, ms: string, rest: string, k: nat)
    requires ClockShape(tok, hs, sep, ms, rest) && Value(ms) > 59
    requires k < |TimeItems|
    ensures ReadTime(TimeItems[k], tok) == None
  {
    var hd, c, tail := ClockItems(k);
    ClockRefused(tok, hs, sep, ms, rest, hd, c, tail);
    ReadTimeOfScan(TimeItems[k], tok);
  }

  lemma BadMinutesTokens(tok: string, hs: string, sep: char, ms: string, rest: string)
    requires ClockShape(tok, hs, sep, ms, rest) && Value(ms) > 59
    ensures TimeOf(tok) == None
  {
    forall k | 0 <= k < |TimeItems|
      ensures ReadTime(TimeItems[k], tok) == None
    {
      BadMinutesFormat(tok, hs, sep, ms, rest, k);
    }
    FirstTimeNone(tok, 0);
  }

  /** What any format may still expect after the minutes cannot start at a colon. */
  lemma ColonAfterMinutes(tok: string, p: nat, f: Fields, tail: seq<Item>)
    requires p < |tok| && tok[p] == ':' && InRange(f)
    requires tail == [] || tail == [Directive('p')] || tail == [Space, Directive('p')]
    ensures Scan(tail, tok, p, f) == None
  {
    assert !IsSpace(':');
    if tail == [Space, Directive('p')] {
      ScanSpaceStep([Directive('p')], tok, p, f);
    }
  }

  /** One format against a token whose minutes are followed by `:`. */
  lemma SecondsFormat(tok: string, hs: string, sep: char, ms: string, rest: string, k: nat)
    requires ClockShape(tok, hs, sep, ms, rest) && rest != [] && rest[0] == ':'
    requires k < |TimeItems|
    ensures ReadTime(TimeItems[k], tok) == None
  {
    var items := TimeItems[k];
    var hd := items[0].d;
    var c := items[1].c;
    var tail := items[3..];
    assert items == [Directive(hd), Lit(c), Directive('M')] + tail;
    assert tok[0..|hs|] == hs && tok[|hs|] == sep;
    NumberOfDigits(hd, tok, 0, hs);
    if Value(hs) == 0 {
      TwelveHourRejectsZero(tok, 0, hs);
    }
    if Value(ms) > 59 {
      BadMinutesFormat(tok, hs, sep, ms, rest, k);
    } else if Number(hd, tok, 0).None? {
      ScanNumberFails(hd, items[1..], tok, 0, NoFields);
      ReadTimeOfScan(items, tok);
    } else {
      ScanClock(tok, hs, sep, ms, rest, hd, c, tail);
      if c == sep {
        var f := Store(Store(NoFields, hd, Value(hs)), 'M', Value(ms));
        assert tok[|hs| + 3] == rest[0];
        ColonAfterMinutes(tok, |hs| + 3, f, tail);
      }
      ReadTimeOfScan(items, tok);
    }
  }

  /**
   * A token with seconds (`10:30:15`, `2:30:15 pm`) is read by no format:
   * none of them has a place for seconds, so `convert_to_24hr` raises.
   */
  lemma SecondsTokens(tok: string, hs: string, sep: char, ms: string, rest: string)
    requires ClockShape(tok, hs, sep, ms, rest) && rest != [] && rest[0] == ':'
    ensures TimeOf(tok) == None
  {
    forall k | 0 <= k < |TimeItems|
      ensures ReadTime(TimeItems[k], tok) == None
    {
      SecondsFormat(tok, hs, sep, ms, rest, k);
    }
    FirstTimeNone(tok, 0);
  }

  /**
   * The last format, `%I:%M`, never decides a token that starts with a digit:
   * whenever it accepts, `%H:%M` has already accepted.
   */
  lemma LastFormatIsDead(tok: string)
    requires tok != [] && IsDigit(tok[0])
    ensures ReadTime(TimeItems[5], tok).Some? ==> ReadTime(TimeItems[0], tok).Some?
  {
    var twelve := TimeItems[5];
    var tf := TimeItems[0];
    var tail := [Lit(':'), Directive('M')];
    assert twelve == [Directive('I')] + tail && tf == [Directive('H')] + tail;
    ReadTimeOfScan(twelve, tok);
    ReadTimeOfScan(tf, tok);
    TwelveHourReadIsHourRead(tok, 0);
    match Number('I', tok, 0)
    case None =>
      ScanNumberFails('I', tail, tok, 0, NoFields);
    case Some((v, j)) =>
      ScanNumberStep('I', tail, tok, 0, NoFields, v, j);
      ScanNumberStep('H', tail, tok, 0, NoFields, v, j);
      ScanSuccessIgnoresFields(tail, tok, j, Store(NoFields, 'I', v), Store(NoFields, 'H', v));
      var f := Scan(tf, tok, 0, NoFields);
      if f.Some? {
        assert ReadTime(TimeItems[0], tok).Some?;
      }
  }

  /** Twenty-four-hour tokens as they appear in exported chats. */
  lemma TwentyFourHourExamples()
    ensures TimeOf("14:30") == Some(Time(14, 30))
    ensures TimeOf("9:05") == Some(Time(9, 5))
  {
    assert Value("14") == 14 && Value("30") == 30 && Value("05") == 5 && Value("9") == 9 by {
      assert "14"[..1] == "1" && "30"[..1] == "3" && "05"[..1] == "0" && "9"[..0] == [];
    }
    assert "14:30" == "14" + [':'] + "30";
    TwentyFourHourTokens("14", "30");
    assert "9:05" == "9" + [':'] + "05";
    TwentyFourHourTokens("9", "05");
  }

  /** A twelve-hour token with a space before `pm`. */
  lemma SpacedMeridiemExample()
    ensures TimeOf("2:30 pm") == Some(Time(14, 30))
  {
    assert Value("2") == 2 && Value("30") == 30 by {
      assert "2"[..0] == [] && "30"[..1] == "3";
    }
    assert "2:30 pm" == "2" + [':'] + "30" + " " + ['p', 'm'];
    TwelveHourTokens("2", ':', "30", " ", 'p', 'm');
  }

  /** A twelve-hour token with a dot and no space. */
  lemma DottedMeridiemExample()
    ensures TimeOf("2.30pm") == Some(Time(14, 30))
  {
    assert Value("2") == 2 && Value("30") == 30 by {
      assert "2"[..0] == [] && "30"[..1] == "3";
    }
    assert "2.30pm" == "2" + ['.'] + "30" + "" + ['p', 'm'];
    TwelveHourTokens("2", '.', "30", "", 'p', 'm');
  }

  /** Twelve o'clock with AM is midnight. */
  lemma MidnightExample()
    ensures TimeOf("12:00 AM") == Some(Time(0, 0))
  {
    assert Value("12") == 12 && Value("00") == 0 by {
      assert "12"[..1] == "1" && "00"[..1] == "0";
    }
    assert "12:00 AM" == "12" + [':'] + "00" + " " + ['A', 'M'];
    TwelveHourTokens("12", ':', "00", " ", 'A', 'M');
  }

  /** Twelve o'clock with PM is noon. */
  lemma NoonExample()
    ensures TimeOf("12:00 PM") == Some(Time(12, 0))
  {
    assert Value("12") == 12 && Value("00") == 0 by {
      assert "12"[..1] == "1" && "00"[..1] == "0";
    }
    assert "12:00 PM" == "12" + [':'] + "00" + " " + ['P', 'M'];
    TwelveHourTokens("12", ':', "00", " ", 'P', 'M');
  }

  /** A token with seconds is rejected with ValueError. */
  lemma SecondsRejectedExample()
    ensures TimeOf("14:30:15") == None
  {
    assert Value("14") == 14 && Value("30") == 30 by {
      assert "14"[..1] == "1" && "30"[..1] == "3";
    }
    assert "14:30:15" == "14" + [':'] + "30" + ":15";
    LateHourTokens("14:30:15", "14", ':', "30", ":15");
  }

  /** An afternoon hour with a meridiem is rejected: `%I` stops at 12. */
  lemma LateMeridiemRejectedExample()
    ensures TimeOf("14:30 pm") == None
  {
    assert Value("14") == 14 && Value("30") == 30 by {
      assert "14"[..1] == "1" && "30"[..1] == "3";
    }
    assert "14:30 pm" == "14" + [':'] + "30" + " pm";
    LateHourTokens("14:30 pm", "14", ':', "30", " pm");
  }

  /** Minute 60 is rejected. */
  lemma MinuteSixtyRejectedExample()
    ensures TimeOf("23:60") == None
  {
    assert Value("60") == 60 by {
      assert "60"[..1] == "6";
    }
    assert "23:60" == "23" + [':'] + "60" + "";
    BadMinutesTokens("23:60", "23", ':', "60", "");
  }
}
