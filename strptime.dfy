/**
 * `datetime.strptime` (and the per-element parser behind `pd.to_datetime`
 * with an explicit format) for the directives the analyzer's format tables
 * use: %d %m %y %Y %H %I %M %p. A format string is compiled as Python's
 * `_strptime` compiles it into a regular expression: `%x` is a directive,
 * a run of whitespace stands for `\s+`, every other character stands for
 * itself; the whole input must be consumed. Each directive reads what its
 * regular expression accepts; in every format used here a directive is
 * followed by a non-digit or by the end, so the regular expression's
 * backtracking never chooses differently from the reading below.
 */
module Strptime {
  import opened Wrappers
  import opened Text
  import opened Calendar

  /** A time of day at minute resolution (`datetime.time` without seconds). */
  datatype Time = Time(hour: int, minute: int)

  predicate ValidTime(t: Time) {
    0 <= t.hour <= 23 && 0 <= t.minute <= 59
  }

  /** One element of a compiled format. */
  datatype Item = Lit(c: char) | Space | Directive(d: char)

  function Compile(fmt: string): seq<Item>
    decreases |fmt|
  {
    if fmt == [] then []
    else if fmt[0] == '%' && |fmt| >= 2 then [Directive(fmt[1])] + Compile(fmt[2..])
    else if IsSpace(fmt[0]) then [Space] + Compile(fmt[SpaceRun(fmt, 0)..])
    else [Lit(fmt[0])] + Compile(fmt[1..])
  }

  /** `%x` compiles to a directive. */
  lemma CompileDirective(x: char, rest: string)
    ensures Compile(['%', x] + rest) == [Directive(x)] + Compile(rest)
  {
    assert (['%', x] + rest)[2..] == rest;
  }

  /** Any other character that is not whitespace compiles to itself. */
  lemma CompileLiteral(c: char, rest: string)
    requires c != '%' && !IsSpace(c)
    ensures Compile([c] + rest) == [Lit(c)] + Compile(rest)
  {
    assert ([c] + rest)[1..] == rest;
  }

  /** The values read so far, one slot per directive (`%p` as "is pm"). */
  datatype Fields = Fields(year: Option<int>, month: Option<int>, day: Option<int>,
                           hour24: Option<int>, hour12: Option<int>, minute: Option<int>,
                           pm: Option<bool>)

  const NoFields := Fields(None, None, None, None, None, None, None)

  /** Every value present lies in the range its directive's regular expression admits. */
  predicate InRange(f: Fields) {
    (f.month.Some? ==> 1 <= f.month.value <= 12) && (f.day.Some? ==> 1 <= f.day.value <= 31)
    && (f.hour24.Some? ==> 0 <= f.hour24.value <= 23) && (f.hour12.Some? ==> 1 <= f.hour12.value <= 12)
    && (f.minute.Some? ==> 0 <= f.minute.value <= 59)
  }

  /**
   * The number directive `d` reads at position `i`, and where it stops:
   *   %d  3[01]|[12]\d|0[1-9]|[1-9]| [1-9]     %m  1[0-2]|0[1-9]|[1-9]
   *   %y  \d\d (00-68 is 20xx, 69-99 is 19xx)  %Y  \d\d\d\d
   *   %H  2[0-3]|[0-1]\d|\d                    %I  1[0-2]|0[1-9]|[1-9]| [1-9]
   *   %M  [0-5]\d|\d
   * A run of more digits than the directive takes leaves a digit where a
   * non-digit must follow, so it fails. Any other directive fails.
   */
  function Number(d: char, s: string, i: nat): (r: Option<(int, nat)>)
    requires i <= |s|
    ensures r.Some? ==> i < r.value.1 <= |s| && InDirectiveRange(d, r.value.0)
  {
    var n := DigitRun(s, i);
    assert n == 1 ==> s[i..i + n][..0] == [];
    var v := Value(s[i..i + n]);
    var spaced := n == 0 && i + 1 < |s| && s[i] == ' ' && '1' <= s[i + 1] <= '9';
    if d == 'd' then
      if n == 2 && 1 <= v <= 31 then Some((v, i + 2))
      else if n == 1 && v >= 1 then Some((v, i + 1))
      else if spaced then Some((DigitValue(s[i + 1]), i + 2))
      else None
    else if d == 'm' then
      if (n == 2 && 1 <= v <= 12) || (n == 1 && v >= 1) then Some((v, i + n)) else None
    else if d == 'y' then
      if n == 2 then Some((CenturyPivot(v), i + 2)) else None
    else if d == 'Y' then
      if n == 4 then Some((v, i + 4)) else None
    else if d == 'H' then
      if (n == 2 && v <= 23) || n == 1 then Some((v, i + n)) else None
    else if d == 'I' then
      if n == 2 && 1 <= v <= 12 then Some((v, i + 2))
      else if n == 1 && v >= 1 then Some((v, i + 1))
      else if spaced then Some((DigitValue(s[i + 1]), i + 2))
      else None
    else if d == 'M' then
      if (n == 2 && v <= 59) || n == 1 then Some((v, i + n)) else None
    else None
  }

  /** The year `%y` names: 00-68 are 2000-2068, 69-99 are 1969-1999. */
  function CenturyPivot(v: int): int {
    if v <= 68 then 2000 + v else 1900 + v
  }

  /**
   * The value directive `d` takes from a whole run of digits `ds` (one that a
   * non-digit or the end follows), or None where the run does not fit.
   */
  function FieldValue(d: char, ds: string): (r: Option<int>)
    requires AllDigits(ds) && |ds| >= 1
    ensures r.Some? ==> InDirectiveRange(d, r.value)
  {
    var v := Value(ds);
    var n := |ds|;
    if d == 'd' then (if n <= 2 && 1 <= v <= 31 then Some(v) else None)
    else if d == 'm' then (if n <= 2 && 1 <= v <= 12 then Some(v) else None)
    else if d == 'y' then (if n == 2 then Some(CenturyPivot(v)) else None)
    else if d == 'Y' then (if n == 4 then Some(v) else None)
    else if d == 'H' then (if n <= 2 && v <= 23 then Some(v) else None)
    else if d == 'I' then (if n <= 2 && 1 <= v <= 12 then Some(v) else None)
    else if d == 'M' then (if n <= 2 && v <= 59 then Some(v) else None)
    else None
  }

  /** A directive at a whole run of digits reads exactly `FieldValue` and stops after the run. */
  lemma NumberOfRun(d: char, s: string, i: nat, ds: string)
    requires i + |ds| <= |s| && s[i..i + |ds|] == ds
    requires AllDigits(ds) && 1 <= |ds|
    requires i + |ds| < |s| ==> !IsDigit(s[i + |ds|])
    ensures Number(d, s, i) == match FieldValue(d, ds)
                               case None => None
                               case Some(v) => Some((v, i + |ds|))
  {
    RunOfDigits(s, i, ds);
    if |ds| == 1 {
      assert ds[..0] == [];
    }
  }

  /** The digit run at `i` is exactly `ds` when `ds` sits there and a non-digit or the end follows. */
  lemma RunOfDigits(s: string, i: nat, ds: string)
    requires i + |ds| <= |s| && s[i..i + |ds|] == ds
    requires AllDigits(ds)
    requires i + |ds| < |s| ==> !IsDigit(s[i + |ds|])
    ensures DigitRun(s, i) == |ds|
  {
    forall k | i <= k < i + |ds| ensures IsDigit(s[k]) {
      assert s[k] == ds[k - i];
    }
    DigitRunIs(s, i, |ds|);
  }

  /** A directive at the head of the items reads a whole run of digits, or fails the scan. */
  lemma ScanField(d: char, tail: seq<Item>, s: string, i: nat, ds: string, f: Fields)
    requires i + |ds| <= |s| && s[i..i + |ds|] == ds
    requires AllDigits(ds) && 1 <= |ds|
    requires i + |ds| < |s| ==> !IsDigit(s[i + |ds|])
    requires InRange(f) && d != 'p'
    ensures Scan([Directive(d)] + tail, s, i, f) == match FieldValue(d, ds)
                                                   case None => None
                                                   case Some(v) => Scan(tail, s, i + |ds|, Store(f, d, v))
  {
    NumberOfRun(d, s, i, ds);
    match FieldValue(d, ds)
    case None =>
      ScanNumberFails(d, tail, s, i, f);
    case Some(v) =>
      ScanNumberStep(d, tail, s, i, f, v, i + |ds|);
  }

  /** A literal at the head of the items matches one equal character. */
  lemma ScanLiteral(c: char, tail: seq<Item>, s: string, i: nat, f: Fields)
    requires i <= |s| && InRange(f)
    ensures Scan([Lit(c)] + tail, s, i, f) == if i < |s| && s[i] == c then Scan(tail, s, i + 1, f) else None
  {
    assert ([Lit(c)] + tail)[1..] == tail;
  }

  /** What the clock directives read from a run of one or two digits. */
  lemma NumberOfDigits(d: char, s: string, i: nat, ds: string)
    requires i + |ds| <= |s| && s[i..i + |ds|] == ds
    requires AllDigits(ds) && 1 <= |ds| <= 2
    requires i + |ds| < |s| ==> !IsDigit(s[i + |ds|])
    ensures d == 'H' && Value(ds) <= 23 ==> Number(d, s, i) == Some((Value(ds), i + |ds|))
    ensures d == 'H' && Value(ds) > 23 ==> Number(d, s, i) == None
    ensures d == 'I' && 1 <= Value(ds) <= 12 ==> Number(d, s, i) == Some((Value(ds), i + |ds|))
    ensures d == 'I' && Value(ds) > 12 ==> Number(d, s, i) == None
    ensures d == 'M' && Value(ds) <= 59 ==> Number(d, s, i) == Some((Value(ds), i + |ds|))
    ensures d == 'M' && Value(ds) > 59 ==> Number(d, s, i) == None
  {
    NumberOfRun(d, s, i, ds);
    var v := Value(ds);
    if d == 'H' {
      assert FieldValue(d, ds) == if v <= 23 then Some(v) else None;
    } else if d == 'I' {
      assert FieldValue(d, ds) == if 1 <= v <= 12 then Some(v) else None;
    } else if d == 'M' {
      assert FieldValue(d, ds) == if v <= 59 then Some(v) else None;
    }
  }

  /** `%I` reads no hour 0, whether written `0` or `00`. */
  lemma TwelveHourRejectsZero(s: string, i: nat, ds: string)
    requires i + |ds| <= |s| && s[i..i + |ds|] == ds
    requires AllDigits(ds) && 1 <= |ds| <= 2 && Value(ds) == 0
    requires i + |ds| < |s| ==> !IsDigit(s[i + |ds|])
    ensures Number('I', s, i) == None
  {
    NumberOfRun('I', s, i, ds);
  }

  /** The range a value read by directive `d` lies in. */
  predicate InDirectiveRange(d: char, v: int) {
    (d == 'd' ==> 1 <= v <= 31) && (d == 'm' ==> 1 <= v <= 12) && (d == 'H' ==> 0 <= v <= 23)
    && (d == 'I' ==> 1 <= v <= 12) && (d == 'M' ==> 0 <= v <= 59)
  }

  function Store(f: Fields, d: char, v: int): (g: Fields)
    requires InRange(f) && InDirectiveRange(d, v)
    ensures InRange(g)
  {
    if d == 'd' then f.(day := Some(v))
    else if d == 'm' then f.(month := Some(v))
    else if d == 'y' || d == 'Y' then f.(year := Some(v))
    else if d == 'H' then f.(hour24 := Some(v))
    else if d == 'I' then f.(hour12 := Some(v))
    else if d == 'M' then f.(minute := Some(v))
    else f
  }

  predicate IsAmPmFirst(c: char) {
    c == 'a' || c == 'A' || c == 'p' || c == 'P'
  }

  predicate IsAmPmSecond(c: char) {
    c == 'm' || c == 'M'
  }

  /** Match the compiled items against `s[i..]`; the input must be used up. */
  function Scan(items: seq<Item>, s: string, i: nat, f: Fields): (r: Option<Fields>)
    requires i <= |s|
    requires InRange(f)
    ensures r.Some? ==> InRange(r.value)
    decreases |items|
  {
    if items == [] then (if i == |s| then Some(f) else None)
    else match items[0]
      case Lit(c) =>
        if i < |s| && s[i] == c then Scan(items[1..], s, i + 1, f) else None
      case Space =>
        var n := SpaceRun(s, i);
        if n == 0 then None else Scan(items[1..], s, i + n, f)
      case Directive(d) =>
        if d == 'p' then
          if i + 1 < |s| && IsAmPmFirst(s[i]) && IsAmPmSecond(s[i + 1])
          then Scan(items[1..], s, i + 2, f.(pm := Some(s[i] == 'p' || s[i] == 'P')))
          else None
        else
          match Number(d, s, i)
          case None => None
          case Some((v, j)) =>
            Scan(items[1..], s, j, Store(f, d, v))
  }

  /** One number directive read at the head of the items. */
  lemma ScanNumberStep(d: char, tail: seq<Item>, s: string, i: nat, f: Fields, v: int, j: nat)
    requires i <= |s| && InRange(f) && d != 'p'
    requires Number(d, s, i) == Some((v, j))
    ensures Scan([Directive(d)] + tail, s, i, f) == Scan(tail, s, j, Store(f, d, v))
  {
    assert ([Directive(d)] + tail)[1..] == tail;
  }

  /** `%p` at the head of the items reads two letters. */
  lemma ScanMeridiemStep(tail: seq<Item>, s: string, i: nat, f: Fields)
    requires i + 1 < |s| && InRange(f) && IsAmPmFirst(s[i]) && IsAmPmSecond(s[i + 1])
    ensures Scan([Directive('p')] + tail, s, i, f) == Scan(tail, s, i + 2, f.(pm := Some(s[i] == 'p' || s[i] == 'P')))
  {
    assert ([Directive('p')] + tail)[1..] == tail;
  }

  /** A space item at the head of the items reads the whole run of whitespace, and at least one character. */
  lemma ScanSpaceStep(tail: seq<Item>, s: string, i: nat, f: Fields)
    requires i <= |s| && InRange(f)
    ensures Scan([Space] + tail, s, i, f) == if SpaceRun(s, i) == 0 then None else Scan(tail, s, i + SpaceRun(s, i), f)
  {
    assert ([Space] + tail)[1..] == tail;
  }

  /** A number directive that fails at the head of the items fails the whole scan. */
  lemma ScanNumberFails(d: char, tail: seq<Item>, s: string, i: nat, f: Fields)
    requires i <= |s| && InRange(f) && d != 'p'
    requires Number(d, s, i) == None
    ensures Scan([Directive(d)] + tail, s, i, f) == None
  {
    assert ([Directive(d)] + tail)[0] == Directive(d);
  }

  /** On a digit, `%I` reads nothing `%H` would not read the same way. */
  lemma TwelveHourReadIsHourRead(s: string, i: nat)
    requires i < |s| && IsDigit(s[i])
    ensures Number('I', s, i).Some? ==> Number('H', s, i) == Number('I', s, i)
  {
    assert DigitRun(s, i) >= 1;
  }

  /**
   * Whether a scan succeeds depends only on the items and the text, not on the
   * fields collected so far (the fields only record what was read).
   */
  lemma {:induction false} ScanSuccessIgnoresFields(items: seq<Item>, s: string, i: nat, f: Fields, g: Fields)
    requires i <= |s| && InRange(f) && InRange(g)
    ensures Scan(items, s, i, f).Some? == Scan(items, s, i, g).Some?
    decreases |items|, 1
  {
    if items != [] {
      match items[0]
      case Lit(c) =>
        if i < |s| && s[i] == c {
          ScanSuccessIgnoresFields(items[1..], s, i + 1, f, g);
        }
      case Space =>
        var n := SpaceRun(s, i);
        if n != 0 {
          ScanSuccessIgnoresFields(items[1..], s, i + n, f, g);
        }
      case Directive(d) =>
        if d == 'p' {
          if i + 1 < |s| && IsAmPmFirst(s[i]) && IsAmPmSecond(s[i + 1]) {
            var pm := Some(s[i] == 'p' || s[i] == 'P');
            ScanSuccessIgnoresFields(items[1..], s, i + 2, f.(pm := pm), g.(pm := pm));
          }
        } else {
          NumberIgnoresFields(d, items[1..], s, i, f, g);
          assert items == [Directive(d)] + items[1..];
        }
    }
  }

  /** The number directive case of `ScanSuccessIgnoresFields`. */
  lemma {:induction false} NumberIgnoresFields(d: char, tail: seq<Item>, s: string, i: nat, f: Fields, g: Fields)
    requires i <= |s| && InRange(f) && InRange(g) && d != 'p'
    ensures Scan([Directive(d)] + tail, s, i, f).Some? == Scan([Directive(d)] + tail, s, i, g).Some?
    decreases |tail| + 1, 0
  {
    match Number(d, s, i)
    case None =>
      ScanNumberFails(d, tail, s, i, f);
      ScanNumberFails(d, tail, s, i, g);
    case Some((v, j)) =>
      ScanNumberStep(d, tail, s, i, f, v, j);
      ScanNumberStep(d, tail, s, i, g, v, j);
      ScanSuccessIgnoresFields(tail, s, j, Store(f, d, v), Store(g, d, v));
  }



  /** The hour `_strptime` builds: %H as read; %I with no %p or with am maps 12 to 0; with pm adds 12 except to 12. */
  function Hour(f: Fields): (h: int)
    requires InRange(f)
    ensures 0 <= h <= 23
  {
    match f.hour24
    case Some(h) => h
    case None =>
      match f.hour12
      case None => 0
      case Some(h) =>
        if f.pm == Some(true) then (if h == 12 then 12 else h + 12)
        else (if h == 12 then 0 else h)
  }

  function OrElse(o: Option<int>, default: int): int {
    match o
    case Some(v) => v
    case None => default
  }

  /** Match compiled items against the whole of `s` and build the date and time, 1900-01-01 00:00 by default. */
  function ParseItems(items: seq<Item>, s: string): (r: Option<(Date, Time)>)
    ensures r.Some? ==> ValidDate(r.value.0) && ValidTime(r.value.1)
  {
    match Scan(items, s, 0, NoFields)
    case None => None
    case Some(f) =>
      var date := Date(OrElse(f.year, 1900), OrElse(f.month, 1), OrElse(f.day, 1));
      var time := Time(Hour(f), OrElse(f.minute, 0));
      if ValidDate(date) then Some((date, time)) else None
  }

  /** `datetime.strptime(s, fmt)`: None where it raises ValueError. */
  function Parse(fmt: string, s: string): (r: Option<(Date, Time)>)
    ensures r.Some? ==> ValidDate(r.value.0) && ValidTime(r.value.1)
  {
    ParseItems(Compile(fmt), s)
  }
}
