/**
 * The date column of `preprocess`: `pd.to_datetime` is tried with eight
 * formats in turn, and the first that reads EVERY date token of the chat
 * decides how all of them are read.
 */
module DateResolution {
  import opened Wrappers
  import opened Text
  import opened Calendar
  import opened Strptime

  /** The formats `preprocess` tries, in order. */
  const DateFormats: seq<string> := ["%d/%m/%y", "%d/%m/%Y", "%m/%d/%y", "%m/%d/%Y",
                                     "%d-%m-%y", "%d-%m-%Y", "%m-%d-%y", "%m-%d-%Y"]

  /** The separator of entry `k` of the table. */
  function FormatSeparator(k: nat): char {
    if k < 4 then '/' else '-'
  }

  /** Whether entry `k` puts the day first. */
  predicate DayFirst(k: nat) {
    k % 4 < 2
  }

  /** The year directive of entry `k`: two digits or four. */
  function YearDirective(k: nat): char {
    if k % 2 == 0 then 'y' else 'Y'
  }

  /** The field entry `k` reads first, and the one it reads second. */
  function FirstField(k: nat): char {
    if DayFirst(k) then 'd' else 'm'
  }

  function SecondField(k: nat): char {
    if DayFirst(k) then 'm' else 'd'
  }

  /** The table as `_strptime` compiles it. */
  const DateItems: seq<seq<Item>> := [
    [Directive('d'), Lit('/'), Directive('m'), Lit('/'), Directive('y')],
    [Directive('d'), Lit('/'), Directive('m'), Lit('/'), Directive('Y')],
    [Directive('m'), Lit('/'), Directive('d'), Lit('/'), Directive('y')],
    [Directive('m'), Lit('/'), Directive('d'), Lit('/'), Directive('Y')],
    [Directive('d'), Lit('-'), Directive('m'), Lit('-'), Directive('y')],
    [Directive('d'), Lit('-'), Directive('m'), Lit('-'), Directive('Y')],
    [Directive('m'), Lit('-'), Directive('d'), Lit('-'), Directive('y')],
    [Directive('m'), Lit('-'), Directive('d'), Lit('-'), Directive('Y')]
  ]

  /** Entry `k` of the compiled table: first field, separator, second field, separator, year. */
  lemma DateItemsShape(k: nat)
    requires k < |DateItems|
    ensures DateItems[k] == [Directive(FirstField(k)), Lit(FormatSeparator(k)), Directive(SecondField(k)),
                             Lit(FormatSeparator(k)), Directive(YearDirective(k))]
  {
    if k == 0 {} else if k == 1 {} else if k == 2 {} else if k == 3 {}
    else if k == 4 {} else if k == 5 {} else if k == 6 {} else {}
  }

  /**
   * The instants a pandas `Timestamp` (nanoseconds in a signed 64-bit
   * integer) can hold, at midnight: 1677-09-22 to 2262-04-11.
   */
  predicate InTimestampRange(d: Date) {
    !DateBefore(d, Date(1677, 9, 22)) && !DateBefore(Date(2262, 4, 11), d)
  }

  /** One token read with compiled items; None where pandas raises ValueError. */
  function ReadDate(items: seq<Item>, tok: string): (r: Option<Date>)
    ensures r.Some? ==> ValidDate(r.value) && InTimestampRange(r.value)
  {
    match ParseItems(items, tok)
    case None => None
    case Some(p) => if InTimestampRange(p.0) then Some(p.0) else None
  }

  /** A whole column read with compiled items: every token must be read. */
  function ReadColumn(items: seq<Item>, toks: seq<string>): (r: Option<seq<Date>>)
    ensures r.Some? ==> |r.value| == |toks|
    decreases |toks|
  {
    if toks == [] then Some([])
    else
      match ReadDate(items, toks[0])
      case None => None
      case Some(d) =>
        match ReadColumn(items, toks[1..])
        case None => None
        case Some(ds) => Some([d] + ds)
  }

  /**
   * A column is read exactly when every token is, and then each date is the
   * reading of its own token, in the same order.
   */
  lemma {:induction false} ReadColumnSpec(items: seq<Item>, toks: seq<string>)
    ensures ReadColumn(items, toks).Some? <==> forall i :: 0 <= i < |toks| ==> ReadDate(items, toks[i]).Some?
    ensures ReadColumn(items, toks).Some? ==>
              forall i :: 0 <= i < |toks| ==> ReadDate(items, toks[i]) == Some(ReadColumn(items, toks).value[i])
    decreases |toks|
  {
    if toks != [] {
      ReadColumnSpec(items, toks[1..]);
      assert forall i :: 1 <= i < |toks| ==> toks[i] == toks[1..][i - 1];
    }
  }

  /** `pd.to_datetime(column, format=fmt)`; None where it raises ValueError. */
  function ToDatetime(fmt: string, toks: seq<string>): Option<seq<Date>> {
    ReadColumn(Compile(fmt), toks)
  }

  /** The reading of the first entry, from `k` on, that reads the whole column. */
  function FirstFormat(toks: seq<string>, k: nat): (r: Option<seq<Date>>)
    requires k <= |DateFormats|
    ensures r.Some? ==> |r.value| == |toks|
    decreases |DateFormats| - k
  {
    if k == |DateFormats| then None
    else
      match ReadColumn(DateItems[k], toks)
      case Some(ds) => Some(ds)
      case None => FirstFormat(toks, k + 1)
  }

  /** The converted date column; None where the column stays text and `.dt` later raises. */
  function ResolveDates(toks: seq<string>): (r: Option<seq<Date>>)
    ensures r.Some? ==> |r.value| == |toks|
  {
    FirstFormat(toks, 0)
  }

  method ResolveDateColumn(dates: seq<string>) returns (r: Option<seq<Date>>)
    ensures r == ResolveDates(dates)
    ensures r.Some? ==> |r.value| == |dates|
  {
    var formats := ["%d/%m/%y", "%d/%m/%Y", "%m/%d/%y", "%m/%d/%Y",
                    "%d-%m-%y", "%d-%m-%Y", "%m-%d-%y", "%m-%d-%Y"];
    assert formats == DateFormats;
    r := None;
    for k := 0 to |formats|
      invariant ResolveDates(dates) == FirstFormat(dates, k)
      invariant r == None
    {
      CompiledDateFormat(k);
      r := ToDatetime(formats[k], dates);
      if r.Some? {
        return;
      }
    }
  }

  /** `%a<sep>%b<sep><year>` compiles to five items. */
  lemma CompileDateFormat(a: char, sep: char, b: char, yd: char)
    requires sep == '/' || sep == '-'
    requires yd == 'y' || yd == 'Y'
    ensures Compile(['%', a, sep, '%', b, sep, '%', yd])
         == [Directive(a), Lit(sep), Directive(b), Lit(sep), Directive(yd)]
  {
    var empty: string := [];
    assert Compile(empty) == [];
    CompileDirective(yd, empty);
    assert ['%', yd] + empty == ['%', yd];
    CompileLiteral(sep, ['%', yd]);
    var tail := [sep, '%', yd];
    assert [sep] + ['%', yd] == tail;
    CompileDirective(b, tail);
    assert ['%', b] + tail == ['%', b, sep, '%', yd];
    CompileLiteral(sep, ['%', b, sep, '%', yd]);
    assert [sep] + ['%', b, sep, '%', yd] == [sep, '%', b, sep, '%', yd];
    CompileDirective(a, [sep, '%', b, sep, '%', yd]);
    assert ['%', a] + [sep, '%', b, sep, '%', yd] == ['%', a, sep, '%', b, sep, '%', yd];
  }

  /** Each format of the table compiles to `DateItems`, so pandas reads the column as `ReadColumn` does. */
  lemma CompiledDateFormat(k: nat)
    requires k < |DateFormats|
    ensures Compile(DateFormats[k]) == DateItems[k]
    ensures forall toks :: ToDatetime(DateFormats[k], toks) == ReadColumn(DateItems[k], toks)
  {
    var sep := FormatSeparator(k);
    assert DateFormats[k] == ['%', FirstField(k), sep, '%', SecondField(k), sep, '%', YearDirective(k)];
    CompileDateFormat(FirstField(k), sep, SecondField(k), YearDirective(k));
    DateItemsShape(k);
  }

  /** The first entry that reads the whole column decides, whatever later entries would say. */
  lemma {:induction false} FirstFormatIsFirst(toks: seq<string>, k: nat, j: nat)
    requires k <= j < |DateFormats|
    requires forall l | k <= l < j :: ReadColumn(DateItems[l], toks).None?
    requires ReadColumn(DateItems[j], toks).Some?
    ensures FirstFormat(toks, k) == ReadColumn(DateItems[j], toks)
    decreases j - k
  {
    if k < j {
      FirstFormatIsFirst(toks, k + 1, j);
    }
  }

  /** The column stays text exactly when no entry reads all of it. */
  lemma {:induction false} FirstFormatNone(toks: seq<string>, k: nat)
    requires k <= |DateFormats|
    ensures FirstFormat(toks, k).None? <==> forall l | k <= l < |DateFormats| :: ReadColumn(DateItems[l], toks).None?
    decreases |DateFormats| - k
  {
    if k < |DateFormats| {
      FirstFormatNone(toks, k + 1);
      if ReadColumn(DateItems[k], toks).None? {
        assert FirstFormat(toks, k) == FirstFormat(toks, k + 1);
      } else {
        assert FirstFormat(toks, k).Some?;
      }
    }
  }

  /**
   * A resolved column is read by ONE entry of the table: some entry reads every
   * token to the date returned for it, and every earlier entry fails on some token.
   */
  lemma {:induction false} ResolvedByOneFormat(toks: seq<string>, k: nat) returns (j: nat)
    requires k <= |DateFormats|
    requires FirstFormat(toks, k).Some?
    ensures k <= j < |DateFormats| && ReadColumn(DateItems[j], toks) == FirstFormat(toks, k)
    ensures forall l | k <= l < j :: ReadColumn(DateItems[l], toks).None?
    decreases |DateFormats| - k
  {
    if ReadColumn(DateItems[k], toks).Some? {
      j := k;
    } else {
      j := ResolvedByOneFormat(toks, k + 1);
    }
  }

  /** Every resolved date is a real calendar day that a pandas timestamp can hold. */
  lemma ResolvedDatesValid(toks: seq<string>)
    requires ResolveDates(toks).Some?
    ensures forall i | 0 <= i < |toks| ::
              ValidDate(ResolveDates(toks).value[i]) && InTimestampRange(ResolveDates(toks).value[i])
  {
    var j := ResolvedByOneFormat(toks, 0);
    ReadColumnSpec(DateItems[j], toks);
  }

  /** A chat with no date tokens resolves to an empty column, by the first entry. */
  lemma EmptyColumn()
    ensures ResolveDates([]) == Some([])
  {
  }

  /**
   * A date token as the chat-line pattern captures it: one or two digits, a
   * separator, one or two digits, a separator, two to four digits.
   */
  predicate DateShape(tok: string, f1: string, s1: char, f2: string, s2: char, f3: string) {
    tok == f1 + [s1] + f2 + [s2] + f3
    && AllDigits(f1) && AllDigits(f2) && AllDigits(f3)
    && 1 <= |f1| <= 2 && 1 <= |f2| <= 2 && 2 <= |f3| <= 4
    && !IsDigit(s1) && !IsDigit(s2)
  }

  /**
   * What entry `k` of the table makes of a shaped token, stated directly: both
   * separators must be the entry's, the year must have the entry's number of
   * digits (two-digit years pivot at 69), and the day and month, taken in the
   * entry's order, must name a real day a `Timestamp` can hold.
   */
  function Reading(k: nat, f1: string, s1: char, f2: string, s2: char, f3: string): Option<Date>
    requires AllDigits(f1) && AllDigits(f2) && AllDigits(f3) && |f3| >= 1
  {
    if s1 != FormatSeparator(k) || s2 != FormatSeparator(k) then None
    else
      match FieldValue(YearDirective(k), f3)
      case None => None
      case Some(y) =>
        var date := if DayFirst(k) then Date(y, Value(f2), Value(f1)) else Date(y, Value(f1), Value(f2));
        if ValidDate(date) && InTimestampRange(date) then Some(date) else None
  }

  /** The fields the five items of entry `k` collect from a shaped token. */
  function ShapeFields(k: nat, f1: string, s1: char, f2: string, s2: char, f3: string): Option<Fields>
    requires AllDigits(f1) && AllDigits(f2) && AllDigits(f3) && |f1| >= 1 && |f2| >= 1 && |f3| >= 1
  {
    var sep := FormatSeparator(k);
    match FieldValue(FirstField(k), f1)
    case None => None
    case Some(v1) =>
      if s1 != sep then None
      else
        match FieldValue(SecondField(k), f2)
        case None => None
        case Some(v2) =>
          if s2 != sep then None
          else
            match FieldValue(YearDirective(k), f3)
            case None => None
            case Some(y) => Some(Store(Store(Store(NoFields, FirstField(k), v1), SecondField(k), v2), YearDirective(k), y))
  }

  /** Where the pieces of a shaped token sit. */
  lemma DateTokenParts(tok: string, f1: string, s1: char, f2: string, s2: char, f3: string)
    requires DateShape(tok, f1, s1, f2, s2, f3)
    ensures tok[0..|f1|] == f1 && tok[|f1|] == s1
    ensures tok[|f1| + 1..|f1| + 1 + |f2|] == f2 && tok[|f1| + 1 + |f2|] == s2
    ensures tok[|f1| + 2 + |f2|..] == f3 && |tok| == |f1| + 2 + |f2| + |f3|
  {
  }

  /** The second separator and the year of a date token, from position `p`. */
  lemma ScanYearPart(tok: string, p: nat, s2: char, f3: string, c: char, yd: char, g: Fields)
    requires p + 1 + |f3| == |tok| && tok[p] == s2 && tok[p + 1..] == f3
    requires AllDigits(f3) && |f3| >= 1 && InRange(g) && (yd == 'y' || yd == 'Y')
    ensures Scan([Lit(c), Directive(yd)], tok, p, g)
         == if s2 != c then None
            else match FieldValue(yd, f3)
                 case None => None
                 case Some(y) => Some(Store(g, yd, y))
  {
    assert [Lit(c), Directive(yd)] == [Lit(c)] + ([Directive(yd)] + []);
    ScanLiteral(c, [Directive(yd)] + [], tok, p, g);
    if s2 == c {
      assert tok[p + 1..p + 1 + |f3|] == f3;
      ScanField(yd, [], tok, p + 1, f3, g);
    }
  }

  /** The second field, the second separator and the year of a date token, from position `p`. */
  lemma ScanDateTail(tok: string, p: nat, f2: string, s2: char, f3: string, b: char, c: char, yd: char, g: Fields)
    requires p + |f2| + 1 + |f3| == |tok| && tok[p..p + |f2|] == f2 && tok[p + |f2|] == s2 && tok[p + |f2| + 1..] == f3
    requires AllDigits(f2) && |f2| >= 1 && !IsDigit(s2) && AllDigits(f3) && |f3| >= 1
    requires InRange(g) && (b == 'd' || b == 'm') && (yd == 'y' || yd == 'Y')
    ensures Scan([Directive(b), Lit(c), Directive(yd)], tok, p, g)
         == match FieldValue(b, f2)
            case None => None
            case Some(v2) =>
              if s2 != c then None
              else match FieldValue(yd, f3)
                   case None => None
                   case Some(y) => Some(Store(Store(g, b, v2), yd, y))
  {
    assert [Directive(b), Lit(c), Directive(yd)] == [Directive(b)] + [Lit(c), Directive(yd)];
    ScanField(b, [Lit(c), Directive(yd)], tok, p, f2, g);
    match FieldValue(b, f2)
    case None =>
    case Some(v2) =>
      ScanYearPart(tok, p + |f2|, s2, f3, c, yd, Store(g, b, v2));
  }

  /** Scanning a shaped token with entry `k` collects `ShapeFields`. */
  lemma ScanDateToken(tok: string, f1: string, s1: char, f2: string, s2: char, f3: string, k: nat)
    requires DateShape(tok, f1, s1, f2, s2, f3) && k < |DateItems|
    ensures Scan(DateItems[k], tok, 0, NoFields) == ShapeFields(k, f1, s1, f2, s2, f3)
  {
    DateTokenParts(tok, f1, s1, f2, s2, f3);
    DateItemsShape(k);
    var a, c, b, yd := FirstField(k), FormatSeparator(k), SecondField(k), YearDirective(k);
    var t2 := [Directive(b), Lit(c), Directive(yd)];
    assert DateItems[k] == [Directive(a)] + ([Lit(c)] + t2);
    ScanField(a, [Lit(c)] + t2, tok, 0, f1, NoFields);
    match FieldValue(a, f1)
    case None =>
    case Some(v1) =>
      var g1 := Store(NoFields, a, v1);
      assert Scan(DateItems[k], tok, 0, NoFields) == Scan([Lit(c)] + t2, tok, |f1|, g1);
      ScanLiteral(c, t2, tok, |f1|, g1);
      if s1 == c {
        assert Scan(DateItems[k], tok, 0, NoFields) == Scan(t2, tok, |f1| + 1, g1);
        ScanDateTail(tok, |f1| + 1, f2, s2, f3, b, c, yd, g1);
      }
  }

  /** Entry `k` of the table reads a shaped token exactly as `Reading` says. */
  lemma ReadDateOfShape(tok: string, f1: string, s1: char, f2: string, s2: char, f3: string, k: nat)
    requires DateShape(tok, f1, s1, f2, s2, f3) && k < |DateItems|
    ensures ReadDate(DateItems[k], tok) == Reading(k, f1, s1, f2, s2, f3)
  {
    ScanDateToken(tok, f1, s1, f2, s2, f3, k);
    var v1, v2 := Value(f1), Value(f2);
    var day := if DayFirst(k) then v1 else v2;
    var month := if DayFirst(k) then v2 else v1;
    // A field the directive refuses is a day or month no date has.
    assert FieldValue(FirstField(k), f1).None? ==> (DayFirst(k) ==> !(1 <= day <= 31)) && (!DayFirst(k) ==> !(1 <= month <= 12));
    assert FieldValue(SecondField(k), f2).None? ==> (DayFirst(k) ==> !(1 <= month <= 12)) && (!DayFirst(k) ==> !(1 <= day <= 31));
    match ShapeFields(k, f1, s1, f2, s2, f3)
    case None =>
    case Some(f) =>
      assert f.year == FieldValue(YearDirective(k), f3) && f.month == Some(month) && f.day == Some(day);
  }

  /** A two-token column is read as the pair of its tokens' readings. */
  lemma ReadColumnPair(items: seq<Item>, t1: string, t2: string)
    ensures ReadColumn(items, [t1, t2]) ==
              match (ReadDate(items, t1), ReadDate(items, t2))
              case (Some(d1), Some(d2)) => Some([d1, d2])
              case _ => None
  {
    assert [t1, t2][1..] == [t2] && [t2][1..] == [];
    assert ReadColumn(items, []) == Some([]);
    match ReadDate(items, t2)
    case None =>
    case Some(d2) =>
      assert [d2] + [] == [d2];
      assert ReadColumn(items, [t2]) == Some([d2]);
      match ReadDate(items, t1)
      case None =>
      case Some(d1) => assert [d1] + [d2] == [d1, d2];
  }

  /** `FirstFormatIsFirst` from the start of the table, with the earlier entries listed one by one. */
  lemma FirstReadingColumn(toks: seq<string>, j: nat)
    requires j < |DateFormats|
    requires j > 0 ==> ReadColumn(DateItems[0], toks).None?
    requires j > 1 ==> ReadColumn(DateItems[1], toks).None?
    requires j > 2 ==> ReadColumn(DateItems[2], toks).None?
    requires ReadColumn(DateItems[j], toks).Some? && j <= 3
    ensures ResolveDates(toks) == ReadColumn(DateItems[j], toks)
  {
    forall l | 0 <= l < j ensures ReadColumn(DateItems[l], toks).None? {
      assert l == 0 || l == 1 || l == 2;
    }
    FirstFormatIsFirst(toks, 0, j);
  }

  /** A one-token column is read as its token's reading. */
  lemma ReadColumnOne(items: seq<Item>, t: string)
    ensures ReadColumn(items, [t]) == match ReadDate(items, t) case Some(d) => Some([d]) case None => None
  {
    assert [t][1..] == [];
    assert ReadColumn(items, []) == Some([]);
    match ReadDate(items, t)
    case None =>
    case Some(d) => assert [d] + [] == [d];
  }

  /** An entry whose separator the token does not use refuses the token. */
  lemma WrongSeparator(tok: string, f1: string, s1: char, f2: string, s2: char, f3: string, k: nat)
    requires DateShape(tok, f1, s1, f2, s2, f3) && k < |DateItems|
    requires s1 != FormatSeparator(k) || s2 != FormatSeparator(k)
    ensures ReadDate(DateItems[k], tok).None?
  {
    ReadDateOfShape(tok, f1, s1, f2, s2, f3, k);
  }

  /** A non-digit inside a shaped token is one of its two separators. */
  lemma SeparatorIn(tok: string, f1: string, s1: char, f2: string, s2: char, f3: string, c: char)
    requires DateShape(tok, f1, s1, f2, s2, f3) && !IsDigit(c) && c in tok
    ensures c == s1 || c == s2
  {
    var p :| 0 <= p < |tok| && tok[p] == c;
    var a := |f1|;
    var b := a + 1 + |f2|;
    assert tok == f1 + ([s1] + f2 + [s2] + f3);
    assert tok[a + 1..] == f2 + ([s2] + f3);
    assert tok[b + 1..] == f3;
    forall q | 0 <= q < |tok| && q != a && q != b ensures IsDigit(tok[q]) {
      if q < a {
        assert tok[q] == f1[q];
      } else if q < b {
        assert tok[q] == tok[a + 1..][q - a - 1] == f2[q - a - 1];
      } else {
        assert tok[q] == f3[q - b - 1];
      }
    }
    assert p == a || p == b;
  }

  /**
   * A column in which one date contains a dash and another a slash is read
   * by no entry of the table, since each entry expects one separator only:
   * the column stays text.
   */
  lemma MixedSeparatorsUnresolved(toks: seq<string>, i: nat, j: nat,
                                  f1: string, s1: char, f2: string, s2: char, f3: string,
                                  g1: string, t1: char, g2: string, t2: char, g3: string)
    requires i < |toks| && j < |toks|
    requires DateShape(toks[i], f1, s1, f2, s2, f3) && '-' in toks[i]
    requires DateShape(toks[j], g1, t1, g2, t2, g3) && '/' in toks[j]
    ensures ResolveDates(toks).None?
  {
    SeparatorIn(toks[i], f1, s1, f2, s2, f3, '-');
    SeparatorIn(toks[j], g1, t1, g2, t2, g3, '/');
    forall k | 0 <= k < |DateFormats| ensures ReadColumn(DateItems[k], toks).None? {
      ReadColumnSpec(DateItems[k], toks);
      if FormatSeparator(k) == '/' {
        WrongSeparator(toks[i], f1, s1, f2, s2, f3, k);
      } else {
        WrongSeparator(toks[j], g1, t1, g2, t2, g3, k);
      }
    }
    FirstFormatNone(toks, 0);
  }

  // Single tokens, each read by one entry of the table.

  lemma DayFirstToken()
    ensures ReadDate(DateItems[0], "05/03/23") == Some(Date(2023, 3, 5))
  {
    assert Value("05") == 5 && Value("03") == 3 && Value("23") == 23 by {
      assert "05"[..1] == "0" && "03"[..1] == "0" && "23"[..1] == "2";
    }
    ReadDateOfShape("05/03/23", "05", '/', "03", '/', "23", 0);
  }

  lemma MonthFirstToken()
    ensures ReadDate(DateItems[2], "05/03/23") == Some(Date(2023, 5, 3))
  {
    assert Value("05") == 5 && Value("03") == 3 && Value("23") == 23 by {
      assert "05"[..1] == "0" && "03"[..1] == "0" && "23"[..1] == "2";
    }
    ReadDateOfShape("05/03/23", "05", '/', "03", '/', "23", 2);
  }

  lemma ShortYearRefusedByLongYearEntry()
    ensures ReadDate(DateItems[1], "05/03/23") == None
  {
    assert DateShape("05/03/23", "05", '/', "03", '/', "23");
    ReadDateOfShape("05/03/23", "05", '/', "03", '/', "23", 1);
  }

  lemma ThirteenthDayToken()
    ensures ReadDate(DateItems[0], "13/02/23") == Some(Date(2023, 2, 13))
  {
    assert Value("13") == 13 && Value("02") == 2 && Value("23") == 23 by {
      assert "13"[..1] == "1" && "02"[..1] == "0" && "23"[..1] == "2";
    }
    ReadDateOfShape("13/02/23", "13", '/', "02", '/', "23", 0);
  }

  lemma ThirteenthMonthRefused()
    ensures ReadDate(DateItems[0], "02/13/23") == None
  {
    assert Value("13") == 13 && Value("02") == 2 by {
      assert "13"[..1] == "1" && "02"[..1] == "0";
    }
    ReadDateOfShape("02/13/23", "02", '/', "13", '/', "23", 0);
  }

  lemma ThirteenthDayMonthFirstToken()
    ensures ReadDate(DateItems[2], "02/13/23") == Some(Date(2023, 2, 13))
  {
    assert Value("13") == 13 && Value("02") == 2 && Value("23") == 23 by {
      assert "13"[..1] == "1" && "02"[..1] == "0" && "23"[..1] == "2";
    }
    ReadDateOfShape("02/13/23", "02", '/', "13", '/', "23", 2);
  }

  lemma LongYearRefusedByShortYearEntry()
    ensures ReadDate(DateItems[0], "05/03/2023") == None
  {
    assert DateShape("05/03/2023", "05", '/', "03", '/', "2023");
    ReadDateOfShape("05/03/2023", "05", '/', "03", '/', "2023", 0);
  }

  lemma LongYearToken()
    ensures ReadDate(DateItems[1], "05/03/2023") == Some(Date(2023, 3, 5))
  {
    assert Value("05") == 5 && Value("03") == 3 by {
      assert "05"[..1] == "0" && "03"[..1] == "0";
    }
    FourDigitYears();
    assert DateShape("05/03/2023", "05", '/', "03", '/', "2023");
    ReadDateOfShape("05/03/2023", "05", '/', "03", '/', "2023", 1);
  }

  lemma FourDigitYears()
    ensures AllDigits("2023") && Value("2023") == 2023
    ensures AllDigits("1600") && Value("1600") == 1600
  {
    assert "2023"[..3] == "202" && "202"[..2] == "20" && "20"[..1] == "2";
    assert "1600"[..3] == "160" && "160"[..2] == "16" && "16"[..1] == "1";
  }

  /** Year 1600 is a real date but lies before the first day a `Timestamp` can hold. */
  lemma OutOfRangeYearRefused()
    ensures ReadDate(DateItems[1], "01/01/1600") == None
  {
    assert Value("01") == 1 by {
      assert "01"[..1] == "0";
    }
    FourDigitYears();
    assert DateShape("01/01/1600", "01", '/', "01", '/', "1600");
    ReadDateOfShape("01/01/1600", "01", '/', "01", '/', "1600", 1);
  }

  /** Two-digit years up to 68 fall in the 2000s... */
  lemma LastPivotYearToken()
    ensures ReadDate(DateItems[0], "31/12/68") == Some(Date(2068, 12, 31))
  {
    assert Value("31") == 31 && Value("12") == 12 && Value("68") == 68 by {
      assert "31"[..1] == "3" && "12"[..1] == "1" && "68"[..1] == "6";
    }
    ReadDateOfShape("31/12/68", "31", '/', "12", '/', "68", 0);
  }

  /** ... and from 69 on in the 1900s. */
  lemma FirstOldCenturyToken()
    ensures ReadDate(DateItems[0], "01/01/69") == Some(Date(1969, 1, 1))
  {
    assert Value("01") == 1 && Value("69") == 69 by {
      assert "01"[..1] == "0" && "69"[..1] == "6";
    }
    ReadDateOfShape("01/01/69", "01", '/', "01", '/', "69", 0);
  }

  // Whole columns.

  /** A column whose tokens all read day-first is read day-first: `05/03/23` is the 5th of March. */
  lemma DayFirstColumnExample()
    ensures ResolveDates(["05/03/23", "13/02/23"]) == Some([Date(2023, 3, 5), Date(2023, 2, 13)])
  {
    DayFirstToken();
    ThirteenthDayToken();
    ReadColumnPair(DateItems[0], "05/03/23", "13/02/23");
    FirstReadingColumn(["05/03/23", "13/02/23"], 0);
  }

  /**
   * One token that no day-first entry can read (there is no 13th month) moves the
   * whole column to the month-first entry: `05/03/23` then becomes the 3rd of May.
   */
  lemma MonthFirstFallbackExample()
    ensures ResolveDates(["05/03/23", "02/13/23"]) == Some([Date(2023, 5, 3), Date(2023, 2, 13)])
  {
    ThirteenthMonthRefused();
    ShortYearRefusedByLongYearEntry();
    MonthFirstToken();
    ThirteenthDayMonthFirstToken();
    ReadColumnPair(DateItems[0], "05/03/23", "02/13/23");
    ReadColumnPair(DateItems[1], "05/03/23", "02/13/23");
    ReadColumnPair(DateItems[2], "05/03/23", "02/13/23");
    FirstReadingColumn(["05/03/23", "02/13/23"], 2);
  }

  /** A four-digit year is refused by the two-digit entry and read by the next one. */
  lemma FourDigitYearExample()
    ensures ResolveDates(["05/03/2023"]) == Some([Date(2023, 3, 5)])
  {
    LongYearRefusedByShortYearEntry();
    LongYearToken();
    ReadColumnOne(DateItems[0], "05/03/2023");
    ReadColumnOne(DateItems[1], "05/03/2023");
    FirstReadingColumn(["05/03/2023"], 1);
  }

  /** Two-digit years pivot at 69: `68` is 2068 and `69` is 1969. */
  lemma CenturyPivotExample()
    ensures ResolveDates(["31/12/68", "01/01/69"]) == Some([Date(2068, 12, 31), Date(1969, 1, 1)])
  {
    LastPivotYearToken();
    FirstOldCenturyToken();
    ReadColumnPair(DateItems[0], "31/12/68", "01/01/69");
    FirstReadingColumn(["31/12/68", "01/01/69"], 0);
  }

  /** The same date written with slashes and with dashes leaves the column unresolved. */
  lemma MixedSeparatorsExample()
    ensures ResolveDates(["05/03/23", "05-03-23"]) == None
  {
    var toks := ["05/03/23", "05-03-23"];
    assert DateShape(toks[1], "05", '-', "03", '-', "23") && toks[1][2] == '-';
    assert DateShape(toks[0], "05", '/', "03", '/', "23") && toks[0][2] == '/';
    MixedSeparatorsUnresolved(toks, 1, 0, "05", '-', "03", '-', "23", "05", '/', "03", '/', "23");
  }
}
