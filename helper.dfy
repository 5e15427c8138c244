/**
 * The statistics the dashboard shows, computed over the table `preprocess`
 * builds. The table is a sequence of rows. Every statistic first narrows it to
 * the selected user's rows, or keeps all of them for "Overall".
 */
module Helper {
  import opened Text
  import opened Calendar
  import opened Counting
  import Preprocessor
  import SenderSplit

  type Row = Preprocessor.Row

  const Overall: string := "Overall"
  /** What the chat export writes in place of an attachment. */
  const MediaTag: string := "<Media omitted>"
  /** A message that is nothing but the attachment placeholder and its line end. */
  const MediaLine: string := "<Media omitted>\n"
  const TopWords: nat := 20
  const TopUsers: nat := 5

  // Selecting rows

  /** The elements `keep` accepts, in order: indexing a frame with a boolean mask. */
  function Where<T>(xs: seq<T>, keep: T -> bool): (r: seq<T>)
    ensures |r| <= |xs|
  {
    if xs == [] then []
    else Where(xs[..|xs| - 1], keep) + (if keep(xs[|xs| - 1]) then [xs[|xs| - 1]] else [])
  }

  /** `Where` keeps exactly the accepted elements, each as often as it occurs. */
  lemma {:induction false} WhereSpec<T>(xs: seq<T>, keep: T -> bool)
    ensures forall i :: 0 <= i < |Where(xs, keep)| ==> keep(Where(xs, keep)[i])
    ensures forall x :: multiset(Where(xs, keep))[x] == if keep(x) then multiset(xs)[x] else 0
  {
    if xs != [] {
      var front, x := xs[..|xs| - 1], xs[|xs| - 1];
      assert xs == front + [x];
      WhereSpec(front, keep);
    }
  }

  lemma {:induction false} WhereKeepsAll<T>(xs: seq<T>, keep: T -> bool)
    requires forall i :: 0 <= i < |xs| ==> keep(xs[i])
    ensures Where(xs, keep) == xs
  {
    if xs != [] {
      var front := xs[..|xs| - 1];
      WhereKeepsAll(front, keep);
      assert xs == front + [xs[|xs| - 1]];
    }
  }

  function ByUser(user: string): Row -> bool {
    (r: Row) => r.user == user
  }

  predicate NotNotification(r: Row) {
    r.user != SenderSplit.GroupNotification
  }

  predicate NotMediaLine(r: Row) {
    r.message != MediaLine
  }

  /** `df["message"].str.contains("<Media omitted>")`: the pattern holds no special regex character. */
  predicate HasMedia(r: Row) {
    Contains(r.message, MediaTag)
  }

  /** The filter every helper starts with: one user's rows, or all of them for "Overall". */
  function Selected(selectedUser: string, rows: seq<Row>): seq<Row> {
    if selectedUser != Overall then Where(rows, ByUser(selectedUser)) else rows
  }

  /**
   * "Overall" keeps the table as it is; any other name keeps exactly the rows
   * of the user of that name, each as often as it occurs.
   */
  lemma SelectedSpec(selectedUser: string, rows: seq<Row>)
    ensures selectedUser == Overall ==> Selected(selectedUser, rows) == rows
    ensures selectedUser != Overall ==>
      forall r :: multiset(Selected(selectedUser, rows))[r]
               == if r.user == selectedUser then multiset(rows)[r] else 0
  {
    if selectedUser != Overall {
      WhereSpec(rows, ByUser(selectedUser));
    }
  }

  // Columns

  function Users(rows: seq<Row>): seq<string> {
    seq(|rows|, i requires 0 <= i < |rows| => rows[i].user)
  }

  function MessageColumn(rows: seq<Row>): seq<string> {
    seq(|rows|, i requires 0 <= i < |rows| => rows[i].message)
  }

  function DayNameColumn(rows: seq<Row>): seq<string> {
    seq(|rows|, i requires 0 <= i < |rows| => rows[i].dayName)
  }

  function MonthColumn(rows: seq<Row>): seq<string> {
    seq(|rows|, i requires 0 <= i < |rows| => rows[i].month)
  }

  function DateColumn(rows: seq<Row>): seq<Date> {
    seq(|rows|, i requires 0 <= i < |rows| => rows[i].onlyDate)
  }

  // fetch_stats

  /** The words of the messages, one message after another, as `message.split()` cuts them. */
  function WordsOf(messages: seq<string>): seq<string> {
    if messages == [] then []
    else WordsOf(messages[..|messages| - 1]) + Words(messages[|messages| - 1])
  }

  /** The message, word and media counts; the link count is not part of this model. */
  method FetchStats(selectedUser: string, rows: seq<Row>)
    returns (numMessages: nat, numWords: nat, numMedia: nat)
    ensures numMessages == |Selected(selectedUser, rows)|
    ensures numWords == |WordsOf(MessageColumn(Selected(selectedUser, rows)))|
    ensures numMedia == |Where(Selected(selectedUser, rows), HasMedia)|
    ensures numMedia <= numMessages
  {
    var df := Selected(selectedUser, rows);
    numMessages := |df|;
    var messages := MessageColumn(df);
    var words: seq<string> := [];
    for i := 0 to |messages|
      invariant words == WordsOf(messages[..i])
    {
      assert messages[..i + 1][..i] == messages[..i];
      words := words + Words(messages[i]);
    }
    assert messages[..|messages|] == messages;
    numWords := |words|;
    numMedia := |Where(df, HasMedia)|;
  }

  lemma {:induction false} UnwordsSnoc(ws: seq<string>, w: string)
    requires ws != []
    ensures Unwords(ws + [w]) == Unwords(ws) + " " + w
  {
    if |ws| > 1 {
      assert (ws + [w])[1..] == ws[1..] + [w];
      UnwordsSnoc(ws[1..], w);
    } else {
      assert (ws + [w])[1..] == [w];
    }
  }

  /**
   * The word count does not depend on where one message ends and the next
   * begins: it is the number of words of all messages joined by spaces.
   */
  lemma {:induction false} WordsOfJoined(messages: seq<string>)
    ensures WordsOf(messages) == Words(Unwords(messages))
  {
    if |messages| == 1 {
      assert WordsOf(messages) == WordsOf([]) + Words(messages[0]);
    } else if |messages| > 1 {
      var front, last := messages[..|messages| - 1], messages[|messages| - 1];
      assert messages == front + [last];
      WordsOfJoined(front);
      UnwordsSnoc(front, last);
      WordsAcrossSpace(Unwords(front), last);
    }
  }

  // most_common_words

  function NotStopWord(stopWords: string): string -> bool {
    (w: string) => !Contains(stopWords, w)
  }

  /** The words of one message that count: lower-cased, and not found inside the stop-word text. */
  function KeptWords(message: string, stopWords: string): seq<string> {
    Where(Words(Lower(message)), NotStopWord(stopWords))
  }

  function AllKeptWords(messages: seq<string>, stopWords: string): seq<string> {
    if messages == [] then []
    else AllKeptWords(messages[..|messages| - 1], stopWords) + KeptWords(messages[|messages| - 1], stopWords)
  }

  /** The rows whose words are counted: no notifications, and no bare media placeholders. */
  function ChatRows(rows: seq<Row>): seq<Row> {
    Where(Where(rows, NotNotification), NotMediaLine)
  }

  /** The words `Counter` is given, in order. */
  function CountedWords(selectedUser: string, rows: seq<Row>, stopWords: string): seq<string> {
    AllKeptWords(MessageColumn(ChatRows(Selected(selectedUser, rows))), stopWords)
  }

  /**
   * The twenty most frequent words. The stop-word text is a parameter: reading
   * it from its file is not part of this model.
   */
  method MostCommonWords(selectedUser: string, rows: seq<Row>, stopWords: string)
    returns (common: seq<(string, nat)>)
    ensures common == MostCommon(CountedWords(selectedUser, rows, stopWords), TopWords)
  {
    var df := Selected(selectedUser, rows);
    var temp := Where(df, NotNotification);
    temp := Where(temp, NotMediaLine);
    var messages := MessageColumn(temp);
    var words: seq<string> := [];
    for i := 0 to |messages|
      invariant words == AllKeptWords(messages[..i], stopWords)
    {
      words := AppendKeptWords(words, messages[i], stopWords);
      AllKeptWordsStep(messages, i, stopWords);
    }
    assert messages[..|messages|] == messages;
    common := MostCommon(words, TopWords);
  }

  /** The inner loop of `most_common_words`: appends the words of one message that are not stop words. */
  method AppendKeptWords(words: seq<string>, message: string, stopWords: string) returns (out: seq<string>)
    ensures out == words + KeptWords(message, stopWords)
  {
    var ws := Words(Lower(message));
    out := words;
    for j := 0 to |ws|
      invariant out == words + Where(ws[..j], NotStopWord(stopWords))
    {
      WherePrefixStep(ws, j, NotStopWord(stopWords));
      if !Contains(stopWords, ws[j]) {
        out := out + [ws[j]];
      }
    }
    assert ws[..|ws|] == ws;
  }

  lemma WherePrefixStep<T>(xs: seq<T>, j: nat, keep: T -> bool)
    requires j < |xs|
    ensures Where(xs[..j + 1], keep) == Where(xs[..j], keep) + (if keep(xs[j]) then [xs[j]] else [])
  {
    assert xs[..j + 1][..j] == xs[..j];
  }

  lemma AllKeptWordsStep(messages: seq<string>, i: nat, stopWords: string)
    requires i < |messages|
    ensures AllKeptWords(messages[..i + 1], stopWords) == AllKeptWords(messages[..i], stopWords) + KeptWords(messages[i], stopWords)
  {
    assert messages[..i + 1][..i] == messages[..i];
  }

  /** Every counted word is a lower-case word that does not occur inside the stop-word text. */
  lemma {:induction false} AllKeptWordsSpec(messages: seq<string>, stopWords: string)
    ensures forall k :: 0 <= k < |AllKeptWords(messages, stopWords)| ==>
      var w := AllKeptWords(messages, stopWords)[k];
      IsWord(w) && HasNoUpper(w) && !Contains(stopWords, w)
  {
    if messages != [] {
      var last := messages[|messages| - 1];
      AllKeptWordsSpec(messages[..|messages| - 1], stopWords);
      var ws := Words(Lower(last));
      LowerHasNoUpper(last);
      WordsKeepNoUpper(Lower(last));
      WhereSpec(ws, NotStopWord(stopWords));
      forall k | 0 <= k < |KeptWords(last, stopWords)|
        ensures IsWord(KeptWords(last, stopWords)[k]) && HasNoUpper(KeptWords(last, stopWords)[k])
      {
        var w := KeptWords(last, stopWords)[k];
        assert w in multiset(ws);
      }
    }
  }

  /**
   * `most_common_words` gives at most twenty distinct lower-case words, none
   * inside the stop-word text, each with its number of occurrences, most
   * frequent first; no word left out occurs more often than the last one listed.
   */
  lemma MostCommonWordsSpec(selectedUser: string, rows: seq<Row>, stopWords: string)
    ensures var r := MostCommon(CountedWords(selectedUser, rows, stopWords), TopWords);
      && |r| <= TopWords
      && NonIncreasing(r)
      && UniqueKeys(r)
      && forall i :: 0 <= i < |r| ==>
           && IsWord(r[i].0) && HasNoUpper(r[i].0) && !Contains(stopWords, r[i].0)
           && r[i].1 == multiset(CountedWords(selectedUser, rows, stopWords))[r[i].0] >= 1
    ensures var words := CountedWords(selectedUser, rows, stopWords);
      var r := MostCommon(words, TopWords);
      forall w :: w in words && w !in Keys(r) ==> |r| == TopWords && multiset(words)[w] <= r[TopWords - 1].1
  {
    var words := CountedWords(selectedUser, rows, stopWords);
    MostCommonSpec(words, TopWords);
    AllKeptWordsSpec(MessageColumn(ChatRows(Selected(selectedUser, rows))), stopWords);
  }

  /** The counted rows never include a notification. */
  lemma ChatRowsHaveSenders(rows: seq<Row>)
    ensures forall i :: 0 <= i < |ChatRows(rows)| ==>
      ChatRows(rows)[i].user != SenderSplit.GroupNotification && ChatRows(rows)[i].message != MediaLine
  {
    var senders := Where(rows, NotNotification);
    WhereSpec(rows, NotNotification);
    WhereSpec(senders, NotMediaLine);
    forall i | 0 <= i < |ChatRows(rows)|
      ensures NotNotification(ChatRows(rows)[i])
    {
      assert ChatRows(rows)[i] in multiset(senders);
      var j :| 0 <= j < |senders| && senders[j] == ChatRows(rows)[i];
    }
  }

  /** Rows with a sender hold stripped messages, as `preprocess` leaves them. */
  ghost predicate SendersStripped(rows: seq<Row>) {
    forall r | r in rows && NotNotification(r) :: Trimmed(r.message)
  }

  /**
   * Given stripped sender messages, the `'<Media omitted>\n'` filter removes
   * nothing: the placeholder line ends in a newline, which stripping removes.
   */
  lemma MediaLineFilterKeepsAll(rows: seq<Row>)
    requires SendersStripped(rows)
    ensures ChatRows(rows) == Where(rows, NotNotification)
  {
    var senders := Where(rows, NotNotification);
    WhereSpec(rows, NotNotification);
    forall i | 0 <= i < |senders| ensures NotMediaLine(senders[i]) {
      assert senders[i] in multiset(senders);
      assert senders[i] in rows;
      assert MediaLine[|MediaLine| - 1] == '\n';
    }
    WhereKeepsAll(senders, NotMediaLine);
  }

  /**
   * On any table `preprocess` returns, and for any selection, the media-line
   * filter of `most_common_words` keeps every row the notification filter keeps.
   */
  lemma MediaLineFilterIsNoOp(data: string, selectedUser: string)
    requires Preprocessor.Preprocessed(data).Ok?
    ensures var df := Selected(selectedUser, Preprocessor.Preprocessed(data).value);
      ChatRows(df) == Where(df, NotNotification)
  {
    var rows := Preprocessor.Preprocessed(data).value;
    var df := Selected(selectedUser, rows);
    Preprocessor.SenderMessagesStripped(data);
    SelectedFrom(selectedUser, rows);
    MediaLineFilterKeepsAll(df);
  }

  // fetch_most_busy_user

  /** `value_counts().head()` of the user column once notifications are dropped. */
  function BusiestUsers(rows: seq<Row>): seq<(string, nat)> {
    MostCommon(Users(Where(rows, NotNotification)), TopUsers)
  }

  /** Dropping notification rows leaves every other user's row count as it was, and no notification. */
  lemma {:induction false} SenderUsers(rows: seq<Row>, u: string)
    ensures multiset(Users(Where(rows, NotNotification)))[u]
         == if u == SenderSplit.GroupNotification then 0 else multiset(Users(rows))[u]
  {
    if rows != [] {
      var front, r := rows[..|rows| - 1], rows[|rows| - 1];
      SenderUsers(front, u);
      assert Users(rows) == Users(front) + [r.user];
      var kept := Where(front, NotNotification);
      if NotNotification(r) {
        assert Users(Where(rows, NotNotification)) == Users(kept) + [r.user];
      } else {
        assert Users(Where(rows, NotNotification)) == Users(kept);
      }
    }
  }

  /**
   * At most five users, never the notification pseudo-user, each with the
   * number of rows they wrote, busiest first; no user left out wrote more rows
   * than the last one listed.
   */
  lemma BusiestUsersSpec(rows: seq<Row>)
    ensures var r := BusiestUsers(rows);
      && |r| <= TopUsers
      && NonIncreasing(r)
      && UniqueKeys(r)
      && forall i :: 0 <= i < |r| ==>
           r[i].0 != SenderSplit.GroupNotification && r[i].1 == multiset(Users(rows))[r[i].0] >= 1
    ensures var r := BusiestUsers(rows);
      forall u :: u in Users(rows) && u != SenderSplit.GroupNotification && u !in Keys(r) ==>
        |r| == TopUsers && multiset(Users(rows))[u] <= r[TopUsers - 1].1
  {
    var us := Users(Where(rows, NotNotification));
    var r := BusiestUsers(rows);
    MostCommonSpec(us, TopUsers);
    forall i | 0 <= i < |r|
      ensures r[i].0 != SenderSplit.GroupNotification && r[i].1 == multiset(Users(rows))[r[i].0]
    {
      SenderUsers(rows, r[i].0);
    }
    forall u | u in Users(rows) && u != SenderSplit.GroupNotification && u !in Keys(r)
      ensures |r| == TopUsers && multiset(Users(rows))[u] <= r[TopUsers - 1].1
    {
      SenderUsers(rows, u);
      assert u in us by {
        assert multiset(us)[u] > 0;
      }
    }
  }

  // monthly_timeline

  /** The keys `monthly_timeline` groups by: year, month number, month name. */
  datatype MonthKey = MonthKey(year: int, monthNum: int, month: string)

  /** The order pandas sorts the group keys in: year, then month number, then month name. */
  predicate MonthKeyBefore(a: MonthKey, b: MonthKey) {
    || a.year < b.year
    || (a.year == b.year && a.monthNum < b.monthNum)
    || (a.year == b.year && a.monthNum == b.monthNum && StrLess(a.month, b.month))
  }

  lemma MonthKeyOrder()
    ensures TotalOrder(MonthKeyBefore)
  {
    forall a: MonthKey, b: MonthKey, c: MonthKey | MonthKeyBefore(a, b) && MonthKeyBefore(b, c)
      ensures MonthKeyBefore(a, c)
    {
      if a.year == b.year == c.year && a.monthNum == b.monthNum == c.monthNum {
        StrLessTransitive(a.month, b.month, c.month);
      }
    }
    forall a: MonthKey, b: MonthKey | a != b
      ensures MonthKeyBefore(a, b) || MonthKeyBefore(b, a)
    {
      if a.year == b.year && a.monthNum == b.monthNum {
        StrLessTotal(a.month, b.month);
      }
    }
  }

  function MonthKeys(rows: seq<Row>): seq<MonthKey> {
    seq(|rows|, i requires 0 <= i < |rows| => MonthKey(rows[i].year, rows[i].monthNum, rows[i].month))
  }

  /** `groupby(['year', 'month_num', 'month']).count()['message']`. */
  function MonthGroups(selectedUser: string, rows: seq<Row>): seq<(MonthKey, nat)> {
    Tally(MonthKeys(Selected(selectedUser, rows)), MonthKeyBefore)
  }

  /** One month per row of the keys, in increasing order, with its message count. */
  lemma MonthGroupsSpec(selectedUser: string, rows: seq<Row>)
    ensures Increasing(Keys(MonthGroups(selectedUser, rows)), MonthKeyBefore)
    ensures forall i :: 0 <= i < |MonthGroups(selectedUser, rows)| ==>
      var e := MonthGroups(selectedUser, rows)[i];
      e.0 in MonthKeys(Selected(selectedUser, rows))
      && e.1 == multiset(MonthKeys(Selected(selectedUser, rows)))[e.0] >= 1
    ensures forall k :: k in MonthKeys(Selected(selectedUser, rows)) ==> k in Keys(MonthGroups(selectedUser, rows))
    ensures Total(MonthGroups(selectedUser, rows)) == |Selected(selectedUser, rows)|
  {
    MonthKeyOrder();
    GroupCountsSpec(MonthKeys(Selected(selectedUser, rows)), MonthKeyBefore);
  }

  /** The `time` label: month name, a dash, and the year in decimal. */
  function MonthLabel(month: string, year: int): string {
    month + "-" + IntToString(year)
  }

  /** The label reads back: the name, then a dash, then the digits of the year. */
  lemma MonthLabelSpec(month: string, year: int)
    ensures |MonthLabel(month, year)| > |month| + 1
    ensures MonthLabel(month, year)[..|month|] == month && MonthLabel(month, year)[|month|] == '-'
    ensures year >= 0 ==>
      (var digits := MonthLabel(month, year)[|month| + 1..]; AllDigits(digits) && Value(digits) == year)
  {
    var shown := MonthLabel(month, year);
    if year >= 0 {
      assert shown[|month| + 1..] == NatToString(year);
      ValueOfNatToString(year);
    }
  }

  /** Labels of months whose names have no dash, in years from 0 on, differ whenever the months differ. */
  lemma MonthLabelInjective(m1: string, y1: int, m2: string, y2: int)
    requires '-' !in m1 && '-' !in m2 && y1 >= 0 && y2 >= 0
    requires MonthLabel(m1, y1) == MonthLabel(m2, y2)
    ensures m1 == m2 && y1 == y2
  {
    var shown := MonthLabel(m1, y1);
    MonthLabelSpec(m1, y1);
    MonthLabelSpec(m2, y2);
    assert forall k :: 0 <= k < |m1| ==> shown[k] == m1[k] != '-';
    assert forall k :: 0 <= k < |m2| ==> shown[k] == m2[k] != '-';
    assert |m1| == |m2|;
  }

  /** A row of the timeline `monthly_timeline` returns. */
  datatype MonthRow = MonthRow(year: int, monthNum: int, month: string, message: nat, time: string)

  /** The month groups, each with its `Month-Year` label, built in an index loop. */
  method MonthlyTimeline(selectedUser: string, rows: seq<Row>) returns (timeline: seq<MonthRow>)
    ensures |timeline| == |MonthGroups(selectedUser, rows)|
    ensures forall i :: 0 <= i < |timeline| ==>
      var g := MonthGroups(selectedUser, rows)[i];
      timeline[i] == MonthRow(g.0.year, g.0.monthNum, g.0.month, g.1, MonthLabel(g.0.month, g.0.year))
  {
    var groups := MonthGroups(selectedUser, rows);
    var time: seq<string> := [];
    for i := 0 to |groups|
      invariant |time| == i
      invariant forall j :: 0 <= j < i ==> time[j] == MonthLabel(groups[j].0.month, groups[j].0.year)
    {
      var caption := groups[i].0.month + "-" + IntToString(groups[i].0.year);
      time := time + [caption];
    }
    timeline := seq(|groups|, i requires 0 <= i < |groups| =>
      MonthRow(groups[i].0.year, groups[i].0.monthNum, groups[i].0.month, groups[i].1, time[i]));
  }

  // daily_timeline, week_activity_map, month_activity_map

  lemma DateOrder()
    ensures TotalOrder(DateBefore)
  {
  }

  /** `groupby('only_date').count()['message']`. */
  function DailyTimeline(selectedUser: string, rows: seq<Row>): seq<(Date, nat)> {
    Tally(DateColumn(Selected(selectedUser, rows)), DateBefore)
  }

  /** One entry per day with messages, in calendar order, with that day's message count. */
  lemma DailyTimelineSpec(selectedUser: string, rows: seq<Row>)
    ensures Increasing(Keys(DailyTimeline(selectedUser, rows)), DateBefore)
    ensures forall i :: 0 <= i < |DailyTimeline(selectedUser, rows)| ==>
      var e := DailyTimeline(selectedUser, rows)[i];
      e.0 in DateColumn(Selected(selectedUser, rows))
      && e.1 == multiset(DateColumn(Selected(selectedUser, rows)))[e.0] >= 1
    ensures forall d :: d in DateColumn(Selected(selectedUser, rows)) ==> d in Keys(DailyTimeline(selectedUser, rows))
    ensures Total(DailyTimeline(selectedUser, rows)) == |Selected(selectedUser, rows)|
  {
    DateOrder();
    GroupCountsSpec(DateColumn(Selected(selectedUser, rows)), DateBefore);
  }

  /** `df['day_name'].value_counts()`. */
  function WeekActivity(selectedUser: string, rows: seq<Row>): seq<(string, nat)> {
    ValueCounts(DayNameColumn(Selected(selectedUser, rows)))
  }

  /** Every weekday with messages once, busiest first, with counts adding up to the selected rows. */
  lemma WeekActivitySpec(selectedUser: string, rows: seq<Row>)
    ensures NonIncreasing(WeekActivity(selectedUser, rows))
    ensures UniqueKeys(WeekActivity(selectedUser, rows))
    ensures forall i :: 0 <= i < |WeekActivity(selectedUser, rows)| ==>
      var e := WeekActivity(selectedUser, rows)[i];
      e.0 in DayNameColumn(Selected(selectedUser, rows))
      && e.1 == multiset(DayNameColumn(Selected(selectedUser, rows)))[e.0] >= 1
    ensures forall d :: d in DayNameColumn(Selected(selectedUser, rows)) ==> d in Keys(WeekActivity(selectedUser, rows))
    ensures Total(WeekActivity(selectedUser, rows)) == |Selected(selectedUser, rows)|
  {
    ValueCountsSpec(DayNameColumn(Selected(selectedUser, rows)));
  }

  /** `df['month'].value_counts()`. */
  function MonthActivity(selectedUser: string, rows: seq<Row>): seq<(string, nat)> {
    ValueCounts(MonthColumn(Selected(selectedUser, rows)))
  }

  /** Every month name with messages once, busiest first, with counts adding up to the selected rows. */
  lemma MonthActivitySpec(selectedUser: string, rows: seq<Row>)
    ensures NonIncreasing(MonthActivity(selectedUser, rows))
    ensures UniqueKeys(MonthActivity(selectedUser, rows))
    ensures forall i :: 0 <= i < |MonthActivity(selectedUser, rows)| ==>
      var e := MonthActivity(selectedUser, rows)[i];
      e.0 in MonthColumn(Selected(selectedUser, rows))
      && e.1 == multiset(MonthColumn(Selected(selectedUser, rows)))[e.0] >= 1
    ensures forall m :: m in MonthColumn(Selected(selectedUser, rows)) ==> m in Keys(MonthActivity(selectedUser, rows))
    ensures Total(MonthActivity(selectedUser, rows)) == |Selected(selectedUser, rows)|
  {
    ValueCountsSpec(MonthColumn(Selected(selectedUser, rows)));
  }

  /** A selection only holds rows of the table it selects from. */
  lemma SelectedFrom(selectedUser: string, rows: seq<Row>)
    ensures forall r | r in Selected(selectedUser, rows) :: r in rows
  {
    SelectedSpec(selectedUser, rows);
    forall r | r in Selected(selectedUser, rows) ensures r in rows {
      assert multiset(Selected(selectedUser, rows))[r] > 0;
    }
  }

  /** On a table `preprocess` returns, every weekday key is one of the seven day names. */
  lemma WeekActivityNamesDays(data: string, selectedUser: string)
    requires Preprocessor.Preprocessed(data).Ok?
    ensures forall i :: 0 <= i < |WeekActivity(selectedUser, Preprocessor.Preprocessed(data).value)| ==>
      WeekActivity(selectedUser, Preprocessor.Preprocessed(data).value)[i].0 in DayNames
  {
    Preprocessor.RowsNameTheirDay(data);
    WeekActivityKeepsNames(selectedUser, Preprocessor.Preprocessed(data).value);
  }

  /** Where every row names one of the seven days, so does every weekday key. */
  lemma WeekActivityKeepsNames(selectedUser: string, rows: seq<Row>)
    requires forall r | r in rows :: r.dayName in DayNames
    ensures forall i :: 0 <= i < |WeekActivity(selectedUser, rows)| ==> WeekActivity(selectedUser, rows)[i].0 in DayNames
  {
    var df := Selected(selectedUser, rows);
    SelectedFrom(selectedUser, rows);
    ValueCountsSpec(DayNameColumn(df));
    forall d | d in DayNameColumn(df) ensures d in DayNames {
      var j :| 0 <= j < |df| && df[j].dayName == d;
      assert df[j] in df;
    }
  }

}
