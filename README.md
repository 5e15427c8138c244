# WhatsApp chat analyzer: preprocessing and statistics

This project models the core of a WhatsApp chat analyzer. The analyzer reads an exported
chat, turns it into a table with one row per message, and computes the statistics its
dashboard shows. The model has two halves, one per core file.

`preprocessor.py` turns the exported text into rows:

- finds every line marker `[date, time] - ` with a regular expression;
- splits the text at those markers;
- reads the date column under the first of eight `strptime` formats that accepts every date;
- reads each time token under six clock formats;
- splits `name: text` into sender and message, marking lines without a sender as `group_notification`;
- derives the year, month, day, weekday, hour, minute and the hour `period` of each row.

`helper.py` computes per-user or overall statistics from those rows:

- the message, word and media counts;
- the twenty most common words outside a stop-word list;
- the five busiest senders;
- the month-by-month and day-by-day message counts;
- the weekday and month activity maps.

The model is organised as follows:

- `Strptime` and `Calendar` hold the part of Python's `datetime.strptime`, and of the pandas
  `Timestamp` accessors, that those calls rely on.
- `Marker` models the regular-expression search, including the leftmost-match resumption of
  `re.finditer` and the grouping of `re.split`.
- `SenderSplit` models the `([^:]+):` split that separates sender and message.
- `Counting` models `Counter.most_common`, `value_counts` and `groupby(...).count()`.
- A pandas data frame is a sequence of `Preprocessor.Row` values. A row filter is `Helper.Where`.
- A raised exception is the `Err` side of a `Result`.

Some behaviours of the code that a reader might not expect:

- An unreadable time token makes the whole `preprocess` call fail. No row is skipped.
- The date format is chosen once for the whole column, not per message. A chat that mixes
  `/` and `-` dates therefore fails (`Preprocessor.MixedDateSeparatorsFail`).
- The marker accepts seconds (`12:30:45`), but no time format does. Such a chat fails
  (`Preprocessor.SecondsInAMarkerFail`).
- Messages of `group_notification` rows are not stripped. Only rows with a sender have their
  message stripped.
- The time column is converted before the parsed dates are used. A bad time therefore wins
  over unreadable dates (`Preprocessor.TimeErrorComesFirst`).
- The media-line filter of `most_common_words` never removes anything, because every sender
  message has already been stripped of its trailing newline (`Helper.MediaLineFilterIsNoOp`).

## Model

| member | source | states |
|---|---|---|
| Calendar.DaysInMonth | preprocessor.py:44 | a month has 28 to 31 days, and 29 exactly for February of a leap year |
| Calendar.Weekday | preprocessor.py:71 | the weekday index of a date lies in 0..6 |
| Calendar.MonthNameRoundTrip | preprocessor.py:65-66 | the English month name of month m reads back as m |
| Calendar.NextDateOrdinal | preprocessor.py:70-71 | the next date is a valid date whose day ordinal is one more |
| Calendar.NextDateWeekday | preprocessor.py:71 | consecutive dates have consecutive weekdays, modulo 7 |
| Calendar.FifthOfMarch2023IsSunday | preprocessor.py:71 | 5 March 2023 is a Sunday, which anchors the weekday numbering |
| Strptime.Number | preprocessor.py:8 | a `%H`, `%I`, `%M`, `%d`, `%m` or `%y`/`%Y` field read succeeds only inside that directive's range and consumes at least one character |
| Strptime.FieldValue | preprocessor.py:44 | a whole-token field read yields a value inside the directive's range |
| Strptime.NumberOfDigits | preprocessor.py:8 | a one- or two-digit run is accepted by `%H` up to 23, by `%I` from 1 to 12 and by `%M` up to 59, and refused otherwise |
| Strptime.TwelveHourRejectsZero | preprocessor.py:12 | `%I` refuses the hour 0 |
| Strptime.Scan | preprocessor.py:8 | a successful scan of a format leaves every collected field inside its range |
| Strptime.ScanSuccessIgnoresFields | preprocessor.py:8 | whether a scan succeeds does not depend on the fields collected so far |
| Strptime.Hour | preprocessor.py:12 | the hour built from `%H`, or from `%I` with `%p`, lies in 0..23 |
| Strptime.Parse | preprocessor.py:8 | a successful `strptime` gives a valid date and a valid time |
| TimeConversion.ParseTime | preprocessor.py:8 | a time read under one format is a valid clock time |
| TimeConversion.FirstTime | preprocessor.py:15-19 | trying the formats from a given index on yields a valid time when it succeeds |
| TimeConversion.TimeOf | preprocessor.py:5-20 | `convert_to_24hr` yields a valid 24-hour time whenever it does not raise |
| TimeConversion.ConvertTo24Hr | preprocessor.py:5-20 | trying the six formats in order computes exactly `TimeOf` |
| TimeConversion.FirstTimeIsFirst | preprocessor.py:15-19 | the first format that reads the token decides the time |
| TimeConversion.FirstTimeNone | preprocessor.py:15-20 | the conversion raises exactly when no remaining format reads the token |
| TimeConversion.TwentyFourHourTokens | preprocessor.py:8 | `H:MM` with hour <= 23 and minutes <= 59 reads as that time |
| TimeConversion.MeridiemReadTime | preprocessor.py:12-17 | a 12-hour token with AM/PM is read by each meridiem format that matches its separator and spacing |
| TimeConversion.HourFormatRejectsMeridiem | preprocessor.py:8 | `%H:%M` never reads a token with an AM/PM suffix |
| TimeConversion.TwelveHourTokens | preprocessor.py:12-17 | a 12-hour token converts to hour mod 12, plus 12 for PM |
| TimeConversion.LateHourTwelveHourFormats | preprocessor.py:12-17 | a token whose hour exceeds 12 is refused by every 12-hour format |
| TimeConversion.LateHourTokens | preprocessor.py:5-20 | a token whose hour exceeds 12 converts only as plain `H:MM` with hour <= 23 |
| TimeConversion.BadMinutesFormat | preprocessor.py:8-17 | minutes above 59 are refused by every format |
| TimeConversion.BadMinutesTokens | preprocessor.py:20 | a token with minutes above 59 makes the conversion raise |
| TimeConversion.SecondsFormat | preprocessor.py:8-17 | a token carrying seconds is refused by every format |
| TimeConversion.SecondsTokens | preprocessor.py:20 | a token carrying seconds makes the conversion raise |
| TimeConversion.LastFormatIsDead | preprocessor.py:15 | any token `%I:%M` reads is also read by the earlier `%H:%M` |
| TimeConversion.NoonExample | preprocessor.py:12 | "12:00 PM" converts to 12:00 |
| TimeConversion.MidnightExample | preprocessor.py:12 | "12:00 AM" converts to 00:00 |
| DateResolution.ReadDate | preprocessor.py:44 | a date read under one format is a valid date within the `Timestamp` range |
| DateResolution.ReadColumnSpec | preprocessor.py:44 | `to_datetime` reads a column exactly when it reads every entry, and then yields each entry's date in order |
| DateResolution.FirstFormat | preprocessor.py:41-47 | a column resolved from a given format on has one date per token |
| DateResolution.ResolveDates | preprocessor.py:41-47 | the resolved column has one date per token |
| DateResolution.ResolveDateColumn | preprocessor.py:41-47 | the `for ... break` loop over the eight formats computes exactly `ResolveDates` |
| DateResolution.FirstFormatIsFirst | preprocessor.py:41-47 | the first format that reads the whole column decides it |
| DateResolution.FirstFormatNone | preprocessor.py:41-47 | the column stays unresolved exactly when no remaining format reads all of it |
| DateResolution.ResolvedByOneFormat | preprocessor.py:41-47 | a resolved column comes from one format, and every earlier format fails on it |
| DateResolution.ResolvedDatesValid | preprocessor.py:44 | every resolved date is valid |
| DateResolution.EmptyColumn | preprocessor.py:41-47 | an empty column resolves to no dates |
| DateResolution.ReadDateOfShape | preprocessor.py:41-44 | on a marker-shaped token, a format reads the day and month in its own order and the year with its digit count, pivoting two-digit years at 69 |
| DateResolution.WrongSeparator | preprocessor.py:41-44 | a format refuses a token whose separators are not its own |
| DateResolution.MixedSeparatorsUnresolved | preprocessor.py:41-47 | a column mixing `-` and `/` dates is read by no format |
| DateResolution.DayFirstColumnExample | preprocessor.py:41-47 | a day-first column is read under `%d/%m/%y` |
| DateResolution.MonthFirstFallbackExample | preprocessor.py:41-47 | a column with a thirteenth "month" falls back to a month-first format |
| DateResolution.CenturyPivotExample | preprocessor.py:41-44 | years 68 and 69 read as 2068 and 1969 |
| Marker.MatchAt | preprocessor.py:23 | a match found at a position starts there, and its date group, clock group and end lie in order within the text |
| Marker.Matches | preprocessor.py:29-30 | every `finditer` match has its groups in order within the text |
| Marker.DateColumn | preprocessor.py:31 | one date token per match |
| Marker.TimeColumn | preprocessor.py:32 | one time token per match |
| Marker.Stride3 | preprocessor.py:25 | `[3::3]` keeps pieces 3, 6, 9 and so on, and nothing else |
| Marker.SplitAlignment | preprocessor.py:25 | the pieces `re.split` leaves between markers are the messages following each match |
| Marker.ColumnsAlign | preprocessor.py:25-38 | messages, dates and times have one entry per match, and the messages are the split's pieces |
| Marker.MatchesAreLeftmost | preprocessor.py:29 | each match is the leftmost one at or after the previous match's end, and none follows the last |
| Marker.MatchHasDash | preprocessor.py:23 | every marker contains a `-` |
| Marker.NoDashNoMessages | preprocessor.py:23-32 | text without `-` has no marker and no message |
| Marker.MatchGroups | preprocessor.py:31-32 | the two groups of a match are the date and clock groups found at their starts |
| Marker.DateGroupShape | preprocessor.py:23 | a date group is d{1,2} sep d{1,2} sep d{2,4}, with `/` or `-` as separators |
| Marker.ClockGroupShape | preprocessor.py:23 | a clock group is d{1,2} `:` or `.` dd, followed by optional seconds and an optional AM/PM |
| SenderSplit.ColonSplitFrom | preprocessor.py:54 | `re.split('([^:]+):')` gives an odd number of pieces |
| SenderSplit.RejoinSplit | preprocessor.py:54 | the pieces and captured groups concatenate back to the input |
| SenderSplit.ColonSearchFinds | preprocessor.py:54 | the pattern matches exactly when a non-colon is followed later by a colon |
| SenderSplit.SenderIff | preprocessor.py:54-55 | the split has more than one piece exactly when the line has a sender |
| SenderSplit.SenderIsFirstRun | preprocessor.py:54 | the sender group is the first colon-free run ending at a colon, preceded only by colons |
| SenderSplit.UserHasNoColon | preprocessor.py:53-55 | the user is stripped and colon-free, or `group_notification` when there is no sender |
| SenderSplit.MessageTrimmedOrUnchanged | preprocessor.py:57-59 | a sender message is stripped, and a line without a sender is kept unchanged |
| SenderSplit.MessageIsLastPiece | preprocessor.py:58 | the message is the stripped text after the last `name:` group |
| SenderSplit.NameLine | preprocessor.py:53-58 | `name:text` without another colon gives user `strip(name)` and message `strip(text)` |
| SenderSplit.NameLineWithSecondColon | preprocessor.py:58 | with a second colon, the message is only the text after it |
| SenderSplit.NoColonNoSender | preprocessor.py:55 | a line without a colon has no sender |
| SenderSplit.NotificationExample | preprocessor.py:55-59 | "Bob left" becomes a `group_notification` row with the line as message |
| Preprocessor.PeriodNamesHourAndNext | preprocessor.py:73-74 | the period is `HH-HH`, naming the hour and the next one modulo 24 |
| Preprocessor.PeriodInjective | preprocessor.py:73-74 | distinct hours have distinct periods |
| Preprocessor.MakeRowDescribes | preprocessor.py:53-74 | each derived column agrees with the row's date, time and line (the period names the hour and the next one modulo 24), and the user is colon-free |
| Preprocessor.ConvertTimesSpec | preprocessor.py:50 | the time column converts exactly when every token converts, and then holds each token's time |
| Preprocessor.FirstBadTimeRaises | preprocessor.py:50 | the first unreadable token is the one reported |
| Preprocessor.ConvertedTimesValid | preprocessor.py:50 | every converted time is valid |
| Preprocessor.Preprocessed | preprocessor.py:22-76 | a successful run has one row per marker |
| Preprocessor.CollectMarkers | preprocessor.py:29-32 | the `finditer` loop collects exactly the date and time columns |
| Preprocessor.ConvertTimeColumn | preprocessor.py:50 | the `apply` loop computes exactly `ConvertTimes` |
| Preprocessor.BuildRows | preprocessor.py:53-74 | the row-building loop computes exactly `Rows` |
| Preprocessor.Preprocess | preprocessor.py:22-76 | `preprocess` computes exactly `Preprocessed` |
| Preprocessor.PreprocessedOkIff | preprocessor.py:22-76 | `preprocess` succeeds exactly when every time token converts and some format reads all dates |
| Preprocessor.TimeErrorComesFirst | preprocessor.py:44-50 | an unreadable time is reported even when the dates are unreadable too |
| Preprocessor.RowsFollowMarkers | preprocessor.py:22-76 | row i is built from the i-th message, its resolved date and its converted time |
| Preprocessor.NoMarkersNoRows | preprocessor.py:25-38 | a text without markers gives an empty table |
| Preprocessor.NoDashNoRows | preprocessor.py:23-38 | a text without `-` gives an empty table |
| Preprocessor.MarkerTokenShapes | preprocessor.py:23-32 | every date and time token has the marker's shape |
| Preprocessor.MixedDateSeparatorsFail | preprocessor.py:41-47 | a chat mixing `-` and `/` dates fails |
| Preprocessor.SecondsInAMarkerFail | preprocessor.py:20-50 | a marker with seconds makes the chat fail |
| Preprocessor.SenderMessagesStripped | preprocessor.py:57-59 | every message of a row with a sender is stripped |
| Preprocessor.RowsNameTheirDay | preprocessor.py:71 | every `day_name` is one of the seven English day names |
| Counting.TallySpec | helper.py:107 | the grouped counts hold every key once, with its number of occurrences, summing to the input length |
| Counting.TallyEntries | helper.py:118 | every entry's count equals the key's occurrences and is at least 1, and every input key has an entry |
| Counting.TallyIncreasing | helper.py:107 | under a total order, the group keys come out sorted, as `groupby` sorts them |
| Counting.PlaceSpec | helper.py:87 | inserting an entry after all entries with an equal or larger count keeps the counts non-increasing |
| Counting.ByCountSpec | helper.py:87 | ordering by count keeps the same entries and the same total, and leaves the counts non-increasing |
| Counting.ValueCountsSpec | helper.py:127 | `value_counts` lists each value once with its exact count, most frequent first |
| Counting.HeadUnique | helper.py:38 | a prefix of a table with unique keys has unique keys |
| Counting.MostCommonLeavesOut | helper.py:87 | a value left out of the top n implies n entries were listed, each at least as frequent |
| Counting.MostCommonSpec | helper.py:87 | `most_common(n)` has at most n entries with exact, non-increasing counts, and omits only values no more frequent than the last one listed |
| Counting.GroupCountsSpec | helper.py:107 | grouped counts are sorted by key, exact, cover every key and sum to the row count |
| Helper.Where | helper.py:12 | a filtered table is no longer than the original |
| Helper.WhereSpec | helper.py:12 | the filter keeps exactly the rows satisfying the condition, with their multiplicities |
| Helper.WhereKeepsAll | helper.py:79 | a filter every row passes changes nothing |
| Helper.SelectedSpec | helper.py:11-12 | "Overall" keeps every row; otherwise exactly the rows whose user is the selected one |
| Helper.FetchStats | helper.py:9-33 | the counts of selected messages, their whitespace-separated words and their media messages, with media <= messages |
| Helper.WordsOfJoined | helper.py:18-20 | splitting each message and concatenating gives the words of the messages joined by spaces |
| Helper.AllKeptWordsSpec | helper.py:81-85 | every counted word is a non-empty space-free lowercase word that does not occur in the stop-word text |
| Helper.MostCommonWords | helper.py:69-88 | the nested word loop computes exactly the twenty most common kept words |
| Helper.MostCommonWordsSpec | helper.py:87 | at most twenty words, most frequent first, each with its exact count and each a kept word |
| Helper.ChatRowsHaveSenders | helper.py:78 | the word count never looks at `group_notification` rows |
| Helper.MediaLineFilterKeepsAll | helper.py:79 | on stripped sender messages, the `<Media omitted>\n` filter removes nothing |
| Helper.MediaLineFilterIsNoOp | helper.py:79 | on any preprocessed chat, the `<Media omitted>\n` filter removes nothing |
| Helper.SenderUsers | helper.py:38 | the non-notification users are the users of the non-notification rows |
| Helper.BusiestUsersSpec | helper.py:38 | at most five senders, most active first, each with its exact count and none `group_notification`, and none left out who is more active than the last one listed |
| Helper.MonthKeyOrder | helper.py:107 | the (year, month number, month name) key order is a total order |
| Helper.MonthGroupsSpec | helper.py:107 | monthly groups are sorted by key, with exact counts covering every selected row |
| Helper.MonthLabelSpec | helper.py:110 | the label is the month name, a dash and the year's digits, and it reads back |
| Helper.MonthLabelInjective | helper.py:110 | distinct month/year pairs get distinct labels |
| Helper.MonthlyTimeline | helper.py:103-112 | each timeline row is a monthly group with its count and its label |
| Helper.DailyTimelineSpec | helper.py:114-120 | daily groups are sorted by date, with exact counts covering every selected row |
| Helper.WeekActivitySpec | helper.py:123-127 | weekday counts are exact, unique and most frequent first |
| Helper.MonthActivitySpec | helper.py:130-134 | month counts are exact, unique and most frequent first |
| Helper.WeekActivityNamesDays | helper.py:127 | on a preprocessed chat, every weekday key is an English day name |

## Left out

- `app.py` is not part of this model. It is the Streamlit page and the only caller, so how the selected user is chosen is not modelled.
- The plotting helpers `create_wordcloud`, `emoji_helper` and `activity_heatmap` are not modelled. They build pictures and emoji tables outside the statistics core.
- Helper.FetchStats: the fourth result, the number of links, is not modelled. URL extraction relies on a third-party URL detector whose rules are not available.
- The percentage table of `fetch_most_busy_user` is not modelled. It rounds floating-point shares to two decimals.
- Helper.MostCommonWords: the stop-word file is a parameter. Reading `stop_hinglish.txt` is I/O. Membership is the Python substring test on that text.
- Only `\d` is restricted to ASCII digits, and `lower()` folds only ASCII letters. `\s`, `str.split()` and `str.strip()` use Python's Unicode whitespace set (`Text.IsSpace`).
- Counting.ValueCountsSpec: ties in `value_counts` and `Counter.most_common` are ordered by first occurrence, with the stable insertion sort of `Counting.ByCount`. The model does not state the pandas tie order, and does not prove the stability.
- The model assumes pandas' nanosecond-resolution `Timestamp`. `to_datetime` then refuses a date outside 1677-09-22 to 2262-04-11 (`OutOfBoundsDatetime`, a `ValueError`), so a column holding `5/3/1600` or `5/3/0023` is refused by that format. Other timestamp resolutions are not modelled.
- A pandas data frame is modelled as a sequence of rows. Column dtypes, the index and `reset_index` are not modelled. A group's `count()` of the `message` column is the group's row count, because no message is missing.
