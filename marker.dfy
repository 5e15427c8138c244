/**
 * The line marker of an exported WhatsApp chat, `[date, time] - ` in its
 * bracketed and bare forms, as the analyzer's regular expression finds it:
 *
 *   \[?(\d{1,2}[/-]\d{1,2}[/-]\d{2,4}),?\s+(\d{1,2}[:\.]\d{2}(?::\d{2})?(?:\s*[AaPp][Mm])?)\]?\s*-\s*
 *
 * Every quantifier of that pattern either cannot give anything back (a digit
 * run followed by a required non-digit, a whitespace run followed by a required
 * non-space) or gives back only where the rest would then fail, so a match at a
 * given position is found by reading the text once from left to right. The
 * search (`re.finditer`, `re.split`) takes the leftmost match, resumes at its
 * end, and repeats.
 */
module Marker {
  import opened Wrappers
  import opened Text
  import opened Strptime
  import DateResolution
  import TimeConversion

  /** Where one match lies in the text: the whole match and its two groups. */
  datatype Match = Match(start: nat, dateStart: nat, dateEnd: nat, timeStart: nat, timeEnd: nat, end: nat)

  /** The groups lie inside the match, in order, and the match is not empty. */
  predicate Ordered(s: string, m: Match) {
    m.start <= m.dateStart < m.dateEnd < m.timeStart < m.timeEnd < m.end <= |s|
  }

  predicate IsDateSeparator(c: char) {
    c == '/' || c == '-'
  }

  predicate IsClockSeparator(c: char) {
    c == ':' || c == '.'
  }

  /** `\d{1,2}[/-]` at `i`: the position after the separator. */
  function DateField(s: string, i: nat): (r: Option<nat>)
    requires i <= |s|
    ensures r.Some? ==> i + 2 <= r.value <= |s|
  {
    var n := DigitRun(s, i);
    if 1 <= n <= 2 && i + n < |s| && IsDateSeparator(s[i + n]) then Some(i + n + 1) else None
  }

  /** The date group `\d{1,2}[/-]\d{1,2}[/-]\d{2,4}` at `i`: where it ends. */
  function DateGroup(s: string, i: nat): (r: Option<nat>)
    requires i <= |s|
    ensures r.Some? ==> i < r.value <= |s|
  {
    match DateField(s, i)
    case None => None
    case Some(j) =>
      match DateField(s, j)
      case None => None
      case Some(k) =>
        var n := DigitRun(s, k);
        if 2 <= n <= 4 then Some(k + n) else None
  }

  /** `,?\s+` at `i`: where the time group begins. */
  function Gap(s: string, i: nat): (r: Option<nat>)
    requires i <= |s|
    ensures r.Some? ==> i < r.value <= |s|
  {
    var j := if i < |s| && s[i] == ',' then i + 1 else i;
    var w := SpaceRun(s, j);
    if w >= 1 then Some(j + w) else None
  }

  /** The time group `\d{1,2}[:\.]\d{2}(?::\d{2})?(?:\s*[AaPp][Mm])?` at `i`: where it ends. */
  function ClockGroup(s: string, i: nat): (r: Option<nat>)
    requires i <= |s|
    ensures r.Some? ==> i < r.value <= |s|
  {
    match MinutesEnd(s, i)
    case None => None
    case Some(g) => Some(SuffixEnd(s, g))
  }

  /** `\d{1,2}[:\.]\d{2}` at `i`: where the minutes end. */
  function MinutesEnd(s: string, i: nat): (r: Option<nat>)
    requires i <= |s|
    ensures r.Some? ==> i + 4 <= r.value <= |s|
  {
    var n := DigitRun(s, i);
    if 1 <= n <= 2 && i + n + 3 <= |s| && IsClockSeparator(s[i + n]) && IsDigit(s[i + n + 1]) && IsDigit(s[i + n + 2])
    then Some(i + n + 3)
    else None
  }

  /** `(?::\d{2})?(?:\s*[AaPp][Mm])?` at `g`: where the time group ends. */
  function SuffixEnd(s: string, g: nat): (r: nat)
    requires g <= |s|
    ensures g <= r <= |s|
  {
    MeridiemEnd(s, SecondsEnd(s, g))
  }

  /** `(?::\d{2})?` at `g`: where the optional seconds end. */
  function SecondsEnd(s: string, g: nat): (h: nat)
    requires g <= |s|
    ensures g <= h <= |s|
  {
    if g + 3 <= |s| && s[g] == ':' && IsDigit(s[g + 1]) && IsDigit(s[g + 2]) then g + 3 else g
  }

  /** `(?:\s*[AaPp][Mm])?` at `h`: where the optional meridiem ends. */
  function MeridiemEnd(s: string, h: nat): (e: nat)
    requires h <= |s|
    ensures h <= e <= |s|
  {
    var w := SpaceRun(s, h);
    if h + w + 2 <= |s| && IsAmPmFirst(s[h + w]) && IsAmPmSecond(s[h + w + 1]) then h + w + 2 else h
  }

  /** `\]?\s*-\s*` at `i`: where the match ends. */
  function Tail(s: string, i: nat): (r: Option<nat>)
    requires i <= |s|
    ensures r.Some? ==> i < r.value <= |s|
  {
    var j := if i < |s| && s[i] == ']' then i + 1 else i;
    var k := j + SpaceRun(s, j);
    if k < |s| && s[k] == '-' then Some(k + 1 + SpaceRun(s, k + 1)) else None
  }

  /** The match of the pattern that begins exactly at `p`, if there is one. */
  function MatchAt(s: string, p: nat): (r: Option<Match>)
    requires p <= |s|
    ensures r.Some? ==> r.value.start == p && Ordered(s, r.value)
  {
    var a := if p < |s| && s[p] == '[' then p + 1 else p;
    match DateGroup(s, a)
    case None => None
    case Some(b) =>
      match Gap(s, b)
      case None => None
      case Some(c) =>
        match ClockGroup(s, c)
        case None => None
        case Some(d) =>
          match Tail(s, d)
          case None => None
          case Some(e) => Some(Match(p, a, b, c, d, e))
  }

  /** The match of the pattern at each position of the text, end of text included. */
  function Hits(s: string): (hits: seq<Option<Match>>)
    ensures |hits| == |s| + 1
    ensures forall q | 0 <= q <= |s| :: hits[q] == MatchAt(s, q)
  {
    seq(|s| + 1, q requires 0 <= q <= |s| => MatchAt(s, q))
  }

  /** A table of matches for `s`: an entry at `q` is a match that begins at `q`. */
  predicate ValidHits(s: string, hits: seq<Option<Match>>) {
    |hits| == |s| + 1
    && forall q | 0 <= q < |hits| :: hits[q].Some? ==> hits[q].value.start == q && Ordered(s, hits[q].value)
  }

  lemma HitsValid(s: string)
    ensures ValidHits(s, Hits(s))
  {
  }

  /** The leftmost entry of the table at or after `p` (`re.search` from `p`). */
  function FindFrom(s: string, hits: seq<Option<Match>>, p: nat): (r: Option<Match>)
    requires ValidHits(s, hits) && p <= |s|
    ensures r.Some? ==> p <= r.value.start && Ordered(s, r.value) && hits[r.value.start] == r
    decreases |s| - p
  {
    match hits[p]
    case Some(m) => Some(m)
    case None => if p == |s| then None else FindFrom(s, hits, p + 1)
  }

  /** The search finds the leftmost entry: none lies before the one it returns, nor anywhere when it fails. */
  lemma {:induction false} NoneBeforeFound(s: string, hits: seq<Option<Match>>, p: nat, q: nat)
    requires ValidHits(s, hits) && p <= q <= |s|
    requires FindFrom(s, hits, p).None? || q < FindFrom(s, hits, p).value.start
    ensures hits[q].None?
    decreases q - p
  {
    if q > p {
      NoneBeforeFound(s, hits, p + 1, q);
    }
  }

  /** The matches `re.finditer` yields from `p` on: leftmost first, each search resuming where the last match ended. */
  function MatchesFrom(s: string, hits: seq<Option<Match>>, p: nat): (ms: seq<Match>)
    requires ValidHits(s, hits) && p <= |s|
    ensures forall i | 0 <= i < |ms| :: Ordered(s, ms[i]) && p <= ms[i].start
    ensures forall i | 0 < i < |ms| :: ms[i - 1].end <= ms[i].start
    decreases |s| - p
  {
    match FindFrom(s, hits, p)
    case None => []
    case Some(m) => [m] + MatchesFrom(s, hits, m.end)
  }

  function DateText(s: string, m: Match): string
    requires Ordered(s, m)
  {
    s[m.dateStart..m.dateEnd]
  }

  function TimeText(s: string, m: Match): string
    requires Ordered(s, m)
  {
    s[m.timeStart..m.timeEnd]
  }

  /**
   * `re.split(pattern, s[p..])`: the text before each match, then the match's
   * two groups, and after the last match the rest of the text.
   */
  function SplitFrom(s: string, hits: seq<Option<Match>>, p: nat): seq<string>
    requires ValidHits(s, hits) && p <= |s|
    decreases |s| - p
  {
    match FindFrom(s, hits, p)
    case None => [s[p..]]
    case Some(m) => [s[p..m.start], DateText(s, m), TimeText(s, m)] + SplitFrom(s, hits, m.end)
  }

  /** The slice `xs[3::3]`. */
  function Stride3<T>(xs: seq<T>): (r: seq<T>)
    ensures |r| == if |xs| <= 3 then 0 else (|xs| - 1) / 3
    ensures forall i | 0 <= i < |r| :: 3 * i + 3 < |xs| && r[i] == xs[3 * i + 3]
    decreases |xs|
  {
    if |xs| <= 3 then [] else [xs[3]] + Stride3(xs[3..])
  }

  /** Where the text after a match ends: at the next match, or at the end of the chat. */
  function NextStart(s: string, hits: seq<Option<Match>>, q: nat): (n: nat)
    requires ValidHits(s, hits) && q <= |s|
    ensures q <= n <= |s|
  {
    match FindFrom(s, hits, q)
    case None => |s|
    case Some(m) => m.start
  }

  /** The messages of the chat as a reader sees them: the text after each marker, up to the next one. */
  function MessagesFrom(s: string, hits: seq<Option<Match>>, p: nat): (r: seq<string>)
    requires ValidHits(s, hits) && p <= |s|
    ensures |r| == |MatchesFrom(s, hits, p)|
    decreases |s| - p
  {
    match FindFrom(s, hits, p)
    case None => []
    case Some(m) => [s[m.end..NextStart(s, hits, m.end)]] + MessagesFrom(s, hits, m.end)
  }

  /**
   * The split list lines up with the matches: one leading piece, then for each
   * match its date, its time and the text that follows it; taking every third
   * piece from the fourth on yields exactly the messages.
   */
  lemma SplitAlignment(s: string, hits: seq<Option<Match>>, p: nat)
    requires ValidHits(s, hits) && p <= |s|
    ensures |SplitFrom(s, hits, p)| == 3 * |MatchesFrom(s, hits, p)| + 1
    ensures forall i | 0 <= i < |MatchesFrom(s, hits, p)| ::
              SplitFrom(s, hits, p)[3 * i + 1] == DateText(s, MatchesFrom(s, hits, p)[i])
              && SplitFrom(s, hits, p)[3 * i + 2] == TimeText(s, MatchesFrom(s, hits, p)[i])
    ensures Stride3(SplitFrom(s, hits, p)) == MessagesFrom(s, hits, p)
  {
    SplitGroups(s, hits, p);
    SplitStride(s, hits, p);
  }

  /** The first piece of the split runs from `q` to the next match, or to the end. */
  lemma SplitHead(s: string, hits: seq<Option<Match>>, q: nat)
    requires ValidHits(s, hits) && q <= |s|
    ensures |SplitFrom(s, hits, q)| >= 1 && SplitFrom(s, hits, q)[0] == s[q..NextStart(s, hits, q)]
  {
    match FindFrom(s, hits, q)
    case None =>
    case Some(m) =>
  }

  lemma SplitGroups(s: string, hits: seq<Option<Match>>, p: nat)
    requires ValidHits(s, hits) && p <= |s|
    ensures |SplitFrom(s, hits, p)| == 3 * |MatchesFrom(s, hits, p)| + 1
    ensures forall i | 0 <= i < |MatchesFrom(s, hits, p)| ::
              SplitFrom(s, hits, p)[3 * i + 1] == DateText(s, MatchesFrom(s, hits, p)[i])
              && SplitFrom(s, hits, p)[3 * i + 2] == TimeText(s, MatchesFrom(s, hits, p)[i])
  {
    SplitLength(s, hits, p);
    forall i | 0 <= i < |MatchesFrom(s, hits, p)|
      ensures SplitFrom(s, hits, p)[3 * i + 1] == DateText(s, MatchesFrom(s, hits, p)[i])
      ensures SplitFrom(s, hits, p)[3 * i + 2] == TimeText(s, MatchesFrom(s, hits, p)[i])
    {
      SplitGroupsAt(s, hits, p, i);
    }
  }

  lemma {:induction false} SplitLength(s: string, hits: seq<Option<Match>>, p: nat)
    requires ValidHits(s, hits) && p <= |s|
    ensures |SplitFrom(s, hits, p)| == 3 * |MatchesFrom(s, hits, p)| + 1
    decreases |s| - p
  {
    match FindFrom(s, hits, p)
    case None =>
    case Some(m) =>
      SplitLength(s, hits, m.end);
  }

  /** The pieces after the leading one are the date and time of match `i`. */
  lemma SplitGroupsAt(s: string, hits: seq<Option<Match>>, p: nat, i: nat)
    requires ValidHits(s, hits) && p <= |s|
    requires i < |MatchesFrom(s, hits, p)|
    ensures 3 * i + 2 < |SplitFrom(s, hits, p)|
    ensures SplitFrom(s, hits, p)[3 * i + 1] == DateText(s, MatchesFrom(s, hits, p)[i])
    ensures SplitFrom(s, hits, p)[3 * i + 2] == TimeText(s, MatchesFrom(s, hits, p)[i])
  {
    SplitLength(s, hits, p);
    SplitDateAt(s, hits, p, i);
    SplitTimeAt(s, hits, p, i);
  }

  lemma {:induction false} SplitDateAt(s: string, hits: seq<Option<Match>>, p: nat, i: nat)
    requires ValidHits(s, hits) && p <= |s|
    requires i < |MatchesFrom(s, hits, p)| && 3 * i + 1 < |SplitFrom(s, hits, p)|
    ensures SplitFrom(s, hits, p)[3 * i + 1] == DateText(s, MatchesFrom(s, hits, p)[i])
    decreases |s| - p
  {
    var m := FindFrom(s, hits, p).value;
    var rest, ms := SplitFrom(s, hits, m.end), MatchesFrom(s, hits, m.end);
    assert SplitFrom(s, hits, p) == [s[p..m.start], DateText(s, m), TimeText(s, m)] + rest;
    assert MatchesFrom(s, hits, p) == [m] + ms;
    if i > 0 {
      SplitLength(s, hits, m.end);
      SplitDateAt(s, hits, m.end, i - 1);
      AfterThree(s[p..m.start], DateText(s, m), TimeText(s, m), rest, 3 * (i - 1) + 1);
      assert SplitFrom(s, hits, p)[3 * i + 1] == rest[3 * (i - 1) + 1];
      assert MatchesFrom(s, hits, p)[i] == ms[i - 1];
    }
  }

  lemma {:induction false} SplitTimeAt(s: string, hits: seq<Option<Match>>, p: nat, i: nat)
    requires ValidHits(s, hits) && p <= |s|
    requires i < |MatchesFrom(s, hits, p)| && 3 * i + 2 < |SplitFrom(s, hits, p)|
    ensures SplitFrom(s, hits, p)[3 * i + 2] == TimeText(s, MatchesFrom(s, hits, p)[i])
    decreases |s| - p
  {
    var m := FindFrom(s, hits, p).value;
    var rest, ms := SplitFrom(s, hits, m.end), MatchesFrom(s, hits, m.end);
    assert SplitFrom(s, hits, p) == [s[p..m.start], DateText(s, m), TimeText(s, m)] + rest;
    assert MatchesFrom(s, hits, p) == [m] + ms;
    if i > 0 {
      SplitLength(s, hits, m.end);
      SplitTimeAt(s, hits, m.end, i - 1);
      AfterThree(s[p..m.start], DateText(s, m), TimeText(s, m), rest, 3 * (i - 1) + 2);
      assert SplitFrom(s, hits, p)[3 * i + 2] == rest[3 * (i - 1) + 2];
      assert MatchesFrom(s, hits, p)[i] == ms[i - 1];
    }
  }

  lemma AfterThree<T>(a: T, b: T, c: T, rest: seq<T>, j: nat)
    requires j < |rest|
    ensures ([a, b, c] + rest)[j + 3] == rest[j]
  {
  }

  lemma {:induction false} SplitStride(s: string, hits: seq<Option<Match>>, p: nat)
    requires ValidHits(s, hits) && p <= |s|
    ensures Stride3(SplitFrom(s, hits, p)) == MessagesFrom(s, hits, p)
    decreases |s| - p
  {
    match FindFrom(s, hits, p)
    case None =>
    case Some(m) =>
      SplitStride(s, hits, m.end);
      SplitHead(s, hits, m.end);
      var rest := SplitFrom(s, hits, m.end);
      var pieces := [s[p..m.start], DateText(s, m), TimeText(s, m)] + rest;
      assert SplitFrom(s, hits, p) == pieces;
      assert pieces[3..] == rest;
      assert Stride3(pieces) == [rest[0]] + Stride3(rest);
  }

  /** Where the search for match `i` began: `p` for the first, else the end of the previous match. */
  function SearchStart(p: nat, ms: seq<Match>, i: nat): nat
    requires i <= |ms|
  {
    if i == 0 then p else ms[i - 1].end
  }

  /** Each match is the table's entry at its start, found at or after the point where its search began. */
  lemma {:induction false} MatchesAreEntries(s: string, hits: seq<Option<Match>>, p: nat)
    requires ValidHits(s, hits) && p <= |s|
    ensures forall i | 0 <= i < |MatchesFrom(s, hits, p)| ::
              SearchStart(p, MatchesFrom(s, hits, p), i) <= MatchesFrom(s, hits, p)[i].start
              && hits[MatchesFrom(s, hits, p)[i].start] == Some(MatchesFrom(s, hits, p)[i])
    decreases |s| - p
  {
    var all := MatchesFrom(s, hits, p);
    match FindFrom(s, hits, p)
    case None =>
    case Some(m) =>
      MatchesAreEntries(s, hits, m.end);
      var ms := MatchesFrom(s, hits, m.end);
      assert all == [m] + ms;
      forall i | 1 <= i < |all|
        ensures SearchStart(p, all, i) == SearchStart(m.end, ms, i - 1) && all[i] == ms[i - 1]
      {
        if i > 1 {
          assert all[i - 1] == ms[i - 2];
        }
      }
  }

  /** No entry of the table lies between the point where a search began and the match it found. */
  lemma NoEntryBeforeAMatch(s: string, hits: seq<Option<Match>>, p: nat)
    requires ValidHits(s, hits) && p <= |s|
    ensures forall i, q | 0 <= i < |MatchesFrom(s, hits, p)| && SearchStart(p, MatchesFrom(s, hits, p), i) <= q < MatchesFrom(s, hits, p)[i].start ::
              hits[q].None?
  {
    forall i, q | 0 <= i < |MatchesFrom(s, hits, p)| && SearchStart(p, MatchesFrom(s, hits, p), i) <= q < MatchesFrom(s, hits, p)[i].start
      ensures hits[q].None?
    {
      NoEntryBeforeMatch(s, hits, p, i, q);
    }
  }

  /** The same for match `i` and position `q`. */
  lemma {:induction false} NoEntryBeforeMatch(s: string, hits: seq<Option<Match>>, p: nat, i: nat, q: nat)
    requires ValidHits(s, hits) && p <= |s|
    requires i < |MatchesFrom(s, hits, p)|
    requires SearchStart(p, MatchesFrom(s, hits, p), i) <= q < MatchesFrom(s, hits, p)[i].start
    ensures hits[q].None?
    decreases |s| - p
  {
    var all := MatchesFrom(s, hits, p);
    var m := FindFrom(s, hits, p).value;
    var ms := MatchesFrom(s, hits, m.end);
    assert all == [m] + ms;
    if i == 0 {
      NoneBeforeFound(s, hits, p, q);
    } else {
      assert all[i] == ms[i - 1];
      assert SearchStart(p, all, i) == SearchStart(m.end, ms, i - 1) by {
        if i > 1 {
          assert all[i - 1] == ms[i - 2];
        }
      }
      NoEntryBeforeMatch(s, hits, m.end, i - 1, q);
    }
  }

  /** No entry of the table lies after the end of the last match. */
  lemma {:induction false} NoEntryAfterTheLast(s: string, hits: seq<Option<Match>>, p: nat)
    requires ValidHits(s, hits) && p <= |s|
    ensures SearchStart(p, MatchesFrom(s, hits, p), |MatchesFrom(s, hits, p)|) <= |s|
    ensures forall q | SearchStart(p, MatchesFrom(s, hits, p), |MatchesFrom(s, hits, p)|) <= q <= |s| :: hits[q].None?
    decreases |s| - p
  {
    match FindFrom(s, hits, p)
    case None =>
      forall q | p <= q <= |s| ensures hits[q].None? {
        NoneBeforeFound(s, hits, p, q);
      }
    case Some(m) =>
      NoEntryAfterTheLast(s, hits, m.end);
      MatchesStep(s, hits, p);
      LastSearchStart(p, m, MatchesFrom(s, hits, m.end));
  }

  /** A match found at the front is followed by the matches after its end. */
  lemma MatchesStep(s: string, hits: seq<Option<Match>>, p: nat)
    requires ValidHits(s, hits) && p <= |s| && FindFrom(s, hits, p).Some?
    ensures FindFrom(s, hits, p).value.end <= |s|
    ensures MatchesFrom(s, hits, p) == [FindFrom(s, hits, p).value] + MatchesFrom(s, hits, FindFrom(s, hits, p).value.end)
  {
  }

  /** Putting a match in front does not move where the search after the last match begins. */
  lemma LastSearchStart(p: nat, m: Match, ms: seq<Match>)
    ensures SearchStart(p, [m] + ms, |ms| + 1) == SearchStart(m.end, ms, |ms|)
  {
    if ms != [] {
      assert ([m] + ms)[|ms|] == ms[|ms| - 1];
    }
  }

  // The chat as the analyzer splits it.

  /** The matches of the pattern in the whole chat, in order (`re.finditer`). */
  function Matches(s: string): (ms: seq<Match>)
    ensures forall i | 0 <= i < |ms| :: Ordered(s, ms[i])
  {
    HitsValid(s);
    MatchesFrom(s, Hits(s), 0)
  }

  /** The analyzer's message column, `re.split(pattern, s)[3::3]`. */
  function SplitMessages(s: string): seq<string> {
    HitsValid(s);
    Stride3(SplitFrom(s, Hits(s), 0))
  }

  /** The messages as a reader sees them: the text after each marker, up to the next marker or the end. */
  function Messages(s: string): seq<string> {
    HitsValid(s);
    MessagesFrom(s, Hits(s), 0)
  }

  /** The date column: the first group of each match, in order. */
  function DateColumn(s: string): (r: seq<string>)
    ensures |r| == |Matches(s)|
  {
    var ms := Matches(s);
    seq(|ms|, i requires 0 <= i < |ms| => DateText(s, ms[i]))
  }

  /** The time column: the second group of each match, in order. */
  function TimeColumn(s: string): (r: seq<string>)
    ensures |r| == |Matches(s)|
  {
    var ms := Matches(s);
    seq(|ms|, i requires 0 <= i < |ms| => TimeText(s, ms[i]))
  }

  /**
   * The three columns the analyzer builds have one entry per marker, and the
   * split list agrees with the matches: its groups are the dates and times and
   * its every third piece is the messages.
   */
  lemma ColumnsAlign(s: string)
    ensures |SplitMessages(s)| == |DateColumn(s)| == |TimeColumn(s)| == |Matches(s)|
    ensures SplitMessages(s) == Messages(s)
    ensures forall i | 0 <= i < |Matches(s)| ::
              var pieces := (HitsValid(s); SplitFrom(s, Hits(s), 0));
              pieces[3 * i + 1] == DateColumn(s)[i] && pieces[3 * i + 2] == TimeColumn(s)[i]
  {
    HitsValid(s);
    SplitAlignment(s, Hits(s), 0);
  }

  /**
   * The matches are the leftmost non-overlapping matches of the pattern: each
   * is the pattern's match at its own start, none begins between the end of one
   * and the start of the next (or before the first), and none after the last.
   */
  lemma MatchesAreLeftmost(s: string)
    ensures forall i | 0 <= i < |Matches(s)| :: MatchAt(s, Matches(s)[i].start) == Some(Matches(s)[i])
    ensures forall i | 0 < i < |Matches(s)| :: Matches(s)[i - 1].end <= Matches(s)[i].start
    ensures forall i, q | 0 <= i < |Matches(s)| && SearchStart(0, Matches(s), i) <= q < Matches(s)[i].start ::
              MatchAt(s, q).None?
    ensures forall q | SearchStart(0, Matches(s), |Matches(s)|) <= q <= |s| :: MatchAt(s, q).None?
  {
    HitsValid(s);
    var hits := Hits(s);
    MatchesAreEntries(s, hits, 0);
    NoEntryBeforeAMatch(s, hits, 0);
    NoEntryAfterTheLast(s, hits, 0);
  }

  /** A match ends with the tail `\]?\s*-\s*` read right after its time group. */
  lemma MatchTail(s: string, p: nat)
    requires p <= |s| && MatchAt(s, p).Some?
    ensures Tail(s, MatchAt(s, p).value.timeEnd) == Some(MatchAt(s, p).value.end)
  {
  }

  /** Every match contains the dash that separates the marker from the message. */
  lemma MatchHasDash(s: string, p: nat) returns (k: nat)
    requires p <= |s| && MatchAt(s, p).Some?
    ensures p <= k < |s| && s[k] == '-'
  {
    MatchTail(s, p);
    k := TailHasDash(s, MatchAt(s, p).value.timeEnd);
  }

  lemma TailHasDash(s: string, i: nat) returns (k: nat)
    requires i <= |s| && Tail(s, i).Some?
    ensures i <= k < |s| && s[k] == '-'
  {
    var j := if i < |s| && s[i] == ']' then i + 1 else i;
    k := j + SpaceRun(s, j);
  }

  /** A chat without a single `-` has no marker, so no messages. */
  lemma NoDashNoMessages(s: string)
    requires forall k | 0 <= k < |s| :: s[k] != '-'
    ensures Matches(s) == [] && SplitMessages(s) == []
  {
    HitsValid(s);
    var hits := Hits(s);
    forall q | 0 <= q <= |s| ensures hits[q].None? {
      if MatchAt(s, q).Some? {
        var k := MatchHasDash(s, q);
      }
    }
    FindNothing(s, hits, 0);
    ColumnsAlign(s);
  }

  lemma {:induction false} FindNothing(s: string, hits: seq<Option<Match>>, p: nat)
    requires ValidHits(s, hits) && p <= |s|
    requires forall q | p <= q <= |s| :: hits[q].None?
    ensures FindFrom(s, hits, p).None?
    decreases |s| - p
  {
    if p < |s| {
      FindNothing(s, hits, p + 1);
    }
  }

  // The groups of a match, in the shapes the date and time readers expect.

  /** A match's groups are the date and time groups read at their starts. */
  lemma MatchGroups(s: string, p: nat)
    requires p <= |s| && MatchAt(s, p).Some?
    ensures DateGroup(s, MatchAt(s, p).value.dateStart) == Some(MatchAt(s, p).value.dateEnd)
    ensures ClockGroup(s, MatchAt(s, p).value.timeStart) == Some(MatchAt(s, p).value.timeEnd)
  {
  }

  /**
   * The date group is one or two digits, a separator, one or two digits, a
   * separator and two to four digits; each separator is `/` or `-`.
   */
  lemma DateGroupShape(s: string, i: nat) returns (f1: string, s1: char, f2: string, s2: char, f3: string)
    requires i <= |s| && DateGroup(s, i).Some?
    ensures DateResolution.DateShape(s[i..DateGroup(s, i).value], f1, s1, f2, s2, f3)
    ensures IsDateSeparator(s1) && IsDateSeparator(s2)
  {
    var j := DateField(s, i).value;
    var k := DateField(s, j).value;
    var e := DateGroup(s, i).value;
    f1, s1 := DateFieldShape(s, i);
    f2, s2 := DateFieldShape(s, j);
    f3 := s[k..e];
    assert AllDigits(f3) && 2 <= |f3| <= 4 by {
      assert e == k + DigitRun(s, k);
    }
    SliceThree(s, i, j, k, e);
  }

  /** A slice cut in two. */
  lemma SliceTwo(s: string, i: nat, j: nat, e: nat)
    requires i <= j <= e <= |s|
    ensures s[i..e] == s[i..j] + s[j..e]
  {
  }

  /** A slice cut in three places. */
  lemma SliceThree(s: string, i: nat, j: nat, k: nat, e: nat)
    requires i <= j <= k <= e <= |s|
    ensures s[i..e] == s[i..j] + s[j..k] + s[k..e]
  {
    SliceTwo(s, i, j, e);
    SliceTwo(s, j, k, e);
  }

  /** One `\d{1,2}[/-]` field of a date group. */
  lemma DateFieldShape(s: string, i: nat) returns (f: string, c: char)
    requires i <= |s| && DateField(s, i).Some?
    ensures s[i..DateField(s, i).value] == f + [c]
    ensures AllDigits(f) && 1 <= |f| <= 2 && IsDateSeparator(c)
  {
    var n := DigitRun(s, i);
    f, c := s[i..i + n], s[i + n];
    assert s[i..DateField(s, i).value] == f + [c];
  }

  /** Two digits after a colon: the seconds `(?::\d{2})`. */
  predicate Seconds(r: string) {
    |r| == 3 && r[0] == ':' && IsDigit(r[1]) && IsDigit(r[2])
  }

  /** Optional whitespace, then am or pm in either case: `\s*[AaPp][Mm]`. */
  predicate Meridiem(r: string) {
    |r| >= 2 && AllSpace(r[..|r| - 2]) && IsAmPmFirst(r[|r| - 2]) && IsAmPmSecond(r[|r| - 1])
  }

  /** What may follow the minutes in a time group: nothing, seconds, a meridiem, or both in that order. */
  predicate ClockSuffix(r: string) {
    r == [] || Seconds(r) || Meridiem(r) || (|r| > 3 && Seconds(r[..3]) && Meridiem(r[3..]))
  }

  /** A suffix never begins with a digit, so the minutes end where the reader expects. */
  lemma ClockSuffixStartsWithNonDigit(r: string)
    requires ClockSuffix(r) && r != []
    ensures !IsDigit(r[0])
  {
    if Meridiem(r) && |r| > 2 {
      assert r[0] == r[..|r| - 2][0];
    }
  }

  /** What the suffix reader consumes is a clock suffix. */
  lemma SuffixShape(s: string, g: nat)
    requires g <= |s|
    ensures ClockSuffix(s[g..SuffixEnd(s, g)])
  {
    var h := SuffixParts(s, g);
    var e := SuffixEnd(s, g);
    if e == h {
      if h == g {
        assert s[g..e] == [];
      }
    } else if h != g {
      SliceTwo(s, g, h, e);
      SplitAfterThree(s[g..h], s[h..e]);
    }
  }

  /** The suffix reader takes optional seconds up to `h`, then an optional meridiem. */
  lemma SuffixParts(s: string, g: nat) returns (h: nat)
    requires g <= |s|
    ensures g <= h <= SuffixEnd(s, g)
    ensures h == g || (h == g + 3 && Seconds(s[g..h]))
    ensures SuffixEnd(s, g) == h || Meridiem(s[h..SuffixEnd(s, g)])
  {
    h := SecondsEnd(s, g);
    if MeridiemEnd(s, h) != h {
      MeridiemAt(s, h);
    }
  }

  lemma SplitAfterThree<T>(a: seq<T>, b: seq<T>)
    requires |a| == 3
    ensures (a + b)[..3] == a && (a + b)[3..] == b
  {
  }

  /** Whitespace then am or pm, read from `h`, is a meridiem. */
  lemma MeridiemAt(s: string, h: nat)
    requires h <= |s|
    requires h + SpaceRun(s, h) + 2 <= |s|
    requires IsAmPmFirst(s[h + SpaceRun(s, h)]) && IsAmPmSecond(s[h + SpaceRun(s, h) + 1])
    ensures Meridiem(s[h..h + SpaceRun(s, h) + 2])
  {
    var w := SpaceRun(s, h);
    var e := h + w + 2;
    assert s[h..e][..|s[h..e]| - 2] == s[h..h + w];
  }


  /**
   * The time group is one or two hour digits, `:` or `.`, two minute digits,
   * then optional seconds and an optional am/pm.
   */
  lemma ClockGroupShape(s: string, i: nat) returns (hs: string, sep: char, ms: string, rest: string)
    requires i <= |s| && ClockGroup(s, i).Some?
    ensures TimeConversion.ClockShape(s[i..ClockGroup(s, i).value], hs, sep, ms, rest)
    ensures IsClockSeparator(sep) && ClockSuffix(rest)
  {
    var g := MinutesEnd(s, i).value;
    var e := ClockGroup(s, i).value;
    hs, sep, ms := MinutesShape(s, i);
    rest := s[g..e];
    SliceTwo(s, i, g, e);
    SuffixShape(s, g);
    if rest != [] {
      ClockSuffixStartsWithNonDigit(rest);
    }
  }

  /** The hour, the separator and the minutes of a time group. */
  lemma MinutesShape(s: string, i: nat) returns (hs: string, sep: char, ms: string)
    requires i <= |s| && MinutesEnd(s, i).Some?
    ensures s[i..MinutesEnd(s, i).value] == hs + [sep] + ms
    ensures AllDigits(hs) && 1 <= |hs| <= 2 && IsClockSeparator(sep) && AllDigits(ms) && |ms| == 2
  {
    var n := DigitRun(s, i);
    var g := MinutesEnd(s, i).value;
    hs, sep, ms := s[i..i + n], s[i + n], s[i + n + 1..g];
    assert s[i..g] == s[i..i + n] + s[i + n..i + n + 1] + s[i + n + 1..g];
  }
}
