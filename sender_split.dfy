/**
 * How the analyzer separates the sender from the message text: it splits the
 * text after a marker with `re.split('([^:]+):', x)`. When that yields more
 * than one piece, the sender is the first group, stripped, and the message is
 * the last piece, stripped; otherwise the row is a group notification and the
 * text is kept as it is.
 */
module SenderSplit {
  import opened Wrappers
  import opened Text

  const GroupNotification: string := "group_notification"

  predicate NoColon(t: string) {
    forall k | 0 <= k < |t| :: t[k] != ':'
  }

  /** The number of characters other than `:` from `i` on. */
  function TextRun(x: string, i: nat): (n: nat)
    requires i <= |x|
    ensures i + n <= |x|
    ensures i + n < |x| ==> x[i + n] == ':'
    decreases |x| - i
  {
    if i == |x| || x[i] == ':' then 0 else 1 + TextRun(x, i + 1)
  }

  /**
   * `([^:]+):` at `p`: the position of the colon that ends the match. The run
   * `[^:]+` takes every non-colon it can; if the text ends before a colon,
   * giving characters back only puts a non-colon where the colon must be.
   */
  function ColonMatchAt(x: string, p: nat): (r: Option<nat>)
    requires p <= |x|
    ensures r.Some? ==> p < r.value < |x| && x[r.value] == ':'
  {
    var n := TextRun(x, p);
    if n >= 1 && p + n < |x| then Some(p + n) else None
  }

  /** The run holds no colon. */
  lemma {:induction false} TextRunHasNoColon(x: string, i: nat)
    requires i <= |x|
    ensures NoColon(x[i..i + TextRun(x, i)])
    decreases |x| - i
  {
    if i < |x| && x[i] != ':' {
      TextRunHasNoColon(x, i + 1);
      var n := TextRun(x, i);
      assert x[i..i + n] == [x[i]] + x[i + 1..i + n];
    }
  }

  /** A match's group holds no colon. */
  lemma GroupHasNoColon(x: string, p: nat)
    requires p <= |x| && ColonMatchAt(x, p).Some?
    ensures NoColon(x[p..ColonMatchAt(x, p).value])
  {
    TextRunHasNoColon(x, p);
  }

  /** The leftmost match at or after `p`: its start and the position of its colon. */
  function ColonSearch(x: string, p: nat): (r: Option<(nat, nat)>)
    requires p <= |x|
    ensures r.Some? ==> p <= r.value.0 <= |x| && ColonMatchAt(x, r.value.0) == Some(r.value.1)
    decreases |x| - p
  {
    match ColonMatchAt(x, p)
    case Some(c) => Some((p, c))
    case None => if p == |x| then None else ColonSearch(x, p + 1)
  }

  /** `re.split('([^:]+):', x[p..])`: text before each match, the match's group, and at the end the rest. */
  function ColonSplitFrom(x: string, p: nat): (r: seq<string>)
    requires p <= |x|
    ensures |r| % 2 == 1
    decreases |x| - p
  {
    match ColonSearch(x, p)
    case None => [x[p..]]
    case Some((q, c)) => [x[p..q], x[q..c]] + ColonSplitFrom(x, c + 1)
  }

  function ColonSplit(x: string): seq<string> {
    ColonSplitFrom(x, 0)
  }

  /** The `user` column. */
  function UserOf(x: string): string {
    var pieces := ColonSplit(x);
    if |pieces| > 1 then Strip(pieces[1]) else GroupNotification
  }

  /** The `message` column. */
  function MessageOf(x: string): string {
    var pieces := ColonSplit(x);
    if |pieces| > 1 then Strip(pieces[|pieces| - 1]) else x
  }

  /** Some non-colon character has a colon after it. */
  predicate HasSender(x: string) {
    exists i, j | 0 <= i < j < |x| :: x[i] != ':' && x[j] == ':'
  }

  /** Puts the split pieces back together, a colon after every group. */
  function Rejoin(pieces: seq<string>): string
    requires |pieces| % 2 == 1
  {
    if |pieces| == 1 then pieces[0] else pieces[0] + pieces[1] + ":" + Rejoin(pieces[2..])
  }

  /** Splitting loses nothing: the pieces and the colons that ended each group make up the text again. */
  lemma {:induction false} RejoinSplit(x: string, p: nat)
    requires p <= |x|
    ensures Rejoin(ColonSplitFrom(x, p)) == x[p..]
    decreases |x| - p
  {
    match ColonSearch(x, p)
    case None =>
    case Some((q, c)) =>
      RejoinSplit(x, c + 1);
      var pieces := ColonSplitFrom(x, p);
      assert pieces[2..] == ColonSplitFrom(x, c + 1);
      assert x[p..] == x[p..q] + x[q..c] + ":" + x[c + 1..] by {
        SplitAround(x, p, q, c);
      }
  }

  /** A search from `p` finds a match exactly when some non-colon at or after `p` has a colon after it. */
  lemma {:induction false} ColonSearchFinds(x: string, p: nat)
    requires p <= |x|
    ensures ColonSearch(x, p).Some? <==> exists i, j | p <= i < j < |x| :: x[i] != ':' && x[j] == ':'
    decreases |x| - p
  {
    if p < |x| {
      ColonSearchFinds(x, p + 1);
      if ColonMatchAt(x, p).None? && x[p] != ':' {
        // The run from `p` reaches the end, so no colon follows anything from `p` on.
        var n := TextRun(x, p);
        TextRunHasNoColon(x, p);
        forall i, j | p <= i < j < |x| ensures !(x[i] != ':' && x[j] == ':') {
          assert x[j] == x[p..p + n][j - p];
        }
      }
    }
  }

  /** The text has a sender exactly when some non-colon has a colon after it. */
  lemma SenderIff(x: string)
    ensures |ColonSplit(x)| > 1 <==> HasSender(x)
  {
    ColonSearchFinds(x, 0);
  }

  /**
   * The sender is the first run of non-colons, which is followed by a colon:
   * the text is some colons, the sender's raw group, a colon, and the rest.
   */
  lemma SenderIsFirstRun(x: string) returns (lead: string, rest: string)
    requires HasSender(x)
    ensures |ColonSplit(x)| > 1
    ensures x == lead + ColonSplit(x)[1] + ":" + rest
    ensures forall k | 0 <= k < |lead| :: lead[k] == ':'
    ensures ColonSplit(x)[1] != [] && NoColon(ColonSplit(x)[1])
  {
    SenderIff(x);
    var (q, c) := ColonSearch(x, 0).value;
    LeadIsColons(x, 0);
    GroupHasNoColon(x, q);
    lead, rest := x[..q], x[c + 1..];
    SplitAround(x, 0, q, c);
    assert x[0..] == x && x[0..q] == lead;
  }

  /** The text from `p` is what lies before `q`, the group from `q` to the colon at `c`, the colon, and the rest. */
  lemma SplitAround(x: string, p: nat, q: nat, c: nat)
    requires p <= q <= c < |x| && x[c] == ':'
    ensures x[p..] == x[p..q] + x[q..c] + ":" + x[c + 1..]
  {
    assert x[p..] == x[p..q] + x[q..];
    assert x[q..] == x[q..c] + x[c..];
    assert x[c..] == [x[c]] + x[c + 1..];
  }

  /** Everything the search skips over before its match is colons. */
  lemma {:induction false} LeadIsColons(x: string, p: nat)
    requires p <= |x| && ColonSearch(x, p).Some?
    ensures forall k | p <= k < ColonSearch(x, p).value.0 :: x[k] == ':'
    decreases |x| - p
  {
    if ColonMatchAt(x, p).None? {
      LeadIsColons(x, p + 1);
      if x[p] != ':' {
        TextToTheEnd(x, p);
        assert false;
      }
    }
  }

  /** A non-colon at `p` where no match begins runs to the end of the text: no match begins later either. */
  lemma TextToTheEnd(x: string, p: nat)
    requires p < |x| && x[p] != ':' && ColonMatchAt(x, p).None?
    ensures ColonSearch(x, p).None?
  {
    ColonSearchFinds(x, p);
    var n := TextRun(x, p);
    TextRunHasNoColon(x, p);
    forall i, j | p <= i < j < |x| ensures !(x[i] != ':' && x[j] == ':') {
      assert x[j] == x[p..p + n][j - p];
    }
  }

  /** Stripping whitespace cannot bring in a colon. */
  lemma StripKeepsNoColon(g: string)
    requires NoColon(g)
    ensures NoColon(Strip(g))
  {
    var k0 := SpaceRun(g, 0);
    var r := Strip(g);
    forall k | 0 <= k < |r| ensures r[k] != ':' {
      assert r[k] == g[k0..k0 + |r|][k];
    }
  }

  /** The user never contains a colon; with a sender it is trimmed, without one it is the notification marker. */
  lemma UserHasNoColon(x: string)
    ensures NoColon(UserOf(x))
    ensures HasSender(x) ==> Trimmed(UserOf(x))
    ensures !HasSender(x) ==> UserOf(x) == GroupNotification
  {
    SenderIff(x);
    if HasSender(x) {
      var lead, rest := SenderIsFirstRun(x);
      StripKeepsNoColon(ColonSplit(x)[1]);
    }
  }

  /** A text with a sender gives a trimmed message; a notification keeps its text unchanged. */
  lemma MessageTrimmedOrUnchanged(x: string)
    ensures HasSender(x) ==> Trimmed(MessageOf(x))
    ensures !HasSender(x) ==> MessageOf(x) == x
  {
    SenderIff(x);
  }

  /** The split from `p` is the text before the first match, its group, and the split after its colon. */
  lemma SplitStep(x: string, p: nat)
    requires p <= |x| && ColonSearch(x, p).Some?
    ensures ColonSplitFrom(x, p)
         == [x[p..ColonSearch(x, p).value.0], x[ColonSearch(x, p).value.0..ColonSearch(x, p).value.1]]
            + ColonSplitFrom(x, ColonSearch(x, p).value.1 + 1)
  {
  }

  /** Where the last piece of the split from `p` begins: after the colon of the last match. */
  function LastStart(x: string, p: nat): (e: nat)
    requires p <= |x|
    ensures p <= e <= |x|
    decreases |x| - p
  {
    match ColonSearch(x, p)
    case None => p
    case Some((_, c)) => LastStart(x, c + 1)
  }

  /** The last element of a concatenation with a non-empty right part is that part's last. */
  lemma LastOfConcat<T>(a: seq<T>, b: seq<T>)
    requires |b| > 0
    ensures (a + b)[|a + b| - 1] == b[|b| - 1]
  {
  }

  /** The last piece of the split is the text from `LastStart` on. */
  lemma {:induction false} LastPieceIs(x: string, p: nat)
    requires p <= |x|
    ensures ColonSplitFrom(x, p)[|ColonSplitFrom(x, p)| - 1] == x[LastStart(x, p)..]
    decreases |x| - p
  {
    match ColonSearch(x, p)
    case None =>
      assert ColonSplitFrom(x, p) == [x[p..]];
    case Some((q, c)) =>
      SplitStep(x, p);
      LastStartStep(x, p);
      LastPieceIs(x, c + 1);
      LastOfConcat([x[p..q], x[q..c]], ColonSplitFrom(x, c + 1));
  }

  /** A match at the front does not move where the last piece begins. */
  lemma LastStartStep(x: string, p: nat)
    requires p <= |x| && ColonSearch(x, p).Some?
    ensures LastStart(x, p) == LastStart(x, ColonSearch(x, p).value.1 + 1)
  {
  }

  /** No match begins in the last piece. */
  lemma {:induction false} LastStartFindsNothing(x: string, p: nat)
    requires p <= |x|
    ensures ColonSearch(x, LastStart(x, p)).None?
    decreases |x| - p
  {
    if ColonSearch(x, p).Some? {
      LastStartFindsNothing(x, ColonSearch(x, p).value.1 + 1);
    }
  }

  /** Position `e` comes right after a colon that follows a non-colon. */
  predicate AfterGroup(x: string, e: nat) {
    2 <= e <= |x| && x[e - 1] == ':' && x[e - 2] != ':'
  }

  /** The colon of a match follows a non-colon. */
  lemma ColonEndsGroup(x: string, q: nat, c: nat)
    requires q <= |x| && ColonMatchAt(x, q) == Some(c)
    ensures AfterGroup(x, c + 1)
  {
    GroupHasNoColon(x, q);
    assert x[c - 1] == x[q..c][c - 1 - q];
  }

  /** Unless nothing matched, the last piece begins right after a colon that ends a group. */
  lemma {:induction false} LastStartAfterGroup(x: string, p: nat)
    requires p <= |x|
    ensures LastStart(x, p) > p ==> AfterGroup(x, LastStart(x, p))
    decreases |x| - p
  {
    if ColonSearch(x, p).Some? {
      var (q, c) := ColonSearch(x, p).value;
      var e := LastStart(x, c + 1);
      assert LastStart(x, p) == e;
      if e == c + 1 {
        ColonEndsGroup(x, q, c);
      } else {
        LastStartAfterGroup(x, c + 1);
      }
    }
  }

  /** The facts about the last piece together, for a caller that names only its start. */
  lemma LastPiece(x: string, p: nat) returns (e: nat)
    requires p <= |x|
    ensures p <= e <= |x| && ColonSplitFrom(x, p)[|ColonSplitFrom(x, p)| - 1] == x[e..]
    ensures ColonSearch(x, e).None?
    ensures e > p ==> AfterGroup(x, e)
  {
    e := LastStart(x, p);
    LastPieceIs(x, p);
    LastStartFindsNothing(x, p);
    LastStartAfterGroup(x, p);
  }

  /** A search that finds nothing from `e` means no non-colon in `x[e..]` has a colon after it. */
  lemma NoSenderAfter(x: string, e: nat)
    requires e <= |x| && ColonSearch(x, e).None?
    ensures !HasSender(x[e..])
  {
    ColonSearchFinds(x, e);
    var last := x[e..];
    forall i, j | 0 <= i < j < |last| ensures !(last[i] != ':' && last[j] == ':') {
      assert x[e + i] == last[i] && x[e + j] == last[j];
    }
  }

  /** With a sender, the last piece of the whole split begins after a colon that ends a group. */
  lemma SenderLastPiece(x: string) returns (e: nat)
    requires HasSender(x)
    ensures AfterGroup(x, e) && MessageOf(x) == Strip(x[e..])
    ensures ColonSearch(x, e).None?
  {
    SenderIff(x);
    assert ColonSearch(x, 0).Some?;
    e := LastPiece(x, 0);
  }

  /**
   * With a sender, the message is the stripped text after the last colon that
   * ends a run of text: whatever follows it contains no further `name:`.
   */
  lemma MessageIsLastPiece(x: string) returns (front: string, last: string)
    requires HasSender(x)
    ensures x == front + last && MessageOf(x) == Strip(last)
    ensures AfterGroup(front, |front|)
    ensures !HasSender(last)
  {
    var e := SenderLastPiece(x);
    LastPieceParts(x, e);
    front, last := x[..e], x[e..];
  }

  /** Cut right after a group, with no match after: the front ends the group, the rest names no sender. */
  lemma LastPieceParts(x: string, e: nat)
    requires AfterGroup(x, e) && ColonSearch(x, e).None?
    ensures x == x[..e] + x[e..]
    ensures AfterGroup(x[..e], e)
    ensures !HasSender(x[e..])
  {
    assert x[..e][e - 1] == x[e - 1] && x[..e][e - 2] == x[e - 2];
    NoSenderAfter(x, e);
  }

  /** A run of non-colons from `p` ended by the colon at `c` is the next match: it yields an empty lead and that group. */
  lemma GroupAt(x: string, p: nat, c: nat)
    requires p < c < |x| && NoColon(x[p..c]) && x[c] == ':'
    ensures ColonSplitFrom(x, p) == ["", x[p..c]] + ColonSplitFrom(x, c + 1)
  {
    RunUpTo(x, p, c);
    assert ColonSearch(x, p) == Some((p, c));
    SplitStep(x, p);
    assert x[p..p] == "";
  }

  /** The non-colon run from `p` ends at the colon at `c`. */
  lemma {:induction false} RunUpTo(x: string, p: nat, c: nat)
    requires p <= c < |x| && NoColon(x[p..c]) && x[c] == ':'
    ensures TextRun(x, p) == c - p
    decreases c - p
  {
    if p < c {
      assert x[p] == x[p..c][0];
      assert x[p + 1..c] == x[p..c][1..];
      RunUpTo(x, p + 1, c);
    }
  }

  /** Colon-free text from `p` on is the last piece by itself. */
  lemma TrailingText(x: string, p: nat)
    requires p <= |x| && NoColon(x[p..])
    ensures ColonSplitFrom(x, p) == [x[p..]]
  {
    ColonSearchFinds(x, p);
    forall j | p <= j < |x| ensures x[j] != ':' {
      assert x[j] == x[p..][j - p];
    }
  }

  /** A line `name: text` with no other colon: the sender is the stripped name and the message the stripped text. */
  lemma NameLine(name: string, text: string)
    requires name != [] && NoColon(name) && NoColon(text)
    ensures UserOf(name + ":" + text) == Strip(name)
    ensures MessageOf(name + ":" + text) == Strip(text)
  {
    var x := name + ":" + text;
    var c := |name|;
    assert x[0..c] == name && x[c + 1..] == text && x[c] == ':';
    GroupAt(x, 0, c);
    TrailingText(x, c + 1);
  }

  /** Two groups, each ended by a colon, then colon-free text: the split has five pieces. */
  lemma TwoGroups(x: string, c: nat, d: nat)
    requires 0 < c && c + 1 < d < |x| && x[c] == ':' && x[d] == ':'
    requires NoColon(x[..c]) && NoColon(x[c + 1..d]) && NoColon(x[d + 1..])
    ensures ColonSplit(x) == ["", x[..c], "", x[c + 1..d], x[d + 1..]]
    ensures UserOf(x) == Strip(x[..c]) && MessageOf(x) == Strip(x[d + 1..])
  {
    TwoGroupsSplit(x, c, d);
    var pieces := ColonSplit(x);
    assert |pieces| == 5 && pieces[1] == x[..c] && pieces[4] == x[d + 1..];
  }

  lemma TwoGroupsSplit(x: string, c: nat, d: nat)
    requires 0 < c && c + 1 < d < |x| && x[c] == ':' && x[d] == ':'
    requires NoColon(x[..c]) && NoColon(x[c + 1..d]) && NoColon(x[d + 1..])
    ensures ColonSplit(x) == ["", x[..c], "", x[c + 1..d], x[d + 1..]]
  {
    assert x[0..c] == x[..c];
    GroupAt(x, 0, c);
    GroupAt(x, c + 1, d);
    TrailingText(x, d + 1);
    FivePieces("", x[..c], "", x[c + 1..d], x[d + 1..]);
  }

  lemma FivePieces<T>(a: T, b: T, c: T, d: T, e: T)
    ensures [a, b] + ([c, d] + [e]) == [a, b, c, d, e]
  {
  }

  /**
   * A second `word:` in the text starts a new group: the message keeps only
   * what follows it, as with a clock time such as `10:30` in the text.
   */
  lemma NameLineWithSecondColon(name: string, text: string, tail: string)
    requires name != [] && NoColon(name) && text != [] && NoColon(text) && NoColon(tail)
    ensures UserOf(name + ":" + text + ":" + tail) == Strip(name)
    ensures MessageOf(name + ":" + text + ":" + tail) == Strip(tail)
  {
    var x := name + ":" + text + ":" + tail;
    var c := |name|;
    var d := c + 1 + |text|;
    assert x[..c] == name && x[c] == ':' by {
      assert x == name + (":" + text + ":" + tail);
    }
    assert x[c + 1..d] == text && x[d] == ':' && x[d + 1..] == tail by {
      assert x == (name + ":") + text + (":" + tail);
    }
    TwoGroups(x, c, d);
  }

  /** A colon-free text has no sender. */
  lemma NoColonNoSender(x: string)
    requires NoColon(x)
    ensures !HasSender(x)
  {
  }

  /** A line without a colon is a group notification, its text kept unchanged. */
  lemma NotificationExample()
    ensures UserOf("Bob left") == GroupNotification
    ensures MessageOf("Bob left") == "Bob left"
  {
    var x := "Bob left";
    assert NoColon(x);
    NoColonNoSender(x);
    MessageTrimmedOrUnchanged(x);
    UserHasNoColon(x);
  }
}
