/** What a rendered segment holds, by position: the preamble, the written turns in
    order, and the notice that says how many are missing. */
module SegmentDocument {
  import opened Conversation
  import opened Text
  import opened Truncation
  import opened SegmentRender

  /** Characters of the turns, each with the newline behind it. */
  function Offset(turns: seq<string>): nat {
    if turns == [] then 0 else |turns[0]| + 1 + Offset(turns[1..])
  }

  /** Part `i` of a list, with a newline behind it unless it is the last. */
  function Line(parts: seq<string>, i: nat): string
    requires i < |parts|
  {
    if i + 1 < |parts| then parts[i] + "\n" else parts[i]
  }

  lemma JoinCons(parts: seq<string>)
    requires |parts| > 1
    ensures JoinLines(parts) == (parts[0] + "\n") + JoinLines(parts[1..])
  {
  }

  /** A joined list holds each part behind the parts before it and their newlines. */
  lemma {:induction false} JoinAt(parts: seq<string>, i: nat)
    requires i < |parts|
    ensures OccursAt(JoinLines(parts), Line(parts, i), Offset(parts[..i]))
  {
    if |parts| > 1 { JoinCons(parts); }
    if i > 0 {
      JoinAt(parts[1..], i - 1);
      assert parts[..i][1..] == parts[1..][..i - 1];
      ShiftBehind(parts[0] + "\n", JoinLines(parts[1..]), Line(parts[1..], i - 1), Offset(parts[1..][..i - 1]));
    } else {
      assert JoinLines(parts)[0..] == JoinLines(parts);
    }
  }

  lemma ShiftBehind(x: string, y: string, p: string, i: int)
    requires OccursAt(y, p, i)
    ensures OccursAt(x + y, p, |x| + i)
  {
    assert (x + y)[|x| + i..] == y[i..];
  }

  lemma KeptInFront(x: string, y: string, p: string, i: int)
    requires OccursAt(x, p, i)
    ensures OccursAt(x + y, p, i)
  {
    assert (x + y)[i..] == x[i..] + y;
  }

  /** Its length leaves no room for anything else. */
  lemma {:induction false} JoinLength(parts: seq<string>)
    ensures |JoinLines(parts)| + (if parts == [] then 0 else 1) == Offset(parts)
  {
    if |parts| > 1 {
      JoinLength(parts[1..]);
    } else if |parts| == 1 {
      assert parts[1..] == [];
    }
  }

  predicate IsNotice(text: string, omitted: nat) {
    text == "\n\n[... TRUNCATED at " + "524288" + " bytes, " + Decimal.Print(omitted) + " turns omitted ...]\n"
  }

  lemma NoticeText(omitted: nat)
    ensures IsNotice(Notice(omitted), omitted)
  {
    LimitText();
    FlatFive(NOTICE_HEAD, "524288", NOTICE_MIDDLE, Decimal.Print(omitted), NOTICE_TAIL);
  }

  lemma FlatFive<T>(a: seq<T>, b: seq<T>, c: seq<T>, d: seq<T>, e: seq<T>)
    ensures a + (b + (c + (d + e))) == a + b + c + d + e
  {
  }

  lemma LimitText()
    ensures Decimal.Print(SEGMENT_MAX_BYTES) == "524288"
  {
    assert Decimal.Print(52) == "52";
    assert Decimal.Print(5242) == "5242";
  }

  /** Nothing when no turn is left over, else the notice. */
  predicate IsEnding(text: string, omitted: nat) {
    if omitted == 0 then text == "" else IsNotice(text, omitted)
  }

  lemma TailIsEnding(text: string, omitted: nat)
    requires text == Tail(omitted)
    ensures IsEnding(text, omitted)
  {
    if omitted > 0 { NoticeText(omitted); }
  }

  /** `n` is the largest number of leading turns within the budget. */
  predicate IsWritten(preamble: string, turns: seq<string>, n: nat) {
    && n <= |turns| && TotalBytes(turns[..n]) <= Budget(preamble)
    && (n < |turns| ==> TotalBytes(turns[..n + 1]) > Budget(preamble))
  }

  lemma DocumentIs(preamble: string, turns: seq<string>, n: nat) returns (tail: string)
    requires IsWritten(preamble, turns, n)
    ensures Document(preamble, turns) == preamble + (JoinLines(turns[..n]) + tail) && IsEnding(tail, |turns| - n)
  {
    RenderedIs(turns, Budget(preamble), n);
    tail := BodySplits(turns, n);
  }

  lemma BodySplits(turns: seq<string>, n: nat) returns (tail: string)
    requires n <= |turns|
    ensures Body(turns, n) == JoinLines(turns[..n]) + tail && IsEnding(tail, |turns| - n)
  {
    tail := Tail(|turns| - n);
    TailIsEnding(tail, |turns| - n);
  }

  lemma PartHolds(preamble: string, parts: seq<string>, tail: string, i: nat)
    requires i < |parts|
    ensures OccursAt(preamble + (JoinLines(parts) + tail), Line(parts, i), |preamble| + Offset(parts[..i]))
  {
    JoinAt(parts, i);
    KeptInFront(JoinLines(parts), tail, Line(parts, i), Offset(parts[..i]));
    ShiftBehind(preamble, JoinLines(parts) + tail, Line(parts, i), Offset(parts[..i]));
  }

  lemma PartsEnd(preamble: string, parts: seq<string>, tail: string)
    ensures var doc := preamble + (JoinLines(parts) + tail);
            var end := |preamble| + Offset(parts) - (if parts == [] then 0 else 1);
            preamble <= doc && end <= |doc| && doc[end..] == tail
  {
    JoinLength(parts);
    DropFront(preamble, JoinLines(parts), tail);
  }

  /** Main result: the document holds each written turn, in order, behind the preamble
      and the turns before it, with a newline between two. */
  lemma DocumentHolds(preamble: string, turns: seq<string>, n: nat, i: nat)
    requires IsWritten(preamble, turns, n) && i < n
    ensures OccursAt(Document(preamble, turns), Line(turns[..n], i), |preamble| + Offset(turns[..i]))
  {
    var tail := DocumentIs(preamble, turns, n);
    PartHolds(preamble, turns[..n], tail, i);
    assert turns[..n][..i] == turns[..i];
  }

  /** Main result: it begins with the preamble, and behind the last written turn comes
      nothing, or, exactly when turns are left over, the notice with their number. */
  lemma DocumentEnds(preamble: string, turns: seq<string>, n: nat)
    requires IsWritten(preamble, turns, n)
    ensures var doc := Document(preamble, turns);
            var end := |preamble| + Offset(turns[..n]) - (if n == 0 then 0 else 1);
            && preamble <= doc && end <= |doc|
            && IsEnding(doc[end..], |turns| - n)
  {
    var tail := DocumentIs(preamble, turns, n);
    PartsEnd(preamble, turns[..n], tail);
  }

  lemma DropFront<T>(a: seq<T>, b: seq<T>, c: seq<T>)
    ensures a <= a + (b + c) && (a + (b + c))[|a| + |b|..] == c
  {
  }

  // ----------------------------------------------------------------- headings

  /** Who speaks in a turn: each name stands for exactly these kinds of items. */
  predicate IsSpeaker(name: string, item: Item) {
    && (name == "System" <==> item.System?)
    && (name == "Human" <==> item.User?)
    && (name == "Function" <==> item.ToolResult?)
    && (name == "Assistant" <==> item.Assistant? || item.BackendToolCall? || item.Reasoning?)
  }

  lemma NamesDiffer()
    ensures "System" != "Human" && "System" != "Function" && "System" != "Assistant"
    ensures "Human" != "Function" && "Human" != "Assistant" && "Function" != "Assistant"
  {
    assert "System"[0] == 'S' && "Human"[0] == 'H' && "Function"[0] == 'F' && "Assistant"[0] == 'A';
  }

  lemma LabelIsSpeaker(item: Item)
    ensures IsSpeaker(RoleLabel(item), item)
  {
    NamesDiffer();
  }

  lemma SevenFlat<T>(a: seq<T>, b: seq<T>, c: seq<T>, d: seq<T>, e: seq<T>, x: seq<T>, f: seq<T>)
    ensures a + (b + (c + (d + (e + (x + f))))) == a + b + c + d + e + x + f
  {
  }

  /** A turn says its number, counted from zero, and who speaks, then its detail. */
  lemma TurnTells(detail: Item -> string, item: Item, index: nat) returns (name: string)
    ensures IsSpeaker(name, item)
    ensures Turn(detail, item, index) == "### Turn " + Decimal.Print(index) + " (" + name + ")" + detail(item) + "\n"
  {
    name := RoleLabel(item);
    LabelIsSpeaker(item);
    SevenFlat(TURN_HEAD, Decimal.Print(index), " (", name, ")", detail(item), "\n");
  }
}
