/** Whether a rendered segment stays under its byte cap: the separators between
    turns are not charged to the budget, so it does up to 75 turns, and beyond only
    when the turns are too long for that many to be written. */
module SegmentCap {
  import opened Conversation
  import opened Truncation
  import opened SegmentRender
  import opened Text

  /** The most turns a segment may have and be sure to stay under the cap. */
  const SAFE_TURNS: nat := 75

  lemma ReservedBytes()
    ensures RESERVED == 128
  {
  }

  // -------------------------------------------------------------- turn length

  lemma SevenParts(a: string, b: string, c: string, d: string, e: string, x: string, f: string)
    requires IsAscii(a) && IsAscii(b) && IsAscii(c) && IsAscii(d) && IsAscii(e) && IsAscii(f)
    ensures ByteLen(a + (b + (c + (d + (e + (x + f)))))) == |a| + |b| + |c| + |d| + |e| + ByteLen(x) + |f|
  {
    var front := a + (b + (c + (d + e)));
    assert a + (b + (c + (d + (e + (x + f))))) == front + (x + f);
    FiveAsciiBytes(a, b, c, d, e);
    AsciiBytes(f);
    Bytes(x, f);
    Bytes(front, x + f);
  }

  lemma RoleIsAscii(item: Item)
    ensures IsAscii(RoleLabel(item)) && |RoleLabel(item)| >= 5
  {
  }

  lemma TurnBytes(detail: Item -> string, item: Item, index: nat)
    ensures ByteLen(Turn(detail, item, index)) ==
            13 + |Decimal.Print(index)| + |RoleLabel(item)| + ByteLen(detail(item))
  {
    RoleIsAscii(item);
    SevenParts(TURN_HEAD, Decimal.Print(index), " (", RoleLabel(item), ")", detail(item), "\n");
  }

  lemma {:induction false} TotalAtLeast(turns: seq<string>)
    requires forall i | 0 <= i < |turns| :: ByteLen(turns[i]) >= 19
    ensures TotalBytes(turns) >= 19 * |turns|
  {
    if turns != [] { TotalAtLeast(turns[1..]); }
  }

  // ---------------------------------------------------------- within the cap

  lemma {:induction false} DigitsAtMost(m: nat)
    requires m >= 1
    ensures |Decimal.Print(m)| <= m
  {
    if m >= 10 { DigitsAtMost(m / 10); }
  }

  lemma FewTurnsFit(preamble: string, turns: seq<string>)
    requires ByteLen(preamble) + RESERVED <= SEGMENT_MAX_BYTES
    requires |turns| <= SAFE_TURNS
    ensures ByteLen(Document(preamble, turns)) <= SEGMENT_MAX_BYTES
  {
    var n := Rendered(turns, Budget(preamble));
    ReservedBytes();
    RenderedIsLongest(turns, Budget(preamble));
    DocumentBytes(preamble, turns);
    var omitted := |turns| - n;
    if omitted > 0 {
      DigitsAtMost(omitted);
      Decimal.PrintLength(omitted, 2);
      assert Decimal.Pow10(2) == 100;
    }
  }

  // ------------------------------------------------------------- the preamble

  const SUMMARY_TITLE := "## Summary (curated by compaction step)\n\n"
  const EMPTY_SUMMARY := "(empty)"

  function SummaryBody(summary: string): string {
    if Trim(summary) == "" then EMPTY_SUMMARY else Trim(summary)
  }

  /** What precedes the turns: header, metadata and statistics in front, computed
      from the items, then the summary, then the heading of the turns. */
  function Preamble(front: string, summary: string, heading: string): string {
    (front + SUMMARY_TITLE) + (SummaryBody(summary) + ("\n\n" + heading))
  }

  /** The bytes of the preamble beside the summary. */
  function FrameBytes(front: string, heading: string): nat {
    ByteLen(front + SUMMARY_TITLE) + ByteLen("\n\n" + heading)
  }

  lemma PreambleBytes(front: string, summary: string, heading: string)
    ensures ByteLen(Preamble(front, summary, heading)) == FrameBytes(front, heading) + ByteLen(SummaryBody(summary))
    ensures ByteLen(SummaryBody(summary)) >= 1
  {
    Bytes(SummaryBody(summary), "\n\n" + heading);
    Bytes(front + SUMMARY_TITLE, SummaryBody(summary) + ("\n\n" + heading));
    AtLeastOneByte(SummaryBody(summary));
  }

  lemma AtLeastOneByte(s: string)
    requires s != ""
    ensures ByteLen(s) >= 1
  {
  }

  function Filler(k: nat): string {
    seq(k, _ => 'x')
  }

  /** A summary can have any number of bytes from one on. */
  lemma FillerSummary(k: nat)
    requires k >= 1
    ensures ByteLen(SummaryBody(Filler(k))) == k
  {
    var s := Filler(k);
    assert s[0] == 'x' && s[|s| - 1] == 'x' && !IsSpace('x');
    TrimFixed(s);
    AsciiBytes(s);
  }

  // ---------------------------------------------------------- exactly when

  /** Under every summary that leaves room for notice and slack, the document
      stays under the cap. */
  ghost predicate AlwaysFits(turns: seq<string>, front: string, heading: string) {
    forall summary: string | ByteLen(Preamble(front, summary, heading)) + RESERVED <= SEGMENT_MAX_BYTES ::
      ByteLen(Document(Preamble(front, summary, heading), turns)) <= SEGMENT_MAX_BYTES
  }

  /** Some summary makes exactly the first `n` turns use up the budget. */
  predicate CanWrite(turns: seq<string>, frame: nat, n: nat)
    requires n <= |turns|
  {
    frame + 1 + TotalBytes(turns[..n]) + RESERVED <= SEGMENT_MAX_BYTES
  }

  /** Separators and digits of the notice within the slack. */
  predicate WithinSlack(turns: seq<string>, n: nat)
    requires n <= |turns|
  {
    n + |Decimal.Print(|turns| - n)| <= SAFE_TURNS
  }

  predicate NonEmptyTurns(turns: seq<string>) {
    forall i | 0 <= i < |turns| :: ByteLen(turns[i]) >= 1
  }

  lemma ExactRendering(turns: seq<string>, n: nat)
    requires n < |turns| && NonEmptyTurns(turns)
    ensures Rendered(turns, TotalBytes(turns[..n])) == n
  {
    TotalBytesUpTo(turns, n);
    RenderedIs(turns, TotalBytes(turns[..n]), n);
  }

  lemma FilledLength(preamble: string, turns: seq<string>, n: nat)
    requires 1 <= n < |turns| && NonEmptyTurns(turns)
    requires ByteLen(preamble) + TotalBytes(turns[..n]) + RESERVED == SEGMENT_MAX_BYTES
    ensures ByteLen(Document(preamble, turns)) == SEGMENT_MAX_BYTES + n + |Decimal.Print(|turns| - n)| - SAFE_TURNS
  {
    ReservedBytes();
    ExactRendering(turns, n);
    assert Budget(preamble) == TotalBytes(turns[..n]);
    DocumentBytes(preamble, turns);
  }

  /** The summary that does, and the length it leads to. */
  lemma ExactFill(turns: seq<string>, front: string, heading: string, n: nat) returns (summary: string)
    requires 1 <= n < |turns| && NonEmptyTurns(turns) && CanWrite(turns, FrameBytes(front, heading), n)
    ensures ByteLen(Preamble(front, summary, heading)) + RESERVED <= SEGMENT_MAX_BYTES
    ensures ByteLen(Document(Preamble(front, summary, heading), turns)) ==
            SEGMENT_MAX_BYTES + n + |Decimal.Print(|turns| - n)| - SAFE_TURNS
  {
    var k := SEGMENT_MAX_BYTES - RESERVED - FrameBytes(front, heading) - TotalBytes(turns[..n]);
    summary := Filler(k);
    FillerSummary(k);
    PreambleBytes(front, summary, heading);
    FilledLength(Preamble(front, summary, heading), turns, n);
  }

  /** Every number of turns that can be written keeps within the slack. */
  ghost predicate SlackHolds(turns: seq<string>, frame: nat) {
    forall n | 1 <= n < |turns| && CanWrite(turns, frame, n) :: WithinSlack(turns, n)
  }

  lemma LengthWithin(preamble: string, turns: seq<string>, frame: nat, n: nat)
    requires frame + 1 <= ByteLen(preamble) && ByteLen(preamble) + RESERVED <= SEGMENT_MAX_BYTES
    requires n <= |turns| < Decimal.Pow10(74) && SlackHolds(turns, frame)
    requires ByteLen(preamble) + TotalBytes(turns[..n]) + RESERVED <= SEGMENT_MAX_BYTES
    ensures DocumentLength(preamble, turns, n) <= SEGMENT_MAX_BYTES
  {
    ReservedBytes();
    if n == |turns| {
      AllWritten(turns, frame);
    } else if n == 0 {
      Decimal.PrintLength(|turns|, 74);
      assert turns[..0] == [];
    } else {
      assert CanWrite(turns, frame, n);
      assert WithinSlack(turns, n);
    }
  }

  lemma FitsWhenWithin(preamble: string, turns: seq<string>, frame: nat)
    requires frame + 1 <= ByteLen(preamble) && ByteLen(preamble) + RESERVED <= SEGMENT_MAX_BYTES
    requires |turns| < Decimal.Pow10(74) && SlackHolds(turns, frame)
    ensures ByteLen(Document(preamble, turns)) <= SEGMENT_MAX_BYTES
  {
    RenderedIsLongest(turns, Budget(preamble));
    LengthWithin(preamble, turns, frame, Rendered(turns, Budget(preamble)));
    DocumentBytes(preamble, turns);
  }

  lemma AllWritten(turns: seq<string>, frame: nat)
    requires frame + 1 + TotalBytes(turns[..|turns|]) + RESERVED <= SEGMENT_MAX_BYTES && SlackHolds(turns, frame)
    ensures |turns| <= SAFE_TURNS
  {
    if |turns| >= 2 {
      TotalBytesUpTo(turns, |turns| - 1);
      assert CanWrite(turns, frame, |turns| - 1);
      assert WithinSlack(turns, |turns| - 1);
    }
  }

  /** Main result: for any turns and any frame, the cap is kept under every summary
      exactly when no number of turns that can be written has more separators and
      notice digits than the slack allows. */
  lemma CapHoldsExactly(turns: seq<string>, front: string, heading: string)
    requires NonEmptyTurns(turns) && |turns| < Decimal.Pow10(74)
    ensures AlwaysFits(turns, front, heading) <==> SlackHolds(turns, FrameBytes(front, heading))
  {
    var frame := FrameBytes(front, heading);
    if SlackHolds(turns, frame) {
      forall summary: string | ByteLen(Preamble(front, summary, heading)) + RESERVED <= SEGMENT_MAX_BYTES
        ensures ByteLen(Document(Preamble(front, summary, heading), turns)) <= SEGMENT_MAX_BYTES
      {
        PreambleBytes(front, summary, heading);
        FitsWhenWithin(Preamble(front, summary, heading), turns, frame);
      }
    } else {
      var n :| 1 <= n < |turns| && CanWrite(turns, frame, n) && !WithinSlack(turns, n);
      var summary := ExactFill(turns, front, heading, n);
    }
  }

  lemma TurnsAreNonEmpty(items: seq<Item>, detail: Item -> string)
    ensures NonEmptyTurns(Turns(detail, items))
  {
    forall i | 0 <= i < |items| ensures ByteLen(Turns(detail, items)[i]) >= 1 {
      TurnBytes(detail, items[i], i);
    }
  }

  /** What this comes to: up to 75 turns the cap is always kept; with more, it is
      exceeded under some summary whenever the first 75 fit beside the frame. */
  lemma CapByTurnCount(items: seq<Item>, detail: Item -> string, front: string, heading: string)
    requires |items| < Decimal.Pow10(74)
    ensures |items| <= SAFE_TURNS ==> AlwaysFits(Turns(detail, items), front, heading)
    ensures |items| > SAFE_TURNS && CanWrite(Turns(detail, items), FrameBytes(front, heading), SAFE_TURNS) ==>
              !AlwaysFits(Turns(detail, items), front, heading)
  {
    var turns := Turns(detail, items);
    TurnsAreNonEmpty(items, detail);
    CapHoldsExactly(turns, front, heading);
    SlackByCount(turns, FrameBytes(front, heading));
  }

  lemma SlackByCount(turns: seq<string>, frame: nat)
    ensures |turns| <= SAFE_TURNS ==> SlackHolds(turns, frame)
    ensures |turns| > SAFE_TURNS && CanWrite(turns, frame, SAFE_TURNS) ==> !SlackHolds(turns, frame)
  {
    if |turns| <= SAFE_TURNS {
      forall n | 1 <= n < |turns| ensures WithinSlack(turns, n) { DigitsAtMost(|turns| - n); }
    } else {
      assert !WithinSlack(turns, SAFE_TURNS);
    }
  }

  lemma {:induction false} TotalAtMost(turns: seq<string>)
    requires forall i | 0 <= i < |turns| :: ByteLen(turns[i]) <= 21
    ensures TotalBytes(turns) <= 21 * |turns|
  {
    if turns != [] { TotalAtMost(turns[1..]); }
  }

  lemma EmptyTurnBytes(i: nat)
    requires i < 100
    ensures ByteLen(Turn(_ => "", System(""), i)) <= 21
  {
    TurnBytes(_ => "", System(""), i);
    Decimal.PrintLength(i, 2);
    assert Decimal.Pow10(2) == 100;
  }

  /** A witness: 76 empty turns, under any frame of half a megabyte or less. */
  lemma ShortTurnsWitness(front: string, heading: string)
    requires FrameBytes(front, heading) <= 500_000
    ensures !AlwaysFits(Turns(_ => "", seq(76, _ => System(""))), front, heading)
  {
    var items, detail := seq(76, _ => System("")), (_: Item) => "";
    var turns := Turns(detail, items);
    var written := turns[..SAFE_TURNS];
    forall i | 0 <= i < |written| ensures ByteLen(written[i]) <= 21 { EmptyTurnBytes(i); }
    TotalAtMost(written);
    ReservedBytes();
    Decimal.PrintLength(76, 74);
    Decimal.PrintLength(76, 2);
    assert Decimal.Pow10(2) == 100;
    CapByTurnCount(items, detail, front, heading);
  }

  /** A preamble that leaves no budget: no turn is written. */
  lemma OversizedPreamble(preamble: string, items: seq<Item>, detail: Item -> string)
    requires ByteLen(preamble) + RESERVED >= SEGMENT_MAX_BYTES
    ensures Rendered(Turns(detail, items), Budget(preamble)) == 0
    ensures ByteLen(Document(preamble, Turns(detail, items))) == ByteLen(preamble) + NoticeLength(|items|)
  {
    var turns := Turns(detail, items);
    if items != [] { TurnBytes(detail, items[0], 0); }
    DocumentBytes(preamble, turns);
    assert turns[..0] == [];
  }

  lemma WrittenTurnsAreLong(items: seq<Item>, detail: Item -> string, n: nat)
    requires n <= |items|
    ensures TotalBytes(Turns(detail, items)[..n]) >= 19 * n
  {
    var written := Turns(detail, items)[..n];
    forall i | 0 <= i < n ensures ByteLen(written[i]) >= 19 {
      TurnBytes(detail, items[i], i);
      RoleIsAscii(items[i]);
    }
    TotalAtLeast(written);
  }

  lemma NoticeIsShort(omitted: nat)
    requires omitted < Decimal.Pow10(74)
    ensures NoticeLength(omitted) <= 128
  {
    Decimal.PrintLength(omitted, 74);
  }

  lemma ExcessIsSeparators(preamble: string, turns: seq<string>, n: nat)
    requires ByteLen(preamble) + RESERVED <= SEGMENT_MAX_BYTES
    requires n <= |turns| < Decimal.Pow10(74)
    requires TotalBytes(turns[..n]) <= Budget(preamble)
    ensures DocumentLength(preamble, turns, n) <= SEGMENT_MAX_BYTES + Separators(n)
  {
    ReservedBytes();
    NoticeIsShort(|turns| - n);
  }

  /** Beyond 75 turns the overshoot is still bounded: by one byte for each
      separator, and so by the cap over the least size of a turn. */
  lemma OvershootIsBounded(preamble: string, items: seq<Item>, detail: Item -> string)
    requires ByteLen(preamble) + RESERVED <= SEGMENT_MAX_BYTES
    requires |items| < Decimal.Pow10(74)
    ensures var excess := ByteLen(Document(preamble, Turns(detail, items))) - SEGMENT_MAX_BYTES;
            && excess <= Separators(Rendered(Turns(detail, items), Budget(preamble)))
            && 19 * excess <= SEGMENT_MAX_BYTES
  {
    var turns := Turns(detail, items);
    var n := Rendered(turns, Budget(preamble));
    RenderedIsLongest(turns, Budget(preamble));
    ExcessIsSeparators(preamble, turns, n);
    DocumentBytes(preamble, turns);
    WrittenTurnsAreLong(items, detail, n);
    assert 19 * Separators(n) <= Budget(preamble) <= SEGMENT_MAX_BYTES;
  }
}
