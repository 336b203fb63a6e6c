/** `render_segment_md`: which turns of a compacted segment are written out, and
    how long the document gets. */
module SegmentRender {
  import opened Conversation
  import opened Utf8
  import opened Text
  import opened Truncation

  const SEGMENT_MAX_BYTES: nat := 512 * 1024
  const PER_TURN_OVERHEAD_BYTES: nat := 64

  const NOTICE_HEAD := "\n\n[... TRUNCATED at "
  const NOTICE_LIMIT := "{limit}"
  const NOTICE_MIDDLE := " bytes, "
  const NOTICE_OMITTED := "{omitted}"
  const NOTICE_TAIL := " turns omitted ...]\n"
  /** Length of the notice with its two placeholders still in it. */
  const NOTICE_TEMPLATE_BYTES: nat :=
    |NOTICE_HEAD| + |NOTICE_LIMIT| + |NOTICE_MIDDLE| + |NOTICE_OMITTED| + |NOTICE_TAIL|

  const RESERVED: nat := NOTICE_TEMPLATE_BYTES + PER_TURN_OVERHEAD_BYTES

  function Notice(omitted: nat): string {
    NOTICE_HEAD + (Decimal.Print(SEGMENT_MAX_BYTES) + (NOTICE_MIDDLE + (Decimal.Print(omitted) + NOTICE_TAIL)))
  }

  // ------------------------------------------------------------------- turns

  function RoleLabel(item: Item): string {
    match item
    case System(_) => "System"
    case User(_, _) => "Human"
    case Assistant(_, _) => "Assistant"
    case ToolResult(_, _, _) => "Function"
    case BackendToolCall(_) => "Assistant"
    case Reasoning(_, _) => "Assistant"
  }

  const TURN_HEAD := "### Turn "

  /** One rendered turn; `detail` is what the chosen level adds to the heading. */
  function Turn(detail: Item -> string, item: Item, index: nat): string {
    TURN_HEAD + (Decimal.Print(index) + (" (" + (RoleLabel(item) + (")" + (detail(item) + "\n")))))
  }

  function Turns(detail: Item -> string, items: seq<Item>): seq<string> {
    seq(|items|, i requires 0 <= i < |items| => Turn(detail, items[i], i))
  }

  // ----------------------------------------------------------------- document

  function Budget(preamble: string): nat {
    var reserved := ByteLen(preamble) + RESERVED;
    if SEGMENT_MAX_BYTES >= reserved then SEGMENT_MAX_BYTES - reserved else 0
  }

  function TotalBytes(turns: seq<string>): nat {
    if turns == [] then 0 else ByteLen(turns[0]) + TotalBytes(turns[1..])
  }

  /** How many leading turns are written. */
  function Rendered(turns: seq<string>, budget: nat): (n: nat)
    ensures n <= |turns|
  {
    if turns == [] || ByteLen(turns[0]) > budget then 0
    else 1 + Rendered(turns[1..], budget - ByteLen(turns[0]))
  }

  /** What follows the written turns. */
  function Tail(omitted: nat): string {
    if omitted == 0 then "" else Notice(omitted)
  }

  function Body(turns: seq<string>, n: nat): string
    requires n <= |turns|
  {
    JoinLines(turns[..n]) + Tail(|turns| - n)
  }

  function Document(preamble: string, turns: seq<string>): string {
    preamble + Body(turns, Rendered(turns, Budget(preamble)))
  }

  lemma {:induction false} TotalBytesSplit(a: seq<string>, b: seq<string>)
    ensures TotalBytes(a + b) == TotalBytes(a) + TotalBytes(b)
  {
    if a == [] {
      assert a + b == b;
    } else {
      assert (a + b)[1..] == a[1..] + b;
      TotalBytesSplit(a[1..], b);
    }
  }

  lemma TotalBytesUpTo(turns: seq<string>, k: nat)
    requires k < |turns|
    ensures TotalBytes(turns[..k + 1]) == TotalBytes(turns[..k]) + ByteLen(turns[k])
  {
    assert turns[..k + 1] == turns[..k] + [turns[k]];
    TotalBytesSplit(turns[..k], [turns[k]]);
  }

  /** The written turns are the longest prefix that fits the budget. */
  lemma {:induction false} RenderedIsLongest(turns: seq<string>, budget: nat)
    ensures var n := Rendered(turns, budget);
            && TotalBytes(turns[..n]) <= budget
            && (n < |turns| ==> TotalBytes(turns[..n + 1]) > budget)
  {
    var n := Rendered(turns, budget);
    if n > 0 {
      RenderedIsLongest(turns[1..], budget - ByteLen(turns[0]));
      assert turns[..n][1..] == turns[1..][..n - 1];
      if n < |turns| { assert turns[..n + 1][1..] == turns[1..][..n]; }
    } else if turns != [] {
      assert turns[..1][1..] == [];
    }
  }

  lemma {:induction false} TotalBytesMonotone(turns: seq<string>, j: nat, k: nat)
    requires j <= k <= |turns|
    ensures TotalBytes(turns[..j]) <= TotalBytes(turns[..k])
    decreases k - j
  {
    if j < k {
      TotalBytesUpTo(turns, j);
      TotalBytesMonotone(turns, j + 1, k);
    }
  }

  /** So the count is determined by the totals alone. */
  lemma RenderedIs(turns: seq<string>, budget: nat, n: nat)
    requires n <= |turns| && TotalBytes(turns[..n]) <= budget
    requires n < |turns| ==> TotalBytes(turns[..n + 1]) > budget
    ensures Rendered(turns, budget) == n
  {
    var m := Rendered(turns, budget);
    RenderedIsLongest(turns, budget);
    if m < n { TotalBytesMonotone(turns, m + 1, n); }
    if n < m { TotalBytesMonotone(turns, n + 1, m); }
  }

  /** The rendering loop: whole turns until one no longer fits. */
  method WriteTurns(items: seq<Item>, detail: Item -> string, budget: nat)
    returns (blocks: seq<string>, truncatedAt: Option<nat>)
    ensures var turns := Turns(detail, items);
            var n := Rendered(turns, budget);
            blocks == turns[..n] && truncatedAt == (if n < |items| then Some(n) else None)
  {
    ghost var turns := Turns(detail, items);
    blocks, truncatedAt := [], None;
    var used := 0;
    var i := 0;
    while i < |items|
      invariant 0 <= i <= |items|
      invariant blocks == turns[..i]
      invariant used == TotalBytes(turns[..i]) <= budget
      invariant truncatedAt == None
    {
      var block := Turn(detail, items[i], i);
      assert block == turns[i];
      TotalBytesUpTo(turns, i);
      if used + ByteLen(block) > budget {
        truncatedAt := Some(i);
        break;
      }
      used := used + ByteLen(block);
      blocks := blocks + [block];
      i := i + 1;
    }
    RenderedIs(turns, budget, i);
  }

  method RenderSegment(preamble: string, items: seq<Item>, detail: Item -> string) returns (doc: string)
    ensures doc == Document(preamble, Turns(detail, items))
  {
    var blocks, truncatedAt := WriteTurns(items, detail, Budget(preamble));
    var body := JoinLines(blocks);
    ghost var turns := Turns(detail, items);
    ghost var n := Rendered(turns, Budget(preamble));
    if truncatedAt.Some? {
      body := body + Notice(|items| - truncatedAt.value);
    } else {
      AddNothing(body);
    }
    assert body == Body(turns, n);
    return preamble + body;
  }

  lemma AddNothing<T>(s: seq<T>)
    ensures s + [] == s
  {
  }

  // ------------------------------------------------------------------- length

  lemma Bytes(s: string, t: string)
    ensures ByteLen(s + t) == ByteLen(s) + ByteLen(t)
  {
    EncodeConcat(s, t);
  }

  lemma AsciiBytes(s: string)
    requires forall i | 0 <= i < |s| :: s[i] as int < 0x80
    ensures ByteLen(s) == |s|
  {
    EncodeAscii(s);
  }

  function Separators(n: nat): nat { if n == 0 then 0 else n - 1 }

  lemma {:induction false} JoinBytes(parts: seq<string>)
    ensures ByteLen(JoinLines(parts)) == TotalBytes(parts) + Separators(|parts|)
  {
    if |parts| == 1 {
      assert parts[1..] == [];
    } else if parts != [] {
      JoinBytes(parts[1..]);
      AsciiBytes("\n");
      Bytes("\n", JoinLines(parts[1..]));
      Bytes(parts[0], "\n" + JoinLines(parts[1..]));
    }
  }

  lemma LimitDigits()
    ensures |Decimal.Print(SEGMENT_MAX_BYTES)| == 6
  {
    Decimal.PrintLength(SEGMENT_MAX_BYTES, 6);
    Decimal.PrintLength(SEGMENT_MAX_BYTES, 5);
    assert Decimal.Pow10(3) == 1000;
    assert Decimal.Pow10(5) == 100 * Decimal.Pow10(3);
    assert Decimal.Pow10(6) == 10 * Decimal.Pow10(5);
  }

  predicate IsAscii(s: string) {
    forall i | 0 <= i < |s| :: s[i] as int < 0x80
  }

  lemma FiveAsciiBytes(a: string, b: string, c: string, d: string, e: string)
    requires IsAscii(a) && IsAscii(b) && IsAscii(c) && IsAscii(d) && IsAscii(e)
    ensures ByteLen(a + (b + (c + (d + e)))) == |a| + |b| + |c| + |d| + |e|
  {
    AsciiBytes(a + (b + (c + (d + e))));
  }

  lemma NoticeIsAscii()
    ensures IsAscii(NOTICE_HEAD) && IsAscii(NOTICE_MIDDLE) && IsAscii(NOTICE_TAIL)
    ensures |NOTICE_HEAD| == 20 && |NOTICE_MIDDLE| == 8 && |NOTICE_TAIL| == 20
  {
  }

  lemma NoticeBytes(omitted: nat)
    ensures ByteLen(Notice(omitted)) == 54 + |Decimal.Print(omitted)|
  {
    LimitDigits();
    NoticeIsAscii();
    FiveAsciiBytes(NOTICE_HEAD, Decimal.Print(SEGMENT_MAX_BYTES), NOTICE_MIDDLE, Decimal.Print(omitted), NOTICE_TAIL);
  }

  function NoticeLength(omitted: nat): nat {
    if omitted == 0 then 0 else 54 + |Decimal.Print(omitted)|
  }

  lemma TailBytes(omitted: nat)
    ensures ByteLen(Tail(omitted)) == NoticeLength(omitted)
  {
    if omitted > 0 { NoticeBytes(omitted); }
  }

  lemma BodyBytes(turns: seq<string>, n: nat)
    requires n <= |turns|
    ensures ByteLen(Body(turns, n)) == TotalBytes(turns[..n]) + Separators(n) + NoticeLength(|turns| - n)
  {
    JoinBytes(turns[..n]);
    TailBytes(|turns| - n);
    Bytes(JoinLines(turns[..n]), Tail(|turns| - n));
  }

  lemma PrefixedBodyBytes(preamble: string, turns: seq<string>, n: nat)
    requires n <= |turns|
    ensures ByteLen(preamble + Body(turns, n)) == DocumentLength(preamble, turns, n)
  {
    BodyBytes(turns, n);
    Bytes(preamble, Body(turns, n));
  }

  /** The length of a document that writes `n` of the turns. */
  function DocumentLength(preamble: string, turns: seq<string>, n: nat): nat
    requires n <= |turns|
  {
    ByteLen(preamble) + TotalBytes(turns[..n]) + Separators(n) + NoticeLength(|turns| - n)
  }

  lemma DocumentBytes(preamble: string, turns: seq<string>)
    ensures ByteLen(Document(preamble, turns)) ==
            DocumentLength(preamble, turns, Rendered(turns, Budget(preamble)))
  {
    PrefixedBodyBytes(preamble, turns, Rendered(turns, Budget(preamble)));
  }
}
