/** What compaction captures from a conversation, item by item. */
module CaptureLaws {
  import opened Sequences
  import opened Conversation
  import opened Text
  import opened QueryTags
  import opened Compaction

  /** The layout leaves no choice. */
  lemma LayoutIsUnique(g: seq<Item>, h: seq<Item>, input: Input, ctx: Context)
    requires IsLaidOut(g, input, ctx) && IsLaidOut(h, input, ctx)
    ensures g == h
  {
    var q := 2 + if Instructions(input, ctx).Some? then 1 else 0;
    var r := q + if ctx.lastQuery.Some? then 1 else 0;
    var s := r + |ctx.recent|;
    SameByParts(g, h, r, s);
  }

  lemma SameByParts<T>(g: seq<T>, h: seq<T>, r: nat, s: nat)
    requires |g| == |h| && r <= s <= |g| && g[r..s] == h[r..s]
    requires forall i | 0 <= i < r || s <= i < |g| :: g[i] == h[i]
    ensures g == h
  {
    forall i | r <= i < s ensures g[i] == h[i] { assert g[i] == g[r..s][i - r] && h[i] == h[r..s][i - r]; }
  }

  // ------------------------------------------------------------ the recent tail

  /** What the tail keeps of an item: an assistant whole, a result by its id. */
  function SlimOf(x: Item): Item {
    if x.ToolResult? then ToolResult(x.callId, "Tool call omitted...", []) else x
  }

  function SlimEach(items: seq<Item>): (r: seq<Item>)
    ensures |r| == |items| && forall i | 0 <= i < |items| :: r[i] == SlimOf(items[i])
  {
    seq(|items|, i requires 0 <= i < |items| => SlimOf(items[i]))
  }

  /** The positions of the assistants and the results. */
  function PairPositions(items: seq<Item>): set<nat> {
    set i: nat | i < |items| && (items[i].Assistant? || items[i].ToolResult?)
  }

  /** `kept` is the assistants and results of `items`, in order, each slimmed. */
  ghost predicate IsSlimOfAll(kept: seq<Item>, items: seq<Item>, at: seq<nat>) {
    Picks(kept, SlimEach(items), at, 0, |items|, PairPositions(items))
  }

  lemma {:induction false} SlimKeeps(items: seq<Item>, j: nat) returns (at: seq<nat>)
    requires j <= |items|
    ensures Picks(SlimAll(items[j..]), SlimEach(items), at, j, |items|, PairPositions(items))
    decreases |items| - j
  {
    if j == |items| {
      at := [];
      PickNothing(SlimEach(items), j, PairPositions(items));
    } else {
      var rest := SlimKeeps(items, j + 1);
      at := PickFront(SlimAll(items[j + 1..]), SlimEach(items), rest, j, |items|, PairPositions(items));
      assert items[j..][1..] == items[j + 1..];
    }
  }

  /** Main result: with `n` the last real user turn, the captured query is its query
      and the captured messages are exactly the assistants and results after it. */
  lemma CapturesLastTurn(c: seq<Item>, g: nat, d: Option<string>, n: nat) returns (at: seq<nat>)
    requires n < |c| && IsRealUserTurn(c[n]) && forall i | n < i < |c| :: !IsRealUserTurn(c[i])
    ensures var ctx := Capture(c, g, d);
            && ctx.lastQuery == Some(QueryOf(c[n])) && IsSlimOfAll(ctx.recent, c[n + 1..], at)
            && ctx.cwdGeneration == g && ctx.destination == d
  {
    TailStartUnique(IsRealUserTurn, c, n + 1);
    at := SlimKeeps(c[n + 1..], 0);
    assert c[n + 1..][0..] == c[n + 1..];
  }

  /** Without a real user turn there is no query, and the whole conversation is recent. */
  lemma CapturesEverything(c: seq<Item>, g: nat, d: Option<string>) returns (at: seq<nat>)
    requires forall i | 0 <= i < |c| :: !IsRealUserTurn(c[i])
    ensures var ctx := Capture(c, g, d); ctx.lastQuery == None && IsSlimOfAll(ctx.recent, c, at)
  {
    TailStartUnique(IsRealUserTurn, c, 0);
    assert c[0..] == c;
    at := SlimKeeps(c, 0);
  }

  // ------------------------------------------------------------ what a turn asks

  /** A tagged query is what stands between its tags, whatever surrounds it. */
  lemma TaggedQuery(x: string, inner: string, y: string)
    requires !Contains(x, QUERY) && !Contains(inner, END_QUERY)
    ensures ExtractUserQuery(x + (QUERY + (inner + (END_QUERY + y)))) == StripSystemTags(Trim(inner))
  {
    assert IsTag(QUERY) && IsTag(END_QUERY);
    var text := x + (QUERY + (inner + (END_QUERY + y)));
    FindAfter(x, QUERY, inner + (END_QUERY + y));
    FindAfter(inner, END_QUERY, y);
    BehindTag(x, QUERY, inner + (END_QUERY + y));
    assert (inner + (END_QUERY + y))[..|inner|] == inner;
  }

  lemma BehindTag<T>(x: seq<T>, t: seq<T>, y: seq<T>)
    ensures (x + (t + y))[|x| + |t|..] == y
  {
  }

  /** Without a closed pair of query tags the whole text is the query. */
  lemma UntaggedQuery(text: string)
    requires !HasBlock(text, "user_query")
    ensures ExtractUserQuery(text) == StripSystemTags(text)
  {
    assert OpenTag("user_query") == QUERY && CloseTag("user_query") == END_QUERY;
    FindIsFirst(text, QUERY);
    if Find(text, QUERY).Some? {
      var start := Find(text, QUERY).value;
      var rest := text[start + |QUERY|..];
      FindIsFirst(rest, END_QUERY);
      if Find(rest, END_QUERY).Some? {
        var end := Find(rest, END_QUERY).value;
        assert text[start + |QUERY| + end..] == rest[end..];
        assert OccursAt(text, END_QUERY, start + |QUERY| + end);
      }
    }
  }

  lemma PlainHasNoBlock(text: string, name: string)
    requires forall i | 0 <= i < |text| :: text[i] != '<'
    ensures !HasBlock(text, name)
  {
    assert OpenTag(name)[0] == '<';
    forall i ensures !OccursAt(text, OpenTag(name), i) {
      if OccursAt(text, OpenTag(name), i) { OccursChars(text, OpenTag(name), i); }
    }
  }

  /** Text without a `<` is its own query, trimmed. */
  lemma PlainQuery(text: string)
    requires forall i | 0 <= i < |text| :: text[i] != '<'
    ensures ExtractUserQuery(text) == Trim(text)
  {
    forall name: string ensures !HasBlock(text, name) { PlainHasNoBlock(text, name); }
    UntaggedQuery(text);
    StripTagsLaw(text, SYSTEM_TAGS);
  }

  /** Stripping drops each closed block with what it holds. */
  lemma BlockIsStripped(x: string, name: string, mid: string, y: string)
    requires IsTag(OpenTag(name)) && IsTag(CloseTag(name))
    requires !Contains(x, OpenTag(name)) && !Contains(OpenTag(name) + mid, CloseTag(name))
    ensures StripTag(x + (OpenTag(name) + (mid + (CloseTag(name) + y))), name) == StripTag(x + y, name)
  {
    DropBlockAt(x, name, mid, y);
  }

  // ---------------------------------------------------------- which turns are real

  lemma TextsNext(parts: seq<Part>, p: Part)
    ensures Texts(parts + [p]) == Texts(parts) + (if p.TextPart? then [p.text] else [])
  {
    TextsConcat(parts, [p]);
    assert [p][1..] == [];
  }

  lemma {:induction false} TextsConcat(a: seq<Part>, b: seq<Part>)
    ensures Texts(a + b) == Texts(a) + Texts(b)
  {
    if a == [] {
      assert a + b == b;
    } else {
      assert (a + b)[1..] == a[1..] + b;
      TextsConcat(a[1..], b);
    }
  }

  lemma {:induction false} JoinNext(lines: seq<string>, t: string)
    ensures JoinLines(lines + [t]) == if lines == [] then t else JoinLines(lines) + "\n" + t
  {
    if lines == [] {
      assert lines + [t] == [t];
    } else {
      JoinNext(lines[1..], t);
      assert (lines + [t])[1..] == lines[1..] + [t];
      if |lines| == 1 {
        assert lines[1..] == [];
        Assoc(lines[0], "\n", t);
      } else {
        var j := JoinLines(lines[1..]);
        Assoc(lines[0], "\n" + j, "\n" + t);
        Assoc("\n", j, "\n" + t);
        Assoc(j, "\n", t);
        Assoc(JoinLines(lines), "\n", t);
      }
    }
  }

  /** The text of an item: its text parts on lines of their own, images left out. */
  lemma TextOfParts(parts: seq<Part>, p: Part)
    ensures JoinTexts([]) == ""
    ensures JoinTexts(parts + [p])
         == if p.ImagePart? then JoinTexts(parts)
            else if Texts(parts) == [] then p.text
            else JoinTexts(parts) + "\n" + p.text
  {
    TextsNext(parts, p);
    if p.TextPart? { JoinNext(Texts(parts), p.text); } else { assert Texts(parts) + [] == Texts(parts); }
  }

  /** An item with an image is a real turn, whatever it says, and a synthetic one never. */
  lemma ImageTurnIsReal(parts: seq<Part>, reason: Option<SyntheticReason>, url: string)
    requires ImagePart(url) in parts
    ensures IsRealUserTurn(User(parts, reason)) <==> reason == None
  {
    assert HasImage(parts);
  }

  lemma OneText(text: string)
    ensures QueryOf(User([TextPart(text)], None)) == ExtractUserQuery(text) && !HasImage([TextPart(text)])
  {
    assert [TextPart(text)][1..] == [];
    assert Texts([TextPart(text)]) == [text];
  }

  lemma RealByQuery(x: Item, query: string)
    requires x.User? && x.reason.None? && !HasImage(x.parts) && QueryOf(x) == query
    ensures IsRealUserTurn(x) <==> query != "" && query != AUTO_CONTINUE_ID && query != AUTO_CONTINUE_PROMPT
  {
  }

  /** A plain text is a real turn unless it is blank or tells the agent to go on. */
  lemma PlainTurnIsReal(text: string)
    requires forall i | 0 <= i < |text| :: text[i] != '<'
    ensures IsRealUserTurn(User([TextPart(text)], None)) <==>
            Trim(text) != "" && Trim(text) != AUTO_CONTINUE_ID && Trim(text) != AUTO_CONTINUE_PROMPT
  {
    OneText(text);
    PlainQuery(text);
    RealByQuery(User([TextPart(text)], None), Trim(text));
  }
}
