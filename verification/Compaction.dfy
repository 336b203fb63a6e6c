/** Compaction: what is captured from a conversation, the history it is rebuilt
    into, and what a second compaction sees. */
module Compaction {
  import opened Sequences
  import opened Conversation
  import opened Pairing
  import opened Sanitizer
  import opened QueryTags
  import SummaryFormat

  const PLACEHOLDER := "Tool call omitted..."

  /** What is kept of an item of the recent tail. */
  function Slim(x: Item): seq<Item> {
    match x
    case Assistant(_, _) => [x]
    case ToolResult(id, _, _) => [ToolResult(id, PLACEHOLDER, [])]
    case _ => []
  }

  function SlimAll(items: seq<Item>): seq<Item> {
    if items == [] then [] else Slim(items[0]) + SlimAll(items[1..])
  }

  /** One past the last item that is a boundary, or 0. */
  function TailStart(boundary: Item -> bool, c: seq<Item>): (n: nat)
    ensures n <= |c|
    ensures n > 0 ==> boundary(c[n - 1])
    ensures forall i | n <= i < |c| :: !boundary(c[i])
  {
    if c == [] then 0
    else if boundary(c[|c| - 1]) then |c|
    else TailStart(boundary, c[..|c| - 1])
  }

  function RecentAfter(boundary: Item -> bool, c: seq<Item>): seq<Item> {
    SlimAll(c[TailStart(boundary, c)..])
  }

  function LastBoundary(boundary: Item -> bool, c: seq<Item>): (r: Option<Item>)
    ensures r.Some? ==> boundary(r.value)
  {
    var n := TailStart(boundary, c);
    if n == 0 then None else Some(c[n - 1])
  }

  function RecentMessages(c: seq<Item>): seq<Item> {
    RecentAfter(IsRealUserTurn, c)
  }

  function LastRealQuery(c: seq<Item>): Option<string> {
    match LastBoundary(IsRealUserTurn, c) case None => None case Some(x) => Some(QueryOf(x))
  }

  /** The older boundary: any user item, synthetic ones too. */
  function MessagesSinceLastUser(c: seq<Item>): seq<Item> {
    RecentAfter((x: Item) => x.User?, c)
  }

  datatype Context = Context(cwdGeneration: nat, destination: Option<string>, recent: seq<Item>, lastQuery: Option<string>)

  function Capture(c: seq<Item>, cwdGeneration: nat, destination: Option<string>): Context {
    Context(cwdGeneration, destination, RecentMessages(c), LastRealQuery(c))
  }

  datatype Input = Input(system: Item, prefix: string, agentsMd: Option<string>,
                         summary: string, reminder: Option<string>, hint: Option<string>)

  function Synthetic(text: string, reason: SyntheticReason): Item {
    User([TextPart(text)], Some(reason))
  }

  const PREAMBLE := "This session is being continued from a previous conversation that ran out of context. The summary below covers the earlier portion of the conversation.\n\n"

  function SummaryText(input: Input): string {
    PREAMBLE + SummaryFormat.Format(input.summary) + (if input.hint.Some? then input.hint.value else "")
  }

  function Instructions(input: Input, ctx: Context): Option<string> {
    if ctx.cwdGeneration == 0 then input.agentsMd else ctx.destination
  }

  function OptionalItem(text: Option<string>, reason: SyntheticReason): seq<Item> {
    match text case Some(t) => [Synthetic(t, reason)] case None => []
  }

  function QueryItem(query: Option<string>): seq<Item> {
    match query case Some(q) => [User([TextPart(WrapUserQuery(q))], None)] case None => []
  }

  /** Everything before the query. */
  function Opening(input: Input, ctx: Context): seq<Item> {
    [input.system, Synthetic(input.prefix, CompactionMeta)] + OptionalItem(Instructions(input, ctx), ProjectInstructions)
  }

  /** Everything after the recent messages. */
  function Closing(input: Input): seq<Item> {
    [Synthetic(SummaryText(input), CompactionMeta)] + OptionalItem(input.reminder, SystemReminder)
  }

  function Compacted(input: Input, ctx: Context): seq<Item> {
    Opening(input, ctx) + QueryItem(ctx.lastQuery) + ctx.recent + Closing(input)
  }

  predicate IsQueryItem(x: Item, query: string) {
    x == User([TextPart("<user_query>\n" + query + "\n</user_query>")], None)
  }

  predicate IsSummaryItem(x: Item, input: Input) {
    var hint := if input.hint.Some? then input.hint.value else "";
    x == User([TextPart(PREAMBLE + SummaryFormat.Format(input.summary) + hint)], Some(CompactionMeta))
  }

  /** The history by position: the system item, the prefix, the project instructions
      of the working directory, the last query in its wrapper, the recent messages,
      the summary in plain text, the reminder; each optional one if it is given. */
  predicate IsLaidOut(h: seq<Item>, input: Input, ctx: Context) {
    var instructions := if ctx.cwdGeneration == 0 then input.agentsMd else ctx.destination;
    var q := 2 + if instructions.Some? then 1 else 0;
    var r := q + if ctx.lastQuery.Some? then 1 else 0;
    var s := r + |ctx.recent|;
    && |h| == s + 1 + (if input.reminder.Some? then 1 else 0)
    && h[0] == input.system
    && h[1] == User([TextPart(input.prefix)], Some(CompactionMeta))
    && (instructions.Some? ==> h[2] == User([TextPart(instructions.value)], Some(ProjectInstructions)))
    && (ctx.lastQuery.Some? ==> IsQueryItem(h[q], ctx.lastQuery.value))
    && h[r..s] == ctx.recent
    && IsSummaryItem(h[s], input)
    && (input.reminder.Some? ==> h[s + 1] == User([TextPart(input.reminder.value)], Some(SystemReminder)))
  }

  lemma Positions<T>(x: T, y: T, o: seq<T>, q: seq<T>, recent: seq<T>, z: T, m: seq<T>)
    requires |o| <= 1 && |q| <= 1 && |m| <= 1
    ensures var h := [x, y] + o + q + recent + ([z] + m);
            var r := 2 + |o| + |q|;
            var s := r + |recent|;
            && |h| == s + 1 + |m| && h[0] == x && h[1] == y
            && (o != [] ==> h[2] == o[0]) && (q != [] ==> h[2 + |o|] == q[0])
            && h[r..s] == recent && h[s] == z && (m != [] ==> h[s + 1] == m[0])
  {
  }

  lemma WrapperText(query: string)
    ensures IsQueryItem(User([TextPart(WrapUserQuery(query))], None), query)
  {
    assert QUERY + "\n" == "<user_query>\n" && "\n" + END_QUERY == "\n</user_query>";
    Assoc(QUERY + "\n" + query, "\n", END_QUERY);
  }

  lemma OptionalIsGiven(text: Option<string>, reason: SyntheticReason)
    ensures |OptionalItem(text, reason)| == if text.Some? then 1 else 0
    ensures text.Some? ==> OptionalItem(text, reason)[0] == User([TextPart(text.value)], Some(reason))
  {
  }

  lemma QueryIsGiven(query: Option<string>)
    ensures |QueryItem(query)| == if query.Some? then 1 else 0
    ensures query.Some? ==> IsQueryItem(QueryItem(query)[0], query.value)
  {
    if query.Some? { WrapperText(query.value); }
  }

  lemma SummaryIsGiven(input: Input)
    ensures IsSummaryItem(Synthetic(SummaryText(input), CompactionMeta), input)
  {
  }

  lemma LaidOut(input: Input, ctx: Context, o: seq<Item>, q: seq<Item>, z: Item, m: seq<Item>)
    requires var instructions := Instructions(input, ctx);
             && |o| == (if instructions.Some? then 1 else 0)
             && (instructions.Some? ==> o[0] == User([TextPart(instructions.value)], Some(ProjectInstructions)))
    requires |q| == (if ctx.lastQuery.Some? then 1 else 0) && (ctx.lastQuery.Some? ==> IsQueryItem(q[0], ctx.lastQuery.value))
    requires IsSummaryItem(z, input)
    requires |m| == (if input.reminder.Some? then 1 else 0)
    requires input.reminder.Some? ==> m[0] == User([TextPart(input.reminder.value)], Some(SystemReminder))
    ensures IsLaidOut([input.system, Synthetic(input.prefix, CompactionMeta)] + o + q + ctx.recent + ([z] + m), input, ctx)
  {
    Positions(input.system, Synthetic(input.prefix, CompactionMeta), o, q, ctx.recent, z, m);
  }

  lemma CompactedIsLaidOut(input: Input, ctx: Context)
    ensures IsLaidOut(Compacted(input, ctx), input, ctx)
  {
    OptionalIsGiven(Instructions(input, ctx), ProjectInstructions);
    QueryIsGiven(ctx.lastQuery);
    SummaryIsGiven(input);
    OptionalIsGiven(input.reminder, SystemReminder);
    LaidOut(input, ctx, OptionalItem(Instructions(input, ctx), ProjectInstructions), QueryItem(ctx.lastQuery),
            Synthetic(SummaryText(input), CompactionMeta), OptionalItem(input.reminder, SystemReminder));
  }

  method SummaryMessage(input: Input) returns (formatted: string)
    ensures formatted == SummaryText(input)
  {
    var cleaned := SummaryFormat.FormatCompactSummary(input.summary);
    formatted := PREAMBLE + cleaned;
    if input.hint.Some? {
      formatted := formatted + input.hint.value;
    }
  }

  method PushAll(items: seq<Item>, more: seq<Item>) returns (r: seq<Item>)
    ensures r == items + more
  {
    r := items;
    var i := 0;
    while i < |more|
      invariant 0 <= i <= |more|
      invariant r == items + more[..i]
    {
      r := r + [more[i]];
      i := i + 1;
    }
  }

  method PushSome(items: seq<Item>, text: Option<string>, reason: SyntheticReason) returns (r: seq<Item>)
    ensures r == items + OptionalItem(text, reason)
  {
    r := items;
    if text.Some? {
      r := r + [Synthetic(text.value, reason)];
    }
  }

  /** The history as the program pushes it together. */
  method BuildCompactedHistory(input: Input, ctx: Context) returns (compacted: seq<Item>)
    ensures compacted == Compacted(input, ctx) && IsLaidOut(compacted, input, ctx)
  {
    var summary := SummaryMessage(input);
    compacted := [input.system, Synthetic(input.prefix, CompactionMeta)];
    var instructions := if ctx.cwdGeneration == 0 then input.agentsMd else ctx.destination;
    compacted := PushSome(compacted, instructions, ProjectInstructions);
    ghost var opening := compacted;
    if ctx.lastQuery.Some? {
      compacted := compacted + [User([TextPart(WrapUserQuery(ctx.lastQuery.value))], None)];
    }
    assert compacted == opening + QueryItem(ctx.lastQuery);
    compacted := PushAll(compacted, ctx.recent);
    ghost var kept := compacted;
    compacted := compacted + [Synthetic(summary, CompactionMeta)];
    compacted := PushSome(compacted, input.reminder, SystemReminder);
    Assoc(kept, [Synthetic(summary, CompactionMeta)], OptionalItem(input.reminder, SystemReminder));
    CompactedIsLaidOut(input, ctx);
  }

  // ------------------------------------------------------- boundary laws

  lemma {:induction false} SlimConcat(x: seq<Item>, y: seq<Item>)
    ensures SlimAll(x + y) == SlimAll(x) + SlimAll(y)
  {
    if x == [] {
      assert x + y == y;
    } else {
      assert (x + y)[1..] == x[1..] + y;
      SlimConcat(x[1..], y);
    }
  }

  /** Slimming twice is slimming once, and leaves assistants and results only. */
  lemma {:induction false} SlimTwice(items: seq<Item>)
    ensures SlimAll(SlimAll(items)) == SlimAll(items)
    ensures forall i | 0 <= i < |SlimAll(items)| :: SlimAll(items)[i].Assistant? || SlimAll(items)[i].ToolResult?
  {
    if items != [] {
      SlimTwice(items[1..]);
      SlimConcat(Slim(items[0]), SlimAll(items[1..]));
    }
  }

  /** The tail starts where the last boundary item stands, and nowhere else. */
  lemma TailStartUnique(boundary: Item -> bool, c: seq<Item>, n: nat)
    requires n <= |c| && (n > 0 ==> boundary(c[n - 1]))
    requires forall i | n <= i < |c| :: !boundary(c[i])
    ensures TailStart(boundary, c) == n
  {
    var m := TailStart(boundary, c);
    assert m > 0 ==> boundary(c[m - 1]);
    assert n > 0 ==> boundary(c[n - 1]);
  }

  ghost predicate Quiet(boundary: Item -> bool, items: seq<Item>) {
    forall i | 0 <= i < |items| :: !boundary(items[i])
  }

  /** Three quiet stretches around one boundary item. */
  lemma TailStartAfter(boundary: Item -> bool, x: seq<Item>, b: Item, y: seq<Item>)
    requires boundary(b) && Quiet(boundary, y)
    ensures TailStart(boundary, x + [b] + y) == |x| + 1
    ensures (x + [b] + y)[|x| + 1..] == y && (x + [b] + y)[|x|] == b
  {
    TailStartUnique(boundary, x + [b] + y, |x| + 1);
  }

  lemma TailStartNone(boundary: Item -> bool, c: seq<Item>)
    requires Quiet(boundary, c)
    ensures TailStart(boundary, c) == 0
  {
    TailStartUnique(boundary, c, 0);
  }

  lemma QuietConcat(boundary: Item -> bool, x: seq<Item>, y: seq<Item>)
    requires Quiet(boundary, x) && Quiet(boundary, y)
    ensures Quiet(boundary, x + y)
  {
  }

  // -------------------------------------------------- the compacted history

  lemma OpeningIsQuiet(input: Input, ctx: Context)
    requires input.system.System?
    ensures Quiet(IsRealUserTurn, Opening(input, ctx)) && SlimAll(Opening(input, ctx)) == []
  {
    var o := Opening(input, ctx);
    forall i | 0 <= i < |o| ensures !o[i].Assistant? && !o[i].ToolResult? && (o[i].User? ==> o[i].reason.Some?) {}
    SlimOfOthers(o);
  }

  lemma ClosingIsQuiet(input: Input)
    ensures Quiet(IsRealUserTurn, Closing(input)) && SlimAll(Closing(input)) == []
  {
    var c := Closing(input);
    forall i | 0 <= i < |c| ensures c[i].User? && c[i].reason.Some? {}
    SlimOfOthers(c);
  }

  lemma {:induction false} SlimOfOthers(items: seq<Item>)
    requires NoPairs(items)
    ensures SlimAll(items) == []
  {
    if items != [] { SlimOfOthers(items[1..]); }
  }

  lemma SlimIsQuiet(items: seq<Item>)
    requires forall i | 0 <= i < |items| :: items[i].Assistant? || items[i].ToolResult?
    ensures Quiet(IsRealUserTurn, items)
  {
  }

  lemma WrappedQueryOf(q: string)
    ensures QueryOf(User([TextPart(WrapUserQuery(q))], None)) == ExtractUserQuery(WrapUserQuery(q))
    ensures IsRealUserTurn(User([TextPart(WrapUserQuery(q))], None)) <==> !IsSyntheticQuery(ExtractUserQuery(WrapUserQuery(q)))
  {
    var parts := [TextPart(WrapUserQuery(q))];
    assert parts[1..] == [];
    assert Texts(parts) == [WrapUserQuery(q)];
  }

  /** The query a second capture finds, given the one that was wrapped. */
  function ReadBack(query: Option<string>): Option<string> {
    match query
    case None => None
    case Some(q) =>
      var e := ExtractUserQuery(WrapUserQuery(q));
      if IsSyntheticQuery(e) then None else Some(e)
  }

  /** What a second capture reads back, for any captured context. */
  lemma Recapture(input: Input, ctx: Context)
    requires input.system.System?
    requires SlimAll(ctx.recent) == ctx.recent
    requires forall i | 0 <= i < |ctx.recent| :: ctx.recent[i].Assistant? || ctx.recent[i].ToolResult?
    ensures RecentMessages(Compacted(input, ctx)) == ctx.recent
    ensures LastRealQuery(Compacted(input, ctx)) == ReadBack(ctx.lastQuery)
  {
    OpeningIsQuiet(input, ctx);
    ClosingIsQuiet(input);
    SlimIsQuiet(ctx.recent);
    RecaptureParts(IsRealUserTurn, Opening(input, ctx), QueryItem(ctx.lastQuery), ctx.recent, Closing(input));
    if ctx.lastQuery.Some? { WrappedQueryOf(ctx.lastQuery.value); }
  }

  /** Around one item that may be a boundary, nothing else is. */
  lemma RecaptureParts(boundary: Item -> bool, o: seq<Item>, q: seq<Item>, recent: seq<Item>, closing: seq<Item>)
    requires Quiet(boundary, o) && SlimAll(o) == []
    requires |q| <= 1 && NoPairs(q)
    requires Quiet(boundary, recent) && SlimAll(recent) == recent
    requires Quiet(boundary, closing) && SlimAll(closing) == []
    ensures RecentAfter(boundary, o + q + recent + closing) == recent
    ensures LastBoundary(boundary, o + q + recent + closing) == if q != [] && boundary(q[0]) then Some(q[0]) else None
  {
    var y := recent + closing;
    QuietConcat(boundary, recent, closing);
    SlimConcat(recent, closing);
    Assoc(o + q, recent, closing);
    if q != [] && boundary(q[0]) {
      assert q == [q[0]];
      TailStartAfter(boundary, o, q[0], y);
    } else {
      SlimOfOthers(q);
      QuietConcat(boundary, o, q);
      SlimConcat(o, q);
      QuietWhole(boundary, o + q, y);
    }
  }

  /** Without a boundary everything is recent. */
  lemma QuietWhole(boundary: Item -> bool, x: seq<Item>, y: seq<Item>)
    requires Quiet(boundary, x) && Quiet(boundary, y) && SlimAll(x) == []
    ensures RecentAfter(boundary, x + y) == SlimAll(y) && LastBoundary(boundary, x + y) == None
  {
    QuietConcat(boundary, x, y);
    TailStartNone(boundary, x + y);
    SlimConcat(x, y);
    assert (x + y)[0..] == x + y;
  }

  lemma CompactedParts(input: Input, ctx: Context)
    ensures Compacted(input, ctx) == (Opening(input, ctx) + QueryItem(ctx.lastQuery)) + (ctx.recent + Closing(input))
    ensures ctx.lastQuery.Some? ==> QueryItem(ctx.lastQuery) == [QueryItem(ctx.lastQuery)[0]]
  {
    Assoc(Opening(input, ctx) + QueryItem(ctx.lastQuery), ctx.recent, Closing(input));
  }

  /** A query that a second capture reads back as it is. */
  ghost predicate Survives(query: Option<string>) {
    match query
    case None => true
    case Some(q) => !IsSyntheticQuery(q) && IsStable(q, SYSTEM_TAGS) && !Text.Contains(q, END_QUERY)
  }

  lemma QueryTagsAreTags()
    ensures Text.IsTag(END_QUERY) && '\n' !in END_QUERY
  {
  }

  /** Main result: compaction is a fixpoint. Capturing the compacted history gives
      back the recent messages always, and the last query exactly when it is
      absent, or not synthetic, free of closed system blocks and of `</user_query>`. */
  lemma CompactionFixpoint(c: seq<Item>, input: Input, g: nat, d: Option<string>)
    requires input.system.System?
    ensures var ctx := Capture(c, g, d);
            var again := Capture(Compacted(input, ctx), g, d);
            && again.recent == ctx.recent
            && (again.lastQuery == ctx.lastQuery <==> Survives(ctx.lastQuery))
            && (again == ctx <==> Survives(ctx.lastQuery))
  {
    var ctx := Capture(c, g, d);
    SlimTwice(c[TailStart(IsRealUserTurn, c)..]);
    Recapture(input, ctx);
    if ctx.lastQuery.Some? {
      CapturedQueryIsTrimmed(c);
      QueryTagsAreTags();
      WrapRoundTrip(ctx.lastQuery.value, QUERY, END_QUERY, SYSTEM_TAGS);
    }
  }

  lemma CapturedQueryIsTrimmed(c: seq<Item>)
    requires LastRealQuery(c).Some?
    ensures Text.IsTrimmed(LastRealQuery(c).value)
  {
    var x := LastBoundary(IsRealUserTurn, c).value;
    ExtractIsTrimmed(JoinTexts(x.parts), QUERY, END_QUERY, SYSTEM_TAGS);
  }

  // -------------------------------------------------- the provider invariant

  lemma {:induction false} UnownedSlim(items: seq<Item>, seen: set<string>)
    ensures Unowned(SlimAll(items), seen) == Unowned(items, seen)
  {
    if items != [] {
      UnownedSlim(items[1..], seen + Declared(items[0]));
      var rest := SlimAll(items[1..]);
      if Slim(items[0]) == [] {
        assert SlimAll(items) == rest;
        assert seen + Declared(items[0]) == seen;
      } else {
        var x := Slim(items[0])[0];
        assert SlimAll(items) == [x] + rest && ([x] + rest)[1..] == rest;
        assert Declared(x) == Declared(items[0]);
      }
    }
  }

  lemma {:induction false} UnownedOthers(x: seq<Item>, y: seq<Item>, seen: set<string>)
    requires NoPairs(x)
    ensures Unowned(x + y, seen) == Unowned(y, seen)
  {
    if x == [] {
      assert x + y == y;
    } else {
      assert (x + y)[1..] == x[1..] + y;
      assert seen + Declared(x[0]) == seen;
      UnownedOthers(x[1..], y, seen);
    }
  }

  lemma {:induction false} UnownedThenOthers(x: seq<Item>, y: seq<Item>, seen: set<string>)
    requires NoPairs(y)
    ensures Unowned(x + y, seen) == Unowned(x, seen)
  {
    if x == [] {
      UnownedOthers(y, [], seen);
      assert x + y == y && y + [] == y;
    } else {
      assert (x + y)[1..] == x[1..] + y;
      UnownedThenOthers(x[1..], y, seen + Declared(x[0]));
    }
  }

  /** The check of the compacted history reports exactly the results of the tail
      whose owner is not in the tail before them. */
  lemma CompactedReports(c: seq<Item>, input: Input, g: nat, d: Option<string>)
    requires input.system.System?
    ensures Unowned(Compacted(input, Capture(c, g, d)), {}) == Unowned(c[TailStart(IsRealUserTurn, c)..], {})
  {
    var ctx := Capture(c, g, d);
    FrontIsOthers(input, ctx);
    BackIsOthers(input);
    CompactedParts(input, ctx);
    UnownedOthers(Opening(input, ctx) + QueryItem(ctx.lastQuery), ctx.recent + Closing(input), {});
    UnownedThenOthers(ctx.recent, Closing(input), {});
    UnownedSlim(c[TailStart(IsRealUserTurn, c)..], {});
  }

  ghost predicate NoPairs(items: seq<Item>) {
    forall i | 0 <= i < |items| :: !items[i].Assistant? && !items[i].ToolResult?
  }

  lemma FrontIsOthers(input: Input, ctx: Context)
    requires input.system.System?
    ensures NoPairs(Opening(input, ctx) + QueryItem(ctx.lastQuery))
  {
  }

  lemma BackIsOthers(input: Input)
    ensures NoPairs(Closing(input))
  {
  }

  /** Every result has its owner before it with no boundary item in between. */
  ghost predicate OwnedWithinTurn(boundary: Item -> bool, c: seq<Item>) {
    forall i | 0 <= i < |c| && c[i].ToolResult? ::
      exists k :: Declares(c, k, i) && forall j | k < j < i :: !boundary(c[j])
  }

  lemma DeclaresInTail(c: seq<Item>, n: nat, k: int, i: int)
    requires n <= k && n <= |c| && 0 <= i < |c[n..]| && Declares(c, k, n + i)
    ensures Declares(c[n..], k - n, i)
  {
    assert c[n..][i] == c[n + i] && c[n..][k - n] == c[k];
  }

  /** An owner with no boundary after it lies behind the last boundary. */
  lemma OwnerBehind(boundary: Item -> bool, c: seq<Item>, n: nat, k: int, i: int)
    requires n <= |c| && n <= i && Declares(c, k, i) && forall j | k < j < i :: !boundary(c[j])
    requires n > 0 ==> boundary(c[n - 1]) && c[n - 1].User?
    ensures n <= k
  {
  }

  lemma TailIsWeaklyPaired(boundary: Item -> bool, c: seq<Item>)
    requires OwnedWithinTurn(boundary, c)
    requires forall x :: boundary(x) ==> x.User?
    ensures WeaklyPaired(c[TailStart(boundary, c)..])
  {
    var n := TailStart(boundary, c);
    var tail := c[n..];
    forall i | 0 <= i < |tail| && tail[i].ToolResult? ensures exists k :: Declares(tail, k, i) {
      assert c[n + i] == tail[i];
      var k :| Declares(c, k, n + i) && forall j | k < j < n + i :: !boundary(c[j]);
      OwnerBehind(boundary, c, n, k, n + i);
      DeclaresInTail(c, n, k, i);
    }
  }

  /** Main result: if every result's owner precedes it with no real user turn in
      between, the compacted history passes the provider check. */
  lemma CompactedIsValid(c: seq<Item>, input: Input, g: nat, d: Option<string>)
    requires input.system.System? && OwnedWithinTurn(IsRealUserTurn, c)
    ensures Unowned(Compacted(input, Capture(c, g, d)), {}) == []
    ensures WeaklyPaired(Compacted(input, Capture(c, g, d)))
  {
    CompactedReports(c, input, g, d);
    TailIsWeaklyPaired(IsRealUserTurn, c);
    ValidIffWeaklyPaired(c[TailStart(IsRealUserTurn, c)..]);
    ValidIffWeaklyPaired(Compacted(input, Capture(c, g, d)));
  }

  /** A strictly paired history meets the hypothesis, so compacting a repaired
      history never orphans a result. */
  lemma StrictIsOwnedWithinTurn(c: seq<Item>)
    requires StrictlyPaired(c)
    ensures OwnedWithinTurn(IsRealUserTurn, c)
  {
    forall i | 0 <= i < |c| && c[i].ToolResult?
      ensures exists k :: Declares(c, k, i) && forall j | k < j < i :: !IsRealUserTurn(c[j])
    {
      assert HasOwner(c, i);
      var k :| Owns(c, k, i);
      assert Declares(c, k, i);
    }
  }

  /** With the raw user boundary the same hypothesis does not suffice: a synthetic
      item between a call and its result cuts the pair. */
  lemma RawBoundaryOrphans(call: ToolCall, note: string, text: string)
    ensures var c := [Assistant("", [call]), Synthetic(note, SystemReminder), ToolResult(call.id, text, [])];
            && OwnedWithinTurn(IsRealUserTurn, c)
            && Unowned(MessagesSinceLastUser(c), {}) == [call.id]
            && Unowned(RecentMessages(c), {}) == []
  {
    var c := [Assistant("", [call]), Synthetic(note, SystemReminder), ToolResult(call.id, text, [])];
    assert call in c[0].calls;
    assert Declares(c, 0, 2) && !IsRealUserTurn(c[1]);
    var raw := (x: Item) => x.User?;
    TailStartUnique(raw, c, 2);
    assert c[2..] == [c[2]];
    var r := ToolResult(call.id, PLACEHOLDER, []);
    assert SlimAll([c[2]]) == [r] by { assert [c[2]][1..] == []; }
    assert Unowned([r], {}) == [call.id] by { assert [r][1..] == []; }
    TailIsWeaklyPaired(IsRealUserTurn, c);
    ValidIffWeaklyPaired(c[TailStart(IsRealUserTurn, c)..]);
    UnownedSlim(c[TailStart(IsRealUserTurn, c)..], {});
  }
}
