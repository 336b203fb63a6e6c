/** `fit_conversation_to_budget`: drop the oldest turns, keep a leading system
    item, never split a tool run, and truncate the last turn rather than drop it. */
module BudgetFit {
  import opened Conversation
  import opened Pairing
  import opened Truncation

  const IMAGE_TOKEN_ESTIMATE: nat := 765
  const MAX_USIZE: nat := 0xFFFF_FFFF_FFFF_FFFF

  // ------------------------------------------------------------ estimates

  function TextBytes(parts: seq<Part>): nat {
    if parts == [] then 0
    else (if parts[0].TextPart? then ByteLen(parts[0].text) else 0) + TextBytes(parts[1..])
  }

  function ImageCount(parts: seq<Part>): nat {
    if parts == [] then 0
    else (if parts[0].ImagePart? then 1 else 0) + ImageCount(parts[1..])
  }

  function ArgumentBytes(calls: seq<ToolCall>): nat {
    if calls == [] then 0 else ByteLen(calls[0].arguments) + ArgumentBytes(calls[1..])
  }

  /** Bytes over four, images at a flat rate. */
  function ItemTokens(x: Item): nat {
    match x
    case System(content) => ByteLen(content) / 4
    case User(parts, _) => TextBytes(parts) / 4 + ImageCount(parts) * IMAGE_TOKEN_ESTIMATE
    case Assistant(content, calls) => (ByteLen(content) + ArgumentBytes(calls)) / 4
    case ToolResult(_, content, _) => ByteLen(content) / 4
    case BackendToolCall(summary) => ByteLen(summary) / 4
    case Reasoning(text, encrypted) => (ByteLen(text) + ByteLen(encrypted)) / 4
  }

  function Tokens(cost: Item -> nat, items: seq<Item>): nat {
    if items == [] then 0 else cost(items[0]) + Tokens(cost, items[1..])
  }

  lemma {:induction false} TokensConcat(cost: Item -> nat, x: seq<Item>, y: seq<Item>)
    ensures Tokens(cost, x + y) == Tokens(cost, x) + Tokens(cost, y)
  {
    if x == [] {
      assert x + y == y;
    } else {
      assert (x + y)[1..] == x[1..] + y;
      TokensConcat(cost, x[1..], y);
    }
  }

  method SumTokens(cost: Item -> nat, items: seq<Item>) returns (total: nat)
    ensures total == Tokens(cost, items)
  {
    total := 0;
    var i := 0;
    while i < |items|
      invariant 0 <= i <= |items|
      invariant total + Tokens(cost, items[i..]) == Tokens(cost, items)
    {
      assert items[i..][1..] == items[i + 1..];
      total, i := total + cost(items[i]), i + 1;
    }
  }

  function SaturatingSub(a: nat, b: nat): nat { if a >= b then a - b else 0 }

  // ----------------------------------------------------- truncating an item

  function TruncateParts(parts: seq<Part>, maxBytes: nat): seq<Part> {
    if parts == [] then []
    else [if parts[0].TextPart? then TextPart(TruncateOr(parts[0].text, maxBytes)) else parts[0]]
         + TruncateParts(parts[1..], maxBytes)
  }

  function MaxBytes(maxTokens: nat): nat {
    if maxTokens * 4 <= MAX_USIZE then maxTokens * 4 else MAX_USIZE
  }

  function TruncateItem(x: Item, maxTokens: nat): Item {
    match x
    case ToolResult(id, content, images) => ToolResult(id, TruncateOr(content, MaxBytes(maxTokens)), images)
    case Assistant(content, calls) => Assistant(TruncateOr(content, MaxBytes(maxTokens)), calls)
    case User(parts, reason) => User(TruncateParts(parts, MaxBytes(maxTokens)), reason)
    case _ => x
  }

  function TruncateAll(items: seq<Item>, maxTokens: nat): (r: seq<Item>)
    ensures |r| == |items|
  {
    if items == [] then [] else [TruncateItem(items[0], maxTokens)] + TruncateAll(items[1..], maxTokens)
  }

  lemma {:induction false} TruncateAllAt(items: seq<Item>, maxTokens: nat, i: nat)
    requires i < |items|
    ensures TruncateAll(items, maxTokens)[i] == TruncateItem(items[i], maxTokens)
  {
    if i > 0 { TruncateAllAt(items[1..], maxTokens, i - 1); }
  }

  /** Same items up to their texts: kinds, calls and result ids agree. */
  ghost predicate SameShape(x: seq<Item>, y: seq<Item>) {
    && |x| == |y|
    && forall i | 0 <= i < |x| ::
         && x[i].ToolResult? == y[i].ToolResult?
         && x[i].Assistant? == y[i].Assistant?
         && (x[i].ToolResult? ==> x[i].callId == y[i].callId)
         && (x[i].Assistant? ==> x[i].calls == y[i].calls)
  }

  /** Strict pairing looks at the shape only. */
  lemma ShapeDecidesPairing(x: seq<Item>, y: seq<Item>)
    requires SameShape(x, y) && StrictlyPaired(x)
    ensures StrictlyPaired(y)
  {
    forall k, i ensures Owns(x, k, i) <==> Owns(y, k, i) { ShapeDecidesOwnership(x, y, k, i); }
    forall i | 0 <= i < |y| && y[i].ToolResult? ensures HasOwner(y, i) {
      assert HasOwner(x, i);
      var k :| Owns(x, k, i);
      assert Owns(y, k, i);
    }
    forall k, id | 0 <= k < |y| && y[k].Assistant? && id in CallIds(y[k].calls) ensures IsAnswered(y, k, id) {
      assert IsAnswered(x, k, id);
      var i :| Owns(x, k, i) && x[i].callId == id;
      assert Owns(y, k, i);
    }
  }

  lemma ShapeDecidesOwnership(x: seq<Item>, y: seq<Item>, k: int, i: int)
    requires SameShape(x, y)
    ensures Owns(x, k, i) <==> Owns(y, k, i)
  {
  }

  // ------------------------------------------------------------ the pieces

  function Head(c: seq<Item>): seq<Item> {
    if c != [] && c[0].System? then [c[0]] else []
  }

  function Body(c: seq<Item>): seq<Item> {
    if c != [] && c[0].System? then c[1..] else c
  }

  /** Where the longest affordable suffix begins. */
  function AffordableStart(cost: Item -> nat, body: seq<Item>, budget: nat): (start: nat)
    ensures start <= |body|
  {
    if Tokens(cost, body) <= budget then 0
    else 1 + AffordableStart(cost, body[1..], budget)
  }

  /** Where the trailing run of results begins. */
  function TrailStart(body: seq<Item>): (k: nat)
    ensures k <= |body|
    ensures forall i | k <= i < |body| :: body[i].ToolResult?
    ensures k > 0 ==> !body[k - 1].ToolResult?
  {
    if body == [] || !body[|body| - 1].ToolResult? then |body| else TrailStart(body[..|body| - 1])
  }

  /** The item that owns the trailing run, if there is one. */
  function TailOwner(body: seq<Item>): (owner: seq<Item>) {
    var k := TrailStart(body);
    if k > 0 && body[k - 1].Assistant? && body[k - 1].calls != [] then [body[k - 1]] else []
  }

  /** An equal share of what the owner leaves, but never nothing. */
  function Share(budget: nat, ownerCost: nat, n: nat): nat
    requires n > 0
  {
    var share := SaturatingSub(budget, ownerCost) / n;
    if share >= 1 then share else 1
  }

  function TruncatedUnit(cost: Item -> nat, owner: seq<Item>, run: seq<Item>, budget: nat): seq<Item>
    requires run != []
  {
    owner + TruncateAll(run, Share(budget, Tokens(cost, owner), |run|))
  }

  /** The last turn, truncated in place with the assistant that owns it. */
  function RecoverTail(cost: Item -> nat, body: seq<Item>, budget: nat): seq<Item> {
    var k := TrailStart(body);
    if k < |body| then TruncatedUnit(cost, TailOwner(body), body[k..], budget)
    else if body == [] then []
    else [TruncateItem(body[|body| - 1], budget)]
  }

  function KeptStart(cost: Item -> nat, body: seq<Item>, budget: nat): (s: nat)
    ensures s <= |body|
  {
    var a := AffordableStart(cost, body, budget);
    a + ResultRun(body[a..])
  }

  function Fit(cost: Item -> nat, c: seq<Item>, maxTokens: nat): seq<Item> {
    if Tokens(cost, c) <= maxTokens then c
    else
      var body, budget := Body(c), SaturatingSub(maxTokens, Tokens(cost, Head(c)));
      var start := KeptStart(cost, body, budget);
      Head(c) + (if start < |body| then body[start..] else RecoverTail(cost, body, budget))
  }

  // ------------------------------------------------------------ the methods

  /** The trailing results, popped one by one. */
  method PopResults(items: seq<Item>) returns (body: seq<Item>, results: seq<Item>)
    ensures body == items[..TrailStart(items)] && results == items[TrailStart(items)..]
  {
    body, results := items, [];
    while body != [] && body[|body| - 1].ToolResult?
      invariant |body| <= |items| && body == items[..|body|] && results == items[|body|..]
      invariant TrailStart(body) == TrailStart(items)
      decreases |body|
    {
      results := [body[|body| - 1]] + results;
      body := body[..|body| - 1];
    }
  }

  method RecoverTruncatedTailUnit(cost: Item -> nat, items: seq<Item>, budget: nat) returns (unit: seq<Item>)
    ensures unit == RecoverTail(cost, items, budget)
  {
    var body, results := PopResults(items);
    if results == [] {
      if body == [] { return []; }
      return [TruncateItem(body[|body| - 1], budget)];
    }
    var owner := [];
    if body != [] && body[|body| - 1].Assistant? && body[|body| - 1].calls != [] {
      owner := [body[|body| - 1]];
    }
    assert owner == TailOwner(items);
    var ownerCost := SumTokens(cost, owner);
    var per := SaturatingSub(budget, ownerCost) / |results|;
    if per < 1 { per := 1; }
    unit := owner + TruncateAll(results, per);
  }

  /** The backward scan: spend the budget from the last item on. */
  method FindAffordable(cost: Item -> nat, body: seq<Item>, budget: nat) returns (start: nat)
    ensures start == AffordableStart(cost, body, budget)
  {
    var remaining: nat := budget;
    start := |body|;
    while start > 0
      invariant 0 <= start <= |body|
      invariant remaining + Tokens(cost, body[start..]) == budget
    {
      TokensFrom(cost, body, start - 1);
      var price := cost(body[start - 1]);
      if price > remaining {
        break;
      }
      remaining := remaining - price;
      start := start - 1;
    }
    StartIsAffordable(cost, body, budget, start);
  }

  lemma TokensFrom(cost: Item -> nat, body: seq<Item>, i: nat)
    requires i < |body|
    ensures Tokens(cost, body[i..]) == cost(body[i]) + Tokens(cost, body[i + 1..])
  {
    assert body[i..][1..] == body[i + 1..];
  }

  /** Affordable here but not one item earlier: this is the start. */
  lemma StartIsAffordable(cost: Item -> nat, body: seq<Item>, budget: nat, start: nat)
    requires start <= |body| && Tokens(cost, body[start..]) <= budget
    requires start > 0 ==> Tokens(cost, body[start - 1..]) > budget
    ensures start == AffordableStart(cost, body, budget)
  {
    var a := AffordableStart(cost, body, budget);
    AffordableIsLongest(cost, body, budget);
    if a < start {
      SuffixTokens(cost, body, a, start - 1);
    }
    assert start < a ==> SuffixCost(cost, body, start) > budget;
  }

  /** Never begin with results whose owner was dropped. */
  method SkipResults(body: seq<Item>, from: nat) returns (start: nat)
    requires from <= |body|
    ensures start == from + ResultRun(body[from..])
  {
    start := from;
    while start < |body| && body[start].ToolResult?
      invariant from <= start <= |body|
      invariant start - from <= ResultRun(body[from..])
    {
      RunContinues(body[from..], start - from);
      start := start + 1;
    }
    RunStops(body[from..], start - from);
  }

  method FitConversationToBudget(cost: Item -> nat, c: seq<Item>, maxTokens: nat) returns (r: seq<Item>)
    ensures r == Fit(cost, c, maxTokens)
  {
    var total := SumTokens(cost, c);
    if total <= maxTokens {
      return c;
    }
    var head, body := [], c;
    if c != [] && c[0].System? {
      head, body := [c[0]], c[1..];
    }
    var headCost := SumTokens(cost, head);
    var budget := SaturatingSub(maxTokens, headCost);
    var start := FindAffordable(cost, body, budget);
    start := SkipResults(body, start);
    assert start == KeptStart(cost, body, budget);
    if start < |body| {
      r := head + body[start..];
    } else {
      var unit := RecoverTruncatedTailUnit(cost, body, budget);
      r := head + unit;
    }
  }

  lemma RunContinues(x: seq<Item>, k: nat)
    requires k < |x| && k <= ResultRun(x) && x[k].ToolResult?
    ensures k < ResultRun(x)
  {
    assert x[k..][0] == x[k];
  }

  lemma RunStops(x: seq<Item>, k: nat)
    requires k <= ResultRun(x) && (k == |x| || !x[k].ToolResult?)
    ensures k == ResultRun(x)
  {
    var n := ResultRun(x);
    assert forall i | 0 <= i < n :: x[..n][i].ToolResult? && x[i] == x[..n][i];
  }

  // ------------------------------------------------------------- properties

  lemma {:induction false} SuffixTokens(cost: Item -> nat, body: seq<Item>, i: nat, j: nat)
    requires i <= j <= |body|
    ensures Tokens(cost, body[j..]) <= Tokens(cost, body[i..])
  {
    assert body[i..] == body[i..j] + body[j..];
    TokensConcat(cost, body[i..j], body[j..]);
  }

  function SuffixCost(cost: Item -> nat, body: seq<Item>, i: nat): nat
    requires i <= |body|
  {
    Tokens(cost, body[i..])
  }

  /** The suffix from `a` is affordable and no longer one is. */
  ghost predicate LongestAffordable(cost: Item -> nat, body: seq<Item>, budget: nat, a: nat) {
    && a <= |body|
    && SuffixCost(cost, body, a) <= budget
    && forall i: nat | i < a :: SuffixCost(cost, body, i) > budget
  }

  lemma {:induction false} AffordableIsLongest(cost: Item -> nat, body: seq<Item>, budget: nat)
    ensures LongestAffordable(cost, body, budget, AffordableStart(cost, body, budget))
  {
    if Tokens(cost, body) > budget {
      AffordableIsLongest(cost, body[1..], budget);
      var s := AffordableStart(cost, body, budget);
      assert body[s..] == body[1..][s - 1..];
      forall i: nat | i < s ensures SuffixCost(cost, body, i) > budget {
        if i > 0 {
          assert SuffixCost(cost, body[1..], i - 1) > budget;
          assert body[i..] == body[1..][i - 1..];
        } else {
          assert body[0..] == body;
        }
      }
    } else {
      assert body[0..] == body;
    }
  }

  /** The kept part of the body: the longest affordable suffix without the
      results it begins with. */
  lemma KeptIsLongestSuffix(cost: Item -> nat, body: seq<Item>, budget: nat)
    ensures var a, start := AffordableStart(cost, body, budget), KeptStart(cost, body, budget);
            && a <= start && AllResults(body[a..start]) && StartsFresh(body[start..])
            && LongestAffordable(cost, body, budget, a)
            && Tokens(cost, body[start..]) <= budget
  {
    var a := AffordableStart(cost, body, budget);
    AffordableIsLongest(cost, body, budget);
    RunIsSplitOff(body, a);
    SuffixTokens(cost, body, a, a + ResultRun(body[a..]));
  }

  lemma RunIsSplitOff(body: seq<Item>, a: nat)
    requires a <= |body|
    ensures var n := ResultRun(body[a..]); AllResults(body[a..a + n]) && StartsFresh(body[a + n..])
  {
    SliceSlice(body, a, ResultRun(body[a..]));
  }

  lemma SliceSlice<T>(s: seq<T>, a: nat, n: nat)
    requires a + n <= |s|
    ensures s[a..][..n] == s[a..a + n] && s[a..][n..] == s[a + n..]
  {
  }

  /** In a strictly paired body a run has its owner right before it. */
  lemma RunHasOwner(body: seq<Item>, k: nat)
    requires StrictlyPaired(body) && k < |body| && body[k].ToolResult?
    requires k > 0 ==> !body[k - 1].ToolResult?
    ensures k > 0 && body[k - 1].Assistant? && body[k - 1].calls != []
  {
    assert HasOwner(body, k);
    var o :| Owns(body, o, k);
  }

  lemma TailIsSuffix(body: seq<Item>, k: nat)
    requires StrictlyPaired(body) && k < |body| && body[k].ToolResult?
    requires k > 0 ==> !body[k - 1].ToolResult?
    ensures k > 0 && body[k - 1].Assistant? && body[k - 1].calls != []
    ensures StrictlyPaired([body[k - 1]] + body[k..])
  {
    RunHasOwner(body, k);
    SuffixKeepsPairing(body, k - 1);
    assert body[k - 1..] == [body[k - 1]] + body[k..];
  }

  lemma TruncatedTailShape(owner: Item, run: seq<Item>, per: nat)
    requires AllResults(run)
    ensures SameShape([owner] + run, [owner] + TruncateAll(run, per))
  {
    var x, y := [owner] + run, [owner] + TruncateAll(run, per);
    forall i | 0 < i < |x| ensures x[i] == run[i - 1] && y[i] == TruncateItem(run[i - 1], per) {
      TruncateAllAt(run, per, i - 1);
    }
  }

  lemma TruncatedBlockKeepsPairing(owner: Item, run: seq<Item>, per: nat)
    requires AllResults(run) && StrictlyPaired([owner] + run)
    ensures StrictlyPaired([owner] + TruncateAll(run, per))
  {
    TruncatedTailShape(owner, run, per);
    ShapeDecidesPairing([owner] + run, [owner] + TruncateAll(run, per));
  }

  lemma RecoverResultsKeepsPairing(cost: Item -> nat, body: seq<Item>, budget: nat)
    requires StrictlyPaired(body) && TrailStart(body) < |body|
    ensures StrictlyPaired(RecoverTail(cost, body, budget)) && StartsFresh(RecoverTail(cost, body, budget))
  {
    var k := TrailStart(body);
    TailIsSuffix(body, k);
    var owner, per := body[k - 1], Share(budget, Tokens(cost, [body[k - 1]]), |body[k..]|);
    TruncatedBlockKeepsPairing(owner, body[k..], per);
    assert RecoverTail(cost, body, budget) == [owner] + TruncateAll(body[k..], per);
  }

  lemma TruncatedItemKeepsPairing(x: Item, budget: nat)
    requires StrictlyPaired([x])
    ensures StrictlyPaired([TruncateItem(x, budget)])
  {
    ShapeDecidesPairing([x], [TruncateItem(x, budget)]);
  }

  lemma LastItemPaired(body: seq<Item>)
    requires StrictlyPaired(body) && body != [] && !body[|body| - 1].ToolResult?
    ensures StrictlyPaired([body[|body| - 1]])
  {
    SuffixKeepsPairing(body, |body| - 1);
    assert body[|body| - 1..] == [body[|body| - 1]];
  }

  lemma RecoverItemKeepsPairing(cost: Item -> nat, body: seq<Item>, budget: nat)
    requires StrictlyPaired(body) && TrailStart(body) == |body|
    ensures StrictlyPaired(RecoverTail(cost, body, budget)) && StartsFresh(RecoverTail(cost, body, budget))
  {
    if body != [] {
      LastItemPaired(body);
      TruncatedItemKeepsPairing(body[|body| - 1], budget);
    }
  }

  /** The truncated last turn is strictly paired and starts with a non-result. */
  lemma RecoverKeepsPairing(cost: Item -> nat, body: seq<Item>, budget: nat)
    requires StrictlyPaired(body)
    ensures StrictlyPaired(RecoverTail(cost, body, budget)) && StartsFresh(RecoverTail(cost, body, budget))
  {
    if TrailStart(body) < |body| {
      RecoverResultsKeepsPairing(cost, body, budget);
    } else {
      RecoverItemKeepsPairing(cost, body, budget);
    }
  }

  lemma HeadAndBody(c: seq<Item>)
    ensures c == Head(c) + Body(c)
    ensures StrictlyPaired(c) ==> StrictlyPaired(Head(c)) && StrictlyPaired(Body(c)) && StartsFresh(Body(c))
  {
    var head, body := Head(c), Body(c);
    assert body != [] ==> c[|head|] == body[0];
    assert !HasOwner(c, |head|);
    if StrictlyPaired(c) {
      StrictConcat(head, body);
    }
  }

  lemma SuffixKeepsPairing(body: seq<Item>, start: nat)
    requires StrictlyPaired(body) && start < |body| && !body[start].ToolResult?
    ensures StrictlyPaired(body[start..]) && StartsFresh(body[start..])
  {
    assert body == body[..start] + body[start..];
    StrictConcat(body[..start], body[start..]);
  }

  /** Main result: a strictly paired conversation stays strictly paired on both
      branches, a leading system item is kept, and the kept body never begins
      with a result. */
  lemma FitKeepsPairing(cost: Item -> nat, c: seq<Item>, maxTokens: nat)
    requires StrictlyPaired(c)
    ensures StrictlyPaired(Fit(cost, c, maxTokens))
    ensures Head(c) <= Fit(cost, c, maxTokens)
    ensures StartsFresh(Fit(cost, c, maxTokens)[|Head(c)|..])
  {
    var head, body := Head(c), Body(c);
    HeadAndBody(c);
    if Tokens(cost, c) <= maxTokens {
      assert c[|head|..] == body;
    } else {
      var budget := SaturatingSub(maxTokens, Tokens(cost, head));
      var start := KeptStart(cost, body, budget);
      var rest := if start < |body| then body[start..] else RecoverTail(cost, body, budget);
      if start < |body| {
        KeptIsLongestSuffix(cost, body, budget);
        assert body[start..][0] == body[start];
        SuffixKeepsPairing(body, start);
      } else {
        RecoverKeepsPairing(cost, body, budget);
      }
      StrictConcat(head, rest);
      assert (head + rest)[|head|..] == rest;
    }
  }
}
