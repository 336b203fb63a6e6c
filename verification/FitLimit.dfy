/** Whether `fit_conversation_to_budget` meets its token limit: exactly when, by
    how much it can miss, and where it always does. */
module FitLimit {
  import opened Conversation
  import opened Truncation
  import opened BudgetFit

  // ------------------------------------------------------- branches, by input

  /** The last item that is not a result, with the results after it. */
  function LastTurn(body: seq<Item>): seq<Item> {
    var k := TrailStart(body);
    if k > 0 then body[k - 1..] else body
  }

  /** The last turn fits as it is: the branch that truncates nothing. */
  predicate LastTurnFits(cost: Item -> nat, body: seq<Item>, budget: nat) {
    TrailStart(body) > 0 && Tokens(cost, LastTurn(body)) <= budget
  }

  lemma RunWithin(body: seq<Item>, a: nat, k: nat)
    requires a <= k < |body| && !body[k].ToolResult?
    ensures a + ResultRun(body[a..]) <= k
  {
    var n := ResultRun(body[a..]);
    assert forall i | 0 <= i < n :: body[a..][..n][i] == body[a + i];
  }

  lemma AffordableFrom(cost: Item -> nat, body: seq<Item>, budget: nat, i: nat)
    requires i <= |body| && Tokens(cost, body[i..]) <= budget
    ensures AffordableStart(cost, body, budget) <= i
  {
    AffordableIsLongest(cost, body, budget);
    assert SuffixCost(cost, body, i) <= budget;
  }

  lemma SuffixBranchTaken(cost: Item -> nat, body: seq<Item>, budget: nat)
    requires LastTurnFits(cost, body, budget)
    ensures KeptStart(cost, body, budget) < |body|
  {
    var k := TrailStart(body);
    AffordableFrom(cost, body, budget, k - 1);
    RunWithin(body, AffordableStart(cost, body, budget), k - 1);
  }

  lemma SuffixBranchFits(cost: Item -> nat, body: seq<Item>, s: nat, budget: nat)
    requires s < |body| && !body[s].ToolResult? && Tokens(cost, body[s..]) <= budget
    ensures LastTurnFits(cost, body, budget)
  {
    SuffixTokens(cost, body, s, TrailStart(body) - 1);
  }

  lemma SuffixBranch(cost: Item -> nat, body: seq<Item>, budget: nat)
    ensures KeptStart(cost, body, budget) < |body| <==> LastTurnFits(cost, body, budget)
  {
    var s := KeptStart(cost, body, budget);
    if LastTurnFits(cost, body, budget) {
      SuffixBranchTaken(cost, body, budget);
    } else if s < |body| {
      KeptIsLongestSuffix(cost, body, budget);
      StartsWithItem(body, s);
      SuffixBranchFits(cost, body, s, budget);
      assert false;
    }
  }

  lemma StartsWithItem(body: seq<Item>, s: nat)
    requires s < |body| && StartsFresh(body[s..])
    ensures !body[s].ToolResult?
  {
    assert body[s..][0] == body[s];
  }

  function BudgetOf(cost: Item -> nat, c: seq<Item>, maxTokens: nat): nat {
    SaturatingSub(maxTokens, Tokens(cost, Head(c)))
  }

  /** What is left of the body once the conversation is over the limit. */
  function Rest(cost: Item -> nat, body: seq<Item>, budget: nat): seq<Item> {
    var start := KeptStart(cost, body, budget);
    if start < |body| then body[start..] else RecoverTail(cost, body, budget)
  }

  lemma FitTokens(cost: Item -> nat, c: seq<Item>, maxTokens: nat)
    requires Tokens(cost, c) > maxTokens
    ensures Tokens(cost, Fit(cost, c, maxTokens)) ==
            Tokens(cost, Head(c)) + Tokens(cost, Rest(cost, Body(c), BudgetOf(cost, c, maxTokens)))
  {
    TokensConcat(cost, Head(c), Rest(cost, Body(c), BudgetOf(cost, c, maxTokens)));
  }

  lemma RestTokens(cost: Item -> nat, body: seq<Item>, budget: nat)
    ensures Tokens(cost, Rest(cost, body, budget)) <= budget <==>
            LastTurnFits(cost, body, budget) || Tokens(cost, RecoverTail(cost, body, budget)) <= budget
  {
    SuffixBranch(cost, body, budget);
    KeptIsLongestSuffix(cost, body, budget);
  }

  /** For every cost function: a conversation within the limit is returned as it
      is, and the limit is met exactly when it was met before, or the system item
      is within it and either the last turn fits in what is left or its truncated
      form does. */
  lemma LimitByBranch(cost: Item -> nat, c: seq<Item>, maxTokens: nat)
    ensures Tokens(cost, c) <= maxTokens ==> Fit(cost, c, maxTokens) == c
    ensures var budget := BudgetOf(cost, c, maxTokens);
            Tokens(cost, Fit(cost, c, maxTokens)) <= maxTokens <==>
            || Tokens(cost, c) <= maxTokens
            || (Tokens(cost, Head(c)) <= maxTokens
                && (LastTurnFits(cost, Body(c), budget) || Tokens(cost, RecoverTail(cost, Body(c), budget)) <= budget))
  {
    if Tokens(cost, c) > maxTokens {
      FitTokens(cost, c, maxTokens);
      RestTokens(cost, Body(c), BudgetOf(cost, c, maxTokens));
    }
  }

  // ----------------------------------------- what truncation costs, by input

  function PartsOutput(parts: seq<Part>, maxBytes: nat): nat {
    if parts == [] then 0
    else (if parts[0].TextPart? then OutputBytes(parts[0].text, maxBytes) else 0) + PartsOutput(parts[1..], maxBytes)
  }

  /** The estimate of a truncated item, read off the item: results and assistant
      contents are cut, calls are not, each text part is cut on its own, and the
      other kinds are left alone. */
  function CutTokens(x: Item, maxTokens: nat): nat {
    var m := MaxBytes(maxTokens);
    match x
    case ToolResult(_, content, _) => OutputBytes(content, m) / 4
    case Assistant(content, calls) => (OutputBytes(content, m) + ArgumentBytes(calls)) / 4
    case User(parts, _) => PartsOutput(parts, m) / 4 + ImageCount(parts) * IMAGE_TOKEN_ESTIMATE
    case _ => ItemTokens(x)
  }

  function CutRun(run: seq<Item>, maxTokens: nat): nat {
    if run == [] then 0 else CutTokens(run[0], maxTokens) + CutRun(run[1..], maxTokens)
  }

  lemma {:induction false} PartsLength(parts: seq<Part>, m: nat)
    ensures TextBytes(TruncateParts(parts, m)) == PartsOutput(parts, m)
    ensures ImageCount(TruncateParts(parts, m)) == ImageCount(parts)
  {
    if parts != [] {
      PartsLength(parts[1..], m);
      assert TruncateParts(parts, m)[1..] == TruncateParts(parts[1..], m);
      if parts[0].TextPart? { OutputLength(parts[0].text, m); }
    }
  }

  lemma CutTokensOf(x: Item, maxTokens: nat)
    ensures ItemTokens(TruncateItem(x, maxTokens)) == CutTokens(x, maxTokens)
  {
    var m := MaxBytes(maxTokens);
    match x {
      case ToolResult(_, content, _) => OutputLength(content, m);
      case Assistant(content, _) => OutputLength(content, m);
      case User(parts, _) => PartsLength(parts, m);
      case _ =>
    }
  }

  lemma {:induction false} CutRunOf(run: seq<Item>, maxTokens: nat)
    ensures Tokens(ItemTokens, TruncateAll(run, maxTokens)) == CutRun(run, maxTokens)
  {
    if run != [] {
      CutTokensOf(run[0], maxTokens);
      CutRunOf(run[1..], maxTokens);
      assert TruncateAll(run, maxTokens)[1..] == TruncateAll(run[1..], maxTokens);
    }
  }

  /** The estimate of the truncated last turn, read off the body. */
  function CutTail(body: seq<Item>, budget: nat): nat {
    var k := TrailStart(body);
    if k < |body| then
      var owner := Tokens(ItemTokens, TailOwner(body));
      owner + CutRun(body[k..], Share(budget, owner, |body| - k))
    else if body == [] then 0
    else CutTokens(body[|body| - 1], budget)
  }

  lemma CutTailOf(body: seq<Item>, budget: nat)
    ensures Tokens(ItemTokens, RecoverTail(ItemTokens, body, budget)) == CutTail(body, budget)
  {
    var k := TrailStart(body);
    if k < |body| {
      var per := Share(budget, Tokens(ItemTokens, TailOwner(body)), |body| - k);
      CutRunOf(body[k..], per);
      TokensConcat(ItemTokens, TailOwner(body), TruncateAll(body[k..], per));
    } else if body != [] {
      CutTokensOf(body[|body| - 1], budget);
    }
  }

  /** The condition under which the limit is met, all of it about the input. */
  predicate MeetsLimit(c: seq<Item>, maxTokens: nat) {
    var body, budget := Body(c), BudgetOf(ItemTokens, c, maxTokens);
    || Tokens(ItemTokens, c) <= maxTokens
    || (Tokens(ItemTokens, Head(c)) <= maxTokens
        && (LastTurnFits(ItemTokens, body, budget) || CutTail(body, budget) <= budget))
  }

  /** Main result: with the program's estimate, the fitted conversation is within
      the limit exactly under that condition. */
  lemma FitMeetsLimit(c: seq<Item>, maxTokens: nat)
    ensures Tokens(ItemTokens, Fit(ItemTokens, c, maxTokens)) <= maxTokens <==> MeetsLimit(c, maxTokens)
  {
    LimitByBranch(ItemTokens, c, maxTokens);
    CutTailOf(Body(c), BudgetOf(ItemTokens, c, maxTokens));
  }

  // --------------------------------------------- what the condition comes to

  /** The kinds that truncation leaves alone. */
  predicate Untouched(x: Item) {
    x.System? || x.Reasoning? || x.BackendToolCall?
  }

  lemma SingleToken(cost: Item -> nat, x: Item)
    ensures Tokens(cost, [x]) == cost(x)
  {
    assert [x][1..] == [];
  }

  /** For every cost function: a last item of an untouched kind that is over the
      budget leaves the result over the limit, by all it costs. */
  lemma UntouchedTailExceeds(cost: Item -> nat, c: seq<Item>, maxTokens: nat)
    requires Body(c) != [] && Untouched(Body(c)[|Body(c)| - 1])
    requires cost(Body(c)[|Body(c)| - 1]) > BudgetOf(cost, c, maxTokens)
    ensures Tokens(cost, Fit(cost, c, maxTokens)) > maxTokens
    ensures Tokens(cost, Fit(cost, c, maxTokens)) == Tokens(cost, Head(c)) + cost(Body(c)[|Body(c)| - 1])
  {
    var body := Body(c);
    var x := body[|body| - 1];
    assert LastTurn(body) == [x];
    SingleToken(cost, x);
    LastCounts(cost, c);
    FitTokens(cost, c, maxTokens);
    SuffixBranch(cost, body, BudgetOf(cost, c, maxTokens));
  }

  lemma LastCounts(cost: Item -> nat, c: seq<Item>)
    requires Body(c) != []
    ensures Tokens(cost, c) >= Tokens(cost, Head(c)) + cost(Body(c)[|Body(c)| - 1])
  {
    var body := Body(c);
    assert c == Head(c) + body;
    TokensConcat(cost, Head(c), body);
    SuffixTokens(cost, body, 0, |body| - 1);
    assert body[0..] == body && body[|body| - 1..] == [body[|body| - 1]];
    SingleToken(cost, body[|body| - 1]);
  }

  lemma FrontCounts(cost: Item -> nat, x: seq<Item>, y: seq<Item>)
    ensures Tokens(cost, x + y) >= Tokens(cost, x)
  {
    TokensConcat(cost, x, y);
  }

  lemma SplitFirst<T>(s: seq<T>, k: nat)
    requires k < |s|
    ensures s[k..] == [s[k]] + s[k + 1..]
  {
  }

  lemma OwnerIsKept(cost: Item -> nat, body: seq<Item>, budget: nat)
    requires TrailStart(body) < |body| && TailOwner(body) != []
    ensures Tokens(cost, LastTurn(body)) >= Tokens(cost, TailOwner(body))
    ensures Tokens(cost, RecoverTail(cost, body, budget)) >= Tokens(cost, TailOwner(body))
  {
    var owner, run := TailOwner(body), body[TrailStart(body)..];
    var cutRun := TruncateAll(run, Share(budget, Tokens(cost, owner), |run|));
    SplitFirst(body, TrailStart(body) - 1);
    assert LastTurn(body) == owner + run;
    assert RecoverTail(cost, body, budget) == owner + cutRun;
    FrontCounts(cost, owner, run);
    FrontCounts(cost, owner, cutRun);
  }

  lemma LastTurnCounts(cost: Item -> nat, c: seq<Item>)
    ensures Tokens(cost, c) >= Tokens(cost, Head(c)) + Tokens(cost, LastTurn(Body(c)))
  {
    var body := Body(c);
    var k := TrailStart(body);
    assert c == Head(c) + body;
    TokensConcat(cost, Head(c), body);
    if k > 0 {
      SuffixTokens(cost, body, 0, k - 1);
      assert body[0..] == body;
    }
  }

  /** For every cost function: trailing results whose owner alone is over the
      budget leave the result over the limit, since owners are never cut. */
  lemma LargeOwnerExceeds(cost: Item -> nat, c: seq<Item>, maxTokens: nat)
    requires TrailStart(Body(c)) < |Body(c)| && TailOwner(Body(c)) != []
    requires Tokens(cost, TailOwner(Body(c))) > BudgetOf(cost, c, maxTokens)
    ensures Tokens(cost, Fit(cost, c, maxTokens)) > maxTokens
  {
    OwnerIsKept(cost, Body(c), BudgetOf(cost, c, maxTokens));
    LastTurnCounts(cost, c);
    LimitByBranch(cost, c, maxTokens);
  }

  lemma CutIsLong(s: string, m: nat)
    requires ByteLen(s) > m
    ensures OutputBytes(s, m) >= if m >= 64 then m - 10 else 57
  {
    KeptBytes(s, m);
  }

  lemma {:induction false} PartCounts(parts: seq<Part>, m: nat, i: nat)
    requires i < |parts| && parts[i].TextPart?
    ensures PartsOutput(parts, m) >= OutputBytes(parts[i].text, m)
  {
    if i > 0 { PartCounts(parts[1..], m, i - 1); }
  }

  lemma {:induction false} TwoPartsCount(parts: seq<Part>, m: nat, i: nat, j: nat)
    requires i < j < |parts| && parts[i].TextPart? && parts[j].TextPart?
    ensures PartsOutput(parts, m) >= OutputBytes(parts[i].text, m) + OutputBytes(parts[j].text, m)
  {
    if i > 0 {
      TwoPartsCount(parts[1..], m, i - 1, j - 1);
    } else {
      PartCounts(parts[1..], m, j - 1);
    }
  }

  lemma {:induction false} LongerThanText(parts: seq<Part>, i: nat)
    requires i < |parts| && parts[i].TextPart?
    ensures TextBytes(parts) >= ByteLen(parts[i].text)
  {
    if i > 0 { LongerThanText(parts[1..], i - 1); }
  }

  /** Two texts over the budget: each is cut to all of it. */
  predicate LongParts(x: Item, budget: nat, i: nat, j: nat) {
    && x.User? && i < j < |x.parts| && x.parts[i].TextPart? && x.parts[j].TextPart?
    && 4 * budget <= MAX_USIZE
    && ByteLen(x.parts[i].text) > 4 * budget + 3 && ByteLen(x.parts[j].text) > 4 * budget
  }

  lemma LongPartsCost(x: Item, budget: nat, i: nat, j: nat)
    requires LongParts(x, budget, i, j)
    ensures ItemTokens(x) > budget && CutTokens(x, budget) > budget
  {
    LongerThanText(x.parts, i);
    TwoPartsCount(x.parts, 4 * budget, i, j);
    CutIsLong(x.parts[i].text, 4 * budget);
    CutIsLong(x.parts[j].text, 4 * budget);
  }

  /** A last item that is over the budget whole and cut misses the limit. */
  lemma LastItemExceeds(c: seq<Item>, maxTokens: nat)
    requires Body(c) != [] && !Body(c)[|Body(c)| - 1].ToolResult?
    requires var x, budget := Body(c)[|Body(c)| - 1], BudgetOf(ItemTokens, c, maxTokens);
             ItemTokens(x) > budget && CutTokens(x, budget) > budget
    ensures Tokens(ItemTokens, Fit(ItemTokens, c, maxTokens)) > maxTokens
  {
    var x := Body(c)[|Body(c)| - 1];
    assert LastTurn(Body(c)) == [x];
    SingleToken(ItemTokens, x);
    LastCounts(ItemTokens, c);
    FitMeetsLimit(c, maxTokens);
  }

  /** So a last user item with two such texts misses it, whatever the budget. */
  lemma LongPartsExceed(c: seq<Item>, maxTokens: nat, i: nat, j: nat)
    requires Body(c) != [] && LongParts(Body(c)[|Body(c)| - 1], BudgetOf(ItemTokens, c, maxTokens), i, j)
    ensures Tokens(ItemTokens, Fit(ItemTokens, c, maxTokens)) > maxTokens
  {
    LongPartsCost(Body(c)[|Body(c)| - 1], BudgetOf(ItemTokens, c, maxTokens), i, j);
    LastItemExceeds(c, maxTokens);
  }

  /** The smallest witness, strictly paired: one reasoning item and no room. */
  lemma ReasoningWitness(text: string)
    requires ItemTokens(Reasoning(text, "")) > 0
    ensures Fit(ItemTokens, [Reasoning(text, "")], 0) == [Reasoning(text, "")]
    ensures Tokens(ItemTokens, Fit(ItemTokens, [Reasoning(text, "")], 0)) > 0
  {
    var c := [Reasoning(text, "")];
    UntouchedTailExceeds(ItemTokens, c, 0);
    SuffixBranch(ItemTokens, c, 0);
    SingleToken(ItemTokens, c[0]);
    assert LastTurn(c) == c;
  }

  // ------------------------------------------------------------- how far over

  lemma {:induction false} PartsBound(parts: seq<Part>, m: nat, bound: nat)
    requires forall i | 0 <= i < |parts| && parts[i].TextPart? :: OutputBytes(parts[i].text, m) <= bound
    ensures ImageCount(parts) <= |parts|
    ensures PartsOutput(parts, m) <= Repeat(|parts| - ImageCount(parts), bound)
  {
    if parts != [] { PartsBound(parts[1..], m, bound); }
  }

  /** Every text of the item has a length of at most `d` digits. */
  predicate Digits(x: Item, d: nat) {
    match x
    case ToolResult(_, content, _) => ByteLen(content) < Decimal.Pow10(d)
    case Assistant(content, _) => ByteLen(content) < Decimal.Pow10(d)
    case User(parts, _) => forall i | 0 <= i < |parts| && parts[i].TextPart? :: ByteLen(parts[i].text) < Decimal.Pow10(d)
    case _ => true
  }

  /** Bytes a truncated text has at most. */
  function MostBytes(tokens: nat, d: nat): nat
    requires d >= 8
  {
    if tokens >= 16 then 4 * tokens + d - 8 else 56 + d
  }

  lemma TextBound(s: string, tokens: nat, d: nat)
    requires d >= 8 && ByteLen(s) < Decimal.Pow10(d)
    ensures OutputBytes(s, MaxBytes(tokens)) <= MostBytes(tokens, d)
  {
    OutputBound(s, MaxBytes(tokens), d);
  }

  /** The slack of one truncated result, in tokens. */
  function Slack(d: nat): nat
    requires d >= 8
  {
    16 + (d - 8) / 4
  }

  lemma ResultBound(x: Item, per: nat, d: nat)
    requires x.ToolResult? && per >= 1 && d >= 8 && Digits(x, d)
    ensures CutTokens(x, per) <= per + Slack(d) - 1
  {
    TextBound(x.content, per, d);
  }

  function Repeat(n: nat, x: nat): nat {
    if n == 0 then 0 else x + Repeat(n - 1, x)
  }

  lemma {:induction false} RepeatIsProduct(n: nat, x: nat)
    ensures Repeat(n, x) == n * x
  {
    if n > 0 {
      RepeatIsProduct(n - 1, x);
      assert n * x == (n - 1) * x + x;
    }
  }

  lemma {:induction false} RunBound(run: seq<Item>, per: nat, d: nat)
    requires per >= 1 && d >= 8 && forall i | 0 <= i < |run| :: run[i].ToolResult? && Digits(run[i], d)
    ensures CutRun(run, per) <= Repeat(|run|, per + Slack(d) - 1)
  {
    if run != [] {
      ResultBound(run[0], per, d);
      RunBound(run[1..], per, d);
    }
  }

  lemma DivisionBound(a: nat, n: nat)
    requires n > 0
    ensures n * (a / n) <= a
  {
  }

  lemma Spread(n: nat, x: nat, y: nat)
    ensures n * (x + y) == n * x + n * y
  {
  }

  /** The larger of budget and owner, and the slack of each result. */
  function ResultsLimit(owner: nat, budget: nat, n: nat, slack: nat): nat {
    (if owner > budget then owner else budget) + n * slack
  }

  /** Equal shares never add up to more than there is, or are one token each. */
  lemma ShareBound(budget: nat, owner: nat, n: nat, slack: nat)
    requires n > 0 && slack >= 1
    ensures owner + Repeat(n, Share(budget, owner, n) + slack - 1) <= ResultsLimit(owner, budget, n, slack)
  {
    var left, per := SaturatingSub(budget, owner), Share(budget, owner, n);
    RepeatIsProduct(n, per + slack - 1);
    DivisionBound(left, n);
    Spread(n, per, slack - 1);
    Spread(n, slack - 1, 1);
  }

  lemma UnitBound(owner: nat, run: seq<Item>, budget: nat, d: nat)
    requires run != [] && d >= 8 && forall i | 0 <= i < |run| :: run[i].ToolResult? && Digits(run[i], d)
    ensures owner + CutRun(run, Share(budget, owner, |run|)) <= ResultsLimit(owner, budget, |run|, Slack(d))
  {
    ShareBound(budget, owner, |run|, Slack(d));
    UnitBoundAt(owner, run, Share(budget, owner, |run|), ResultsLimit(owner, budget, |run|, Slack(d)), d);
  }

  lemma UnitBoundAt(owner: nat, run: seq<Item>, per: nat, limit: nat, d: nat)
    requires per >= 1 && d >= 8 && forall i | 0 <= i < |run| :: run[i].ToolResult? && Digits(run[i], d)
    requires owner + Repeat(|run|, per + Slack(d) - 1) <= limit
    ensures owner + CutRun(run, per) <= limit
  {
    RunBound(run, per, d);
  }

  lemma AssistantNearBudget(x: Item, budget: nat, d: nat)
    requires x.Assistant? && d >= 8 && Digits(x, d)
    ensures CutTokens(x, budget) <= (MostBytes(budget, d) + ArgumentBytes(x.calls)) / 4
  {
    TextBound(x.content, budget, d);
  }

  lemma UserNearBudget(x: Item, budget: nat, d: nat)
    requires x.User? && d >= 8 && Digits(x, d)
    ensures CutTokens(x, budget) <= PartsMost(x.parts, budget, d) / 4 + ImageCount(x.parts) * IMAGE_TOKEN_ESTIMATE
  {
    forall i | 0 <= i < |x.parts| && x.parts[i].TextPart?
      ensures OutputBytes(x.parts[i].text, MaxBytes(budget)) <= MostBytes(budget, d)
    {
      TextBound(x.parts[i].text, budget, d);
    }
    PartsBound(x.parts, MaxBytes(budget), MostBytes(budget, d));
  }

  /** Bytes the text parts have at most, each cut on its own. */
  function PartsMost(parts: seq<Part>, budget: nat, d: nat): nat
    requires d >= 8
  {
    Repeat(SaturatingSub(|parts|, ImageCount(parts)), MostBytes(budget, d))
  }

  /** What the truncated last turn costs at most, by the kind of the last item. */
  function TailBound(body: seq<Item>, budget: nat, d: nat): nat
    requires body != [] && d >= 8
  {
    var x := body[|body| - 1];
    match x
    case ToolResult(_, _, _) => ResultsLimit(Tokens(ItemTokens, TailOwner(body)), budget, |body| - TrailStart(body), Slack(d))
    case Assistant(_, calls) => (MostBytes(budget, d) + ArgumentBytes(calls)) / 4
    case User(parts, _) => PartsMost(parts, budget, d) / 4 + ImageCount(parts) * IMAGE_TOKEN_ESTIMATE
    case _ => ItemTokens(x)
  }

  /** Main result: by how much the truncated last turn can miss the budget, for
      every kind of last item and texts of any length. */
  lemma TailStaysNearBudget(body: seq<Item>, budget: nat, d: nat)
    requires body != [] && d >= 8 && forall i | 0 <= i < |body| :: Digits(body[i], d)
    ensures CutTail(body, budget) <= TailBound(body, budget, d)
  {
    var x := body[|body| - 1];
    if x.ToolResult? {
      UnitBound(Tokens(ItemTokens, TailOwner(body)), body[TrailStart(body)..], budget, d);
    } else if x.Assistant? {
      AssistantNearBudget(x, budget, d);
    } else if x.User? {
      UserNearBudget(x, budget, d);
    }
  }

  // ------------------------------------------------------------ room to spare

  /** A last turn that truncation can handle: sixteen tokens for each text that
      is cut, lengths below 10^8, and nothing beside these texts but the owner. */
  predicate Roomy(body: seq<Item>, budget: nat) {
    && body != []
    && (forall i | 0 <= i < |body| :: Digits(body[i], 8))
    && var x := body[|body| - 1];
       match x
       case ToolResult(_, _, _) => Tokens(ItemTokens, TailOwner(body)) + 16 * (|body| - TrailStart(body)) <= budget
       case Assistant(_, calls) => ArgumentBytes(calls) == 0 && budget >= 16
       case User(parts, _) => |parts| == 1 && parts[0].TextPart? && budget >= 16
       case _ => false
  }

  lemma {:induction false} RoomyRun(run: seq<Item>, per: nat)
    requires per >= 16 && forall i | 0 <= i < |run| :: run[i].ToolResult? && Digits(run[i], 8)
    ensures CutRun(run, per) <= Repeat(|run|, per)
  {
    if run != [] {
      TextBound(run[0].content, per, 8);
      RoomyRun(run[1..], per);
    }
  }

  lemma LargeShare(budget: nat, owner: nat, n: nat)
    requires n > 0 && owner + 16 * n <= budget
    ensures Share(budget, owner, n) >= 16 && owner + Repeat(n, Share(budget, owner, n)) <= budget
  {
    var q := (budget - owner) / n;
    DivisionBound(budget - owner, n);
    Shortfall(budget - owner, n);
    RepeatIsProduct(n, q);
  }

  lemma Shortfall(left: nat, n: nat)
    requires n > 0
    ensures left / n < 16 ==> left < 16 * n
  {
    var q := left / n;
    assert left < n * q + n;
    if q < 16 { assert n * (q + 1) <= n * 16; }
  }

  lemma RoomyResults(body: seq<Item>, budget: nat)
    requires Roomy(body, budget) && body[|body| - 1].ToolResult?
    ensures CutTail(body, budget) <= budget
  {
    var k, owner := TrailStart(body), Tokens(ItemTokens, TailOwner(body));
    LargeShare(budget, owner, |body| - k);
    RoomyRun(body[k..], Share(budget, owner, |body| - k));
  }

  lemma RoomyTail(body: seq<Item>, budget: nat)
    requires Roomy(body, budget)
    ensures CutTail(body, budget) <= budget
  {
    var x := body[|body| - 1];
    if x.ToolResult? {
      RoomyResults(body, budget);
    } else if x.Assistant? {
      AssistantNearBudget(x, budget, 8);
    } else {
      OneText(x.parts);
      UserNearBudget(x, budget, 8);
      RepeatIsProduct(1, MostBytes(budget, 8));
    }
  }

  /** With room to spare the limit is met. */
  lemma RoomyMeetsLimit(c: seq<Item>, maxTokens: nat)
    requires Tokens(ItemTokens, Head(c)) <= maxTokens && Roomy(Body(c), BudgetOf(ItemTokens, c, maxTokens))
    ensures Tokens(ItemTokens, Fit(ItemTokens, c, maxTokens)) <= maxTokens
  {
    RoomyTail(Body(c), BudgetOf(ItemTokens, c, maxTokens));
    FitMeetsLimit(c, maxTokens);
  }

  lemma OneText(parts: seq<Part>)
    requires |parts| == 1 && parts[0].TextPart?
    ensures ImageCount(parts) == 0
  {
    assert parts[1..] == [];
  }
}
