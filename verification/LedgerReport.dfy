/** What the bill of a session says about its calls: each number on it, read off the
    acts of the session and of its subagents at any depth. */
module LedgerReport {
  import opened Conversation
  import opened SaturatingSum
  import opened Sequences
  import opened Usage
  import opened LedgerLaws
  import opened LedgerTree

  // ------------------------------------------------------ what a call has spent

  function Prompt(a: Act): nat { if a.Call? then a.usage.prompt else 0 }
  function Completion(a: Act): nat { if a.Call? then a.usage.completion else 0 }
  function Cached(a: Act): nat { if a.Call? then a.usage.cachedPrompt else 0 }
  function Reasoned(a: Act): nat { if a.Call? then a.usage.reasoning else 0 }
  function One(a: Act): nat { if a.Call? then 1 else 0 }
  function Duration(a: Act): nat { if a.Call? && a.apiDurationMs.Some? then a.apiDurationMs.value else 0 }

  /** The call reported a positive cost. */
  predicate IsPriced(a: Act) { a.Call? && a.costUsdTicks.Some? && a.costUsdTicks.value > 0 }

  function Priced(a: Act): nat { if IsPriced(a) then 1 else 0 }
  function Unpriced(a: Act): nat { if a.Call? && !IsPriced(a) then 1 else 0 }
  function Price(a: Act): nat { if IsPriced(a) then a.costUsdTicks.value else 0 }

  /** The sum of a measure over the calls of a kind, at any depth. */
  function Spent(acts: seq<Act>, kind: Act -> bool, m: Act -> nat): nat
    decreases acts
  {
    if acts == [] then 0 else Spent(acts[..|acts| - 1], kind, m) + SpentIn(acts[|acts| - 1], kind, m)
  }

  function SpentIn(a: Act, kind: Act -> bool, m: Act -> nat): nat
    decreases a
  {
    match a
    case Call(_, _, _, _) => if kind(a) then m(a) else 0
    case Child(acts, _) => Spent(acts, kind, m)
    case Miss => 0
  }

  predicate Every(a: Act) { true }

  function OfModel(model: string): Act -> bool { (a: Act) => a.Call? && a.model == model }

  /** The numbers of a bill are those of the calls of a kind. */
  predicate Tallies(t: Totals, acts: seq<Act>, kind: Act -> bool) {
    && t.inputTokens == Capped(Spent(acts, kind, Prompt), MAX_U64)
    && t.outputTokens == Capped(Spent(acts, kind, Completion), MAX_U64)
    && t.cachedReadTokens == Capped(Spent(acts, kind, Cached), MAX_U64)
    && t.reasoningTokens == Capped(Spent(acts, kind, Reasoned), MAX_U64)
    && t.modelCalls == Capped(Spent(acts, kind, One), MAX_U64)
    && t.apiDurationMs == Capped(Spent(acts, kind, Duration), MAX_U64)
    && t.costMissingCalls == Capped(Spent(acts, kind, Unpriced), MAX_U64)
    && t.costUsdTicks == if Spent(acts, kind, Priced) == 0 then None else Some(Capped(Spent(acts, kind, Price), TOP))
  }

  /** The measure behind each field. */
  function Raw(f: Field): Act -> nat {
    match f
    case InputTokens => Prompt
    case OutputTokens => Completion
    case CachedReadTokens => Cached
    case ReasoningTokens => Reasoned
    case ModelCalls => One
    case ApiDurationMs => Duration
    case CostMissingCalls => Unpriced
    case CostReports => Priced
    case CostTicks => Price
  }

  lemma CallAmount(a: Act, model: string, f: Field)
    requires a.Call?
    ensures Sum(CallsOf(a), Amount(f)) == SpentIn(a, Every, Raw(f))
    ensures Sum(CallsOf(a), AmountFor(model, f)) == SpentIn(a, OfModel(model), Raw(f))
  {
    SumOne(CallsOf(a)[0], Amount(f));
    SumOne(CallsOf(a)[0], AmountFor(model, f));
  }

  lemma {:induction false} SpentIsSum(acts: seq<Act>, model: string, f: Field)
    ensures Sum(Calls(acts), Amount(f)) == Spent(acts, Every, Raw(f))
    ensures Sum(Calls(acts), AmountFor(model, f)) == Spent(acts, OfModel(model), Raw(f))
    decreases acts
  {
    if acts != [] {
      var init, a := acts[..|acts| - 1], acts[|acts| - 1];
      SpentIsSum(init, model, f);
      match a {
        case Call(_, _, _, _) => CallAmount(a, model, f);
        case Child(sub, _) => SpentIsSum(sub, model, f);
        case Miss =>
      }
      SumSplit(Calls(init), CallsOf(a), Amount(f));
      SumSplit(Calls(init), CallsOf(a), AmountFor(model, f));
    }
  }

  lemma FieldsTally(t: Totals, acts: seq<Act>, kind: Act -> bool)
    requires NoNegativeCost(t)
    requires forall f: Field :: Get(t, f) == Capped(Spent(acts, kind, Raw(f)), Cap(f))
    ensures Tallies(t, acts, kind)
  {
    CostIsCounted(t);
    assert Get(t, InputTokens) == Capped(Spent(acts, kind, Prompt), MAX_U64);
    assert Get(t, OutputTokens) == Capped(Spent(acts, kind, Completion), MAX_U64);
    assert Get(t, CachedReadTokens) == Capped(Spent(acts, kind, Cached), MAX_U64);
    assert Get(t, ReasoningTokens) == Capped(Spent(acts, kind, Reasoned), MAX_U64);
    assert Get(t, ModelCalls) == Capped(Spent(acts, kind, One), MAX_U64);
    assert Get(t, ApiDurationMs) == Capped(Spent(acts, kind, Duration), MAX_U64);
    assert Get(t, CostMissingCalls) == Capped(Spent(acts, kind, Unpriced), MAX_U64);
    assert Get(t, CostReports) == Capped(Spent(acts, kind, Priced), 1);
    assert Get(t, CostTicks) == Capped(Spent(acts, kind, Price), TOP);
  }

  /** Main result: every number on the bill of a session is the saturated sum of what
      its calls at any depth have spent, and so is every number of each model's entry
      for the calls to that model. */
  lemma BillTallies(acts: seq<Act>, model: string)
    ensures Tallies(Bill(acts).totals, acts, Every)
    ensures Tallies(UsageOf(Bill(acts).byModel, model), acts, OfModel(model))
  {
    forall f: Field
      ensures Get(Bill(acts).totals, f) == Capped(Spent(acts, Every, Raw(f)), Cap(f))
      ensures Get(UsageOf(Bill(acts).byModel, model), f) == Capped(Spent(acts, OfModel(model), Raw(f)), Cap(f))
    {
      TreeAccounts(acts, model, f);
      SpentIsSum(acts, model, f);
    }
    BillCosts(acts, model);
    FieldsTally(Bill(acts).totals, acts, Every);
    FieldsTally(UsageOf(Bill(acts).byModel, model), acts, OfModel(model));
  }

  // ------------------------------------------------------------------- turns

  /** The calls of the session itself, its subagents' excluded. */
  function OwnCalls(acts: seq<Act>): nat {
    if acts == [] then 0 else OwnCalls(acts[..|acts| - 1]) + One(acts[|acts| - 1])
  }

  lemma {:induction false} OwnCallsAreCounted(acts: seq<Act>)
    ensures CallCount(OpsOf(acts)) == OwnCalls(acts)
  {
    if acts != [] {
      var init, a := acts[..|acts| - 1], acts[|acts| - 1];
      OwnCallsAreCounted(init);
      assert OpsOf(acts)[..|OpsOf(init)|] == OpsOf(init);
    }
  }

  /** The turn count is the number of the session's own calls, saturated. */
  lemma TurnsAreOwnCalls(acts: seq<Act>)
    ensures Bill(acts).mainLoopModelCalls == Capped(OwnCalls(acts), MAX_U64)
  {
    CallsAreCounted(OpsOf(acts));
    OwnCallsAreCounted(acts);
  }

  // -------------------------------------------------------------- one more call

  /** `after` is `before` with one call added, field by field. */
  predicate AddsCall(before: Totals, after: Totals, usage: TokenUsage, apiDurationMs: Option<U64>, costUsdTicks: Option<I64>) {
    var priced := costUsdTicks.Some? && costUsdTicks.value > 0;
    && after.inputTokens == Capped(before.inputTokens + usage.prompt, MAX_U64)
    && after.outputTokens == Capped(before.outputTokens + usage.completion, MAX_U64)
    && after.cachedReadTokens == Capped(before.cachedReadTokens + usage.cachedPrompt, MAX_U64)
    && after.reasoningTokens == Capped(before.reasoningTokens + usage.reasoning, MAX_U64)
    && after.modelCalls == Capped(before.modelCalls + 1, MAX_U64)
    && after.apiDurationMs == Capped(before.apiDurationMs + (if apiDurationMs.Some? then apiDurationMs.value else 0), MAX_U64)
    && after.costMissingCalls == Capped(before.costMissingCalls + (if priced then 0 else 1), MAX_U64)
    && after.costUsdTicks == if !priced then before.costUsdTicks
                             else Some(Clamp((if before.costUsdTicks.Some? then before.costUsdTicks.value else 0) + costUsdTicks.value))
  }

  lemma CallAdds(before: Totals, usage: TokenUsage, apiDurationMs: Option<U64>, costUsdTicks: Option<I64>)
    ensures AddsCall(before, FoldTotals(before, FromCall(usage, apiDurationMs, costUsdTicks)), usage, apiDurationMs, costUsdTicks)
  {
  }

  // ------------------------------------------------------- the order of the models

  function Models(entries: seq<Entry>): seq<string> {
    if entries == [] then [] else Models(entries[..|entries| - 1]) + [entries[|entries| - 1].model]
  }

  lemma ModelsSnoc(entries: seq<Entry>, e: Entry)
    ensures Models(entries + [e]) == Models(entries) + [e.model]
  {
    assert (entries + [e])[..|entries|] == entries;
  }

  lemma {:induction false} ModelsConcat(a: seq<Entry>, b: seq<Entry>)
    ensures Models(a + b) == Models(a) + Models(b)
  {
    if b == [] {
      assert a + b == a;
    } else {
      var init, e := b[..|b| - 1], b[|b| - 1];
      Snoc(b);
      Assoc(a, init, [e]);
      ModelsConcat(a, init);
      ModelsSnoc(a + init, e);
      ModelsSnoc(init, e);
    }
  }

  /** Folding keeps the models in place and puts a new one last. */
  lemma {:induction false} FoldIntoModels(entries: seq<Entry>, e: Entry)
    ensures Models(FoldInto(entries, e)) == Models(entries) + (if Lists(entries, e.model) then [] else [e.model])
  {
    if entries == [] {
      ModelsSnoc([], Entry(e.model, FoldTotals(NO_USAGE, e.totals)));
      assert [] + FoldInto(entries, e) == FoldInto(entries, e);
    } else {
      var h, rest := entries[0], entries[1..];
      assert entries == [h] + rest;
      ListsCons(h, rest, e.model);
      ModelsConcat([h], rest);
      if h.model == e.model {
        var k := Entry(e.model, FoldTotals(h.totals, e.totals));
        ModelsConcat([k], rest);
        OneModel(h);
        OneModel(k);
      } else {
        FoldIntoModels(rest, e);
        ModelsConcat([h], FoldInto(rest, e));
      }
    }
  }

  lemma OneModel(e: Entry)
    ensures Models([e]) == [e.model]
  {
    ModelsSnoc([], e);
    assert [] + [e] == [e];
  }

  lemma {:induction false} ListsIsMentions(log: seq<Entry>, model: string)
    ensures Lists(Folded(log).byModel, model) <==> Mentions(log, model)
  {
    if log != [] {
      ListsIsMentions(log[..|log| - 1], model);
      FoldIntoLists(Folded(log[..|log| - 1]).byModel, log[|log| - 1], model);
      MentionsSnoc(log, model);
    }
  }

  /** Main result: the map lists the models in the order in which they were first
      recorded: one more entry adds its model at the end, unless it is there. */
  lemma ModelsInOrder(log: seq<Entry>, e: Entry)
    ensures Models(Folded(log + [e]).byModel)
         == Models(Folded(log).byModel) + (if Mentions(log, e.model) then [] else [e.model])
  {
    FoldSnoc(EMPTY, log, e);
    FoldIntoModels(Folded(log).byModel, e);
    ListsIsMentions(log, e.model);
  }
}
