/** What the billing ledger accounts for over every run. */
module LedgerLaws {
  import opened Conversation
  import opened Sequences
  import opened SaturatingSum
  import opened Usage

  /** Everything a ledger counts; a cost is a number of reports, none or some,
      and of ticks. */
  datatype Field =
    | InputTokens | OutputTokens | CachedReadTokens | ReasoningTokens
    | ModelCalls | ApiDurationMs | CostMissingCalls
    | CostReports | CostTicks

  function Get(t: Totals, f: Field): nat {
    match f
    case InputTokens => t.inputTokens
    case OutputTokens => t.outputTokens
    case CachedReadTokens => t.cachedReadTokens
    case ReasoningTokens => t.reasoningTokens
    case ModelCalls => t.modelCalls
    case ApiDurationMs => t.apiDurationMs
    case CostMissingCalls => t.costMissingCalls
    case CostReports => if t.costUsdTicks.Some? then 1 else 0
    case CostTicks => if t.costUsdTicks.Some? && t.costUsdTicks.value > 0 then t.costUsdTicks.value else 0
  }

  /** Where a field saturates. */
  function Cap(f: Field): nat {
    match f
    case CostReports => 1
    case CostTicks => TOP
    case _ => MAX_U64
  }

  function Capped(n: nat, cap: nat): nat { if n > cap then cap else n }

  predicate NoNegativeCost(t: Totals) {
    t.costUsdTicks.Some? ==> t.costUsdTicks.value >= 0
  }

  /** Ticks add up as naturals only where no cost is negative. */
  predicate Countable(t: Totals, f: Field) { f.CostTicks? ==> NoNegativeCost(t) }

  predicate NonNegative(log: seq<Entry>) {
    forall i | 0 <= i < |log| :: NoNegativeCost(log[i].totals)
  }

  function Amount(f: Field): Entry -> nat { (e: Entry) => Get(e.totals, f) }

  function AmountFor(model: string, f: Field): Entry -> nat {
    (e: Entry) => if e.model == model then Get(e.totals, f) else 0
  }

  lemma FoldGet(a: Totals, b: Totals, f: Field)
    requires Countable(a, f) && Countable(b, f)
    ensures Get(FoldTotals(a, b), f) == Capped(Get(a, f) + Get(b, f), Cap(f))
    ensures Countable(FoldTotals(a, b), f)
  {
  }

  /** The cost shown for so many reports of so many ticks. */
  function CostOf(reports: nat, ticks: nat): Option<I64> {
    if reports == 0 then None else Some(Capped(ticks, TOP))
  }

  lemma CostIsCounted(t: Totals)
    requires NoNegativeCost(t)
    ensures t.costUsdTicks == CostOf(Get(t, CostReports), Get(t, CostTicks))
  {
  }

  lemma SameTotals(a: Totals, b: Totals)
    requires forall f: Field | !f.CostTicks? :: Get(a, f) == Get(b, f)
    requires a.costUsdTicks == b.costUsdTicks
    ensures a == b
  {
    assert Get(a, InputTokens) == Get(b, InputTokens) && Get(a, OutputTokens) == Get(b, OutputTokens);
    assert Get(a, CachedReadTokens) == Get(b, CachedReadTokens) && Get(a, ReasoningTokens) == Get(b, ReasoningTokens);
    assert Get(a, ModelCalls) == Get(b, ModelCalls) && Get(a, ApiDurationMs) == Get(b, ApiDurationMs);
    assert Get(a, CostMissingCalls) == Get(b, CostMissingCalls);
  }

  // ------------------------------------------------------------------ the log

  /** Everything an operation folds in. */
  function Logged(op: Op): seq<Entry> {
    match op
    case MainLoopCall(model, usage, duration, cost) => [Entry(model, FromCall(usage, duration, cost))]
    case Subagent(byModel, _) => byModel
    case MarkIncomplete => []
  }

  function Log(ops: seq<Op>): seq<Entry> {
    if ops == [] then [] else Log(ops[..|ops| - 1]) + Logged(ops[|ops| - 1])
  }

  lemma LogOne(ops: seq<Op>, op: Op)
    ensures Log(ops + [op]) == Log(ops) + Logged(op)
  {
    assert (ops + [op])[..|ops|] == ops;
  }

  lemma {:induction false} LogConcat(a: seq<Op>, b: seq<Op>)
    ensures Log(a + b) == Log(a) + Log(b)
  {
    if b == [] {
      assert a + b == a;
    } else {
      var init, op := b[..|b| - 1], b[|b| - 1];
      Snoc(b);
      Assoc(a, init, [op]);
      LogConcat(a, init);
      LogOne(a + init, op);
      LogOne(init, op);
      Assoc(Log(a), Log(init), Logged(op));
    }
  }

  /** The ledger that a log alone leaves. */
  function Folded(log: seq<Entry>): Ledger { FoldEntries(EMPTY, log) }

  lemma FoldSnoc(l: Ledger, entries: seq<Entry>, e: Entry)
    ensures FoldEntries(l, entries + [e]) == FoldEntry(FoldEntries(l, entries), e)
  {
    assert (entries + [e])[..|entries|] == entries;
  }

  lemma {:induction false} FoldConcat(l: Ledger, a: seq<Entry>, b: seq<Entry>)
    ensures FoldEntries(l, a + b) == FoldEntries(FoldEntries(l, a), b)
  {
    if b == [] {
      assert a + b == a;
    } else {
      var init, e := b[..|b| - 1], b[|b| - 1];
      Snoc(b);
      Assoc(a, init, [e]);
      FoldConcat(l, a, init);
      FoldSnoc(l, a + init, e);
      FoldSnoc(FoldEntries(l, a), init, e);
    }
  }

  /** Folding leaves the two other fields alone and does not look at them. */
  lemma {:induction false} FoldFrame(l: Ledger, m: Ledger, entries: seq<Entry>)
    requires l.totals == m.totals && l.byModel == m.byModel
    ensures var x, y := FoldEntries(l, entries), FoldEntries(m, entries);
            && x.totals == y.totals && x.byModel == y.byModel
            && x.mainLoopModelCalls == l.mainLoopModelCalls && x.incomplete == l.incomplete
  {
    if entries != [] { FoldFrame(l, m, entries[..|entries| - 1]); }
  }

  lemma FoldOne(l: Ledger, e: Entry)
    ensures FoldEntries(l, [e]) == FoldEntry(l, e)
  {
    assert [e][..0] == [];
  }

  lemma ApplyFolds(l: Ledger, op: Op)
    ensures Apply(l, op).totals == FoldEntries(l, Logged(op)).totals
    ensures Apply(l, op).byModel == FoldEntries(l, Logged(op)).byModel
  {
    if op.MainLoopCall? { FoldOne(l, Logged(op)[0]); }
  }

  /** A run leaves the totals and the map that folding its log does. */
  lemma {:induction false} RunFoldsLog(ops: seq<Op>)
    ensures Run(ops).totals == Folded(Log(ops)).totals && Run(ops).byModel == Folded(Log(ops)).byModel
  {
    if ops != [] {
      var init, op := ops[..|ops| - 1], ops[|ops| - 1];
      RunFoldsLog(init);
      ApplyFolds(Run(init), op);
      FoldConcat(EMPTY, Log(init), Logged(op));
      FoldFrame(Run(init), Folded(Log(init)), Logged(op));
    }
  }

  // ------------------------------------------------------------ exact accounts

  predicate CountableLog(log: seq<Entry>, f: Field) { f.CostTicks? ==> NonNegative(log) }

  lemma NonNegativeSnoc(log: seq<Entry>)
    requires log != [] && NonNegative(log)
    ensures NonNegative(log[..|log| - 1]) && NoNegativeCost(log[|log| - 1].totals)
  {
  }

  lemma {:induction false} TotalsAreSums(log: seq<Entry>, f: Field)
    requires CountableLog(log, f)
    ensures Get(Folded(log).totals, f) == Capped(Sum(log, Amount(f)), Cap(f)) && Countable(Folded(log).totals, f)
  {
    if log != [] {
      var init, e := log[..|log| - 1], log[|log| - 1];
      if f.CostTicks? { NonNegativeSnoc(log); }
      TotalsAreSums(init, f);
      FoldGet(Folded(init).totals, e.totals, f);
    }
  }

  /** The entry of a model, or no usage. */
  function UsageOf(entries: seq<Entry>, model: string): Totals {
    match Lookup(entries, model) case Some(t) => t case None => NO_USAGE
  }

  lemma {:induction false} LookupFoldInto(entries: seq<Entry>, e: Entry, model: string)
    ensures Lookup(FoldInto(entries, e), model) ==
            if model != e.model then Lookup(entries, model)
            else Some(FoldTotals(UsageOf(entries, model), e.totals))
  {
    if entries != [] && entries[0].model != e.model {
      LookupFoldInto(entries[1..], e, model);
      assert FoldInto(entries, e)[1..] == FoldInto(entries[1..], e);
    } else {
      assert FoldInto(entries, e)[1..] == if entries == [] then [] else entries[1..];
    }
  }

  ghost predicate Mentions(log: seq<Entry>, model: string) {
    exists i :: 0 <= i < |log| && log[i].model == model
  }

  lemma MentionsSnoc(log: seq<Entry>, model: string)
    requires log != []
    ensures Mentions(log, model) <==> Mentions(log[..|log| - 1], model) || log[|log| - 1].model == model
  {
    var init := log[..|log| - 1];
    if i :| 0 <= i < |init| && init[i].model == model { assert log[i].model == model; }
    if i :| 0 <= i < |log| && log[i].model == model { assert i < |init| ==> init[i].model == model; }
    assert log[|log| - 1].model == model ==> Mentions(log, model);
  }

  lemma {:induction false} ModelIsListed(log: seq<Entry>, model: string)
    ensures Lookup(Folded(log).byModel, model).Some? <==> Mentions(log, model)
  {
    if log != [] {
      ModelIsListed(log[..|log| - 1], model);
      LookupFoldInto(Folded(log[..|log| - 1]).byModel, log[|log| - 1], model);
      MentionsSnoc(log, model);
    }
  }

  lemma {:induction false} ModelsAreSums(log: seq<Entry>, model: string, f: Field)
    requires CountableLog(log, f)
    ensures var t := UsageOf(Folded(log).byModel, model);
            Get(t, f) == Capped(Sum(log, AmountFor(model, f)), Cap(f)) && Countable(t, f)
  {
    if log != [] {
      var init, e := log[..|log| - 1], log[|log| - 1];
      if f.CostTicks? { NonNegativeSnoc(log); }
      ModelsAreSums(init, model, f);
      LookupFoldInto(Folded(init).byModel, e, model);
      if e.model == model { FoldGet(UsageOf(Folded(init).byModel, model), e.totals, f); }
    }
  }

  // ------------------------------------------------------------ conservation

  /** `b` sums to `amount` more than `a`, up to saturation. */
  predicate Grown(a: seq<Entry>, b: seq<Entry>, amount: nat, g: Entry -> nat, cap: nat) {
    Capped(Sum(b, g), cap) == Capped(Sum(a, g) + amount, cap)
  }

  lemma GrownHead(h: Entry, k: Entry, rest: seq<Entry>, amount: nat, g: Entry -> nat, cap: nat)
    requires g(k) == Capped(g(h) + amount, cap)
    ensures Grown([h] + rest, [k] + rest, amount, g, cap)
  {
    SumSplit([h], rest, g);
    SumSplit([k], rest, g);
    SumOne(h, g);
    SumOne(k, g);
  }

  lemma GrownTail(h: Entry, a: seq<Entry>, b: seq<Entry>, amount: nat, g: Entry -> nat, cap: nat)
    requires Grown(a, b, amount, g, cap)
    ensures Grown([h] + a, [h] + b, amount, g, cap)
  {
    SumSplit([h], a, g);
    SumSplit([h], b, g);
  }

  lemma GrownNew(k: Entry, amount: nat, g: Entry -> nat, cap: nat)
    requires g(k) == Capped(amount, cap)
    ensures Grown([], [k], amount, g, cap)
  {
    SumOne(k, g);
  }

  lemma FoldedAmount(t: Totals, e: Entry, f: Field)
    requires Countable(t, f) && Countable(e.totals, f)
    ensures Amount(f)(Entry(e.model, FoldTotals(t, e.totals))) == Capped(Get(t, f) + Get(e.totals, f), Cap(f))
    ensures Countable(FoldTotals(t, e.totals), f)
  {
    FoldGet(t, e.totals, f);
  }

  /** Folding adds the amount to the map's sum, up to saturation. */
  lemma {:induction false} FoldIntoGrows(entries: seq<Entry>, e: Entry, f: Field)
    requires CountableLog(entries, f) && Countable(e.totals, f)
    ensures Grown(entries, FoldInto(entries, e), Get(e.totals, f), Amount(f), Cap(f))
  {
    if entries == [] {
      FoldedAmount(NO_USAGE, e, f);
      GrownNew(FoldInto(entries, e)[0], Get(e.totals, f), Amount(f), Cap(f));
    } else {
      var h, rest := entries[0], entries[1..];
      assert entries == [h] + rest;
      assert f.CostTicks? ==> NoNegativeCost(h.totals);
      if h.model == e.model {
        FoldedAmount(h.totals, e, f);
        GrownHead(h, Entry(e.model, FoldTotals(h.totals, e.totals)), rest, Get(e.totals, f), Amount(f), Cap(f));
      } else {
        FoldIntoGrows(rest, e, f);
        GrownTail(h, rest, FoldInto(rest, e), Get(e.totals, f), Amount(f), Cap(f));
      }
    }
  }

  lemma {:induction false} FoldIntoNonNegative(entries: seq<Entry>, e: Entry)
    requires NonNegative(entries) && NoNegativeCost(e.totals)
    ensures NonNegative(FoldInto(entries, e))
  {
    if entries != [] && entries[0].model != e.model { FoldIntoNonNegative(entries[1..], e); }
  }

  /** A map built from non-negative costs holds none but such. */
  lemma {:induction false} MapIsNonNegative(log: seq<Entry>)
    requires NonNegative(log)
    ensures NonNegative(Folded(log).byModel)
  {
    if log != [] {
      NonNegativeSnoc(log);
      MapIsNonNegative(log[..|log| - 1]);
      FoldIntoNonNegative(Folded(log[..|log| - 1]).byModel, log[|log| - 1]);
    }
  }

  lemma {:induction false} MapSumsToTotals(log: seq<Entry>, f: Field)
    requires CountableLog(log, f)
    ensures Get(Folded(log).totals, f) == Capped(Sum(Folded(log).byModel, Amount(f)), Cap(f))
  {
    if log != [] {
      var init, e := log[..|log| - 1], log[|log| - 1];
      if f.CostTicks? {
        NonNegativeSnoc(log);
        MapIsNonNegative(init);
      }
      MapSumsToTotals(init, f);
      TotalsAreSums(init, f);
      FoldIntoGrows(Folded(init).byModel, e, f);
      FoldGet(Folded(init).totals, e.totals, f);
    }
  }

  /** Main result: after every run each total is the saturated sum of that field
      over the per-model map. */
  lemma Conservation(ops: seq<Op>, f: Field)
    requires CountableLog(Log(ops), f)
    ensures Get(Run(ops).totals, f) == Capped(Sum(Run(ops).byModel, Amount(f)), Cap(f))
  {
    RunFoldsLog(ops);
    MapSumsToTotals(Log(ops), f);
  }

  /** Main result: no usage is lost or counted twice; the totals and each model's
      entry are the saturated sums of exactly what was recorded. */
  lemma ExactAccounts(ops: seq<Op>, model: string, f: Field)
    requires CountableLog(Log(ops), f)
    ensures Get(Run(ops).totals, f) == Capped(Sum(Log(ops), Amount(f)), Cap(f))
    ensures Get(UsageOf(Run(ops).byModel, model), f) == Capped(Sum(Log(ops), AmountFor(model, f)), Cap(f))
    ensures Lookup(Run(ops).byModel, model).Some? <==> Mentions(Log(ops), model)
  {
    RunFoldsLog(ops);
    TotalsAreSums(Log(ops), f);
    ModelsAreSums(Log(ops), model, f);
    ModelIsListed(Log(ops), model);
  }

  // ------------------------------------------------------------------- turns

  function CallCount(ops: seq<Op>): nat {
    if ops == [] then 0
    else CallCount(ops[..|ops| - 1]) + if ops[|ops| - 1].MainLoopCall? then 1 else 0
  }

  predicate Stains(op: Op) {
    op.MarkIncomplete? || (op.Subagent? && op.incomplete)
  }

  lemma {:induction false} CallsAreCounted(ops: seq<Op>)
    ensures Run(ops).mainLoopModelCalls == Capped(CallCount(ops), MAX_U64)
  {
    if ops != [] {
      var init, op := ops[..|ops| - 1], ops[|ops| - 1];
      CallsAreCounted(init);
      if op.Subagent? { FoldFrame(Run(init), Run(init), op.byModel); }
    }
  }

  lemma LoggedCall(op: Op)
    ensures Sum(Logged(op), Amount(ModelCalls)) >= if op.MainLoopCall? then 1 else 0
  {
    if op.MainLoopCall? { SumOne(Logged(op)[0], Amount(ModelCalls)); }
  }

  lemma {:induction false} CallsAreLogged(ops: seq<Op>)
    ensures Sum(Log(ops), Amount(ModelCalls)) >= CallCount(ops)
  {
    if ops != [] {
      var init, op := ops[..|ops| - 1], ops[|ops| - 1];
      CallsAreLogged(init);
      SumSplit(Log(init), Logged(op), Amount(ModelCalls));
      LoggedCall(op);
    }
  }

  /** The turn count never exceeds the number of model calls. */
  lemma TurnsWithinCalls(ops: seq<Op>)
    ensures Run(ops).mainLoopModelCalls <= Run(ops).totals.modelCalls
  {
    CallsAreCounted(ops);
    CallsAreLogged(ops);
    ExactAccounts(ops, "", ModelCalls);
  }

  lemma ApplyStains(l: Ledger, op: Op)
    ensures Apply(l, op).incomplete <==> l.incomplete || Stains(op)
  {
    if op.Subagent? { FoldFrame(l, l, op.byModel); }
  }

  /** The bill is marked incomplete exactly when some operation said so. */
  lemma {:induction false} IncompleteIffStained(ops: seq<Op>)
    ensures Run(ops).incomplete <==> exists i :: 0 <= i < |ops| && Stains(ops[i])
  {
    if ops != [] {
      var init, op := ops[..|ops| - 1], ops[|ops| - 1];
      IncompleteIffStained(init);
      ApplyStains(Run(init), op);
      if i :| 0 <= i < |init| && Stains(init[i]) { assert Stains(ops[i]); }
      if i :| 0 <= i < |ops| && Stains(ops[i]) { assert i == |ops| - 1 || Stains(init[i]); }
      assert Stains(op) ==> Stains(ops[|ops| - 1]);
    }
  }
}
