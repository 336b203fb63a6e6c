/** When the order of the ledger operations shows in the bill. */
module LedgerOrder {
  import opened Conversation
  import opened Sequences
  import opened SaturatingSum
  import opened Usage
  import opened LedgerLaws

  // --------------------------------------------------------------------- cost

  /** The entries of one model, or of all when no model is given. */
  predicate Selected(e: Entry, model: Option<string>) {
    model.None? || e.model == model.value
  }

  /** The cost an entry adds, of either sign; nothing when it reports none. */
  function CostValue(model: Option<string>): Entry -> int {
    (e: Entry) => if Selected(e, model) && e.totals.costUsdTicks.Some? then e.totals.costUsdTicks.value else 0
  }

  function ReportsFor(model: Option<string>): Entry -> nat {
    (e: Entry) => if Selected(e, model) then Get(e.totals, CostReports) else 0
  }

  function SignedCost(log: seq<Entry>, model: Option<string>): Option<I64> {
    if Sum(log, ReportsFor(model)) == 0 then None else Some(Clamp(SatSum(log, CostValue(model))))
  }

  lemma {:induction false} SumInRange(log: seq<Entry>, model: Option<string>)
    ensures BOTTOM <= SatSum(log, CostValue(model)) <= TOP
    ensures Sum(log, ReportsFor(model)) == 0 ==> SatSum(log, CostValue(model)) == 0
  {
    if log != [] { SumInRange(log[..|log| - 1], model); }
  }

  lemma MergeSigned(init: seq<Entry>, e: Entry, model: Option<string>)
    ensures SignedCost(init + [e], model) ==
            if Selected(e, model) then MergeCostTicks(SignedCost(init, model), e.totals.costUsdTicks)
            else SignedCost(init, model)
  {
    assert (init + [e])[..|init|] == init;
    SumInRange(init, model);
  }

  /** For costs of either sign: the total cost is the saturating sum in order. */
  lemma {:induction false} CostIsSum(log: seq<Entry>)
    ensures Folded(log).totals.costUsdTicks == SignedCost(log, None)
  {
    if log != [] {
      Snoc(log);
      CostIsSum(log[..|log| - 1]);
      MergeSigned(log[..|log| - 1], log[|log| - 1], None);
    }
  }

  lemma {:induction false} ModelCostIsSum(log: seq<Entry>, model: string)
    ensures UsageOf(Folded(log).byModel, model).costUsdTicks == SignedCost(log, Some(model))
  {
    if log != [] {
      var init, e := log[..|log| - 1], log[|log| - 1];
      Snoc(log);
      ModelCostIsSum(init, model);
      MergeSigned(init, e, Some(model));
      LookupFoldInto(Folded(init).byModel, e, model);
    }
  }

  /** Main result: the cost is the saturating sum of the reported ones in order,
      and absent exactly when none was reported; without negative ones it is the
      saturated sum. */
  lemma CostAccounts(ops: seq<Op>, model: string)
    ensures Run(ops).totals.costUsdTicks == SignedCost(Log(ops), None)
    ensures UsageOf(Run(ops).byModel, model).costUsdTicks == SignedCost(Log(ops), Some(model))
    ensures NonNegative(Log(ops)) ==>
              Run(ops).totals.costUsdTicks == CostOf(Sum(Log(ops), Amount(CostReports)), Sum(Log(ops), Amount(CostTicks)))
  {
    RunFoldsLog(ops);
    CostIsSum(Log(ops));
    ModelCostIsSum(Log(ops), model);
    if NonNegative(Log(ops)) {
      TotalsAreSums(Log(ops), CostReports);
      TotalsAreSums(Log(ops), CostTicks);
      CostIsCounted(Folded(Log(ops)).totals);
    }
  }

  /** Costs add up without the order showing: no negative one, or no positive
      one, or both sums within range. */
  predicate SteadyCosts(log: seq<Entry>) { Steady(log, CostValue(None)) }

  lemma SteadyPerModel(log: seq<Entry>, model: Option<string>)
    requires SteadyCosts(log)
    ensures Steady(log, CostValue(model))
  {
    SumAtMost(log, Rise(CostValue(model)), Rise(CostValue(None)));
    SumAtMost(log, Fall(CostValue(model)), Fall(CostValue(None)));
  }

  lemma NonNegativeIsSteady(log: seq<Entry>)
    requires NonNegative(log)
    ensures SteadyCosts(log)
  {
    forall i | 0 <= i < |log| ensures Fall(CostValue(None))(log[i]) == 0 {
      assert NoNegativeCost(log[i].totals);
    }
    SumIsZero(log, Fall(CostValue(None)));
  }

  lemma SignedCostIgnoresOrder(a: seq<Entry>, b: seq<Entry>, model: Option<string>)
    requires multiset(a) == multiset(b) && SteadyCosts(a)
    ensures SignedCost(a, model) == SignedCost(b, model)
  {
    SteadyPerModel(a, model);
    SumIgnoresOrder(a, b, ReportsFor(model));
    SteadyIgnoresOrder(a, b, CostValue(model));
  }

  /** Every order of the entries leaves the same total cost. */
  ghost predicate CostOrderFree(log: seq<Entry>) {
    forall other | multiset(other) == multiset(log) :: Folded(other).totals.costUsdTicks == Folded(log).totals.costUsdTicks
  }

  lemma SteadyIsFree(log: seq<Entry>)
    requires SteadyCosts(log)
    ensures CostOrderFree(log)
  {
    forall other | multiset(other) == multiset(log)
      ensures Folded(other).totals.costUsdTicks == Folded(log).totals.costUsdTicks
    {
      CostIsSum(log);
      CostIsSum(other);
      SignedCostIgnoresOrder(log, other, None);
    }
  }

  lemma FreeIsSteady(log: seq<Entry>)
    requires CostOrderFree(log) && Sum(log, ReportsFor(None)) > 0
    ensures SteadyCosts(log)
  {
    forall other | multiset(other) == multiset(log)
      ensures SatSum(other, CostValue(None)) == SatSum(log, CostValue(None))
    {
      assert Folded(other).totals.costUsdTicks == Folded(log).totals.costUsdTicks;
      CostIsSum(log);
      CostIsSum(other);
      SumIgnoresOrder(log, other, ReportsFor(None));
      SumInRange(log, None);
      SumInRange(other, None);
    }
    assert OrderFree(log, CostValue(None));
    OrderFreeIffSteady(log, CostValue(None));
  }

  lemma {:induction false} SilentIsSteady(log: seq<Entry>)
    requires Sum(log, ReportsFor(None)) == 0
    ensures Losses(log, CostValue(None)) == 0
  {
    if log != [] { SilentIsSteady(log[..|log| - 1]); }
  }

  /** Main result: the order of the entries does not show in the cost exactly when
      the costs are steady. */
  lemma CostOrderFreeIffSteady(log: seq<Entry>)
    ensures CostOrderFree(log) <==> SteadyCosts(log)
  {
    if SteadyCosts(log) {
      SteadyIsFree(log);
    } else if CostOrderFree(log) {
      if Sum(log, ReportsFor(None)) == 0 { SilentIsSteady(log); } else { FreeIsSteady(log); }
      assert false;
    }
  }

  // -------------------------------------------------------------------- order

  lemma LogAround(a: seq<Op>, op: Op, b: seq<Op>)
    ensures multiset(Log(a + ([op] + b))) == multiset(Log(a + b)) + multiset(Logged(op))
  {
    Assoc(a, [op], b);
    LogConcat(a + [op], b);
    LogOne(a, op);
    LogConcat(a, b);
  }

  lemma {:induction false} LogIgnoresOrder(a: seq<Op>, b: seq<Op>)
    requires multiset(a) == multiset(b)
    ensures multiset(Log(a)) == multiset(Log(b))
    decreases |a|
  {
    if a == [] {
      EmptyPermutation(b);
    } else {
      var i := Matching(a, b);
      Removed(b, i);
      LogAround(b[..i], b[i], b[i + 1..]);
      LogIgnoresOrder(a[..|a| - 1], Without(b, i));
    }
  }

  /** Two logs with the same entries leave the same counts. */
  lemma CountsFromLog(a: seq<Entry>, b: seq<Entry>, model: string, f: Field)
    requires multiset(a) == multiset(b) && !f.CostTicks?
    ensures Get(Folded(a).totals, f) == Get(Folded(b).totals, f)
    ensures Get(UsageOf(Folded(a).byModel, model), f) == Get(UsageOf(Folded(b).byModel, model), f)
  {
    TotalsAreSums(a, f);
    TotalsAreSums(b, f);
    ModelsAreSums(a, model, f);
    ModelsAreSums(b, model, f);
    SumIgnoresOrder(a, b, Amount(f));
    SumIgnoresOrder(a, b, AmountFor(model, f));
  }

  lemma MentionsIgnoresOrder(a: seq<Entry>, b: seq<Entry>, model: string)
    requires multiset(a) == multiset(b)
    ensures Mentions(a, model) ==> Mentions(b, model)
  {
    if i :| 0 <= i < |a| && a[i].model == model {
      assert a[i] in multiset(b);
      var j :| 0 <= j < |b| && b[j] == a[i];
    }
  }

  /** Token counts, calls and durations never depend on the order. */
  lemma CountsIgnoreOrder(a: seq<Op>, b: seq<Op>, model: string, f: Field)
    requires multiset(a) == multiset(b) && !f.CostTicks?
    ensures Get(Run(a).totals, f) == Get(Run(b).totals, f)
    ensures Get(UsageOf(Run(a).byModel, model), f) == Get(UsageOf(Run(b).byModel, model), f)
  {
    LogIgnoresOrder(a, b);
    RunFoldsLog(a);
    RunFoldsLog(b);
    CountsFromLog(Log(a), Log(b), model, f);
  }

  lemma SameBillFromLog(a: seq<Entry>, b: seq<Entry>, model: string)
    requires multiset(a) == multiset(b) && SteadyCosts(a)
    ensures Folded(a).totals == Folded(b).totals
    ensures UsageOf(Folded(a).byModel, model) == UsageOf(Folded(b).byModel, model)
  {
    forall f: Field | !f.CostTicks?
      ensures Get(Folded(a).totals, f) == Get(Folded(b).totals, f)
      ensures Get(UsageOf(Folded(a).byModel, model), f) == Get(UsageOf(Folded(b).byModel, model), f)
    {
      CountsFromLog(a, b, model, f);
    }
    CostIsSum(a);
    CostIsSum(b);
    ModelCostIsSum(a, model);
    ModelCostIsSum(b, model);
    SignedCostIgnoresOrder(a, b, None);
    SignedCostIgnoresOrder(a, b, Some(model));
    SameTotals(Folded(a).totals, Folded(b).totals);
    SameTotals(UsageOf(Folded(a).byModel, model), UsageOf(Folded(b).byModel, model));
  }

  lemma SameListingFromLog(a: seq<Entry>, b: seq<Entry>, model: string)
    requires multiset(a) == multiset(b)
    ensures Lookup(Folded(a).byModel, model).Some? == Lookup(Folded(b).byModel, model).Some?
  {
    ModelIsListed(a, model);
    ModelIsListed(b, model);
    MentionsIgnoresOrder(a, b, model);
    MentionsIgnoresOrder(b, a, model);
  }

  /** Main result: with steady costs, the totals and the per-model map do not
      depend on the order of the operations. */
  lemma BillIgnoresOrder(a: seq<Op>, b: seq<Op>, model: string)
    requires multiset(a) == multiset(b) && SteadyCosts(Log(a))
    ensures Run(a).totals == Run(b).totals
    ensures Lookup(Run(a).byModel, model) == Lookup(Run(b).byModel, model)
  {
    LogIgnoresOrder(a, b);
    RunFoldsLog(a);
    RunFoldsLog(b);
    SameBillFromLog(Log(a), Log(b), model);
    SameListingFromLog(Log(a), Log(b), model);
  }

  // ------------------------------------------------------------------ witness

  function CostEntry(ticks: I64): Entry {
    Entry("m", NO_USAGE.(costUsdTicks := Some(ticks)))
  }

  /** A cost at the top, one more and one back: not steady, so some order of these
      three entries leaves another cost. */
  lemma NegativeCostsDependOnOrder()
    ensures !CostOrderFree([CostEntry(TOP), CostEntry(1), CostEntry(-1)])
  {
    var log := [CostEntry(TOP), CostEntry(1), CostEntry(-1)];
    var v := CostValue(None);
    assert log[..2] == [CostEntry(TOP), CostEntry(1)] && log[..2][..1] == [CostEntry(TOP)] && log[..2][..1][..0] == [];
    assert Sum(log, Rise(v)) == Sum(log[..2], Rise(v)) && Sum(log[..2], Rise(v)) == Sum(log[..2][..1], Rise(v)) + 1;
    assert Sum(log, Fall(v)) == Sum(log[..2], Fall(v)) + 1;
    CostOrderFreeIffSteady(log);
  }
}
