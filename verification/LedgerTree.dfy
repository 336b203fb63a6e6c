/** The ledgers the program builds: a session records its own calls and takes
    over the ledgers of its subagents, which do the same. */
module LedgerTree {
  import opened Conversation
  import opened Sequences
  import opened Usage
  import opened LedgerLaws

  /** One thing a session does; `partial` is set when a subagent's usage may be
      incomplete for another reason than its own ledger. */
  datatype Act =
    | Call(model: string, usage: TokenUsage, apiDurationMs: Option<U64>, costUsdTicks: Option<I64>)
    | Child(acts: seq<Act>, partial: bool)
    | Miss

  /** The operation by which a parent takes over its subagent's bill. */
  function Adopt(child: seq<Op>, partial: bool): Op {
    Subagent(Run(child).byModel, partial || Run(child).incomplete)
  }

  function OpOf(a: Act): Op
    decreases a
  {
    match a
    case Call(model, usage, duration, cost) => MainLoopCall(model, usage, duration, cost)
    case Child(acts, partial) => Adopt(OpsOf(acts), partial)
    case Miss => MarkIncomplete
  }

  function OpsOf(acts: seq<Act>): seq<Op>
    decreases acts
  {
    if acts == [] then [] else OpsOf(acts[..|acts| - 1]) + [OpOf(acts[|acts| - 1])]
  }

  /** The ledger of a session. */
  function Bill(acts: seq<Act>): Ledger { Run(OpsOf(acts)) }

  /** Every model call of a session and all its subagents, at any depth. */
  function Calls(acts: seq<Act>): seq<Entry>
    decreases acts
  {
    if acts == [] then [] else Calls(acts[..|acts| - 1]) + CallsOf(acts[|acts| - 1])
  }

  function CallsOf(a: Act): seq<Entry>
    decreases a
  {
    match a
    case Call(model, usage, duration, cost) => [Entry(model, FromCall(usage, duration, cost))]
    case Child(acts, _) => Calls(acts)
    case Miss => []
  }

  // ------------------------------------------------------------- no negatives

  lemma NonNegativeConcat(a: seq<Entry>, b: seq<Entry>)
    requires NonNegative(a) && NonNegative(b)
    ensures NonNegative(a + b)
  {
  }

  /** Such a ledger never sees a negative cost. */
  lemma {:induction false} BilledIsNonNegative(acts: seq<Act>)
    ensures NonNegative(Log(OpsOf(acts)))
    decreases acts
  {
    if acts != [] {
      var init, a := acts[..|acts| - 1], acts[|acts| - 1];
      BilledIsNonNegative(init);
      ActIsNonNegative(a);
      LogOne(OpsOf(init), OpOf(a));
      NonNegativeConcat(Log(OpsOf(init)), Logged(OpOf(a)));
    }
  }

  lemma {:induction false} ActIsNonNegative(a: Act)
    ensures NonNegative(Logged(OpOf(a)))
    decreases a
  {
    if a.Child? {
      BilledIsNonNegative(a.acts);
      RunFoldsLog(OpsOf(a.acts));
      MapIsNonNegative(Log(OpsOf(a.acts)));
    }
  }

  lemma {:induction false} CallsAreNonNegative(acts: seq<Act>)
    ensures NonNegative(Calls(acts))
    decreases acts
  {
    if acts != [] {
      var init, a := acts[..|acts| - 1], acts[|acts| - 1];
      CallsAreNonNegative(init);
      if a.Child? { CallsAreNonNegative(a.acts); }
      NonNegativeConcat(Calls(init), CallsOf(a));
    }
  }

  // ------------------------------------------------------------------- nesting

  predicate Distinct(entries: seq<Entry>) {
    forall i, j | 0 <= i < j < |entries| :: entries[i].model != entries[j].model
  }

  predicate Lists(entries: seq<Entry>, model: string) {
    exists j :: 0 <= j < |entries| && entries[j].model == model
  }

  lemma ListsCons(h: Entry, rest: seq<Entry>, model: string)
    ensures Lists([h] + rest, model) <==> h.model == model || Lists(rest, model)
  {
    var all := [h] + rest;
    if j :| 0 <= j < |rest| && rest[j].model == model { assert all[j + 1].model == model; }
    if j :| 0 <= j < |all| && all[j].model == model { assert j > 0 ==> rest[j - 1].model == model; }
    assert h.model == model ==> all[0].model == model;
  }

  lemma DistinctCons(h: Entry, rest: seq<Entry>)
    requires Distinct(rest) && !Lists(rest, h.model)
    ensures Distinct([h] + rest)
  {
    var all := [h] + rest;
    forall i, j | 0 <= i < j < |all| ensures all[i].model != all[j].model {
      assert all[j] == rest[j - 1];
      assert i > 0 ==> all[i] == rest[i - 1];
    }
  }

  lemma {:induction false} FoldIntoLists(entries: seq<Entry>, e: Entry, model: string)
    ensures Lists(FoldInto(entries, e), model) <==> Lists(entries, model) || e.model == model
  {
    if entries == [] {
      ListsCons(FoldInto(entries, e)[0], [], model);
      assert FoldInto(entries, e) == [FoldInto(entries, e)[0]] + [];
    } else {
      var h, rest := entries[0], entries[1..];
      assert entries == [h] + rest;
      ListsCons(h, rest, model);
      if h.model == e.model {
        ListsCons(Entry(e.model, FoldTotals(h.totals, e.totals)), rest, model);
      } else {
        FoldIntoLists(rest, e, model);
        ListsCons(h, FoldInto(rest, e), model);
      }
    }
  }

  lemma DistinctTail(entries: seq<Entry>)
    requires entries != [] && Distinct(entries)
    ensures Distinct(entries[1..]) && !Lists(entries[1..], entries[0].model)
  {
  }

  lemma {:induction false} FoldIntoKeepsDistinct(entries: seq<Entry>, e: Entry)
    requires Distinct(entries)
    ensures Distinct(FoldInto(entries, e))
  {
    if entries != [] {
      var h, rest := entries[0], entries[1..];
      DistinctTail(entries);
      if h.model == e.model {
        DistinctCons(Entry(e.model, FoldTotals(h.totals, e.totals)), rest);
      } else {
        FoldIntoKeepsDistinct(rest, e);
        FoldIntoLists(rest, e, h.model);
        DistinctCons(h, FoldInto(rest, e));
      }
    }
  }

  lemma {:induction false} MapIsDistinct(log: seq<Entry>)
    ensures Distinct(Folded(log).byModel)
  {
    if log != [] {
      MapIsDistinct(log[..|log| - 1]);
      FoldIntoKeepsDistinct(Folded(log[..|log| - 1]).byModel, log[|log| - 1]);
    }
  }

  lemma AbsentSumsToZero(entries: seq<Entry>, model: string, f: Field)
    requires !Lists(entries, model)
    ensures Sum(entries, AmountFor(model, f)) == 0
  {
    SumIsZero(entries, AmountFor(model, f));
  }

  /** In a map, the sum over one model is its entry. */
  lemma {:induction false} ModelSum(entries: seq<Entry>, model: string, f: Field)
    requires Distinct(entries)
    ensures Sum(entries, AmountFor(model, f)) == Get(UsageOf(entries, model), f)
  {
    if entries != [] {
      SumCons(entries, AmountFor(model, f));
      DistinctTail(entries);
      if entries[0].model == model {
        AbsentSumsToZero(entries[1..], model, f);
      } else {
        ModelSum(entries[1..], model, f);
      }
    }
  }

  /** Two logs count the same for `g`, up to saturation. */
  predicate SameCount(x: seq<Entry>, y: seq<Entry>, g: Entry -> nat, cap: nat) {
    Capped(Sum(x, g), cap) == Capped(Sum(y, g), cap)
  }

  lemma SameCountConcat(x: seq<Entry>, y: seq<Entry>, p: seq<Entry>, q: seq<Entry>, g: Entry -> nat, cap: nat)
    requires SameCount(x, y, g, cap) && SameCount(p, q, g, cap)
    ensures SameCount(x + p, y + q, g, cap)
  {
    SumSplit(x, p, g);
    SumSplit(y, q, g);
  }

  /** A ledger's map counts what its log does, overall and for each model. */
  lemma MapCountsLog(ops: seq<Op>, model: string, f: Field)
    requires CountableLog(Log(ops), f)
    ensures SameCount(Run(ops).byModel, Log(ops), Amount(f), Cap(f))
    ensures SameCount(Run(ops).byModel, Log(ops), AmountFor(model, f), Cap(f))
  {
    Conservation(ops, f);
    ExactAccounts(ops, model, f);
    RunFoldsLog(ops);
    MapIsDistinct(Log(ops));
    ModelSum(Run(ops).byModel, model, f);
  }

  lemma AdoptIsCountable(child: seq<Op>, f: Field)
    requires CountableLog(Log(child), f)
    ensures CountableLog(Run(child).byModel, f)
  {
    RunFoldsLog(child);
    if f.CostTicks? { MapIsNonNegative(Log(child)); }
  }

  lemma SameLogsSameFields(x: seq<Op>, y: seq<Op>, log: seq<Entry>, p: seq<Entry>, q: seq<Entry>, model: string, f: Field)
    requires Log(x) == log + p && Log(y) == log + q
    requires CountableLog(log, f) && CountableLog(p, f) && CountableLog(q, f)
    requires SameCount(p, q, Amount(f), Cap(f)) && SameCount(p, q, AmountFor(model, f), Cap(f))
    ensures Get(Run(x).totals, f) == Get(Run(y).totals, f)
    ensures Get(UsageOf(Run(x).byModel, model), f) == Get(UsageOf(Run(y).byModel, model), f)
  {
    if f.CostTicks? {
      NonNegativeConcat(log, p);
      NonNegativeConcat(log, q);
    }
    SameCountConcat(log, log, p, q, Amount(f), Cap(f));
    SameCountConcat(log, log, p, q, AmountFor(model, f), Cap(f));
    ExactAccounts(x, model, f);
    ExactAccounts(y, model, f);
  }

  /** For any operations on both sides: folding in a child's map leaves the same
      fields as applying the child's operations. */
  lemma NestedAccounts(ops: seq<Op>, child: seq<Op>, partial: bool, model: string, f: Field)
    requires CountableLog(Log(ops), f) && CountableLog(Log(child), f)
    ensures Get(Run(ops + [Adopt(child, partial)]).totals, f) == Get(Run(ops + child).totals, f)
    ensures Get(UsageOf(Run(ops + [Adopt(child, partial)]).byModel, model), f) == Get(UsageOf(Run(ops + child).byModel, model), f)
  {
    LogConcat(ops, child);
    LogOne(ops, Adopt(child, partial));
    AdoptIsCountable(child, f);
    MapCountsLog(child, model, f);
    SameLogsSameFields(ops + [Adopt(child, partial)], ops + child, Log(ops), Run(child).byModel, Log(child), model, f);
  }

  /** A session's log counts what its calls do, its subagents' calls included. */
  lemma {:induction false} LogCountsCalls(acts: seq<Act>, model: string, f: Field)
    ensures SameCount(Log(OpsOf(acts)), Calls(acts), Amount(f), Cap(f))
    ensures SameCount(Log(OpsOf(acts)), Calls(acts), AmountFor(model, f), Cap(f))
    decreases acts
  {
    if acts != [] {
      var init, a := acts[..|acts| - 1], acts[|acts| - 1];
      LogCountsCalls(init, model, f);
      if a.Child? { ChildCounts(a, model, f); }
      LogOne(OpsOf(init), OpOf(a));
      SameCountConcat(Log(OpsOf(init)), Calls(init), Logged(OpOf(a)), CallsOf(a), Amount(f), Cap(f));
      SameCountConcat(Log(OpsOf(init)), Calls(init), Logged(OpOf(a)), CallsOf(a), AmountFor(model, f), Cap(f));
    }
  }

  lemma {:induction false} ChildCounts(a: Act, model: string, f: Field)
    requires a.Child?
    ensures SameCount(Logged(OpOf(a)), CallsOf(a), Amount(f), Cap(f))
    ensures SameCount(Logged(OpOf(a)), CallsOf(a), AmountFor(model, f), Cap(f))
    decreases a
  {
    BilledIsNonNegative(a.acts);
    LogCountsCalls(a.acts, model, f);
    MapCountsLog(OpsOf(a.acts), model, f);
  }

  /** Main result: the bill of a session counts every model call of the session
      and of its subagents at any depth exactly once, costs included, overall and
      for each model. */
  lemma TreeAccounts(acts: seq<Act>, model: string, f: Field)
    ensures Get(Bill(acts).totals, f) == Capped(Sum(Calls(acts), Amount(f)), Cap(f))
    ensures Get(UsageOf(Bill(acts).byModel, model), f) == Capped(Sum(Calls(acts), AmountFor(model, f)), Cap(f))
  {
    BilledIsNonNegative(acts);
    LogCountsCalls(acts, model, f);
    ExactAccounts(OpsOf(acts), model, f);
  }

  lemma BillCosts(acts: seq<Act>, model: string)
    ensures NoNegativeCost(Bill(acts).totals) && NoNegativeCost(UsageOf(Bill(acts).byModel, model))
  {
    BilledIsNonNegative(acts);
    RunFoldsLog(OpsOf(acts));
    TotalsAreSums(Log(OpsOf(acts)), CostTicks);
    ModelsAreSums(Log(OpsOf(acts)), model, CostTicks);
  }

  /** Main result: the bill depends on the calls alone: neither their order nor
      which subagent made them shows, in any counter or cost. */
  lemma BillDependsOnCalls(x: seq<Act>, y: seq<Act>, model: string)
    requires multiset(Calls(x)) == multiset(Calls(y))
    ensures Bill(x).totals == Bill(y).totals
    ensures UsageOf(Bill(x).byModel, model) == UsageOf(Bill(y).byModel, model)
  {
    forall f: Field
      ensures Get(Bill(x).totals, f) == Get(Bill(y).totals, f)
      ensures Get(UsageOf(Bill(x).byModel, model), f) == Get(UsageOf(Bill(y).byModel, model), f)
    {
      TreeAccounts(x, model, f);
      TreeAccounts(y, model, f);
      SumIgnoresOrder(Calls(x), Calls(y), Amount(f));
      SumIgnoresOrder(Calls(x), Calls(y), AmountFor(model, f));
    }
    BillCosts(x, model);
    BillCosts(y, model);
    CostIsCounted(Bill(x).totals);
    CostIsCounted(Bill(y).totals);
    CostIsCounted(UsageOf(Bill(x).byModel, model));
    CostIsCounted(UsageOf(Bill(y).byModel, model));
    SameTotals(Bill(x).totals, Bill(y).totals);
    SameTotals(UsageOf(Bill(x).byModel, model), UsageOf(Bill(y).byModel, model));
  }

  /** In particular folding in a subagent gives the bill of having made its calls
      in the session itself. */
  lemma AdoptingIsRecording(acts: seq<Act>, child: seq<Act>, partial: bool, model: string)
    ensures Bill(acts + [Child(child, partial)]).totals == Bill(acts + child).totals
    ensures UsageOf(Bill(acts + [Child(child, partial)]).byModel, model) == UsageOf(Bill(acts + child).byModel, model)
  {
    CallsConcat(acts, child);
    CallsConcat(acts, [Child(child, partial)]);
    assert [Child(child, partial)][..0] == [];
    assert Calls([Child(child, partial)]) == Calls(child);
    BillDependsOnCalls(acts + [Child(child, partial)], acts + child, model);
  }

  lemma {:induction false} CallsConcat(a: seq<Act>, b: seq<Act>)
    ensures Calls(a + b) == Calls(a) + Calls(b)
  {
    if b == [] {
      assert a + b == a;
    } else {
      var init, x := b[..|b| - 1], b[|b| - 1];
      assert (a + b)[..|a + b| - 1] == a + init;
      CallsConcat(a, init);
      Assoc(Calls(a), Calls(init), CallsOf(x));
    }
  }

  // --------------------------------------------------------------- completeness

  /** Something was missed, in the session or in a subagent at any depth. */
  predicate Missed(acts: seq<Act>)
    decreases acts
  {
    acts != [] && (Missed(acts[..|acts| - 1]) || MissedIn(acts[|acts| - 1]))
  }

  predicate MissedIn(a: Act)
    decreases a
  {
    a.Miss? || (a.Child? && (a.partial || Missed(a.acts)))
  }

  /** The bill is incomplete exactly when something was missed. */
  lemma {:induction false} IncompleteIffMissed(acts: seq<Act>)
    ensures Bill(acts).incomplete <==> Missed(acts)
    decreases acts
  {
    if acts != [] {
      var init, a := acts[..|acts| - 1], acts[|acts| - 1];
      IncompleteIffMissed(init);
      if a.Child? { IncompleteIffMissed(a.acts); }
      ApplyStains(Bill(init), OpOf(a));
      assert OpsOf(acts)[..|OpsOf(init)|] == OpsOf(init);
    }
  }
}
