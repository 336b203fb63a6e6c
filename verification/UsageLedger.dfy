/** The ledger as the object the session updates in place. Its history is a ghost,
    and every law about runs holds of the object at any time. */
module UsageLedger {
  import opened Conversation
  import opened Sequences
  import opened Usage
  import opened LedgerLaws
  import opened LedgerTree
  import opened LedgerReport

  class UsageLedger {
    var totals: Totals
    var byModel: seq<Entry>
    var mainLoopModelCalls: U64
    var incomplete: bool
    ghost var history: seq<Op>

    ghost predicate Valid()
      reads this
    {
      Ledger(totals, byModel, mainLoopModelCalls, incomplete) == Run(history)
    }

    /** The books balance: every counter of the totals is the saturated sum over the
        map, no model is listed twice, and there are no more turns than calls. */
    ghost predicate Balanced()
      reads this
    {
      && (forall f: Field | !f.CostTicks? :: Get(totals, f) == Capped(Sum(byModel, Amount(f)), Cap(f)))
      && Distinct(byModel)
      && mainLoopModelCalls <= totals.modelCalls
    }

    constructor ()
      ensures Valid() && history == []
    {
      totals, byModel, mainLoopModelCalls, incomplete, history := NO_USAGE, [], 0, false, [];
    }

    lemma IsBalanced()
      requires Valid()
      ensures Balanced()
    {
      forall f: Field | !f.CostTicks? ensures Get(totals, f) == Capped(Sum(byModel, Amount(f)), Cap(f)) {
        Conservation(history, f);
      }
      RunFoldsLog(history);
      MapIsDistinct(Log(history));
      TurnsWithinCalls(history);
    }

    method FoldEntryInto(e: Entry)
      modifies `totals, `byModel
      ensures totals == FoldTotals(old(totals), e.totals) && byModel == FoldInto(old(byModel), e)
    {
      totals := FoldTotals(totals, e.totals);
      byModel := FoldInto(byModel, e);
    }

    method RecordMainLoopCall(model: string, usage: TokenUsage, apiDurationMs: Option<U64>, costUsdTicks: Option<I64>)
      requires Valid()
      modifies this
      ensures Valid() && Balanced()
      ensures history == old(history) + [MainLoopCall(model, usage, apiDurationMs, costUsdTicks)]
      ensures AddsCall(old(totals), totals, usage, apiDurationMs, costUsdTicks)
      ensures AddsCall(UsageOf(old(byModel), model), UsageOf(byModel, model), usage, apiDurationMs, costUsdTicks)
      ensures forall other | other != model :: Lookup(byModel, other) == Lookup(old(byModel), other)
      ensures mainLoopModelCalls == Capped(old(mainLoopModelCalls) + 1, MAX_U64) && incomplete == old(incomplete)
    {
      CallAdds(totals, usage, apiDurationMs, costUsdTicks);
      CallAdds(UsageOf(byModel, model), usage, apiDurationMs, costUsdTicks);
      forall m: string { LookupFoldInto(byModel, Entry(model, FromCall(usage, apiDurationMs, costUsdTicks)), m); }
      mainLoopModelCalls := SatAdd(mainLoopModelCalls, 1);
      FoldEntryInto(Entry(model, FromCall(usage, apiDurationMs, costUsdTicks)));
      Extend(MainLoopCall(model, usage, apiDurationMs, costUsdTicks));
    }

    method RecordSubagent(entries: seq<Entry>, partial: bool)
      requires Valid()
      modifies this
      ensures Valid() && Balanced()
      ensures history == old(history) + [Subagent(entries, partial)]
      ensures mainLoopModelCalls == old(mainLoopModelCalls) && incomplete == (old(incomplete) || partial)
    {
      ghost var before := Run(history);
      FoldFrame(before, before, entries);
      for i := 0 to |entries|
        invariant Ledger(totals, byModel, mainLoopModelCalls, incomplete) == FoldEntries(before, entries[..i])
        invariant history == old(history)
      {
        assert entries[..i + 1][..i] == entries[..i];
        FoldEntryInto(entries[i]);
      }
      assert entries[..|entries|] == entries;
      if partial { incomplete := true; }
      Extend(Subagent(entries, partial));
    }

    method Mark()
      requires Valid()
      modifies this
      ensures Valid() && Balanced() && incomplete
      ensures history == old(history) + [MarkIncomplete]
      ensures totals == old(totals) && byModel == old(byModel)
    {
      incomplete := true;
      Extend(MarkIncomplete);
    }

    /** The history grows by what was done to the fields. */
    ghost method Extend(op: Op)
      requires Ledger(totals, byModel, mainLoopModelCalls, incomplete) == Apply(Run(history), op)
      modifies `history
      ensures history == old(history) + [op] && Valid() && Balanced()
    {
      assert (history + [op])[..|history|] == history;
      history := history + [op];
      IsBalanced();
    }

    /** A parent takes over the ledger of a finished subagent. */
    method Absorb(child: UsageLedger, partial: bool)
      requires Valid() && child.Valid() && child != this
      modifies this
      ensures Valid() && Balanced()
      ensures history == old(history) + [Adopt(child.history, partial)]
    {
      RecordSubagent(child.byModel, partial || child.incomplete);
    }
  }

  /** A session drives its ledger through a list of acts, creating a ledger for
      each subagent, and ends with the bill of all calls at any depth. */
  method Session(acts: seq<Act>) returns (ledger: UsageLedger)
    ensures fresh(ledger) && ledger.Valid() && ledger.Balanced() && ledger.history == OpsOf(acts)
    decreases acts
  {
    ledger := new UsageLedger();
    for i := 0 to |acts|
      invariant fresh(ledger) && ledger.Valid() && ledger.history == OpsOf(acts[..i])
    {
      assert acts[..i + 1][..i] == acts[..i];
      match acts[i] {
        case Call(model, usage, duration, cost) => ledger.RecordMainLoopCall(model, usage, duration, cost);
        case Child(sub, partial) =>
          var child := Session(sub);
          ledger.Absorb(child, partial);
        case Miss => ledger.Mark();
      }
    }
    assert acts[..|acts|] == acts;
    ledger.IsBalanced();
  }

  /** What a session reports at the end: every number over all calls of the session
      and its subagents, its own turns, and whether anything was missed. */
  method Report(acts: seq<Act>) returns (totals: Totals, turns: U64, complete: bool)
    ensures Tallies(totals, acts, Every)
    ensures turns == Capped(OwnCalls(acts), MAX_U64)
    ensures complete <==> !Missed(acts)
  {
    var ledger := Session(acts);
    totals, turns, complete := ledger.totals, ledger.mainLoopModelCalls, !ledger.incomplete;
    BillTallies(acts, "");
    TurnsAreOwnCalls(acts);
    IncompleteIffMissed(acts);
  }
}
