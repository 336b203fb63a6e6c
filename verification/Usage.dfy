/** The billing ledger as values: saturating totals, overall and per model, and
    the operations that fold usage in. */
module Usage {
  import opened Conversation
  import opened SaturatingSum

  const MAX_U64: nat := 0xFFFF_FFFF_FFFF_FFFF

  type U64 = x: int | 0 <= x <= MAX_U64
  type U32 = x: int | 0 <= x <= 0xFFFF_FFFF
  type I64 = x: int | BOTTOM <= x <= TOP

  function SatAdd(a: U64, b: U64): U64 {
    if a + b > MAX_U64 then MAX_U64 else a + b
  }

  datatype TokenUsage = TokenUsage(prompt: U32, completion: U32, cachedPrompt: U32, reasoning: U32)

  datatype Totals = Totals(
    inputTokens: U64,
    outputTokens: U64,
    cachedReadTokens: U64,
    reasoningTokens: U64,
    modelCalls: U64,
    apiDurationMs: U64,
    costUsdTicks: Option<I64>,
    costMissingCalls: U64)

  const NO_USAGE := Totals(0, 0, 0, 0, 0, 0, None, 0)

  function MergeCostTicks(a: Option<I64>, b: Option<I64>): Option<I64> {
    if a.None? && b.None? then None
    else Some(Clamp((if a.Some? then a.value else 0) + (if b.Some? then b.value else 0)))
  }

  function FoldTotals(a: Totals, b: Totals): Totals {
    Totals(
      SatAdd(a.inputTokens, b.inputTokens),
      SatAdd(a.outputTokens, b.outputTokens),
      SatAdd(a.cachedReadTokens, b.cachedReadTokens),
      SatAdd(a.reasoningTokens, b.reasoningTokens),
      SatAdd(a.modelCalls, b.modelCalls),
      SatAdd(a.apiDurationMs, b.apiDurationMs),
      MergeCostTicks(a.costUsdTicks, b.costUsdTicks),
      SatAdd(a.costMissingCalls, b.costMissingCalls))
  }

  /** A cost is reported only when positive. */
  function ReportedCost(raw: Option<I64>): Option<I64> {
    if raw.Some? && raw.value > 0 then raw else None
  }

  function FromCall(usage: TokenUsage, apiDurationMs: Option<U64>, costUsdTicks: Option<I64>): Totals {
    var cost := ReportedCost(costUsdTicks);
    Totals(
      usage.prompt, usage.completion, usage.cachedPrompt, usage.reasoning, 1,
      if apiDurationMs.Some? then apiDurationMs.value else 0,
      cost, if cost.None? then 1 else 0)
  }

  /** The per-model map in insertion order. */
  datatype Entry = Entry(model: string, totals: Totals)

  function Lookup(entries: seq<Entry>, model: string): Option<Totals> {
    if entries == [] then None
    else if entries[0].model == model then Some(entries[0].totals)
    else Lookup(entries[1..], model)
  }

  /** Fold into the model's entry, starting a new one at the end if there is none. */
  function FoldInto(entries: seq<Entry>, e: Entry): seq<Entry> {
    if entries == [] then [Entry(e.model, FoldTotals(NO_USAGE, e.totals))]
    else if entries[0].model == e.model then [Entry(e.model, FoldTotals(entries[0].totals, e.totals))] + entries[1..]
    else [entries[0]] + FoldInto(entries[1..], e)
  }

  datatype Ledger = Ledger(totals: Totals, byModel: seq<Entry>, mainLoopModelCalls: U64, incomplete: bool)

  const EMPTY := Ledger(NO_USAGE, [], 0, false)

  function FoldEntry(l: Ledger, e: Entry): Ledger {
    l.(totals := FoldTotals(l.totals, e.totals), byModel := FoldInto(l.byModel, e))
  }

  function FoldEntries(l: Ledger, entries: seq<Entry>): Ledger {
    if entries == [] then l
    else FoldEntry(FoldEntries(l, entries[..|entries| - 1]), entries[|entries| - 1])
  }

  datatype Op =
    | MainLoopCall(model: string, usage: TokenUsage, apiDurationMs: Option<U64>, costUsdTicks: Option<I64>)
    | Subagent(byModel: seq<Entry>, incomplete: bool)
    | MarkIncomplete

  function Apply(l: Ledger, op: Op): Ledger {
    match op
    case MainLoopCall(model, usage, duration, cost) =>
      FoldEntry(l.(mainLoopModelCalls := SatAdd(l.mainLoopModelCalls, 1)), Entry(model, FromCall(usage, duration, cost)))
    case Subagent(byModel, incomplete) =>
      var folded := FoldEntries(l, byModel);
      if incomplete then folded.(incomplete := true) else folded
    case MarkIncomplete => l.(incomplete := true)
  }

  function Run(ops: seq<Op>): Ledger {
    if ops == [] then EMPTY else Apply(Run(ops[..|ops| - 1]), ops[|ops| - 1])
  }
}
