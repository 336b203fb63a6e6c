/** What `repair_history` does to a history: three passes (drop duplicate
    results, strip displaced results, backfill unanswered calls), specified as
    functions, and the laws of their composition. */
module HistoryRepair {
  import opened Sequences
  import opened Conversation
  import opened Pairing

  // ---------------------------------------------------------------- one run

  /** Keep, of each call id, the last result of the run. */
  function KeepLast(run: seq<Item>): (r: seq<Item>)
    requires AllResults(run)
    ensures AllResults(r) && |r| <= |run|
  {
    if run == [] then []
    else if run[0].callId in ResultIds(run[1..]) then KeepLast(run[1..])
    else [run[0]] + KeepLast(run[1..])
  }

  /** Keep the results whose id is declared. */
  function KeepOwned(run: seq<Item>, ids: set<string>): (r: seq<Item>)
    requires AllResults(run)
    ensures AllResults(r) && |r| <= |run|
  {
    if run == [] then []
    else (if run[0].callId in ids then [run[0]] else []) + KeepOwned(run[1..], ids)
  }

  const HALTED := "Tool execution was halted by the harness (history_repair); the tool `"
  const NOT_EXECUTED := "` was not executed."

  function SyntheticText(name: string): string {
    HALTED + name + NOT_EXECUTED
  }

  /** One synthetic result per call that is not answered, in call order. */
  function Synthesize(calls: seq<ToolCall>, answered: set<string>): (r: seq<Item>)
    ensures AllResults(r) && |r| <= |calls|
  {
    if calls == [] then []
    else (if calls[0].id in answered then [] else [ToolResult(calls[0].id, SyntheticText(calls[0].name), [])])
         + Synthesize(calls[1..], answered)
  }

  lemma ResultIdsCons(r: Item, run: seq<Item>)
    requires r.ToolResult?
    ensures ResultIds([r] + run) == {r.callId} + ResultIds(run)
  {
    var s := [r] + run;
    assert s[0] == r;
    forall id | id in ResultIds(run) ensures id in ResultIds(s) {
      var x :| x in run && x.ToolResult? && x.callId == id;
      assert x in s;
    }
  }

  lemma ResultIdsConcat(x: seq<Item>, y: seq<Item>)
    ensures ResultIds(x + y) == ResultIds(x) + ResultIds(y)
  {
  }

  lemma {:induction false} KeepLastIds(run: seq<Item>)
    requires AllResults(run)
    ensures ResultIds(KeepLast(run)) == ResultIds(run)
    ensures DistinctIds(KeepLast(run))
  {
    if run != [] {
      KeepLastIds(run[1..]);
      assert run == [run[0]] + run[1..];
      ResultIdsCons(run[0], run[1..]);
      if run[0].callId !in ResultIds(run[1..]) {
        ResultIdsCons(run[0], KeepLast(run[1..]));
        DistinctCons(run[0], KeepLast(run[1..]));
      }
    }
  }

  lemma DistinctCons(r: Item, run: seq<Item>)
    requires r.ToolResult? && AllResults(run)
    ensures DistinctIds([r] + run) <==> DistinctIds(run) && r.callId !in ResultIds(run)
  {
    var s := [r] + run;
    assert s[0] == r;
    assert forall i | 0 < i < |s| :: s[i] == run[i - 1];
    assert forall i | 0 <= i < |run| :: run[i] == s[i + 1];
    if r.callId in ResultIds(run) {
      var i :| 0 <= i < |run| && run[i].callId == r.callId;
      assert s[i + 1].callId == s[0].callId;
    }
    if DistinctIds(s) {
      forall i, j | 0 <= i < j < |run| ensures run[i].callId != run[j].callId {
        assert s[i + 1].callId != s[j + 1].callId;
      }
    }
  }

  /** The last-wins pass drops nothing exactly when no id repeats. */
  lemma {:induction false} KeepLastIsIdentity(run: seq<Item>)
    requires AllResults(run)
    ensures DistinctIds(run) <==> KeepLast(run) == run
    ensures DistinctIds(run) <==> |KeepLast(run)| == |run|
  {
    if run != [] {
      KeepLastIsIdentity(run[1..]);
      assert run == [run[0]] + run[1..];
      DistinctCons(run[0], run[1..]);
    }
  }

  lemma KeepOwnedCons(run: seq<Item>, ids: set<string>)
    requires AllResults(run) && run != []
    ensures run == [run[0]] + run[1..]
    ensures KeepOwned(run, ids) == if run[0].callId in ids then [run[0]] + KeepOwned(run[1..], ids) else KeepOwned(run[1..], ids)
    ensures ResultIds(run) == {run[0].callId} + ResultIds(run[1..])
  {
    assert run == [run[0]] + run[1..];
    ResultIdsCons(run[0], run[1..]);
  }

  lemma {:induction false} KeptIds(run: seq<Item>, ids: set<string>)
    requires AllResults(run)
    ensures ResultIds(KeepOwned(run, ids)) == ResultIds(run) * ids
  {
    if run != [] {
      KeptIds(run[1..], ids);
      KeepOwnedCons(run, ids);
      if run[0].callId in ids { ResultIdsCons(run[0], KeepOwned(run[1..], ids)); }
    }
  }

  lemma {:induction false} KeptDistinct(run: seq<Item>, ids: set<string>)
    requires AllResults(run) && DistinctIds(run)
    ensures DistinctIds(KeepOwned(run, ids))
  {
    if run != [] {
      KeepOwnedCons(run, ids);
      DistinctCons(run[0], run[1..]);
      KeptDistinct(run[1..], ids);
      KeptIds(run[1..], ids);
      if run[0].callId in ids { DistinctCons(run[0], KeepOwned(run[1..], ids)); }
    }
  }

  lemma {:induction false} KeptAll(run: seq<Item>, ids: set<string>)
    requires AllResults(run)
    ensures ResultIds(run) <= ids <==> KeepOwned(run, ids) == run
  {
    if run != [] {
      KeptAll(run[1..], ids);
      KeepOwnedCons(run, ids);
      assert |KeepOwned(run[1..], ids)| < |run|;
    }
  }

  lemma KeepOwnedIds(run: seq<Item>, ids: set<string>)
    requires AllResults(run)
    ensures ResultIds(KeepOwned(run, ids)) == ResultIds(run) * ids
    ensures DistinctIds(run) ==> DistinctIds(KeepOwned(run, ids))
    ensures ResultIds(run) <= ids <==> KeepOwned(run, ids) == run
  {
    KeptIds(run, ids);
    KeptAll(run, ids);
    if DistinctIds(run) { KeptDistinct(run, ids); }
  }

  lemma CallIdsCons(calls: seq<ToolCall>)
    requires calls != []
    ensures CallIds(calls) == {calls[0].id} + CallIds(calls[1..])
  {
    assert forall c :: c in calls <==> c == calls[0] || c in calls[1..];
  }

  ghost predicate RepeatsOnly(calls: seq<ToolCall>, answered: set<string>) {
    forall p, q | 0 <= p < q < |calls| && calls[p].id == calls[q].id :: calls[p].id in answered
  }

  /** The first call adds one synthetic result, or none when it is answered. */
  lemma SynthesizeCons(calls: seq<ToolCall>, answered: set<string>) returns (r: Item)
    requires calls != []
    ensures r.ToolResult? && r.callId == calls[0].id
    ensures Synthesize(calls, answered) ==
            if calls[0].id in answered then Synthesize(calls[1..], answered) else [r] + Synthesize(calls[1..], answered)
  {
    r := ToolResult(calls[0].id, SyntheticText(calls[0].name), []);
  }

  lemma {:induction false} SynthesizedIds(calls: seq<ToolCall>, answered: set<string>)
    ensures ResultIds(Synthesize(calls, answered)) == CallIds(calls) - answered
  {
    if calls != [] {
      SynthesizedIds(calls[1..], answered);
      CallIdsCons(calls);
      var r := SynthesizeCons(calls, answered);
      if calls[0].id !in answered { ResultIdsCons(r, Synthesize(calls[1..], answered)); }
    }
  }

  lemma {:induction false} NothingSynthesized(calls: seq<ToolCall>, answered: set<string>)
    ensures CallIds(calls) <= answered <==> Synthesize(calls, answered) == []
  {
    if calls != [] {
      NothingSynthesized(calls[1..], answered);
      CallIdsCons(calls);
      var r := SynthesizeCons(calls, answered);
    }
  }

  /** Synthetic results answer exactly the unanswered ids. */
  lemma SynthesizeIds(calls: seq<ToolCall>, answered: set<string>)
    ensures ResultIds(Synthesize(calls, answered)) == CallIds(calls) - answered
    ensures CallIds(calls) <= answered <==> Synthesize(calls, answered) == []
  {
    SynthesizedIds(calls, answered);
    NothingSynthesized(calls, answered);
  }

  /** They are distinct exactly when every repeated id was already answered. */
  lemma {:induction false} SynthesizeDistinct(calls: seq<ToolCall>, answered: set<string>)
    ensures DistinctIds(Synthesize(calls, answered)) <==> RepeatsOnly(calls, answered)
  {
    if calls != [] {
      SynthesizeDistinct(calls[1..], answered);
      SynthesizeIds(calls[1..], answered);
      RepeatsOnlyCons(calls, answered);
      var r := SynthesizeCons(calls, answered);
      if calls[0].id !in answered { DistinctCons(r, Synthesize(calls[1..], answered)); }
    }
  }

  lemma RepeatsOnlyCons(calls: seq<ToolCall>, answered: set<string>)
    requires calls != []
    ensures RepeatsOnly(calls, answered) <==>
            RepeatsOnly(calls[1..], answered) && (calls[0].id in CallIds(calls[1..]) ==> calls[0].id in answered)
  {
    var t := calls[1..];
    assert forall i | 0 < i < |calls| :: calls[i] == t[i - 1];
    if RepeatsOnly(calls, answered) {
      forall p, q | 0 <= p < q < |t| && t[p].id == t[q].id ensures t[p].id in answered {
        assert calls[p + 1].id == calls[q + 1].id;
      }
      if calls[0].id in CallIds(t) {
        var q :| 0 <= q < |t| && t[q].id == calls[0].id;
        assert calls[q + 1].id == calls[0].id;
      }
    }
    if RepeatsOnly(t, answered) && (calls[0].id in CallIds(t) ==> calls[0].id in answered) {
      forall p, q | 0 <= p < q < |calls| && calls[p].id == calls[q].id ensures calls[p].id in answered {
        if p == 0 {
          assert t[q - 1] in t;
        } else {
          assert t[p - 1].id == t[q - 1].id;
        }
      }
    }
  }

  // ------------------------------------------------------------ the passes

  /** The results that directly follow the first item. */
  function RunOf(h: seq<Item>): (run: seq<Item>)
    requires h != []
    ensures AllResults(run) && |run| < |h|
  {
    h[1..][..ResultRun(h[1..])]
  }

  /** What follows the first item and its run. */
  function RestOf(h: seq<Item>): (rest: seq<Item>)
    requires h != []
    ensures StartsFresh(rest) && |rest| < |h|
  {
    h[1..][ResultRun(h[1..])..]
  }

  lemma BlockJoin(h: seq<Item>)
    requires h != []
    ensures h == [h[0]] + RunOf(h) + RestOf(h)
  {
  }

  lemma BlockSplit(a: Item, run: seq<Item>, rest: seq<Item>)
    requires AllResults(run) && StartsFresh(rest)
    ensures RunOf([a] + run + rest) == run && RestOf([a] + run + rest) == rest
  {
    assert ([a] + run + rest)[1..] == run + rest;
    ResultRunOfConcat(run, rest);
  }

  /** Pass 1: in the run after an assistant with calls, the last result of an id wins. */
  function Dedup(h: seq<Item>): (r: seq<Item>)
    ensures |r| <= |h|
    ensures h == [] <==> r == []
    ensures h != [] ==> r[0] == h[0]
    decreases |h|
  {
    if h == [] then []
    else if h[0].Assistant? && h[0].calls != [] then [h[0]] + KeepLast(RunOf(h)) + Dedup(RestOf(h))
    else [h[0]] + Dedup(h[1..])
  }

  /** The ids that may be answered after item `x`, when `ids` may be at `x`. */
  function NextIds(x: Item, ids: set<string>): set<string> {
    match x
    case Assistant(_, calls) => CallIds(calls)
    case ToolResult(_, _, _) => ids
    case _ => {}
  }

  predicate Displaced(x: Item, ids: set<string>) {
    x.ToolResult? && x.callId !in ids
  }

  /** Pass 2: what is left once results outside the current run are stripped;
      `ids` are the calls the current run may answer. */
  function Strip(h: seq<Item>, ids: set<string>): (r: seq<Item>)
    ensures |r| <= |h|
    ensures StartsFresh(h) ==> StartsFresh(r)
  {
    if h == [] then []
    else (if Displaced(h[0], ids) then [] else [h[0]]) + Strip(h[1..], NextIds(h[0], ids))
  }

  /** The ids pass 2 reports, in order. */
  function StrippedIds(h: seq<Item>, ids: set<string>): seq<string> {
    if h == [] then []
    else (if Displaced(h[0], ids) then [h[0].callId] else []) + StrippedIds(h[1..], NextIds(h[0], ids))
  }

  /** Pass 3: after each run, a synthetic result for every unanswered call. */
  function Backfill(h: seq<Item>): (r: seq<Item>)
    ensures |r| >= |h|
    decreases |h|
  {
    if h == [] then []
    else if h[0].Assistant? && h[0].calls != [] then
      [h[0]] + RunOf(h) + Synthesize(h[0].calls, ResultIds(RunOf(h))) + Backfill(RestOf(h))
    else [h[0]] + Backfill(h[1..])
  }

  function Repair(h: seq<Item>): seq<Item> {
    Backfill(Strip(Dedup(h), {}))
  }

  datatype Report = Report(duplicatesRemoved: nat, strippedIds: seq<string>, syntheticInserted: nat) {
    predicate Changed() {
      duplicatesRemoved > 0 || strippedIds != [] || syntheticInserted > 0
    }
  }

  function ReportOf(h: seq<Item>): Report {
    var d := Dedup(h);
    var s := Strip(d, {});
    Report(|h| - |d|, StrippedIds(d, {}), |Backfill(s)| - |s|)
  }

  // ---------------------------------------------- the passes, block by block

  lemma DedupCons(x: Item, h: seq<Item>)
    requires !x.Assistant? || x.calls == []
    ensures Dedup([x] + h) == [x] + Dedup(h)
  {
    assert ([x] + h)[1..] == h;
  }

  lemma StripCons(x: Item, h: seq<Item>, ids: set<string>)
    ensures Strip([x] + h, ids) == (if Displaced(x, ids) then [] else [x]) + Strip(h, NextIds(x, ids))
    ensures StrippedIds([x] + h, ids)
         == (if Displaced(x, ids) then [x.callId] else []) + StrippedIds(h, NextIds(x, ids))
  {
    assert ([x] + h)[1..] == h;
  }

  lemma BackfillCons(x: Item, h: seq<Item>)
    requires !x.Assistant? || x.calls == []
    ensures Backfill([x] + h) == [x] + Backfill(h)
  {
    assert ([x] + h)[1..] == h;
  }

  lemma ConsConcat<T>(run: seq<T>, rest: seq<T>)
    requires run != []
    ensures run + rest == [run[0]] + (run[1..] + rest)
    ensures run == [run[0]] + run[1..]
  {
  }

  lemma {:induction false} DedupRun(run: seq<Item>, rest: seq<Item>)
    requires AllResults(run)
    ensures Dedup(run + rest) == run + Dedup(rest)
  {
    if run == [] {
      assert run + rest == rest;
    } else {
      ConsConcat(run, rest);
      DedupCons(run[0], run[1..] + rest);
      DedupRun(run[1..], rest);
      ConsConcat(run, Dedup(rest));
    }
  }

  lemma {:induction false} StripRunKeeps(run: seq<Item>, rest: seq<Item>, ids: set<string>)
    requires AllResults(run) && StartsFresh(rest)
    ensures Strip(run + rest, ids) == KeepOwned(run, ids) + Strip(rest, {})
  {
    if run == [] {
      assert run + rest == rest;
      StripFresh(rest, ids);
    } else {
      ConsConcat(run, rest);
      StripCons(run[0], run[1..] + rest, ids);
      StripRunKeeps(run[1..], rest, ids);
      KeepOwnedCons(run, ids);
      Assoc([run[0]], KeepOwned(run[1..], ids), Strip(rest, {}));
    }
  }

  lemma {:induction false} StripRunCounts(run: seq<Item>, rest: seq<Item>, ids: set<string>)
    requires AllResults(run) && StartsFresh(rest)
    ensures |StrippedIds(run + rest, ids)| == |run| - |KeepOwned(run, ids)| + |StrippedIds(rest, {})|
  {
    if run == [] {
      assert run + rest == rest;
      StripFresh(rest, ids);
    } else {
      ConsConcat(run, rest);
      StripCons(run[0], run[1..] + rest, ids);
      StripRunCounts(run[1..], rest, ids);
      KeepOwnedCons(run, ids);
    }
  }

  lemma StripRun(run: seq<Item>, rest: seq<Item>, ids: set<string>)
    requires AllResults(run) && StartsFresh(rest)
    ensures Strip(run + rest, ids) == KeepOwned(run, ids) + Strip(rest, {})
    ensures |StrippedIds(run + rest, ids)| == |run| - |KeepOwned(run, ids)| + |StrippedIds(rest, {})|
  {
    StripRunKeeps(run, rest, ids);
    StripRunCounts(run, rest, ids);
  }

  /** What the previous run could answer does not matter to a fresh start. */
  lemma StripFresh(rest: seq<Item>, ids: set<string>)
    requires StartsFresh(rest)
    ensures Strip(rest, ids) == Strip(rest, {}) && StrippedIds(rest, ids) == StrippedIds(rest, {})
  {
    if rest != [] {
      assert NextIds(rest[0], ids) == NextIds(rest[0], {});
    }
  }

  lemma {:induction false} BackfillRun(run: seq<Item>, rest: seq<Item>)
    requires AllResults(run)
    ensures Backfill(run + rest) == run + Backfill(rest)
  {
    if run == [] {
      assert run + rest == rest;
    } else {
      ConsConcat(run, rest);
      BackfillCons(run[0], run[1..] + rest);
      BackfillRun(run[1..], rest);
      ConsConcat(run, Backfill(rest));
    }
  }

  /** The results of a run that survive passes 1 and 2. */
  function Survivors(a: Item, run: seq<Item>): (r: seq<Item>)
    requires a.Assistant? && AllResults(run)
    ensures AllResults(r)
  {
    KeepOwned(KeepLast(run), CallIds(a.calls))
  }

  function RepairedRun(a: Item, run: seq<Item>): (r: seq<Item>)
    requires a.Assistant? && AllResults(run)
    ensures AllResults(r)
  {
    Survivors(a, run) + Synthesize(a.calls, ResultIds(Survivors(a, run)))
  }

  lemma DedupBlock(a: Item, run: seq<Item>, rest: seq<Item>)
    requires a.Assistant? && AllResults(run) && StartsFresh(rest)
    ensures Dedup([a] + run + rest) == [a] + (if a.calls == [] then run else KeepLast(run)) + Dedup(rest)
  {
    if a.calls == [] {
      ConsSlice(a, run, rest);
      DedupCons(a, run + rest);
      DedupRun(run, rest);
      ConsSlice(a, run, Dedup(rest));
    } else {
      BlockSplit(a, run, rest);
    }
  }

  lemma StripBlock(a: Item, run: seq<Item>, rest: seq<Item>)
    requires a.Assistant? && AllResults(run) && StartsFresh(rest)
    ensures Strip([a] + run + rest, {}) == [a] + KeepOwned(run, CallIds(a.calls)) + Strip(rest, {})
    ensures |StrippedIds([a] + run + rest, {})| == |run| - |KeepOwned(run, CallIds(a.calls))| + |StrippedIds(rest, {})|
  {
    ConsSlice(a, run, rest);
    StripCons(a, run + rest, {});
    StripRun(run, rest, CallIds(a.calls));
    ConsSlice(a, KeepOwned(run, CallIds(a.calls)), Strip(rest, {}));
  }

  lemma BackfillBlock(a: Item, run: seq<Item>, rest: seq<Item>)
    requires a.Assistant? && AllResults(run) && StartsFresh(rest)
    ensures Backfill([a] + run + rest) == [a] + run + Synthesize(a.calls, ResultIds(run)) + Backfill(rest)
  {
    if a.calls == [] {
      ConsSlice(a, run, rest);
      BackfillCons(a, run + rest);
      BackfillRun(run, rest);
      ConsSlice(a, run, Backfill(rest));
      assert [a] + run + [] == [a] + run;
    } else {
      BlockSplit(a, run, rest);
    }
  }

  lemma ConsSlice<T>(a: T, x: seq<T>, y: seq<T>)
    ensures ([a] + x + y)[0] == a && ([a] + x + y)[1..] == x + y
    ensures [a] + (x + y) == [a] + x + y
  {
  }

  lemma {:induction false} KeepOwnedNone(run: seq<Item>)
    requires AllResults(run)
    ensures KeepOwned(run, {}) == []
  {
    if run != [] { KeepOwnedNone(run[1..]); }
  }

  /** An assistant without calls is skipped by pass 1, yet its run ends empty. */
  lemma SurvivorsOfPass1(a: Item, run: seq<Item>)
    requires a.Assistant? && AllResults(run)
    ensures KeepOwned(if a.calls == [] then run else KeepLast(run), CallIds(a.calls)) == Survivors(a, run)
  {
    if a.calls == [] {
      assert CallIds(a.calls) == {};
      KeepOwnedNone(run);
      KeepOwnedNone(KeepLast(run));
    }
  }

  lemma StrippedBlock(a: Item, run: seq<Item>, rest: seq<Item>)
    requires a.Assistant? && AllResults(run) && StartsFresh(rest)
    ensures Strip(Dedup([a] + run + rest), {}) == [a] + Survivors(a, run) + Strip(Dedup(rest), {})
  {
    DedupBlock(a, run, rest);
    StripBlock(a, if a.calls == [] then run else KeepLast(run), Dedup(rest));
    SurvivorsOfPass1(a, run);
  }

  /** The three passes agree on what a run is: composed, they rewrite each
      assistant's run on its own. Stripping never merges two runs, because what
      follows a run keeps its first, non-result item. */
  lemma RepairBlock(a: Item, run: seq<Item>, rest: seq<Item>)
    requires a.Assistant? && AllResults(run) && StartsFresh(rest)
    ensures Repair([a] + run + rest) == [a] + RepairedRun(a, run) + Repair(rest)
  {
    var s := Survivors(a, run);
    var y := Strip(Dedup(rest), {});
    StrippedBlock(a, run, rest);
    BackfillBlock(a, s, y);
    Regroup(a, s, Synthesize(a.calls, ResultIds(s)), Backfill(y));
  }

  lemma Regroup<T>(a: T, s: seq<T>, t: seq<T>, u: seq<T>)
    ensures [a] + s + t + u == [a] + (s + t) + u
  {
  }

  lemma StripOrphan(r: Item, h: seq<Item>)
    requires r.ToolResult?
    ensures Strip([r] + h, {}) == Strip(h, {})
    ensures StrippedIds([r] + h, {}) == [r.callId] + StrippedIds(h, {})
  {
    assert ([r] + h)[1..] == h;
  }

  lemma RepairOrphan(r: Item, h: seq<Item>)
    requires r.ToolResult?
    ensures Repair([r] + h) == Repair(h)
    ensures ReportOf([r] + h).Changed()
  {
    DedupCons(r, h);
    StripOrphan(r, Dedup(h));
  }

  lemma RepairOther(x: Item, h: seq<Item>)
    requires !x.ToolResult? && !x.Assistant?
    ensures Repair([x] + h) == [x] + Repair(h)
    ensures ReportOf([x] + h) == ReportOf(h)
  {
    DedupCons(x, h);
    StripCons(x, Dedup(h), {});
    BackfillCons(x, Strip(Dedup(h), {}));
  }
}
