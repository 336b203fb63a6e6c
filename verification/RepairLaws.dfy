/** What `repair_history` promises, for every history. */
module RepairLaws {
  import opened Conversation
  import opened Pairing
  import opened HistoryRepair

  /** The shape of a history, read from the front: nothing, an orphan result,
      another item, or an assistant with its run. */
  lemma HeadTail(h: seq<Item>)
    requires h != []
    ensures h == [h[0]] + h[1..]
  {
  }

  lemma {:induction false} RepairStartsFresh(h: seq<Item>)
    ensures StartsFresh(Repair(h))
    decreases |h|
  {
    if h != [] {
      HeadTail(h);
      if h[0].ToolResult? {
        RepairOrphan(h[0], h[1..]);
        RepairStartsFresh(h[1..]);
      } else if h[0].Assistant? {
        BlockJoin(h);
        RepairBlock(h[0], RunOf(h), RestOf(h));
      } else {
        RepairOther(h[0], h[1..]);
      }
    }
  }

  /** In one run the survivors answer the calls the run answered. */
  lemma SurvivorIds(a: Item, run: seq<Item>)
    requires a.Assistant? && AllResults(run)
    ensures ResultIds(Survivors(a, run)) == ResultIds(run) * CallIds(a.calls)
    ensures DistinctIds(Survivors(a, run))
  {
    KeepLastIds(run);
    KeepOwnedIds(KeepLast(run), CallIds(a.calls));
  }

  lemma DistinctConcat(x: seq<Item>, y: seq<Item>)
    requires AllResults(x) && AllResults(y)
    requires ResultIds(x) !! ResultIds(y)
    ensures DistinctIds(x + y) <==> DistinctIds(x) && DistinctIds(y)
  {
    var s := x + y;
    forall i | 0 <= i < |x| ensures x[i].callId in ResultIds(x) { assert x[i] in x; }
    forall i | 0 <= i < |y| ensures y[i].callId in ResultIds(y) { assert y[i] in y; }
    assert forall i | 0 <= i < |x| :: s[i] == x[i];
    assert forall i | 0 <= i < |y| :: s[i + |x|] == y[i];
    if DistinctIds(s) {
      forall i, j | 0 <= i < j < |y| ensures y[i].callId != y[j].callId {
        assert s[i + |x|].callId != s[j + |x|].callId;
      }
    }
    if DistinctIds(x) && DistinctIds(y) {
      forall i, j | 0 <= i < j < |s| ensures s[i].callId != s[j].callId {
        if i >= |x| {
          assert s[i] == y[i - |x|] && s[j] == y[j - |x|];
        } else if j >= |x| {
          assert s[i] == x[i] && s[j] == y[j - |x|];
        }
      }
    }
  }

  /** A rewritten run answers its calls exactly when the repeated ids of the
      assistant were answered before the repair. */
  lemma RepairedRunAnswers(a: Item, run: seq<Item>)
    requires a.Assistant? && AllResults(run)
    ensures RunAnswers(a, RepairedRun(a, run)) <==> RepeatsOnly(a.calls, ResultIds(run))
  {
    var s := Survivors(a, run);
    var t := Synthesize(a.calls, ResultIds(s));
    SurvivorIds(a, run);
    SynthesizeIds(a.calls, ResultIds(s));
    SynthesizeDistinct(a.calls, ResultIds(s));
    ResultIdsConcat(s, t);
    DistinctConcat(s, t);
    RepeatsOnlyWithin(a.calls, ResultIds(s), ResultIds(run));
  }

  lemma RepeatsOnlyWithin(calls: seq<ToolCall>, x: set<string>, y: set<string>)
    requires x == y * CallIds(calls)
    ensures RepeatsOnly(calls, x) <==> RepeatsOnly(calls, y)
  {
    forall p | 0 <= p < |calls| ensures calls[p].id in x <==> calls[p].id in y {
      assert calls[p] in calls;
    }
  }

  lemma RepeatedBlock(a: Item, run: seq<Item>)
    requires a.Assistant? && AllResults(run)
    ensures RepeatedCallsAnswered([a] + run) <==> RepeatsOnly(a.calls, ResultIds(run))
  {
    var h := [a] + run;
    assert h[0] == a;
    assert forall j | 0 < j < |h| :: h[j] == run[j - 1];
    forall p | 0 <= p < |a.calls|
      ensures IsAnswered(h, 0, a.calls[p].id) <==> a.calls[p].id in ResultIds(run)
    {
      assert a.calls[p] in a.calls;
      IsAnsweredInBlock(a, run, a.calls[p].id);
    }
  }

  /** Main result: the repaired history is strictly paired exactly when every
      id that one assistant declares twice was answered in its run. */
  lemma {:induction false} RepairPairs(h: seq<Item>)
    ensures StrictlyPaired(Repair(h)) <==> RepeatedCallsAnswered(h)
    decreases |h|
  {
    if h == [] {
    } else if h[0].ToolResult? {
      HeadTail(h);
      RepairOrphan(h[0], h[1..]);
      RepairPairs(h[1..]);
      RepeatedTail(h[0], h[1..]);
    } else if h[0].Assistant? {
      var a, run, rest := h[0], RunOf(h), RestOf(h);
      BlockJoin(h);
      RepairBlock(a, run, rest);
      RepairPairs(rest);
      RepairStartsFresh(rest);
      StrictConcat([a] + RepairedRun(a, run), Repair(rest));
      StrictBlock(a, RepairedRun(a, run));
      RepairedRunAnswers(a, run);
      RepeatedBlock(a, run);
      RepeatedConcat([a] + run, rest);
    } else {
      HeadTail(h);
      RepairOther(h[0], h[1..]);
      RepairPairs(h[1..]);
      RepairStartsFresh(h[1..]);
      StrictSingle(h[0]);
      StrictConcat([h[0]], Repair(h[1..]));
      RepeatedTail(h[0], h[1..]);
    }
  }

  /** A run that is left alone by all three passes answers its calls, and back. */
  lemma QuietRun(a: Item, run: seq<Item>)
    requires a.Assistant? && AllResults(run)
    ensures RunAnswers(a, run) <==>
            (&& (a.calls == [] || KeepLast(run) == run)
             && KeepOwned(run, CallIds(a.calls)) == run
             && Synthesize(a.calls, ResultIds(run)) == [])
  {
    KeepLastIsIdentity(run);
    KeepOwnedIds(run, CallIds(a.calls));
    SynthesizeIds(a.calls, ResultIds(run));
    if a.calls == [] {
      assert CallIds(a.calls) == {};
      KeepOwnedNone(run);
    }
  }

  /** The counts of a block are its own and those of the rest. */
  lemma BlockCounts(a: Item, run: seq<Item>, rest: seq<Item>)
    requires a.Assistant? && AllResults(run) && StartsFresh(rest)
    ensures var k := if a.calls == [] then run else KeepLast(run);
            var kept := KeepOwned(k, CallIds(a.calls));
            var x, y := ReportOf([a] + run + rest), ReportOf(rest);
            && x.duplicatesRemoved == (|run| - |k|) + y.duplicatesRemoved
            && |x.strippedIds| == (|k| - |kept|) + |y.strippedIds|
            && x.syntheticInserted == |Synthesize(a.calls, ResultIds(kept))| + y.syntheticInserted
  {
    var k := if a.calls == [] then run else KeepLast(run);
    DedupBlock(a, run, rest);
    StripBlock(a, k, Dedup(rest));
    BackfillBlock(a, KeepOwned(k, CallIds(a.calls)), Strip(Dedup(rest), {}));
  }

  /** The report of a block is quiet exactly when its run answers its calls and
      the rest is quiet. */
  lemma ReportBlock(a: Item, run: seq<Item>, rest: seq<Item>)
    requires a.Assistant? && AllResults(run) && StartsFresh(rest)
    ensures !ReportOf([a] + run + rest).Changed() <==> RunAnswers(a, run) && !ReportOf(rest).Changed()
  {
    var k := if a.calls == [] then run else KeepLast(run);
    BlockCounts(a, run, rest);
    QuietRun(a, run);
    KeepLastLength(run);
    KeepOwnedLength(k, CallIds(a.calls));
  }

  lemma {:induction false} KeepLastLength(run: seq<Item>)
    requires AllResults(run)
    ensures |KeepLast(run)| == |run| <==> KeepLast(run) == run
  {
    if run != [] {
      KeepLastLength(run[1..]);
      HeadTail(run);
    }
  }

  lemma {:induction false} KeepOwnedLength(run: seq<Item>, ids: set<string>)
    requires AllResults(run)
    ensures |KeepOwned(run, ids)| == |run| <==> KeepOwned(run, ids) == run
  {
    if run != [] {
      KeepOwnedLength(run[1..], ids);
      HeadTail(run);
    }
  }

  /** The report is all-zero exactly on the strictly paired histories. */
  lemma {:induction false} QuietReportIffPaired(h: seq<Item>)
    ensures !ReportOf(h).Changed() <==> StrictlyPaired(h)
    decreases |h|
  {
    if h == [] {
    } else if h[0].ToolResult? {
      HeadTail(h);
      RepairOrphan(h[0], h[1..]);
      OrphanNotStrict(h);
    } else if h[0].Assistant? {
      var a, run, rest := h[0], RunOf(h), RestOf(h);
      BlockJoin(h);
      ReportBlock(a, run, rest);
      QuietReportIffPaired(rest);
      StrictConcat([a] + run, rest);
      StrictBlock(a, run);
    } else {
      HeadTail(h);
      RepairOther(h[0], h[1..]);
      QuietReportIffPaired(h[1..]);
      StrictSingle(h[0]);
      if StartsFresh(h[1..]) {
        StrictConcat([h[0]], h[1..]);
      } else {
        OrphanNotStrict(h[1..]);
        OrphanAfterOther(h);
      }
    }
  }

  lemma OrphanAfterOther(h: seq<Item>)
    requires |h| >= 2 && !h[0].Assistant? && h[1].ToolResult?
    ensures !StrictlyPaired(h)
  {
    assert !HasOwner(h, 1);
  }

  lemma AnsweringRunIsFixed(a: Item, run: seq<Item>)
    requires a.Assistant? && AllResults(run) && RunAnswers(a, run)
    ensures RepairedRun(a, run) == run
  {
    QuietRun(a, run);
    SurvivorsOfPass1(a, run);
  }

  /** A strictly paired history is returned as it is. */
  lemma {:induction false} PairedIsFixed(h: seq<Item>)
    requires StrictlyPaired(h)
    ensures Repair(h) == h
    decreases |h|
  {
    if h == [] {
    } else if h[0].ToolResult? {
      OrphanNotStrict(h);
    } else if h[0].Assistant? {
      var a, run, rest := h[0], RunOf(h), RestOf(h);
      BlockJoin(h);
      RepairBlock(a, run, rest);
      StrictConcat([a] + run, rest);
      StrictBlock(a, run);
      AnsweringRunIsFixed(a, run);
      PairedIsFixed(rest);
    } else {
      HeadTail(h);
      if StartsFresh(h[1..]) {
        StrictConcat([h[0]], h[1..]);
        RepairOther(h[0], h[1..]);
        PairedIsFixed(h[1..]);
      } else {
        OrphanAfterOther(h);
      }
    }
  }

  /** Whatever the input, the repaired history answers its repeated ids. */
  lemma {:induction false} RepairAnswersRepeats(h: seq<Item>)
    ensures RepeatedCallsAnswered(Repair(h))
    decreases |h|
  {
    if h == [] {
    } else if h[0].ToolResult? {
      HeadTail(h);
      RepairOrphan(h[0], h[1..]);
      RepairAnswersRepeats(h[1..]);
    } else if h[0].Assistant? {
      var a, run, rest := h[0], RunOf(h), RestOf(h);
      BlockJoin(h);
      RepairBlock(a, run, rest);
      RepairAnswersRepeats(rest);
      RepairStartsFresh(rest);
      RepairedRunCovers(a, run);
      RepeatedBlock(a, RepairedRun(a, run));
      RepeatedConcat([a] + RepairedRun(a, run), Repair(rest));
    } else {
      HeadTail(h);
      RepairOther(h[0], h[1..]);
      RepairAnswersRepeats(h[1..]);
      RepeatedTail(h[0], Repair(h[1..]));
    }
  }

  lemma RepairedRunCovers(a: Item, run: seq<Item>)
    requires a.Assistant? && AllResults(run)
    ensures CallIds(a.calls) == ResultIds(RepairedRun(a, run))
    ensures RepeatsOnly(a.calls, ResultIds(RepairedRun(a, run)))
  {
    var s := Survivors(a, run);
    SurvivorIds(a, run);
    SynthesizeIds(a.calls, ResultIds(s));
    ResultIdsConcat(s, Synthesize(a.calls, ResultIds(s)));
    forall p | 0 <= p < |a.calls| ensures a.calls[p].id in CallIds(a.calls) { assert a.calls[p] in a.calls; }
  }

  /** Main result: the second run is quiet, and changes nothing, exactly under
      the same condition; and a third run never changes anything. */
  lemma RepairIdempotent(h: seq<Item>)
    ensures !ReportOf(Repair(h)).Changed() <==> RepeatedCallsAnswered(h)
    ensures Repair(Repair(h)) == Repair(h) <==> RepeatedCallsAnswered(h)
    ensures StrictlyPaired(Repair(Repair(h)))
    ensures Repair(Repair(Repair(h))) == Repair(Repair(h))
  {
    var g := Repair(h);
    RepairPairs(h);
    QuietReportIffPaired(g);
    RepairAnswersRepeats(h);
    RepairPairs(g);
    PairedIsFixed(Repair(g));
    if StrictlyPaired(g) { PairedIsFixed(g); }
  }

  /** `changed()` is honest: it is set exactly when the history was rewritten. */
  lemma ChangedIsHonest(h: seq<Item>)
    ensures ReportOf(h).Changed() <==> Repair(h) != h
  {
    QuietReportIffPaired(h);
    if StrictlyPaired(h) {
      PairedIsFixed(h);
    } else if Repair(h) == h {
      RepairIdempotent(h);
      assert false;
    }
  }

  /** An assistant that declares one id twice and has no result for it: the
      repair backfills it twice, so a second repair still changes the history. */
  lemma RepeatedCallWitness(c: ToolCall, text: string)
    ensures var h := [Assistant(text, [c, c])];
            Repair(Repair(h)) != Repair(h) && ReportOf(Repair(h)).Changed()
  {
    var h := [Assistant(text, [c, c])];
    assert h[0].calls[0].id == h[0].calls[1].id;
    assert !IsAnswered(h, 0, c.id);
    RepairIdempotent(h);
  }

  function NonResults(h: seq<Item>): seq<Item> {
    if h == [] then []
    else (if h[0].ToolResult? then [] else [h[0]]) + NonResults(h[1..])
  }

  lemma {:induction false} NonResultsConcat(x: seq<Item>, y: seq<Item>)
    ensures NonResults(x + y) == NonResults(x) + NonResults(y)
  {
    if x == [] {
      assert x + y == y;
    } else {
      assert (x + y)[1..] == x[1..] + y;
      NonResultsConcat(x[1..], y);
    }
  }

  lemma {:induction false} NonResultsOfRun(run: seq<Item>)
    requires AllResults(run)
    ensures NonResults(run) == []
  {
    if run != [] { NonResultsOfRun(run[1..]); }
  }

  /** Repair touches tool results only: every other item stays, in order. */
  lemma {:induction false} RepairKeepsOthers(h: seq<Item>)
    ensures NonResults(Repair(h)) == NonResults(h)
    decreases |h|
  {
    if h == [] {
    } else if h[0].ToolResult? {
      HeadTail(h);
      RepairOrphan(h[0], h[1..]);
      RepairKeepsOthers(h[1..]);
    } else if h[0].Assistant? {
      var a, run, rest := h[0], RunOf(h), RestOf(h);
      BlockJoin(h);
      RepairBlock(a, run, rest);
      RepairKeepsOthers(rest);
      NonResultsBlock(a, run, rest);
      NonResultsBlock(a, RepairedRun(a, run), Repair(rest));
    } else {
      HeadTail(h);
      RepairOther(h[0], h[1..]);
      RepairKeepsOthers(h[1..]);
      assert ([h[0]] + Repair(h[1..]))[1..] == Repair(h[1..]);
    }
  }

  lemma NonResultsBlock(a: Item, run: seq<Item>, rest: seq<Item>)
    requires a.Assistant? && AllResults(run)
    ensures NonResults([a] + run + rest) == [a] + NonResults(rest)
  {
    NonResultsConcat([a] + run, rest);
    NonResultsConcat([a], run);
    NonResultsOfRun(run);
  }

  /** The result at `i` is the last one in the run of its owner for its id. */
  ghost predicate LastAnswer(h: seq<Item>, k: int, i: int) {
    Owns(h, k, i) && forall j | Owns(h, k, j) && h[j].callId == h[i].callId :: j <= i
  }

  lemma {:induction false} LastInRunSurvives(run: seq<Item>, i: nat, ids: set<string>)
    requires AllResults(run) && i < |run| && run[i].callId in ids
    requires forall j | i < j < |run| :: run[j].callId != run[i].callId
    ensures run[i] in KeepOwned(KeepLast(run), ids)
  {
    if i == 0 {
      assert KeepLast(run) == [run[0]] + KeepLast(run[1..]);
    } else {
      LastInRunSurvives(run[1..], i - 1, ids);
      if run[0].callId !in ResultIds(run[1..]) {
        assert ([run[0]] + KeepLast(run[1..]))[1..] == KeepLast(run[1..]);
      }
    }
  }

  /** `h[k]` still owns `h[i]` somewhere in `g`. */
  ghost predicate StillOwns(g: seq<Item>, owner: Item, answer: Item) {
    exists k, i :: Owns(g, k, i) && g[k] == owner && g[i] == answer
  }

  lemma StillOwnsConcat(x: seq<Item>, y: seq<Item>, owner: Item, answer: Item)
    requires StartsFresh(y)
    requires StillOwns(x, owner, answer) || StillOwns(y, owner, answer)
    ensures StillOwns(x + y, owner, answer)
  {
    if StillOwns(x, owner, answer) {
      var k, i :| Owns(x, k, i) && x[k] == owner && x[i] == answer;
      OwnsConcat(x, y, k, i);
      assert (x + y)[k] == owner && (x + y)[i] == answer;
    } else {
      var k, i :| Owns(y, k, i) && y[k] == owner && y[i] == answer;
      OwnsConcat(x, y, k + |x|, i + |x|);
      assert (x + y)[k + |x|] == owner && (x + y)[i + |x|] == answer;
    }
  }

  lemma LastAnswerTail(x: Item, h: seq<Item>, k: int, i: int)
    requires !x.Assistant? && LastAnswer([x] + h, k, i)
    ensures LastAnswer(h, k - 1, i - 1)
  {
    OwnsTail(x, h, k, i);
    forall j | Owns(h, k - 1, j) && h[j].callId == h[i - 1].callId ensures j <= i - 1 {
      OwnsTail(x, h, k, j + 1);
    }
  }

  /** Every call that was answered keeps its last real answer: the result is
      still owned by the same assistant item after the repair. */
  lemma {:induction false} LastAnswersSurvive(h: seq<Item>, k: int, i: int)
    requires LastAnswer(h, k, i)
    ensures StillOwns(Repair(h), h[k], h[i])
    decreases |h|, 1
  {
    if h[0].Assistant? {
      BlockJoin(h);
      LastAnswersSurviveBlock(h[0], RunOf(h), RestOf(h), k, i);
      RepairBlock(h[0], RunOf(h), RestOf(h));
    } else {
      var y := Repair(h[1..]);
      HeadTail(h);
      LastAnswerTail(h[0], h[1..], k, i);
      LastAnswersSurvive(h[1..], k - 1, i - 1);
      if h[0].ToolResult? {
        RepairOrphan(h[0], h[1..]);
      } else {
        RepairOther(h[0], h[1..]);
        RepairStartsFresh(h[1..]);
        StillOwnsConcat([h[0]], y, h[k], h[i]);
      }
    }
  }

  lemma {:induction false} LastAnswersSurviveBlock(a: Item, run: seq<Item>, rest: seq<Item>, k: int, i: int)
    requires a.Assistant? && AllResults(run) && StartsFresh(rest)
    requires LastAnswer([a] + run + rest, k, i)
    ensures StillOwns([a] + RepairedRun(a, run) + Repair(rest), ([a] + run + rest)[k], ([a] + run + rest)[i])
    decreases 1 + |run| + |rest|, 0
  {
    var b := [a] + run;
    var h := b + rest;
    var owner, answer := h[k], h[i];
    LastAnswerConcat(b, rest, k, i);
    OwnsConcat(b, rest, k, i);
    if Owns(b, k, i) {
      assert b[k] == owner && b[i] == answer;
      BlockLastAnswer(a, run, k, i);
    } else {
      assert rest[k - |b|] == owner && rest[i - |b|] == answer;
      LastAnswersSurvive(rest, k - |b|, i - |b|);
    }
    RepairStartsFresh(rest);
    StillOwnsConcat([a] + RepairedRun(a, run), Repair(rest), owner, answer);
  }

  lemma LastAnswerConcat(x: seq<Item>, y: seq<Item>, k: int, i: int)
    requires StartsFresh(y) && LastAnswer(x + y, k, i)
    ensures LastAnswer(x, k, i) || LastAnswer(y, k - |x|, i - |x|)
    ensures Owns(x, k, i) ==> LastAnswer(x, k, i)
  {
    var h := x + y;
    OwnsConcat(x, y, k, i);
    if Owns(x, k, i) {
      forall j | Owns(x, k, j) && x[j].callId == x[i].callId ensures j <= i {
        OwnsConcat(x, y, k, j);
      }
    } else {
      forall j | Owns(y, k - |x|, j) && y[j].callId == y[i - |x|].callId ensures j <= i - |x| {
        OwnsConcat(x, y, k, j + |x|);
        assert h[j + |x|] == y[j];
      }
    }
  }

  lemma BlockLastAnswer(a: Item, run: seq<Item>, k: int, i: int)
    requires a.Assistant? && AllResults(run) && LastAnswer([a] + run, k, i)
    ensures StillOwns([a] + RepairedRun(a, run), ([a] + run)[k], ([a] + run)[i])
  {
    OwnsInBlock(a, run, k, i);
    forall j | i - 1 < j < |run| ensures run[j].callId != run[i - 1].callId {
      OwnsInBlock(a, run, 0, j + 1);
    }
    LastInRunSurvives(run, i - 1, CallIds(a.calls));
    assert run[i - 1] in RepairedRun(a, run);
    MemberIsOwned(a, RepairedRun(a, run), run[i - 1]);
  }

  lemma MemberIsOwned(a: Item, run: seq<Item>, answer: Item)
    requires a.Assistant? && AllResults(run)
    requires answer in run && answer.ToolResult? && answer.callId in CallIds(a.calls)
    ensures StillOwns([a] + run, a, answer)
  {
    var j :| 0 <= j < |run| && run[j] == answer;
    OwnsInBlock(a, run, 0, j + 1);
    assert ([a] + run)[0] == a && ([a] + run)[j + 1] == answer;
  }
}
