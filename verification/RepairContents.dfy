/** What is in a repaired history, position by position: which results each pass keeps
    and reports, and what it inserts. */
module RepairContents {
  import opened Sequences
  import opened Conversation
  import opened Pairing
  import opened HistoryRepair
  import opened RepairLaws
  import opened Sanitizer

  // ----------------------------------------------------------- stripped results

  /** The id at each position; only those of results matter. */
  function IdAt(x: Item): string { if x.ToolResult? then x.callId else "" }

  function IdsAt(h: seq<Item>): (ids: seq<string>)
    ensures |ids| == |h| && forall i | 0 <= i < |h| :: ids[i] == IdAt(h[i])
  {
    seq(|h|, i requires 0 <= i < |h| => IdAt(h[i]))
  }

  /** The ids that a result at `j` may answer. */
  function OwnedAt(h: seq<Item>, j: nat): set<string>
    requires j <= |h|
  {
    if j == 0 then {} else NextIds(h[j - 1], OwnedAt(h, j - 1))
  }

  lemma {:induction false} OwnedAtIsOwned(h: seq<Item>, j: nat, id: string)
    requires j <= |h|
    ensures id in OwnedAt(h, j) <==>
            exists k | 0 <= k < j :: h[k].Assistant? && id in CallIds(h[k].calls) && forall m | k < m < j :: h[m].ToolResult?
    decreases j
  {
    if j > 0 {
      OwnedAtIsOwned(h, j - 1, id);
    }
  }

  ghost function Orphans(h: seq<Item>): set<nat> {
    set i: nat | i < |h| && h[i].ToolResult? && !HasOwner(h, i)
  }

  ghost function Owned(h: seq<Item>): set<nat> {
    set i: nat | i < |h| && (h[i].ToolResult? ==> HasOwner(h, i))
  }

  lemma DisplacedIsOrphan(h: seq<Item>, j: nat)
    requires j < |h|
    ensures Displaced(h[j], OwnedAt(h, j)) <==> j in Orphans(h)
    ensures j in Owned(h) <==> j !in Orphans(h)
  {
    if h[j].ToolResult? {
      OwnedAtIsOwned(h, j, h[j].callId);
      if h[j].callId in OwnedAt(h, j) {
        var k :| 0 <= k < j && h[k].Assistant? && h[j].callId in CallIds(h[k].calls) && forall m | k < m < j :: h[m].ToolResult?;
        assert Owns(h, k, j);
      }
    }
  }

  lemma {:induction false} StripFrom(h: seq<Item>, j: nat) returns (at: seq<nat>, bt: seq<nat>)
    requires j <= |h|
    ensures Picks(Strip(h[j..], OwnedAt(h, j)), h, at, j, |h|, Owned(h))
    ensures Picks(StrippedIds(h[j..], OwnedAt(h, j)), IdsAt(h), bt, j, |h|, Orphans(h))
    decreases |h| - j
  {
    if j == |h| {
      at, bt := [], [];
      PickNothing(h, j, Owned(h));
      PickNothing(IdsAt(h), j, Orphans(h));
    } else {
      var ids := OwnedAt(h, j + 1);
      var a, b := StripFrom(h, j + 1);
      at := PickFront(Strip(h[j + 1..], ids), h, a, j, |h|, Owned(h));
      bt := PickFront(StrippedIds(h[j + 1..], ids), IdsAt(h), b, j, |h|, Orphans(h));
      DisplacedIsOrphan(h, j);
      assert h[j..][0] == h[j] && h[j..][1..] == h[j + 1..];
    }
  }

  /** Main result: the second pass keeps, in order, exactly the items that are no result
      without an owner in whose run they stand, and reports the ids of those, in order. */
  lemma StripRemovesOrphans(h: seq<Item>) returns (at: seq<nat>, bt: seq<nat>)
    ensures Picks(Strip(h, {}), h, at, 0, |h|, Owned(h))
    ensures Picks(StrippedIds(h, {}), IdsAt(h), bt, 0, |h|, Orphans(h))
  {
    at, bt := StripFrom(h, 0);
    assert h[0..] == h;
  }

  // ---------------------------------------------------------- duplicate results

  /** Some later result of the same run, after an assistant with calls, has the id. */
  ghost predicate IsSuperseded(h: seq<Item>, i: nat) {
    exists k, j :: Supersedes(h, k, i, j)
  }

  ghost predicate Supersedes(h: seq<Item>, k: int, i: nat, j: int) {
    && 0 <= k < i < j < |h|
    && h[k].Assistant? && h[k].calls != []
    && (forall m | k < m <= j :: h[m].ToolResult?)
    && h[j].callId == h[i].callId
  }

  ghost function Kept(h: seq<Item>): set<nat> {
    set i: nat | i < |h| && !IsSuperseded(h, i)
  }

  /** In the run from `lo` to `hi` a result is kept exactly when its id does not come
      again. */
  lemma RunKept(h: seq<Item>, k: nat, lo: nat, hi: nat)
    requires k < lo <= hi <= |h| && h[k].Assistant? && h[k].calls != []
    requires (forall m | k < m < hi :: h[m].ToolResult?) && (hi < |h| ==> !h[hi].ToolResult?)
    ensures forall i: nat | lo <= i < hi :: i in Kept(h) <==> h[i].callId !in ResultIds(h[i + 1..hi])
  {
    forall i: nat | lo <= i < hi ensures i in Kept(h) <==> h[i].callId !in ResultIds(h[i + 1..hi]) {
      if h[i].callId in ResultIds(h[i + 1..hi]) {
        var r :| r in h[i + 1..hi] && r.ToolResult? && r.callId == h[i].callId;
        var j :| 0 <= j < hi - i - 1 && h[i + 1..hi][j] == r;
        assert Supersedes(h, k, i, i + 1 + j);
      }
      forall k', j | Supersedes(h, k', i, j) ensures h[i].callId in ResultIds(h[i + 1..hi]) {
        assert h[j] == h[i + 1..hi][j - i - 1];
      }
    }
  }

  /** Outside such a run nothing is superseded. */
  lemma OtherKept(h: seq<Item>, i: nat)
    requires i < |h|
    requires !h[i].ToolResult? || !(exists k | 0 <= k < i :: h[k].Assistant? && h[k].calls != [] && forall m | k < m < i :: h[m].ToolResult?)
    ensures i in Kept(h)
  {
  }

  lemma {:induction false} KeepLastFrom(h: seq<Item>, lo: nat, hi: nat, keep: set<nat>) returns (at: seq<nat>)
    requires lo <= hi <= |h| && AllResults(h[lo..hi])
    requires forall i: nat | lo <= i < hi :: i in keep <==> h[i].callId !in ResultIds(h[i + 1..hi])
    ensures Picks(KeepLast(h[lo..hi]), h, at, lo, hi, keep)
    decreases hi - lo
  {
    if lo == hi {
      at := [];
      PickNothing(h, hi, keep);
    } else {
      assert h[lo..hi][1..] == h[lo + 1..hi];
      var a := KeepLastFrom(h, lo + 1, hi, keep);
      at := PickFront(KeepLast(h[lo + 1..hi]), h, a, lo, hi, keep);
      assert [] + KeepLast(h[lo + 1..hi]) == KeepLast(h[lo + 1..hi]);
    }
  }

  /** Position `j` is not inside a run that the first pass looks at as a whole. */
  ghost predicate IsCut(h: seq<Item>, j: nat) {
    j < |h| && h[j].ToolResult? ==>
      !(exists k | 0 <= k < j :: h[k].Assistant? && h[k].calls != [] && forall m | k < m < j :: h[m].ToolResult?)
  }

  lemma BlockEnds(h: seq<Item>, j: nat) returns (end: nat)
    requires j < |h|
    ensures j < end <= |h| && RunOf(h[j..]) == h[j + 1..end] && RestOf(h[j..]) == h[end..]
    ensures AllResults(h[j + 1..end]) && (end < |h| ==> !h[end].ToolResult?)
    ensures forall m | j < m < end :: h[m].ToolResult?
  {
    var n := ResultRun(h[j + 1..]);
    end := j + 1 + n;
    assert h[j..][1..] == h[j + 1..];
    assert h[j + 1..][..n] == h[j + 1..end] && h[j + 1..][n..] == h[end..];
    assert end < |h| ==> h[end..][0] == h[end];
    assert forall m | j < m < end :: h[m] == h[j + 1..end][m - j - 1];
  }

  lemma {:induction false} DedupFrom(h: seq<Item>, j: nat) returns (at: seq<nat>)
    requires j <= |h| && IsCut(h, j)
    ensures Picks(Dedup(h[j..]), h, at, j, |h|, Kept(h))
    decreases |h| - j
  {
    if j == |h| {
      at := [];
      PickNothing(h, j, Kept(h));
    } else if h[j].Assistant? && h[j].calls != [] {
      var end := BlockEnds(h, j);
      FreshIsCut(h, end);
      var b := DedupFrom(h, end);
      RunKept(h, j, j + 1, end);
      OtherKept(h, j);
      at := DedupWindow(h, j, end, b, Kept(h));
    } else {
      CutGoesOn(h, j);
      OtherKept(h, j);
      var b := DedupFrom(h, j + 1);
      at := DedupItem(h, j, b, Kept(h));
    }
  }

  lemma DedupWindow(h: seq<Item>, j: nat, end: nat, b: seq<nat>, keep: set<nat>) returns (at: seq<nat>)
    requires j < end <= |h| && h[j].Assistant? && h[j].calls != [] && j in keep
    requires AllResults(h[j + 1..end]) && RunOf(h[j..]) == h[j + 1..end] && RestOf(h[j..]) == h[end..]
    requires forall i: nat | j < i < end :: h[i].ToolResult? && (i in keep <==> h[i].callId !in ResultIds(h[i + 1..end]))
    requires Picks(Dedup(h[end..]), h, b, end, |h|, keep)
    ensures Picks(Dedup(h[j..]), h, at, j, |h|, keep)
  {
    var run, rest := KeepLast(h[j + 1..end]), Dedup(h[end..]);
    var a := KeepLastFrom(h, j + 1, end, keep);
    PickJoin(run, rest, h, a, b, j + 1, end, |h|, keep);
    at := PickFront(run + rest, h, a + b, j, |h|, keep);
    Assoc([h[j]], run, rest);
    assert h[j..][0] == h[j];
  }

  lemma DedupItem(h: seq<Item>, j: nat, b: seq<nat>, keep: set<nat>) returns (at: seq<nat>)
    requires j < |h| && !(h[j].Assistant? && h[j].calls != []) && j in keep
    requires Picks(Dedup(h[j + 1..]), h, b, j + 1, |h|, keep)
    ensures Picks(Dedup(h[j..]), h, at, j, |h|, keep)
  {
    at := PickFront(Dedup(h[j + 1..]), h, b, j, |h|, keep);
    assert h[j..][0] == h[j] && h[j..][1..] == h[j + 1..];
  }

  lemma FreshIsCut(h: seq<Item>, j: nat)
    requires j < |h| ==> !h[j].ToolResult?
    ensures IsCut(h, j)
  {
  }

  lemma CutGoesOn(h: seq<Item>, j: nat)
    requires j < |h| && IsCut(h, j) && !(h[j].Assistant? && h[j].calls != [])
    ensures IsCut(h, j + 1)
  {
  }

  /** Main result: the first pass keeps, in order, exactly the items that no later result
      of the same run supersedes. */
  lemma DedupRemovesSuperseded(h: seq<Item>) returns (at: seq<nat>)
    ensures Picks(Dedup(h), h, at, 0, |h|, Kept(h))
  {
    at := DedupFrom(h, 0);
    assert h[0..] == h;
  }

  // ---------------------------------------------------------- inserted results

  /** What is inserted for a call that has no answer. */
  function Halted(call: ToolCall): Item {
    ToolResult(call.id, "Tool execution was halted by the harness (history_repair); the tool `" + call.name + "` was not executed.", [])
  }

  function HaltedEach(calls: seq<ToolCall>): (r: seq<Item>)
    ensures |r| == |calls| && forall i | 0 <= i < |calls| :: r[i] == Halted(calls[i])
  {
    seq(|calls|, i requires 0 <= i < |calls| => Halted(calls[i]))
  }

  function Unanswered(calls: seq<ToolCall>, answered: set<string>): set<nat> {
    set i: nat | i < |calls| && calls[i].id !in answered
  }

  lemma {:induction false} SynthesizeFrom(calls: seq<ToolCall>, answered: set<string>, j: nat) returns (at: seq<nat>)
    requires j <= |calls|
    ensures Picks(Synthesize(calls[j..], answered), HaltedEach(calls), at, j, |calls|, Unanswered(calls, answered))
    decreases |calls| - j
  {
    if j == |calls| {
      at := [];
      PickNothing(HaltedEach(calls), j, Unanswered(calls, answered));
    } else {
      var a := SynthesizeFrom(calls, answered, j + 1);
      at := PickFront(Synthesize(calls[j + 1..], answered), HaltedEach(calls), a, j, |calls|, Unanswered(calls, answered));
      assert calls[j..][0] == calls[j] && calls[j..][1..] == calls[j + 1..];
    }
  }

  /** The positions of a run that survive: a declared id, and its last result. */
  ghost function LastAnswers(run: seq<Item>, ids: set<string>): set<nat>
    requires AllResults(run)
  {
    set i: nat | i < |run| && run[i].callId in ids && forall j | i < j < |run| :: run[j].callId != run[i].callId
  }

  lemma NotListedIsLast(run: seq<Item>, i: nat)
    requires AllResults(run) && i < |run|
    ensures AllResults(run[i + 1..])
    ensures run[i].callId !in ResultIds(run[i + 1..]) <==> forall j | i < j < |run| :: run[j].callId != run[i].callId
  {
    forall j | i < j < |run| ensures run[j].callId in ResultIds(run[i + 1..]) {
      assert run[i + 1..][j - i - 1] == run[j];
    }
    if run[i].callId in ResultIds(run[i + 1..]) {
      var r :| r in run[i + 1..] && r.ToolResult? && r.callId == run[i].callId;
      var j :| 0 <= j < |run| - i - 1 && run[i + 1..][j] == r;
      assert run[i + 1 + j] == r;
    }
  }

  lemma {:induction false} SurvivorsFrom(run: seq<Item>, ids: set<string>, lo: nat) returns (at: seq<nat>)
    requires AllResults(run) && lo <= |run|
    ensures AllResults(run[lo..])
    ensures Picks(KeepOwned(KeepLast(run[lo..]), ids), run, at, lo, |run|, LastAnswers(run, ids))
    decreases |run| - lo
  {
    if lo == |run| {
      at := [];
      PickNothing(run, lo, LastAnswers(run, ids));
    } else {
      var a := SurvivorsFrom(run, ids, lo + 1);
      var rest := KeepLast(run[lo + 1..]);
      at := PickFront(KeepOwned(rest, ids), run, a, lo, |run|, LastAnswers(run, ids));
      NotListedIsLast(run, lo);
      assert run[lo..][0] == run[lo] && run[lo..][1..] == run[lo + 1..];
      assert ([run[lo]] + rest)[1..] == rest && [] + KeepOwned(rest, ids) == KeepOwned(rest, ids);
    }
  }

  /** Main result: repair rewrites the run of an assistant into the last answer to each
      of its calls, in their order, followed by a halted result, in call order, for each
      call without one. */
  lemma RepairedBlockHolds(a: Item, run: seq<Item>, rest: seq<Item>)
    returns (x: seq<Item>, at: seq<nat>, y: seq<Item>, bt: seq<nat>)
    requires a.Assistant? && AllResults(run) && StartsFresh(rest)
    ensures Repair([a] + run + rest) == [a] + x + y + Repair(rest)
    ensures Picks(x, run, at, 0, |run|, LastAnswers(run, CallIds(a.calls)))
    ensures Picks(y, HaltedEach(a.calls), bt, 0, |a.calls|, Unanswered(a.calls, ResultIds(run)))
  {
    RepairBlock(a, run, rest);
    x := Survivors(a, run);
    at := SurvivorsFrom(run, CallIds(a.calls), 0);
    assert run[0..] == run;
    y := Synthesize(a.calls, ResultIds(x));
    SurvivorIds(a, run);
    UnansweredWithin(a.calls, ResultIds(x), ResultIds(run));
    bt := SynthesizeFrom(a.calls, ResultIds(x), 0);
    assert a.calls[0..] == a.calls;
    Regroup(a, x, y, Repair(rest));
  }

  lemma UnansweredWithin(calls: seq<ToolCall>, x: set<string>, y: set<string>)
    requires x == y * CallIds(calls)
    ensures Unanswered(calls, x) == Unanswered(calls, y)
  {
    forall i: nat | i < |calls| ensures calls[i].id in x <==> calls[i].id in y {
      assert calls[i] in calls;
    }
  }

  // ---------------------------------------------------------------- the report

  ghost function Superseded(h: seq<Item>): set<nat> {
    set i: nat | i < |h| && IsSuperseded(h, i)
  }

  lemma KeptAndSuperseded(h: seq<Item>)
    ensures |Kept(h)| + |Superseded(h)| == |h|
  {
    assert Upto(|h|) == Kept(h) + Superseded(h);
    assert Kept(h) * Superseded(h) == {};
  }

  /** Main result: the report counts the superseded results, names the orphans among the
      rest, and accounts for the length of the repaired history. */
  lemma ReportCounts(h: seq<Item>)
    ensures var report := ReportOf(h);
            && report.duplicatesRemoved == |Superseded(h)|
            && |report.strippedIds| == |Orphans(Dedup(h))|
            && |Repair(h)| + report.duplicatesRemoved + |report.strippedIds| == |h| + report.syntheticInserted
  {
    var d := Dedup(h);
    var kt := DedupRemovesSuperseded(h);
    PicksSize(d, h, kt, Kept(h));
    KeptAndSuperseded(h);
    var at, bt := StripRemovesOrphans(d);
    PicksSize(StrippedIds(d, {}), IdsAt(d), bt, Orphans(d));
    StripLength(d, {});
  }

  lemma {:induction false} StripLength(h: seq<Item>, ids: set<string>)
    ensures |Strip(h, ids)| + |StrippedIds(h, ids)| == |h|
  {
    if h != [] { StripLength(h[1..], NextIds(h[0], ids)); }
  }

  // ------------------------------------------------------------- the sanitizer

  function SeenAt(h: seq<Item>, j: nat): set<string>
    requires j <= |h|
  {
    if j == 0 then {} else SeenAt(h, j - 1) + Declared(h[j - 1])
  }

  lemma {:induction false} SeenIsDeclared(h: seq<Item>, j: nat, id: string)
    requires j <= |h|
    ensures id in SeenAt(h, j) <==> exists k | 0 <= k < j :: h[k].Assistant? && id in CallIds(h[k].calls)
    decreases j
  {
    if j > 0 { SeenIsDeclared(h, j - 1, id); }
  }

  ghost function Undeclared(h: seq<Item>): set<nat> {
    set i: nat | i < |h| && h[i].ToolResult? && !exists k :: Declares(h, k, i)
  }

  ghost function DeclaredOrOther(h: seq<Item>): set<nat> {
    set i: nat | i < |h| && (h[i].ToolResult? ==> exists k :: Declares(h, k, i))
  }

  lemma UnmatchedIsUndeclared(h: seq<Item>, j: nat)
    requires j < |h|
    ensures Unmatched(h[j], SeenAt(h, j)) <==> j in Undeclared(h)
    ensures j in DeclaredOrOther(h) <==> j !in Undeclared(h)
  {
    if h[j].ToolResult? {
      SeenIsDeclared(h, j, h[j].callId);
      if h[j].callId in SeenAt(h, j) {
        var k :| 0 <= k < j && h[k].Assistant? && h[j].callId in CallIds(h[k].calls);
        assert Declares(h, k, j);
      }
    }
  }

  lemma {:induction false} SanitizeFrom(h: seq<Item>, j: nat) returns (at: seq<nat>, bt: seq<nat>)
    requires j <= |h|
    ensures Picks(Sanitized(h[j..], SeenAt(h, j)), h, at, j, |h|, DeclaredOrOther(h))
    ensures Picks(Unowned(h[j..], SeenAt(h, j)), IdsAt(h), bt, j, |h|, Undeclared(h))
    decreases |h| - j
  {
    if j == |h| {
      at, bt := [], [];
      PickNothing(h, j, DeclaredOrOther(h));
      PickNothing(IdsAt(h), j, Undeclared(h));
    } else {
      var seen := SeenAt(h, j + 1);
      var a, b := SanitizeFrom(h, j + 1);
      at := PickFront(Sanitized(h[j + 1..], seen), h, a, j, |h|, DeclaredOrOther(h));
      bt := PickFront(Unowned(h[j + 1..], seen), IdsAt(h), b, j, |h|, Undeclared(h));
      UnmatchedIsUndeclared(h, j);
      assert h[j..][0] == h[j] && h[j..][1..] == h[j + 1..];
    }
  }

  /** Main result: the sanitizer keeps, in order, exactly the items that are no result
      without a declaring call before it, and reports the ids of those, in order. */
  lemma SanitizerRemovesUndeclared(h: seq<Item>) returns (at: seq<nat>, bt: seq<nat>)
    ensures Picks(Sanitized(h, {}), h, at, 0, |h|, DeclaredOrOther(h))
    ensures Picks(Unowned(h, {}), IdsAt(h), bt, 0, |h|, Undeclared(h))
  {
    at, bt := SanitizeFrom(h, 0);
    assert h[0..] == h;
  }
}
