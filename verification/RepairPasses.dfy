/** The repair passes as the program runs them, proved against `HistoryRepair`.
    A history passed by mutable reference is an in-parameter and an out-parameter. */
module RepairPasses {
  import opened Sequences
  import opened Conversation
  import opened Pairing
  import opened HistoryRepair

  // ------------------------------------------------- duplicate tool results

  function IdsOf(run: seq<Item>): (ids: seq<string>)
    requires AllResults(run)
    ensures |ids| == |run|
    ensures forall i | 0 <= i < |run| :: ids[i] == run[i].callId
  {
    seq(|run|, i requires 0 <= i < |run| => run[i].callId)
  }

  /** The positions whose id occurs again later. */
  ghost predicate IsStale(ids: seq<string>, x: nat, hi: nat)
    requires hi <= |ids|
  {
    x < hi && ids[x] in ids[x + 1..hi]
  }

  lemma StaleStep(ids: seq<string>, x: nat, hi: nat)
    requires hi < |ids|
    ensures IsStale(ids, x, hi + 1) <==> IsStale(ids, x, hi) || (x < hi && ids[x] == ids[hi])
  {
    if x < hi {
      assert ids[x + 1..hi + 1] == ids[x + 1..hi] + [ids[hi]];
    }
  }

  /** `last` is where `id` was seen most recently below `hi`. */
  ghost predicate LastSeen(ids: seq<string>, id: string, last: nat, hi: nat) {
    last < hi <= |ids| && ids[last] == id && id !in ids[last + 1..hi]
  }

  lemma LastSeenStep(ids: seq<string>, id: string, last: nat, hi: nat)
    requires hi < |ids| && LastSeen(ids, id, last, hi)
    ensures id != ids[hi] ==> LastSeen(ids, id, last, hi + 1)
    ensures forall x: nat | x < hi && ids[x] == id :: x == last || IsStale(ids, x, hi)
  {
    assert ids[last + 1..hi + 1] == ids[last + 1..hi] + [ids[hi]];
    forall x: nat | x < hi && ids[x] == id && x != last ensures IsStale(ids, x, hi) {
      assert ids[x + 1..hi][last - x - 1] == id;
    }
  }

  /** What the scan knows after the first `idx` results. */
  ghost predicate Scanned(ids: seq<string>, idx: nat, seen: map<string, nat>, toRemove: set<nat>) {
    && idx <= |ids|
    && (forall j | 0 <= j < idx :: ids[j] in seen)
    && (forall id | id in seen :: LastSeen(ids, id, seen[id], idx))
    && (forall x: nat :: x in toRemove <==> IsStale(ids, x, idx))
  }

  lemma ScanStep(ids: seq<string>, idx: nat, seen: map<string, nat>, toRemove: set<nat>)
    requires Scanned(ids, idx, seen, toRemove) && idx < |ids|
    ensures Scanned(ids, idx + 1, seen[ids[idx] := idx],
                    if ids[idx] in seen then toRemove + {seen[ids[idx]]} else toRemove)
  {
    var id := ids[idx];
    var removed := if id in seen then toRemove + {seen[id]} else toRemove;
    forall x: nat ensures x in removed <==> IsStale(ids, x, idx + 1) {
      StaleStep(ids, x, idx);
      if id in seen { LastSeenStep(ids, id, seen[id], idx); }
    }
    var seen' := seen[id := idx];
    forall i | i in seen' ensures LastSeen(ids, i, seen'[i], idx + 1) {
      if i != id { LastSeenStep(ids, i, seen[i], idx); }
    }
  }

  method MarkStale(ids: seq<string>) returns (toRemove: set<nat>)
    ensures forall x: nat :: x in toRemove <==> IsStale(ids, x, |ids|)
  {
    var seen: map<string, nat> := map[];
    toRemove := {};
    var idx := 0;
    while idx < |ids|
      invariant Scanned(ids, idx, seen, toRemove)
    {
      ScanStep(ids, idx, seen, toRemove);
      if ids[idx] in seen {
        toRemove := toRemove + {seen[ids[idx]]};
      }
      seen := seen[ids[idx] := idx];
      idx := idx + 1;
    }
  }

  lemma StaleMeansListed(run: seq<Item>, x: nat)
    requires AllResults(run) && x < |run|
    ensures IsStale(IdsOf(run), x, |run|) <==> run[x].callId in ResultIds(run[x + 1..])
  {
    var ids, t := IdsOf(run), run[x + 1..];
    assert forall j | 0 <= j < |t| :: t[j].callId == ids[x + 1..][j];
    assert ids[x + 1..|run|] == ids[x + 1..];
    if IsStale(ids, x, |run|) {
      var j :| 0 <= j < |t| && ids[x + 1..][j] == ids[x];
      assert t[j] in t;
    }
  }

  lemma NothingStaleMeansDistinct(run: seq<Item>)
    requires AllResults(run)
    ensures DistinctIds(run) <==> forall x: nat :: !IsStale(IdsOf(run), x, |run|)
  {
    var ids := IdsOf(run);
    if x: nat :| IsStale(ids, x, |run|) {
      var j :| 0 <= j < |ids[x + 1..|run|]| && ids[x + 1..|run|][j] == ids[x];
      assert run[x].callId == run[x + 1 + j].callId;
    } else {
      forall i, j | 0 <= i < j < |run| ensures run[i].callId != run[j].callId {
        assert !IsStale(ids, i, |run|);
        assert ids[i + 1..|run|][j - i - 1] == ids[j];
      }
    }
  }

  /** One step of the removal, as `KeepLast` sees it. */
  lemma KeepLastFrom(run: seq<Item>, i: nat)
    requires AllResults(run) && i < |run|
    ensures AllResults(run[i..]) && AllResults(run[i + 1..])
    ensures KeepLast(run[i..]) ==
            if IsStale(IdsOf(run), i, |run|) then KeepLast(run[i + 1..]) else [run[i]] + KeepLast(run[i + 1..])
  {
    StaleMeansListed(run, i);
    assert run[i..][0] == run[i] && run[i..][1..] == run[i + 1..];
  }

  lemma RemoveAt<T>(a: seq<T>, x: T, k: seq<T>)
    ensures (a + [x] + k)[..|a|] + (a + [x] + k)[|a| + 1..] == a + k
  {
  }

  lemma RemoveStep(run: seq<Item>, i: nat, r: seq<Item>)
    requires AllResults(run) && i < |run|
    requires AllResults(run[i + 1..]) && r == run[..i + 1] + KeepLast(run[i + 1..])
    ensures AllResults(run[i..]) && i < |r|
    ensures (if IsStale(IdsOf(run), i, |run|) then r[..i] + r[i + 1..] else r) == run[..i] + KeepLast(run[i..])
  {
    var k := KeepLast(run[i + 1..]);
    KeepLastFrom(run, i);
    assert run[..i + 1] == run[..i] + [run[i]];
    RemoveAt(run[..i], run[i], k);
    Assoc(run[..i], [run[i]], k);
  }

  /** Removing the stale results, from the back, leaves the last one per id. */
  method RemoveStale(run: seq<Item>, toRemove: set<nat>) returns (r: seq<Item>)
    requires AllResults(run)
    requires forall x: nat :: x in toRemove <==> IsStale(IdsOf(run), x, |run|)
    ensures r == KeepLast(run)
  {
    r := run;
    var idx := |run|;
    assert run[|run|..] == [] && run == run[..|run|] + [];
    while idx > 0
      invariant 0 <= idx <= |run| && AllResults(run[idx..])
      invariant r == run[..idx] + KeepLast(run[idx..])
    {
      idx := idx - 1;
      RemoveStep(run, idx, r);
      if idx in toRemove {
        r := r[..idx] + r[idx + 1..];
      }
    }
    assert run[0..] == run && run[..0] == [];
  }

  /** The end of the run of results that begins at `start`. */
  method RunEnd(c: seq<Item>, start: nat) returns (end: nat)
    requires start <= |c|
    ensures start <= end <= |c|
    ensures AllResults(c[start..end]) && StartsFresh(c[end..])
  {
    end := start;
    while end < |c| && c[end].ToolResult?
      invariant start <= end <= |c|
      invariant forall j | start <= j < end :: c[j].ToolResult?
    {
      end := end + 1;
    }
  }

  /** What is in front of `i` is final, and the rest leads to the same result. */
  ghost predicate Leads(c: seq<Item>, i: nat, result: seq<Item>) {
    i <= |c| && c[..i] + Dedup(c[i..]) == result
  }

  /** Shrinking a window keeps the lead; passing one without repeats moves it. */
  lemma WindowLeads(c: seq<Item>, i: nat, end: nat, result: seq<Item>)
    requires Leads(c, i, result) && i < end <= |c| && c[i].Assistant? && c[i].calls != []
    requires AllResults(c[i + 1..end]) && StartsFresh(c[end..])
    ensures var run := c[i + 1..end];
            && Leads(c[..i + 1] + KeepLast(run) + c[end..], i, result)
            && (KeepLast(run) == run ==> Leads(c, end, result))
  {
    var run := c[i + 1..end];
    SliceBlock(c, i, end, KeepLast(run));
    DedupSettled(c[..i], c[i], run, c[end..]);
  }

  lemma ItemLeads(c: seq<Item>, i: nat, result: seq<Item>)
    requires Leads(c, i, result) && i < |c| && (!c[i].Assistant? || c[i].calls == [])
    ensures Leads(c, i + 1, result)
  {
    SliceItem(c, i);
    StepOver(c[..i], c[i], Dedup(c[i + 1..]));
  }

  /** Pass 1, with its rescan of a window it just shrank. */
  method DedupDuplicateToolResults(items: seq<Item>) returns (c: seq<Item>, totalRemoved: nat)
    ensures c == Dedup(items)
    ensures totalRemoved == |items| - |Dedup(items)|
  {
    c, totalRemoved := items, 0;
    var i := 0;
    assert c[0..] == items && c[..0] == [];
    while i < |c|
      invariant 0 <= i <= |c| <= |items|
      invariant Leads(c, i, Dedup(items))
      invariant totalRemoved == |items| - |c|
      decreases |c| - i
    {
      if c[i].Assistant? && c[i].calls != [] {
        var end := RunEnd(c, i + 1);
        var run := c[i + 1..end];
        WindowLeads(c, i, end, Dedup(items));
        NothingStaleMeansDistinct(run);
        KeepLastIsIdentity(run);
        var toRemove := MarkStale(IdsOf(run));
        if toRemove != {} {
          var kept := RemoveStale(run, toRemove);
          assert |kept| < |run|;
          totalRemoved := totalRemoved + (|run| - |kept|);
          c := c[..i + 1] + kept + c[end..];
          continue;
        }
        i := end;
      } else {
        ItemLeads(c, i, Dedup(items));
        i := i + 1;
      }
    }
    assert c[..i] == c && c[i..] == [];
  }

  lemma SliceItem<T>(c: seq<T>, i: nat)
    requires i < |c|
    ensures c[i..][0] == c[i] && c[i..][1..] == c[i + 1..]
    ensures c[..i + 1] == c[..i] + [c[i]]
  {
  }

  lemma SliceBlock<T>(c: seq<T>, i: nat, end: nat, k: seq<T>)
    requires i < end <= |c|
    ensures c[i..] == [c[i]] + c[i + 1..end] + c[end..]
    ensures c[..end] == c[..i] + ([c[i]] + c[i + 1..end])
    ensures (c[..i + 1] + k + c[end..])[..i] == c[..i]
    ensures (c[..i + 1] + k + c[end..])[i..] == [c[i]] + k + c[end..]
  {
  }

  /** Rewriting one window to its last results does not change what pass 1
      yields, and a window without repeats is passed over. */
  lemma DedupSettled(done: seq<Item>, a: Item, run: seq<Item>, rest: seq<Item>)
    requires a.Assistant? && a.calls != [] && AllResults(run) && StartsFresh(rest)
    ensures Dedup([a] + KeepLast(run) + rest) == Dedup([a] + run + rest)
    ensures KeepLast(run) == run ==> (done + ([a] + run)) + Dedup(rest) == done + Dedup([a] + run + rest)
  {
    KeepLastIds(run);
    KeepLastIsIdentity(KeepLast(run));
    DedupBlock(a, KeepLast(run), rest);
    DedupBlock(a, run, rest);
    Assoc(done, [a] + run, Dedup(rest));
    Assoc(done, [a], Dedup(rest));
  }

  // ------------------------------------------------ displaced tool results

  /** Pass 2: the filter that keeps the ids of the current run in `runIds`. */
  method StripDisplacedToolResults(items: seq<Item>) returns (kept: seq<Item>, stripped: seq<string>)
    ensures kept == Strip(items, {})
    ensures stripped == StrippedIds(items, {})
  {
    var runIds: set<string> := {};
    kept, stripped := [], [];
    var i := 0;
    assert items[0..] == items;
    while i < |items|
      invariant 0 <= i <= |items|
      invariant kept + Strip(items[i..], runIds) == Strip(items, {})
      invariant stripped + StrippedIds(items[i..], runIds) == StrippedIds(items, {})
    {
      assert items[i..][1..] == items[i + 1..];
      StepOver(kept, items[i], Strip(items[i + 1..], NextIds(items[i], runIds)));
      StepOver(stripped, IdOf(items[i]), StrippedIds(items[i + 1..], NextIds(items[i], runIds)));
      match items[i] {
        case Assistant(_, calls) =>
          runIds := CallIds(calls);
          kept := kept + [items[i]];
        case ToolResult(id, _, _) =>
          if id in runIds {
            kept := kept + [items[i]];
          } else {
            stripped := stripped + [id];
          }
        case _ =>
          runIds := {};
          kept := kept + [items[i]];
      }
      i := i + 1;
    }
  }

  function IdOf(x: Item): string {
    if x.ToolResult? then x.callId else ""
  }

  lemma StepOver<T>(done: seq<T>, x: T, rest: seq<T>)
    ensures done + ([x] + rest) == (done + [x]) + rest
    ensures done + ([] + rest) == done + rest
  {
  }

  // --------------------------------------------------- dangling tool calls

  type Site = (nat, seq<Item>)

  ghost predicate SitesWithin(sites: seq<Site>, n: nat) {
    forall i | 0 <= i < |sites| :: sites[i].0 <= n
  }

  /** Splicing the sites in, last site first, so that earlier positions stay valid. */
  ghost function Splice(h: seq<Item>, sites: seq<Site>): seq<Item>
    requires SitesWithin(sites, |h|)
    decreases |sites|
  {
    if sites == [] then h
    else
      var (p, s) := sites[|sites| - 1];
      Splice(h[..p] + s + h[p..], sites[..|sites| - 1])
  }

  /** Sites in a prefix leave the rest alone. */
  lemma {:induction false} SpliceSuffix(x: seq<Item>, y: seq<Item>, sites: seq<Site>)
    requires SitesWithin(sites, |x|)
    ensures Splice(x + y, sites) == Splice(x, sites) + y
    decreases |sites|
  {
    if sites != [] {
      var (p, s) := sites[|sites| - 1];
      assert (x + y)[..p] + s + (x + y)[p..] == (x[..p] + s + x[p..]) + y;
      SpliceSuffix(x[..p] + s + x[p..], y, sites[..|sites| - 1]);
    } else {
      assert Splice(x + y, sites) == x + y;
    }
  }

  lemma SpliceAtEnd(x: seq<Item>, y: seq<Item>, s: seq<Item>, sites: seq<Site>)
    requires SitesWithin(sites, |x|)
    ensures SitesWithin(sites + [(|x + y|, s)], |x + y|)
    ensures Splice(x + y, sites + [(|x + y|, s)]) == Splice(x, sites) + (y + s)
  {
    var all := sites + [(|x + y|, s)];
    assert all[..|all| - 1] == sites;
    assert (x + y)[..|x + y|] + s + (x + y)[|x + y|..] == x + (y + s);
    SpliceSuffix(x, y + s, sites);
  }

  /** Phase 1: where a synthetic result has to go. */
  method FindDangling(items: seq<Item>) returns (sites: seq<Site>)
    ensures SitesWithin(sites, |items|)
    ensures Splice(items, sites) == Backfill(items)
  {
    sites := [];
    var i := 0;
    NothingSettled(items);
    while i < |items|
      invariant 0 <= i <= |items|
      invariant Settled(items, i, sites)
    {
      if items[i].Assistant? && items[i].calls != [] {
        var j := RunEnd(items, i + 1);
        var synthetic := Synthesize(items[i].calls, ResultIds(items[i + 1..j]));
        SettledBlock(items, i, j, sites);
        if synthetic != [] {
          sites := sites + [(j, synthetic)];
        }
        i := j;
      } else {
        SettledItem(items, i, sites);
        i := i + 1;
      }
    }
    assert items[..i] == items && items[i..] == [];
  }

  /** The sites found so far account for the first `i` items. */
  ghost predicate Settled(items: seq<Item>, i: nat, sites: seq<Site>)
    requires i <= |items|
  {
    && SitesWithin(sites, i)
    && Splice(items[..i], sites) + Backfill(items[i..]) == Backfill(items)
  }

  lemma NothingSettled(items: seq<Item>)
    ensures Settled(items, 0, [])
  {
    assert items[0..] == items;
    assert Splice(items[..0], []) == [];
  }

  lemma SettledItem(items: seq<Item>, i: nat, sites: seq<Site>)
    requires i < |items| && Settled(items, i, sites)
    requires !(items[i].Assistant? && items[i].calls != [])
    ensures Settled(items, i + 1, sites)
  {
    SliceItem(items, i);
    SpliceSuffix(items[..i], [items[i]], sites);
    StepOver(Splice(items[..i], sites), items[i], Backfill(items[i + 1..]));
  }

  /** One block is settled by at most one site, right after its run. */
  lemma SettledBlock(items: seq<Item>, i: nat, j: nat, sites: seq<Site>)
    requires i < j <= |items| && Settled(items, i, sites) && items[i].Assistant?
    requires AllResults(items[i + 1..j]) && StartsFresh(items[j..])
    ensures var synthetic := Synthesize(items[i].calls, ResultIds(items[i + 1..j]));
            Settled(items, j, if synthetic == [] then sites else sites + [(j, synthetic)])
  {
    var x, a, run, rest := items[..i], items[i], items[i + 1..j], items[j..];
    var synthetic := Synthesize(a.calls, ResultIds(run));
    SliceBlock(items, i, j, []);
    assert Backfill(items[i..]) == [a] + run + synthetic + Backfill(rest) by { BackfillBlock(a, run, rest); }
    assert Backfill(items) == Splice(x, sites) + ([a] + run + synthetic) + Backfill(rest) by {
      Assoc(Splice(x, sites), [a] + run + synthetic, Backfill(rest));
      Assoc(Splice(x, sites), [a] + run, Backfill(rest));
    }
    if synthetic == [] {
      SpliceSuffix(x, [a] + run, sites);
      assert [a] + run + synthetic == [a] + run;
    } else {
      SpliceAtEnd(x, [a] + run, synthetic, sites);
    }
  }

  /** Pass 3: splice the sites in from the back. */
  method RepairDanglingToolCalls(items: seq<Item>) returns (c: seq<Item>, total: nat)
    ensures c == Backfill(items)
    ensures total == |Backfill(items)| - |items|
  {
    var sites := FindDangling(items);
    c, total := items, 0;
    var left := sites;
    while left != []
      invariant SitesWithin(left, |c|)
      invariant Splice(c, left) == Backfill(items)
      invariant total == |c| - |items|
      decreases |left|
    {
      var (p, s) := left[|left| - 1];
      c := c[..p] + s + c[p..];
      total := total + |s|;
      left := left[..|left| - 1];
    }
  }

  // ------------------------------------------------------------ the repair

  method RepairHistory(items: seq<Item>) returns (repaired: seq<Item>, report: Report)
    ensures repaired == Repair(items)
    ensures report == ReportOf(items)
  {
    var deduped, duplicates := DedupDuplicateToolResults(items);
    var kept, stripped := StripDisplacedToolResults(deduped);
    var filled, inserted := RepairDanglingToolCalls(kept);
    repaired, report := filled, Report(duplicates, stripped, inserted);
  }
}
