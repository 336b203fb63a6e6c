/** The read-only check of the weak provider invariant and the filter that
    enforces it, with their relation to the strict repair. */
module Sanitizer {
  import opened Conversation
  import opened Pairing
  import opened HistoryRepair
  import opened RepairLaws

  function Declared(x: Item): set<string> {
    if x.Assistant? then CallIds(x.calls) else {}
  }

  predicate Unmatched(x: Item, seen: set<string>) {
    x.ToolResult? && x.callId !in seen
  }

  /** Ids of the results without a declared call before them, in order. */
  function Unowned(items: seq<Item>, seen: set<string>): seq<string> {
    if items == [] then []
    else (if Unmatched(items[0], seen) then [items[0].callId] else []) + Unowned(items[1..], seen + Declared(items[0]))
  }

  /** The items without those results. */
  function Sanitized(items: seq<Item>, seen: set<string>): seq<Item> {
    if items == [] then []
    else (if Unmatched(items[0], seen) then [] else [items[0]]) + Sanitized(items[1..], seen + Declared(items[0]))
  }

  method ValidateCompactedHistory(items: seq<Item>) returns (invalid: seq<string>)
    ensures invalid == Unowned(items, {})
    ensures invalid == [] <==> WeaklyPaired(items)
  {
    var seen: set<string> := {};
    invalid := [];
    var i := 0;
    while i < |items|
      invariant 0 <= i <= |items|
      invariant invalid + Unowned(items[i..], seen) == Unowned(items, {})
    {
      assert items[i..][1..] == items[i + 1..];
      ghost var rest := Unowned(items[i + 1..], seen + Declared(items[i]));
      ghost var before := invalid;
      match items[i] {
        case Assistant(_, calls) =>
          seen := seen + CallIds(calls);
        case ToolResult(id, _, _) =>
          assert seen + Declared(items[i]) == seen;
          if id !in seen {
            invalid := invalid + [id];
            assert before + ([id] + rest) == invalid + rest;
          }
        case _ =>
          assert seen + Declared(items[i]) == seen;
      }
      i := i + 1;
    }
    ValidIffWeaklyPaired(items);
  }

  method SanitizeCompactedHistory(items: seq<Item>) returns (kept: seq<Item>, stripped: seq<string>)
    ensures kept == Sanitized(items, {})
    ensures stripped == Unowned(items, {})
    ensures WeaklyPaired(kept)
  {
    var seen: set<string> := {};
    kept, stripped := [], [];
    var i := 0;
    while i < |items|
      invariant 0 <= i <= |items|
      invariant kept + Sanitized(items[i..], seen) == Sanitized(items, {})
      invariant stripped + Unowned(items[i..], seen) == Unowned(items, {})
    {
      SanitizeStep(items, i, seen, kept, stripped);
      var unmatched := items[i].ToolResult? && items[i].callId !in seen;
      seen := seen + Declared(items[i]);
      if unmatched {
        stripped := stripped + [items[i].callId];
      } else {
        kept := kept + [items[i]];
      }
      i := i + 1;
    }
    SanitizedIsWeaklyPaired(items);
  }

  lemma SanitizeStep(items: seq<Item>, i: nat, seen: set<string>, kept: seq<Item>, stripped: seq<string>)
    requires i < |items|
    ensures kept + Sanitized(items[i..], seen)
         == (if Unmatched(items[i], seen) then kept else kept + [items[i]])
            + Sanitized(items[i + 1..], seen + Declared(items[i]))
    ensures stripped + Unowned(items[i..], seen)
         == (if Unmatched(items[i], seen) then stripped + [items[i].callId] else stripped)
            + Unowned(items[i + 1..], seen + Declared(items[i]))
  {
    assert items[i..][1..] == items[i + 1..];
  }

  /** `seen` stands for calls declared before `items`. */
  ghost predicate WeaklyPairedAfter(items: seq<Item>, seen: set<string>) {
    forall i | 0 <= i < |items| && items[i].ToolResult? ::
      items[i].callId in seen || exists k :: Declares(items, k, i)
  }

  lemma DeclaresTail(items: seq<Item>, k: int, i: int)
    requires items != []
    ensures k >= 1 ==> (Declares(items, k, i) <==> Declares(items[1..], k - 1, i - 1))
  {
  }

  lemma {:induction false} ValidAfter(items: seq<Item>, seen: set<string>)
    ensures Unowned(items, seen) == [] <==> WeaklyPairedAfter(items, seen)
  {
    if items != [] {
      var tail, more := items[1..], seen + Declared(items[0]);
      ValidAfter(tail, more);
      forall k, i ensures k >= 1 ==> (Declares(items, k, i) <==> Declares(tail, k - 1, i - 1)) {
        DeclaresTail(items, k, i);
      }
      if WeaklyPairedAfter(items, seen) {
        forall i | 0 <= i < |tail| && tail[i].ToolResult?
          ensures tail[i].callId in more || exists k :: Declares(tail, k, i)
        {
          assert items[i + 1] == tail[i];
          if items[i + 1].callId !in seen {
            var k :| Declares(items, k, i + 1);
            if k >= 1 { assert Declares(tail, k - 1, i); }
          }
        }
      }
      if WeaklyPairedAfter(tail, more) && !Unmatched(items[0], seen) {
        forall i | 0 <= i < |items| && items[i].ToolResult?
          ensures items[i].callId in seen || exists k :: Declares(items, k, i)
        {
          if i > 0 && items[i].callId !in seen {
            assert tail[i - 1] == items[i];
            if items[i].callId in Declared(items[0]) {
              assert Declares(items, 0, i);
            } else {
              var k :| Declares(tail, k, i - 1);
              assert Declares(items, k + 1, i);
            }
          }
        }
      }
    }
  }

  /** The check reports nothing exactly on the weakly paired histories. */
  lemma ValidIffWeaklyPaired(items: seq<Item>)
    ensures Unowned(items, {}) == [] <==> WeaklyPaired(items)
  {
    ValidAfter(items, {});
  }

  lemma {:induction false} SanitizedOwnsAll(items: seq<Item>, seen: set<string>)
    ensures Unowned(Sanitized(items, seen), seen) == []
    ensures Sanitized(items, seen) == items <==> Unowned(items, seen) == []
    ensures |Sanitized(items, seen)| + |Unowned(items, seen)| == |items|
    ensures NonResults(Sanitized(items, seen)) == NonResults(items)
  {
    if items != [] {
      var tail, more := items[1..], seen + Declared(items[0]);
      SanitizedOwnsAll(tail, more);
      assert items == [items[0]] + tail;
      if Unmatched(items[0], seen) {
        assert more == seen;
        assert Sanitized(items, seen) == Sanitized(tail, more);
        assert |Sanitized(tail, more)| < |items|;
      } else {
        var s := [items[0]] + Sanitized(tail, more);
        assert Sanitized(items, seen) == s && s[1..] == Sanitized(tail, more);
      }
    }
  }

  /** The sanitizer ends weakly paired, keeps everything but the reported
      results, changes a history exactly when the check would complain, and so
      changes nothing on a second pass. */
  lemma SanitizedIsWeaklyPaired(items: seq<Item>)
    ensures WeaklyPaired(Sanitized(items, {}))
    ensures NonResults(Sanitized(items, {})) == NonResults(items)
    ensures |Sanitized(items, {})| + |Unowned(items, {})| == |items|
    ensures Sanitized(items, {}) == items <==> WeaklyPaired(items)
    ensures Sanitized(Sanitized(items, {}), {}) == Sanitized(items, {})
  {
    var s := Sanitized(items, {});
    SanitizedOwnsAll(items, {});
    SanitizedOwnsAll(s, {});
    ValidIffWeaklyPaired(items);
    ValidIffWeaklyPaired(s);
  }

  lemma WeakConcat(x: seq<Item>, y: seq<Item>)
    requires WeaklyPaired(x) && WeaklyPaired(y)
    ensures WeaklyPaired(x + y)
  {
    var h := x + y;
    forall i | 0 <= i < |h| && h[i].ToolResult? ensures exists k :: Declares(h, k, i) {
      if i < |x| {
        var k :| Declares(x, k, i);
        assert Declares(h, k, i);
      } else {
        var k :| Declares(y, k, i - |x|);
        assert h[k + |x|] == y[k];
        assert Declares(h, k + |x|, i);
      }
    }
  }

  /** Whatever the input, a repaired history passes the weak check. */
  lemma {:induction false} RepairedIsWeaklyPaired(h: seq<Item>)
    ensures WeaklyPaired(Repair(h))
    decreases |h|
  {
    if h != [] {
      HeadTail(h);
      if h[0].ToolResult? {
        RepairOrphan(h[0], h[1..]);
        RepairedIsWeaklyPaired(h[1..]);
      } else if h[0].Assistant? {
        var a, run, rest := h[0], RunOf(h), RestOf(h);
        BlockJoin(h);
        RepairBlock(a, run, rest);
        RepairedIsWeaklyPaired(rest);
        RepairedBlockIsWeaklyPaired(a, run);
        WeakConcat([a] + RepairedRun(a, run), Repair(rest));
      } else {
        RepairOther(h[0], h[1..]);
        RepairedIsWeaklyPaired(h[1..]);
        WeakConcat([h[0]], Repair(h[1..]));
      }
    }
  }

  lemma RepairedBlockIsWeaklyPaired(a: Item, run: seq<Item>)
    requires a.Assistant? && AllResults(run)
    ensures WeaklyPaired([a] + RepairedRun(a, run))
  {
    var r := RepairedRun(a, run);
    var b := [a] + r;
    RepairedRunCovers(a, run);
    forall i | 0 <= i < |b| && b[i].ToolResult? ensures exists k :: Declares(b, k, i) {
      assert b[i] == r[i - 1] && r[i - 1] in r;
      assert r[i - 1].callId in ResultIds(r);
      assert Declares(b, 0, i);
    }
  }
}
