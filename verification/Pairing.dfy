/** The two provider invariants on tool results: the weak one ("the owner is
    somewhere before") and the strict one ("the result sits in the contiguous
    run right after its owner"), and how both behave under concatenation. */
module Pairing {
  import opened Conversation

  /** The result at `i` answers a call of the assistant at `k`, contiguously. */
  ghost predicate Owns(h: seq<Item>, k: int, i: int) {
    && 0 <= k < i < |h|
    && h[k].Assistant?
    && h[i].ToolResult?
    && (forall j | k < j < i :: h[j].ToolResult?)
    && h[i].callId in CallIds(h[k].calls)
  }

  ghost predicate HasOwner(h: seq<Item>, i: int) {
    exists k :: Owns(h, k, i)
  }

  ghost predicate IsAnswered(h: seq<Item>, k: int, id: string) {
    exists i :: Owns(h, k, i) && h[i].callId == id
  }

  ghost predicate ResultsOwned(h: seq<Item>) {
    forall i | 0 <= i < |h| && h[i].ToolResult? :: HasOwner(h, i)
  }

  ghost predicate CallsAnswered(h: seq<Item>) {
    forall k, id | 0 <= k < |h| && h[k].Assistant? && id in CallIds(h[k].calls) :: IsAnswered(h, k, id)
  }

  ghost predicate AnsweredOnce(h: seq<Item>) {
    forall k, i, j | Owns(h, k, i) && Owns(h, k, j) && h[i].callId == h[j].callId :: i == j
  }

  /** Every result is owned, every declared id is answered, and only once. */
  ghost predicate StrictlyPaired(h: seq<Item>) {
    ResultsOwned(h) && CallsAnswered(h) && AnsweredOnce(h)
  }

  /** The call at index `k` is declared by an assistant that precedes `i`. */
  ghost predicate Declares(h: seq<Item>, k: int, i: int) {
    && 0 <= k < i < |h|
    && h[k].Assistant?
    && h[i].ToolResult?
    && h[i].callId in CallIds(h[k].calls)
  }

  /** Every result has a matching call somewhere before it. */
  ghost predicate WeaklyPaired(h: seq<Item>) {
    forall i | 0 <= i < |h| && h[i].ToolResult? :: exists k :: Declares(h, k, i)
  }

  /** An id an assistant declares more than once is answered in its run. A
      caller can check this on the history it is about to repair. */
  ghost predicate RepeatedCallsAnswered(h: seq<Item>) {
    forall k, p, q | 0 <= k < |h| && h[k].Assistant? && 0 <= p < q < |h[k].calls|
                     && h[k].calls[p].id == h[k].calls[q].id
      :: IsAnswered(h, k, h[k].calls[p].id)
  }

  lemma StrictImpliesWeak(h: seq<Item>)
    requires StrictlyPaired(h)
    ensures WeaklyPaired(h)
  {
    forall i | 0 <= i < |h| && h[i].ToolResult?
      ensures exists k :: Declares(h, k, i)
    {
      assert HasOwner(h, i);
      var k :| Owns(h, k, i);
      assert Declares(h, k, i);
    }
  }

  /** Ownership never crosses a cut in front of a non-result. */
  lemma OwnsConcat(x: seq<Item>, y: seq<Item>, k: int, i: int)
    requires StartsFresh(y)
    ensures Owns(x + y, k, i) <==> (Owns(x, k, i) || Owns(y, k - |x|, i - |x|))
  {
    var h := x + y;
    assert y != [] ==> h[|x|] == y[0];
    if Owns(h, k, i) {
      if k >= |x| {
        forall j | k - |x| < j < i - |x| ensures y[j].ToolResult? { assert y[j] == h[j + |x|]; }
      } else {
        forall j | k < j < i ensures x[j].ToolResult? { assert x[j] == h[j]; }
      }
    }
    if Owns(x, k, i) {
      forall j | k < j < i ensures h[j].ToolResult? { assert h[j] == x[j]; }
    }
    if Owns(y, k - |x|, i - |x|) {
      forall j | k < j < i ensures h[j].ToolResult? { assert h[j] == y[j - |x|]; }
    }
  }

  /** An item that is not an assistant owns nothing. */
  lemma OwnsTail(x: Item, h: seq<Item>, k: int, i: int)
    requires !x.Assistant?
    ensures Owns([x] + h, k, i) <==> Owns(h, k - 1, i - 1)
  {
    var g := [x] + h;
    if Owns(g, k, i) {
      forall j | k - 1 < j < i - 1 ensures h[j].ToolResult? { assert h[j] == g[j + 1]; }
    }
    if Owns(h, k - 1, i - 1) {
      forall j | k < j < i ensures g[j].ToolResult? { assert g[j] == h[j - 1]; }
    }
  }

  lemma IsAnsweredConcat(x: seq<Item>, y: seq<Item>, k: int, id: string)
    requires StartsFresh(y)
    ensures IsAnswered(x + y, k, id) <==> (IsAnswered(x, k, id) || IsAnswered(y, k - |x|, id))
  {
    var h := x + y;
    forall i ensures Owns(h, k, i) <==> (Owns(x, k, i) || Owns(y, k - |x|, i - |x|)) {
      OwnsConcat(x, y, k, i);
    }
    if IsAnswered(y, k - |x|, id) {
      var i :| Owns(y, k - |x|, i) && y[i].callId == id;
      assert Owns(h, k, i + |x|) by { OwnsConcat(x, y, k, i + |x|); }
    }
  }

  /** The cut law: strict pairing of a concatenation is strict pairing of its
      parts, when the second part does not begin with a result. */
  lemma StrictConcat(x: seq<Item>, y: seq<Item>)
    requires StartsFresh(y)
    ensures StrictlyPaired(x + y) <==> StrictlyPaired(x) && StrictlyPaired(y)
  {
    OwnedConcat(x, y);
    AnsweredConcat(x, y);
    OnceConcat(x, y);
  }

  lemma HasOwnerConcat(x: seq<Item>, y: seq<Item>, i: int)
    requires StartsFresh(y)
    ensures HasOwner(x + y, i) <==> (HasOwner(x, i) || HasOwner(y, i - |x|))
  {
    forall k ensures Owns(x + y, k, i) <==> (Owns(x, k, i) || Owns(y, k - |x|, i - |x|)) {
      OwnsConcat(x, y, k, i);
    }
    if HasOwner(y, i - |x|) {
      var k :| Owns(y, k, i - |x|);
      OwnsConcat(x, y, k + |x|, i);
    }
  }

  lemma OwnedConcat(x: seq<Item>, y: seq<Item>)
    requires StartsFresh(y)
    ensures ResultsOwned(x + y) <==> ResultsOwned(x) && ResultsOwned(y)
  {
    var h := x + y;
    forall i ensures HasOwner(h, i) <==> (HasOwner(x, i) || HasOwner(y, i - |x|)) { HasOwnerConcat(x, y, i); }
    if ResultsOwned(h) {
      forall i | 0 <= i < |y| && y[i].ToolResult? ensures HasOwner(y, i) {
        assert h[i + |x|] == y[i];
        assert HasOwner(h, i + |x|);
      }
    }
  }

  lemma AnsweredConcat(x: seq<Item>, y: seq<Item>)
    requires StartsFresh(y)
    ensures CallsAnswered(x + y) <==> CallsAnswered(x) && CallsAnswered(y)
  {
    var h := x + y;
    forall k, id ensures IsAnswered(h, k, id) <==> (IsAnswered(x, k, id) || IsAnswered(y, k - |x|, id)) {
      IsAnsweredConcat(x, y, k, id);
    }
    if CallsAnswered(h) {
      forall k, id | 0 <= k < |y| && y[k].Assistant? && id in CallIds(y[k].calls) ensures IsAnswered(y, k, id) {
        assert h[k + |x|] == y[k];
        assert IsAnswered(h, k + |x|, id);
      }
      forall k, id | 0 <= k < |x| && x[k].Assistant? && id in CallIds(x[k].calls) ensures IsAnswered(x, k, id) {
        assert h[k] == x[k];
      }
    }
  }

  lemma OnceConcat(x: seq<Item>, y: seq<Item>)
    requires StartsFresh(y)
    ensures AnsweredOnce(x + y) <==> AnsweredOnce(x) && AnsweredOnce(y)
  {
    var h := x + y;
    if AnsweredOnce(h) {
      forall k, i, j | Owns(x, k, i) && Owns(x, k, j) && x[i].callId == x[j].callId ensures i == j {
        OwnsConcat(x, y, k, i);
        OwnsConcat(x, y, k, j);
      }
      forall k, i, j | Owns(y, k, i) && Owns(y, k, j) && y[i].callId == y[j].callId ensures i == j {
        OwnsConcat(x, y, k + |x|, i + |x|);
        OwnsConcat(x, y, k + |x|, j + |x|);
        assert h[i + |x|] == y[i] && h[j + |x|] == y[j];
      }
    }
    if AnsweredOnce(x) && AnsweredOnce(y) {
      forall k, i, j | Owns(h, k, i) && Owns(h, k, j) && h[i].callId == h[j].callId ensures i == j {
        OwnsConcat(x, y, k, i);
        OwnsConcat(x, y, k, j);
      }
    }
  }

  lemma RepeatedConcat(x: seq<Item>, y: seq<Item>)
    requires StartsFresh(y)
    ensures RepeatedCallsAnswered(x + y) <==> RepeatedCallsAnswered(x) && RepeatedCallsAnswered(y)
  {
    var h := x + y;
    forall k, id ensures IsAnswered(h, k, id) <==> (IsAnswered(x, k, id) || IsAnswered(y, k - |x|, id)) {
      IsAnsweredConcat(x, y, k, id);
    }
    if RepeatedCallsAnswered(h) {
      forall k, p, q | 0 <= k < |y| && y[k].Assistant? && 0 <= p < q < |y[k].calls| && y[k].calls[p].id == y[k].calls[q].id
        ensures IsAnswered(y, k, y[k].calls[p].id)
      {
        assert h[k + |x|] == y[k];
        assert IsAnswered(h, k + |x|, y[k].calls[p].id);
      }
      forall k, p, q | 0 <= k < |x| && x[k].Assistant? && 0 <= p < q < |x[k].calls| && x[k].calls[p].id == x[k].calls[q].id
        ensures IsAnswered(x, k, x[k].calls[p].id)
      {
        assert h[k] == x[k];
      }
    }
  }

  /** A leading orphan result changes neither ownership nor the repeat condition. */
  lemma RepeatedTail(x: Item, h: seq<Item>)
    requires !x.Assistant?
    ensures RepeatedCallsAnswered([x] + h) <==> RepeatedCallsAnswered(h)
  {
    var g := [x] + h;
    forall k, i ensures Owns(g, k, i) <==> Owns(h, k - 1, i - 1) { OwnsTail(x, h, k, i); }
    forall k, id ensures IsAnswered(g, k, id) <==> IsAnswered(h, k - 1, id) {
      if IsAnswered(h, k - 1, id) {
        var i :| Owns(h, k - 1, i) && h[i].callId == id;
        assert Owns(g, k, i + 1);
      }
    }
    if RepeatedCallsAnswered(g) {
      forall k, p, q | 0 <= k < |h| && h[k].Assistant? && 0 <= p < q < |h[k].calls| && h[k].calls[p].id == h[k].calls[q].id
        ensures IsAnswered(h, k, h[k].calls[p].id)
      {
        assert g[k + 1] == h[k];
        assert IsAnswered(g, k + 1, h[k].calls[p].id);
      }
    }
  }

  /** What strict pairing asks of one assistant and the run that follows it. */
  ghost predicate RunAnswers(a: Item, run: seq<Item>)
    requires a.Assistant? && AllResults(run)
  {
    && ResultIds(run) == CallIds(a.calls)
    && DistinctIds(run)
  }

  ghost predicate DistinctIds(run: seq<Item>)
    requires AllResults(run)
  {
    forall i, j | 0 <= i < j < |run| :: run[i].callId != run[j].callId
  }

  lemma OwnsInBlock(a: Item, run: seq<Item>, k: int, i: int)
    requires a.Assistant? && AllResults(run)
    ensures Owns([a] + run, k, i) <==> k == 0 && 1 <= i <= |run| && run[i - 1].callId in CallIds(a.calls)
  {
    var h := [a] + run;
    forall j | 0 < j < |h| ensures h[j].ToolResult? { assert h[j] == run[j - 1]; }
  }

  lemma IsAnsweredInBlock(a: Item, run: seq<Item>, id: string)
    requires a.Assistant? && AllResults(run) && id in CallIds(a.calls)
    ensures IsAnswered([a] + run, 0, id) <==> id in ResultIds(run)
  {
    if id in ResultIds(run) {
      var i :| 0 <= i < |run| && run[i].callId == id;
      assert Owns([a] + run, 0, i + 1);
    }
  }

  /** Strict pairing of one block is that its run answers its calls exactly. */
  lemma StrictBlock(a: Item, run: seq<Item>)
    requires a.Assistant? && AllResults(run)
    ensures StrictlyPaired([a] + run) <==> RunAnswers(a, run)
  {
    if StrictlyPaired([a] + run) { StrictBlockAnswers(a, run); }
    if RunAnswers(a, run) { AnswersStrictBlock(a, run); }
  }

  lemma StrictBlockAnswers(a: Item, run: seq<Item>)
    requires a.Assistant? && AllResults(run) && StrictlyPaired([a] + run)
    ensures RunAnswers(a, run)
  {
    var h := [a] + run;
    forall id | id in ResultIds(run) ensures id in CallIds(a.calls) {
      var i :| 0 <= i < |run| && run[i].callId == id;
      assert HasOwner(h, i + 1);
      var k :| Owns(h, k, i + 1);
      OwnsInBlock(a, run, k, i + 1);
    }
    forall id | id in CallIds(a.calls) ensures id in ResultIds(run) {
      assert IsAnswered(h, 0, id);
      IsAnsweredInBlock(a, run, id);
    }
    forall i, j | 0 <= i < j < |run| ensures run[i].callId != run[j].callId {
      OwnsInBlock(a, run, 0, i + 1);
      OwnsInBlock(a, run, 0, j + 1);
      assert run[i] in run && run[j] in run;
      assert run[i].callId in ResultIds(run) && run[j].callId in ResultIds(run);
    }
  }

  lemma AnswersStrictBlock(a: Item, run: seq<Item>)
    requires a.Assistant? && AllResults(run) && RunAnswers(a, run)
    ensures StrictlyPaired([a] + run)
  {
    var h := [a] + run;
    assert forall j | 0 < j < |h| :: h[j] == run[j - 1];
    forall i | 0 <= i < |h| && h[i].ToolResult? ensures HasOwner(h, i) {
      assert run[i - 1] in run;
      assert run[i - 1].callId in ResultIds(run);
      OwnsInBlock(a, run, 0, i);
    }
    forall k, id | 0 <= k < |h| && h[k].Assistant? && id in CallIds(h[k].calls) ensures IsAnswered(h, k, id) {
      IsAnsweredInBlock(a, run, id);
    }
    forall k, i, j | Owns(h, k, i) && Owns(h, k, j) && h[i].callId == h[j].callId ensures i == j {
      OwnsInBlock(a, run, k, i);
      OwnsInBlock(a, run, k, j);
    }
  }

  lemma StrictSingle(x: Item)
    requires !x.Assistant? && !x.ToolResult?
    ensures StrictlyPaired([x])
  {
  }

  /** A history that begins with a result is not strictly paired. */
  lemma OrphanNotStrict(h: seq<Item>)
    requires h != [] && h[0].ToolResult?
    ensures !StrictlyPaired(h)
  {
    assert !HasOwner(h, 0);
  }
}
