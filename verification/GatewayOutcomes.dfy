/** Which outcome a request of the gateway gets: rejected or accepted, in which order
    it is taken up, whose answer it is, and that it can still be answered. */
module GatewayOutcomes {
  import opened Gateway

  // ------------------------------------------------------- rejected or accepted

  lemma {:induction false} OpenUntilClosed(s: State, actions: seq<Action>)
    ensures Run(s, actions).open <==> s.open && Close !in actions
    decreases |actions|
  {
    if actions != [] {
      OpenUntilClosed(Step(s, actions[0]), actions[1..]);
      assert actions == [actions[0]] + actions[1..];
    }
  }

  function Sends(actions: seq<Action>): nat {
    if actions == [] then 0 else (if actions[0].Send? then 1 else 0) + Sends(actions[1..])
  }

  lemma {:induction false} IdsCountSends(s: State, actions: seq<Action>)
    ensures Run(s, actions).next == s.next + Sends(actions)
    decreases |actions|
  {
    if actions != [] { IdsCountSends(Step(s, actions[0]), actions[1..]); }
  }

  lemma {:induction false} AcceptedStays(s: State, actions: seq<Action>, id: Id)
    requires id in s.accepted
    ensures id in Run(s, actions).accepted
    decreases |actions|
  {
    if actions != [] { AcceptedStays(Step(s, actions[0]), actions[1..], id); }
  }

  /** The request sent next, in any state of the invariant. */
  lemma SendNext(s: State)
    requires Inv(s)
    ensures var t := Step(s, Send);
            if s.open then t.queue == s.queue + [s.next] && t.accepted == s.accepted + [s.next] && OutcomeOf(t, s.next) == Waiting
            else t.queue == s.queue && t.accepted == s.accepted && OutcomeOf(t, s.next) == SendFailed
  {
    assert s.next in s.accepted <==> s.next in ToSet(s.accepted);
  }

  /** Main result: the request sent after `before` fails to be sent exactly when the
      receive loop was closed before, now and after anything that follows; otherwise
      it is accepted and queued last. */
  lemma SendFailsIffClosed(before: seq<Action>, after: seq<Action>)
    ensures var s := Run(INITIAL, before);
            var t := Step(s, Send);
            && s.next == Sends(before)
            && (OutcomeOf(Run(t, after), s.next) == SendFailed <==> Close in before)
            && (Close !in before ==> t.accepted == s.accepted + [s.next] && t.queue == s.queue + [s.next] && OutcomeOf(t, s.next) == Waiting)
  {
    var s := Run(INITIAL, before);
    var t := Step(s, Send);
    InitialInv();
    RunInv(INITIAL, before);
    OpenUntilClosed(INITIAL, before);
    IdsCountSends(INITIAL, before);
    SendNext(s);
    StepInv(s, Send);
    if Close in before {
      RunKeepsOutcome(t, after, s.next);
    } else {
      AcceptedStays(t, after, s.next);
      RunInv(t, after);
      assert s.next in ToSet(Run(t, after).accepted);
    }
  }

  /** Closing fails what is queued and nothing else: handlers in flight go on. */
  lemma CloseFailsTheQueue(before: seq<Action>, id: Id)
    ensures var s := Run(INITIAL, before);
            var t := Step(s, Close);
            && OutcomeOf(t, id) == (if id in s.queue then RecvFailed else OutcomeOf(s, id))
            && t.running == s.running && t.finished == s.finished && t.queue == []
  {
    var s := Run(INITIAL, before);
    InitialInv();
    RunInv(INITIAL, before);
    assert id in s.queue <==> id in ToSet(s.queue);
    assert id in s.accepted <==> id in ToSet(s.accepted);
  }

  // -------------------------------------------------------------- taken in order

  ghost predicate Ascending(ids: seq<Id>, bound: Id) {
    && (forall i, j | 0 <= i < j < |ids| :: ids[i] < ids[j])
    && (forall i | 0 <= i < |ids| :: ids[i] < bound)
  }

  ghost predicate IsSuffix(ids: seq<Id>, q: seq<Id>) {
    |q| <= |ids| && ids[|ids| - |q|..] == q
  }

  /** Accepted ids ascend, and the queue is the last of them. */
  ghost predicate InOrder(s: State) {
    Ascending(s.accepted, s.next) && IsSuffix(s.accepted, s.queue)
  }

  lemma SuffixGrows(ids: seq<Id>, q: seq<Id>, x: Id)
    requires IsSuffix(ids, q)
    ensures IsSuffix(ids + [x], q + [x])
  {
    var n := |ids| - |q|;
    assert (ids + [x])[n..] == ids[n..] + [x];
  }

  lemma SuffixShrinks(ids: seq<Id>, q: seq<Id>)
    requires IsSuffix(ids, q) && q != []
    ensures IsSuffix(ids, q[1..])
  {
    var n := |ids| - |q|;
    assert ids[n..][1..] == ids[n + 1..];
  }

  lemma NothingIsSuffix(ids: seq<Id>)
    ensures IsSuffix(ids, [])
  {
  }

  lemma StepInOrder(s: State, a: Action)
    requires InOrder(s)
    ensures InOrder(Step(s, a))
  {
    match a
    case Send => SuffixGrows(s.accepted, s.queue, s.next);
    case Dispatch => if s.queue != [] { SuffixShrinks(s.accepted, s.queue); }
    case Close => NothingIsSuffix(s.accepted);
    case _ =>
  }

  lemma {:induction false} RunInOrder(s: State, actions: seq<Action>)
    requires InOrder(s)
    ensures InOrder(Run(s, actions))
    decreases |actions|
  {
    if actions != [] {
      StepInOrder(s, actions[0]);
      RunInOrder(Step(s, actions[0]), actions[1..]);
    }
  }

  lemma SuffixComesLater(ids: seq<Id>, bound: Id, q: seq<Id>, taken: Id, waiting: Id)
    requires Ascending(ids, bound) && IsSuffix(ids, q) && taken in ids && taken !in q && waiting in q
    ensures taken < waiting && q[0] <= waiting
  {
    var n := |ids| - |q|;
    assert forall k | 0 <= k < |q| :: q[k] == ids[n + k];
    assert forall k | n <= k < |ids| :: ids[k] == q[k - n];
    var i :| 0 <= i < |ids| && ids[i] == taken;
    var j :| 0 <= j < |q| && q[j] == waiting;
    assert i < n;
  }

  /** Main result: the loop takes requests up in the order they were sent. What is
      queued was sent after everything that was accepted and is no longer queued, and
      the next handler is that of the oldest one. */
  lemma TakenInSendingOrder(before: seq<Action>, taken: Id, waiting: Id)
    requires var s := Run(INITIAL, before); taken in s.accepted && taken !in s.queue && waiting in s.queue
    ensures var s := Run(INITIAL, before);
            && taken < waiting && s.queue[0] <= waiting
            && Step(s, Dispatch).running == s.running + [s.queue[0]]
            && Step(s, Dispatch).queue == s.queue[1..]
  {
    var s := Run(INITIAL, before);
    RunInOrder(INITIAL, before);
    SuffixComesLater(s.accepted, s.next, s.queue, taken, waiting);
  }

  // ------------------------------------------------------------- whose answer it is

  /** What a handler is recorded to have returned, it did return. */
  ghost predicate FromHandlers(s: State, done: seq<Action>) {
    forall id | id in s.results :: Finish(id, s.results[id]) in done
  }

  lemma {:induction false} RunFromHandlers(s: State, done: seq<Action>, actions: seq<Action>)
    requires FromHandlers(s, done)
    ensures FromHandlers(Run(s, actions), done + actions)
    decreases |actions|
  {
    if actions == [] {
      assert done + actions == done;
    } else {
      RunFromHandlers(Step(s, actions[0]), done + [actions[0]], actions[1..]);
      assert done + [actions[0]] + actions[1..] == done + actions;
    }
  }

  /** Main result: an answer is what the request's own handler returned in this run. */
  lemma AnswerIsTheHandlers(actions: seq<Action>, id: Id)
    requires OutcomeOf(Run(INITIAL, actions), id).Answered?
    ensures Finish(id, OutcomeOf(Run(INITIAL, actions), id).response) in actions
  {
    InitialInv();
    RunInv(INITIAL, actions);
    RunFromHandlers(INITIAL, [], actions);
    assert [] + actions == actions;
  }

  // --------------------------------------------------------- it can still be answered

  function Dispatches(n: nat): seq<Action> {
    if n == 0 then [] else [Dispatch] + Dispatches(n - 1)
  }

  lemma {:induction false} DispatchMany(s: State, n: nat)
    requires n <= |s.queue|
    ensures var t := Run(s, Dispatches(n));
            t.running == s.running + s.queue[..n] && t.rejected == s.rejected
    decreases n
  {
    if n > 0 {
      var t := Step(s, Dispatch);
      assert Dispatches(n)[1..] == Dispatches(n - 1);
      DispatchMany(t, n - 1);
      assert s.queue[..n] == [s.queue[0]] + s.queue[1..][..n - 1];
    }
  }

  lemma ReplyAnswers(s: State, id: Id)
    requires Inv(s) && id in s.finished
    ensures OutcomeOf(Step(s, Reply(id)), id) == Answered(s.results[id])
  {
    assert id in ToSet(s.accepted);
  }

  lemma FinishThenReply(s: State, id: Id, response: Response)
    requires Inv(s) && id in s.running
    ensures OutcomeOf(Run(s, [Finish(id, response), Reply(id)]), id) == Answered(response)
  {
    StepInv(s, Finish(id, response));
    ReplyAnswers(Step(s, Finish(id, response)), id);
    RunTwo(s, Finish(id, response), Reply(id));
  }

  /** Main result: from every reachable state, a request that is still waiting can be
      answered, with anything its handler may return if that has not finished. */
  lemma WaitingCanBeAnswered(before: seq<Action>, id: Id, response: Response) returns (after: seq<Action>)
    requires var s := Run(INITIAL, before); id < s.next && OutcomeOf(s, id) == Waiting
    ensures var s := Run(INITIAL, before);
            OutcomeOf(Run(s, after), id) == Answered(if id in s.results then s.results[id] else response)
  {
    var s := Run(INITIAL, before);
    InitialInv();
    RunInv(INITIAL, before);
    OutcomesAreSound(before, id);
    if id in s.finished {
      after := [Reply(id)];
      ReplyAnswers(s, id);
      RunOne(s, Reply(id));
    } else {
      NotFinishedHasNoResult(s, id);
      var taken: seq<Action> := [];
      if id !in s.running {
        var k :| 0 <= k < |s.queue| && s.queue[k] == id;
        taken := Dispatches(k + 1);
        DispatchMany(s, k + 1);
        assert s.queue[..k + 1][k] == id;
      }
      var t := Run(s, taken);
      RunInv(s, taken);
      FinishThenReply(t, id, response);
      after := taken + [Finish(id, response), Reply(id)];
      RunConcat(s, taken, [Finish(id, response), Reply(id)]);
    }
  }

  lemma NotFinishedHasNoResult(s: State, id: Id)
    requires Inv(s) && OutcomeOf(s, id) == Waiting && id !in s.finished
    ensures id !in s.results
  {
  }

  /** And it can still fail, once its handler has been spawned. */
  lemma InFlightCanFail(before: seq<Action>, id: Id)
    requires var s := Run(INITIAL, before); id in s.running || id in s.finished
    ensures OutcomeOf(Step(Run(INITIAL, before), Abort(id)), id) == RecvFailed
  {
    var s := Run(INITIAL, before);
    InitialInv();
    RunInv(INITIAL, before);
    assert id in s.running <==> id in ToSet(s.running);
    assert id in ToSet(s.accepted);
  }

  /** Draining a batch leaves its mark exactly when every request of it has come back,
      answered or failed, and the mark confirms the answered ones. */
  lemma DrainWaitsForAll(before: seq<Action>, batch: set<Id>)
    ensures var s := Run(INITIAL, before);
            var log := Step(s, Drain(batch)).log;
            if forall id | id in batch :: OutcomeOf(s, id).Answered? || OutcomeOf(s, id).RecvFailed?
            then log == s.log + [Mark(batch, set id | id in batch && OutcomeOf(s, id).Answered?)]
            else log == s.log
  {
    var s := Run(INITIAL, before);
    InitialInv();
    RunInv(INITIAL, before);
    forall id | id in batch
      ensures OutcomeOf(s, id).Answered? <==> id in s.answered
      ensures OutcomeOf(s, id).RecvFailed? <==> id in s.dropped
    {
      assert id in s.answered.Keys + s.dropped ==> id in ToSet(s.accepted);
    }
    assert (set id | id in batch && OutcomeOf(s, id).Answered?) == batch * s.answered.Keys;
  }
}
