/** The request/response gateway as a state machine: senders enqueue requests, a
    receive loop spawns one handler per request, handlers finish and reply on a
    one-shot channel, and any of it may be torn down in between. */
module Gateway {

  type Id = nat
  type Response = string

  /** What an observer of the connection sees: a handler's effect, or a mark that a
      caller leaves after draining the completions of a batch; `confirmed` are
      those of the batch that had been answered. */
  datatype Event = Handled(id: Id) | Mark(batch: set<Id>, confirmed: set<Id>)

  datatype State = State(
    next: Id,                     // ids are handed out in sending order
    open: bool,                   // the receive loop is alive
    accepted: seq<Id>,
    rejected: set<Id>,
    queue: seq<Id>,
    running: seq<Id>,             // spawned handlers, in dispatch order
    results: map<Id, Response>,   // what each finished handler returned
    finished: set<Id>,            // finished, reply not sent yet
    answered: map<Id, Response>,  // replies that arrived
    dropped: set<Id>,             // reply channel dropped unused
    log: seq<Event>)

  const INITIAL := State(0, true, [], {}, [], [], map[], {}, map[], {}, [])

  datatype Action =
    | Send
    | Dispatch
    | Finish(id: Id, response: Response)
    | Reply(id: Id)
    | Abort(id: Id)
    | Close
    | Drain(batch: set<Id>)

  function Remove(ids: seq<Id>, id: Id): seq<Id> {
    if ids == [] then [] else (if ids[0] == id then [] else [ids[0]]) + Remove(ids[1..], id)
  }

  function ToSet(ids: seq<Id>): set<Id> {
    set id | id in ids
  }

  /** One step; an action that is not enabled changes nothing. */
  function Step(s: State, a: Action): State {
    match a
    case Send =>
      if s.open then s.(next := s.next + 1, accepted := s.accepted + [s.next], queue := s.queue + [s.next])
      else s.(next := s.next + 1, rejected := s.rejected + {s.next})
    case Dispatch =>
      if s.queue == [] then s
      else s.(queue := s.queue[1..], running := s.running + [s.queue[0]])
    case Finish(id, response) =>
      if id !in s.running then s
      else s.(running := Remove(s.running, id), results := s.results[id := response],
              finished := s.finished + {id}, log := s.log + [Handled(id)])
    case Reply(id) =>
      if id !in s.finished || id !in s.results then s
      else s.(finished := s.finished - {id}, answered := s.answered[id := s.results[id]])
    case Abort(id) =>
      if id in s.running then s.(running := Remove(s.running, id), dropped := s.dropped + {id})
      else if id in s.finished then s.(finished := s.finished - {id}, dropped := s.dropped + {id})
      else s
    case Close => s.(open := false, dropped := s.dropped + ToSet(s.queue), queue := [])
    case Drain(batch) =>
      if batch <= s.answered.Keys + s.dropped then s.(log := s.log + [Mark(batch, batch * s.answered.Keys)]) else s
  }

  function Run(s: State, actions: seq<Action>): State
    decreases |actions|
  {
    if actions == [] then s else Run(Step(s, actions[0]), actions[1..])
  }

  /** What the caller of `acp_send` gets for the request it sent as `id`. */
  datatype Outcome = Waiting | Answered(response: Response) | SendFailed | RecvFailed

  function OutcomeOf(s: State, id: Id): Outcome {
    if id in s.rejected then SendFailed
    else if id in s.answered then Answered(s.answered[id])
    else if id in s.dropped then RecvFailed
    else Waiting
  }

  // -------------------------------------------------------------- invariant

  ghost predicate Distinct(ids: seq<Id>) {
    forall i, j | 0 <= i < j < |ids| :: ids[i] != ids[j]
  }

  ghost predicate Known(s: State, id: Id) {
    id in s.accepted || id in s.rejected
  }

  /** Every accepted request is in exactly one place. */
  ghost predicate Placed(s: State) {
    && Distinct(s.accepted) && Distinct(s.queue) && Distinct(s.running)
    && ToSet(s.accepted) == ToSet(s.queue) + ToSet(s.running) + s.finished + s.answered.Keys + s.dropped
    && ToSet(s.queue) !! ToSet(s.running) !! s.finished !! s.answered.Keys !! s.dropped
    && ToSet(s.accepted) !! s.rejected
    && (forall id | id in s.accepted :: id < s.next)
    && (forall id | id in s.rejected :: id < s.next)
    && (forall id: nat | id < s.next :: Known(s, id))
    && (!s.open ==> s.queue == [])
  }

  /** Replies are what the request's own handler returned. */
  ghost predicate Honest(s: State) {
    && s.finished <= s.results.Keys
    && (forall id | id in s.answered :: id in s.results && s.answered[id] == s.results[id])
    && (forall id | id in s.results :: id in s.finished || id in s.answered || id in s.dropped)
  }

  /** Effects happen once per finished handler, and before any mark that counts
      the request as answered. */
  ghost predicate Logged(s: State) {
    && (forall id :: Handled(id) in s.log <==> id in s.results)
    && (forall i, j | 0 <= i < j < |s.log| && s.log[i].Handled? :: s.log[i] != s.log[j])
    && (forall m, id | 0 <= m < |s.log| && s.log[m].Mark? && id in s.log[m].confirmed :: Handled(id) in s.log[..m])
  }

  ghost predicate Inv(s: State) {
    Placed(s) && Honest(s) && Logged(s)
  }

  lemma ToSetCons(x: Id, ids: seq<Id>)
    ensures ToSet([x] + ids) == {x} + ToSet(ids)
  {
    assert forall id :: id in [x] + ids <==> id == x || id in ids;
  }

  lemma DistinctCons(x: Id, ids: seq<Id>)
    ensures Distinct([x] + ids) <==> Distinct(ids) && x !in ids
  {
    var all := [x] + ids;
    if Distinct(all) {
      forall i, j | 0 <= i < j < |ids| ensures ids[i] != ids[j] { assert all[i + 1] != all[j + 1]; }
      forall i | 0 <= i < |ids| ensures ids[i] != x { assert all[0] != all[i + 1]; }
    }
    if Distinct(ids) && x !in ids {
      forall i, j | 0 <= i < j < |all| ensures all[i] != all[j] { assert all[j] == ids[j - 1]; }
    }
  }

  lemma {:induction false} RemoveSet(ids: seq<Id>, id: Id)
    ensures ToSet(Remove(ids, id)) == ToSet(ids) - {id}
  {
    if ids != [] {
      RemoveSet(ids[1..], id);
      assert ids == [ids[0]] + ids[1..];
      ToSetCons(ids[0], ids[1..]);
      ToSetCons(ids[0], Remove(ids[1..], id));
      assert [] + Remove(ids[1..], id) == Remove(ids[1..], id);
    }
  }

  lemma {:induction false} RemoveDistinct(ids: seq<Id>, id: Id)
    requires Distinct(ids)
    ensures Distinct(Remove(ids, id))
  {
    if ids != [] {
      var rest := Remove(ids[1..], id);
      assert ids == [ids[0]] + ids[1..];
      DistinctCons(ids[0], ids[1..]);
      RemoveDistinct(ids[1..], id);
      RemoveSet(ids[1..], id);
      assert ids[0] !in ToSet(ids[1..]) && ids[0] !in ToSet(rest);
      DistinctCons(ids[0], rest);
      assert [] + rest == rest;
    }
  }

  lemma RemoveLaw(ids: seq<Id>, id: Id)
    ensures ToSet(Remove(ids, id)) == ToSet(ids) - {id}
    ensures Distinct(ids) ==> Distinct(Remove(ids, id))
  {
    RemoveSet(ids, id);
    if Distinct(ids) { RemoveDistinct(ids, id); }
  }

  lemma ToSetSnoc(ids: seq<Id>, id: Id)
    ensures ToSet(ids + [id]) == ToSet(ids) + {id}
    ensures Distinct(ids) && id !in ids ==> Distinct(ids + [id])
  {
  }

  lemma ToSetTail(ids: seq<Id>)
    requires ids != [] && Distinct(ids)
    ensures ToSet(ids) == {ids[0]} + ToSet(ids[1..]) && ids[0] !in ids[1..] && Distinct(ids[1..])
  {
    assert ids == [ids[0]] + ids[1..];
  }

  lemma SendPlaced(s: State)
    requires Placed(s)
    ensures Placed(Step(s, Send))
  {
    ToSetSnoc(s.accepted, s.next);
    ToSetSnoc(s.queue, s.next);
    assert s.next !in ToSet(s.accepted);
    forall id: nat | id < s.next ensures Known(Step(s, Send), id) { assert Known(s, id); }
  }

  lemma KnownKept(s: State, a: Action)
    requires Placed(s) && !a.Send?
    ensures forall id: nat | id < s.next :: Known(Step(s, a), id)
  {
    forall id: nat | id < s.next ensures Known(Step(s, a), id) { assert Known(s, id); }
  }

  lemma DispatchPlaced(s: State)
    requires Placed(s)
    ensures Placed(Step(s, Dispatch))
  {
    KnownKept(s, Dispatch);
    if s.queue != [] {
      ToSetTail(s.queue);
      assert s.queue[0] in ToSet(s.queue);
      assert s.queue[0] !in ToSet(s.running);
      ToSetSnoc(s.running, s.queue[0]);
    }
  }

  lemma FinishPlaced(s: State, id: Id, response: Response)
    requires Placed(s)
    ensures Placed(Step(s, Finish(id, response)))
  {
    KnownKept(s, Finish(id, response));
    RemoveLaw(s.running, id);
    assert id in s.running <==> id in ToSet(s.running);
  }

  lemma AbortPlaced(s: State, id: Id)
    requires Placed(s)
    ensures Placed(Step(s, Abort(id)))
  {
    KnownKept(s, Abort(id));
    RemoveLaw(s.running, id);
    assert id in s.running <==> id in ToSet(s.running);
  }

  lemma ReplyPlaced(s: State, id: Id)
    requires Placed(s)
    ensures Placed(Step(s, Reply(id)))
  {
    KnownKept(s, Reply(id));
  }

  lemma ClosePlaced(s: State)
    requires Placed(s)
    ensures Placed(Step(s, Close))
  {
    KnownKept(s, Close);
    assert ToSet([]) == {};
  }

  lemma StepHonest(s: State, a: Action)
    requires Placed(s) && Honest(s)
    ensures Honest(Step(s, a))
  {
    if a.Finish? && a.id in s.running {
      assert a.id in ToSet(s.running);
    }
  }

  lemma LogGrows(log: seq<Event>, e: Event)
    ensures forall m | 0 <= m < |log| :: (log + [e])[m] == log[m] && (log + [e])[..m] == log[..m]
    ensures forall x :: x in log + [e] <==> x in log || x == e
  {
  }

  lemma FinishLogged(s: State, id: Id, response: Response)
    requires Inv(s) && id in s.running
    ensures Logged(Step(s, Finish(id, response)))
  {
    var t := Step(s, Finish(id, response));
    LogGrows(s.log, Handled(id));
    assert id in ToSet(s.running);
    assert id !in s.results;
    assert Handled(id) !in s.log;
    forall i, j | 0 <= i < j < |t.log| && t.log[i].Handled? ensures t.log[i] != t.log[j] {
      if j == |s.log| { assert t.log[i] in s.log; }
    }
  }

  lemma MarkKeepsEffects(log: seq<Event>, e: Event)
    requires e.Mark? && forall i, j | 0 <= i < j < |log| && log[i].Handled? :: log[i] != log[j]
    ensures forall id :: Handled(id) in log + [e] <==> Handled(id) in log
    ensures forall i, j | 0 <= i < j < |log + [e]| && (log + [e])[i].Handled? :: (log + [e])[i] != (log + [e])[j]
  {
  }

  lemma MarkKeepsConfirmed(log: seq<Event>, e: Event)
    requires e.Mark? && forall id | id in e.confirmed :: Handled(id) in log
    requires forall m, id | 0 <= m < |log| && log[m].Mark? && id in log[m].confirmed :: Handled(id) in log[..m]
    ensures var all := log + [e];
            forall m, id | 0 <= m < |all| && all[m].Mark? && id in all[m].confirmed :: Handled(id) in all[..m]
  {
    var all := log + [e];
    forall m, id | 0 <= m < |all| && all[m].Mark? && id in all[m].confirmed ensures Handled(id) in all[..m] {
      assert all[..m] == log[..m];
      assert m == |log| ==> log[..m] == log;
    }
  }

  /** Adding a mark that confirms only what was handled keeps the log in order. */
  lemma MarkLogged(s: State, e: Event)
    requires Logged(s) && e.Mark? && forall id | id in e.confirmed :: Handled(id) in s.log
    ensures Logged(s.(log := s.log + [e]))
  {
    MarkKeepsEffects(s.log, e);
    MarkKeepsConfirmed(s.log, e);
  }

  lemma DrainLogged(s: State, batch: set<Id>)
    requires Inv(s)
    ensures Logged(Step(s, Drain(batch)))
  {
    if batch <= s.answered.Keys + s.dropped {
      MarkLogged(s, Mark(batch, batch * s.answered.Keys));
    }
  }

  lemma StepLogged(s: State, a: Action)
    requires Inv(s)
    ensures Logged(Step(s, a))
  {
    match a
    case Finish(id, response) => if id in s.running { FinishLogged(s, id, response); }
    case Drain(batch) => DrainLogged(s, batch);
    case _ =>
  }

  lemma StepInv(s: State, a: Action)
    requires Inv(s)
    ensures Inv(Step(s, a))
  {
    match a {
      case Send => SendPlaced(s);
      case Dispatch => DispatchPlaced(s);
      case Finish(id, response) => FinishPlaced(s, id, response);
      case Reply(id) => ReplyPlaced(s, id);
      case Abort(id) => AbortPlaced(s, id);
      case Close => ClosePlaced(s);
      case Drain(_) => KnownKept(s, a);
    }
    StepHonest(s, a);
    StepLogged(s, a);
  }

  /** Main result: the invariant holds after every interleaving of steps. */
  lemma {:induction false} RunInv(s: State, actions: seq<Action>)
    requires Inv(s)
    ensures Inv(Run(s, actions))
    decreases |actions|
  {
    if actions != [] {
      StepInv(s, actions[0]);
      RunInv(Step(s, actions[0]), actions[1..]);
    }
  }

  // ------------------------------------------------- what callers may rely on

  /** Places are left in one direction only. */
  lemma StepKeepsOutcome(s: State, a: Action, id: Id)
    requires Inv(s) && OutcomeOf(s, id) != Waiting
    ensures OutcomeOf(Step(s, a), id) == OutcomeOf(s, id)
  {
    assert id in s.accepted <==> id in ToSet(s.accepted);
    assert id in s.queue <==> id in ToSet(s.queue);
    assert a.Abort? ==> (a.id in s.running <==> a.id in ToSet(s.running));
  }

  lemma {:induction false} RunKeepsOutcome(s: State, actions: seq<Action>, id: Id)
    requires Inv(s) && OutcomeOf(s, id) != Waiting
    ensures OutcomeOf(Run(s, actions), id) == OutcomeOf(s, id)
    decreases |actions|
  {
    if actions != [] {
      StepKeepsOutcome(s, actions[0], id);
      StepInv(s, actions[0]);
      RunKeepsOutcome(Step(s, actions[0]), actions[1..], id);
    }
  }

  /** In every reachable state: a request is rejected exactly when it was never
      accepted; a response is the one its own handler returned; a receive failure
      means accepted and never answered; nothing is both. */
  lemma OutcomesAreSound(actions: seq<Action>, id: Id)
    ensures var s := Run(INITIAL, actions);
            && (OutcomeOf(s, id).SendFailed? ==> id !in s.accepted)
            && (OutcomeOf(s, id).Answered? ==> id in s.accepted && id in s.results && OutcomeOf(s, id).response == s.results[id])
            && (OutcomeOf(s, id).RecvFailed? ==> id in s.accepted && id !in s.answered)
            && (id < s.next && OutcomeOf(s, id).Waiting? ==> id in s.queue || id in s.running || id in s.finished)
  {
    var s := Run(INITIAL, actions);
    InitialInv();
    RunInv(INITIAL, actions);
    assert id in s.accepted <==> id in ToSet(s.accepted);
    assert id in s.queue <==> id in ToSet(s.queue);
    assert id in s.running <==> id in ToSet(s.running);
    if id < s.next { assert Known(s, id); }
  }

  lemma InitialInv()
    ensures Inv(INITIAL)
  {
  }

  /** And once an outcome is there, no later step changes it: at most one answer. */
  lemma AnsweredAtMostOnce(before: seq<Action>, after: seq<Action>, id: Id)
    requires OutcomeOf(Run(INITIAL, before), id) != Waiting
    ensures OutcomeOf(Run(Run(INITIAL, before), after), id) == OutcomeOf(Run(INITIAL, before), id)
  {
    InitialInv();
    RunInv(INITIAL, before);
    RunKeepsOutcome(Run(INITIAL, before), after, id);
  }

  /** Main result: after draining the completions of a batch without a receive
      failure, every handler effect of the batch precedes the mark, exactly once. */
  lemma DrainedBatchPrecedesMark(actions: seq<Action>, batch: set<Id>, later: seq<Action>)
    requires var s := Run(INITIAL, actions); forall id | id in batch :: OutcomeOf(s, id).Answered?
    ensures var s := Run(INITIAL, actions);
            var t := Run(Step(s, Drain(batch)), later);
            && |s.log| < |t.log| && t.log[|s.log|] == Mark(batch, batch)
            && (forall id | id in batch :: Handled(id) in t.log[..|s.log|] && Handled(id) !in t.log[|s.log|..])
  {
    var s := Run(INITIAL, actions);
    InitialInv();
    RunInv(INITIAL, actions);
    DrainMarks(s, batch);
    DrainedOrder(s, Step(s, Drain(batch)), batch, later);
  }

  lemma DrainMarks(s: State, batch: set<Id>)
    requires Inv(s) && forall id | id in batch :: OutcomeOf(s, id).Answered?
    ensures Step(s, Drain(batch)).log == s.log + [Mark(batch, batch)]
    ensures Inv(Step(s, Drain(batch)))
    ensures forall id | id in batch :: Handled(id) in s.log
  {
    forall id | id in batch ensures id in s.answered && Handled(id) in s.log {
      assert OutcomeOf(s, id).Answered?;
    }
    assert batch * s.answered.Keys == batch;
    StepInv(s, Drain(batch));
  }

  lemma DrainedOrder(s: State, m: State, batch: set<Id>, later: seq<Action>)
    requires Inv(m) && m.log == s.log + [Mark(batch, batch)] && forall id | id in batch :: Handled(id) in s.log
    ensures var t := Run(m, later);
            && |s.log| < |t.log| && t.log[|s.log|] == Mark(batch, batch)
            && (forall id | id in batch :: Handled(id) in t.log[..|s.log|] && Handled(id) !in t.log[|s.log|..])
  {
    RunInv(m, later);
    LogIsPrefix(m, later);
    var t := Run(m, later);
    assert t.log[..|s.log|] == s.log;
    forall id | id in batch ensures Handled(id) !in t.log[|s.log|..] {
      OnlyOnce(t, s.log, id);
    }
  }

  lemma OnlyOnce(t: State, prefix: seq<Event>, id: Id)
    requires Logged(t) && prefix <= t.log && Handled(id) in prefix
    ensures Handled(id) !in t.log[|prefix|..]
  {
    var i :| 0 <= i < |prefix| && prefix[i] == Handled(id);
    assert t.log[i] == Handled(id);
  }

  lemma {:induction false} LogIsPrefix(s: State, actions: seq<Action>)
    ensures s.log <= Run(s, actions).log
    decreases |actions|
  {
    if actions != [] {
      LogIsPrefix(Step(s, actions[0]), actions[1..]);
      assert s.log <= Step(s, actions[0]).log;
    }
  }

  /** With a receive failure the mark may come without the effect. */
  lemma FailedBatchWitness()
    ensures var t := Run(INITIAL, [Send, Dispatch, Abort(0), Drain({0})]);
            t.log == [Mark({0}, {})] && OutcomeOf(t, 0) == RecvFailed
  {
    var s1 := Step(INITIAL, Send);
    var s2 := Step(s1, Dispatch);
    assert s1.queue == [0] && s2.running == [0];
    var s3 := Step(s2, Abort(0));
    assert [0][1..] == [];
    assert s3.dropped == {0} && s3.running == [];
    var s4 := Step(s3, Drain({0}));
    assert {0} * s3.answered.Keys == {};
    assert s4.log == [Mark({0}, {})];
    var acts := [Send, Dispatch, Abort(0), Drain({0})];
    assert acts[1..] == [Dispatch, Abort(0), Drain({0})];
    assert acts[1..][1..] == [Abort(0), Drain({0})];
    assert acts[1..][1..][1..] == [Drain({0})];
    assert acts[1..][1..][1..][1..] == [];
  }

  // ---------------------------------------------------------------- ordering

  lemma UnsentIsUnhandled(s: State, id: Id)
    requires Inv(s) && id >= s.next
    ensures Handled(id) !in s.log
  {
    if id in s.results { ResultsAreAccepted(s, id); }
  }

  lemma ResultsAreAccepted(s: State, id: Id)
    requires Inv(s) && id in s.results
    ensures id in s.accepted && id < s.next
  {
    assert id in ToSet(s.accepted);
  }

  lemma AnsweredIsHandled(s: State, id: Id)
    requires Inv(s) && OutcomeOf(s, id).Answered?
    ensures Handled(id) in s.log
  {
    assert id in s.results;
  }

  lemma BeforeAfter(log: seq<Event>, n: nat, x: Event, y: Event)
    requires n <= |log| && x !in log[n..] && y !in log[..n]
    ensures forall i, j | 0 <= i < |log| && 0 <= j < |log| && log[i] == x && log[j] == y :: i < j
  {
    assert forall i | n <= i < |log| :: log[i] == log[n..][i - n];
    assert forall j | 0 <= j < n :: log[j] == log[..n][j];
  }

  /** Main result, over every interleaving: a request sent after the completion of
      another was answered takes effect after it. */
  lemma AnsweredPrecedesLater(before: seq<Action>, after: seq<Action>, a: Id, b: Id)
    requires var s := Run(INITIAL, before); OutcomeOf(s, a).Answered? && b >= s.next
    ensures var log := Run(Run(INITIAL, before), after).log;
            && Handled(a) in log
            && forall i, j | 0 <= i < |log| && 0 <= j < |log| && log[i] == Handled(a) && log[j] == Handled(b) :: i < j
  {
    var s := Run(INITIAL, before);
    InitialInv();
    RunInv(INITIAL, before);
    AnsweredIsHandled(s, a);
    UnsentIsUnhandled(s, b);
    HandledPrecedes(s, after, a, b);
  }

  lemma HandledPrecedes(s: State, after: seq<Action>, a: Id, b: Id)
    requires Inv(s) && Handled(a) in s.log && Handled(b) !in s.log
    ensures var log := Run(s, after).log;
            && Handled(a) in log
            && forall i, j | 0 <= i < |log| && 0 <= j < |log| && log[i] == Handled(a) && log[j] == Handled(b) :: i < j
  {
    RunInv(s, after);
    LogIsPrefix(s, after);
    var t := Run(s, after);
    OnlyOnce(t, s.log, a);
    assert t.log[..|s.log|] == s.log;
    BeforeAfter(t.log, |s.log|, Handled(a), Handled(b));
  }

  lemma {:induction false} RemoveKeepsOthers(ids: seq<Id>, id: Id, other: Id)
    requires id != other
    ensures other in Remove(ids, id) <==> other in ids
  {
    if ids != [] { RemoveKeepsOthers(ids[1..], id, other); }
  }

  lemma FinishTwo(s: State, a: Id, b: Id, response: Response)
    requires a in s.running && b in s.running && a != b
    ensures Step(Step(s, Finish(a, response)), Finish(b, response)).log == s.log + [Handled(a)] + [Handled(b)]
  {
    RemoveKeepsOthers(s.running, a, b);
  }

  /** And nothing less orders them: two handlers in flight may take effect either
      way round, whichever was sent first. */
  lemma InFlightIsUnordered(s: State, a: Id, b: Id, response: Response)
    requires a in s.running && b in s.running && a != b
    ensures Run(s, [Finish(a, response), Finish(b, response)]).log == s.log + [Handled(a)] + [Handled(b)]
    ensures Run(s, [Finish(b, response), Finish(a, response)]).log == s.log + [Handled(b)] + [Handled(a)]
  {
    FinishTwo(s, a, b, response);
    FinishTwo(s, b, a, response);
    RunTwo(s, Finish(a, response), Finish(b, response));
    RunTwo(s, Finish(b, response), Finish(a, response));
  }

  lemma RunOne(s: State, x: Action)
    ensures Run(s, [x]) == Step(s, x)
  {
    assert [x][1..] == [];
    assert Run(s, [x]) == Run(Step(s, x), [x][1..]);
  }

  lemma RunTwo(s: State, x: Action, y: Action)
    ensures Run(s, [x, y]) == Step(Step(s, x), y)
  {
    RunOne(Step(s, x), y);
    assert [x, y][1..] == [y];
    assert Run(s, [x, y]) == Run(Step(s, x), [x, y][1..]);
  }

  /** The smallest run in which the later request takes effect first. */
  lemma OutOfOrderWitness(response: Response)
    ensures Run(INITIAL, ([Send, Send] + [Dispatch, Dispatch]) + [Finish(1, response), Finish(0, response)]).log ==
            [Handled(1), Handled(0)]
  {
    var s := Run(INITIAL, [Send, Send] + [Dispatch, Dispatch]);
    TwoInFlight();
    InFlightIsUnordered(s, 1, 0, response);
    RunConcat(INITIAL, [Send, Send] + [Dispatch, Dispatch], [Finish(1, response), Finish(0, response)]);
  }

  /** A reachable state with two handlers in flight. */
  lemma TwoInFlight()
    ensures Run(INITIAL, [Send, Send] + [Dispatch, Dispatch]).running == [0, 1]
    ensures Run(INITIAL, [Send, Send] + [Dispatch, Dispatch]).log == []
  {
    var s := Step(Step(INITIAL, Send), Send);
    RunTwo(INITIAL, Send, Send);
    RunTwo(s, Dispatch, Dispatch);
    assert s.queue == [0, 1] && [0, 1][1..] == [1];
    RunConcat(INITIAL, [Send, Send], [Dispatch, Dispatch]);
  }

  lemma {:induction false} RunConcat(s: State, x: seq<Action>, y: seq<Action>)
    ensures Run(s, x + y) == Run(Run(s, x), y)
    decreases |x|
  {
    if x == [] {
      assert x + y == y;
    } else {
      assert (x + y)[1..] == x[1..] + y;
      RunConcat(Step(s, x[0]), x[1..], y);
    }
  }
}
