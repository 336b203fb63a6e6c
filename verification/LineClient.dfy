/** What a client of the line reader gets: the deliverable bytes, and the error
    that ended the stream, once, behind all of them. */
module LineClient {
  import opened Conversation
  import opened Utf8
  import opened LineReader
  import opened LineBuffer

  /** The error that stops the reader task, if any. */
  ghost function Ending(cap: nat, src: Source): Option<Outcome>
    decreases Weight(src)
  {
    var (o, rest) := ReadLine(cap, src, []);
    ReadLineShrinks(cap, src, []);
    if !o.Line? then Some(o) else if o.bytes == [] then None else Ending(cap, rest)
  }

  /** Told from the bytes: the first line over the cap stops it, or else the
      source's own error, if it has one. */
  function EndingOf(cap: nat, lines: seq<seq<Byte>>, faulty: bool): Option<Outcome> {
    if lines == [] then (if faulty then Some(IoError) else None)
    else if |lines[0]| > cap then Some(TooLong)
    else if faulty && !EndsLine(lines[0]) then Some(IoError)
    else EndingOf(cap, lines[1..], faulty)
  }

  lemma EndingStep(cap: nat, raw: seq<Byte>, faulty: bool, o: Outcome)
    requires raw != [] && ReadsAs(cap, raw, faulty, o)
    ensures EndingOf(cap, SplitLines(raw), faulty) ==
            if o.Line? then EndingOf(cap, SplitLines(raw[|FirstLine(raw)|..]), faulty) else Some(o)
  {
    FirstLineEnds(raw);
    SplitStep(raw);
  }

  /** The error that ends the stream is told from the bytes. */
  lemma {:induction false} EndingFromBytes(cap: nat, src: Source)
    requires Honest(src)
    ensures Ending(cap, src) == EndingOf(cap, SplitLines(Raw(src)), !NoFault(src))
    decreases Weight(src)
  {
    var (o, rest) := ReadLine(cap, src, []);
    var raw := Raw(src);
    ReadLineLaw(cap, src, []);
    ReadLineShrinks(cap, src, []);
    assert [] + raw == raw;
    if raw != [] {
      EndingStep(cap, raw, !NoFault(src), o);
      if o.Line? { EndingFromBytes(cap, rest); }
    }
  }

  predicate AllFit(cap: nat, lines: seq<seq<Byte>>) {
    forall i | 0 <= i < |lines| :: |lines[i]| <= cap
  }

  lemma AllFitStep(cap: nat, lines: seq<seq<Byte>>)
    requires lines != []
    ensures AllFit(cap, lines) <==> |lines[0]| <= cap && AllFit(cap, lines[1..])
  {
    assert forall i | 1 <= i < |lines| :: lines[i] == lines[1..][i - 1];
    assert forall i | 0 <= i < |lines| - 1 :: lines[1..][i] == lines[i + 1];
  }

  /** There is no error exactly when the source has none and every line fits. */
  lemma {:induction false} NoEndingIff(cap: nat, lines: seq<seq<Byte>>, faulty: bool)
    ensures EndingOf(cap, lines, faulty).None? <==> !faulty && AllFit(cap, lines)
  {
    if lines != [] {
      NoEndingIff(cap, lines[1..], faulty);
      AllFitStep(cap, lines);
    }
  }

  /** The error that is queued or still to come. */
  ghost function PendingError(cap: nat, s: State): Option<Outcome> {
    if s.queue != [] && s.queue[|s.queue| - 1].Failure? then Some(s.queue[|s.queue| - 1].outcome)
    else if s.closed then None
    else Ending(cap, s.src)
  }

  lemma ProduceKeepsError(cap: nat, s: State)
    requires Valid(cap, s)
    ensures PendingError(cap, Produce(cap, s)) == PendingError(cap, s)
  {
  }

  /** A poll reports the pending error or keeps it; at the end there is none. */
  lemma PollKeepsError(cap: nat, s: State, n: nat)
    requires Valid(cap, s) && n > 0
    ensures var (t, p) := PollRead(s, n);
            && (p.Failed? ==> PendingError(cap, s) == Some(p.outcome))
            && (!p.Failed? ==> PendingError(cap, t) == PendingError(cap, s))
            && (p == Ready([]) ==> PendingError(cap, s) == None)
  {
    if s.pos >= |s.buf| && s.queue != [] && s.queue[0].Bytes? {
      assert GoodLine(cap, s.queue[0].line);
    }
  }

  /** Main result: a client that keeps polling, letting the task run when told to
      wait, ends with exactly the deliverable bytes and exactly the error that
      ended the stream, whatever room its buffer has. */
  method ReadToEnd(source: Source, room: nat) returns (all: seq<Byte>, error: Option<Outcome>)
    requires Honest(source) && room > 0
    ensures all == Deliverable(MAX_LINE_SIZE, source)
    ensures error == Ending(MAX_LINE_SIZE, source)
    ensures error.None? ==> all == Raw(source)
  {
    var reader := new LineBufferedRead(source);
    var out := new Byte[room](_ => 0);
    all, error := [], None;
    InitialIsAccounted(MAX_LINE_SIZE, source);
    while true
      invariant fresh(reader) && fresh(out) && out.Length == room
      invariant Conserved(MAX_LINE_SIZE, source, reader.Value(), all)
      invariant error.None? && PendingError(MAX_LINE_SIZE, reader.Value()) == Ending(MAX_LINE_SIZE, source)
      decreases Unread(reader.Value()), Buffered(reader.Value())
    {
      PollFacts(MAX_LINE_SIZE, source, reader.Value(), all, room);
      ConservedPrefix(MAX_LINE_SIZE, source, reader.Value(), all);
      PollKeepsError(MAX_LINE_SIZE, reader.Value(), room);
      var r := reader.PollInto(out);
      match r {
        case Pending =>
          ProduceKeepsError(MAX_LINE_SIZE, reader.Value());
          reader.ReaderTaskRound();
        case Failed(o) =>
          error := Some(o);
          break;
        case Ready(bytes) =>
          if bytes == [] {
            break;
          }
          all := all + out[..|bytes|];
      }
    }
    WholeWithoutError(MAX_LINE_SIZE, source);
  }

  lemma WholeWithoutError(cap: nat, src: Source)
    requires Honest(src)
    ensures Ending(cap, src).None? ==> Deliverable(cap, src) == Raw(src)
  {
    EndingFromBytes(cap, src);
    NoEndingIff(cap, SplitLines(Raw(src)), !NoFault(src));
    DeliverableIsPrefix(cap, src);
    var lines := SplitLines(Raw(src));
    assert forall l | l in lines :: exists i :: 0 <= i < |lines| && lines[i] == l;
  }

  // ------------------------------------------------------------ other refills

  /** Two readers that cannot be told apart from now on: the same queue and buffer,
      and sources with the same bytes left unless the task has ended. */
  ghost predicate Alike(s: State, t: State) {
    && s.closed == t.closed && s.queue == t.queue && s.buf == t.buf && s.pos == t.pos
    && Honest(s.src) && Honest(t.src)
    && (!s.closed ==> Raw(s.src) == Raw(t.src) && (NoFault(s.src) <==> NoFault(t.src)))
  }

  /** The bytes decide the outcome of reading a line. */
  lemma SameOutcome(cap: nat, x: Source, y: Source)
    requires Honest(x) && Honest(y) && Raw(x) == Raw(y) && (NoFault(x) <==> NoFault(y))
    ensures var (o, p), (q, r) := ReadLine(cap, x, []), ReadLine(cap, y, []);
            o == q && (o.Line? ==> Raw(p) == Raw(r) && (NoFault(p) <==> NoFault(r)))
  {
    ReadLineLaw(cap, x, []);
    ReadLineLaw(cap, y, []);
    assert [] + Raw(x) == Raw(x) && [] + Raw(y) == Raw(y);
  }

  lemma ProduceAlike(cap: nat, s: State, t: State)
    requires Alike(s, t)
    ensures Alike(Produce(cap, s), Produce(cap, t))
  {
    if CanProduce(s) {
      SameOutcome(cap, s.src, t.src);
      FaultStaysHonest(cap, s.src, []);
      FaultStaysHonest(cap, t.src, []);
    }
  }

  lemma StepAlike(cap: nat, s: State, t: State, a: Action)
    requires Alike(s, t)
    ensures Alike(Step(cap, s, a).0, Step(cap, t, a).0) && Step(cap, s, a).1 == Step(cap, t, a).1
  {
    if a.TaskRound? { ProduceAlike(cap, s, t); }
  }

  lemma {:induction false} RunAlike(cap: nat, s: State, t: State, actions: seq<Action>)
    requires Alike(s, t)
    ensures Alike(Run(cap, s, actions).0, Run(cap, t, actions).0) && Run(cap, s, actions).1 == Run(cap, t, actions).1
    decreases |actions|
  {
    if actions != [] {
      StepAlike(cap, s, t, actions[0]);
      RunAlike(cap, Step(cap, s, actions[0]).0, Step(cap, t, actions[0]).0, actions[1..]);
    }
  }

  /** Main result: how the source is cut into refills makes no difference: the same
      polls serve the same bytes and see the same next result, and the stream ends
      in the same error. */
  lemma RefillsDoNotMatter(cap: nat, src: Source, other: Source, actions: seq<Action>, n: nat)
    requires Honest(src) && Honest(other) && Raw(src) == Raw(other) && (NoFault(src) <==> NoFault(other))
    ensures Run(cap, Initial(src), actions).1 == Run(cap, Initial(other), actions).1
    ensures PollRead(Run(cap, Initial(src), actions).0, n).1 == PollRead(Run(cap, Initial(other), actions).0, n).1
    ensures AllLines(cap, src) == AllLines(cap, other) && Ending(cap, src) == Ending(cap, other)
  {
    RunAlike(cap, Initial(src), Initial(other), actions);
    SameLinesSameEnding(cap, src, other);
  }

  lemma SameLinesSameEnding(cap: nat, src: Source, other: Source)
    requires Honest(src) && Honest(other) && Raw(src) == Raw(other) && (NoFault(src) <==> NoFault(other))
    ensures AllLines(cap, src) == AllLines(cap, other) && Ending(cap, src) == Ending(cap, other)
  {
    LinesFromBytes(cap, src);
    LinesFromBytes(cap, other);
    EndingFromBytes(cap, src);
    EndingFromBytes(cap, other);
  }
}
