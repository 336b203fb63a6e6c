/** `LineBufferedRead`: the task that fills the queue and the reader that drains
    it, as one state machine, with what every run of it keeps. */
module LineBuffer {
  import opened Sequences
  import opened Utf8
  import opened LineReader

  datatype Msg = Bytes(line: seq<Byte>) | Failure(outcome: Outcome)

  /** Slots of the channel: its buffer and one for its single sender. */
  const CAPACITY: nat := 65

  datatype State = State(src: Source, closed: bool, queue: seq<Msg>, buf: seq<Byte>, pos: nat)

  function Initial(src: Source): State {
    State(src, false, [], [], 0)
  }

  predicate CanProduce(s: State) {
    !s.closed && |s.queue| < CAPACITY
  }

  /** One round of the reader task. */
  function Produce(cap: nat, s: State): State {
    if !CanProduce(s) then s
    else
      var (o, rest) := ReadLine(cap, s.src, []);
      if o == Line([]) then s.(src := rest, closed := true)
      else if o.Line? then s.(src := rest, queue := s.queue + [Bytes(o.bytes)])
      else s.(src := rest, queue := s.queue + [Failure(o)], closed := true)
  }

  datatype Poll = Pending | Ready(bytes: seq<Byte>) | Failed(outcome: Outcome)

  function Min(a: nat, b: nat): nat { if a < b then a else b }

  /** One poll with room for `n` bytes. */
  function PollRead(s: State, n: nat): (State, Poll) {
    if s.pos < |s.buf| then
      var k := Min(|s.buf| - s.pos, n);
      var t := if s.pos + k < |s.buf| then s.(pos := s.pos + k) else s.(buf := [], pos := 0);
      (t, Ready(s.buf[s.pos..s.pos + k]))
    else if s.queue != [] then
      match s.queue[0]
      case Failure(o) => (s.(queue := s.queue[1..]), Failed(o))
      case Bytes(line) =>
        var k := Min(|line|, n);
        var t := s.(queue := s.queue[1..]);
        (if k < |line| then t.(buf := line, pos := k) else t, Ready(line[..k]))
    else if s.closed then (s, Ready([]))
    else (s, Pending)
  }

  // -------------------------------------------------------------- the class

  class LineBufferedRead {
    var src: Source
    var closed: bool
    var queue: seq<Msg>
    var buf: seq<Byte>
    var pos: nat

    function Value(): State
      reads this
    {
      State(src, closed, queue, buf, pos)
    }

    constructor (source: Source)
      ensures Value() == Initial(source)
    {
      src, closed, queue, buf, pos := source, false, [], [], 0;
    }

    method ReaderTaskRound()
      modifies this
      ensures Value() == Produce(MAX_LINE_SIZE, old(Value()))
    {
      if closed || |queue| >= CAPACITY {
        return;
      }
      var outcome, rest := ReadLineCapped(MAX_LINE_SIZE, src);
      src := rest;
      match outcome {
        case Line(line) =>
          if line == [] {
            closed := true;
          } else {
            queue := queue + [Bytes(line)];
          }
        case _ =>
          queue := queue + [Failure(outcome)];
          closed := true;
      }
    }

    /** Serve bytes into the caller's buffer; what it does not fill stays as it was. */
    method PollInto(out: array<Byte>) returns (r: Poll)
      requires pos <= |buf|
      modifies this, out
      ensures (Value(), r) == PollRead(old(Value()), out.Length)
      ensures r.Ready? ==> |r.bytes| <= out.Length && out[..|r.bytes|] == r.bytes
                           && out[|r.bytes|..] == old(out[..])[|r.bytes|..]
      ensures !r.Ready? ==> out[..] == old(out[..])
    {
      if pos < |buf| {
        var n := Min(|buf| - pos, out.Length);
        var served := buf[pos..pos + n];
        CopyInto(out, served);
        pos := pos + n;
        if pos >= |buf| {
          buf, pos := [], 0;
        }
        return Ready(served);
      }
      if queue != [] {
        var msg := queue[0];
        queue := queue[1..];
        match msg {
          case Bytes(line) =>
            var n := Min(|line|, out.Length);
            CopyInto(out, line[..n]);
            if n < |line| {
              buf, pos := line, n;
            }
            return Ready(line[..n]);
          case Failure(o) =>
            return Failed(o);
        }
      }
      r := if closed then Ready([]) else Pending;
    }
  }

  method CopyInto(out: array<Byte>, bytes: seq<Byte>)
    requires |bytes| <= out.Length
    modifies out
    ensures out[..|bytes|] == bytes && out[|bytes|..] == old(out[..])[|bytes|..]
  {
    var i := 0;
    while i < |bytes|
      invariant 0 <= i <= |bytes|
      invariant forall j | 0 <= j < i :: out[j] == bytes[j]
      invariant forall j | i <= j < out.Length :: out[j] == old(out[j])
    {
      out[i] := bytes[i];
      i := i + 1;
    }
  }

  // ------------------------------------------------------- what a run keeps

  function QueuedLines(queue: seq<Msg>): seq<seq<Byte>> {
    if queue == [] then []
    else (if queue[0].Bytes? then [queue[0].line] else []) + QueuedLines(queue[1..])
  }

  /** The lines the task has still to send. */
  ghost function ToCome(cap: nat, s: State): seq<seq<Byte>> {
    if s.closed then [] else AllLines(cap, s.src)
  }

  ghost predicate Valid(cap: nat, s: State) {
    && Honest(s.src)
    && |s.queue| <= CAPACITY
    && (s.pos < |s.buf| || (s.buf == [] && s.pos == 0))
    && (forall i | 0 <= i < |s.queue| && s.queue[i].Bytes? :: GoodLine(cap, s.queue[i].line))
    && (forall i | 0 <= i < |s.queue| && s.queue[i].Failure? :: i == |s.queue| - 1 && s.closed)
  }

  /** After `delivered`, the first `k` lines of the source have left the queue;
      what is left of the last of them is in the buffer, the rest is queued or to
      come. */
  ghost predicate Accounted(cap: nat, src: Source, s: State, delivered: seq<Byte>, k: nat) {
    var lines := AllLines(cap, src);
    && Valid(cap, s)
    && k <= |lines|
    && delivered + s.buf[s.pos..] == Flatten(lines[..k])
    && (s.buf != [] ==> k > 0 && s.buf == lines[k - 1])
    && QueuedLines(s.queue) + ToCome(cap, s) == lines[k..]
  }

  lemma {:induction false} QueuedConcat(x: seq<Msg>, y: seq<Msg>)
    ensures QueuedLines(x + y) == QueuedLines(x) + QueuedLines(y)
  {
    if x == [] {
      assert x + y == y;
    } else {
      assert (x + y)[1..] == x[1..] + y;
      QueuedConcat(x[1..], y);
    }
  }

  lemma ReadFirst(cap: nat, src: Source)
    requires Honest(src)
    ensures var (o, rest) := ReadLine(cap, src, []);
            && (o.Line? ==> Honest(rest))
            && (o.Line? && o.bytes != [] ==> GoodLine(cap, o.bytes) && AllLines(cap, src) == [o.bytes] + AllLines(cap, rest))
            && (!o.Line? || o.bytes == [] ==> AllLines(cap, src) == [])
  {
    var (o, rest) := ReadLine(cap, src, []);
    ReadLineLaw(cap, src, []);
    if o.Line? && o.bytes != [] {
      LinesAreGood(cap, src);
      assert AllLines(cap, src)[0] == o.bytes;
    }
  }

  lemma {:induction false} FaultStaysHonest(cap: nat, src: Source, acc: seq<Byte>)
    requires Honest(src)
    ensures Honest(ReadLine(cap, src, acc).1)
  {
    if src != [] && src[0].Data? {
      var b := src[0].bytes;
      if LineEnd(b).Some? {
        var n := LineEnd(b).value;
        if n < |b| { assert Honest([Data(b[n..])] + src[1..]); }
      } else if |acc + b| <= cap {
        FaultStaysHonest(cap, src[1..], acc + b);
      }
    }
  }

  /** The task moves a line from the source to the queue, and nothing else. */
  lemma ProduceKeeps(cap: nat, src: Source, s: State, delivered: seq<Byte>, k: nat)
    requires Accounted(cap, src, s, delivered, k)
    ensures Accounted(cap, src, Produce(cap, s), delivered, k)
  {
    if CanProduce(s) {
      var (o, rest) := ReadLine(cap, s.src, []);
      var t := Produce(cap, s);
      ReadFirst(cap, s.src);
      FaultStaysHonest(cap, s.src, []);
      if o != Line([]) {
        var m := if o.Line? then Bytes(o.bytes) else Failure(o);
        QueuedConcat(s.queue, [m]);
        assert [m][1..] == [];
        assert QueuedLines([m]) == if o.Line? then [o.bytes] else [];
        assert t.queue == s.queue + [m];
        Assoc(QueuedLines(s.queue), QueuedLines([m]), ToCome(cap, t));
      }
    }
  }

  lemma ServeValid(cap: nat, s: State, n: nat)
    requires Valid(cap, s) && s.pos < |s.buf|
    ensures Valid(cap, PollRead(s, n).0)
  {
  }

  lemma ServeBytes(s: State, n: nat)
    requires s.pos < |s.buf|
    ensures var (t, p) := PollRead(s, n);
            p.Ready? && t.pos <= |t.buf| && p.bytes + t.buf[t.pos..] == s.buf[s.pos..]
  {
    var m := Min(|s.buf| - s.pos, n);
    assert s.buf[s.pos..] == s.buf[s.pos..s.pos + m] + s.buf[s.pos + m..];
  }

  /** Serving from the buffer moves bytes from the buffer to the caller. */
  lemma ServeKeeps(cap: nat, src: Source, s: State, delivered: seq<Byte>, k: nat, n: nat)
    requires Accounted(cap, src, s, delivered, k) && s.pos < |s.buf|
    ensures PollRead(s, n).1.Ready?
    ensures Accounted(cap, src, PollRead(s, n).0, delivered + PollRead(s, n).1.bytes, k)
  {
    var (t, p) := PollRead(s, n);
    ServeValid(cap, s, n);
    ServeBytes(s, n);
    Assoc(delivered, p.bytes, t.buf[t.pos..]);
  }

  lemma FlattenNext(lines: seq<seq<Byte>>, k: nat)
    requires k < |lines|
    ensures Flatten(lines[..k + 1]) == Flatten(lines[..k]) + lines[k]
  {
    assert lines[..k + 1] == lines[..k] + [lines[k]];
    var last := [lines[k]];
    FlattenConcat(lines[..k], last);
    assert last[1..] == [] && Flatten(last) == lines[k];
  }

  lemma TakeValid(cap: nat, s: State, n: nat)
    requires Valid(cap, s) && s.pos >= |s.buf| && s.queue != []
    ensures Valid(cap, PollRead(s, n).0)
  {
    var t := PollRead(s, n).0;
    assert forall i | 0 <= i < |t.queue| :: t.queue[i] == s.queue[i + 1];
  }

  lemma TakeBytes(s: State, n: nat)
    requires s.pos >= |s.buf| && s.buf == [] && s.pos == 0 && s.queue != [] && s.queue[0].Bytes?
    ensures var (t, p) := PollRead(s, n);
            p.Ready? && t.pos <= |t.buf| && p.bytes + t.buf[t.pos..] == s.queue[0].line && t.queue == s.queue[1..]
  {
    var line := s.queue[0].line;
    var m := Min(|line|, n);
    assert line == line[..m] + line[m..];
  }

  lemma NextLine(lines: seq<seq<Byte>>, k: nat, line: seq<Byte>, rest: seq<seq<Byte>>)
    requires k <= |lines| && lines[k..] == [line] + rest
    ensures k < |lines| && lines[k] == line && lines[k + 1..] == rest
  {
    assert lines[k..][0] == line && lines[k..][1..] == rest;
  }

  /** Taking a line moves it from the queue to the caller and the buffer. */
  lemma TakeKeeps(cap: nat, src: Source, s: State, delivered: seq<Byte>, k: nat, n: nat)
    requires Accounted(cap, src, s, delivered, k) && s.pos >= |s.buf| && s.queue != [] && s.queue[0].Bytes?
    ensures PollRead(s, n).1.Ready?
    ensures Accounted(cap, src, PollRead(s, n).0, delivered + PollRead(s, n).1.bytes, k + 1)
  {
    var lines, line := AllLines(cap, src), s.queue[0].line;
    var (t, p) := PollRead(s, n);
    TakeValid(cap, s, n);
    TakeBytes(s, n);
    Assoc([line], QueuedLines(t.queue), ToCome(cap, s));
    NextLine(lines, k, line, QueuedLines(t.queue) + ToCome(cap, s));
    FlattenNext(lines, k);
    assert s.buf[s.pos..] == [] && delivered + [] == delivered;
    Assoc(delivered, p.bytes, t.buf[t.pos..]);
  }

  /** Taking an error changes nothing else. */
  lemma FailKeeps(cap: nat, src: Source, s: State, delivered: seq<Byte>, k: nat, n: nat)
    requires Accounted(cap, src, s, delivered, k) && s.pos >= |s.buf| && s.queue != [] && s.queue[0].Failure?
    ensures Accounted(cap, src, PollRead(s, n).0, delivered, k)
  {
    TakeValid(cap, s, n);
    assert QueuedLines(s.queue) == [] + QueuedLines(s.queue[1..]);
  }

  // ------------------------------------------------------------------- runs

  datatype Action = TaskRound | Read(room: nat)

  function Served(p: Poll): seq<Byte> {
    if p.Ready? then p.bytes else []
  }

  function Step(cap: nat, s: State, a: Action): (State, seq<Byte>) {
    match a
    case TaskRound => (Produce(cap, s), [])
    case Read(n) => (PollRead(s, n).0, Served(PollRead(s, n).1))
  }

  /** The state after the actions and all bytes served by them. */
  function Run(cap: nat, s: State, actions: seq<Action>): (State, seq<Byte>)
    decreases |actions|
  {
    if actions == [] then (s, [])
    else
      var (t, b) := Step(cap, s, actions[0]);
      var (u, c) := Run(cap, t, actions[1..]);
      (u, b + c)
  }

  lemma StepKeeps(cap: nat, src: Source, s: State, delivered: seq<Byte>, k: nat, a: Action) returns (k': nat)
    requires Accounted(cap, src, s, delivered, k)
    ensures Accounted(cap, src, Step(cap, s, a).0, delivered + Step(cap, s, a).1, k')
  {
    k' := k;
    assert delivered + [] == delivered;
    match a {
      case TaskRound => ProduceKeeps(cap, src, s, delivered, k);
      case Read(n) =>
        if s.pos < |s.buf| {
          ServeKeeps(cap, src, s, delivered, k, n);
        } else if s.queue != [] {
          if s.queue[0].Bytes? {
            TakeKeeps(cap, src, s, delivered, k, n);
            k' := k + 1;
          } else {
            FailKeeps(cap, src, s, delivered, k, n);
          }
        }
    }
  }

  lemma {:induction false} RunKeeps(cap: nat, src: Source, s: State, delivered: seq<Byte>, k: nat, actions: seq<Action>) returns (k': nat)
    requires Accounted(cap, src, s, delivered, k)
    ensures Accounted(cap, src, Run(cap, s, actions).0, delivered + Run(cap, s, actions).1, k')
    decreases |actions|
  {
    if actions == [] {
      k' := k;
      assert delivered + [] == delivered;
    } else {
      var (t, b) := Step(cap, s, actions[0]);
      var j := StepKeeps(cap, src, s, delivered, k, actions[0]);
      k' := RunKeeps(cap, src, t, delivered + b, j, actions[1..]);
      Assoc(delivered, b, Run(cap, t, actions[1..]).1);
    }
  }

  lemma InitialIsAccounted(cap: nat, src: Source)
    requires Honest(src)
    ensures Accounted(cap, src, Initial(src), [], 0)
  {
  }

  /** The bytes a reader may ever see. */
  ghost function Deliverable(cap: nat, src: Source): seq<Byte> {
    Flatten(AllLines(cap, src))
  }

  /** Some whole number of sent lines, and nothing more. */
  ghost predicate AtLineEnd(cap: nat, src: Source, delivered: seq<Byte>) {
    exists k :: 0 <= k <= |AllLines(cap, src)| && delivered == Flatten(AllLines(cap, src)[..k])
  }

  /** Every byte is accounted for: served, buffered, queued or still to come. */
  ghost predicate Conserved(cap: nat, src: Source, s: State, delivered: seq<Byte>) {
    exists k: nat :: Accounted(cap, src, s, delivered, k)
  }

  lemma ConservedPrefix(cap: nat, src: Source, s: State, delivered: seq<Byte>)
    requires Conserved(cap, src, s, delivered)
    ensures Valid(cap, s) && delivered <= Deliverable(cap, src)
  {
    var k: nat :| Accounted(cap, src, s, delivered, k);
    PrefixOfLines(delivered, s.buf[s.pos..], AllLines(cap, src), k);
  }

  lemma PrefixOfLines(x: seq<Byte>, y: seq<Byte>, lines: seq<seq<Byte>>, k: nat)
    requires k <= |lines| && x + y == Flatten(lines[..k])
    ensures x <= Flatten(lines)
  {
    assert lines == lines[..k] + lines[k..];
    FlattenConcat(lines[..k], lines[k..]);
    var z := Flatten(lines[k..]);
    assert x == (x + y + z)[..|x|];
  }

  /** Main result, over every interleaving of task rounds and polls with any
      room: what was served is a prefix of the source's bytes; a pending poll
      happens only at the end of a sent line; an empty read into a non-empty
      buffer, or an error, happens only when everything deliverable was served. */
  lemma ReaderRefinesStream(cap: nat, src: Source, actions: seq<Action>, n: nat)
    requires Honest(src)
    ensures var (s, delivered) := Run(cap, Initial(src), actions);
            var poll := PollRead(s, n).1;
            && Conserved(cap, src, s, delivered)
            && delivered <= Deliverable(cap, src) <= Raw(src)
            && (poll.Pending? ==> AtLineEnd(cap, src, delivered))
            && (poll == Ready([]) && n > 0 ==> delivered == Deliverable(cap, src))
            && (poll.Failed? ==> delivered == Deliverable(cap, src))
  {
    var (s, delivered) := Run(cap, Initial(src), actions);
    InitialIsAccounted(cap, src);
    var k := RunKeeps(cap, src, Initial(src), [], 0, actions);
    assert [] + delivered == delivered;
    assert Conserved(cap, src, s, delivered);
    ConservedPrefix(cap, src, s, delivered);
    DeliverableIsPrefix(cap, src);
    AtRest(cap, src, s, delivered, k, n);
  }

  lemma ConservedStep(cap: nat, src: Source, s: State, delivered: seq<Byte>, a: Action)
    requires Conserved(cap, src, s, delivered)
    ensures Conserved(cap, src, Step(cap, s, a).0, delivered + Step(cap, s, a).1)
    ensures a.Read? ==>
              var poll := PollRead(s, a.room).1;
              (poll == Ready([]) && a.room > 0) || poll.Failed? ==> delivered == Deliverable(cap, src)
  {
    var k: nat :| Accounted(cap, src, s, delivered, k);
    var k' := StepKeeps(cap, src, s, delivered, k, a);
    if a.Read? { AtRest(cap, src, s, delivered, k, a.room); }
  }

  lemma AtRest(cap: nat, src: Source, s: State, delivered: seq<Byte>, k: nat, n: nat)
    requires Accounted(cap, src, s, delivered, k)
    ensures var poll := PollRead(s, n).1;
            && (poll.Pending? ==> delivered == Flatten(AllLines(cap, src)[..k]))
            && ((poll == Ready([]) && n > 0) || poll.Failed? ==> delivered == Deliverable(cap, src))
  {
    var poll := PollRead(s, n).1;
    var lines := AllLines(cap, src);
    if s.pos >= |s.buf| {
      assert s.buf[s.pos..] == [] && delivered + [] == delivered;
      if s.queue == [] {
        if s.closed { assert lines[..k] == lines; }
      } else if s.queue[0].Failure? {
        assert s.queue[1..] == [];
        assert QueuedLines(s.queue) == [];
        assert lines[..k] == lines;
      }
    }
  }

  /** What is served is a stretch of one line, from where the last poll stopped: as much
      as there is room for, or up to the line's end. */
  ghost predicate ServesLine(lines: seq<seq<Byte>>, delivered: seq<Byte>, n: nat, bytes: seq<Byte>) {
    exists k: nat, off: nat :: FromLine(lines, delivered, n, bytes, k, off)
  }

  ghost predicate FromLine(lines: seq<seq<Byte>>, delivered: seq<Byte>, n: nat, bytes: seq<Byte>, k: nat, off: nat) {
    && k < |lines| && off < |lines[k]|
    && delivered == Flatten(lines[..k]) + lines[k][..off]
    && bytes == if n < |lines[k]| - off then lines[k][off..off + n] else lines[k][off..]
  }

  lemma CancelEnd<T>(d: seq<T>, x: seq<T>, l: seq<T>, pos: nat)
    requires pos <= |l| && d + l[pos..] == x + l
    ensures d == x + l[..pos]
  {
    assert l == l[..pos] + l[pos..];
    assert x + l == (x + l[..pos]) + l[pos..];
    assert |d| == |x + l[..pos]|;
    assert d == (d + l[pos..])[..|d|] == ((x + l[..pos]) + l[pos..])[..|d|];
  }

  lemma ServesFromBuffer(cap: nat, src: Source, s: State, delivered: seq<Byte>, k: nat, n: nat)
    requires Accounted(cap, src, s, delivered, k) && s.pos < |s.buf|
    ensures PollRead(s, n).1.Ready? && ServesLine(AllLines(cap, src), delivered, n, PollRead(s, n).1.bytes)
  {
    var lines := AllLines(cap, src);
    FlattenNext(lines, k - 1);
    CancelEnd(delivered, Flatten(lines[..k - 1]), s.buf, s.pos);
    assert FromLine(lines, delivered, n, PollRead(s, n).1.bytes, k - 1, s.pos);
  }

  lemma ServesFromQueue(cap: nat, src: Source, s: State, delivered: seq<Byte>, k: nat, n: nat)
    requires Accounted(cap, src, s, delivered, k) && s.pos >= |s.buf| && s.queue != [] && s.queue[0].Bytes?
    ensures PollRead(s, n).1.Ready? && ServesLine(AllLines(cap, src), delivered, n, PollRead(s, n).1.bytes)
  {
    var lines, line := AllLines(cap, src), s.queue[0].line;
    Assoc([line], QueuedLines(s.queue[1..]), ToCome(cap, s));
    NextLine(lines, k, line, QueuedLines(s.queue[1..]) + ToCome(cap, s));
    assert s.buf[s.pos..] == [] && delivered + [] == delivered && line[..0] == [] && delivered + line[..0] == delivered;
    assert FromLine(lines, delivered, n, PollRead(s, n).1.bytes, k, 0);
  }

  /** Main result: in every reachable state a poll that serves bytes serves the current
      line from where the last one stopped, as much as there is room for. */
  lemma PollServesCurrentLine(cap: nat, src: Source, actions: seq<Action>, n: nat)
    requires Honest(src)
    ensures var (s, delivered) := Run(cap, Initial(src), actions);
            var poll := PollRead(s, n).1;
            poll.Ready? && poll.bytes != [] ==> ServesLine(AllLines(cap, src), delivered, n, poll.bytes)
  {
    var (s, delivered) := Run(cap, Initial(src), actions);
    InitialIsAccounted(cap, src);
    var k := RunKeeps(cap, src, Initial(src), [], 0, actions);
    assert [] + delivered == delivered;
    if s.pos < |s.buf| {
      ServesFromBuffer(cap, src, s, delivered, k, n);
    } else if s.queue != [] && s.queue[0].Bytes? {
      ServesFromQueue(cap, src, s, delivered, k, n);
    }
  }

  /** Everything is served when no line exceeds the cap and no error occurs. */
  lemma WholeStreamAtEof(cap: nat, src: Source, actions: seq<Action>, n: nat)
    requires Honest(src) && NoFault(src) && n > 0
    requires forall l | l in SplitLines(Raw(src)) :: |l| <= cap
    ensures var (s, delivered) := Run(cap, Initial(src), actions);
            PollRead(s, n).1 == Ready([]) ==> delivered == Raw(src)
  {
    ReaderRefinesStream(cap, src, actions, n);
    DeliverableIsPrefix(cap, src);
  }

  // ---------------------------------------------------------- reading it all

  /** A pending poll is never stuck: the task can take a round, and that round
      queues a message or closes the channel. */
  lemma PendingMeansTaskCanRun(cap: nat, s: State, n: nat)
    requires PollRead(s, n).1.Pending?
    ensures CanProduce(s) && PollRead(Produce(cap, s), n).1 != Pending
  {
  }

  function Buffered(s: State): nat {
    (if s.pos < |s.buf| then |s.buf| - s.pos else 0) + |Flatten(QueuedLines(s.queue))| + |s.queue|
  }

  function Unread(s: State): nat {
    if s.closed then 0 else 1 + Weight(s.src)
  }

  lemma RoundShrinks(cap: nat, s: State)
    requires CanProduce(s)
    ensures Unread(Produce(cap, s)) < Unread(s)
  {
    ReadLineShrinks(cap, s.src, []);
  }

  lemma ReadShrinks(s: State, n: nat)
    requires n > 0 && PollRead(s, n).1.Ready? && PollRead(s, n).1.bytes != []
    ensures Buffered(PollRead(s, n).0) < Buffered(s) && Unread(PollRead(s, n).0) == Unread(s)
  {
    if s.pos >= |s.buf| {
      assert QueuedLines(s.queue) == [s.queue[0].line] + QueuedLines(s.queue[1..]);
      assert Flatten(QueuedLines(s.queue)) == s.queue[0].line + Flatten(QueuedLines(s.queue)[1..]);
      assert QueuedLines(s.queue)[1..] == QueuedLines(s.queue[1..]);
    }
  }

  /** All a polling caller needs to know about one poll. */
  lemma PollFacts(cap: nat, src: Source, s: State, delivered: seq<Byte>, n: nat)
    requires Conserved(cap, src, s, delivered) && n > 0
    ensures var (t, p) := PollRead(s, n);
            && (p.Pending? ==> t == s && Conserved(cap, src, Produce(cap, s), delivered)
                               && Unread(Produce(cap, s)) < Unread(s))
            && (p.Failed? || p == Ready([]) ==> delivered == Deliverable(cap, src))
            && (p.Ready? && p.bytes != [] ==> Conserved(cap, src, t, delivered + p.bytes)
                                              && Unread(t) == Unread(s) && Buffered(t) < Buffered(s))
  {
    var (t, p) := PollRead(s, n);
    ConservedStep(cap, src, s, delivered, Read(n));
    if p.Pending? {
      ConservedStep(cap, src, s, delivered, TaskRound);
      assert delivered + [] == delivered;
      RoundShrinks(cap, s);
    } else if p.Ready? && p.bytes != [] {
      ReadShrinks(s, n);
    }
  }
}
