/** The cancel-safe line reader: a task that reads whole lines and queues them,
    and a reader that serves their bytes to callers with buffers of any size. */
module LineReader {
  import opened Sequences
  import opened Conversation
  import opened Utf8

  const NEWLINE: Byte := 10
  const MAX_LINE_SIZE: nat := 64 * 1024 * 1024

  // -------------------------------------------------------------- the source

  /** What one refill of the source's buffer yields: some bytes, or an I/O error. */
  datatype Fill = Data(bytes: seq<Byte>) | Fault

  /** A source is the refills it still has to offer; after them it is at its end. */
  type Source = seq<Fill>

  predicate Honest(src: Source) {
    forall i | 0 <= i < |src| && src[i].Data? :: src[i].bytes != []
  }

  /** The bytes up to the first error. */
  function Raw(src: Source): seq<Byte> {
    if src == [] || src[0].Fault? then [] else src[0].bytes + Raw(src[1..])
  }

  predicate NoFault(src: Source) {
    forall i | 0 <= i < |src| :: src[i].Data?
  }

  predicate NoNewline(b: seq<Byte>) {
    forall i | 0 <= i < |b| :: b[i] != NEWLINE
  }

  /** Index one past the first newline. */
  function LineEnd(b: seq<Byte>): (r: Option<nat>)
    ensures r.Some? ==> 1 <= r.value <= |b|
  {
    if b == [] then None
    else if b[0] == NEWLINE then Some(1)
    else match LineEnd(b[1..]) case None => None case Some(n) => Some(n + 1)
  }

  lemma {:induction false} LineEndIsFirst(b: seq<Byte>)
    ensures LineEnd(b).None? ==> NoNewline(b)
    ensures LineEnd(b).Some? ==> b[LineEnd(b).value - 1] == NEWLINE && NoNewline(b[..LineEnd(b).value - 1])
  {
    if b != [] && b[0] != NEWLINE {
      LineEndIsFirst(b[1..]);
      assert forall i | 1 <= i < |b| :: b[i] == b[1..][i - 1];
    }
  }

  // --------------------------------------------------------- reading a line

  datatype Outcome = Line(bytes: seq<Byte>) | TooLong | IoError

  function Weight(src: Source): nat {
    if src == [] then 0 else 1 + (if src[0].Data? then |src[0].bytes| else 0) + Weight(src[1..])
  }

  /** Accumulate refills until a newline, the cap, an error or the end. */
  function ReadLine(cap: nat, src: Source, acc: seq<Byte>): (Outcome, Source) {
    if src == [] then (Line(acc), src)
    else match src[0]
      case Fault => (IoError, src[1..])
      case Data(b) =>
        match LineEnd(b)
        case Some(n) =>
          var rest := if n < |b| then [Data(b[n..])] + src[1..] else src[1..];
          (if |acc + b[..n]| > cap then TooLong else Line(acc + b[..n]), rest)
        case None =>
          if |acc + b| > cap then (TooLong, src[1..]) else ReadLine(cap, src[1..], acc + b)
  }

  lemma {:induction false} ReadLineShrinks(cap: nat, src: Source, acc: seq<Byte>)
    ensures src != [] ==> Weight(ReadLine(cap, src, acc).1) < Weight(src)
  {
    if src != [] && src[0].Data? {
      var b := src[0].bytes;
      if LineEnd(b).Some? {
        var n := LineEnd(b).value;
        assert ([Data(b[n..])] + src[1..])[1..] == src[1..];
      } else {
        ReadLineShrinks(cap, src[1..], acc + b);
      }
    }
  }

  method ReadLineCapped(cap: nat, source: Source) returns (outcome: Outcome, rest: Source)
    ensures (outcome, rest) == ReadLine(cap, source, [])
  {
    var buf: seq<Byte> := [];
    rest := source;
    while true
      invariant ReadLine(cap, rest, buf) == ReadLine(cap, source, [])
      decreases |rest|
    {
      if rest == [] {
        return Line(buf), rest;
      }
      match rest[0] {
        case Fault =>
          return IoError, rest[1..];
        case Data(available) =>
          var found := LineEnd(available);
          if found.Some? {
            var n := found.value;
            buf := buf + available[..n];
            rest := if n < |available| then [Data(available[n..])] + rest[1..] else rest[1..];
            if |buf| > cap {
              return TooLong, rest;
            }
            return Line(buf), rest;
          }
          buf := buf + available;
          rest := rest[1..];
          if |buf| > cap {
            return TooLong, rest;
          }
      }
    }
  }

  // ------------------------------------------- the reference: lines of bytes

  /** Up to and including the first newline, or everything. */
  function FirstLine(raw: seq<Byte>): (l: seq<Byte>)
    ensures l <= raw
    ensures raw != [] ==> l != []
  {
    match LineEnd(raw) case Some(n) => raw[..n] case None => raw
  }

  function SplitLines(raw: seq<Byte>): seq<seq<Byte>> {
    if raw == [] then [] else [FirstLine(raw)] + SplitLines(raw[|FirstLine(raw)|..])
  }

  lemma {:induction false} SplitThenFlatten(raw: seq<Byte>)
    ensures Flatten(SplitLines(raw)) == raw
  {
    if raw != [] {
      var l := FirstLine(raw);
      SplitStep(raw);
      SplitThenFlatten(raw[|l|..]);
      assert Flatten(SplitLines(raw)) == l + raw[|l|..];
    }
  }

  /** A line as it may be queued: non-empty, a newline only at its end, within the cap. */
  predicate GoodLine(cap: nat, l: seq<Byte>) {
    0 < |l| <= cap && NewlineAtEndOnly(l)
  }

  predicate NewlineAtEndOnly(l: seq<Byte>) {
    forall i | 0 <= i < |l| - 1 :: l[i] != NEWLINE
  }

  predicate EndsLine(l: seq<Byte>) {
    l != [] && l[|l| - 1] == NEWLINE
  }

  lemma {:induction false} LineEndConcat(x: seq<Byte>, y: seq<Byte>)
    requires NoNewline(x)
    ensures LineEnd(y).None? ==> LineEnd(x + y) == None
    ensures LineEnd(y).Some? ==> LineEnd(x + y) == Some(|x| + LineEnd(y).value)
  {
    if x == [] {
      assert x + y == y;
    } else {
      var s := x + y;
      assert s[0] == x[0] && s[1..] == x[1..] + y;
      assert NoNewline(x[1..]);
      LineEndConcat(x[1..], y);
      assert LineEnd(s) == match LineEnd(s[1..]) case None => None case Some(n) => Some(n + 1);
    }
  }

  lemma NoLineEnd(x: seq<Byte>)
    requires NoNewline(x)
    ensures LineEnd(x).None?
  {
    LineEndIsFirst(x);
  }

  lemma {:induction false} LineEndPrefix(b: seq<Byte>, y: seq<Byte>)
    requires LineEnd(b).Some?
    ensures LineEnd(b + y) == LineEnd(b)
  {
    if b[0] != NEWLINE {
      assert (b + y)[1..] == b[1..] + y;
      LineEndPrefix(b[1..], y);
    }
  }

  /** What reading a line must yield, told from the bytes alone. */
  ghost predicate ReadsAs(cap: nat, raw: seq<Byte>, faulty: bool, o: Outcome) {
    var line := FirstLine(raw);
    match o
    case TooLong => |line| > cap
    case IoError => |line| <= cap && LineEnd(raw).None? && faulty
    case Line(l) => l == line && |line| <= cap && (LineEnd(raw).Some? || !faulty)
  }

  lemma ConsSource(x: Fill, src: Source)
    requires Honest(src) && x.Data? && x.bytes != []
    ensures Honest([x] + src) && Raw([x] + src) == x.bytes + Raw(src) && (NoFault([x] + src) <==> NoFault(src))
  {
    assert ([x] + src)[1..] == src;
    if NoFault([x] + src) {
      forall i | 0 <= i < |src| ensures src[i].Data? { assert src[i] == ([x] + src)[i + 1]; }
    }
  }

  lemma TailSource(src: Source)
    requires src != [] && Honest(src) && src[0].Data?
    ensures Honest(src[1..]) && (NoFault(src) <==> NoFault(src[1..]))
  {
    ghost var t := src[1..];
    forall i | 0 <= i < |t| ensures t[i] == src[i + 1] {}
    if NoFault(t) {
      forall i | 0 <= i < |src| ensures src[i].Data? { if i > 0 { assert src[i] == t[i - 1]; } }
    }
  }

  /** The outcome, and what is left of the source after a line. */
  ghost predicate ReadsWell(cap: nat, raw: seq<Byte>, src: Source, o: Outcome, rest: Source) {
    && ReadsAs(cap, raw, !NoFault(src), o)
    && (o.Line? ==> Honest(rest) && (NoFault(rest) <==> NoFault(src)) && Raw(rest) == raw[|o.bytes|..])
  }

  /** Main result of the capped reader: whatever the refills, the outcome is the
      one the bytes prescribe, and after a line the rest of the bytes remain. */
  lemma {:induction false} ReadLineLaw(cap: nat, src: Source, acc: seq<Byte>)
    requires Honest(src) && NoNewline(acc) && |acc| <= cap
    ensures ReadsWell(cap, acc + Raw(src), src, ReadLine(cap, src, acc).0, ReadLine(cap, src, acc).1)
    decreases |src|
  {
    if src == [] || src[0].Fault? {
      NoLineEnd(acc);
      assert acc + Raw(src) == acc;
      assert acc[|acc|..] == [];
    } else {
      var b := src[0].bytes;
      TailSource(src);
      Assoc(acc, b, Raw(src[1..]));
      if LineEnd(b).Some? {
        ReadLineEnds(cap, src, acc);
      } else {
        LineEndIsFirst(b);
        if |acc + b| > cap {
          LongPrefix(cap, acc + b, Raw(src[1..]));
        } else {
          ReadLineLaw(cap, src[1..], acc + b);
        }
      }
    }
  }

  lemma ReadLineEnds(cap: nat, src: Source, acc: seq<Byte>)
    requires Honest(src) && NoNewline(acc) && |acc| <= cap
    requires src != [] && src[0].Data? && LineEnd(src[0].bytes).Some?
    ensures ReadsWell(cap, acc + Raw(src), src, ReadLine(cap, src, acc).0, ReadLine(cap, src, acc).1)
  {
    var b, tail := src[0].bytes, src[1..];
    var n := LineEnd(b).value;
    TailSource(src);
    FirstLineIn(acc, b, Raw(tail));
    AfterLine(acc, b, n, tail);
  }

  lemma FirstLineIn(acc: seq<Byte>, b: seq<Byte>, y: seq<Byte>)
    requires NoNewline(acc) && LineEnd(b).Some?
    ensures LineEnd(acc + (b + y)).Some?
    ensures FirstLine(acc + (b + y)) == acc + b[..LineEnd(b).value]
  {
    var n := LineEnd(b).value;
    LineEndPrefix(b, y);
    LineEndConcat(acc, b + y);
    TakeInside(acc, b, y, n);
  }

  lemma TakeInside<T>(a: seq<T>, b: seq<T>, y: seq<T>, n: nat)
    requires n <= |b|
    ensures (a + (b + y))[..|a| + n] == a + b[..n]
  {
  }

  lemma AfterLine(acc: seq<Byte>, b: seq<Byte>, n: nat, tail: Source)
    requires n <= |b| && Honest(tail)
    ensures var rest := if n < |b| then [Data(b[n..])] + tail else tail;
            && Honest(rest) && (NoFault(rest) <==> NoFault(tail))
            && Raw(rest) == (acc + (b + Raw(tail)))[|acc + b[..n]|..]
  {
    assert (acc + (b + Raw(tail)))[|acc + b[..n]|..] == b[n..] + Raw(tail);
    if n < |b| {
      ConsSource(Data(b[n..]), tail);
    } else {
      assert b[n..] + Raw(tail) == Raw(tail);
    }
  }

  lemma LongPrefix(cap: nat, x: seq<Byte>, y: seq<Byte>)
    requires NoNewline(x) && |x| > cap
    ensures |FirstLine(x + y)| > cap
  {
    LineEndConcat(x, y);
  }

  // -------------------------------------------------------- all the lines

  /** The lines the reader task sends, in order. */
  function AllLines(cap: nat, src: Source): seq<seq<Byte>>
    decreases Weight(src)
  {
    var (o, rest) := ReadLine(cap, src, []);
    ReadLineShrinks(cap, src, []);
    if o.Line? && o.bytes != [] then [o.bytes] + AllLines(cap, rest) else []
  }

  /** The same, told from the bytes: whole lines up to the first one over the
      cap, without an unfinished last line when an error cut it off. */
  function Sendable(cap: nat, lines: seq<seq<Byte>>, faulty: bool): seq<seq<Byte>> {
    if lines == [] || |lines[0]| > cap || (faulty && !EndsLine(lines[0])) then []
    else [lines[0]] + Sendable(cap, lines[1..], faulty)
  }

  lemma FirstLineEnds(raw: seq<Byte>)
    requires raw != []
    ensures EndsLine(FirstLine(raw)) <==> LineEnd(raw).Some?
  {
    LineEndIsFirst(raw);
  }

  /** Main result: the lines sent depend on the bytes only, not on the refills. */
  lemma {:induction false} LinesFromBytes(cap: nat, src: Source)
    requires Honest(src)
    ensures AllLines(cap, src) == Sendable(cap, SplitLines(Raw(src)), !NoFault(src))
    decreases Weight(src)
  {
    var (o, rest) := ReadLine(cap, src, []);
    var raw := Raw(src);
    ReadLineLaw(cap, src, []);
    ReadLineShrinks(cap, src, []);
    assert [] + raw == raw;
    if raw == [] {
      assert AllLines(cap, src) == [];
    } else {
      FirstLineEnds(raw);
      SplitStep(raw);
      if o.Line? {
        LinesFromBytes(cap, rest);
        assert AllLines(cap, src) == [o.bytes] + AllLines(cap, rest);
      }
    }
  }

  lemma SplitStep(raw: seq<Byte>)
    requires raw != []
    ensures SplitLines(raw) != [] && SplitLines(raw)[0] == FirstLine(raw)
    ensures SplitLines(raw)[1..] == SplitLines(raw[|FirstLine(raw)|..])
  {
  }

  lemma {:induction false} SendableIsPrefix(cap: nat, lines: seq<seq<Byte>>, faulty: bool)
    ensures Sendable(cap, lines, faulty) <= lines
    ensures Sendable(cap, lines, faulty) == lines <==>
            forall i | 0 <= i < |lines| :: |lines[i]| <= cap && (faulty ==> EndsLine(lines[i]))
  {
    if lines != [] {
      SendableIsPrefix(cap, lines[1..], faulty);
      assert lines == [lines[0]] + lines[1..];
      assert forall i | 1 <= i < |lines| :: lines[i] == lines[1..][i - 1];
      assert forall i | 0 <= i < |lines| - 1 :: lines[1..][i] == lines[i + 1];
    }
  }

  /** What reaches the reader is a prefix of the source's bytes, and all of them
      exactly when no line exceeds the cap and no error cuts a line short. */
  lemma DeliverableIsPrefix(cap: nat, src: Source)
    requires Honest(src)
    ensures Flatten(AllLines(cap, src)) <= Raw(src)
    ensures Flatten(AllLines(cap, src)) == Raw(src) <==>
            forall l | l in SplitLines(Raw(src)) :: |l| <= cap && (NoFault(src) || EndsLine(l))
  {
    var lines := SplitLines(Raw(src));
    LinesFromBytes(cap, src);
    SendableIsPrefix(cap, lines, !NoFault(src));
    SplitThenFlatten(Raw(src));
    SplitIsGood(Raw(src));
    FlattenPrefix(AllLines(cap, src), lines);
    assert forall l | l in lines :: exists i :: 0 <= i < |lines| && lines[i] == l;
  }

  /** A prefix of non-empty lines flattens to a prefix, and to everything only when
      it is everything. */
  lemma FlattenPrefix(sent: seq<seq<Byte>>, lines: seq<seq<Byte>>)
    requires sent <= lines && forall i | 0 <= i < |lines| :: lines[i] != []
    ensures Flatten(sent) <= Flatten(lines)
    ensures Flatten(sent) == Flatten(lines) <==> sent == lines
  {
    var rest := lines[|sent|..];
    assert lines == sent + rest;
    FlattenConcat(sent, rest);
    if rest != [] {
      assert rest[0] == lines[|sent|];
      assert |Flatten(rest)| > 0;
    }
  }

  lemma {:induction false} SplitIsGood(raw: seq<Byte>)
    ensures forall i | 0 <= i < |SplitLines(raw)| :: SplitLines(raw)[i] != [] && NewlineAtEndOnly(SplitLines(raw)[i])
  {
    if raw != [] {
      SplitStep(raw);
      SplitIsGood(raw[|FirstLine(raw)|..]);
      LineEndIsFirst(raw);
      assert forall i | 0 <= i < |FirstLine(raw)| - 1 :: FirstLine(raw)[i] == raw[..|FirstLine(raw)| - 1][i];
    }
  }

  lemma {:induction false} SendableFits(cap: nat, lines: seq<seq<Byte>>, faulty: bool)
    ensures forall i | 0 <= i < |Sendable(cap, lines, faulty)| :: |Sendable(cap, lines, faulty)[i]| <= cap
  {
    if lines != [] { SendableFits(cap, lines[1..], faulty); }
  }

  /** Every line sent is non-empty, has a newline only at its end, and fits the cap. */
  lemma LinesAreGood(cap: nat, src: Source)
    requires Honest(src)
    ensures forall i | 0 <= i < |AllLines(cap, src)| :: GoodLine(cap, AllLines(cap, src)[i])
  {
    var lines := SplitLines(Raw(src));
    LinesFromBytes(cap, src);
    SendableIsPrefix(cap, lines, !NoFault(src));
    SendableFits(cap, lines, !NoFault(src));
    SplitIsGood(Raw(src));
  }
}
