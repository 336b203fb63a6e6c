/** `format_compact_summary`: turn the raw output of the summarizing model into
    the plain text that seeds the next turn. */
module SummaryFormat {
  import opened Text

  const ANALYSIS := "<analysis>"
  const END_ANALYSIS := "</analysis>"
  const SUMMARY := "<summary>"
  const END_SUMMARY := "</summary>"
  const REQUEST := "<summary_request>"
  const END_REQUEST := "</summary_request>"

  /** The control tags, in the order they are neutralized. */
  const CONTROL_TAGS: seq<string> := [END_SUMMARY, SUMMARY, END_ANALYSIS, ANALYSIS, END_REQUEST, REQUEST]

  const ZERO_WIDTH: char := '\U{200B}'

  lemma ControlTagsAreTags()
    ensures forall t | t in CONTROL_TAGS :: IsTag(t) && ZERO_WIDTH !in t && '\n' !in t
  {
  }

  // ---------------------------------------------------- leading scratchpad

  /** `<analysis>` at `start` opens a leading block. */
  predicate IsLeading(s: string, start: nat)
    requires OccursAt(s, ANALYSIS, start)
  {
    match Find(s, SUMMARY)
    case Some(sp) =>
      FindIsFirst(s, SUMMARY);
      SummaryBeforeAnalysis(s, sp, start);
      start < sp || Trim(s[sp + |SUMMARY|..start]) == []
    case None => Trim(s[..start]) == []
  }

  /** The slice between the two tags is always in bounds. */
  lemma SummaryBeforeAnalysis(s: string, sp: nat, start: nat)
    requires OccursAt(s, SUMMARY, sp) && OccursAt(s, ANALYSIS, start)
    ensures start < sp || sp + |SUMMARY| <= start
  {
    OccursChars(s, SUMMARY, sp);
    OccursChars(s, ANALYSIS, start);
    assert SUMMARY[1] != ANALYSIS[1];
    assert s[sp + 1] == SUMMARY[1] && s[start + 1] == ANALYSIS[1];
    if sp < start {
      TagsDisjoint(s, SUMMARY, ANALYSIS, sp, start);
    }
  }

  datatype Round = Done(text: string) | Again(text: string)

  /** One round: drop a leading `<analysis>` block; an unclosed one goes up to
      `<summary>` and ends the search. */
  function AnalysisRound(s: string): (r: Round)
    ensures r.Again? ==> |r.text| < |s|
  {
    match Find(s, ANALYSIS)
    case None => Done(s)
    case Some(start) =>
      FindIsFirst(s, ANALYSIS);
      if !IsLeading(s, start) then Done(s)
      else match Find(s[start..], END_ANALYSIS)
        case Some(rel) => Again(s[..start] + s[start + rel + |END_ANALYSIS|..])
        case None =>
          var dropTo := match Find(s[start..], SUMMARY) case Some(rel) => start + rel case None => |s|;
          Done(s[..start] + s[dropTo..])
  }

  /** Drop leading `<analysis>` blocks. */
  function StripAnalysis(s: string): string
    decreases |s|
  {
    match AnalysisRound(s) case Done(t) => t case Again(t) => StripAnalysis(t)
  }

  predicate IsDecoration(c: char) {
    c in {'#', '*', '-', '>', ' ', '\t'}
  }

  function TrimDecoration(s: string): string {
    if s != [] && IsDecoration(s[0]) then TrimDecoration(s[1..]) else s
  }

  /** The text leads with a numbered section, under markdown decoration. */
  predicate LeadsWithNumber(s: string) {
    var lead := TrimDecoration(s);
    lead != [] && '0' <= lead[0] <= '9'
  }

  function StripLeadingScratchpad(inner: string): string {
    var s := Trim(inner);
    var peeled :=
      if LeadsWithNumber(s) then s
      else match RFind(s, END_ANALYSIS) case Some(pos) => TrimStart(s[pos + |END_ANALYSIS|..]) case None => s;
    if SUMMARY <= peeled then TrimStart(peeled[|SUMMARY|..]) else peeled
  }

  lemma SummaryTagsInOrder(s: string, start: nat, end: nat)
    requires OccursAt(s, SUMMARY, start) && OccursAt(s, END_SUMMARY, end) && end > start
    ensures start + |SUMMARY| <= end
  {
    assert IsTag(SUMMARY) && IsTag(END_SUMMARY);
    TagsDisjoint(s, SUMMARY, END_SUMMARY, start, end);
  }

  /** Replace the outermost `<summary>` block by its cleaned inside. */
  function Unwrap(s: string): string {
    match (Find(s, SUMMARY), RFind(s, END_SUMMARY))
    case (Some(start), Some(end)) =>
      if end > start then
        FindIsFirst(s, SUMMARY);
        RFindIsLast(s, END_SUMMARY);
        SummaryTagsInOrder(s, start, end);
        s[..start] + "Summary:\n" + StripLeadingScratchpad(Trim(s[start + |SUMMARY|..end])) + s[end + |END_SUMMARY|..]
      else s
    case _ => s
  }

  // ----------------------------------------------------------- neutralizing

  /** Put a zero-width space after the `<` of every control tag. */
  function NeutralizeAll(s: string, tags: seq<string>): string
    requires forall i | 0 <= i < |tags| :: tags[i] != []
    decreases |tags|
  {
    if tags == [] then s else NeutralizeAll(ReplaceAll(s, tags[0], Defused(tags[0], ZERO_WIDTH)), tags[1..])
  }

  function Neutralize(s: string): string {
    ControlTagsAreTags();
    NeutralizeAll(s, CONTROL_TAGS)
  }

  // ----------------------------------------------------------- blank lines

  /** Keep at most two newlines of each run; `k` of the current run are kept already. */
  function CapNewlines(s: string, k: nat): string {
    if s == [] then []
    else if s[0] != '\n' then [s[0]] + CapNewlines(s[1..], 0)
    else if k < 2 then ['\n'] + CapNewlines(s[1..], k + 1)
    else CapNewlines(s[1..], k)
  }

  const BLANK := "\n\n\n"
  const PARAGRAPH := "\n\n"

  function Format(s: string): string {
    Trim(CapNewlines(Neutralize(Unwrap(StripAnalysis(s))), 0))
  }

  // ------------------------------------------------------------ the method

  method StripAnalysisBlocks(summary: string) returns (result: string)
    ensures result == StripAnalysis(summary)
  {
    result := summary;
    while true
      invariant StripAnalysis(result) == StripAnalysis(summary)
      decreases |result|
    {
      match AnalysisRound(result) {
        case Done(t) => return t;
        case Again(t) => result := t;
      }
    }
  }

  method CollapseBlankLines(text: string) returns (result: string)
    ensures result == CapNewlines(text, 0)
  {
    result := text;
    FindIsFirst(result, BLANK);
    while Find(result, BLANK).Some?
      invariant Find(result, BLANK).Some? <==> Contains(result, BLANK)
      invariant CapNewlines(result, 0) == CapNewlines(text, 0)
      decreases |result|
    {
      CapReplace(result, 0);
      ReplaceShrinks(result);
      result := ReplaceAll(result, BLANK, PARAGRAPH);
      FindIsFirst(result, BLANK);
    }
    assert Newlines(0) + result == result;
    CapFixed(result, 0);
  }

  method FormatCompactSummary(summary: string) returns (result: string)
    ensures result == Format(summary)
  {
    result := StripAnalysisBlocks(summary);
    result := Unwrap(result);
    result := Neutralize(result);
    result := CollapseBlankLines(result);
    result := Trim(result);
  }

  // ------------------------------------------------------ blank-line laws

  /** One round of the collapsing loop does not change what it converges to. */
  lemma {:induction false} CapReplace(s: string, k: nat)
    requires k <= 2
    ensures CapNewlines(ReplaceAll(s, BLANK, PARAGRAPH), k) == CapNewlines(s, k)
  {
    if s == [] {
    } else if BLANK <= s {
      var rest := s[3..];
      CapReplace(rest, 2);
      CapNewlineRun(rest, 3, k);
      CapNewlineRun(ReplaceAll(rest, BLANK, PARAGRAPH), 2, k);
      assert s == BLANK + rest;
    } else {
      var t := ReplaceAll(s[1..], BLANK, PARAGRAPH);
      assert ([s[0]] + t)[1..] == t;
      CapReplace(s[1..], if s[0] != '\n' then 0 else if k < 2 then k + 1 else k);
    }
  }

  /** After two or three newlines in a row the run is full. */
  lemma CapNewlineRun(rest: string, n: nat, k: nat)
    requires 2 <= n <= 3 && k <= 2
    ensures CapNewlines((if n == 2 then PARAGRAPH else BLANK) + rest, k)
         == (if k == 0 then PARAGRAPH else if k == 1 then "\n" else "") + CapNewlines(rest, 2)
  {
    CapTwo(rest, k);
    if n == 3 {
      CapTwo(rest, k + 1);
      CapNewline(PARAGRAPH + rest, k);
      assert BLANK + rest == "\n" + (PARAGRAPH + rest);
    }
  }

  lemma CapTwo(rest: string, k: nat)
    requires k <= 3
    ensures CapNewlines(PARAGRAPH + rest, k) ==
            (if k == 0 then PARAGRAPH else if k == 1 then "\n" else "") + CapNewlines(rest, if k < 2 then 2 else k)
  {
    CapNewline("\n" + rest, k);
    CapNewline(rest, k);
    CapNewline(rest, k + 1);
    assert PARAGRAPH + rest == "\n" + ("\n" + rest);
  }

  lemma CapNewline(rest: string, k: nat)
    ensures CapNewlines("\n" + rest, k)
         == if k < 2 then "\n" + CapNewlines(rest, k + 1) else CapNewlines(rest, k)
  {
    assert ("\n" + rest)[1..] == rest;
  }

  lemma {:induction false} ReplaceShrinks(s: string)
    ensures |ReplaceAll(s, BLANK, PARAGRAPH)| <= |s|
    ensures Contains(s, BLANK) ==> |ReplaceAll(s, BLANK, PARAGRAPH)| < |s|
  {
    if s == [] {
    } else if BLANK <= s {
      ReplaceShrinks(s[3..]);
    } else {
      ReplaceShrinks(s[1..]);
      assert s[0..] == s;
      if Contains(s, BLANK) {
        var i :| OccursAt(s, BLANK, i);
        OccursTail(s, BLANK, i);
      }
    }
  }

  function Newlines(k: nat): string {
    seq(k, _ => '\n')
  }

  lemma BlankAtFront(s: string)
    requires s != [] && s[0] == '\n'
    ensures Contains(Newlines(2) + s, BLANK)
  {
    var x := Newlines(2) + s;
    assert x[0..] == BLANK + s[1..];
    assert OccursAt(x, BLANK, 0);
  }

  lemma NewlineMoves(s: string, k: nat)
    requires s != [] && s[0] == '\n'
    ensures Newlines(k) + s == Newlines(k + 1) + s[1..]
  {
  }

  lemma NoBlankBehind(s: string, k: nat)
    requires s != [] && !Contains(Newlines(k) + s, BLANK)
    ensures !Contains(Newlines(0) + s[1..], BLANK)
  {
    assert Newlines(0) + s[1..] == s[1..];
    assert (Newlines(k) + [s[0]]) + s[1..] + [] == Newlines(k) + s;
    if Contains(s[1..], BLANK) { ContainsInMiddle(Newlines(k) + [s[0]], s[1..], [], BLANK); }
  }

  lemma {:induction false} CapFixed(s: string, k: nat)
    requires k <= 2 && !Contains(Newlines(k) + s, BLANK)
    ensures CapNewlines(s, k) == s
  {
    if s != [] {
      if s[0] == '\n' {
        BlankAtFront(s);
        NewlineMoves(s, k);
        CapFixed(s[1..], k + 1);
      } else {
        NoBlankBehind(s, k);
        CapFixed(s[1..], 0);
      }
    }
  }

  /** The collapsed text has no blank line left, and gains nothing that has no
      newline in it. */
  lemma {:induction false} CapIsClean(s: string, u: string)
    requires '\n' !in u && !Contains(s, u)
    ensures !Contains(CapNewlines(s, 0), BLANK) && !Contains(CapNewlines(s, 0), u)
    decreases |s|
  {
    if Contains(s, BLANK) {
      ReplaceShrinks(s);
      CapReplace(s, 0);
      ReplaceCreatesNothing(s, BLANK, PARAGRAPH, "", '\n', "\n", u);
      CapIsClean(ReplaceAll(s, BLANK, PARAGRAPH), u);
    } else {
      assert Newlines(0) + s == s;
      CapFixed(s, 0);
    }
  }

  lemma {:induction false} CapKeepsOthers(s: string, k: nat)
    ensures Without(CapNewlines(s, k), '\n') == Without(s, '\n')
  {
    if s != [] {
      var k' := if s[0] != '\n' then 0 else if k < 2 then k + 1 else k;
      CapKeepsOthers(s[1..], k');
      var t := [s[0]] + CapNewlines(s[1..], k');
      assert t[1..] == CapNewlines(s[1..], k');
    }
  }

  // -------------------------------------------------------- tag laws

  ghost predicate Neutralizable(tags: seq<string>) {
    forall i | 0 <= i < |tags| :: IsTag(tags[i]) && ZERO_WIDTH !in tags[i]
  }

  lemma {:induction false} NeutralizeCreatesNothing(s: string, tags: seq<string>, u: string)
    requires Neutralizable(tags) && ZERO_WIDTH !in u && !Contains(s, u)
    ensures !Contains(NeutralizeAll(s, tags), u)
    decreases |tags|
  {
    if tags != [] {
      var t := tags[0];
      DefusedSplits(t, ZERO_WIDTH);
      ReplaceCreatesNothing(s, t, Defused(t, ZERO_WIDTH), [t[0]], ZERO_WIDTH, t[1..], u);
      NeutralizeCreatesNothing(ReplaceAll(s, t, Defused(t, ZERO_WIDTH)), tags[1..], u);
    }
  }

  lemma {:induction false} NeutralizeRemoves(s: string, tags: seq<string>, i: nat)
    requires Neutralizable(tags) && i < |tags|
    ensures !Contains(NeutralizeAll(s, tags), tags[i])
    decreases |tags|
  {
    var t := tags[0];
    var next := ReplaceAll(s, t, Defused(t, ZERO_WIDTH));
    if i == 0 {
      DefuseRemoves(s, t, ZERO_WIDTH);
      NeutralizeCreatesNothing(next, tags[1..], t);
    } else {
      NeutralizeRemoves(next, tags[1..], i - 1);
    }
  }

  lemma {:induction false} NeutralizeAbsent(s: string, tags: seq<string>)
    requires Neutralizable(tags) && forall i | 0 <= i < |tags| :: !Contains(s, tags[i])
    ensures NeutralizeAll(s, tags) == s
    decreases |tags|
  {
    if tags != [] {
      ReplaceAbsent(s, tags[0], Defused(tags[0], ZERO_WIDTH));
      NeutralizeAbsent(s, tags[1..]);
    }
  }

  /** Neutralizing only inserts zero-width spaces. */
  lemma {:induction false} NeutralizeKeepsOthers(s: string, tags: seq<string>)
    requires Neutralizable(tags)
    ensures Without(NeutralizeAll(s, tags), ZERO_WIDTH) == Without(s, ZERO_WIDTH)
    decreases |tags|
  {
    if tags != [] {
      var t := tags[0];
      var d := Defused(t, ZERO_WIDTH);
      assert Without(d, ZERO_WIDTH) == Without(t, ZERO_WIDTH) by {
        WithoutConcat([t[0]], [ZERO_WIDTH] + t[1..], ZERO_WIDTH);
        WithoutConcat([ZERO_WIDTH], t[1..], ZERO_WIDTH);
        WithoutConcat([t[0]], t[1..], ZERO_WIDTH);
        assert d == [t[0]] + ([ZERO_WIDTH] + t[1..]) && t == [t[0]] + t[1..];
      }
      ReplaceKeepsOthers(s, t, d, ZERO_WIDTH);
      NeutralizeKeepsOthers(ReplaceAll(s, t, d), tags[1..]);
    }
  }

  // ------------------------------------------------------- the main results

  ghost predicate IsClean(s: string) {
    && IsTrimmed(s)
    && !Contains(s, BLANK)
    && forall i | 0 <= i < |CONTROL_TAGS| :: !Contains(s, CONTROL_TAGS[i])
  }

  lemma TagsNeutralizable()
    ensures Neutralizable(CONTROL_TAGS)
    ensures forall i | 0 <= i < |CONTROL_TAGS| :: '\n' !in CONTROL_TAGS[i]
  {
    ControlTagsAreTags();
    forall i | 0 <= i < |CONTROL_TAGS| ensures CONTROL_TAGS[i] in CONTROL_TAGS {}
  }

  /** Whatever the model wrote, the output is trimmed, has none of the six
      control tags and no two blank lines in a row. */
  lemma FormatIsClean(s: string)
    ensures IsClean(Format(s))
  {
    var n := Neutralize(Unwrap(StripAnalysis(s)));
    TagsNeutralizable();
    forall i | 0 <= i < |CONTROL_TAGS|
      ensures !Contains(Format(s), CONTROL_TAGS[i]) && !Contains(Format(s), BLANK)
    {
      NeutralizeRemoves(Unwrap(StripAnalysis(s)), CONTROL_TAGS, i);
      CapIsClean(n, CONTROL_TAGS[i]);
      TrimKeepsAbsence(CapNewlines(n, 0), CONTROL_TAGS[i]);
      TrimKeepsAbsence(CapNewlines(n, 0), BLANK);
    }
    assert !Contains(Format(s), BLANK) by { assert 0 < |CONTROL_TAGS|; }
    TrimIsTrimmed(CapNewlines(n, 0));
  }

  /** A clean text is left alone. */
  lemma CleanIsFixed(s: string)
    requires IsClean(s)
    ensures Format(s) == s
  {
    assert CONTROL_TAGS[3] == ANALYSIS && CONTROL_TAGS[1] == SUMMARY;
    FindNone(s, ANALYSIS);
    FindNone(s, SUMMARY);
    assert StripAnalysis(s) == s && Unwrap(s) == s;
    TagsNeutralizable();
    NeutralizeAbsent(s, CONTROL_TAGS);
    assert Newlines(0) + s == s;
    CapFixed(s, 0);
    TrimFixed(s);
  }

  /** Hence formatting twice is formatting once. */
  lemma FormatIdempotent(s: string)
    ensures Format(Format(s)) == Format(s)
  {
    FormatIsClean(s);
    CleanIsFixed(Format(s));
  }

  /** The last two stages lose nothing but newlines and white space at the ends,
      and add nothing but zero-width spaces. */
  lemma PolishKeepsText(s: string)
    ensures Without(CapNewlines(Neutralize(s), 0), '\n') == Without(Neutralize(s), '\n')
    ensures Without(Neutralize(s), ZERO_WIDTH) == Without(s, ZERO_WIDTH)
  {
    TagsNeutralizable();
    CapKeepsOthers(Neutralize(s), 0);
    NeutralizeKeepsOthers(s, CONTROL_TAGS);
  }
}
