/** What `format_compact_summary` leaves of a text that holds a scratchpad: which
    `<analysis>` tags lead, and what goes with a closed, an unclosed and an inner
    scratchpad. */
module SummaryPeel {
  import opened Conversation
  import opened Text
  import opened SummaryFormat
  import opened SummaryLaws
  import opened SummaryWhole

  // -------------------------------------------------------- which tags lead

  /** The part after the first `<summary>` of `p` is blank. */
  ghost predicate OpensBlank(p: string) {
    exists k | OccursAt(p, SUMMARY, k) :: !Contains(p[..k], SUMMARY) && AllSpace(p[k + |SUMMARY|..])
  }

  /** An `<analysis>` between `p` and `y` leads: a `<summary>` is still to come, or
      the first one stands right before it, or there is none and nothing before. */
  ghost predicate Leads(p: string, y: string) {
    || (!Contains(p, SUMMARY) && Contains(y, SUMMARY))
    || OpensBlank(p)
    || (!Contains(p, SUMMARY) && !Contains(y, SUMMARY) && AllSpace(p))
  }

  lemma TagSlices<T>(p: seq<T>, t: seq<T>, y: seq<T>)
    ensures var s := p + (t + y); s[..|p|] == p && s[|p|..] == t + y && s[|p| + |t|..] == y
  {
  }

  /** Behind a tag of another kind. */
  lemma BehindOtherTag(u: string, t: string, y: string, i: int)
    requires IsTag(u) && IsTag(t) && |u| > 1 && |t| > 1 && u[1] != t[1]
    ensures OccursAt(u + y, t, i) <==> OccursAt(y, t, i - |u|)
  {
    var z := u + y;
    if i >= |u| && i <= |z| { assert z[i..] == y[i - |u|..]; }
    if OccursAt(z, t, i) {
      OccursChars(z, t, i);
      assert z[i] == t[0] == '<' && z[i + 1] == t[1];
      assert forall k | 0 <= k < |u| :: z[k] == u[k];
    }
  }

  /** The first `<summary>` around an `<analysis>`. */
  lemma SummaryAround(p: string, y: string, i: int)
    ensures OccursAt(p + (ANALYSIS + y), SUMMARY, i)
       <==> OccursAt(p, SUMMARY, i) || OccursAt(y, SUMMARY, i - |p| - |ANALYSIS|)
  {
    SummaryTags();
    TagInConcat(p, ANALYSIS + y, SUMMARY, i);
    BehindOtherTag(ANALYSIS, SUMMARY, y, i - |p|);
  }

  /** A `<summary>` in front of the tag. */
  lemma LeadsBehind(p: string, y: string)
    requires Contains(p, SUMMARY) && OccursAt(p + (ANALYSIS + y), ANALYSIS, |p|)
    ensures IsLeading(p + (ANALYSIS + y), |p|) <==> OpensBlank(p)
  {
    var s := p + (ANALYSIS + y);
    FindIsFirst(p, SUMMARY);
    var k := Find(p, SUMMARY).value;
    SummaryAround(p, y, k);
    forall i | 0 <= i < k ensures !OccursAt(s, SUMMARY, i) { SummaryAround(p, y, i); assert !OccursAt(p, SUMMARY, i); }
    FindAt(s, SUMMARY, k);
    SummaryBeforeAnalysis(s, k, |p|);
    assert s[k + |SUMMARY|..|p|] == p[k + |SUMMARY|..];
    TrimEmpty(p[k + |SUMMARY|..]);
    OnlyFirstOpens(p, k);
  }

  lemma OnlyFirstOpens(p: string, k: nat)
    requires OccursAt(p, SUMMARY, k) && forall i | 0 <= i < k :: !OccursAt(p, SUMMARY, i)
    ensures OpensBlank(p) <==> AllSpace(p[k + |SUMMARY|..])
  {
    forall j | OccursAt(p, SUMMARY, j) ensures Contains(p[..j], SUMMARY) <==> k < j {
      SummaryInPrefix(p, j, k);
    }
  }

  lemma SummaryInPrefix(p: string, j: nat, k: nat)
    requires OccursAt(p, SUMMARY, k) && forall i | 0 <= i < k :: !OccursAt(p, SUMMARY, i)
    requires OccursAt(p, SUMMARY, j)
    ensures Contains(p[..j], SUMMARY) <==> k < j
  {
    SummaryTags();
    SplitAtTag(p, j);
    forall i ensures OccursAt(p[..j], SUMMARY, i) ==> i < j && OccursAt(p, SUMMARY, i) {
      TagInConcat(p[..j], p[j..], SUMMARY, i);
    }
    if k < j {
      TagsDisjoint(p, SUMMARY, SUMMARY, k, j);
      TagInConcat(p[..j], p[j..], SUMMARY, k);
    }
  }

  lemma SplitAtTag(p: string, j: nat)
    requires OccursAt(p, SUMMARY, j)
    ensures p == p[..j] + p[j..] && p[j..] != [] && p[j..][0] == '<'
  {
  }

  /** No `<summary>` in front of the tag. */
  lemma LeadsAhead(p: string, y: string)
    requires !Contains(p, SUMMARY) && OccursAt(p + (ANALYSIS + y), ANALYSIS, |p|)
    ensures IsLeading(p + (ANALYSIS + y), |p|) <==> Contains(y, SUMMARY) || AllSpace(p)
  {
    var s := p + (ANALYSIS + y);
    FindIsFirst(s, SUMMARY);
    FindIsFirst(y, SUMMARY);
    TrimEmpty(p);
    assert s[..|p|] == p;
    if Find(y, SUMMARY).Some? {
      var k := Find(y, SUMMARY).value;
      SummaryAround(p, y, k + |p| + |ANALYSIS|);
      assert Contains(s, SUMMARY);
      SummaryAround(p, y, Find(s, SUMMARY).value);
      assert Find(s, SUMMARY).value > |p|;
    } else {
      forall i ensures !OccursAt(s, SUMMARY, i) { SummaryAround(p, y, i); }
    }
  }

  /** The test for a leading scratchpad, in terms of what stands around it. */
  lemma LeadsIff(p: string, y: string)
    requires OccursAt(p + (ANALYSIS + y), ANALYSIS, |p|)
    ensures IsLeading(p + (ANALYSIS + y), |p|) <==> Leads(p, y)
  {
    if Contains(p, SUMMARY) {
      LeadsBehind(p, y);
    } else {
      LeadsAhead(p, y);
      assert !OpensBlank(p);
    }
  }

  lemma FirstAnalysis(p: string, y: string)
    requires !Contains(p, ANALYSIS)
    ensures Find(p + (ANALYSIS + y), ANALYSIS) == Some(|p|)
    ensures OccursAt(p + (ANALYSIS + y), ANALYSIS, |p|)
  {
    SummaryTags();
    FindAfter(p, ANALYSIS, y);
    FindIsFirst(p + (ANALYSIS + y), ANALYSIS);
  }

  // -------------------------------------------------- what goes with the tag

  /** Main result: a scratchpad that does not lead stays, and the whole text with it. */
  lemma QuotedStays(p: string, y: string)
    requires !Contains(p, ANALYSIS) && !Leads(p, y)
    ensures StripAnalysis(p + ANALYSIS + y) == p + ANALYSIS + y
  {
    assert p + ANALYSIS + y == p + (ANALYSIS + y);
    FirstAnalysis(p, y);
    LeadsIff(p, y);
  }

  /** Main result: a closed leading scratchpad goes, up to its first closing tag, and
      the search starts again on what is left. */
  lemma ClosedIsDropped(p: string, a: string, rest: string)
    requires !Contains(p, ANALYSIS) && !Contains(a, END_ANALYSIS) && Leads(p, a + END_ANALYSIS + rest)
    ensures StripAnalysis(p + ANALYSIS + a + END_ANALYSIS + rest) == StripAnalysis(p + rest)
  {
    var y := a + END_ANALYSIS + rest;
    var s := p + (ANALYSIS + y);
    ClosedSlices(p, ANALYSIS, a, END_ANALYSIS, rest);
    FirstAnalysis(p, y);
    LeadsIff(p, y);
    EndAnalysisAfter(a, rest);
    assert AnalysisRound(s) == Again(p + rest);
  }

  lemma ClosedSlices<T>(p: seq<T>, o: seq<T>, a: seq<T>, c: seq<T>, rest: seq<T>)
    ensures var s := p + (o + (a + c + rest));
            && s == p + o + a + c + rest && s[..|p|] == p && s[|p|..] == o + a + c + rest
            && s[|p| + (|o| + |a|) + |c|..] == rest
  {
  }

  /** An unclosed scratchpad ends where the next `<summary>` begins, or runs to the end. */
  predicate IsRemainder(tail: string) {
    tail == [] || SUMMARY <= tail
  }

  lemma NoCloseInside(a: string, tail: string)
    requires !Contains(a, END_ANALYSIS) && !Contains(tail, END_ANALYSIS) && IsRemainder(tail)
    ensures Find(ANALYSIS + (a + tail), END_ANALYSIS).None?
  {
    SummaryTags();
    var x := ANALYSIS + a;
    assert ANALYSIS + (a + tail) == x + tail;
    forall i ensures !OccursAt(x + tail, END_ANALYSIS, i) {
      TagInConcat(x, tail, END_ANALYSIS, i);
      OpenHoldsNoClose(a, i);
    }
    FindNone(x + tail, END_ANALYSIS);
  }

  lemma NextSummary(a: string, tail: string)
    requires !Contains(a, SUMMARY) && IsRemainder(tail)
    ensures Find(ANALYSIS + (a + tail), SUMMARY) == if tail == [] then None else Some(|ANALYSIS + a|)
  {
    SummaryTags();
    var x := ANALYSIS + a;
    assert [] + (ANALYSIS + a) == x;
    forall i ensures !OccursAt(x, SUMMARY, i) {
      SummaryAround([], a, i);
      if OccursAt([], SUMMARY, i) { OccursChars([], SUMMARY, i); }
    }
    if tail == [] {
      assert ANALYSIS + (a + tail) == x;
      FindNone(x, SUMMARY);
    } else {
      var rest := tail[|SUMMARY|..];
      assert ANALYSIS + (a + tail) == x + (SUMMARY + rest);
      FindAfter(x, SUMMARY, rest);
    }
  }

  lemma UnclosedSlices<T>(p: seq<T>, o: seq<T>, a: seq<T>, tail: seq<T>)
    ensures var s := p + (o + (a + tail));
            && s == p + o + a + tail && s[..|p|] == p && s[|p|..] == o + (a + tail)
            && s[|p| + |o + a|..] == tail && s[|s|..] == []
  {
  }

  /** Main result: an unclosed leading scratchpad goes, up to the `<summary>` after it
      or, without one, to the end; the search ends there. */
  lemma UnclosedIsDropped(p: string, a: string, tail: string)
    requires !Contains(p, ANALYSIS) && !Contains(a, SUMMARY) && IsRemainder(tail)
    requires !Contains(a, END_ANALYSIS) && !Contains(tail, END_ANALYSIS) && Leads(p, a + tail)
    ensures StripAnalysis(p + ANALYSIS + a + tail) == p + tail
  {
    UnclosedSlices(p, ANALYSIS, a, tail);
    FirstAnalysis(p, a + tail);
    LeadsIff(p, a + tail);
    NoCloseInside(a, tail);
    NextSummary(a, tail);
    assert AnalysisRound(p + (ANALYSIS + (a + tail))) == Done(p + tail);
  }

  // ------------------------------------------------------------- whole texts

  /** An unclosed scratchpad in front of a `<summary>` does not take the summary with
      it. The result is that of formatting the rest alone exactly when the rest does
      not lead with a scratchpad of its own, since the search has ended. */
  lemma UnclosedBeforeSummary(p: string, a: string, rest: string)
    requires !Contains(p, ANALYSIS) && !Contains(p, SUMMARY) && !Contains(a, SUMMARY)
    requires !Contains(a, END_ANALYSIS) && !Contains(rest, END_ANALYSIS)
    ensures StripAnalysis(p + ANALYSIS + a + SUMMARY + rest) == p + SUMMARY + rest
    ensures StripAnalysis(p + ANALYSIS + a + SUMMARY + rest) == StripAnalysis(p + SUMMARY + rest)
       <==> !HasScratchpad(p + SUMMARY + rest)
    ensures Format(p + ANALYSIS + a + SUMMARY + rest) == Polish(Unwrap(p + SUMMARY + rest))
    ensures !HasScratchpad(p + SUMMARY + rest) ==>
              Format(p + ANALYSIS + a + SUMMARY + rest) == Format(p + SUMMARY + rest)
  {
    SummaryGoesOn(a, rest);
    UnclosedIsDropped(p, a, SUMMARY + rest);
    FiveFlat(p, ANALYSIS, a, SUMMARY, rest);
    StripShrinks(p + SUMMARY + rest);
  }

  lemma FiveFlat<T>(a: seq<T>, b: seq<T>, c: seq<T>, d: seq<T>, e: seq<T>)
    ensures a + b + c + d + e == a + b + c + (d + e) && a + d + e == a + (d + e)
  {
  }

  /** What follows the scratchpad begins with the summary and does not close it. */
  lemma SummaryGoesOn(a: string, rest: string)
    requires !Contains(rest, END_ANALYSIS)
    ensures IsRemainder(SUMMARY + rest) && Contains(a + (SUMMARY + rest), SUMMARY) && !Contains(SUMMARY + rest, END_ANALYSIS)
  {
    NoCloseInTail(rest);
    TagSlices(a, SUMMARY, rest);
    assert OccursAt(a + (SUMMARY + rest), SUMMARY, |a|);
  }

  lemma NoCloseInTail(rest: string)
    requires !Contains(rest, END_ANALYSIS)
    ensures !Contains(SUMMARY + rest, END_ANALYSIS)
  {
    SummaryTags();
    forall i ensures !OccursAt(SUMMARY + rest, END_ANALYSIS, i) {
      BehindOtherTag(SUMMARY, END_ANALYSIS, rest, i);
      assert !OccursAt(rest, END_ANALYSIS, i - |SUMMARY|);
    }
  }

  lemma FlatFive<T>(a: seq<T>, b: seq<T>, c: seq<T>, d: seq<T>, e: seq<T>)
    ensures a + b + (c + d + e) == a + b + c + d + e
  {
  }

  /** The numbered summary behind an unclosed scratchpad survives. */
  lemma UnclosedThenNumbered(p: string, a: string, body: string, post: string)
    requires !Contains(p, ANALYSIS) && !Contains(p, SUMMARY) && !Contains(a, SUMMARY) && !Contains(a, END_ANALYSIS)
    requires !Contains(body + END_SUMMARY + post, END_ANALYSIS) && !Contains(post, END_SUMMARY)
    requires LeadsWithNumber(Trim(body))
    ensures Format(p + ANALYSIS + a + SUMMARY + (body + END_SUMMARY + post))
         == Polish(p + "Summary:\n" + Trim(body) + post)
  {
    var rest := body + END_SUMMARY + post;
    UnclosedBeforeSummary(p, a, rest);
    FlatFive(p, SUMMARY, body, END_SUMMARY, post);
    UnwrapNumbered(p, body, post);
  }

  lemma PolishBlank(s: string)
    requires AllSpace(s)
    ensures Format(s) == ""
  {
    SummaryTags();
    NoTagWithoutBracket(s, ANALYSIS);
    NoTagWithoutBracket(s, SUMMARY);
    FindNone(s, ANALYSIS);
    FindNone(s, SUMMARY);
    ControlTagsAreTags();
    NeutralizeBlank(s, CONTROL_TAGS);
    CapBlank(s, 0);
    TrimEmpty(CapNewlines(s, 0));
  }

  lemma {:induction false} ReplaceBlank(s: string, t: string, r: string)
    requires AllSpace(s) && IsTag(t)
    ensures ReplaceAll(s, t, r) == s
  {
    if s != [] { ReplaceBlank(s[1..], t, r); }
  }

  lemma {:induction false} NeutralizeBlank(s: string, tags: seq<string>)
    requires AllSpace(s) && forall i | 0 <= i < |tags| :: tags[i] != [] && IsTag(tags[i])
    ensures NeutralizeAll(s, tags) == s
    decreases |tags|
  {
    if tags != [] {
      ReplaceBlank(s, tags[0], Defused(tags[0], ZERO_WIDTH));
      NeutralizeBlank(s, tags[1..]);
    }
  }

  lemma {:induction false} CapBlank(s: string, k: nat)
    requires AllSpace(s)
    ensures AllSpace(CapNewlines(s, k))
  {
    if s != [] { CapBlank(s[1..], if s[0] != '\n' then 0 else if k < 2 then k + 1 else k); }
  }

  /** Nothing is left of a text that is all unclosed scratchpad. */
  lemma OnlyScratchpad(space: string, a: string)
    requires AllSpace(space) && !Contains(a, SUMMARY) && !Contains(a, END_ANALYSIS)
    ensures Format(space + ANALYSIS + a) == Format(space) == ""
  {
    SummaryTags();
    NoTagWithoutBracket(space, ANALYSIS);
    NoTagWithoutBracket(space, SUMMARY);
    assert a + [] == a && space + [] == space && space + ANALYSIS + a + [] == space + ANALYSIS + a;
    forall i ensures !OccursAt([], END_ANALYSIS, i) {
      if OccursAt([], END_ANALYSIS, i) { OccursChars([], END_ANALYSIS, i); }
    }
    UnclosedIsDropped(space, a, []);
    PolishBlank(space);
    FindNone(space, ANALYSIS);
  }

  // ------------------------------------------------------ the search has ended

  lemma {:induction false} WithoutHas(s: string, d: char, c: char)
    requires c != d
    ensures c in Without(s, d) <==> c in s
  {
    if s != [] { WithoutHas(s[1..], d, c); }
  }

  lemma TrimHas(s: string, c: char)
    requires !IsSpace(c)
    ensures c in Trim(s) <==> c in s
  {
    var a, b := TrimParts(s);
    assert c !in a && c !in b;
  }

  /** Polishing neither adds nor loses a letter. */
  lemma PolishHas(s: string, c: char)
    requires !IsSpace(c) && c != ZERO_WIDTH && c != '\n'
    ensures c in Polish(s) <==> c in s
  {
    PolishKeepsText(s);
    WithoutHas(s, ZERO_WIDTH, c);
    WithoutHas(Neutralize(s), ZERO_WIDTH, c);
    WithoutHas(Neutralize(s), '\n', c);
    WithoutHas(CapNewlines(Neutralize(s), 0), '\n', c);
    TrimHas(CapNewlines(Neutralize(s), 0), c);
  }

  lemma NoTagIn(s: string)
    requires forall i | 0 <= i < |s| :: s[i] != '<'
    ensures !Contains(s, ANALYSIS) && !Contains(s, SUMMARY) && !Contains(s, END_ANALYSIS) && !Contains(s, END_SUMMARY)
  {
    SummaryTags();
    NoTagWithoutBracket(s, ANALYSIS);
    NoTagWithoutBracket(s, SUMMARY);
    NoTagWithoutBracket(s, END_ANALYSIS);
    NoTagWithoutBracket(s, END_SUMMARY);
  }

  lemma NoSummaryEnd(x: string)
    requires forall i | 0 <= i < |x| :: x[i] != '<'
    ensures Unwrap(SUMMARY + (ANALYSIS + x)) == SUMMARY + (ANALYSIS + x) && Unwrap(SUMMARY) == SUMMARY
  {
    NoTagIn(x);
    NoTagIn([]);
    SummaryTags();
    forall i ensures !OccursAt(SUMMARY + (ANALYSIS + x), END_SUMMARY, i) {
      BehindOtherTag(SUMMARY, END_SUMMARY, ANALYSIS + x, i);
      BehindOtherTag(ANALYSIS, END_SUMMARY, x, i - |SUMMARY|);
    }
    forall i ensures !OccursAt(SUMMARY, END_SUMMARY, i) {
      assert SUMMARY + [] == SUMMARY;
      BehindOtherTag(SUMMARY, END_SUMMARY, [], i);
    }
    RFindIsLast(SUMMARY + (ANALYSIS + x), END_SUMMARY);
    RFindIsLast(SUMMARY, END_SUMMARY);
  }

  lemma SummaryIsBare()
    ensures OpensBlank(SUMMARY) && !Contains(SUMMARY, ANALYSIS)
  {
    assert SUMMARY[0..] == SUMMARY && OccursAt(SUMMARY, SUMMARY, 0);
    NoTagIn([]);
    SummaryTags();
    Units(SUMMARY, SUMMARY, SUMMARY);
    forall i ensures !OccursAt(SUMMARY, ANALYSIS, i) { BehindOtherTag(SUMMARY, ANALYSIS, [], i); }
  }

  lemma Units<T>(a: seq<T>, b: seq<T>, x: seq<T>)
    ensures x + [] == x && a + [] == a && a + b + x + [] == a + (b + x)
    ensures [] + b + [] + a + x == b + (a + x) && [] + a + x == a + x
  {
  }

  lemma ScratchpadInSummary(x: string)
    requires forall i | 0 <= i < |x| :: x[i] != '<'
    ensures StripAnalysis(SUMMARY + (ANALYSIS + x)) == SUMMARY
  {
    NoTagIn(x);
    NoTagIn([]);
    SummaryIsBare();
    Units(SUMMARY, ANALYSIS, x);
    UnclosedIsDropped(SUMMARY, x, []);
  }

  lemma NotClosed(x: string)
    requires !Contains(x, END_ANALYSIS)
    ensures !Contains(ANALYSIS + x, END_ANALYSIS)
  {
    forall i ensures !OccursAt(ANALYSIS + x, END_ANALYSIS, i) { OpenHoldsNoClose(x, i); }
  }

  lemma Letters(x: string)
    ensures 'n' in SUMMARY + (ANALYSIS + x) && 'n' !in SUMMARY
  {
    assert ANALYSIS[2] == 'n' && (ANALYSIS + x)[2] == 'n' && (SUMMARY + (ANALYSIS + x))[|SUMMARY| + 2] == 'n';
  }

  lemma SecondStays(x: string)
    requires forall i | 0 <= i < |x| :: x[i] != '<'
    ensures Format(ANALYSIS + (SUMMARY + (ANALYSIS + x))) == Polish(SUMMARY + (ANALYSIS + x))
  {
    NoTagIn(x);
    NoTagIn([]);
    NotClosed(x);
    UnclosedBeforeSummary([], [], ANALYSIS + x);
    Units(SUMMARY, ANALYSIS, ANALYSIS + x);
    NoSummaryEnd(x);
  }

  lemma OnlyOneGoes(x: string)
    requires forall i | 0 <= i < |x| :: x[i] != '<'
    ensures Format(SUMMARY + (ANALYSIS + x)) == Polish(SUMMARY)
  {
    NoSummaryEnd(x);
    ScratchpadInSummary(x);
  }

  /** A second unclosed scratchpad, right behind the summary tag, stays where a first one
      was dropped, and goes where it is the only one. */
  lemma SearchEnds(x: string)
    requires forall i | 0 <= i < |x| :: x[i] != '<'
    ensures Format(ANALYSIS + (SUMMARY + (ANALYSIS + x))) != Format(SUMMARY + (ANALYSIS + x))
  {
    SecondStays(x);
    OnlyOneGoes(x);
    Letters(x);
    PolishHas(SUMMARY + (ANALYSIS + x), 'n');
    PolishHas(SUMMARY, 'n');
  }

  // --------------------------------------------------- inside the summary block

  /** Trimming when the only white space behind is `b`. */
  lemma TrimStartIsTrim(x: string, b: string)
    requires AllSpace(b) && (x == [] || !IsSpace(x[|x| - 1]))
    ensures Trim(x + b) == TrimStart(x)
  {
    TrimStartParts(x);
    var r := TrimStart(x);
    var l := x[..|x| - |r|];
    assert r != [] ==> r[|r| - 1] == x[|x| - 1];
    TrimOf(l, r, b);
  }

  lemma TrimmedAround<T>(d: seq<T>, t: seq<T>, rest: seq<T>, a: seq<T>, m: seq<T>, b: seq<T>)
    requires d + (t + rest) == a + m + b && |a| <= |d| && |b| <= |rest|
    ensures m == d[|a|..] + (t + rest[..|rest| - |b|]) && rest == rest[..|rest| - |b|] + b
  {
    var s := d + (t + rest);
    var n := |s| - |b|;
    assert m == s[|a|..n];
    assert s[n..] == b && s[n..] == rest[|rest| - |b|..];
  }

  /** A tag is not white space, so trimming stays outside it. */
  lemma TrimOutsideTag(d: string, t: string, rest: string, a: string, m: string, b: string)
    requires IsTag(t) && !IsSpace(t[|t| - 1]) && AllSpace(a) && AllSpace(b) && d + (t + rest) == a + m + b
    ensures |a| <= |d| && |b| <= |rest|
  {
    var s := d + (t + rest);
    assert s[|d|] == '<' && s[|d| + |t| - 1] == t[|t| - 1];
    assert forall i | 0 <= i < |a| :: s[i] == a[i];
    assert forall i | |a + m| <= i < |s| :: s[i] == b[i - |a + m|];
  }

  lemma PrefixLacks(x: string, b: string, t: string)
    requires !Contains(x + b, t)
    ensures !Contains(x, t)
  {
    assert [] + x + b == x + b;
    if Contains(x, t) { ContainsInMiddle([], x, b, t); }
  }

  lemma LastOf<T>(d: seq<T>, t: seq<T>, x: seq<T>)
    requires x != []
    ensures var m := d + (t + x); m[|m| - 1] == x[|x| - 1]
  {
  }

  /** What stands behind the last tag of a trimmed text. */
  lemma BehindLastTag(d: string, t: string, rest: string) returns (front: string, x: string)
    requires IsTag(t) && !IsSpace(t[|t| - 1]) && !Contains(rest, t)
    ensures Trim(d + (t + rest)) == front + (t + x) && !Contains(x, t) && TrimStart(x) == Trim(rest)
  {
    var s := d + (t + rest);
    var m := Trim(s);
    var a, b := TrimParts(s);
    TrimIsTrimmed(s);
    TrimOutsideTag(d, t, rest, a, m, b);
    TrimmedAround(d, t, rest, a, m, b);
    front, x := d[|a|..], rest[..|rest| - |b|];
    if x != [] { LastOf(front, t, x); }
    PrefixLacks(x, b, t);
    TrimStartIsTrim(x, b);
  }

  lemma AfterLastTag(front: string, t: string, x: string)
    requires IsTag(t) && !Contains(x, t)
    ensures RFind(front + (t + x), t) == Some(|front|) && (front + (t + x))[|front| + |t|..] == x
  {
    RFindBefore(front, t, x);
    TagSlices(front, t, x);
  }

  lemma TrimWrapper(r: string)
    requires IsTrimmed(SUMMARY + r)
    ensures TrimStart(r) == Trim(r)
  {
    assert r != [] ==> r[|r| - 1] == (SUMMARY + r)[|SUMMARY + r| - 1];
    TrimStartIsTrim(r, []);
    assert r + [] == r;
  }

  lemma PeelAt(m: string, pos: nat)
    requires IsTrimmed(m) && !LeadsWithNumber(m) && RFind(m, END_ANALYSIS) == Some(pos)
    ensures var t := TrimStart(m[pos + |END_ANALYSIS|..]);
            StripLeadingScratchpad(m) == if SUMMARY <= t then TrimStart(t[|SUMMARY|..]) else t
  {
    TrimFixed(m);
  }

  /** Peeling up to the last `</analysis>`, then a wrapper that is left over. */
  lemma PeelDraft(d: string, rest: string)
    requires !LeadsWithNumber(Trim(d + (END_ANALYSIS + rest))) && !Contains(rest, END_ANALYSIS)
    ensures var peeled := StripLeadingScratchpad(Trim(d + (END_ANALYSIS + rest)));
            if SUMMARY <= Trim(rest) then peeled == Trim(Trim(rest)[|SUMMARY|..]) else peeled == Trim(rest)
  {
    TrimIsTrimmed(d + (END_ANALYSIS + rest));
    SummaryTags();
    var front, x := BehindLastTag(d, END_ANALYSIS, rest);
    AfterLastTag(front, END_ANALYSIS, x);
    PeelAt(Trim(d + (END_ANALYSIS + rest)), |front|);
    PeelWrapper(rest);
  }

  lemma PeelWrapper(rest: string)
    ensures SUMMARY <= Trim(rest) ==> TrimStart(Trim(rest)[|SUMMARY|..]) == Trim(Trim(rest)[|SUMMARY|..])
  {
    TrimIsTrimmed(rest);
    if SUMMARY <= Trim(rest) {
      var r := Trim(rest)[|SUMMARY|..];
      assert Trim(rest) == SUMMARY + r;
      TrimWrapper(r);
    }
  }

  lemma PeelPlain(body: string)
    requires !Contains(body, END_ANALYSIS)
    ensures var peeled := StripLeadingScratchpad(Trim(body));
            if SUMMARY <= Trim(body) then peeled == Trim(Trim(body)[|SUMMARY|..]) else peeled == Trim(body)
  {
    TrimIsTrimmed(body);
    TrimFixed(Trim(body));
    TrimKeepsAbsence(body, END_ANALYSIS);
    RFindIsLast(Trim(body), END_ANALYSIS);
    PeelWrapper(body);
  }

  /** Main result: inside the summary block, a draft up to the last `</analysis>` is
      dropped unless the block leads with a numbered section. */
  lemma InnerDraftIsDropped(pre: string, d: string, rest: string, post: string)
    requires !Contains(pre, SUMMARY) && !Contains(post, END_SUMMARY)
    requires !LeadsWithNumber(Trim(d + (END_ANALYSIS + rest))) && !Contains(rest, END_ANALYSIS)
    ensures Unwrap(pre + SUMMARY + (d + (END_ANALYSIS + rest)) + END_SUMMARY + post)
         == pre + "Summary:\n" + (if SUMMARY <= Trim(rest) then Trim(Trim(rest)[|SUMMARY|..]) else Trim(rest)) + post
  {
    UnwrapAt(pre, d + (END_ANALYSIS + rest), post);
    PeelDraft(d, rest);
  }

  /** Without a draft only a second wrapper goes. */
  lemma InnerTextIsKept(pre: string, body: string, post: string)
    requires !Contains(pre, SUMMARY) && !Contains(post, END_SUMMARY) && !Contains(body, END_ANALYSIS)
    ensures Unwrap(pre + SUMMARY + body + END_SUMMARY + post)
         == pre + "Summary:\n" + (if SUMMARY <= Trim(body) then Trim(Trim(body)[|SUMMARY|..]) else Trim(body)) + post
  {
    UnwrapAt(pre, body, post);
    PeelPlain(body);
  }
}
