/** What `format_compact_summary` keeps: a numbered summary survives, a leading
    scratchpad goes. */
module SummaryLaws {
  import opened Conversation
  import opened Text
  import opened SummaryFormat

  /** The stages after unwrapping. */
  function Polish(s: string): string {
    Trim(CapNewlines(Neutralize(s), 0))
  }

  lemma SummaryTags()
    ensures IsTag(SUMMARY) && IsTag(END_SUMMARY) && IsTag(ANALYSIS) && IsTag(END_ANALYSIS)
  {
  }

  lemma LaterTagInRest(x: string, t: string, y: string, i: int)
    requires IsTag(t) && i > |x|
    ensures OccursAt(x + (t + y), t, i) ==> OccursAt(y, t, i - |x| - |t|)
  {
    var s := x + (t + y);
    assert s[|x|..] == t + y;
    if OccursAt(s, t, i) {
      TagsDisjoint(s, t, t, |x|, i);
      assert s[i..] == y[i - |x| - |t|..];
    }
  }

  /** The last tag of a kind precedes a part that has none. */
  lemma RFindBefore(x: string, t: string, y: string)
    requires IsTag(t) && !Contains(y, t)
    ensures RFind(x + (t + y), t) == Some(|x|)
  {
    var s := x + (t + y);
    assert s[|x|..] == t + y;
    forall i | i > |x| ensures !OccursAt(s, t, i) { LaterTagInRest(x, t, y, i); }
    RFindAt(s, t, |x|);
  }

  // ------------------------------------------- a numbered summary survives

  lemma {:induction false} DecorationEnds(s: string)
    ensures var lead := TrimDecoration(s);
            |lead| <= |s| && lead == s[|s| - |lead|..] && forall i | 0 <= i < |s| - |lead| :: IsDecoration(s[i])
  {
    if s != [] && IsDecoration(s[0]) {
      DecorationEnds(s[1..]);
    }
  }

  /** The section number comes before any `<`. */
  lemma NumberComesFirst(body: string) returns (d: nat)
    requires LeadsWithNumber(Trim(body))
    ensures d < |body| && !IsSpace(body[d]) && forall i | 0 <= i <= d :: body[i] != '<'
  {
    var a, b := TrimParts(body);
    var m := Trim(body);
    DecorationEnds(m);
    var e := |m| - |TrimDecoration(m)|;
    d := |a| + e;
    assert TrimDecoration(m)[0] == m[e];
    forall i | 0 <= i <= d ensures body[i] != '<' {
      if i < |a| {
        assert body[i] == a[i];
      } else {
        assert body[i] == m[i - |a|];
      }
    }
  }

  lemma NumberedIsNotScratch(body: string)
    requires LeadsWithNumber(Trim(body))
    ensures StripLeadingScratchpad(Trim(body)) == Trim(body)
  {
    TrimIsTrimmed(body);
    TrimFixed(Trim(body));
    var m := Trim(body);
    DecorationEnds(m);
    assert m[0] != '<' by {
      if |m| == |TrimDecoration(m)| { assert m[0] == TrimDecoration(m)[0]; }
    }
  }

  /** Quoted `<analysis>` tags in a numbered body are not taken for a scratchpad. */
  lemma NumberedIsNotLeading(pre: string, body: string, tail: string)
    requires !Contains(pre, ANALYSIS) && !Contains(pre, SUMMARY) && LeadsWithNumber(Trim(body))
    requires tail == [] || tail[0] == '<'
    ensures AnalysisRound(pre + (SUMMARY + (body + tail))) == Done(pre + (SUMMARY + (body + tail)))
  {
    var s := pre + (SUMMARY + (body + tail));
    SummaryTags();
    FindAfter(pre, SUMMARY, body + tail);
    FindIsFirst(s, ANALYSIS);
    FindIsFirst(s, SUMMARY);
    match Find(s, ANALYSIS)
    case None =>
    case Some(start) =>
      TagInConcat(pre, SUMMARY + (body + tail), ANALYSIS, start);
      SummaryBeforeAnalysis(s, |pre|, start);
      NumberBeforeQuote(pre, body, tail, start);
  }

  /** Between `<summary>` and a later `<analysis>` stands the number. */
  lemma NumberBeforeQuote(pre: string, body: string, tail: string, start: nat)
    requires LeadsWithNumber(Trim(body))
    requires var s := pre + (SUMMARY + (body + tail)); OccursAt(s, ANALYSIS, start) && |pre| + |SUMMARY| <= start
    ensures Trim((pre + (SUMMARY + (body + tail)))[|pre| + |SUMMARY|..start]) != []
  {
    var s := pre + (SUMMARY + (body + tail));
    var d := NumberComesFirst(body);
    SummaryTags();
    OccursChars(s, ANALYSIS, start);
    assert s == (pre + SUMMARY) + (body + tail);
    NumberInSlice(pre + SUMMARY, body, tail, start, d);
    TrimEmpty(s[|pre| + |SUMMARY|..start]);
  }

  lemma NumberInSlice(x: string, body: string, tail: string, start: nat, d: nat)
    requires d < |body| && !IsSpace(body[d]) && forall i | 0 <= i <= d :: body[i] != '<'
    requires |x| <= start < |x + (body + tail)| && (x + (body + tail))[start] == '<'
    ensures !AllSpace((x + (body + tail))[|x|..start])
  {
    var s := x + (body + tail);
    assert forall k | |x| <= k < |x| + |body| :: s[k] == body[k - |x|];
    assert start > |x| + d;
    assert s[|x|..start][d] == body[d];
  }

  /** Main result: a summary that leads with a numbered section is kept verbatim,
      up to polishing, even when it quotes unbalanced control tags later on. */
  lemma NumberedSummarySurvives(pre: string, body: string, post: string)
    requires !Contains(pre, ANALYSIS) && !Contains(pre, SUMMARY) && !Contains(post, END_SUMMARY)
    requires LeadsWithNumber(Trim(body))
    ensures Format(pre + SUMMARY + body + END_SUMMARY + post) == Polish(pre + "Summary:\n" + Trim(body) + post)
  {
    var tail := END_SUMMARY + post;
    var s := pre + SUMMARY + body + END_SUMMARY + post;
    assert s == pre + (SUMMARY + (body + tail));
    NumberedIsNotLeading(pre, body, tail);
    assert StripAnalysis(s) == s;
    UnwrapNumbered(pre, body, post);
  }

  lemma UnwrapNumbered(pre: string, body: string, post: string)
    requires !Contains(pre, SUMMARY) && !Contains(post, END_SUMMARY) && LeadsWithNumber(Trim(body))
    ensures Unwrap(pre + SUMMARY + body + END_SUMMARY + post) == pre + "Summary:\n" + Trim(body) + post
  {
    UnwrapAt(pre, body, post);
    NumberedIsNotScratch(body);
  }

  /** The block runs from the first `<summary>` to the last `</summary>`. */
  lemma UnwrapAt(pre: string, body: string, post: string)
    requires !Contains(pre, SUMMARY) && !Contains(post, END_SUMMARY)
    ensures Unwrap(pre + SUMMARY + body + END_SUMMARY + post)
         == pre + "Summary:\n" + StripLeadingScratchpad(Trim(body)) + post
  {
    var s := pre + SUMMARY + body + END_SUMMARY + post;
    var x := pre + SUMMARY + body;
    SummaryTags();
    FiveSlices(pre, SUMMARY, body, END_SUMMARY, post);
    FindAfter(pre, SUMMARY, body + (END_SUMMARY + post));
    RFindBefore(x, END_SUMMARY, post);
  }

  lemma FiveSlices<T>(a: seq<T>, b: seq<T>, c: seq<T>, d: seq<T>, e: seq<T>)
    ensures var s, x := a + b + c + d + e, a + b + c;
            && s == a + (b + (c + (d + e))) && s == x + (d + e)
            && s[..|a|] == a && s[|a| + |b|..|x|] == c && s[|x| + |d|..] == e
  {
  }

  // --------------------------------------------- a leading scratchpad goes

  lemma OpenHoldsNoClose(a: string, i: int)
    ensures OccursAt(ANALYSIS + a, END_ANALYSIS, i) ==> OccursAt(a, END_ANALYSIS, i - |ANALYSIS|)
  {
    var x := ANALYSIS + a;
    if OccursAt(x, END_ANALYSIS, i) {
      OccursChars(x, END_ANALYSIS, i);
      assert x[i] == '<' && x[i + 1] == '/';
      assert x[1] == 'a' && forall k | 1 <= k < |ANALYSIS| :: x[k] == ANALYSIS[k] && x[k] != '<';
      assert x[i..] == a[i - |ANALYSIS|..];
    }
  }

  lemma EndAnalysisAfter(a: string, rest: string)
    requires !Contains(a, END_ANALYSIS)
    ensures Find(ANALYSIS + a + END_ANALYSIS + rest, END_ANALYSIS) == Some(|ANALYSIS| + |a|)
  {
    var x := ANALYSIS + a;
    SummaryTags();
    forall i ensures !OccursAt(x, END_ANALYSIS, i) { OpenHoldsNoClose(a, i); }
    FindAfter(x, END_ANALYSIS, rest);
    assert ANALYSIS + a + END_ANALYSIS + rest == x + (END_ANALYSIS + rest);
  }

  /** A closed scratchpad in front is dropped whole. */
  lemma LeadingAnalysisIsDropped(space: string, a: string, rest: string)
    requires AllSpace(space) && !Contains(a, END_ANALYSIS)
    ensures Format(space + ANALYSIS + a + END_ANALYSIS + rest) == Format(space + rest)
  {
    var s := space + ANALYSIS + a + END_ANALYSIS + rest;
    var y := a + END_ANALYSIS + rest;
    SummaryTags();
    NoTagWithoutBracket(space, ANALYSIS);
    NoTagWithoutBracket(space, SUMMARY);
    assert s == space + (ANALYSIS + y);
    FindAfter(space, ANALYSIS, y);
    FindIsFirst(s, ANALYSIS);
    FindIsFirst(s, SUMMARY);
    assert s[..|space|] == space;
    TrimEmpty(space);
    if Find(s, SUMMARY).Some? {
      var sp := Find(s, SUMMARY).value;
      TagInConcat(space, ANALYSIS + y, SUMMARY, sp);
      SummaryBeforeAnalysis(s, sp, |space|);
    }
    assert IsLeading(s, |space|);
    assert s[|space|..] == ANALYSIS + a + END_ANALYSIS + rest;
    EndAnalysisAfter(a, rest);
    assert s[|space| + |ANALYSIS| + |a| + |END_ANALYSIS|..] == rest;
    assert AnalysisRound(s) == Again(space + rest);
  }

  lemma JoinFront<T>(a: seq<T>, b: seq<T>, c: seq<T>, d: seq<T>, e: seq<T>, f: seq<T>)
    ensures a + (b + c + d + e + f) == (a + b) + c + d + e + f
  {
  }

  /** The expected shape of the model's output: scratchpad, then a numbered summary. */
  lemma DraftThenSummary(space: string, a: string, gap: string, body: string, post: string)
    requires AllSpace(space) && AllSpace(gap) && !Contains(a, END_ANALYSIS)
    requires LeadsWithNumber(Trim(body)) && !Contains(post, END_SUMMARY)
    ensures Format(space + ANALYSIS + a + END_ANALYSIS + (gap + SUMMARY + body + END_SUMMARY + post))
         == Polish(space + gap + "Summary:\n" + Trim(body) + post)
  {
    var rest := gap + SUMMARY + body + END_SUMMARY + post;
    LeadingAnalysisIsDropped(space, a, rest);
    JoinFront(space, gap, SUMMARY, body, END_SUMMARY, post);
    SummaryTags();
    NoTagWithoutBracket(space + gap, ANALYSIS);
    NoTagWithoutBracket(space + gap, SUMMARY);
    NumberedSummarySurvives(space + gap, body, post);
  }
}
