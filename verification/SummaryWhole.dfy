/** Exactly which raw texts `format_compact_summary` leaves whole. */
module SummaryWhole {
  import opened Text
  import opened SummaryFormat
  import opened SummaryLaws

  /** The text has a scratchpad that is taken for a leading one. */
  predicate HasScratchpad(s: string) {
    match Find(s, ANALYSIS)
    case None => false
    case Some(start) =>
      FindIsFirst(s, ANALYSIS);
      IsLeading(s, start)
  }

  /** The text has a `<summary>` block. */
  predicate IsWrapped(s: string) {
    var open, close := Find(s, SUMMARY), RFind(s, END_SUMMARY);
    open.Some? && close.Some? && close.value > open.value
  }

  // -------------------------------------------------------------- scratchpads

  lemma NotBoth(s: string)
    requires ANALYSIS <= s
    ensures !(SUMMARY <= s)
  {
    assert ANALYSIS[1] == 'a' && SUMMARY[1] == 's';
    assert s[1] == 'a';
  }

  /** A round on a leading scratchpad makes the text shorter. */
  lemma RoundShrinks(s: string)
    ensures if HasScratchpad(s) then |AnalysisRound(s).text| < |s| else AnalysisRound(s) == Done(s)
  {
    if HasScratchpad(s) {
      FindIsFirst(s, ANALYSIS);
      var start := Find(s, ANALYSIS).value;
      FindIsFirst(s[start..], SUMMARY);
      NotBoth(s[start..]);
      assert s[start..][0..] == s[start..];
    }
  }

  lemma {:induction false} StripShrinks(s: string)
    ensures if HasScratchpad(s) then |StripAnalysis(s)| < |s| else StripAnalysis(s) == s
    decreases |s|
  {
    RoundShrinks(s);
    match AnalysisRound(s)
    case Done(_) =>
    case Again(t) => StripShrinks(t);
  }

  // ----------------------------------------------------------------- wrappers

  lemma TrimShrinks(s: string)
    ensures |Trim(s)| <= |s| && |TrimStart(s)| <= |s|
  {
    TrimStartParts(s);
    TrimEndParts(TrimStart(s));
  }

  lemma PeelShrinks(inner: string)
    ensures |StripLeadingScratchpad(inner)| <= |inner|
  {
    var s := Trim(inner);
    TrimShrinks(inner);
    RFindIsLast(s, END_ANALYSIS);
    var peeled :=
      if LeadsWithNumber(s) then s
      else match RFind(s, END_ANALYSIS) case Some(pos) => TrimStart(s[pos + |END_ANALYSIS|..]) case None => s;
    if !LeadsWithNumber(s) && RFind(s, END_ANALYSIS).Some? {
      TrimShrinks(s[RFind(s, END_ANALYSIS).value + |END_ANALYSIS|..]);
    }
    if SUMMARY <= peeled { TrimShrinks(peeled[|SUMMARY|..]); }
  }

  lemma SpliceShrinks(s: string, start: nat, mid: nat, end: nat, after: nat, title: string, inner: string)
    requires start + |title| <= mid <= end < after <= |s| && |inner| <= end - mid
    ensures |s[..start] + title + inner + s[after..]| < |s|
  {
  }

  lemma UnwrapShrinks(s: string)
    ensures if IsWrapped(s) then |Unwrap(s)| < |s| else Unwrap(s) == s
  {
    if IsWrapped(s) {
      var start, end := Find(s, SUMMARY).value, RFind(s, END_SUMMARY).value;
      FindIsFirst(s, SUMMARY);
      RFindIsLast(s, END_SUMMARY);
      SummaryTagsInOrder(s, start, end);
      var mid := start + |SUMMARY|;
      TrimShrinks(s[mid..end]);
      PeelShrinks(Trim(s[mid..end]));
      assert |"Summary:\n"| == |SUMMARY| == 9 && |END_SUMMARY| == 10;
      SpliceShrinks(s, start, mid, end, end + |END_SUMMARY|, "Summary:\n", StripLeadingScratchpad(Trim(s[mid..end])));
    }
  }

  // ------------------------------------------------------------- main results

  /** Main result: the stages before polishing leave a text whole exactly when it
      has neither a leading scratchpad nor a `<summary>` block. */
  lemma LeftWholeIff(s: string)
    ensures Unwrap(StripAnalysis(s)) == s <==> !HasScratchpad(s) && !IsWrapped(s)
    ensures !HasScratchpad(s) && !IsWrapped(s) ==> Format(s) == Polish(s)
  {
    StripShrinks(s);
    UnwrapShrinks(StripAnalysis(s));
  }

  /** A quoted `<analysis>` in front of the first `<summary>`, or right after it. */
  predicate QuotesBeforeSummary(s: string) {
    var a, b := Find(s, ANALYSIS), Find(s, SUMMARY);
    && a.Some? && b.Some?
    && (a.value < b.value || (b.value + |SUMMARY| <= a.value && Trim(s[b.value + |SUMMARY|..a.value]) == []))
  }

  lemma BlankIsNotNumbered(s: string, start: nat)
    requires LeadsWithNumber(Trim(s)) && start < |s| && s[start] == '<'
    ensures Trim(s[..start]) != []
  {
    var d := NumberComesFirst(s);
    assert d < start;
    assert s[..start][d] == s[d];
    TrimEmpty(s[..start]);
  }

  /** For raw text that leads with a numbered section and has no `<summary>` block:
      it is left whole exactly when it does not quote `<analysis>` in front of its
      first `<summary>`. */
  lemma RawNumberedSurvivesIff(s: string)
    requires LeadsWithNumber(Trim(s)) && !IsWrapped(s)
    ensures Unwrap(StripAnalysis(s)) == s <==> !QuotesBeforeSummary(s)
    ensures !QuotesBeforeSummary(s) ==> Format(s) == Polish(s)
  {
    LeftWholeIff(s);
    FindIsFirst(s, ANALYSIS);
    FindIsFirst(s, SUMMARY);
    if Find(s, ANALYSIS).Some? {
      var start := Find(s, ANALYSIS).value;
      OccursChars(s, ANALYSIS, start);
      BlankIsNotNumbered(s, start);
      if Find(s, SUMMARY).Some? { SummaryBeforeAnalysis(s, Find(s, SUMMARY).value, start); }
    }
  }
}
