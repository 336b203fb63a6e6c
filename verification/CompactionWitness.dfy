/** A query that does not survive compaction: stripping one block can leave
    another one behind, which the next capture strips. */
module CompactionWitness {
  import opened Conversation
  import opened Text
  import opened QueryTags
  import opened Compaction

  const P0 := "<user_"
  const P1 := "<git_status>"
  const P2 := "</git_status>"
  const P3 := "info>x"
  const P4 := "</user_info>"

  /** A closed block inside the name of another tag. */
  const NESTED := P0 + (P1 + (P2 + (P3 + P4)))

  /** What is left once the inner block is gone: a block again. */
  const LEFT_OVER := P0 + (P3 + P4)

  /** The characters that follow a `<` in `s`. */
  ghost predicate Initials(s: string, cs: set<char>) {
    forall i | 0 <= i < |s| && s[i] == '<' :: i + 1 < |s| && s[i + 1] in cs
  }

  lemma InitialsConcat(x: string, y: string, cs: set<char>, ds: set<char>)
    requires Initials(x, cs) && Initials(y, ds)
    ensures Initials(x + y, cs + ds)
  {
    var s := x + y;
    forall i | 0 <= i < |s| && s[i] == '<' ensures i + 1 < |s| && s[i + 1] in cs + ds {
      if i < |x| {
        assert s[i] == x[i] && s[i + 1] == x[i + 1];
      } else {
        assert s[i] == y[i - |x|] && s[i + 1] == y[i - |x| + 1];
      }
    }
  }

  /** No tag opens where no `<` is followed by its first letter. */
  lemma NoBlockByInitial(s: string, name: string, cs: set<char>)
    requires name != [] && Initials(s, cs) && name[0] !in cs
    ensures !HasBlock(s, name)
  {
    forall i ensures !OccursAt(s, OpenTag(name), i) { OpensWithInitial(s, name, i); }
  }

  lemma OpensWithInitial(s: string, name: string, i: int)
    requires name != []
    ensures OccursAt(s, OpenTag(name), i) ==> i + 1 < |s| && s[i] == '<' && s[i + 1] == name[0]
  {
    assert OpenTag(name)[1] == name[0];
    if OccursAt(s, OpenTag(name), i) { OccursChars(s, OpenTag(name), i); }
  }

  lemma PieceInitials()
    ensures Initials(P0, {'u'}) && Initials(P1, {'g'}) && Initials(P2, {'/'}) && Initials(P3, {}) && Initials(P4, {'/'})
  {
  }

  lemma TextInitials()
    ensures Initials(NESTED, {'u', 'g', '/'}) && Initials(LEFT_OVER, {'u', '/'})
  {
    PieceInitials();
    InitialsConcat(P3, P4, {}, {'/'});
    InitialsConcat(P2, P3 + P4, {'/'}, {'/'});
    InitialsConcat(P1, P2 + (P3 + P4), {'g'}, {'/'});
    InitialsConcat(P0, P1 + (P2 + (P3 + P4)), {'u'}, {'g', '/'});
    InitialsConcat(P0, P3 + P4, {'u'}, {'/'});
    assert {'u'} + ({'g', '/'}) == {'u', 'g', '/'} && {'u'} + {'/'} == {'u', '/'};
  }

  /** The outer tag is not there yet: its name is interrupted. */
  lemma OuterTagIsBroken()
    ensures !HasBlock(NESTED, "user_info")
  {
    forall i ensures !OccursAt(NESTED, OpenTag("user_info"), i) { BrokenAt(i); }
  }

  lemma BrokenAt(i: int)
    ensures !OccursAt(NESTED, OpenTag("user_info"), i)
  {
    var t := OpenTag("user_info");
    var y := P1 + (P2 + (P3 + P4));
    assert IsTag(t) && y[0] == '<';
    TagInConcat(P0, y, t, i);
    PieceInitials();
    InitialsConcat(P3, P4, {}, {'/'});
    InitialsConcat(P2, P3 + P4, {'/'}, {'/'});
    InitialsConcat(P1, P2 + (P3 + P4), {'g'}, {'/'});
    OpensWithInitial(y, "user_info", i - |P0|);
    assert |P0| < |t|;
  }

  lemma InnerBlockIsDropped()
    ensures DropFirstBlock(NESTED, "git_status") == Some(LEFT_OVER)
  {
    assert OpenTag("git_status") == P1 && CloseTag("git_status") == P2;
    assert IsTag(P1) && IsTag(P2) && |P0| < |P1| < |P2|;
    assert P1 + [] == P1 && [] + (P2 + (P3 + P4)) == P2 + (P3 + P4);
    DropBlockAt(P0, "git_status", [], P3 + P4);
  }

  lemma {:induction false} SkipNames(s: string, names: seq<string>, k: nat)
    requires k <= |names| && forall i | 0 <= i < k :: !HasBlock(s, names[i])
    ensures StripTags(s, names) == StripTags(s, names[k..])
  {
    if k > 0 {
      StripTagLaw(s, names[0]);
      SkipNames(s, names[1..], k - 1);
      assert names[1..][k - 1..] == names[k..];
    } else {
      assert names[0..] == names;
    }
  }

  /** The order of the tags that matters: the outer name comes before the inner
      one, and no other name can open in the text. */
  ghost predicate OuterBeforeInner(names: seq<string>) {
    && |names| >= 3 && names[0] == "user_info" && names[2] == "git_status"
    && names[1] != [] && names[1][0] !in {'u', 'g', '/'}
    && forall k | 3 <= k < |names| :: names[k] != [] && names[k][0] !in {'u', '/'}
  }

  lemma SystemTagsOrder()
    ensures OuterBeforeInner(SYSTEM_TAGS)
  {
  }

  lemma StripNested(names: seq<string>)
    requires OuterBeforeInner(names)
    ensures StripTags(NESTED, names) == LEFT_OVER
  {
    TextInitials();
    OuterTagIsBroken();
    NoBlockByInitial(NESTED, names[1], {'u', 'g', '/'});
    SkipNames(NESTED, names, 2);
    StripInner(names);
    forall k | 3 <= k < |names| ensures !HasBlock(LEFT_OVER, names[k]) {
      NoBlockByInitial(LEFT_OVER, names[k], {'u', '/'});
    }
    StripTagsLaw(LEFT_OVER, names[3..]);
  }

  lemma StripInner(names: seq<string>)
    requires OuterBeforeInner(names)
    ensures StripTags(NESTED, names[2..]) == StripTags(LEFT_OVER, names[3..])
  {
    InnerBlockIsDropped();
    TextInitials();
    NoBlockByInitial(LEFT_OVER, "git_status", {'u', '/'});
    StripTagLaw(LEFT_OVER, "git_status");
    assert StripTag(NESTED, "git_status") == LEFT_OVER;
    assert names[2..][0] == names[2] && names[2..][1..] == names[3..];
  }

  /** Both texts are queries of their own: nothing is tagged as a query. */
  lemma NotTagged()
    ensures Find(NESTED, QUERY) == None
  {
    var y := P1 + (P2 + (P3 + P4));
    assert IsTag(QUERY) && |P0| < |QUERY| && QUERY[1] == 'u' && y[0] == '<';
    PieceInitials();
    InitialsConcat(P3, P4, {}, {'/'});
    InitialsConcat(P2, P3 + P4, {'/'}, {'/'});
    InitialsConcat(P1, P2 + (P3 + P4), {'g'}, {'/'});
    forall i ensures !OccursAt(NESTED, QUERY, i) {
      TagInConcat(P0, y, QUERY, i);
      NotTaggedAt(y, i - |P0|);
    }
    FindNone(NESTED, QUERY);
  }

  lemma NotTaggedAt(y: string, i: int)
    requires Initials(y, {'g', '/'})
    ensures !OccursAt(y, QUERY, i)
  {
    assert QUERY[0] == '<' && QUERY[1] == 'u';
    if OccursAt(y, QUERY, i) { OccursChars(y, QUERY, i); }
  }

  lemma LeftOverIsTrimmed()
    ensures Trim(LEFT_OVER) == LEFT_OVER
  {
    assert LEFT_OVER[0] == '<' && LEFT_OVER[|LEFT_OVER| - 1] == '>';
    TrimFixed(LEFT_OVER);
  }

  lemma NestedQuery()
    ensures ExtractUserQuery(NESTED) == LEFT_OVER
  {
    NotTagged();
    SystemTagsOrder();
    StripNested(SYSTEM_TAGS);
    LeftOverIsTrimmed();
  }

  lemma SinglePart(text: string)
    ensures QueryOf(User([TextPart(text)], None)) == ExtractUserQuery(text)
  {
    var parts := [TextPart(text)];
    assert parts[1..] == [];
    assert Texts(parts) == [text];
  }

  lemma LeftOverIsABlock()
    ensures HasBlock(LEFT_OVER, SYSTEM_TAGS[0]) && !IsSyntheticQuery(LEFT_OVER)
  {
    assert OpenTag("user_info") == P0 + "info>" && CloseTag("user_info") == P4;
    assert LEFT_OVER[0..] == OpenTag("user_info") + "x" + P4;
    assert LEFT_OVER[12..] == P4;
    assert OccursAt(LEFT_OVER, OpenTag("user_info"), 0) && OccursAt(LEFT_OVER, CloseTag("user_info"), 12);
    assert |LEFT_OVER| == 24 && |AUTO_CONTINUE_ID| == 17 && |AUTO_CONTINUE_PROMPT| > 24;
  }

  lemma UserInfoTags()
    ensures OpenTag("user_info") == P0 + "info>" && CloseTag("user_info") == P4
    ensures IsTag(OpenTag("user_info")) && IsTag(P4)
  {
  }

  lemma LeftOverShape(open: string)
    requires open == P0 + "info>"
    ensures [] + (open + ("x" + (P4 + []))) == LEFT_OVER
  {
    assert P3 == "info>" + "x";
  }

  /** The left-over is one block and nothing else, so stripping leaves nothing. */
  lemma LeftOverIsDropped()
    ensures DropFirstBlock(LEFT_OVER, "user_info") == Some("")
  {
    UserInfoTags();
    var open := OpenTag("user_info");
    forall i ensures !OccursAt(open + "x", P4, i) { NoCloseInOpen(open + "x", i); }
    NoTagWithoutBracket([], open);
    DropBlockAt([], "user_info", "x", []);
    LeftOverShape(open);
    assert [] + [] == "";
  }

  lemma NoCloseInOpen(x: string, i: int)
    requires x == OpenTag("user_info") + "x"
    ensures !OccursAt(x, P4, i)
  {
    assert |x| == 12 == |P4| && x[1] == 'u' && P4[1] == '/';
    if OccursAt(x, P4, i) { OccursChars(x, P4, i); }
  }

  lemma {:induction false} NothingToStrip(names: seq<string>)
    ensures StripTags("", names) == ""
  {
    if names != [] { NothingToStrip(names[1..]); }
  }

  lemma LeftOverVanishes()
    ensures StripAndTrim(LEFT_OVER, SYSTEM_TAGS) == ""
  {
    LeftOverIsDropped();
    SystemTagsOrder();
    assert StripTag(LEFT_OVER, "user_info") == "" by { assert |StripTag("", "user_info")| <= 0; }
    NothingToStrip(SYSTEM_TAGS[1..]);
  }

  lemma NoQueryEnd()
    ensures Find(LEFT_OVER, END_QUERY) == None
  {
    TextInitials();
    forall i ensures !OccursAt(LEFT_OVER, END_QUERY, i) { NoQueryEndAt(i); }
    FindNone(LEFT_OVER, END_QUERY);
  }

  lemma NoQueryEndAt(i: int)
    ensures !OccursAt(LEFT_OVER, END_QUERY, i)
  {
    assert |LEFT_OVER| == 24 && |END_QUERY| == 13 && END_QUERY[7] == 'q' && 'q' !in LEFT_OVER;
    if OccursAt(LEFT_OVER, END_QUERY, i) {
      OccursChars(LEFT_OVER, END_QUERY, i);
    }
  }

  lemma LeftOverReadsBackEmpty()
    ensures ReadBack(Some(LEFT_OVER)) == None
  {
    NoQueryEnd();
    QueryTagsAreTags();
    ExtractWrapped(LEFT_OVER, QUERY, END_QUERY, SYSTEM_TAGS);
    LeftOverIsTrimmed();
    LeftOverVanishes();
  }

  /** The stability hypothesis is needed: this conversation has a real user turn
      whose query is gone after compacting the history twice. */
  lemma UnstableQueryIsLost(input: Input)
    requires input.system.System?
    ensures var ctx := Capture([User([TextPart(NESTED)], None)], 0, None);
            && ctx.lastQuery == Some(LEFT_OVER)
            && Capture(Compacted(input, ctx), 0, None).lastQuery == None
  {
    var x := User([TextPart(NESTED)], None);
    var ctx := Capture([x], 0, None);
    NestedQuery();
    SinglePart(NESTED);
    LeftOverIsABlock();
    assert IsRealUserTurn(x);
    TailStartUnique(IsRealUserTurn, [x], 1);
    assert [x][1..] == [];
    LeftOverReadsBackEmpty();
    Recapture(input, ctx);
  }
}
