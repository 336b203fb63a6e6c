/** The string operations the compaction code is built from: searching,
    trimming and replacing, and how tags behave under them. */
module Text {
  import opened Conversation

  /** The parts with a newline between neighbours. */
  function JoinLines(parts: seq<string>): string {
    if parts == [] then ""
    else if |parts| == 1 then parts[0]
    else parts[0] + ("\n" + JoinLines(parts[1..]))
  }

  // -------------------------------------------------------------- searching

  predicate OccursAt(s: string, p: string, i: int) {
    0 <= i <= |s| && p <= s[i..]
  }

  ghost predicate Contains(s: string, p: string) {
    exists i :: OccursAt(s, p, i)
  }

  /** Offset of the first occurrence. */
  function Find(s: string, p: string): (r: Option<nat>)
    ensures r.Some? ==> r.value + |p| <= |s|
  {
    if p <= s then Some(0)
    else if s == [] then None
    else match Find(s[1..], p) case Some(i) => Some(i + 1) case None => None
  }

  /** Offset of the last occurrence. */
  function RFind(s: string, p: string): (r: Option<nat>)
    ensures r.Some? ==> r.value + |p| <= |s|
  {
    if s == [] then (if p == [] then Some(0) else None)
    else match RFind(s[1..], p)
      case Some(i) => Some(i + 1)
      case None => if p <= s then Some(0) else None
  }

  /** An occurrence is a slice. */
  lemma OccursSlice(s: string, p: string, i: int)
    ensures OccursAt(s, p, i) <==> 0 <= i && i + |p| <= |s| && s[i..i + |p|] == p
  {
    if 0 <= i && i + |p| <= |s| { assert s[i..][..|p|] == s[i..i + |p|]; }
  }

  lemma OccursTail(s: string, p: string, i: int)
    requires s != [] && i >= 1
    ensures OccursAt(s, p, i) <==> OccursAt(s[1..], p, i - 1)
  {
    if i <= |s| { assert s[i..] == s[1..][i - 1..]; }
  }

  lemma {:induction false} FindIsFirst(s: string, p: string)
    ensures match Find(s, p)
            case Some(k) => OccursAt(s, p, k) && forall i | 0 <= i < k :: !OccursAt(s, p, i)
            case None => !Contains(s, p)
  {
    if p <= s {
      assert s[0..] == s;
    } else if s != [] {
      FindIsFirst(s[1..], p);
      assert s[0..] == s;
      forall i | i >= 1 ensures OccursAt(s, p, i) <==> OccursAt(s[1..], p, i - 1) { OccursTail(s, p, i); }
    }
  }

  /** The first occurrence is the one with none before it. */
  lemma FindAt(s: string, p: string, k: nat)
    requires OccursAt(s, p, k) && forall i | 0 <= i < k :: !OccursAt(s, p, i)
    ensures Find(s, p) == Some(k)
  {
    FindIsFirst(s, p);
    assert Contains(s, p);
  }

  lemma FindNone(s: string, p: string)
    requires !Contains(s, p)
    ensures Find(s, p) == None
  {
    FindIsFirst(s, p);
  }

  lemma {:induction false} RFindIsLast(s: string, p: string)
    requires p != []
    ensures match RFind(s, p)
            case Some(k) => OccursAt(s, p, k) && forall i | i > k :: !OccursAt(s, p, i)
            case None => !Contains(s, p)
  {
    if s != [] {
      RFindIsLast(s[1..], p);
      assert s[0..] == s;
      forall i | i >= 1 ensures OccursAt(s, p, i) <==> OccursAt(s[1..], p, i - 1) { OccursTail(s, p, i); }
      if RFind(s[1..], p) == None {
        forall i | i >= 1 ensures !OccursAt(s, p, i) { assert !OccursAt(s[1..], p, i - 1); }
      } else {
        var k := RFind(s[1..], p).value;
        assert OccursAt(s, p, k + 1);
        forall i | i > k + 1 ensures !OccursAt(s, p, i) { assert !OccursAt(s[1..], p, i - 1); }
      }
    }
  }

  lemma RFindAt(s: string, p: string, k: nat)
    requires p != [] && OccursAt(s, p, k) && forall i | i > k :: !OccursAt(s, p, i)
    ensures RFind(s, p) == Some(k)
  {
    RFindIsLast(s, p);
    assert Contains(s, p);
  }

  lemma OccursInMiddle(a: string, m: string, b: string, p: string, i: int)
    requires OccursAt(m, p, i)
    ensures OccursAt(a + m + b, p, |a| + i)
  {
    assert (a + m + b)[|a| + i..] == m[i..] + b;
  }

  /** What a part contains, the whole contains. */
  lemma ContainsInMiddle(a: string, m: string, b: string, p: string)
    requires Contains(m, p)
    ensures Contains(a + m + b, p)
  {
    var i :| OccursAt(m, p, i);
    OccursInMiddle(a, m, b, p, i);
  }

  // ------------------------------------------------------------------- tags

  /** A pattern that begins with `<` and has no other `<`. */
  predicate IsTag(t: string) {
    |t| >= 2 && t[0] == '<' && forall i | 1 <= i < |t| :: t[i] != '<'
  }

  lemma OccursChars(s: string, p: string, i: int)
    requires OccursAt(s, p, i)
    ensures i + |p| <= |s| && forall k | i <= k < i + |p| :: s[k] == p[k - i]
  {
    forall k | i <= k < i + |p| ensures s[k] == p[k - i] {
      assert s[i..][..|p|][k - i] == p[k - i];
    }
  }

  /** Tags never overlap: a later one begins after an earlier one ends. */
  lemma TagsDisjoint(s: string, t: string, u: string, i: int, j: int)
    requires IsTag(t) && IsTag(u) && OccursAt(s, t, i) && OccursAt(s, u, j) && i < j
    ensures i + |t| <= j
  {
    OccursChars(s, t, i);
    OccursChars(s, u, j);
    assert s[j] == u[0];
  }

  /** A tag in a concatenation that is cut in front of a `<` lies in one part. */
  lemma TagInConcat(x: string, y: string, t: string, i: int)
    requires IsTag(t) && (y == [] || y[0] == '<')
    ensures OccursAt(x + y, t, i) <==> (OccursAt(x, t, i) || OccursAt(y, t, i - |x|))
  {
    var s := x + y;
    if OccursAt(s, t, i) {
      OccursChars(s, t, i);
      if i >= |x| {
        assert s[i..] == y[i - |x|..];
      } else {
        assert y != [] ==> s[|x|] == y[0];
        assert s[i..][..|t|] == x[i..][..|t|];
      }
    }
    if OccursAt(x, t, i) {
      OccursChars(x, t, i);
      assert s[i..][..|t|] == x[i..][..|t|];
    }
    if OccursAt(y, t, i - |x|) {
      assert s[i..] == y[i - |x|..];
    }
  }

  /** The first tag of a kind follows a part that has none. */
  lemma FindAfter(x: string, t: string, y: string)
    requires IsTag(t) && !Contains(x, t)
    ensures Find(x + (t + y), t) == Some(|x|)
  {
    var s := x + (t + y);
    assert s[|x|..] == t + y;
    forall i | 0 <= i < |x| ensures !OccursAt(s, t, i) {
      TagInConcat(x, t + y, t, i);
    }
    FindAt(s, t, |x|);
  }

  /** Without a `<` there is no tag. */
  lemma NoTagWithoutBracket(s: string, t: string)
    requires IsTag(t) && forall i | 0 <= i < |s| :: s[i] != '<'
    ensures !Contains(s, t)
  {
    forall i ensures !OccursAt(s, t, i) {
      if OccursAt(s, t, i) { OccursChars(s, t, i); }
    }
  }

  // --------------------------------------------------------------- trimming

  /** The characters with the Unicode White_Space property. */
  predicate IsSpace(c: char) {
    var v := c as int;
    || 0x9 <= v <= 0xD || v == 0x20 || v == 0x85 || v == 0xA0 || v == 0x1680
    || 0x2000 <= v <= 0x200A || v == 0x2028 || v == 0x2029 || v == 0x202F || v == 0x205F || v == 0x3000
  }

  predicate AllSpace(s: string) {
    forall i | 0 <= i < |s| :: IsSpace(s[i])
  }

  function TrimStart(s: string): (r: string)
    ensures |r| <= |s|
  {
    if s == [] || !IsSpace(s[0]) then s else TrimStart(s[1..])
  }

  function TrimEnd(s: string): (r: string)
    ensures |r| <= |s|
  {
    if s == [] || !IsSpace(s[|s| - 1]) then s else TrimEnd(s[..|s| - 1])
  }

  lemma {:induction false} TrimStartParts(s: string)
    ensures var r := TrimStart(s);
            && s == s[..|s| - |r|] + r && AllSpace(s[..|s| - |r|])
            && (r == [] || !IsSpace(r[0]))
  {
    if s != [] && IsSpace(s[0]) {
      TrimStartParts(s[1..]);
      var r := TrimStart(s);
      assert s[..|s| - |r|] == [s[0]] + s[1..][..|s| - 1 - |r|];
    }
  }

  lemma SliceSnoc<T>(s: seq<T>, k: nat)
    requires k < |s|
    ensures s[k..] == s[..|s| - 1][k..] + [s[|s| - 1]] && s[..|s| - 1][..k] == s[..k]
  {
  }

  lemma {:induction false} TrimEndParts(s: string)
    ensures var r := TrimEnd(s);
            && s == r + s[|r|..] && AllSpace(s[|r|..])
            && (r == [] || !IsSpace(r[|r| - 1]))
  {
    var r := TrimEnd(s);
    if s != [] && IsSpace(s[|s| - 1]) {
      TrimEndParts(s[..|s| - 1]);
      SliceSnoc(s, |r|);
      assert r == s[..|s| - 1][..|r|];
    } else {
      assert s[|r|..] == [];
    }
    assert r == s[..|r|];
  }

  function Trim(s: string): (r: string)
    ensures |r| <= |s|
  {
    TrimEnd(TrimStart(s))
  }

  predicate IsTrimmed(s: string) {
    s == [] || (!IsSpace(s[0]) && !IsSpace(s[|s| - 1]))
  }

  lemma TrimIsTrimmed(s: string)
    ensures IsTrimmed(Trim(s))
  {
    var t := TrimStart(s);
    TrimStartParts(s);
    TrimEndParts(t);
    if Trim(s) != [] { assert Trim(s)[0] == t[0]; }
  }

  lemma TrimFixed(s: string)
    ensures IsTrimmed(s) <==> Trim(s) == s
  {
    TrimIsTrimmed(s);
  }

  /** A string is its trimmed middle between two stretches of white space. */
  lemma TrimParts(s: string) returns (a: string, b: string)
    ensures s == a + Trim(s) + b && AllSpace(a) && AllSpace(b)
  {
    var t := TrimStart(s);
    TrimStartParts(s);
    TrimEndParts(t);
    a, b := s[..|s| - |t|], t[|Trim(s)|..];
    assert t == Trim(s) + b && s == a + t;
    assert s == a + Trim(s) + b;
  }

  /** Trimming is determined by that decomposition. */
  lemma TrimOf(a: string, m: string, b: string)
    requires AllSpace(a) && AllSpace(b) && IsTrimmed(m)
    ensures Trim(a + m + b) == m
  {
    assert a + m + b == a + (m + b);
    if m == [] {
      assert m + b == b;
      TrimStartOf(a, b);
      assert TrimEnd([]) == [];
    } else {
      assert (m + b)[0] == m[0];
      TrimStartOf(a, m + b);
      TrimEndOf(m, b);
    }
  }

  lemma {:induction false} TrimStartOf(a: string, m: string)
    requires AllSpace(a)
    ensures m == [] || !IsSpace(m[0]) ==> TrimStart(a + m) == m
    ensures AllSpace(m) ==> TrimStart(a + m) == []
    decreases |a| + |m|
  {
    if a != [] {
      assert (a + m)[1..] == a[1..] + m;
      TrimStartOf(a[1..], m);
    } else {
      assert a + m == m;
      if m != [] && AllSpace(m) {
        TrimStartOf([], m[1..]);
        assert [] + m[1..] == m[1..];
      }
    }
  }

  lemma {:induction false} TrimEndOf(m: string, b: string)
    requires AllSpace(b) && (m == [] || !IsSpace(m[|m| - 1]))
    ensures TrimEnd(m + b) == m
  {
    if b != [] {
      assert (m + b)[..|m + b| - 1] == m + b[..|b| - 1];
      TrimEndOf(m, b[..|b| - 1]);
    } else {
      assert m + b == m;
    }
  }

  /** White space around a string does not matter to trimming. */
  lemma TrimPadded(a: string, s: string, b: string)
    requires AllSpace(a) && AllSpace(b)
    ensures Trim(a + s + b) == Trim(s)
  {
    var x, y := TrimParts(s);
    var m := Trim(s);
    TrimIsTrimmed(s);
    FiveParts(a, x, m, y, b);
    TrimOf(a + x, m, y + b);
  }

  lemma FiveParts<T>(a: seq<T>, x: seq<T>, m: seq<T>, y: seq<T>, b: seq<T>)
    ensures a + (x + m + y) + b == (a + x) + m + (y + b)
  {
  }

  lemma TrimEmpty(s: string)
    ensures Trim(s) == [] <==> AllSpace(s)
  {
    var a, b := TrimParts(s);
    if Trim(s) == [] {
      assert s == a + b;
    } else {
      TrimIsTrimmed(s);
      assert s[|a|] == Trim(s)[0];
    }
  }

  lemma TrimKeepsAbsence(s: string, p: string)
    requires !Contains(s, p)
    ensures !Contains(Trim(s), p)
  {
    var a, b := TrimParts(s);
    if Contains(Trim(s), p) { ContainsInMiddle(a, Trim(s), b, p); }
  }

  // -------------------------------------------------------------- replacing

  /** Replace the occurrences found from left to right. */
  function ReplaceAll(s: string, p: string, r: string): string
    requires p != []
  {
    if s == [] then []
    else if p <= s then r + ReplaceAll(s[|p|..], p, r)
    else [s[0]] + ReplaceAll(s[1..], p, r)
  }

  /** The shape of every replacement here: keep a head `x` and a tail `y` of the
      pattern and put the character `c` between them. */
  predicate Splits(p: string, r: string, x: string, c: char, y: string) {
    && p != [] && x <= p && |y| <= |p| && p[|p| - |y|..] == y
    && r == x + [c] + y
  }

  /** A `c`-free string the result begins with, the input begins with. */
  lemma {:induction false} ReplacePrefix(s: string, p: string, r: string, x: string, c: char, y: string, u: string)
    requires Splits(p, r, x, c, y) && c !in u
    requires u <= ReplaceAll(s, p, r)
    ensures u <= s
  {
    if s != [] {
      var t := ReplaceAll(s, p, r);
      if p <= s {
        assert t[|x|] == c;
        assert forall k | 0 <= k < |u| :: u[k] == t[k] && u[k] != c;
        assert u == t[..|u|] == x[..|u|] == s[..|u|];
      } else if u != [] {
        var tail := ReplaceAll(s[1..], p, r);
        assert t[1..] == tail && u[1..] == t[..|u|][1..] == tail[..|u| - 1];
        ReplacePrefix(s[1..], p, r, x, c, y, u[1..]);
        assert u == [u[0]] + u[1..];
      }
    }
  }

  lemma PrefixThrough(a: string, s: string, t: string, u: string)
    requires u <= a + t
    requires |u| > |a| ==> u[|a|..] <= s
    ensures u <= a + s
  {
    if |u| > |a| {
      assert u == u[..|a|] + u[|a|..];
      assert u[..|a|] == (a + t)[..|u|][..|a|] == a;
    } else {
      assert u == (a + t)[..|u|] == (a + s)[..|u|];
    }
  }

  lemma ShiftOccurrence(a: string, s: string, u: string, i: int)
    requires OccursAt(s, u, i)
    ensures Contains(a + s, u)
  {
    OccursInMiddle(a, s, [], u, i);
    assert a + s + [] == a + s;
  }

  /** An occurrence that begins in the kept head of a replaced match. */
  lemma ReplaceOccurrenceInHead(s: string, p: string, r: string, x: string, c: char, y: string, u: string, i: nat)
    requires Splits(p, r, x, c, y) && c !in u && p <= s
    requires i <= |x| && OccursAt(r + ReplaceAll(s[|p|..], p, r), u, i)
    ensures Contains(s, u)
  {
    var t := r + ReplaceAll(s[|p|..], p, r);
    OccursChars(t, u, i);
    assert t[|x|] == c;
    assert |u| <= |x| - i;
    assert forall k | 0 <= k < |x| :: t[k] == x[k] == s[k];
    assert u == s[i..][..|u|];
    assert OccursAt(s, u, i);
  }

  /** An occurrence that begins in its kept tail. */
  lemma ReplaceOccurrenceInTail(s: string, p: string, r: string, x: string, c: char, y: string, u: string, j: nat)
    requires Splits(p, r, x, c, y) && c !in u && p <= s
    requires j <= |y| && u <= y[j..] + ReplaceAll(s[|p|..], p, r)
    ensures Contains(s, u)
  {
    var rest := s[|p|..];
    PrefixBehind(y[j..], rest, p, r, x, c, y, u);
    assert s == p + rest && p == p[..|p| - |y|] + y;
    SliceTail(p[..|p| - |y|], y, rest, j);
    assert OccursAt(s, u, |p| - |y| + j);
  }

  lemma DropPrefix(a: string, out: string, u: string)
    requires u <= a + out && |u| > |a|
    ensures u[|a|..] <= out
  {
    assert u[|a|..] == (a + out)[..|u|][|a|..] == out[..|u| - |a|];
  }

  /** What the result begins with behind kept text, the input does too. */
  lemma PrefixBehind(a: string, rest: string, p: string, r: string, x: string, c: char, y: string, u: string)
    requires Splits(p, r, x, c, y) && c !in u && u <= a + ReplaceAll(rest, p, r)
    ensures u <= a + rest
  {
    var out := ReplaceAll(rest, p, r);
    if |u| > |a| {
      DropPrefix(a, out, u);
      ReplacePrefix(rest, p, r, x, c, y, u[|a|..]);
    }
    PrefixThrough(a, rest, out, u);
  }

  lemma SliceTail<T>(a: seq<T>, y: seq<T>, rest: seq<T>, j: nat)
    requires j <= |y|
    ensures (a + y + rest)[|a| + j..] == y[j..] + rest
  {
  }

  /** An occurrence in the result, once a match was replaced at the front. */
  lemma ReplaceOccurrenceAtMatch(s: string, p: string, r: string, x: string, c: char, y: string, u: string, i: nat)
    requires Splits(p, r, x, c, y) && c !in u && p <= s
    requires i < |r| && OccursAt(r + ReplaceAll(s[|p|..], p, r), u, i)
    ensures Contains(s, u)
  {
    if i <= |x| {
      ReplaceOccurrenceInHead(s, p, r, x, c, y, u, i);
    } else {
      SliceTail(x + [c], y, ReplaceAll(s[|p|..], p, r), i - |x| - 1);
      ReplaceOccurrenceInTail(s, p, r, x, c, y, u, i - |x| - 1);
    }
  }

  lemma {:induction false} ReplaceOccurrence(s: string, p: string, r: string, x: string, c: char, y: string, u: string, i: nat)
    requires Splits(p, r, x, c, y) && c !in u
    requires OccursAt(ReplaceAll(s, p, r), u, i)
    ensures Contains(s, u)
  {
    var t := ReplaceAll(s, p, r);
    if s == [] {
      assert OccursAt(s, u, 0);
    } else if p <= s {
      var rest := s[|p|..];
      if i < |r| {
        ReplaceOccurrenceAtMatch(s, p, r, x, c, y, u, i);
      } else {
        assert t[i..] == ReplaceAll(rest, p, r)[i - |r|..];
        ReplaceOccurrence(rest, p, r, x, c, y, u, i - |r|);
        var k :| OccursAt(rest, u, k);
        ShiftOccurrence(p, rest, u, k);
        assert s == p + rest;
      }
    } else if i == 0 {
      assert t[0..] == t;
      ReplacePrefix(s, p, r, x, c, y, u);
      assert s[0..] == s;
      assert OccursAt(s, u, 0);
    } else {
      assert t[i..] == ReplaceAll(s[1..], p, r)[i - 1..];
      ReplaceOccurrence(s[1..], p, r, x, c, y, u, i - 1);
      var k :| OccursAt(s[1..], u, k);
      ShiftOccurrence([s[0]], s[1..], u, k);
      assert s == [s[0]] + s[1..];
    }
  }

  /** Such a replacement creates no new occurrence of a `c`-free string. */
  lemma ReplaceCreatesNothing(s: string, p: string, r: string, x: string, c: char, y: string, u: string)
    requires Splits(p, r, x, c, y) && c !in u && !Contains(s, u)
    ensures !Contains(ReplaceAll(s, p, r), u)
  {
    forall i ensures !OccursAt(ReplaceAll(s, p, r), u, i) {
      if OccursAt(ReplaceAll(s, p, r), u, i) { ReplaceOccurrence(s, p, r, x, c, y, u, i); }
    }
  }

  /** A tag with the character `c` put after its `<`. */
  function Defused(t: string, c: char): string
    requires t != []
  {
    [t[0]] + [c] + t[1..]
  }

  lemma DefusedSplits(t: string, c: char)
    requires t != []
    ensures Splits(t, Defused(t, c), [t[0]], c, t[1..])
  {
  }

  /** Not within the defused tag itself, whatever follows. */
  lemma DefusedHoldsNone(t: string, c: char, rest: string, i: nat)
    requires IsTag(t) && c !in t && i < |Defused(t, c)|
    ensures !OccursAt(Defused(t, c) + rest, t, i)
  {
    var d := Defused(t, c);
    var out := d + rest;
    assert out[i] == d[i] && out[1] == c;
    assert i >= 1 ==> d[i] != '<';
    if OccursAt(out, t, i) { OccursChars(out, t, i); }
  }

  lemma OccursBehind(x: string, y: string, t: string, i: nat)
    requires i >= |x|
    ensures OccursAt(x + y, t, i) <==> OccursAt(y, t, i - |x|)
  {
    if i <= |x + y| { assert (x + y)[i..] == y[i - |x|..]; }
  }

  lemma DefuseAtFront(s: string, t: string, c: char)
    requires IsTag(t) && c !in t && s != [] && !(t <= s)
    ensures !OccursAt(ReplaceAll(s, t, Defused(t, c)), t, 0)
  {
    var out := ReplaceAll(s, t, Defused(t, c));
    assert out[0..] == out;
    DefusedSplits(t, c);
    if t <= out { ReplacePrefix(s, t, Defused(t, c), [t[0]], c, t[1..], t); }
  }

  lemma {:induction false} DefuseOccurrence(s: string, t: string, c: char, i: nat)
    requires IsTag(t) && c !in t
    ensures !OccursAt(ReplaceAll(s, t, Defused(t, c)), t, i)
    decreases |s|
  {
    var d := Defused(t, c);
    if s == [] {
    } else if t <= s {
      var rest := ReplaceAll(s[|t|..], t, d);
      if i < |d| {
        DefusedHoldsNone(t, c, rest, i);
      } else {
        OccursBehind(d, rest, t, i);
        DefuseOccurrence(s[|t|..], t, c, i - |d|);
      }
    } else if i == 0 {
      DefuseAtFront(s, t, c);
    } else {
      OccursBehind([s[0]], ReplaceAll(s[1..], t, d), t, i);
      DefuseOccurrence(s[1..], t, c, i - 1);
    }
  }

  /** Defusing a tag leaves none of it, whatever the input. */
  lemma DefuseRemoves(s: string, t: string, c: char)
    requires IsTag(t) && c !in t
    ensures !Contains(ReplaceAll(s, t, Defused(t, c)), t)
  {
    forall i ensures !OccursAt(ReplaceAll(s, t, Defused(t, c)), t, i) {
      if i >= 0 { DefuseOccurrence(s, t, c, i); }
    }
  }

  lemma {:induction false} ReplaceAbsent(s: string, p: string, r: string)
    requires p != [] && !Contains(s, p)
    ensures ReplaceAll(s, p, r) == s
  {
    if s != [] {
      assert s[0..] == s && !OccursAt(s, p, 0);
      assert s == [s[0]] + s[1..];
      if Contains(s[1..], p) {
        var i :| OccursAt(s[1..], p, i);
        ShiftOccurrence([s[0]], s[1..], p, i);
      }
      ReplaceAbsent(s[1..], p, r);
    }
  }

  /** Everything but the character `c`. */
  function Without(s: string, c: char): string {
    if s == [] then [] else (if s[0] == c then [] else [s[0]]) + Without(s[1..], c)
  }

  lemma {:induction false} WithoutConcat(a: string, b: string, c: char)
    ensures Without(a + b, c) == Without(a, c) + Without(b, c)
  {
    if a == [] {
      assert a + b == b;
    } else {
      assert (a + b)[1..] == a[1..] + b;
      WithoutConcat(a[1..], b, c);
    }
  }

  /** A replacement that differs from its pattern in `c` only, changes nothing else. */
  lemma {:induction false} ReplaceKeepsOthers(s: string, p: string, r: string, c: char)
    requires p != [] && Without(p, c) == Without(r, c)
    ensures Without(ReplaceAll(s, p, r), c) == Without(s, c)
  {
    if s == [] {
    } else if p <= s {
      var rest := s[|p|..];
      assert s == p + rest;
      ReplaceKeepsOthers(rest, p, r, c);
      WithoutConcat(p, rest, c);
      WithoutConcat(r, ReplaceAll(rest, p, r), c);
    } else {
      ReplaceKeepsOthers(s[1..], p, r, c);
      var t := [s[0]] + ReplaceAll(s[1..], p, r);
      assert t[1..] == ReplaceAll(s[1..], p, r);
    }
  }
}
