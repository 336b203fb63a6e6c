/** Which part of a user item is the user's own query: tag stripping, wrapping
    and extraction. */
module QueryTags {
  import opened Conversation
  import opened Text

  const SYSTEM_TAGS: seq<string> := [
    "user_info", "project_layout", "git_status", "fork-context", "system-reminder", "agent-memory",
    "system_reminder", "background_context", "command-name", "command-message", "command-args"
  ]

  function OpenTag(name: string): string { "<" + name + ">" }
  function CloseTag(name: string): string { "</" + name + ">" }

  // ------------------------------------------------------------- stripping

  /** The text without the block that begins at the first opening tag, if that
      block is closed. */
  function DropFirstBlock(s: string, name: string): (r: Option<string>)
    ensures r.Some? ==> |r.value| < |s|
  {
    match Find(s, OpenTag(name))
    case None => None
    case Some(start) =>
      match Find(s[start..], CloseTag(name))
      case None => None
      case Some(rel) => Some(s[..start] + s[start + rel + |CloseTag(name)|..])
  }

  function StripTag(s: string, name: string): (r: string)
    ensures |r| <= |s|
    decreases |s|
  {
    match DropFirstBlock(s, name) case None => s case Some(t) => StripTag(t, name)
  }

  function StripTags(s: string, names: seq<string>): (r: string)
    ensures |r| <= |s|
    decreases |names|
  {
    if names == [] then s else StripTags(StripTag(s, names[0]), names[1..])
  }

  function StripAndTrim(s: string, names: seq<string>): (r: string)
    ensures |r| <= |s|
  {
    Trim(StripTags(s, names))
  }

  function StripSystemTags(s: string): string {
    StripAndTrim(s, SYSTEM_TAGS)
  }

  method StripSystemTagsLoop(text: string) returns (result: string)
    ensures result == StripSystemTags(text)
  {
    result := text;
    var k := 0;
    assert SYSTEM_TAGS[0..] == SYSTEM_TAGS;
    while k < |SYSTEM_TAGS|
      invariant 0 <= k <= |SYSTEM_TAGS|
      invariant StripTags(result, SYSTEM_TAGS[k..]) == StripTags(text, SYSTEM_TAGS)
    {
      var name := SYSTEM_TAGS[k];
      ghost var before := result;
      var dropped := DropFirstBlock(result, name);
      while dropped.Some?
        invariant dropped == DropFirstBlock(result, name)
        invariant StripTag(result, name) == StripTag(before, name)
        decreases |result|
      {
        result := dropped.value;
        dropped := DropFirstBlock(result, name);
      }
      assert SYSTEM_TAGS[k..][1..] == SYSTEM_TAGS[k + 1..];
      k := k + 1;
    }
    result := Trim(result);
  }

  /** An opening tag with its closing tag somewhere after it. */
  ghost predicate HasBlock(s: string, name: string) {
    exists i, j :: OccursAt(s, OpenTag(name), i) && OccursAt(s, CloseTag(name), j) && i <= j
  }

  lemma DropsBlock(s: string, name: string)
    ensures DropFirstBlock(s, name).Some? <==> HasBlock(s, name)
  {
    var o, c := OpenTag(name), CloseTag(name);
    FindIsFirst(s, o);
    if Find(s, o).Some? {
      var start := Find(s, o).value;
      FindIsFirst(s[start..], c);
      SuffixContains(s, c, start);
      if HasBlock(s, name) {
        var i, j :| OccursAt(s, o, i) && OccursAt(s, c, j) && i <= j;
        assert start <= j;
      }
    }
  }

  lemma SuffixContains(s: string, p: string, start: nat)
    requires start <= |s|
    ensures Contains(s[start..], p) <==> exists j :: start <= j && OccursAt(s, p, j)
  {
    forall j | start <= j <= |s| ensures OccursAt(s, p, j) <==> OccursAt(s[start..], p, j - start) {
      assert s[j..] == s[start..][j - start..];
    }
    if Contains(s[start..], p) {
      var i :| OccursAt(s[start..], p, i);
      assert OccursAt(s, p, start + i);
    }
  }

  /** The first block is the first opening tag up to the first closing tag after it. */
  lemma DropBlockAt(x: string, name: string, mid: string, y: string)
    requires IsTag(OpenTag(name)) && IsTag(CloseTag(name))
    requires !Contains(x, OpenTag(name)) && !Contains(OpenTag(name) + mid, CloseTag(name))
    ensures DropFirstBlock(x + (OpenTag(name) + (mid + (CloseTag(name) + y))), name) == Some(x + y)
  {
    var o, c := OpenTag(name), CloseTag(name);
    var s := x + (o + (mid + (c + y)));
    FindAfter(x, o, mid + (c + y));
    BlockSlices(x, o, mid, c, y);
    FindAfter(o + mid, c, y);
  }

  lemma BlockSlices<T>(x: seq<T>, o: seq<T>, mid: seq<T>, c: seq<T>, y: seq<T>)
    ensures var s := x + (o + (mid + (c + y)));
            && s[..|x|] == x && s[|x|..] == (o + mid) + (c + y) && s[|x| + |o + mid| + |c|..] == y
  {
  }

  /** Stripping a tag changes a text exactly when it has a closed block of it, and
      leaves no closed block behind. */
  lemma {:induction false} StripTagLaw(s: string, name: string)
    ensures StripTag(s, name) == s <==> !HasBlock(s, name)
    ensures HasBlock(s, name) ==> |StripTag(s, name)| < |s|
    ensures !HasBlock(StripTag(s, name), name)
    decreases |s|
  {
    DropsBlock(s, name);
    match DropFirstBlock(s, name)
    case None =>
    case Some(t) => StripTagLaw(t, name);
  }

  lemma {:induction false} StripTagsLaw(s: string, names: seq<string>)
    ensures StripTags(s, names) == s <==> forall k | 0 <= k < |names| :: !HasBlock(s, names[k])
    ensures (exists k | 0 <= k < |names| :: HasBlock(s, names[k])) ==> |StripTags(s, names)| < |s|
    decreases |names|
  {
    if names != [] {
      StripTagLaw(s, names[0]);
      StripTagsLaw(StripTag(s, names[0]), names[1..]);
      assert forall k | 1 <= k < |names| :: names[k] == names[1..][k - 1];
      assert forall k | 0 <= k < |names| - 1 :: names[k + 1] == names[1..][k];
    }
  }

  /** No block is left to strip, and no white space to trim. */
  ghost predicate IsStable(s: string, names: seq<string>) {
    IsTrimmed(s) && forall k | 0 <= k < |names| :: !HasBlock(s, names[k])
  }

  lemma StableIffFixed(s: string, names: seq<string>)
    ensures StripAndTrim(s, names) == s <==> IsStable(s, names)
  {
    StripTagsLaw(s, names);
    TrimFixed(s);
  }

  // ------------------------------------------------- wrapping and extracting

  const QUERY := "<user_query>"
  const END_QUERY := "</user_query>"

  function Wrap(open: string, text: string, close: string): string {
    open + "\n" + text + "\n" + close
  }

  function WrapUserQuery(text: string): string {
    Wrap(QUERY, text, END_QUERY)
  }

  /** What stands before the first closing tag. */
  function Before(text: string, close: string): Option<string> {
    match Find(text, close) case None => None case Some(end) => Some(text[..end])
  }

  /** What stands between the first opening tag and the next closing tag. */
  function Between(text: string, open: string, close: string): Option<string> {
    match Find(text, open) case None => None case Some(start) => Before(text[start + |open|..], close)
  }

  /** The tagged part if there is one, else everything, without system blocks. */
  function Extract(text: string, open: string, close: string, names: seq<string>): string {
    match Between(text, open, close)
    case Some(inner) => StripAndTrim(Trim(inner), names)
    case None => StripAndTrim(text, names)
  }

  function ExtractUserQuery(text: string): string {
    Extract(text, QUERY, END_QUERY, SYSTEM_TAGS)
  }

  lemma ExtractIsTrimmed(text: string, open: string, close: string, names: seq<string>)
    ensures IsTrimmed(Extract(text, open, close, names))
  {
    match Between(text, open, close)
    case Some(inner) => TrimIsTrimmed(StripTags(Trim(inner), names));
    case None => TrimIsTrimmed(StripTags(text, names));
  }

  lemma PaddedSlice<T>(a: T, q: seq<T>, b: T, i: nat, n: nat)
    requires 1 <= i && i + n <= |q| + 1
    ensures ([a] + q + [b])[i..i + n] == q[i - 1..i - 1 + n]
  {
  }

  lemma InsidePadding(q: string, t: string, i: int)
    requires IsTag(t) && '\n' !in t && OccursAt("\n" + q + "\n", t, i)
    ensures 1 <= i && i + |t| <= |q| + 1
  {
    var s := "\n" + q + "\n";
    assert s[0] == '\n' && s[|q| + 1] == '\n';
    OccursChars(s, t, i);
    assert s[i] == t[0] && s[i + |t| - 1] == t[|t| - 1];
  }

  /** A newline on either side holds no part of a tag. */
  lemma PaddedTag(q: string, t: string, i: int)
    requires IsTag(t) && '\n' !in t
    ensures OccursAt("\n" + q + "\n", t, i) <==> OccursAt(q, t, i - 1)
  {
    OccursSlice("\n" + q + "\n", t, i);
    OccursSlice(q, t, i - 1);
    if OccursAt("\n" + q + "\n", t, i) { InsidePadding(q, t, i); }
    if 1 <= i && i + |t| <= |q| + 1 { PaddedSlice('\n', q, '\n', i, |t|); }
  }

  lemma FindClosing(q: string, t: string)
    requires IsTag(t) && '\n' !in t
    ensures Find("\n" + q + "\n" + t, t) == match Find(q, t) case Some(k) => Some(k + 1) case None => Some(|q| + 2)
  {
    var inner := "\n" + q + "\n";
    var s := inner + t;
    FindIsFirst(q, t);
    forall i | i < |inner| ensures OccursAt(s, t, i) <==> OccursAt(q, t, i - 1) {
      PaddedTag(q, t, i);
      TagInConcat(inner, t, t, i);
    }
    if Find(q, t).Some? {
      var k := Find(q, t).value;
      assert OccursAt(s, t, k + 1);
      FindAt(s, t, k + 1);
    } else {
      assert s[|inner|..] == t;
      forall i | 0 <= i < |inner| ensures !OccursAt(s, t, i) {
        assert !OccursAt(q, t, i - 1);
      }
      FindAt(s, t, |inner|);
    }
  }

  lemma FindAtFront(open: string, y: string)
    ensures Find(open + y, open) == Some(0)
  {
  }

  lemma BetweenAtFront(open: string, y: string, close: string)
    ensures Between(open + y, open, close) == Before(y, close)
  {
    FindAtFront(open, y);
    assert (open + y)[|open|..] == y;
  }

  /** What the wrapper holds up to the first closing tag. */
  function UpTo(q: string, close: string): string {
    match Find(q, close) case Some(k) => "\n" + q[..k] case None => "\n" + q + "\n"
  }

  lemma BetweenWrapped(q: string, open: string, close: string)
    requires IsTag(close) && '\n' !in close
    ensures Between(Wrap(open, q, close), open, close) == Some(UpTo(q, close))
  {
    var inner := "\n" + q + "\n";
    var y := inner + close;
    assert Wrap(open, q, close) == open + y;
    FindClosing(q, close);
    var end := Find(y, close).value;
    BetweenAtFront(open, y, close);
    InnerUpTo(q, close, end);
  }

  lemma InnerUpTo(q: string, close: string, end: nat)
    requires end == match Find(q, close) case Some(k) => k + 1 case None => |q| + 2
    ensures ("\n" + q + "\n" + close)[..end] == UpTo(q, close)
  {
  }

  /** Extracting from a wrapped text looks at what precedes the first closing tag. */
  lemma ExtractWrapped(q: string, open: string, close: string, names: seq<string>)
    requires IsTag(close) && '\n' !in close
    ensures Extract(Wrap(open, q, close), open, close, names)
         == StripAndTrim(Trim(match Find(q, close) case Some(k) => q[..k] case None => q), names)
  {
    BetweenWrapped(q, open, close);
    match Find(q, close)
    case None => TrimPadded("\n", q, "\n");
    case Some(k) =>
      TrimPadded("\n", q[..k], "");
      assert "\n" + q[..k] + "" == "\n" + q[..k];
  }

  /** Main result: a trimmed query comes back out of its wrapper exactly when it
      has no closed system block and no closing query tag. */
  lemma WrapRoundTrip(q: string, open: string, close: string, names: seq<string>)
    requires IsTag(close) && '\n' !in close && IsTrimmed(q)
    ensures Extract(Wrap(open, q, close), open, close, names) == q <==> IsStable(q, names) && !Contains(q, close)
  {
    ExtractWrapped(q, open, close, names);
    FindIsFirst(q, close);
    TrimFixed(q);
    StableIffFixed(q, names);
    if Find(q, close).Some? {
      var k := Find(q, close).value;
      assert Contains(q, close);
      assert |StripAndTrim(Trim(q[..k]), names)| <= |q[..k]|;
    }
  }

  // --------------------------------------------------------- real user turns

  const AUTO_CONTINUE_ID := "__auto_continue__"
  const AUTO_CONTINUE_PROMPT := "Continue the conversation from where it left off without asking the user any further questions. Resume directly - do not acknowledge the summary, do not recap what was happening, do not preface with \"I'll continue\" or similar.\nPick up the last task as if the break never happened."

  predicate IsSyntheticQuery(q: string) {
    q == "" || q == AUTO_CONTINUE_ID || q == AUTO_CONTINUE_PROMPT
  }

  /** The text parts of a user item, joined by newlines. */
  function JoinTexts(parts: seq<Part>): string {
    var texts := Texts(parts);
    JoinLines(texts)
  }

  function Texts(parts: seq<Part>): seq<string> {
    if parts == [] then []
    else (if parts[0].TextPart? then [parts[0].text] else []) + Texts(parts[1..])
  }

  predicate HasImage(parts: seq<Part>) {
    exists p | p in parts :: p.ImagePart?
  }

  function QueryOf(x: Item): string
    requires x.User?
  {
    ExtractUserQuery(JoinTexts(x.parts))
  }

  predicate IsRealUserTurn(x: Item) {
    x.User? && x.reason.None? && (HasImage(x.parts) || !IsSyntheticQuery(QueryOf(x)))
  }
}
