/** What is in a fitted conversation: which items are kept, and what is left of those
    that are cut. */
module FitContents {
  import opened Conversation
  import opened Utf8
  import opened Truncation
  import opened BudgetFit
  import opened FitLimit

  // ------------------------------------------------------------------ cut texts

  /** `n` characters are the most that fit into `keep` bytes. */
  predicate MostWithin(s: string, keep: nat, n: nat) {
    n <= |s| && ByteLen(s[..n]) <= keep && (n < |s| ==> ByteLen(s[..n + 1]) > keep)
  }

  /** The text itself if it fits, else as many characters as fit with 64 bytes to spare
      and a marker that tells how many bytes are missing. */
  ghost predicate IsCut(s: string, maxBytes: nat, out: string) {
    if ByteLen(s) <= maxBytes then out == s
    else exists n: nat :: MostWithin(s, if maxBytes >= 64 then maxBytes - 64 else 0, n) && IsMarkedPrefix(s, n, out)
  }

  predicate IsMarkedPrefix(s: string, n: nat, out: string) {
    && n <= |s|
    && var missing: int := ByteLen(s) - ByteLen(s[..n]);
       && missing >= 0
       && out == s[..n] + ("\n[... truncated " + Decimal.Print(missing) + " bytes to fit the compaction window ...]")
  }

  lemma {:induction false} CharsWithinIsMost(s: string, k: nat)
    ensures MostWithin(s, k, CharsWithin(s, k))
  {
    var n := CharsWithin(s, k);
    if s != [] && |EncodeChar(s[0])| <= k {
      CharsWithinIsMost(s[1..], k - |EncodeChar(s[0])|);
      assert s[..n][1..] == s[1..][..n - 1];
      if n < |s| { assert s[..n + 1][1..] == s[1..][..n]; }
    } else if s != [] {
      assert s[..1][1..] == [];
    }
  }

  lemma TextIsCut(s: string, maxBytes: nat)
    ensures IsCut(s, maxBytes, TruncateOr(s, maxBytes))
  {
    if ByteLen(s) > maxBytes {
      var n := CharsWithin(s, Keep(maxBytes));
      CharsWithinIsMost(s, Keep(maxBytes));
      PrefixBytes(s, n);
      assert IsMarkedPrefix(s, n, TruncateOr(s, maxBytes));
    }
  }

  // ------------------------------------------------------------------ cut items

  predicate IsImageOrText(p: Part, q: Part) {
    if p.ImagePart? then q == p else q.TextPart?
  }

  /** A cut item: a result keeps its id and images, an assistant its calls, a user item
      its reason, its images and the order of its parts; other items stay as they are. */
  ghost predicate IsCutItem(x: Item, maxBytes: nat, y: Item) {
    match x
    case ToolResult(id, content, images) =>
      y.ToolResult? && y.callId == id && y.images == images && IsCut(content, maxBytes, y.content)
    case Assistant(content, calls) => y.Assistant? && y.calls == calls && IsCut(content, maxBytes, y.content)
    case User(parts, reason) => y.User? && y.reason == reason && AreCutParts(parts, maxBytes, y.parts)
    case _ => y == x
  }

  ghost predicate AreCutParts(parts: seq<Part>, maxBytes: nat, cut: seq<Part>) {
    && |cut| == |parts|
    && forall i | 0 <= i < |parts| ::
         IsImageOrText(parts[i], cut[i]) && (parts[i].TextPart? ==> IsCut(parts[i].text, maxBytes, cut[i].text))
  }

  lemma {:induction false} PartsAreCut(parts: seq<Part>, maxBytes: nat)
    ensures AreCutParts(parts, maxBytes, TruncateParts(parts, maxBytes))
  {
    if parts != [] {
      PartsAreCut(parts[1..], maxBytes);
      if parts[0].TextPart? { TextIsCut(parts[0].text, maxBytes); }
      var cut := TruncateParts(parts, maxBytes);
      assert forall i | 0 < i < |parts| :: parts[i] == parts[1..][i - 1] && cut[i] == TruncateParts(parts[1..], maxBytes)[i - 1];
    }
  }

  lemma ItemIsCut(x: Item, maxTokens: nat)
    ensures IsCutItem(x, MaxBytes(maxTokens), TruncateItem(x, maxTokens))
  {
    var m := MaxBytes(maxTokens);
    match x {
      case ToolResult(_, content, _) => TextIsCut(content, m);
      case Assistant(content, _) => TextIsCut(content, m);
      case User(parts, _) => PartsAreCut(parts, m);
      case _ =>
    }
  }

  // ------------------------------------------------------------- kept and dropped

  /** A leading system item, and everything else. */
  predicate IsSplit(head: seq<Item>, body: seq<Item>) {
    (|head| == 1 && head[0].System?) || (head == [] && (body == [] || !body[0].System?))
  }

  lemma SplitIsHeadAndBody(head: seq<Item>, body: seq<Item>)
    requires IsSplit(head, body)
    ensures Head(head + body) == head && Body(head + body) == body
  {
    assert head != [] ==> (head + body)[0] == head[0];
    assert head == [] ==> head + body == body;
  }

  /** What the body may cost beside the head. */
  function Left(maxTokens: nat, headCost: nat): nat {
    if maxTokens > headCost then maxTokens - headCost else 0
  }

  /** The suffix from `j` on is paid for and begins with no result. */
  predicate CanStart(cost: Item -> nat, body: seq<Item>, budget: nat, j: nat) {
    j < |body| && !body[j].ToolResult? && SuffixCost(cost, body, j) <= budget
  }

  lemma KeptCanStart(cost: Item -> nat, body: seq<Item>, budget: nat)
    ensures var s := KeptStart(cost, body, budget); s < |body| ==> CanStart(cost, body, budget, s)
  {
    var s := KeptStart(cost, body, budget);
    KeptIsLongestSuffix(cost, body, budget);
    if s < |body| { StartsWithItem(body, s); }
  }

  lemma KeptIsFirst(cost: Item -> nat, body: seq<Item>, budget: nat, start: nat)
    requires CanStart(cost, body, budget, start)
    ensures KeptStart(cost, body, budget) <= start
  {
    AffordableFrom(cost, body, budget, start);
    RunWithin(body, AffordableStart(cost, body, budget), start);
  }

  lemma RestIs(cost: Item -> nat, body: seq<Item>, budget: nat, start: nat)
    requires CanStart(cost, body, budget, start) && forall j: nat | j < start :: !CanStart(cost, body, budget, j)
    ensures Rest(cost, body, budget) == body[start..]
  {
    KeptIsFirst(cost, body, budget, start);
    KeptCanStart(cost, body, budget);
  }

  lemma FitIsRest(cost: Item -> nat, c: seq<Item>, maxTokens: nat)
    requires Tokens(cost, c) > maxTokens
    ensures Fit(cost, c, maxTokens) == Head(c) + Rest(cost, Body(c), Left(maxTokens, Tokens(cost, Head(c))))
  {
  }

  lemma FitParts(cost: Item -> nat, head: seq<Item>, body: seq<Item>, maxTokens: nat)
    requires IsSplit(head, body) && Tokens(cost, head + body) > maxTokens
    ensures Fit(cost, head + body, maxTokens) == head + Rest(cost, body, Left(maxTokens, Tokens(cost, head)))
  {
    SplitIsHeadAndBody(head, body);
    FitIsRest(cost, head + body, maxTokens);
  }

  /** Main result: over the limit, the conversation is cut to its head and its longest
      suffix that the rest of the limit pays for and that begins with no result. */
  lemma FitIsLongestSuffix(cost: Item -> nat, head: seq<Item>, body: seq<Item>, maxTokens: nat, start: nat)
    requires IsSplit(head, body) && Tokens(cost, head + body) > maxTokens
    requires CanStart(cost, body, Left(maxTokens, Tokens(cost, head)), start)
    requires forall j: nat | j < start :: !CanStart(cost, body, Left(maxTokens, Tokens(cost, head)), j)
    ensures Fit(cost, head + body, maxTokens) == head + body[start..]
  {
    FitParts(cost, head, body, maxTokens);
    RestIs(cost, body, Left(maxTokens, Tokens(cost, head)), start);
  }

  /** A system item alone is kept, whatever it costs. */
  lemma FitKeepsHead(cost: Item -> nat, head: seq<Item>, maxTokens: nat)
    requires IsSplit(head, [])
    ensures Fit(cost, head, maxTokens) == head
  {
    assert head + [] == head;
    if Tokens(cost, head) > maxTokens { FitParts(cost, head, [], maxTokens); }
  }

  /** `k` is where the results at the end begin. */
  predicate IsTrail(body: seq<Item>, k: nat) {
    k <= |body| && (forall i | k <= i < |body| :: body[i].ToolResult?) && (k > 0 ==> !body[k - 1].ToolResult?)
  }

  lemma TrailIsUnique(body: seq<Item>, k: nat)
    requires IsTrail(body, k)
    ensures TrailStart(body) == k
  {
  }

  /** The assistant that called for the results at the end. */
  predicate HasCaller(body: seq<Item>, k: nat) {
    0 < k <= |body| && body[k - 1].Assistant? && body[k - 1].calls != []
  }

  /** What each of `n` results may cost beside their caller. */
  function ShareOf(budget: nat, callerCost: nat, n: nat): nat
    requires n > 0
  {
    var share := Left(budget, callerCost) / n;
    if share == 0 then 1 else share
  }

  /** The last turn in place of a suffix: the last item cut, or the results at the end
      each cut to an equal share, behind their caller. */
  ghost predicate IsCutTail(cost: Item -> nat, body: seq<Item>, k: nat, budget: nat, tail: seq<Item>)
    requires IsTrail(body, k) && body != []
  {
    if k == |body| then |tail| == 1 && IsCutItem(body[k - 1], MaxBytes(budget), tail[0])
    else
      var caller := if HasCaller(body, k) then [body[k - 1]] else [];
      var callerCost := if HasCaller(body, k) then cost(body[k - 1]) else 0;
      IsCutRun(body, k, caller, ShareOf(budget, callerCost, |body| - k), tail)
  }

  /** The caller as it is, then every item from `k` on cut to the share. */
  ghost predicate IsCutRun(body: seq<Item>, k: nat, caller: seq<Item>, share: nat, tail: seq<Item>)
    requires |caller| <= k <= |body|
  {
    var o := |caller|;
    && caller <= tail && |tail| == o + (|body| - k)
    && forall i | o <= i < |tail| :: IsCutItem(body[k - o + i], MaxBytes(share), tail[i])
  }

  lemma RunIsCut(run: seq<Item>, share: nat)
    ensures forall i | 0 <= i < |run| :: IsCutItem(run[i], MaxBytes(share), TruncateAll(run, share)[i])
  {
    forall i | 0 <= i < |run| ensures IsCutItem(run[i], MaxBytes(share), TruncateAll(run, share)[i]) {
      TruncateAllAt(run, share, i);
      ItemIsCut(run[i], share);
    }
  }

  /** The caller, and what each result may cost. */
  lemma CallerAndShare(cost: Item -> nat, body: seq<Item>, k: nat, budget: nat)
    requires IsTrail(body, k) && k < |body|
    ensures TailOwner(body) == if HasCaller(body, k) then [body[k - 1]] else []
    ensures Share(budget, Tokens(cost, TailOwner(body)), |body| - k)
         == ShareOf(budget, if HasCaller(body, k) then cost(body[k - 1]) else 0, |body| - k)
  {
    TrailIsUnique(body, k);
    if HasCaller(body, k) { SingleToken(cost, body[k - 1]); }
  }

  lemma UnitIs(cost: Item -> nat, owner: seq<Item>, run: seq<Item>, budget: nat, n: nat)
    requires |run| == n > 0
    ensures TruncatedUnit(cost, owner, run, budget) == owner + TruncateAll(run, Share(budget, Tokens(cost, owner), n))
  {
  }

  lemma TailIs(cost: Item -> nat, body: seq<Item>, k: nat, budget: nat)
    requires IsTrail(body, k) && k < |body|
    ensures RecoverTail(cost, body, budget)
         == TailOwner(body) + TruncateAll(body[k..], Share(budget, Tokens(cost, TailOwner(body)), |body| - k))
  {
    TrailIsUnique(body, k);
    UnitIs(cost, TailOwner(body), body[k..], budget, |body| - k);
  }

  lemma ItemTailIsCut(cost: Item -> nat, body: seq<Item>, budget: nat)
    requires IsTrail(body, |body|) && body != []
    ensures IsCutTail(cost, body, |body|, budget, RecoverTail(cost, body, budget))
  {
    TrailIsUnique(body, |body|);
    ItemIsCut(body[|body| - 1], budget);
  }

  lemma TailIsCut(cost: Item -> nat, body: seq<Item>, k: nat, budget: nat)
    requires IsTrail(body, k) && body != []
    ensures IsCutTail(cost, body, k, budget, RecoverTail(cost, body, budget))
  {
    if k == |body| {
      ItemTailIsCut(cost, body, budget);
    } else {
      CallerAndShare(cost, body, k, budget);
      TailIs(cost, body, k, budget);
      var owner := TailOwner(body);
      CutRunBehind(body, k, owner, Share(budget, Tokens(cost, owner), |body| - k));
    }
  }

  lemma CutRunBehind(body: seq<Item>, k: nat, owner: seq<Item>, share: nat)
    requires |owner| <= k <= |body|
    ensures IsCutRun(body, k, owner, share, owner + TruncateAll(body[k..], share))
  {
    var o, run := |owner|, body[k..];
    var cut := TruncateAll(run, share);
    RunIsCut(run, share);
    forall i | o <= i < |owner + cut| ensures IsCutItem(body[k - o + i], MaxBytes(share), (owner + cut)[i]) {
      assert run[i - o] == body[k - o + i] && (owner + cut)[i] == cut[i - o];
    }
  }

  /** Main result: where no such suffix exists, the head is followed by the last turn,
      cut. */
  lemma FitIsCutTail(cost: Item -> nat, head: seq<Item>, body: seq<Item>, maxTokens: nat, k: nat)
    requires IsSplit(head, body) && Tokens(cost, head + body) > maxTokens && body != [] && IsTrail(body, k)
    requires forall j: nat :: !CanStart(cost, body, Left(maxTokens, Tokens(cost, head)), j)
    ensures var fit := Fit(cost, head + body, maxTokens);
            head <= fit && IsCutTail(cost, body, k, Left(maxTokens, Tokens(cost, head)), fit[|head|..])
  {
    var budget := Left(maxTokens, Tokens(cost, head));
    FitParts(cost, head, body, maxTokens);
    KeptCanStart(cost, body, budget);
    assert Rest(cost, body, budget) == RecoverTail(cost, body, budget);
    TailIsCut(cost, body, k, budget);
    var tail := RecoverTail(cost, body, budget);
    assert (head + tail)[|head|..] == tail;
  }
}
