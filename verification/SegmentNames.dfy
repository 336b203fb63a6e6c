/** Names in the segment store: printing and parsing a segment's filename and
    telling from a path what was read. */
module SegmentNames {
  import opened Conversation
  import opened Text
  import Decimal

  const COMPACTION_DIR := "compaction"
  const INDEX_FILE := "INDEX.md"
  const SEGMENT_PREFIX := "segment_"
  const SUFFIX := ".md"
  const MAX_U64: nat := 0xFFFF_FFFF_FFFF_FFFF

  // ---------------------------------------------------------------- printing

  function Zeros(k: nat): string {
    if k == 0 then "" else "0" + Zeros(k - 1)
  }

  /** At least three digits. */
  function Label(index: nat): string {
    var digits := Decimal.Print(index);
    if |digits| >= 3 then digits else Zeros(3 - |digits|) + digits
  }

  function Filename(index: nat): string {
    SEGMENT_PREFIX + Label(index) + SUFFIX
  }

  // ----------------------------------------------------------------- parsing

  predicate AllDigits(s: string) {
    forall i | 0 <= i < |s| :: Decimal.IsDigit(s[i])
  }

  function DigitsValue(s: string): nat
    requires AllDigits(s)
  {
    if s == [] then 0 else DigitsValue(s[..|s| - 1]) * 10 + (s[|s| - 1] as int - '0' as int)
  }

  /** An unsigned 64-bit number: an optional `+`, then digits, within range. */
  function ParseU64(s: string): Option<nat> {
    var digits := if s != [] && s[0] == '+' then s[1..] else s;
    if digits == [] || !AllDigits(digits) || DigitsValue(digits) > MAX_U64 then None
    else Some(DigitsValue(digits))
  }

  function StripPrefix(s: string, p: string): Option<string> {
    if p <= s then Some(s[|p|..]) else None
  }

  function StripSuffix(s: string, p: string): Option<string> {
    if |p| <= |s| && s[|s| - |p|..] == p then Some(s[..|s| - |p|]) else None
  }

  function ParseSegmentIndex(filename: string): Option<nat> {
    match StripPrefix(filename, SEGMENT_PREFIX)
    case None => None
    case Some(rest) =>
      match StripSuffix(rest, SUFFIX)
      case None => None
      case Some(digits) => ParseU64(digits)
  }

  lemma {:induction false} ValueOfPrint(n: nat)
    ensures AllDigits(Decimal.Print(n)) && DigitsValue(Decimal.Print(n)) == n
  {
    if n >= 10 {
      ValueOfPrint(n / 10);
      var s := Decimal.Print(n);
      assert s[..|s| - 1] == Decimal.Print(n / 10);
    } else {
      var s := Decimal.Print(n);
      assert s[..|s| - 1] == [];
    }
  }

  lemma {:induction false} ZerosCount(k: nat)
    ensures |Zeros(k)| == k && AllDigits(Zeros(k)) && forall i | 0 <= i < k :: Zeros(k)[i] == '0'
  {
    if k > 0 { ZerosCount(k - 1); }
  }

  lemma {:induction false} ValueOfPadded(z: string, s: string)
    requires AllDigits(s) && forall i | 0 <= i < |z| :: z[i] == '0'
    ensures AllDigits(z + s) && DigitsValue(z + s) == DigitsValue(s)
    decreases |z| + |s|
  {
    var t := z + s;
    if s != [] {
      assert t[..|t| - 1] == z + s[..|s| - 1];
      ValueOfPadded(z, s[..|s| - 1]);
    } else if z != [] {
      assert t[..|t| - 1] == z[..|z| - 1] + s;
      ValueOfPadded(z[..|z| - 1], s);
    }
  }

  lemma LabelValue(index: nat)
    ensures Label(index) != [] && AllDigits(Label(index)) && DigitsValue(Label(index)) == index
  {
    var digits := Decimal.Print(index);
    ValueOfPrint(index);
    if |digits| < 3 {
      ZerosCount(3 - |digits|);
      ValueOfPadded(Zeros(3 - |digits|), digits);
    }
  }

  /** Main result: every 64-bit index comes back from its filename. */
  lemma FilenameRoundTrip(index: nat)
    requires index <= MAX_U64
    ensures ParseSegmentIndex(Filename(index)) == Some(index)
  {
    var digits := Label(index);
    LabelValue(index);
    StripParts(SEGMENT_PREFIX, digits, SUFFIX);
    assert !Decimal.IsDigit('+') && digits[0] != '+';
  }

  lemma StripParts(a: string, m: string, b: string)
    ensures StripPrefix(a + m + b, a) == Some(m + b) && StripSuffix(m + b, b) == Some(m)
  {
    assert (a + m + b)[..|a|] == a && (a + m + b)[|a|..] == m + b;
    assert (m + b)[..|m|] == m && (m + b)[|m|..] == b;
  }

  /** Hence no two segments share a filename. */
  lemma FilenamesAreInjective(i: nat, j: nat)
    requires i <= MAX_U64 && j <= MAX_U64 && Filename(i) == Filename(j)
    ensures i == j
  {
    FilenameRoundTrip(i);
    FilenameRoundTrip(j);
  }

  /** The part of a segment filename between prefix and suffix. */
  function Middle(filename: string): string
    requires |filename| >= |SEGMENT_PREFIX| + |SUFFIX|
  {
    filename[|SEGMENT_PREFIX|..|filename| - |SUFFIX|]
  }

  lemma ParsedShape(filename: string)
    requires ParseSegmentIndex(filename).Some?
    ensures |filename| >= |SEGMENT_PREFIX| + |SUFFIX|
    ensures filename == SEGMENT_PREFIX + Middle(filename) + SUFFIX
    ensures ParseSegmentIndex(filename) == ParseU64(Middle(filename))
  {
    assert |SEGMENT_PREFIX| == 8 && |SUFFIX| == 3;
    BetweenEnds(filename, |SEGMENT_PREFIX|, |SUFFIX|);
  }

  lemma BetweenEnds<T>(s: seq<T>, a: nat, b: nat)
    requires a <= |s|
    ensures b <= |s[a..]| ==> a + b <= |s| && s[a..][..|s[a..]| - b] == s[a..|s| - b] && s[a..][|s[a..]| - b..] == s[|s| - b..]
    ensures a + b <= |s| ==> s == s[..a] + s[a..|s| - b] + s[|s| - b..]
  {
  }

  /** What the printer writes: at least three digits, padded no further. */
  predicate Canonical(s: string) {
    |s| >= 3 && AllDigits(s) && (|s| > 3 ==> s[0] != '0')
  }

  lemma PrintNext(n: nat, d: nat)
    requires n > 0 && d < 10
    ensures Decimal.Print(n * 10 + d) == Decimal.Print(n) + [Decimal.DigitChar(d)]
  {
    assert (n * 10 + d) / 10 == n && (n * 10 + d) % 10 == d;
  }

  lemma {:induction false} PrintOfValue(s: string)
    requires s != [] && AllDigits(s) && (|s| > 1 ==> s[0] != '0')
    ensures Decimal.Print(DigitsValue(s)) == s
    ensures DigitsValue(s) == 0 ==> s[0] == '0'
  {
    var front, d := s[..|s| - 1], s[|s| - 1] as int - '0' as int;
    assert s == front + [s[|s| - 1]];
    if front == [] {
      assert DigitsValue(s) == d;
    } else {
      PrintOfValue(front);
      PrintNext(DigitsValue(front), d);
    }
  }

  lemma PrintIsCanonical(n: nat)
    ensures |Decimal.Print(n)| > 1 ==> Decimal.Print(n)[0] != '0'
  {
    if n >= 10 { PrintHead(n); }
  }

  lemma {:induction false} PrintHead(n: nat)
    requires n > 0
    ensures Decimal.Print(n)[0] != '0'
  {
    if n >= 10 { PrintHead(n / 10); }
  }

  lemma LabelIsCanonical(index: nat)
    ensures Canonical(Label(index))
  {
    LabelValue(index);
    PrintIsCanonical(index);
    var k := 3 - |Decimal.Print(index)|;
    if k > 0 { ZerosCount(k); }
  }

  lemma ThreeDigits(s: string)
    requires |s| == 3 && AllDigits(s)
    ensures Label(DigitsValue(s)) == s
  {
    var k := if s[0] != '0' then 0 else if s[1] != '0' then 1 else 2;
    var z, t := s[..k], s[k..];
    assert s == z + t;
    ValueOfPadded(z, t);
    PrintOfValue(t);
    ZerosCount(k);
    assert z == Zeros(k);
  }

  lemma LabelOfValue(s: string)
    requires Canonical(s)
    ensures Label(DigitsValue(s)) == s
  {
    if |s| == 3 { ThreeDigits(s); } else { PrintOfValue(s); }
  }

  /** Main result: the parser takes more than the printer writes (a sign,
      missing or extra padding); printing what was parsed gives the name back
      exactly when its digits are canonical. */
  lemma PrinterInvertsParser(filename: string)
    requires ParseSegmentIndex(filename).Some?
    ensures |filename| >= |SEGMENT_PREFIX| + |SUFFIX|
    ensures Filename(ParseSegmentIndex(filename).value) == filename <==> Canonical(Middle(filename))
  {
    ParsedShape(filename);
    var i, s := ParseSegmentIndex(filename).value, Middle(filename);
    LabelIsCanonical(i);
    if Canonical(s) {
      assert s[0] != '+' by { assert Decimal.IsDigit(s[0]); }
      LabelOfValue(s);
    } else {
      MiddlePart(SEGMENT_PREFIX, Label(i), s, SUFFIX);
    }
  }

  lemma MiddlePart<T>(a: seq<T>, x: seq<T>, y: seq<T>, b: seq<T>)
    ensures a + x + b == a + y + b <==> x == y
  {
    if a + x + b == a + y + b {
      assert |x| == |y|;
      assert forall i | 0 <= i < |x| :: x[i] == (a + x + b)[|a| + i] && y[i] == (a + y + b)[|a| + i];
    }
  }

  // ------------------------------------------------------------ classifying

  datatype Artifact = Segment(index: nat) | Index | Dir

  function TrimSlashes(s: string): string {
    if s != [] && s[|s| - 1] == '/' then TrimSlashes(s[..|s| - 1]) else s
  }

  predicate IsDirPath(trimmed: string) {
    || trimmed == COMPACTION_DIR
    || match StripSuffix(trimmed, COMPACTION_DIR)
       case None => false
       case Some(prefix) => prefix != [] && prefix[|prefix| - 1] == '/'
  }

  /** What follows the last `compaction/`. */
  function AfterDir(path: string): Option<string> {
    match RFind(path, COMPACTION_DIR)
    case None => None
    case Some(i) => StripPrefix(path[i + |COMPACTION_DIR|..], "/")
  }

  function Classify(path: string): Option<Artifact> {
    if IsDirPath(TrimSlashes(path)) then Some(Dir)
    else match AfterDir(path)
      case None => None
      case Some(rest) =>
        match ParseSegmentIndex(rest)
        case Some(index) => Some(Segment(index))
        case None => if rest == INDEX_FILE then Some(Index) else None
  }

  /** `name` cannot be the end of a `compaction` component. */
  predicate IsPlainName(name: string) {
    name != [] && name[|name| - 1] != '/' && name[|name| - 1] != 'n' && 'c' !in name
  }

  /** The last `compaction` of the path is the one in front of the name. */
  lemma LastDir(dir: string, name: string)
    requires IsPlainName(name)
    ensures RFind(dir + (COMPACTION_DIR + ("/" + name)), COMPACTION_DIR) == Some(|dir|)
  {
    var tail := COMPACTION_DIR + ("/" + name);
    var s := dir + tail;
    assert s[|dir|..] == tail;
    forall i | i > |dir| ensures !OccursAt(s, COMPACTION_DIR, i) { NoLaterDir(dir, name, i); }
    RFindAt(s, COMPACTION_DIR, |dir|);
  }

  lemma NoLaterDir(dir: string, name: string, i: int)
    requires IsPlainName(name) && i > |dir|
    ensures !OccursAt(dir + (COMPACTION_DIR + ("/" + name)), COMPACTION_DIR, i)
  {
    var tail := COMPACTION_DIR + ("/" + name);
    var s := dir + tail;
    assert forall k | |dir| <= k < |s| :: s[k] == tail[k - |dir|];
    assert tail[1] == 'o' && tail[2] == 'm' && tail[3] == 'p' && tail[4] == 'a' && tail[5] == 'c' && tail[6] == 't';
    assert tail[7] == 'i' && tail[8] == 'o' && tail[9] == 'n' && tail[10] == '/';
    assert forall k | 11 <= k < |tail| :: tail[k] == name[k - 11] && tail[k] != 'c';
    assert COMPACTION_DIR[0] == 'c' && COMPACTION_DIR[1] == 'o';
    if OccursAt(s, COMPACTION_DIR, i) { OccursChars(s, COMPACTION_DIR, i); }
  }

  lemma NameIsNotDir(dir: string, name: string)
    requires IsPlainName(name)
    ensures var s := dir + (COMPACTION_DIR + ("/" + name));
            TrimSlashes(s) == s && !IsDirPath(s)
  {
    var s := dir + (COMPACTION_DIR + ("/" + name));
    var last := name[|name| - 1];
    assert s[|s| - 1] == last;
    assert COMPACTION_DIR[9] == 'n';
    assert s != COMPACTION_DIR;
    if |COMPACTION_DIR| <= |s| { assert s[|s| - 10..][9] == last; }
  }

  lemma AfterDirIsName(dir: string, name: string)
    requires IsPlainName(name)
    ensures AfterDir(dir + (COMPACTION_DIR + ("/" + name))) == Some(name)
  {
    var s := dir + (COMPACTION_DIR + ("/" + name));
    LastDir(dir, name);
    assert s[|dir| + |COMPACTION_DIR|..] == "/" + name;
    assert ("/" + name)[1..] == name;
  }

  lemma ParsedIsPlain(filename: string)
    requires ParseSegmentIndex(filename).Some?
    ensures IsPlainName(filename)
  {
    ParsedShape(filename);
    var s := Middle(filename);
    assert filename[|filename| - 1] == 'd';
    forall i | 0 <= i < |s| ensures s[i] == '+' || Decimal.IsDigit(s[i]) {
      if s[0] == '+' && i > 0 { assert s[i] == s[1..][i - 1]; }
    }
    assert 'c' !in SEGMENT_PREFIX && 'c' !in s && 'c' !in SUFFIX;
  }

  /** `path` ends in `compaction/` and a name that parses to `index`. */
  predicate NamesSegment(path: string, dir: string, name: string, index: nat) {
    path == dir + (COMPACTION_DIR + ("/" + name)) && ParseSegmentIndex(name) == Some(index)
  }

  /** Main result: a read is classified as a segment exactly when the path ends
      in `compaction/` and a segment name, under any directory, even one whose
      own name contains `compaction`. */
  lemma ClassifySegment(path: string, index: nat)
    ensures Classify(path) == Some(Segment(index)) <==> exists dir, name :: NamesSegment(path, dir, name, index)
  {
    if Classify(path) == Some(Segment(index)) { SegmentPathSplits(path, index); }
    if dir, name :| NamesSegment(path, dir, name, index) {
      ParsedIsPlain(name);
      NameIsNotDir(dir, name);
      AfterDirIsName(dir, name);
    }
  }

  lemma SegmentPathSplits(path: string, index: nat)
    requires Classify(path) == Some(Segment(index))
    ensures exists dir, name :: NamesSegment(path, dir, name, index)
  {
    var name := AfterDir(path).value;
    var dir := AfterDirSplits(path);
    assert NamesSegment(path, dir, name, index);
  }

  lemma AfterDirSplits(path: string) returns (dir: string)
    requires AfterDir(path).Some?
    ensures path == dir + (COMPACTION_DIR + ("/" + AfterDir(path).value))
  {
    RFindIsLast(path, COMPACTION_DIR);
    var i := RFind(path, COMPACTION_DIR).value;
    SplitAround(path, COMPACTION_DIR, "/", i, AfterDir(path).value);
    dir := path[..i];
  }

  lemma SplitAround(s: string, p: string, q: string, i: nat, name: string)
    requires OccursAt(s, p, i) && i + |p| <= |s| && StripPrefix(s[i + |p|..], q) == Some(name)
    ensures s == s[..i] + (p + (q + name))
  {
    var rest := s[i + |p|..];
    assert rest == q + name;
    assert s[i..] == p + rest;
    assert s == s[..i] + s[i..];
  }

  /** In particular every segment the store writes is recognised. */
  lemma WrittenSegmentIsClassified(dir: string, index: nat)
    requires index <= MAX_U64
    ensures Classify(dir + (COMPACTION_DIR + ("/" + Filename(index)))) == Some(Segment(index))
  {
    var path := dir + (COMPACTION_DIR + ("/" + Filename(index)));
    FilenameRoundTrip(index);
    assert NamesSegment(path, dir, Filename(index), index);
    ClassifySegment(path, index);
  }

  lemma ClassifyIndex(dir: string)
    ensures Classify(dir + (COMPACTION_DIR + ("/" + INDEX_FILE))) == Some(Index)
  {
    assert IsPlainName(INDEX_FILE);
    NameIsNotDir(dir, INDEX_FILE);
    AfterDirIsName(dir, INDEX_FILE);
    assert INDEX_FILE[0] == 'I' && SEGMENT_PREFIX[0] == 's';
  }

  function Slashes(k: nat): string {
    if k == 0 then "" else Slashes(k - 1) + "/"
  }

  lemma {:induction false} TrimSlashesOf(s: string, k: nat)
    requires s == [] || s[|s| - 1] != '/'
    ensures TrimSlashes(s + Slashes(k)) == s
  {
    var t := s + Slashes(k);
    if k > 0 {
      assert t[..|t| - 1] == s + Slashes(k - 1);
      TrimSlashesOf(s, k - 1);
    } else {
      assert t == s;
    }
  }

  /** The directory itself, with any number of trailing slashes. */
  lemma ClassifyDir(dir: string, k: nat)
    ensures Classify(dir + "/" + COMPACTION_DIR + Slashes(k)) == Some(Dir)
    ensures Classify(COMPACTION_DIR + Slashes(k)) == Some(Dir)
  {
    var s := dir + "/" + COMPACTION_DIR;
    assert COMPACTION_DIR[9] == 'n' && s[|s| - 1] == COMPACTION_DIR[9];
    TrimSlashesOf(s, k);
    TrimSlashesOf(COMPACTION_DIR, k);
    StripParts("", dir + "/", COMPACTION_DIR);
  }

  predicate NamesIndex(path: string, dir: string) {
    path == dir + (COMPACTION_DIR + ("/" + INDEX_FILE))
  }

  /** A read is classified as the index exactly when the path ends in its name. */
  lemma ClassifyIndexIff(path: string)
    ensures Classify(path) == Some(Index) <==> exists dir :: NamesIndex(path, dir)
  {
    if Classify(path) == Some(Index) {
      var dir := AfterDirSplits(path);
      assert NamesIndex(path, dir);
    }
    if dir :| NamesIndex(path, dir) { ClassifyIndex(dir); }
  }

  lemma {:induction false} TrimSlashesSplits(s: string) returns (k: nat)
    ensures s == TrimSlashes(s) + Slashes(k)
  {
    if s != [] && s[|s| - 1] == '/' {
      var j := TrimSlashesSplits(s[..|s| - 1]);
      k := j + 1;
      assert s == s[..|s| - 1] + "/";
    } else {
      k := 0;
    }
  }

  /** `path` is the directory, under another or on its own, and `k` slashes. */
  predicate NamesDir(path: string, dir: string, k: nat) {
    path == dir + (COMPACTION_DIR + Slashes(k)) && (dir == [] || dir[|dir| - 1] == '/')
  }

  /** A read is classified as the directory exactly when its last component is, with
      any number of trailing slashes. */
  lemma ClassifyDirIff(path: string)
    ensures Classify(path) == Some(Dir) <==> exists dir, k :: NamesDir(path, dir, k)
  {
    if Classify(path) == Some(Dir) { DirPathSplits(path); }
    if dir, k :| NamesDir(path, dir, k) { DirPathIsClassified(path, dir, k); }
  }

  lemma DirPathIsClassified(path: string, dir: string, k: nat)
    requires NamesDir(path, dir, k)
    ensures Classify(path) == Some(Dir)
  {
    if dir == [] {
      assert path == COMPACTION_DIR + Slashes(k);
      ClassifyDir("", k);
    } else {
      var front := dir[..|dir| - 1];
      assert dir == front + "/";
      Regroup(front, "/", COMPACTION_DIR, Slashes(k));
      ClassifyDir(front, k);
    }
  }

  lemma Regroup<T>(a: seq<T>, b: seq<T>, c: seq<T>, d: seq<T>)
    ensures a + b + c + d == (a + b) + (c + d)
  {
  }

  lemma DirPathSplits(path: string)
    requires Classify(path) == Some(Dir)
    ensures exists dir, k :: NamesDir(path, dir, k)
  {
    var trimmed := TrimSlashes(path);
    var k := TrimSlashesSplits(path);
    var dir := trimmed[..|trimmed| - |COMPACTION_DIR|];
    assert trimmed == dir + COMPACTION_DIR;
    Regroup(dir, [], COMPACTION_DIR, Slashes(k));
    assert dir + [] == dir;
    assert NamesDir(path, dir, k);
  }
}
