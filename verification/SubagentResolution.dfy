/** Discovery over the agent directories, resolution by name, and the promise
    that what is visible is what can be called. */
module SubagentResolution {
  import opened Conversation
  import opened Sequences
  import opened SubagentMerge

  datatype Parsed = Parsed(name: string, description: string)

  /** A file `<stem>.md`; its definition carries its own name, if it parses. */
  datatype File = File(stem: string, content: Option<Parsed>)

  /** An agent directory and the scope its definitions get. */
  datatype Dir = Dir(files: seq<File>, scope: Scope)

  /** The directories of one session, highest priority first. */
  datatype Layout = Layout(project: seq<Dir>, home: seq<Dir>)

  function PathOf(base: string, part: string): string { base + "/" + part }

  function Optional<T>(o: Option<T>): seq<T> { if o.Some? then [o.value] else [] }

  /** The legacy home, when the configured one is elsewhere. */
  function LegacyHome(home: Option<string>, ccodeHome: Option<string>): Option<string> {
    if home.Some? && ccodeHome != Some(PathOf(home.value, ".ccode")) then Some(PathOf(home.value, ".ccode")) else None
  }

  function DirsUnder(bases: seq<string>, part: string, scope: Scope, read: string -> seq<File>): seq<Dir> {
    seq(|bases|, i requires 0 <= i < |bases| => Dir(read(PathOf(bases[i], part)), scope))
  }

  /** The user-level directories in priority order; `read` lists a directory, a
      missing one being empty. */
  function UserAgentDirs(home: Option<string>, ccodeHome: Option<string>, read: string -> seq<File>): seq<Dir> {
    var ccode := Optional(ccodeHome) + Optional(LegacyHome(home, ccodeHome));
    DirsUnder(ccode, "agents", Scope.User, read)
    + DirsUnder(Optional(home), ".claude/agents", Scope.User, read)
    + DirsUnder(ccode, "bundled/agents", Bundled, read)
  }

  predicate HomeScopes(dirs: seq<Dir>) {
    forall i | 0 <= i < |dirs| :: dirs[i].scope == Scope.User || dirs[i].scope == Bundled
  }

  predicate ProjectScopes(dirs: seq<Dir>) {
    forall i | 0 <= i < |dirs| :: dirs[i].scope == Project
  }

  lemma ScopesInOrder(a: seq<Dir>, b: seq<Dir>, c: seq<Dir>, i: nat, j: nat)
    requires forall k | 0 <= k < |a| :: a[k].scope == Scope.User
    requires forall k | 0 <= k < |b| :: b[k].scope == Scope.User
    requires forall k | 0 <= k < |c| :: c[k].scope == Bundled
    requires i < j < |a + b + c|
    ensures HomeScopes(a + b + c) && Priority((a + b + c)[i].scope) >= Priority((a + b + c)[j].scope)
  {
  }

  /** Every user directory comes before every bundled one. */
  lemma UserBeforeBundled(home: Option<string>, ccodeHome: Option<string>, read: string -> seq<File>, i: nat, j: nat)
    requires i < j < |UserAgentDirs(home, ccodeHome, read)|
    ensures HomeScopes(UserAgentDirs(home, ccodeHome, read))
    ensures var dirs := UserAgentDirs(home, ccodeHome, read);
            Priority(dirs[i].scope) >= Priority(dirs[j].scope)
  {
    var ccode := Optional(ccodeHome) + Optional(LegacyHome(home, ccodeHome));
    ScopesInOrder(DirsUnder(ccode, "agents", Scope.User, read),
                  DirsUnder(Optional(home), ".claude/agents", Scope.User, read),
                  DirsUnder(ccode, "bundled/agents", Bundled, read), i, j);
  }

  function At(base: string, part: string, scope: Scope, read: string -> seq<File>): Dir {
    Dir(read(base + "/" + part), scope)
  }

  lemma DirsUnderOne(b: string, part: string, scope: Scope, read: string -> seq<File>)
    ensures DirsUnder([b], part, scope, read) == [At(b, part, scope, read)]
  {
    assert DirsUnder([b], part, scope, read)[0] == Dir(read(PathOf(b, part)), scope);
  }

  lemma DirsUnderTwo(b: string, c: string, part: string, scope: Scope, read: string -> seq<File>)
    ensures DirsUnder([b, c], part, scope, read) == [At(b, part, scope, read), At(c, part, scope, read)]
  {
    var dirs := DirsUnder([b, c], part, scope, read);
    assert dirs[0] == Dir(read(PathOf(b, part)), scope) && dirs[1] == Dir(read(PathOf(c, part)), scope);
  }

  lemma AppendEach<T>(a: T, b: T, c: T, d: T, e: T)
    ensures [a, b] + [c] + [d, e] == [a, b, c, d, e] && [a] + [c] + [d] == [a, c, d]
  {
  }

  /** The user-level directories where the configured home is not the default one. */
  lemma BothHomes(h: string, g: string, read: string -> seq<File>)
    requires g != h + "/" + ".ccode"
    ensures var d := h + "/" + ".ccode";
            UserAgentDirs(Some(h), Some(g), read) ==
              [At(g, "agents", Scope.User, read), At(d, "agents", Scope.User, read), At(h, ".claude/agents", Scope.User, read),
               At(g, "bundled/agents", Bundled, read), At(d, "bundled/agents", Bundled, read)]
  {
    var d := h + "/" + ".ccode";
    assert Optional(Some(g)) + Optional(LegacyHome(Some(h), Some(g))) == [g, d];
    DirsUnderTwo(g, d, "agents", Scope.User, read);
    DirsUnderOne(h, ".claude/agents", Scope.User, read);
    DirsUnderTwo(g, d, "bundled/agents", Bundled, read);
    AppendEach(At(g, "agents", Scope.User, read), At(d, "agents", Scope.User, read), At(h, ".claude/agents", Scope.User, read),
               At(g, "bundled/agents", Bundled, read), At(d, "bundled/agents", Bundled, read));
  }

  /** And where it is, or none is configured: each directory once. */
  lemma OneHome(h: string, ccodeHome: Option<string>, read: string -> seq<File>)
    requires ccodeHome == None || ccodeHome == Some(h + "/" + ".ccode")
    ensures var d := h + "/" + ".ccode";
            UserAgentDirs(Some(h), ccodeHome, read) ==
              [At(d, "agents", Scope.User, read), At(h, ".claude/agents", Scope.User, read), At(d, "bundled/agents", Bundled, read)]
  {
    var d := h + "/" + ".ccode";
    assert Optional(ccodeHome) + Optional(LegacyHome(Some(h), ccodeHome)) == [d];
    DirsUnderOne(d, "agents", Scope.User, read);
    DirsUnderOne(h, ".claude/agents", Scope.User, read);
    DirsUnderOne(d, "bundled/agents", Bundled, read);
    var x := At(d, "agents", Scope.User, read);
    AppendEach(x, x, At(h, ".claude/agents", Scope.User, read), At(d, "bundled/agents", Bundled, read), x);
  }

  /** Without a user home only the configured one counts. */
  lemma NoUserHome(g: string, read: string -> seq<File>)
    ensures UserAgentDirs(None, Some(g), read) == [At(g, "agents", Scope.User, read), At(g, "bundled/agents", Bundled, read)]
    ensures UserAgentDirs(None, None, read) == []
  {
    assert Optional(Some(g)) + Optional(LegacyHome(None, Some(g))) == [g];
    DirsUnderOne(g, "agents", Scope.User, read);
    DirsUnderOne(g, "bundled/agents", Bundled, read);
  }

  // ---------------------------------------------------------------- discovery

  function Loaded(files: seq<File>, scope: Scope): seq<Definition> {
    if files == [] then []
    else (match files[0].content
          case Some(p) => [Definition(p.name, p.description, scope)]
          case None => []) + Loaded(files[1..], scope)
  }

  function AllLoaded(dirs: seq<Dir>): seq<Definition> {
    if dirs == [] then [] else Loaded(dirs[0].files, dirs[0].scope) + AllLoaded(dirs[1..])
  }

  function NameOf(d: Definition): string { d.name }

  function FirstPerName(defs: seq<Definition>, seen: set<string>): seq<Definition> {
    FirstPerKey(defs, NameOf, seen)
  }

  function Discovered(layout: Layout): seq<Definition> {
    FirstPerName(AllLoaded(layout.project + layout.home), {})
  }

  function ParsedAs(f: File, scope: Scope): Definition
    requires f.content.Some?
  {
    Definition(f.content.value.name, f.content.value.description, scope)
  }

  lemma LoadNext(files: seq<File>, i: nat, scope: Scope, rest: seq<Definition>)
    requires i < |files|
    ensures var tail := Loaded(files[i + 1..], scope) + rest;
            Loaded(files[i..], scope) + rest == if files[i].content.Some? then [ParsedAs(files[i], scope)] + tail else tail
  {
    assert files[i..][1..] == files[i + 1..];
    if files[i].content.Some? { Assoc([ParsedAs(files[i], scope)], Loaded(files[i + 1..], scope), rest); }
  }

  /** The loading loop over one directory. */
  method LoadDir(files: seq<File>, scope: Scope, defs: seq<Definition>, seen: set<string>, ghost rest: seq<Definition>)
    returns (out: seq<Definition>, nowSeen: set<string>)
    ensures out + FirstPerName(rest, nowSeen) == defs + FirstPerName(Loaded(files, scope) + rest, seen)
  {
    out, nowSeen := defs, seen;
    ghost var target := defs + FirstPerName(Loaded(files, scope) + rest, seen);
    var i := 0;
    assert files[0..] == files;
    while i < |files|
      invariant 0 <= i <= |files|
      invariant out + FirstPerName(Loaded(files[i..], scope) + rest, nowSeen) == target
    {
      LoadNext(files, i, scope, rest);
      if files[i].content.Some? {
        var d := ParsedAs(files[i], scope);
        FirstPerKeyStep(out, d, Loaded(files[i + 1..], scope) + rest, NameOf, nowSeen);
        if d.name !in nowSeen {
          nowSeen := nowSeen + {d.name};
          out := out + [d];
        }
      }
      i := i + 1;
    }
    assert Loaded(files[i..], scope) + rest == rest;
  }

  method Discover(layout: Layout) returns (defs: seq<Definition>)
    ensures defs == Discovered(layout)
  {
    var dirs := layout.project + layout.home;
    defs := [];
    var seen: set<string> := {};
    var i := 0;
    while i < |dirs|
      invariant 0 <= i <= |dirs|
      invariant defs + FirstPerName(AllLoaded(dirs[i..]), seen) == Discovered(layout)
    {
      assert dirs[i..][1..] == dirs[i + 1..];
      defs, seen := LoadDir(dirs[i].files, dirs[i].scope, defs, seen, AllLoaded(dirs[i + 1..]));
      i := i + 1;
    }
  }

  // --------------------------------------------------------------- resolution

  function Load(files: seq<File>, name: string, scope: Scope): Option<Definition> {
    if files == [] then None
    else if files[0].stem == name && files[0].content.Some? then
      Some(Definition(files[0].content.value.name, files[0].content.value.description, scope))
    else Load(files[1..], name, scope)
  }

  /** The first directory whose `<name>.md` loads. */
  function LoadFirst(dirs: seq<Dir>, name: string): Option<Definition> {
    if dirs == [] then None
    else match Load(dirs[0].files, name, dirs[0].scope)
      case Some(d) => Some(d)
      case None => LoadFirst(dirs[1..], name)
  }

  method SearchDirs(dirs: seq<Dir>, name: string) returns (r: Option<Definition>)
    ensures r == LoadFirst(dirs, name)
  {
    var i := 0;
    while i < |dirs|
      invariant 0 <= i <= |dirs|
      invariant LoadFirst(dirs[i..], name) == LoadFirst(dirs, name)
    {
      assert dirs[i..][1..] == dirs[i + 1..];
      var d := Load(dirs[i].files, name, dirs[i].scope);
      if d.Some? { return d; }
      i := i + 1;
    }
    return None;
  }

  function BuiltinDefinition(name: string, describe: string -> string): Definition {
    Definition(name, describe(name), BuiltIn)
  }

  function ByName(home: seq<Dir>, name: string, describe: string -> string): Option<Definition> {
    if IsBuiltinName(name) then Some(BuiltinDefinition(name, describe)) else LoadFirst(home, name)
  }

  function ByNameInCwd(layout: Layout, name: string, describe: string -> string): Option<Definition> {
    match LoadFirst(layout.project, name)
    case Some(d) => Some(d)
    case None => ByName(layout.home, name, describe)
  }

  // ------------------------------------------------------- by name, by stem

  function FirstNamed(defs: seq<Definition>, name: string): Option<Definition> {
    if defs == [] then None
    else if defs[0].name == name then Some(defs[0])
    else FirstNamed(defs[1..], name)
  }

  /** The first definition that calls itself `name`, whatever its file is called. */
  function Named(dirs: seq<Dir>, name: string): Option<Definition> {
    FirstNamed(AllLoaded(dirs), name)
  }

  lemma {:induction false} FirstNamedConcat(a: seq<Definition>, b: seq<Definition>, name: string)
    ensures FirstNamed(a + b, name) == if FirstNamed(a, name).Some? then FirstNamed(a, name) else FirstNamed(b, name)
  {
    if a == [] {
      assert a + b == b;
    } else {
      assert (a + b)[1..] == a[1..] + b;
      FirstNamedConcat(a[1..], b, name);
    }
  }

  lemma {:induction false} AllLoadedConcat(a: seq<Dir>, b: seq<Dir>)
    ensures AllLoaded(a + b) == AllLoaded(a) + AllLoaded(b)
  {
    if a == [] {
      assert a + b == b;
    } else {
      assert (a + b)[1..] == a[1..] + b;
      AllLoadedConcat(a[1..], b);
    }
  }

  /** What is discovered is, in the order of the directories, exactly the first definition
      of each name. */
  lemma DiscoveredInOrder(layout: Layout) returns (at: seq<nat>)
    ensures var all := AllLoaded(layout.project + layout.home);
            Picks(Discovered(layout), all, at, 0, |all|, FirstPositions(all, NameOf))
  {
    at := FirstPerKeyPicks(AllLoaded(layout.project + layout.home), NameOf);
  }

  /** Discovery keeps exactly the first definition of each name. */
  lemma {:induction false} FirstPerNameKeeps(defs: seq<Definition>, seen: set<string>, name: string)
    ensures FirstNamed(FirstPerName(defs, seen), name) == if name in seen then None else FirstNamed(defs, name)
  {
    if defs != [] {
      if defs[0].name in seen {
        FirstPerNameKeeps(defs[1..], seen, name);
      } else {
        FirstPerNameKeeps(defs[1..], seen + {defs[0].name}, name);
        assert FirstPerName(defs, seen)[1..] == FirstPerName(defs[1..], seen + {defs[0].name});
      }
    }
  }

  /** What is discovered under a name: the first definition that calls itself so in
      the project, or else at home. */
  lemma DiscoveredIsNamed(layout: Layout, name: string)
    ensures FirstNamed(Discovered(layout), name) ==
            if Named(layout.project, name).Some? then Named(layout.project, name) else Named(layout.home, name)
  {
    FirstPerNameKeeps(AllLoaded(layout.project + layout.home), {}, name);
    AllLoadedConcat(layout.project, layout.home);
    FirstNamedConcat(AllLoaded(layout.project), AllLoaded(layout.home), name);
  }

  /** What is found by name or by stem is one of the definitions loaded. */
  lemma {:induction false} NamedIsLoaded(defs: seq<Definition>, name: string)
    ensures FirstNamed(defs, name).Some? ==> FirstNamed(defs, name).value in defs && FirstNamed(defs, name).value.name == name
  {
    if defs != [] { NamedIsLoaded(defs[1..], name); }
  }

  lemma {:induction false} LoadIsLoaded(files: seq<File>, name: string, scope: Scope)
    ensures Load(files, name, scope).Some? ==> Load(files, name, scope).value in Loaded(files, scope)
  {
    if files != [] { LoadIsLoaded(files[1..], name, scope); }
  }

  lemma {:induction false} LoadFirstIsLoaded(dirs: seq<Dir>, name: string)
    ensures LoadFirst(dirs, name).Some? ==> LoadFirst(dirs, name).value in AllLoaded(dirs)
  {
    if dirs != [] {
      LoadIsLoaded(dirs[0].files, name, dirs[0].scope);
      LoadFirstIsLoaded(dirs[1..], name);
    }
  }

  lemma {:induction false} LoadedScope(files: seq<File>, scope: Scope, d: Definition)
    requires d in Loaded(files, scope)
    ensures d.scope == scope
  {
    if files[0].content.None? || d != Loaded(files, scope)[0] { LoadedScope(files[1..], scope, d); }
  }

  lemma {:induction false} AllLoadedScope(dirs: seq<Dir>, d: Definition)
    requires d in AllLoaded(dirs)
    ensures exists i :: 0 <= i < |dirs| && dirs[i].scope == d.scope
  {
    if d in Loaded(dirs[0].files, dirs[0].scope) {
      LoadedScope(dirs[0].files, dirs[0].scope, d);
    } else {
      AllLoadedScope(dirs[1..], d);
      var i :| 0 <= i < |dirs[1..]| && dirs[1..][i].scope == d.scope;
      assert dirs[i + 1].scope == d.scope;
    }
  }

  // ------------------------------------------------------- well-named layouts

  predicate WellNamedFile(f: File) { f.content.Some? ==> f.content.value.name == f.stem }

  predicate WellNamed(dirs: seq<Dir>) {
    forall i, j | 0 <= i < |dirs| && 0 <= j < |dirs[i].files| :: WellNamedFile(dirs[i].files[j])
  }

  lemma {:induction false} LoadIsFirstNamed(files: seq<File>, name: string, scope: Scope)
    requires forall j | 0 <= j < |files| :: WellNamedFile(files[j])
    ensures Load(files, name, scope) == FirstNamed(Loaded(files, scope), name)
  {
    if files != [] {
      LoadIsFirstNamed(files[1..], name, scope);
      var rest := Loaded(files[1..], scope);
      if files[0].content.Some? {
        assert Loaded(files, scope)[1..] == rest;
      } else {
        assert Loaded(files, scope) == rest;
      }
    }
  }

  /** Where every file is named after its definition, the search by stem finds what
      calls itself so. */
  lemma {:induction false} WellNamedAgree(dirs: seq<Dir>, name: string)
    requires WellNamed(dirs)
    ensures LoadFirst(dirs, name) == Named(dirs, name)
  {
    if dirs != [] {
      LoadIsFirstNamed(dirs[0].files, name, dirs[0].scope);
      forall i, j | 0 <= i < |dirs[1..]| && 0 <= j < |dirs[1..][i].files|
        ensures WellNamedFile(dirs[1..][i].files[j])
      {
        assert dirs[1..][i] == dirs[i + 1];
      }
      WellNamedAgree(dirs[1..], name);
      FirstNamedConcat(Loaded(dirs[0].files, dirs[0].scope), AllLoaded(dirs[1..]), name);
    }
  }
}
