/** Visible is callable: exactly when the merged list and the name search agree. */
module SubagentLaws {
  import opened Conversation
  import opened Sequences
  import opened SubagentMerge
  import opened SubagentResolution

  /** The list shown to the model. */
  function Visible(layout: Layout, toggle: map<string, bool>, describe: string -> string): seq<Entry> {
    Shown(PlaceAll(Seeds(describe), Discovered(layout)), toggle)
  }

  /** The definition an entry describes, scope included. */
  function Described(e: Entry): Definition {
    Definition(e.name, e.description, if e.source.Builtin? then BuiltIn else e.source.scope)
  }

  /** Spawning by the entry's name gives what the entry describes. */
  predicate Callable(layout: Layout, e: Entry, describe: string -> string) {
    ByNameInCwd(layout, e.name, describe) == Some(Described(e))
  }

  // ------------------------------------------------------------ visible names

  lemma {:induction false} ShownMembers(entries: seq<Entry>, toggle: map<string, bool>, e: Entry)
    ensures e in Shown(entries, toggle) <==> e in entries && Enabled(toggle, e.name)
  {
    if entries != [] {
      var init, last := entries[..|entries| - 1], entries[|entries| - 1];
      ShownMembers(init, toggle, e);
      assert entries == init + [last];
    }
  }

  /** One more entry, at the end: it is shown unless its name is toggled off. */
  lemma ShownNext(entries: seq<Entry>, e: Entry, toggle: map<string, bool>)
    ensures Shown(entries + [e], toggle)
         == Shown(entries, toggle) + (if e.name in toggle && !toggle[e.name] then [] else [e])
  {
    assert (entries + [e])[..|entries|] == entries;
  }

  /** Placing a definition keeps the names in their places; a new one comes last. */
  lemma PlaceKeepsOrder(entries: seq<Entry>, d: Definition)
    ensures var r := Place(entries, d);
            && |entries| <= |r| && (forall i | 0 <= i < |entries| :: r[i].name == entries[i].name)
            && (if Eligible(d) && (forall i | 0 <= i < |entries| :: entries[i].name != d.name)
                then |r| == |entries| + 1 && r[|entries|].name == d.name
                else |r| == |entries|)
  {
    PositionIsFirst(entries, d.name);
  }

  /** So the built-in subagents come first, in their order, and what more definitions
      add comes behind what fewer have left. */
  lemma {:induction false} MergeKeepsOrder(entries: seq<Entry>, defs: seq<Definition>, n: nat)
    requires n <= |defs|
    ensures var part, all := PlaceAll(entries, defs[..n]), PlaceAll(entries, defs);
            |part| <= |all| && forall i | 0 <= i < |part| :: all[i].name == part[i].name
    decreases |defs|
  {
    if n < |defs| {
      var init := defs[..|defs| - 1];
      MergeKeepsOrder(entries, init, n);
      assert init[..n] == defs[..n];
      PlaceKeepsOrder(PlaceAll(entries, init), defs[|defs| - 1]);
    } else {
      assert defs[..n] == defs;
    }
  }

  lemma MemberIsLookup(entries: seq<Entry>, e: Entry)
    requires DistinctNames(entries)
    ensures e in entries <==> Lookup(entries, e.name) == Some(e)
  {
    PositionIsFirst(entries, e.name);
    if e in entries {
      var i :| 0 <= i < |entries| && entries[i] == e;
      PositionAt(entries, e.name, i);
    }
  }

  lemma VisibleIsLookup(layout: Layout, toggle: map<string, bool>, describe: string -> string, e: Entry)
    ensures e in Visible(layout, toggle, describe) <==>
            Enabled(toggle, e.name) && Lookup(PlaceAll(Seeds(describe), Discovered(layout)), e.name) == Some(e)
  {
    var entries := PlaceAll(Seeds(describe), Discovered(layout));
    SeedsAreDistinct(describe);
    PlaceAllKeepsDistinct(Seeds(describe), Discovered(layout));
    ShownMembers(entries, toggle, e);
    MemberIsLookup(entries, e);
  }

  // ---------------------------------------------------- one definition a name

  predicate OnePerName(defs: seq<Definition>) {
    forall i, j | 0 <= i < j < |defs| :: defs[i].name != defs[j].name
  }

  lemma DiscoveredIsUnique(layout: Layout)
    ensures OnePerName(Discovered(layout))
  {
    var defs := Discovered(layout);
    FirstPerKeyIsDistinct(AllLoaded(layout.project + layout.home), NameOf, {});
    assert forall i, j | 0 <= i < j < |defs| :: NameOf(defs[i]) != NameOf(defs[j]);
  }

  lemma {:induction false} FirstNamedAt(defs: seq<Definition>, i: nat)
    requires OnePerName(defs) && i < |defs|
    ensures FirstNamed(defs, defs[i].name) == Some(defs[i])
  {
    if i > 0 { FirstNamedAt(defs[1..], i - 1); }
  }

  lemma {:induction false} FirstNamedIndex(defs: seq<Definition>, name: string) returns (i: nat)
    requires FirstNamed(defs, name).Some?
    ensures i < |defs| && FirstNamed(defs, name) == Some(defs[i]) && defs[i].name == name
  {
    if defs[0].name == name {
      i := 0;
    } else {
      var k := FirstNamedIndex(defs[1..], name);
      i := k + 1;
    }
  }

  /** The entry of a name, given the one definition discovered for it. */
  function EntryFor(first: Option<Definition>, name: string, describe: string -> string): Option<Entry> {
    if first.Some? && Eligible(first.value) then Some(FromDefinition(first.value, IsSubagentBuiltin(name)))
    else if IsSubagentBuiltin(name) then Some(SeedEntry(name, describe))
    else None
  }

  lemma DiscoveredEntry(defs: seq<Definition>, name: string, describe: string -> string)
    requires OnePerName(defs)
    ensures Lookup(PlaceAll(Seeds(describe), defs), name) == EntryFor(FirstNamed(defs, name), name, describe)
  {
    var e := Lookup(PlaceAll(Seeds(describe), defs), name);
    MergedEntry(defs, name, describe);
    if i :| Wins(defs, name, i) && e.Some? && Shows(e.value, defs[i]) {
      FirstNamedAt(defs, i);
    } else if FirstNamed(defs, name).Some? {
      var k := FirstNamedIndex(defs, name);
      assert !Eligible(defs[k]);
    }
  }

  // ------------------------------------------------------------- what is found

  /** The scopes that discovery assigns. */
  predicate Scoped(layout: Layout) { ProjectScopes(layout.project) && HomeScopes(layout.home) }

  lemma ProjectIsProject(layout: Layout, d: Definition)
    requires Scoped(layout) && d in AllLoaded(layout.project)
    ensures d.scope == Project
  {
    AllLoadedScope(layout.project, d);
  }

  lemma HomeIsHome(layout: Layout, d: Definition)
    requires Scoped(layout) && d in AllLoaded(layout.home)
    ensures d.scope == Scope.User || d.scope == Bundled
  {
    AllLoadedScope(layout.home, d);
  }

  lemma FoundScopes(layout: Layout, name: string)
    requires Scoped(layout)
    ensures var p, q := Named(layout.project, name), LoadFirst(layout.project, name);
            && (p.Some? ==> p.value.name == name && p.value.scope == Project)
            && (q.Some? ==> q.value.scope == Project)
    ensures var p, q := Named(layout.home, name), LoadFirst(layout.home, name);
            && (p.Some? ==> p.value.name == name && p.value.scope != Project && p.value.scope != BuiltIn)
            && (q.Some? ==> q.value.scope != Project && q.value.scope != BuiltIn)
  {
    NamedIsLoaded(AllLoaded(layout.project), name);
    LoadFirstIsLoaded(layout.project, name);
    NamedIsLoaded(AllLoaded(layout.home), name);
    LoadFirstIsLoaded(layout.home, name);
    if Named(layout.project, name).Some? { ProjectIsProject(layout, Named(layout.project, name).value); }
    if LoadFirst(layout.project, name).Some? { ProjectIsProject(layout, LoadFirst(layout.project, name).value); }
    if Named(layout.home, name).Some? { HomeIsHome(layout, Named(layout.home, name).value); }
    if LoadFirst(layout.home, name).Some? { HomeIsHome(layout, LoadFirst(layout.home, name).value); }
  }

  /** The definition listed under a name: what calls itself so in the project, then
      the built-in subagent, then what calls itself so at home. */
  function Listed(layout: Layout, name: string, describe: string -> string): Option<Definition> {
    var p := Named(layout.project, name);
    if p.Some? then p
    else if IsSubagentBuiltin(name) then Some(BuiltinDefinition(name, describe))
    else Named(layout.home, name)
  }

  lemma ListedEntry(layout: Layout, name: string, describe: string -> string)
    requires Scoped(layout)
    ensures var e, d := Lookup(PlaceAll(Seeds(describe), Discovered(layout)), name), Listed(layout, name, describe);
            e.Some? == d.Some? && (e.Some? ==> e.value.name == name && Described(e.value) == d.value)
  {
    DiscoveredIsUnique(layout);
    DiscoveredEntry(Discovered(layout), name, describe);
    DiscoveredIsNamed(layout, name);
    FoundScopes(layout, name);
  }

  lemma VisibleIsListed(layout: Layout, toggle: map<string, bool>, describe: string -> string, e: Entry)
    requires Scoped(layout) && e in Visible(layout, toggle, describe)
    ensures Enabled(toggle, e.name) && Listed(layout, e.name, describe) == Some(Described(e))
  {
    VisibleIsLookup(layout, toggle, describe, e);
    ListedEntry(layout, e.name, describe);
  }

  lemma ListedIsVisible(layout: Layout, toggle: map<string, bool>, describe: string -> string, name: string)
    requires Scoped(layout) && Enabled(toggle, name) && Listed(layout, name, describe).Some?
    ensures exists e :: e in Visible(layout, toggle, describe) && e.name == name
                        && Described(e) == Listed(layout, name, describe).value
  {
    ListedEntry(layout, name, describe);
    VisibleIsLookup(layout, toggle, describe, Lookup(PlaceAll(Seeds(describe), Discovered(layout)), name).value);
  }

  /** A listed name is shown exactly when it is not toggled off. */
  lemma HiddenIffToggledOff(layout: Layout, toggle: map<string, bool>, describe: string -> string, name: string)
    requires Scoped(layout) && Listed(layout, name, describe).Some?
    ensures (forall e | e in Visible(layout, toggle, describe) :: e.name != name) <==> name in toggle && !toggle[name]
  {
    if name in toggle && !toggle[name] {
      forall e | e in Visible(layout, toggle, describe) ensures e.name != name {
        VisibleIsListed(layout, toggle, describe, e);
      }
    } else {
      ListedIsVisible(layout, toggle, describe, name);
    }
  }

  // ------------------------------------------------------------- main results

  /** When a listed name resolves to what is listed, told from the files: the
      project file of that stem is the definition of that name; or there is no such
      file and the name is a built-in subagent's, or no built-in's and the same
      holds at home. */
  predicate Resolves(layout: Layout, name: string) {
    var p := Named(layout.project, name);
    if p.Some? then LoadFirst(layout.project, name) == p
    else
      && LoadFirst(layout.project, name).None?
      && (IsSubagentBuiltin(name) || (!IsBuiltinName(name) && LoadFirst(layout.home, name) == Named(layout.home, name)))
  }

  lemma ResolvesMeans(layout: Layout, name: string, describe: string -> string)
    requires Scoped(layout) && Listed(layout, name, describe).Some?
    ensures ByNameInCwd(layout, name, describe) == Listed(layout, name, describe) <==> Resolves(layout, name)
  {
    FoundScopes(layout, name);
  }

  /** Main result, for all layouts: a visible entry can be called as shown exactly
      when its name resolves. */
  lemma VisibleIsCallable(layout: Layout, toggle: map<string, bool>, describe: string -> string, e: Entry)
    requires Scoped(layout) && e in Visible(layout, toggle, describe)
    ensures Callable(layout, e, describe) <==> Resolves(layout, e.name)
  {
    VisibleIsListed(layout, toggle, describe, e);
    ResolvesMeans(layout, e.name, describe);
  }

  /** Main result: the promise holds for the whole list exactly when every enabled
      name that is listed resolves. */
  lemma AllVisibleCallable(layout: Layout, toggle: map<string, bool>, describe: string -> string)
    requires Scoped(layout)
    ensures (forall e | e in Visible(layout, toggle, describe) :: Callable(layout, e, describe)) <==>
            (forall name | Enabled(toggle, name) && Listed(layout, name, describe).Some? :: Resolves(layout, name))
  {
    forall e | e in Visible(layout, toggle, describe)
      ensures Callable(layout, e, describe) <==> Resolves(layout, e.name)
      ensures Enabled(toggle, e.name) && Listed(layout, e.name, describe).Some?
    {
      VisibleIsCallable(layout, toggle, describe, e);
      VisibleIsListed(layout, toggle, describe, e);
    }
    forall name | Enabled(toggle, name) && Listed(layout, name, describe).Some?
      ensures exists e :: e in Visible(layout, toggle, describe) && e.name == name
    {
      ListedIsVisible(layout, toggle, describe, name);
    }
  }

  /** Main result: conversely, what a name resolves to is visible exactly when it is
      enabled and listed under the name it gives itself. */
  lemma CallableIsVisible(layout: Layout, toggle: map<string, bool>, describe: string -> string, name: string)
    requires Scoped(layout) && ByNameInCwd(layout, name, describe).Some?
    ensures var d := ByNameInCwd(layout, name, describe).value;
            (exists e :: e in Visible(layout, toggle, describe) && Described(e) == d) <==>
            Enabled(toggle, d.name) && Listed(layout, d.name, describe) == Some(d)
  {
    var d := ByNameInCwd(layout, name, describe).value;
    forall e | e in Visible(layout, toggle, describe) && Described(e) == d
      ensures Enabled(toggle, d.name) && Listed(layout, d.name, describe) == Some(d)
    {
      VisibleIsListed(layout, toggle, describe, e);
    }
    if Enabled(toggle, d.name) && Listed(layout, d.name, describe) == Some(d) {
      ListedIsVisible(layout, toggle, describe, d.name);
    }
  }

  // --------------------------------------------------- files named as they say

  predicate WellNamedLayout(layout: Layout) { WellNamed(layout.project) && WellNamed(layout.home) }

  /** A built-in profile's name, taken by a home definition and by no project one. */
  predicate Clash(layout: Layout, name: string) {
    && IsBuiltinName(name) && !IsSubagentBuiltin(name)
    && LoadFirst(layout.project, name).None? && LoadFirst(layout.home, name).Some?
  }

  /** Where files are named after their definitions, the only names that do not
      resolve are those of built-in profiles taken at home; and what resolves is
      listed unless it is such a profile itself. */
  lemma WellNamedResolves(layout: Layout, name: string, describe: string -> string)
    requires Scoped(layout) && WellNamedLayout(layout)
    ensures Listed(layout, name, describe).Some? ==> (Resolves(layout, name) <==> !Clash(layout, name))
    ensures var d := ByNameInCwd(layout, name, describe);
            d.Some? ==> d.value.name == name
                        && (Listed(layout, name, describe) == d <==> d.value.scope != BuiltIn || IsSubagentBuiltin(name))
  {
    WellNamedAgree(layout.project, name);
    WellNamedAgree(layout.home, name);
    FoundScopes(layout, name);
  }

  // ---------------------------------------------------------------- witnesses

  function OneFile(f: File, scope: Scope): seq<Dir> { [Dir([f], scope)] }

  /** A user file for a built-in profile: listed, but calling it gives the profile. */
  lemma ProfileNameClashes(describe: string -> string)
    ensures var layout := Layout([], OneFile(File("codex", Some(Parsed("codex", "mine"))), Scope.User));
            && Scoped(layout) && WellNamedLayout(layout)
            && exists e :: e in Visible(layout, map[], describe) && !Callable(layout, e, describe)
  {
    assert PROFILE_NAMES[5] == "codex";
    var f := File("codex", Some(Parsed("codex", "mine")));
    assert LoadFirst(OneFile(f, Scope.User), "codex").Some?;
    assert |"codex"| == 5 && |"general-purpose"| == 15 && |"explore"| == 7 && |"plan"| == 4;
    var layout := Layout([], OneFile(f, Scope.User));
    assert Clash(layout, "codex");
    WellNamedAgree(layout.home, "codex");
    WellNamedResolves(layout, "codex", describe);
    ListedIsVisible(layout, map[], describe, "codex");
    var e :| e in Visible(layout, map[], describe) && e.name == "codex";
    VisibleIsCallable(layout, map[], describe, e);
  }

  /** Stems matter: a file that calls itself something else is listed under a
      name no search finds. */
  lemma MisnamedIsNotCallable(describe: string -> string, name: string, stem: string)
    requires stem != name && !IsBuiltinName(name)
    ensures var layout := Layout(OneFile(File(stem, Some(Parsed(name, ""))), Project), []);
            && (exists e :: e in Visible(layout, map[], describe) && e.name == name)
            && ByNameInCwd(layout, name, describe).None?
  {
    var f := File(stem, Some(Parsed(name, "")));
    var dirs := OneFile(f, Project);
    var layout := Layout(dirs, []);
    var d := Definition(name, "", Project);
    assert Loaded([f], Project) == [d];
    assert AllLoaded(dirs) == [d];
    assert Listed(layout, name, describe) == Some(d);
    assert Load([f], name, Project) == None by { assert [f][1..] == []; }
    assert LoadFirst(dirs, name) == None by { assert dirs[1..] == []; }
    ListedIsVisible(layout, map[], describe, name);
  }
}
