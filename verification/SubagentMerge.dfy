/** Subagent definitions: how the visible list is merged and how a name is
    resolved when a subagent is spawned. */
module SubagentMerge {
  import opened Conversation

  datatype Scope = Project | User | Bundled | BuiltIn

  datatype Definition = Definition(name: string, description: string, scope: Scope)

  const SUBAGENT_VARIANTS: seq<string> := ["general-purpose", "explore", "plan"]

  /** The other built-in agents: resolvable by name, not advertised. */
  const PROFILE_NAMES: seq<string> := [
    "ccode-build", "ccode-build-concise", "ccode-build-plan", "ccode-build-plan-no-subagents",
    "ccode-build-ask-user", "codex", "opencode", "browser-use", "ccode-build-orchestrator"]

  predicate IsSubagentBuiltin(name: string) { name in SUBAGENT_VARIANTS }

  predicate IsBuiltinName(name: string) { name in SUBAGENT_VARIANTS || name in PROFILE_NAMES }

  datatype Source = Builtin | UserDefined(scope: Scope)

  datatype Entry = Entry(name: string, description: string, source: Source, shadowsBuiltin: bool)

  function Priority(scope: Scope): nat {
    match scope
    case Project => 3
    case User => 2
    case Bundled => 1
    case BuiltIn => 0
  }

  function SeedEntry(name: string, describe: string -> string): Entry {
    Entry(name, describe(name), Builtin, false)
  }

  /** The three built-in subagents; `describe` gives the built-in descriptions. */
  function Seeds(describe: string -> string): seq<Entry> {
    seq(|SUBAGENT_VARIANTS|, i requires 0 <= i < |SUBAGENT_VARIANTS| => SeedEntry(SUBAGENT_VARIANTS[i], describe))
  }

  /** The definitions the merge takes into account. */
  predicate Eligible(d: Definition) {
    d.scope != BuiltIn && (IsSubagentBuiltin(d.name) ==> d.scope == Project)
  }

  function Position(entries: seq<Entry>, name: string): (r: Option<nat>)
    ensures r.Some? ==> r.value < |entries| && entries[r.value].name == name
  {
    if entries == [] then None
    else if entries[0].name == name then Some(0)
    else match Position(entries[1..], name) case Some(i) => Some(i + 1) case None => None
  }

  predicate ShouldReplace(source: Source, scope: Scope) {
    source.Builtin? || Priority(scope) > Priority(source.scope)
  }

  function FromDefinition(d: Definition, shadows: bool): Entry {
    Entry(d.name, d.description, UserDefined(d.scope), shadows)
  }

  function Place(entries: seq<Entry>, d: Definition): seq<Entry> {
    if !Eligible(d) then entries
    else match Position(entries, d.name)
      case Some(pos) =>
        if ShouldReplace(entries[pos].source, d.scope) then entries[pos := FromDefinition(d, IsSubagentBuiltin(d.name))]
        else entries
      case None => entries + [FromDefinition(d, false)]
  }

  function PlaceAll(entries: seq<Entry>, defs: seq<Definition>): seq<Entry> {
    if defs == [] then entries else Place(PlaceAll(entries, defs[..|defs| - 1]), defs[|defs| - 1])
  }

  predicate Enabled(toggle: map<string, bool>, name: string) {
    name in toggle ==> toggle[name]
  }

  function Shown(entries: seq<Entry>, toggle: map<string, bool>): seq<Entry> {
    if entries == [] then []
    else Shown(entries[..|entries| - 1], toggle) +
         if Enabled(toggle, entries[|entries| - 1].name) then [entries[|entries| - 1]] else []
  }

  /** The merge: slots of the vector are replaced, new names appended. */
  method MergeSubagents(defs: seq<Definition>, toggle: map<string, bool>, describe: string -> string)
    returns (shown: seq<Entry>)
    ensures shown == Shown(PlaceAll(Seeds(describe), defs), toggle)
  {
    var entries := Seeds(describe);
    for i := 0 to |defs|
      invariant entries == PlaceAll(Seeds(describe), defs[..i])
    {
      assert defs[..i + 1][..i] == defs[..i];
      var d := defs[i];
      if d.scope == BuiltIn {
        continue;
      }
      var isBuiltinName := IsSubagentBuiltin(d.name);
      if isBuiltinName && d.scope != Project {
        continue;
      }
      var pos := Position(entries, d.name);
      if pos.Some? {
        if ShouldReplace(entries[pos.value].source, d.scope) {
          entries := entries[pos.value := FromDefinition(d, isBuiltinName)];
        }
      } else {
        entries := entries + [FromDefinition(d, false)];
      }
    }
    assert defs[..|defs|] == defs;
    shown := [];
    for i := 0 to |entries|
      invariant shown == Shown(entries[..i], toggle)
    {
      assert entries[..i + 1][..i] == entries[..i];
      if Enabled(toggle, entries[i].name) {
        shown := shown + [entries[i]];
      }
    }
    assert entries[..|entries|] == entries;
  }

  // -------------------------------------------------- the entry under a name

  function Lookup(entries: seq<Entry>, name: string): Option<Entry> {
    match Position(entries, name) case Some(i) => Some(entries[i]) case None => None
  }

  ghost predicate DistinctNames(entries: seq<Entry>) {
    forall i, j | 0 <= i < j < |entries| :: entries[i].name != entries[j].name
  }

  lemma {:induction false} PositionIsFirst(entries: seq<Entry>, name: string)
    ensures match Position(entries, name)
            case Some(i) => forall j | 0 <= j < i :: entries[j].name != name
            case None => forall j | 0 <= j < |entries| :: entries[j].name != name
  {
    if entries != [] && entries[0].name != name {
      PositionIsFirst(entries[1..], name);
      assert forall j | 0 < j < |entries| :: entries[j] == entries[1..][j - 1];
    }
  }

  lemma PositionAt(entries: seq<Entry>, name: string, i: nat)
    requires i < |entries| && entries[i].name == name && forall j | 0 <= j < i :: entries[j].name != name
    ensures Position(entries, name) == Some(i)
  {
    PositionIsFirst(entries, name);
  }

  lemma LookupAppend(entries: seq<Entry>, e: Entry, name: string)
    requires Position(entries, e.name).None?
    ensures Lookup(entries + [e], name) == if name == e.name then Some(e) else Lookup(entries, name)
  {
    var all := entries + [e];
    PositionIsFirst(entries, name);
    PositionIsFirst(all, name);
    if name == e.name {
      assert all[|entries|] == e;
    } else if Position(entries, name).Some? {
      PositionAt(all, name, Position(entries, name).value);
    }
  }

  lemma LookupUpdate(entries: seq<Entry>, e: Entry, name: string)
    requires Position(entries, e.name).Some?
    ensures Lookup(entries[Position(entries, e.name).value := e], name) ==
            if name == e.name then Some(e) else Lookup(entries, name)
  {
    var pos := Position(entries, e.name).value;
    var all := entries[pos := e];
    PositionIsFirst(entries, e.name);
    PositionIsFirst(entries, name);
    PositionIsFirst(all, name);
    if name == e.name {
      PositionAt(all, name, pos);
    } else if Position(entries, name).Some? {
      PositionAt(all, name, Position(entries, name).value);
    }
  }

  /** What placing a definition does to the entry of its name. */
  function Updated(current: Option<Entry>, d: Definition): Option<Entry> {
    if !Eligible(d) then current
    else match current
      case Some(e) => if ShouldReplace(e.source, d.scope) then Some(FromDefinition(d, IsSubagentBuiltin(d.name))) else current
      case None => Some(FromDefinition(d, false))
  }

  lemma PlaceLookup(entries: seq<Entry>, d: Definition, name: string)
    ensures Lookup(Place(entries, d), name) ==
            if name == d.name then Updated(Lookup(entries, name), d) else Lookup(entries, name)
  {
    if Eligible(d) {
      if Position(entries, d.name).Some? {
        LookupUpdate(entries, FromDefinition(d, IsSubagentBuiltin(d.name)), name);
      } else {
        LookupAppend(entries, FromDefinition(d, false), name);
      }
    }
  }

  lemma PlaceKeepsDistinct(entries: seq<Entry>, d: Definition)
    requires DistinctNames(entries)
    ensures DistinctNames(Place(entries, d))
  {
    PositionIsFirst(entries, d.name);
  }

  lemma {:induction false} PlaceAllKeepsDistinct(entries: seq<Entry>, defs: seq<Definition>)
    requires DistinctNames(entries)
    ensures DistinctNames(PlaceAll(entries, defs))
  {
    if defs != [] {
      PlaceAllKeepsDistinct(entries, defs[..|defs| - 1]);
      PlaceKeepsDistinct(PlaceAll(entries, defs[..|defs| - 1]), defs[|defs| - 1]);
    }
  }

  lemma SeedsAreDistinct(describe: string -> string)
    ensures DistinctNames(Seeds(describe))
  {
    assert SUBAGENT_VARIANTS[0][0] == 'g' && SUBAGENT_VARIANTS[1][0] == 'e' && SUBAGENT_VARIANTS[2][0] == 'p';
  }

  lemma SeedLookup(name: string, describe: string -> string)
    ensures Lookup(Seeds(describe), name) ==
            if IsSubagentBuiltin(name) then Some(SeedEntry(name, describe)) else None
  {
    var seeds := Seeds(describe);
    PositionIsFirst(seeds, name);
    if IsSubagentBuiltin(name) {
      var i :| 0 <= i < |SUBAGENT_VARIANTS| && SUBAGENT_VARIANTS[i] == name;
      assert seeds[i].name == name;
    }
  }

  // ----------------------------------------------------------- highest scope

  /** `defs[i]` is the first eligible definition of the highest scope for `name`. */
  ghost predicate Wins(defs: seq<Definition>, name: string, i: int) {
    && 0 <= i < |defs| && defs[i].name == name && Eligible(defs[i])
    && forall j | 0 <= j < |defs| && defs[j].name == name && Eligible(defs[j]) ::
         Priority(defs[j].scope) <= Priority(defs[i].scope) && (j < i ==> Priority(defs[j].scope) < Priority(defs[i].scope))
  }

  ghost predicate NoneEligible(defs: seq<Definition>, name: string) {
    forall j | 0 <= j < |defs| && defs[j].name == name :: !Eligible(defs[j])
  }

  /** The entry that `defs[i]` leaves. */
  predicate Shows(e: Entry, d: Definition) {
    e == FromDefinition(d, IsSubagentBuiltin(d.name))
  }

  /** What the merged list holds under a name: the first definition of highest
      scope, else the built-in, else nothing. */
  ghost predicate Merged(defs: seq<Definition>, name: string, e: Option<Entry>, describe: string -> string) {
    || (exists i :: Wins(defs, name, i) && e.Some? && Shows(e.value, defs[i]))
    || (NoneEligible(defs, name) && e == if IsSubagentBuiltin(name) then Some(SeedEntry(name, describe)) else None)
  }

  lemma WinsKept(init: seq<Definition>, d: Definition, name: string, i: nat)
    requires Wins(init, name, i)
    requires d.name != name || !Eligible(d) || Priority(d.scope) <= Priority(init[i].scope)
    ensures Wins(init + [d], name, i)
  {
    var defs := init + [d];
    forall j | 0 <= j < |defs| && defs[j].name == name && Eligible(defs[j])
      ensures Priority(defs[j].scope) <= Priority(defs[i].scope) && (j < i ==> Priority(defs[j].scope) < Priority(defs[i].scope))
    {
      if j < |init| { assert init[j] == defs[j]; }
    }
  }

  lemma WinsTaken(init: seq<Definition>, d: Definition, name: string)
    requires d.name == name && Eligible(d)
    requires NoneEligible(init, name) || exists i :: Wins(init, name, i) && Priority(d.scope) > Priority(init[i].scope)
    ensures Wins(init + [d], name, |init|)
  {
    var defs := init + [d];
    forall j | 0 <= j < |init| && defs[j].name == name && Eligible(defs[j])
      ensures Priority(defs[j].scope) < Priority(d.scope)
    {
      assert init[j] == defs[j];
    }
  }

  lemma {:induction false} MergedEntry(defs: seq<Definition>, name: string, describe: string -> string)
    ensures Merged(defs, name, Lookup(PlaceAll(Seeds(describe), defs), name), describe)
  {
    if defs == [] {
      SeedLookup(name, describe);
    } else {
      var init, d := defs[..|defs| - 1], defs[|defs| - 1];
      var before := Lookup(PlaceAll(Seeds(describe), init), name);
      MergedEntry(init, name, describe);
      PlaceLookup(PlaceAll(Seeds(describe), init), d, name);
      assert defs == init + [d];
      MergedStep(init, d, name, before, describe);
    }
  }

  lemma MergedStep(init: seq<Definition>, d: Definition, name: string, e: Option<Entry>, describe: string -> string)
    requires Merged(init, name, e, describe)
    ensures Merged(init + [d], name, if name == d.name then Updated(e, d) else e, describe)
  {
    if i :| Wins(init, name, i) && e.Some? && Shows(e.value, init[i]) {
      if d.name == name && Eligible(d) && Priority(d.scope) > Priority(init[i].scope) {
        WinsTaken(init, d, name);
      } else {
        WinsKept(init, d, name, i);
      }
    } else if d.name == name && Eligible(d) {
      WinsTaken(init, d, name);
    }
  }

  /** Project before user before bundled. */
  predicate Outranks(s: Scope, t: Scope) {
    match s
    case Project => t != Project
    case User => t == Bundled || t == BuiltIn
    case Bundled => t == BuiltIn
    case BuiltIn => false
  }

  /** A definition takes part: not a built-in one, and for the name of a built-in subagent
      only from the project. */
  predicate TakesPart(d: Definition) {
    d.scope != BuiltIn && (d.name in SUBAGENT_VARIANTS ==> d.scope == Project)
  }

  /** Main result: the merged list shows the first definition of the highest scope that
      has one, marked when it stands for a built-in subagent. */
  lemma HighestScopeIsShown(defs: seq<Definition>, describe: string -> string, i: nat)
    requires i < |defs| && TakesPart(defs[i])
    requires forall j | 0 <= j < |defs| && defs[j].name == defs[i].name && TakesPart(defs[j]) ::
               !Outranks(defs[j].scope, defs[i].scope) && (j < i ==> defs[j].scope != defs[i].scope)
    ensures Lookup(PlaceAll(Seeds(describe), defs), defs[i].name)
         == Some(Entry(defs[i].name, defs[i].description, UserDefined(defs[i].scope), defs[i].name in SUBAGENT_VARIANTS))
  {
    var name := defs[i].name;
    MergedEntry(defs, name, describe);
    assert Wins(defs, name, i);
    assert !NoneEligible(defs, name);
    var e := Lookup(PlaceAll(Seeds(describe), defs), name);
    var k :| Wins(defs, name, k) && e.Some? && Shows(e.value, defs[k]);
    assert k == i;
  }

  /** Where no definition takes part, a built-in subagent is shown as it comes, and no
      other name at all. */
  lemma BuiltinIsShown(defs: seq<Definition>, name: string, describe: string -> string)
    requires forall j | 0 <= j < |defs| && defs[j].name == name :: !TakesPart(defs[j])
    ensures Lookup(PlaceAll(Seeds(describe), defs), name)
         == if name in SUBAGENT_VARIANTS then Some(Entry(name, describe(name), Builtin, false)) else None
  {
    MergedEntry(defs, name, describe);
    assert NoneEligible(defs, name);
  }
}
