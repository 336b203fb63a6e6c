/** Campaign overlays: priority between sources, dismissal, and what the final
    configuration holds at a path. */
module Campaigns {
  import opened Sequences
  import opened ConfigOverlay

  datatype Entry = Entry(id: string, patch: map<string, Value>)

  const PATCH_STRIP_KEYS: seq<string> := ["version_overrides", "campaigns", "auth_provider", "model_providers"]

  // ------------------------------------------------------ priority by source

  function IdOf(e: Entry): string { e.id }

  function FirstWins(entries: seq<Entry>, seen: set<string>): seq<Entry> {
    FirstPerKey(entries, IdOf, seen)
  }

  function MergedEntries(sources: seq<seq<Entry>>): seq<Entry> {
    FirstWins(Flatten(sources), {})
  }

  function Active(entries: seq<Entry>, dismissed: set<string>): seq<Entry> {
    if entries == [] then []
    else (if entries[0].id in dismissed then [] else [entries[0]]) + Active(entries[1..], dismissed)
  }

  method MergeCampaignEntries(sources: seq<seq<Entry>>) returns (out: seq<Entry>)
    ensures out == MergedEntries(sources)
  {
    var seen: set<string> := {};
    out := [];
    var i := 0;
    while i < |sources|
      invariant 0 <= i <= |sources|
      invariant out + FirstWins(Flatten(sources[i..]), seen) == MergedEntries(sources)
    {
      var source := sources[i];
      var j := 0;
      assert sources[i..][1..] == sources[i + 1..];
      assert source[0..] + Flatten(sources[i + 1..]) == Flatten(sources[i..]);
      while j < |source|
        invariant 0 <= j <= |source|
        invariant out + FirstWins(source[j..] + Flatten(sources[i + 1..]), seen) == MergedEntries(sources)
      {
        ghost var rest := source[j + 1..] + Flatten(sources[i + 1..]);
        NextEntry(out, source, j, Flatten(sources[i + 1..]), seen);
        if source[j].id !in seen {
          seen := seen + {source[j].id};
          out := out + [source[j]];
        }
        j := j + 1;
      }
      assert source[j..] + Flatten(sources[i + 1..]) == Flatten(sources[i + 1..]);
      i := i + 1;
    }
  }

  lemma NextEntry(out: seq<Entry>, source: seq<Entry>, j: nat, later: seq<Entry>, seen: set<string>)
    requires j < |source|
    ensures out + FirstWins(source[j..] + later, seen)
         == if source[j].id in seen then out + FirstWins(source[j + 1..] + later, seen)
            else (out + [source[j]]) + FirstWins(source[j + 1..] + later, seen + {source[j].id})
  {
    assert source[j..] + later == [source[j]] + (source[j + 1..] + later);
    FirstPerKeyStep(out, source[j], source[j + 1..] + later, IdOf, seen);
  }

  /** The first entry of an id is in the list before any other of that id. */
  ghost predicate IsFirst(entries: seq<Entry>, i: nat) {
    i < |entries| && forall j | 0 <= j < i :: entries[j].id != entries[i].id
  }

  /** The entry kept for an id is its first one. */
  lemma {:induction false} FirstIsKept(entries: seq<Entry>, seen: set<string>, i: nat)
    requires IsFirst(entries, i) && entries[i].id !in seen
    ensures entries[i] in FirstWins(entries, seen)
  {
    if i > 0 {
      var more := if entries[0].id in seen then seen else seen + {entries[0].id};
      assert forall j | 0 <= j < i - 1 :: entries[1..][j] == entries[j + 1];
      FirstIsKept(entries[1..], more, i - 1);
    }
  }

  lemma {:induction false} ActiveConcat(x: seq<Entry>, y: seq<Entry>, dismissed: set<string>)
    ensures Active(x + y, dismissed) == Active(x, dismissed) + Active(y, dismissed)
  {
    if x == [] {
      assert x + y == y;
    } else {
      assert (x + y)[1..] == x[1..] + y;
      ActiveConcat(x[1..], y, dismissed);
    }
  }

  lemma {:induction false} FirstWinsCommutes(entries: seq<Entry>, dismissed: set<string>, seen: set<string>, seen': set<string>)
    requires seen - dismissed == seen' - dismissed
    ensures Active(FirstWins(entries, seen), dismissed) == FirstWins(Active(entries, dismissed), seen')
  {
    if entries != [] {
      var e, rest := entries[0], entries[1..];
      if e.id in dismissed {
        assert Active(entries, dismissed) == Active(rest, dismissed);
        if e.id in seen {
          FirstWinsCommutes(rest, dismissed, seen, seen');
        } else {
          FirstWinsCommutes(rest, dismissed, seen + {e.id}, seen');
          var all := [e] + FirstWins(rest, seen + {e.id});
          assert all[1..] == FirstWins(rest, seen + {e.id});
        }
      } else {
        var a := [e] + Active(rest, dismissed);
        assert Active(entries, dismissed) == a && a[1..] == Active(rest, dismissed);
        assert e.id in seen <==> e.id in seen - dismissed;
        assert e.id in seen' <==> e.id in seen' - dismissed;
        if e.id in seen {
          FirstWinsCommutes(rest, dismissed, seen, seen');
        } else {
          assert (seen + {e.id}) - dismissed == (seen - dismissed) + {e.id};
          assert (seen' + {e.id}) - dismissed == (seen' - dismissed) + {e.id};
          FirstWinsCommutes(rest, dismissed, seen + {e.id}, seen' + {e.id});
          var all := [e] + FirstWins(rest, seen + {e.id});
          assert all[1..] == FirstWins(rest, seen + {e.id});
        }
      }
    }
  }

  function ActiveEach(sources: seq<seq<Entry>>, dismissed: set<string>): seq<seq<Entry>> {
    if sources == [] then [] else [Active(sources[0], dismissed)] + ActiveEach(sources[1..], dismissed)
  }

  lemma {:induction false} FlattenActive(sources: seq<seq<Entry>>, dismissed: set<string>)
    ensures Active(Flatten(sources), dismissed) == Flatten(ActiveEach(sources, dismissed))
  {
    if sources != [] {
      FlattenActive(sources[1..], dismissed);
      ActiveConcat(sources[0], Flatten(sources[1..]), dismissed);
      var each := [Active(sources[0], dismissed)] + ActiveEach(sources[1..], dismissed);
      assert each[1..] == ActiveEach(sources[1..], dismissed);
    }
  }

  /** For any number of sources: merged ids are distinct, an entry is kept when it
      is the first of its id in priority order, nothing is invented, and dismissing
      after the merge is dismissing in each source. */
  lemma MergeLaws(sources: seq<seq<Entry>>, dismissed: set<string>)
    ensures DistinctKeys(MergedEntries(sources), IdOf)
    ensures forall e | e in MergedEntries(sources) :: e in Flatten(sources)
    ensures forall i: nat | IsFirst(Flatten(sources), i) :: Flatten(sources)[i] in MergedEntries(sources)
    ensures Active(MergedEntries(sources), dismissed) == MergedEntries(ActiveEach(sources, dismissed))
  {
    var flat := Flatten(sources);
    FirstPerKeyIsDistinct(flat, IdOf, {});
    forall i: nat | IsFirst(flat, i) ensures flat[i] in MergedEntries(sources) { FirstIsKept(flat, {}, i); }
    FirstWinsCommutes(Flatten(sources), dismissed, {}, {});
    FlattenActive(sources, dismissed);
  }

  /** The merged list is, in priority order, exactly the first entry of each id. */
  lemma MergedInOrder(sources: seq<seq<Entry>>) returns (at: seq<nat>)
    ensures Picks(MergedEntries(sources), Flatten(sources), at, 0, |Flatten(sources)|, FirstPositions(Flatten(sources), IdOf))
  {
    at := FirstPerKeyPicks(Flatten(sources), IdOf);
  }

  // ------------------------------------------------------------- the overlay

  function Patch(e: Entry, strip: set<string>): Value {
    Table(e.patch - strip)
  }

  /** The highest priority comes first in `active`, so it is merged last. */
  function Overlay(base: Value, active: seq<Entry>, strip: set<string>): Value {
    if active == [] then base else Merge(Overlay(base, active[1..], strip), Patch(active[0], strip))
  }

  method ApplyActiveCampaignPatches(effective: Value, active: seq<Entry>) returns (r: Value)
    ensures r == Overlay(effective, active, set k | k in PATCH_STRIP_KEYS)
  {
    ghost var strip := set k | k in PATCH_STRIP_KEYS;
    r := effective;
    var i := |active|;
    while i > 0
      invariant 0 <= i <= |active|
      invariant r == Overlay(effective, active[i..], strip)
    {
      i := i - 1;
      assert active[i..][1..] == active[i + 1..];
      ghost var before := r;
      r := ApplyPatches(r, [active[i].patch], PATCH_STRIP_KEYS);
      assert [active[i].patch][1..] == [];
    }
    assert active[0..] == active;
  }

  /** Ids of the entries that touch one of the paths. */
  function IdsTouching(active: seq<Entry>, paths: seq<Path>): seq<string> {
    if active == [] then []
    else (if TouchesAny(active[0].patch, paths) then [active[0].id] else []) + IdsTouching(active[1..], paths)
  }

  predicate TouchesAny(patch: map<string, Value>, paths: seq<Path>) {
    exists p | p in paths :: PatchTouches(patch, p)
  }

  lemma StrippedTouchesLess(e: Entry, strip: set<string>, path: Path)
    requires path != []
    ensures Touches(Patch(e, strip), path) <==> PatchTouches(e.patch, path) && path[0] !in strip
    ensures path[0] !in strip ==> Lookup(Patch(e, strip), path) == Lookup(Table(e.patch), path)
  {
  }

  /** Entries that do not touch a path leave it as the base has it. */
  lemma {:induction false} UntouchedKeepsBase(base: Value, active: seq<Entry>, strip: set<string>, path: Path)
    requires path != []
    requires forall i | 0 <= i < |active| :: path[0] in strip || !PatchTouches(active[i].patch, path)
    ensures Lookup(Overlay(base, active, strip), path) == Lookup(base, path)
  {
    if active != [] {
      UntouchedKeepsBase(base, active[1..], strip, path);
      StrippedTouchesLess(active[0], strip, path);
      LookupMerge(Overlay(base, active[1..], strip), Patch(active[0], strip), path);
    }
  }

  lemma {:induction false} DismissedDoNotTouch(active: seq<Entry>, all: seq<Entry>, paths: seq<Path>, dismissed: set<string>)
    requires forall e | e in active :: e in all
    requires forall id | id in IdsTouching(all, paths) :: id in dismissed
    ensures forall i | 0 <= i < |Active(active, dismissed)| :: !TouchesAny(Active(active, dismissed)[i].patch, paths)
  {
    if active != [] {
      DismissedDoNotTouch(active[1..], all, paths, dismissed);
      var e := active[0];
      if TouchesAny(e.patch, paths) { TouchingIsListed(all, paths, e); }
    }
  }

  lemma {:induction false} TouchingIsListed(all: seq<Entry>, paths: seq<Path>, e: Entry)
    requires e in all && TouchesAny(e.patch, paths)
    ensures e.id in IdsTouching(all, paths)
  {
    if e != all[0] { TouchingIsListed(all[1..], paths, e); }
  }

  /** Main result: once the ids touching some paths are dismissed, the base value
      is back at each of these paths, whatever the other campaigns do. */
  lemma DismissalRestores(base: Value, active: seq<Entry>, paths: seq<Path>, dismissed: set<string>, strip: set<string>, path: Path)
    requires path in paths && path != []
    requires forall id | id in IdsTouching(active, paths) :: id in dismissed
    ensures Lookup(Overlay(base, Active(active, dismissed), strip), path) == Lookup(base, path)
  {
    DismissedDoNotTouch(active, active, paths, dismissed);
    UntouchedKeepsBase(base, Active(active, dismissed), strip, path);
  }

  /** No campaign reaches a path below a stripped key. */
  lemma StrippedKeysAreSafe(base: Value, active: seq<Entry>, strip: set<string>, path: Path)
    requires path != [] && path[0] in strip
    ensures Lookup(Overlay(base, active, strip), path) == Lookup(base, path)
  {
    UntouchedKeepsBase(base, active, strip, path);
  }

  /** Main result: at a path outside the stripped keys the first entry that
      touches it decides, when it does not leave a table there. */
  lemma {:induction false} HighestPriorityWins(base: Value, active: seq<Entry>, strip: set<string>, path: Path, i: nat)
    requires path != [] && path[0] !in strip && i < |active|
    requires PatchTouches(active[i].patch, path)
    requires forall j | 0 <= j < i :: !PatchTouches(active[j].patch, path)
    requires var v := Lookup(Table(active[i].patch), path); v.None? || v.value.Leaf?
    ensures Lookup(Overlay(base, active, strip), path) == Lookup(Table(active[i].patch), path)
  {
    StrippedTouchesLess(active[0], strip, path);
    LookupMerge(Overlay(base, active[1..], strip), Patch(active[0], strip), path);
    if i > 0 {
      HighestPriorityWins(base, active[1..], strip, path, i - 1);
    }
  }

  // ------------------------------------------------- requirements come last

  /** The requirement layers merged on top, in order. */
  function Reapply(config: Value, requirements: seq<Value>): Value
    decreases |requirements|
  {
    if requirements == [] then config else Reapply(Merge(config, requirements[0]), requirements[1..])
  }

  lemma {:induction false} ReapplyDependsOnLookup(a: Value, b: Value, requirements: seq<Value>, path: Path)
    requires Lookup(a, path) == Lookup(b, path)
    ensures Lookup(Reapply(a, requirements), path) == Lookup(Reapply(b, requirements), path)
    decreases |requirements|
  {
    if requirements != [] {
      LookupMerge(a, requirements[0], path);
      LookupMerge(b, requirements[0], path);
      ReapplyDependsOnLookup(Merge(a, requirements[0]), Merge(b, requirements[0]), requirements[1..], path);
    }
  }

  /** The value sets a non-table at the path or above it. */
  ghost predicate Pins(v: Value, path: Path) {
    Touches(v, path) && (Lookup(v, path).None? || Lookup(v, path).value.Leaf?)
  }

  /** Main result: a field pinned by any requirement layer ends up the same with
      campaigns as without, whatever the campaigns set. */
  lemma {:induction false} RequirementsBeatCampaigns(base: Value, other: Value, requirements: seq<Value>, path: Path, i: nat)
    requires i < |requirements| && Pins(requirements[i], path)
    ensures Lookup(Reapply(base, requirements), path) == Lookup(Reapply(other, requirements), path)
    decreases |requirements|
  {
    var r, rest := requirements[0], requirements[1..];
    if i == 0 {
      LookupMerge(base, r, path);
      LookupMerge(other, r, path);
      ReapplyDependsOnLookup(Merge(base, r), Merge(other, r), rest, path);
    } else {
      RequirementsBeatCampaigns(Merge(base, r), Merge(other, r), rest, path, i - 1);
    }
  }

  /** Main result: the last requirement layer that touches a path decides it, when it
      pins it, and a path that no layer touches keeps what it had. */
  lemma {:induction false} LastRequirementDecides(config: Value, requirements: seq<Value>, path: Path, n: nat)
    requires n <= |requirements| && (n > 0 ==> Pins(requirements[n - 1], path))
    requires forall j | n <= j < |requirements| :: !Touches(requirements[j], path)
    ensures Lookup(Reapply(config, requirements), path)
         == if n == 0 then Lookup(config, path) else Lookup(requirements[n - 1], path)
    decreases |requirements|
  {
    if requirements != [] {
      var r, rest := requirements[0], requirements[1..];
      LookupMerge(config, r, path);
      LastRequirementDecides(Merge(config, r), rest, path, if n == 0 then 0 else n - 1);
    }
  }
}
