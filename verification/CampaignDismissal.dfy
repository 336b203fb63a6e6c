/** Which campaigns a setting change dismisses, and that it dismisses no others. */
module CampaignDismissal {
  import opened Sequences
  import opened ConfigOverlay
  import opened Campaigns

  /** The entry changes the value at the path in some configuration. */
  ghost predicate Changes(e: Entry, path: Path) {
    exists base :: Lookup(Merge(base, Table(e.patch)), path) != Lookup(base, path)
  }

  ghost predicate ChangesAny(e: Entry, paths: seq<Path>) {
    exists p | p in paths :: Changes(e, p)
  }

  lemma TouchingIsChanging(e: Entry, paths: seq<Path>)
    requires [] !in paths
    ensures TouchesAny(e.patch, paths) <==> ChangesAny(e, paths)
  {
    forall p | p in paths ensures PatchTouches(e.patch, p) <==> Changes(e, p) {
      TouchIsExact(e.patch, p);
      if PatchTouches(e.patch, p) {
        var base :| Lookup(Merge(base, Table(e.patch)), p) != Lookup(base, p);
        assert Changes(e, p);
      } else if Changes(e, p) {
        var base :| Lookup(Merge(base, Table(e.patch)), p) != Lookup(base, p);
        LookupMerge(base, Table(e.patch), p);
      }
    }
  }

  lemma {:induction false} IdsTouchingConcat(x: seq<Entry>, y: seq<Entry>, paths: seq<Path>)
    ensures IdsTouching(x + y, paths) == IdsTouching(x, paths) + IdsTouching(y, paths)
  {
    if x == [] {
      assert x + y == y;
    } else {
      assert (x + y)[1..] == x[1..] + y;
      IdsTouchingConcat(x[1..], y, paths);
    }
  }

  /** One more entry, at the end: it adds its id exactly when it changes the value at
      one of the paths in some configuration. */
  lemma IdsTouchingNext(active: seq<Entry>, e: Entry, paths: seq<Path>)
    requires [] !in paths
    ensures IdsTouching(active + [e], paths)
         == IdsTouching(active, paths) + (if ChangesAny(e, paths) then [e.id] else [])
  {
    TouchingIsChanging(e, paths);
    IdsTouchingConcat(active, [e], paths);
    assert [e][1..] == [];
  }

  /** Main result: an id is listed exactly when some active entry of that id changes,
      in some configuration, the value at one of the paths. */
  lemma {:induction false} ListedIffChanging(active: seq<Entry>, paths: seq<Path>, id: string)
    requires [] !in paths
    ensures id in IdsTouching(active, paths) <==> exists e | e in active :: e.id == id && ChangesAny(e, paths)
  {
    if active != [] {
      var last := active[|active| - 1];
      assert active == active[..|active| - 1] + [last];
      IdsTouchingNext(active[..|active| - 1], last, paths);
      ListedIffChanging(active[..|active| - 1], paths, id);
    }
  }

  /** Exactly the entries whose id is not dismissed stay. */
  lemma {:induction false} StaysIffNotDismissed(entries: seq<Entry>, dismissed: set<string>, e: Entry)
    ensures e in Active(entries, dismissed) <==> e in entries && e.id !in dismissed
  {
    if entries != [] { StaysIffNotDismissed(entries[1..], dismissed, e); }
  }

  /** Once the listed ids are dismissed, an active entry stays exactly when no entry of
      its id changes one of the paths. */
  lemma OnlyChangingAreDismissed(active: seq<Entry>, paths: seq<Path>, e: Entry)
    requires [] !in paths && e in active
    ensures e in Active(active, set id | id in IdsTouching(active, paths))
       <==> forall f | f in active && f.id == e.id :: !ChangesAny(f, paths)
  {
    ListedIffChanging(active, paths, e.id);
    StaysIffNotDismissed(active, (set id | id in IdsTouching(active, paths)), e);
  }

  lemma OverlayActiveStep(base: Value, e: Entry, rest: seq<Entry>, dismissed: set<string>, strip: set<string>)
    ensures Overlay(base, Active([e] + rest, dismissed), strip)
         == var below := Overlay(base, Active(rest, dismissed), strip);
            if e.id in dismissed then below else Merge(below, Patch(e, strip))
  {
    assert ([e] + rest)[1..] == rest && [] + Active(rest, dismissed) == Active(rest, dismissed);
    if e.id !in dismissed { assert ([e] + Active(rest, dismissed))[1..] == Active(rest, dismissed); }
  }

  /** Main result: dismissal is local. A path that no dismissed entry touches keeps the
      value it had before the dismissal. */
  lemma {:induction false} DismissalIsLocal(base: Value, active: seq<Entry>, dismissed: set<string>, strip: set<string>, path: Path)
    requires path != []
    requires forall i | 0 <= i < |active| && active[i].id in dismissed :: !PatchTouches(active[i].patch, path)
    ensures Lookup(Overlay(base, Active(active, dismissed), strip), path) == Lookup(Overlay(base, active, strip), path)
  {
    if active != [] {
      var e, rest := active[0], active[1..];
      assert active == [e] + rest;
      DismissalIsLocal(base, rest, dismissed, strip, path);
      OverlayActiveStep(base, e, rest, dismissed, strip);
      StrippedTouchesLess(e, strip, path);
      LookupMerge(Overlay(base, rest, strip), Patch(e, strip), path);
      LookupMerge(Overlay(base, Active(rest, dismissed), strip), Patch(e, strip), path);
    }
  }
}
