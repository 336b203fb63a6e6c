/** Configuration trees, the deep merge of a patch into one, and which paths a
    patch touches. */
module ConfigOverlay {
  import opened Conversation

  /** Anything that is not a table is replaced whole, so it is a leaf here. */
  datatype Value = Leaf(repr: string) | Table(entries: map<string, Value>)

  type Path = seq<string>

  // ----------------------------------------------------------- definitions

  function Merge(base: Value, over: Value): Value
    decreases over
  {
    if base.Table? && over.Table? then
      Table(map k | k in base.entries.Keys + over.entries.Keys ::
        if k !in over.entries then base.entries[k]
        else if k !in base.entries then over.entries[k]
        else Merge(base.entries[k], over.entries[k]))
    else over
  }

  function Lookup(v: Value, path: Path): Option<Value> {
    if path == [] then Some(v)
    else if v.Table? && path[0] in v.entries then Lookup(v.entries[path[0]], path[1..])
    else None
  }

  /** The value sets something at the path, below it, or a non-table above it. */
  predicate Touches(v: Value, path: Path)
    decreases |path|
  {
    path == [] || v.Leaf? || (path[0] in v.entries && Touches(v.entries[path[0]], path[1..]))
  }

  /** A patch touches no empty path. */
  predicate PatchTouches(patch: map<string, Value>, path: Path) {
    path != [] && Touches(Table(patch), path)
  }

  // --------------------------------------------------------------- methods

  method PatchTouchesPath(patch: map<string, Value>, path: Path) returns (r: bool)
    ensures r <==> PatchTouches(patch, path)
  {
    if path == [] || path[0] !in patch {
      return false;
    }
    var cur := patch[path[0]];
    var i := 1;
    while i < |path|
      invariant 1 <= i <= |path|
      invariant PatchTouches(patch, path) <==> Touches(cur, path[i..])
    {
      assert path[i..][1..] == path[i + 1..];
      match cur {
        case Leaf(_) => return true;
        case Table(entries) =>
          if path[i] !in entries {
            return false;
          }
          cur := entries[path[i]];
      }
      i := i + 1;
    }
    return true;
  }

  /** The recursion in place: insert or merge one key of the overrides after another. */
  method DeepMerge(base: Value, over: Value) returns (r: Value)
    ensures r == Merge(base, over)
    decreases over
  {
    if base.Leaf? || over.Leaf? {
      return over;
    }
    var table := base.entries;
    var keys := over.entries.Keys;
    while keys != {}
      invariant keys <= over.entries.Keys
      invariant table.Keys == base.entries.Keys + (over.entries.Keys - keys)
      invariant forall k | k in table ::
        table[k] == if k in over.entries.Keys - keys then Merge(base, over).entries[k] else base.entries[k]
      decreases keys
    {
      var key :| key in keys;
      if key in table {
        var merged := DeepMerge(table[key], over.entries[key]);
        table := table[key := merged];
      } else {
        table := table[key := over.entries[key]];
      }
      keys := keys - {key};
    }
    r := Table(table);
    assert r.entries == Merge(base, over).entries;
  }

  function ApplyAll(config: Value, patches: seq<map<string, Value>>, strip: set<string>): Value
    decreases |patches|
  {
    if patches == [] then config
    else ApplyAll(Merge(config, Table(patches[0] - strip)), patches[1..], strip)
  }

  method ApplyPatches(config: Value, patches: seq<map<string, Value>>, strip: seq<string>) returns (r: Value)
    ensures r == ApplyAll(config, patches, set k | k in strip)
  {
    r := config;
    var i := 0;
    while i < |patches|
      invariant 0 <= i <= |patches|
      invariant ApplyAll(r, patches[i..], set k | k in strip) == ApplyAll(config, patches, set k | k in strip)
    {
      var patch := patches[i];
      var j := 0;
      while j < |strip|
        invariant 0 <= j <= |strip|
        invariant patch == patches[i] - (set k | k in strip[..j])
      {
        patch := patch - {strip[j]};
        assert strip[..j + 1] == strip[..j] + [strip[j]];
        j := j + 1;
      }
      assert strip[..j] == strip;
      assert patches[i..][1..] == patches[i + 1..];
      r := DeepMerge(r, Table(patch));
      i := i + 1;
    }
  }

  // ------------------------------------------------------------------ laws

  /** A patch after the others is merged on top of them, without its stripped keys. */
  lemma {:induction false} LaterPatchOnTop(config: Value, patches: seq<map<string, Value>>, patch: map<string, Value>, strip: set<string>)
    ensures ApplyAll(config, patches + [patch], strip) == Merge(ApplyAll(config, patches, strip), Table(patch - strip))
    decreases |patches|
  {
    if patches == [] {
      assert [patch][1..] == [] && patches + [patch] == [patch];
    } else {
      assert (patches + [patch])[1..] == patches[1..] + [patch];
      LaterPatchOnTop(Merge(config, Table(patches[0] - strip)), patches[1..], patch, strip);
    }
  }

  lemma {:induction false} UntouchedIsAbsent(v: Value, path: Path)
    requires !Touches(v, path)
    ensures Lookup(v, path) == None
    decreases |path|
  {
    if path[0] in v.entries {
      UntouchedIsAbsent(v.entries[path[0]], path[1..]);
    }
  }

  /** What the merge leaves at a path, from what each side has there. */
  function MergedLookup(base: Option<Value>, over: Value, path: Path): Option<Value> {
    if !Touches(over, path) then base
    else match Lookup(over, path)
      case None => None
      case Some(v) => if base.Some? then Some(Merge(base.value, v)) else Some(v)
  }

  /** Main result: looking up after a merge, for every pair of trees and every
      path, including a table on one side and a scalar on the other. */
  lemma {:induction false} LookupMerge(base: Value, over: Value, path: Path)
    ensures Lookup(Merge(base, over), path) == MergedLookup(Lookup(base, path), over, path)
    decreases |path|
  {
    if path != [] && over.Table? {
      var k := path[0];
      if k in over.entries {
        var o := over.entries[k];
        if base.Table? && k in base.entries {
          LookupMerge(base.entries[k], o, path[1..]);
        } else if !Touches(o, path[1..]) {
          UntouchedIsAbsent(o, path[1..]);
        }
      }
    }
  }

  /** A chain of tables with a leaf at the path. */
  function Chain(path: Path): Value {
    if path == [] then Leaf("") else Table(map[path[0] := Chain(path[1..])])
  }

  lemma {:induction false} ChainHolds(path: Path)
    ensures Lookup(Chain(path), path) == Some(Leaf(""))
  {
    if path != [] { ChainHolds(path[1..]); }
  }

  /** The touch test is exact: a patch touches a path exactly when there is some
      configuration whose value at the path it changes. */
  lemma TouchIsExact(patch: map<string, Value>, path: Path)
    requires path != []
    ensures PatchTouches(patch, path) <==>
            exists base :: Lookup(Merge(base, Table(patch)), path) != Lookup(base, path)
  {
    var p := Table(patch);
    if PatchTouches(patch, path) {
      if Lookup(p, path).Some? {
        var empty := Table(map[]);
        LookupMerge(empty, p, path);
        assert Lookup(Merge(empty, p), path) != Lookup(empty, path);
      } else {
        ChainHolds(path);
        LookupMerge(Chain(path), p, path);
        assert Lookup(Merge(Chain(path), p), path) != Lookup(Chain(path), path);
      }
    } else {
      forall base ensures Lookup(Merge(base, p), path) == Lookup(base, path) {
        LookupMerge(base, p, path);
      }
    }
  }

  /** Applying a patch again changes nothing. */
  lemma {:induction false} MergeTwice(base: Value, over: Value)
    ensures Merge(Merge(base, over), over) == Merge(base, over)
    decreases over
  {
    if over.Table? {
      forall k | k in over.entries ensures Merge(over.entries[k], over.entries[k]) == over.entries[k] {
        MergeSelf(over.entries[k]);
      }
      if base.Table? {
        forall k | k in base.entries && k in over.entries
          ensures Merge(Merge(base.entries[k], over.entries[k]), over.entries[k]) == Merge(base.entries[k], over.entries[k])
        {
          MergeTwice(base.entries[k], over.entries[k]);
        }
        assert Merge(Merge(base, over), over).entries == Merge(base, over).entries;
      } else {
        MergeSelf(over);
      }
    }
  }

  lemma {:induction false} MergeSelf(v: Value)
    ensures Merge(v, v) == v
  {
    if v.Table? {
      forall k | k in v.entries ensures Merge(v.entries[k], v.entries[k]) == v.entries[k] {
        MergeSelf(v.entries[k]);
      }
      assert Merge(v, v).entries == v.entries;
    }
  }

  /** Patches cannot be merged with each other first: a scalar in between hides
      what was below it. */
  lemma MergeIsNotAssociative(x: string, y: string)
    requires x != y
    ensures var a, b, c := Table(map[x := Leaf("")]), Leaf(""), Table(map[y := Leaf("")]);
            Merge(Merge(a, b), c) != Merge(a, Merge(b, c))
  {
    var a, c := Table(map[x := Leaf("")]), Table(map[y := Leaf("")]);
    assert x in Merge(a, c).entries && x !in c.entries;
  }
}
