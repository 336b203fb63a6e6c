/** Facts about sequences that several components share: regrouping, flattening,
    sums, and permutations. */
module Sequences {

  lemma Assoc<T>(x: seq<T>, y: seq<T>, z: seq<T>)
    ensures x + y + z == x + (y + z)
  {
  }

  function Flatten<T>(parts: seq<seq<T>>): seq<T> {
    if parts == [] then [] else parts[0] + Flatten(parts[1..])
  }

  lemma {:induction false} FlattenConcat<T>(x: seq<seq<T>>, y: seq<seq<T>>)
    ensures Flatten(x + y) == Flatten(x) + Flatten(y)
  {
    if x == [] {
      assert x + y == y;
    } else {
      assert (x + y)[1..] == x[1..] + y;
      FlattenConcat(x[1..], y);
      Assoc(x[0], Flatten(x[1..]), Flatten(y));
    }
  }

  // ------------------------------------------------------------ first of a key

  /** Keep the first item of each key that is not among the seen ones. */
  function FirstPerKey<T>(items: seq<T>, key: T -> string, seen: set<string>): seq<T> {
    if items == [] then []
    else if key(items[0]) in seen then FirstPerKey(items[1..], key, seen)
    else [items[0]] + FirstPerKey(items[1..], key, seen + {key(items[0])})
  }

  lemma FirstPerKeyStep<T>(out: seq<T>, x: T, rest: seq<T>, key: T -> string, seen: set<string>)
    ensures out + FirstPerKey([x] + rest, key, seen) ==
            if key(x) in seen then out + FirstPerKey(rest, key, seen)
            else (out + [x]) + FirstPerKey(rest, key, seen + {key(x)})
  {
    assert ([x] + rest)[1..] == rest;
    Assoc(out, [x], FirstPerKey(rest, key, seen + {key(x)}));
  }

  ghost predicate DistinctKeys<T>(items: seq<T>, key: T -> string) {
    forall i, j | 0 <= i < j < |items| :: key(items[i]) != key(items[j])
  }

  lemma {:induction false} FirstPerKeyIsDistinct<T>(items: seq<T>, key: T -> string, seen: set<string>)
    ensures DistinctKeys(FirstPerKey(items, key, seen), key)
    ensures forall x | x in FirstPerKey(items, key, seen) :: key(x) !in seen && x in items
  {
    if items != [] {
      var x := items[0];
      if key(x) in seen {
        FirstPerKeyIsDistinct(items[1..], key, seen);
      } else {
        var rest := FirstPerKey(items[1..], key, seen + {key(x)});
        FirstPerKeyIsDistinct(items[1..], key, seen + {key(x)});
        var all := [x] + rest;
        assert forall i | 0 < i < |all| :: all[i] == rest[i - 1] && rest[i - 1] in rest;
      }
    }
  }

  // --------------------------------------------------------------------- sums

  function Sum<T>(xs: seq<T>, g: T -> nat): nat {
    if xs == [] then 0 else Sum(xs[..|xs| - 1], g) + g(xs[|xs| - 1])
  }

  lemma {:induction false} SumSplit<T>(a: seq<T>, b: seq<T>, g: T -> nat)
    ensures Sum(a + b, g) == Sum(a, g) + Sum(b, g)
  {
    if b == [] {
      assert a + b == a;
    } else {
      var ab := a + b;
      assert ab[..|ab| - 1] == a + b[..|b| - 1];
      SumSplit(a, b[..|b| - 1], g);
    }
  }

  lemma SumOne<T>(x: T, g: T -> nat)
    ensures Sum([x], g) == g(x)
  {
    assert [x][..0] == [];
  }

  lemma SumCons<T>(xs: seq<T>, g: T -> nat)
    requires xs != []
    ensures Sum(xs, g) == g(xs[0]) + Sum(xs[1..], g)
  {
    assert xs == [xs[0]] + xs[1..];
    SumSplit([xs[0]], xs[1..], g);
    SumOne(xs[0], g);
  }

  lemma {:induction false} SumAtMost<T>(xs: seq<T>, g: T -> nat, h: T -> nat)
    requires forall i | 0 <= i < |xs| :: g(xs[i]) <= h(xs[i])
    ensures Sum(xs, g) <= Sum(xs, h)
  {
    if xs != [] { SumAtMost(xs[..|xs| - 1], g, h); }
  }

  lemma {:induction false} SumIsZero<T>(xs: seq<T>, g: T -> nat)
    requires forall i | 0 <= i < |xs| :: g(xs[i]) == 0
    ensures Sum(xs, g) == 0
  {
    if xs != [] { SumIsZero(xs[..|xs| - 1], g); }
  }

  lemma SumAround<T>(a: seq<T>, x: T, b: seq<T>, g: T -> nat)
    ensures Sum(a + ([x] + b), g) == Sum(a + b, g) + g(x)
  {
    SumSplit(a, [x] + b, g);
    SumSplit([x], b, g);
    SumOne(x, g);
    SumSplit(a, b, g);
  }

  // ------------------------------------------------------------- permutations

  function Without<T>(s: seq<T>, i: nat): seq<T>
    requires i < |s|
  {
    s[..i] + s[i + 1..]
  }

  lemma Removed<T>(s: seq<T>, i: nat)
    requires i < |s|
    ensures multiset(s) == multiset(Without(s, i)) + multiset{s[i]}
    ensures s == s[..i] + ([s[i]] + s[i + 1..])
  {
    assert s == s[..i] + [s[i]] + s[i + 1..];
  }

  lemma Snoc<T>(a: seq<T>)
    requires a != []
    ensures a == a[..|a| - 1] + [a[|a| - 1]]
    ensures multiset(a) == multiset(a[..|a| - 1]) + multiset{a[|a| - 1]}
  {
    assert a == a[..|a| - 1] + [a[|a| - 1]];
  }

  lemma CancelOne<T>(x: multiset<T>, y: multiset<T>, e: T)
    requires x + multiset{e} == y + multiset{e}
    ensures x == y
  {
    assert x == (x + multiset{e}) - multiset{e};
    assert y == (y + multiset{e}) - multiset{e};
  }

  /** Where the last element of a sequence sits in a permutation of it. */
  lemma Matching<T>(a: seq<T>, b: seq<T>) returns (i: nat)
    requires a != [] && multiset(a) == multiset(b)
    ensures i < |b| && b[i] == a[|a| - 1]
    ensures multiset(a[..|a| - 1]) == multiset(Without(b, i))
  {
    var e := a[|a| - 1];
    Snoc(a);
    assert e in multiset(b);
    i :| 0 <= i < |b| && b[i] == e;
    Removed(b, i);
    CancelOne(multiset(a[..|a| - 1]), multiset(Without(b, i)), e);
  }

  lemma EmptyPermutation<T>(b: seq<T>)
    requires multiset(b) == multiset{}
    ensures b == []
  {
    assert |multiset(b)| == |b|;
  }

  lemma {:induction false} SumIgnoresOrder<T>(a: seq<T>, b: seq<T>, g: T -> nat)
    requires multiset(a) == multiset(b)
    ensures Sum(a, g) == Sum(b, g)
    decreases |a|
  {
    if a == [] {
      EmptyPermutation(b);
    } else {
      var i := Matching(a, b);
      Removed(b, i);
      SumAround(b[..i], b[i], b[i + 1..], g);
      SumIgnoresOrder(a[..|a| - 1], Without(b, i), g);
    }
  }

  // ---------------------------------------------------------------- selections

  /** `kept` is what `s` has, in order, at the positions of `keep` from `lo` to `hi`;
      `at` are these positions. */
  ghost predicate Picks<T>(kept: seq<T>, s: seq<T>, at: seq<nat>, lo: nat, hi: nat, keep: set<nat>) {
    && |at| == |kept| && hi <= |s|
    && (forall i, j | 0 <= i < j < |at| :: at[i] < at[j])
    && (forall i | 0 <= i < |at| :: lo <= at[i] < hi && kept[i] == s[at[i]])
    && (forall i: nat | lo <= i < hi :: i in at <==> i in keep)
  }

  lemma PickNothing<T>(s: seq<T>, hi: nat, keep: set<nat>)
    requires hi <= |s|
    ensures Picks([], s, [], hi, hi, keep)
  {
  }

  /** Two stretches of positions side by side. */
  lemma PickJoin<T>(x: seq<T>, y: seq<T>, s: seq<T>, at: seq<nat>, bt: seq<nat>, lo: nat, mid: nat, hi: nat, keep: set<nat>)
    requires lo <= mid <= hi && Picks(x, s, at, lo, mid, keep) && Picks(y, s, bt, mid, hi, keep)
    ensures Picks(x + y, s, at + bt, lo, hi, keep)
  {
    var ct := at + bt;
    forall i: nat | lo <= i < hi ensures i in ct <==> i in keep {
      assert i in ct <==> i in at || i in bt;
    }
  }

  lemma PickOne<T>(s: seq<T>, lo: nat, keep: set<nat>)
    requires lo < |s|
    ensures if lo in keep then Picks([s[lo]], s, [lo], lo, lo + 1, keep) else Picks([], s, [], lo, lo + 1, keep)
  {
    assert lo in [lo];
  }

  /** One position more in front, kept or not. */
  lemma PickFront<T>(kept: seq<T>, s: seq<T>, at: seq<nat>, lo: nat, hi: nat, keep: set<nat>) returns (more: seq<nat>)
    requires lo < hi && Picks(kept, s, at, lo + 1, hi, keep)
    ensures Picks((if lo in keep then [s[lo]] else []) + kept, s, more, lo, hi, keep)
  {
    PickOne(s, lo, keep);
    more := (if lo in keep then [lo] else []) + at;
    if lo in keep {
      PickJoin([s[lo]], kept, s, [lo], at, lo, lo + 1, hi, keep);
    } else {
      PickJoin([], kept, s, [], at, lo, lo + 1, hi, keep);
    }
  }

  function Positions(at: seq<nat>): (r: set<nat>)
    ensures forall i :: i in r <==> i in at
  {
    if at == [] then {} else Positions(at[1..]) + {at[0]}
  }

  lemma {:induction false} AscendingSize(at: seq<nat>)
    requires forall i, j | 0 <= i < j < |at| :: at[i] < at[j]
    ensures |Positions(at)| == |at|
  {
    if at != [] {
      AscendingSize(at[1..]);
      assert at[0] !in at[1..];
    }
  }

  /** As many are kept as there are positions to keep. */
  lemma PicksSize<T>(kept: seq<T>, s: seq<T>, at: seq<nat>, keep: set<nat>)
    requires Picks(kept, s, at, 0, |s|, keep) && forall i | i in keep :: i < |s|
    ensures |kept| == |keep|
  {
    AscendingSize(at);
    assert Positions(at) == keep;
  }

  /** The positions of a sequence of length `n`. */
  function Upto(n: nat): (r: set<nat>)
    ensures |r| == n && forall i: nat :: i in r <==> i < n
  {
    if n == 0 then {} else Upto(n - 1) + {n - 1}
  }

  // ------------------------------------------------- the first of a key, by position

  function KeysUpto<T>(items: seq<T>, key: T -> string, j: nat): (r: set<string>)
    requires j <= |items|
    ensures forall k :: k in r <==> exists i | 0 <= i < j :: key(items[i]) == k
  {
    if j == 0 then {} else KeysUpto(items, key, j - 1) + {key(items[j - 1])}
  }

  /** The positions whose key has not come before. */
  ghost function FirstPositions<T>(items: seq<T>, key: T -> string): set<nat> {
    set i: nat | i < |items| && forall j | 0 <= j < i :: key(items[j]) != key(items[i])
  }

  lemma {:induction false} FirstPerKeyFrom<T>(items: seq<T>, key: T -> string, j: nat) returns (at: seq<nat>)
    requires j <= |items|
    ensures Picks(FirstPerKey(items[j..], key, KeysUpto(items, key, j)), items, at, j, |items|, FirstPositions(items, key))
    decreases |items| - j
  {
    var keep, seen := FirstPositions(items, key), KeysUpto(items, key, j);
    if j == |items| {
      at := [];
      PickNothing(items, j, keep);
    } else {
      var a := FirstPerKeyFrom(items, key, j + 1);
      at := PickFront(FirstPerKey(items[j + 1..], key, KeysUpto(items, key, j + 1)), items, a, j, |items|, keep);
      assert items[j..][0] == items[j] && items[j..][1..] == items[j + 1..];
      FirstPosition(items, key, j);
    }
  }

  lemma FirstPosition<T>(items: seq<T>, key: T -> string, j: nat)
    requires j < |items|
    ensures j in FirstPositions(items, key) <==> key(items[j]) !in KeysUpto(items, key, j)
    ensures key(items[j]) in KeysUpto(items, key, j) ==> KeysUpto(items, key, j + 1) == KeysUpto(items, key, j)
  {
  }

  /** What is kept is, in order, exactly what is the first of its key. */
  lemma FirstPerKeyPicks<T>(items: seq<T>, key: T -> string) returns (at: seq<nat>)
    ensures Picks(FirstPerKey(items, key, {}), items, at, 0, |items|, FirstPositions(items, key))
  {
    at := FirstPerKeyFrom(items, key, 0);
    assert items[0..] == items;
  }
}
