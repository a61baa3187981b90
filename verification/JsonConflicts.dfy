/** src/migration.rs: what the merge statistics count, told by the paths of the two values. */
module JsonConflicts {
  import opened Text
  import opened Json
  import opened JsonMerge

  type Path = seq<string>

  /** What stands at a path of object keys. */
  function At(v: Value, path: Path): Option<Value>
    decreases |path|
  {
    if path == [] then Some(v)
    else if v.Obj? && path[0] in v.fields then At(v.fields[path[0]], path[1..])
    else None
  }

  /** Two values that cannot be merged: kinds that differ, or scalars that do. */
  predicate Clash(a: Value, b: Value) {
    a != Null && a != b && !(a.Obj? && b.Obj?) && !(a.Arr? && b.Arr?)
  }

  /** At the path both have a value, and the values clash. */
  predicate ClashAt(t: Value, s: Value, path: Path) {
    At(t, path).Some? && At(s, path).Some? && Clash(At(t, path).value, At(s, path).value)
  }

  /** At the path both have an array, and item `i` of the source's is in the target's or stood before. */
  predicate RepeatAt(t: Value, s: Value, path: Path, i: nat) {
    && At(t, path).Some? && At(s, path).Some? && At(t, path).value.Arr? && At(s, path).value.Arr?
    && var mine, theirs := At(t, path).value.items, At(s, path).value.items;
       i < |theirs| && (theirs[i] in mine || theirs[i] in theirs[..i])
  }

  ghost predicate AreClashes(t: Value, s: Value, paths: set<Path>) {
    forall p :: p in paths <==> ClashAt(t, s, p)
  }

  ghost predicate AreRepeats(t: Value, s: Value, repeats: set<(Path, nat)>) {
    forall p, i: nat :: (p, i) in repeats <==> RepeatAt(t, s, p, i)
  }

  // ----- arrays --------------------------------------------------------------------------------------------

  /** Positions of the items that are skipped. */
  lemma {:induction false} SkippedAre(mine: seq<Value>, theirs: seq<Value>) returns (at: set<nat>)
    ensures forall i: nat :: i in at <==> i < |theirs| && (theirs[i] in mine || theirs[i] in theirs[..i])
    ensures |at| == SkippedItems(mine, theirs)
    decreases |theirs|
  {
    if theirs == [] {
      at := {};
    } else {
      var known := theirs[0] in mine;
      var rest := SkippedAre(if known then mine else mine + [theirs[0]], theirs[1..]);
      var later := set i: nat | i in rest :: i + 1;
      ShiftedSize(rest, later);
      at := later + if known then {0} else {};
      forall i: nat ensures i in at <==> i < |theirs| && (theirs[i] in mine || theirs[i] in theirs[..i]) {
        if i > 0 {
          assert i in at <==> (i - 1) in rest;
          if i < |theirs| { PrefixMembers(theirs, i); }
        }
      }
    }
  }

  lemma PrefixMembers(s: seq<Value>, i: nat)
    requires 0 < i < |s|
    ensures s[1..][i - 1] == s[i] && forall v :: v in s[..i] <==> v == s[0] || v in s[1..][..i - 1]
  {
    assert s[..i] == [s[0]] + s[1..][..i - 1];
  }

  lemma {:induction false} ShiftedSize(a: set<nat>, b: set<nat>)
    requires b == set i: nat | i in a :: i + 1
    ensures |a| == |b|
    decreases a
  {
    if a != {} {
      var x :| x in a;
      var c := set i: nat | i in a - {x} :: i + 1;
      assert forall y :: y in b - {x + 1} <==> y in c by {
        forall y | y in b - {x + 1} ensures y in c { var i: nat :| i in a && y == i + 1; assert i in a - {x}; }
      }
      ShiftedSize(a - {x}, b - {x + 1});
    }
  }

  // ----- paths under one key --------------------------------------------------------------------------------

  lemma {:induction false} LiftedSize<T>(a: set<(Path, T)>, k: string, b: set<(Path, T)>)
    requires b == set e: (Path, T) | e in a :: ([k] + e.0, e.1)
    ensures |a| == |b|
    decreases a
  {
    if a != {} {
      var e :| e in a;
      var f := ([k] + e.0, e.1);
      forall g | g in a && g != e ensures ([k] + g.0, g.1) != f {
        assert ([k] + g.0)[1..] == g.0 && ([k] + e.0)[1..] == e.0;
      }
      assert b - {f} == set g: (Path, T) | g in a - {e} :: ([k] + g.0, g.1);
      LiftedSize(a - {e}, k, b - {f});
    }
  }

  lemma Lifted<T>(a: set<(Path, T)>, k: string) returns (b: set<(Path, T)>)
    ensures |b| == |a| && forall p, x :: (p, x) in b <==> p != [] && p[0] == k && (p[1..], x) in a
  {
    b := set e: (Path, T) | e in a :: ([k] + e.0, e.1);
    LiftedSize(a, k, b);
    forall p, x ensures (p, x) in b <==> p != [] && p[0] == k && (p[1..], x) in a {
      if p != [] && p[0] == k && (p[1..], x) in a {
        var e := (p[1..], x);
        assert [k] + e.0 == p;
      }
      if (p, x) in b {
        var e :| e in a && (p, x) == ([k] + e.0, e.1);
        assert p[1..] == e.0;
      }
    }
  }

  lemma DisjointKeys<T>(a: set<(Path, T)>, b: set<(Path, T)>, k: string)
    requires forall p, x :: (p, x) in a ==> p != [] && p[0] != k
    requires forall p, x :: (p, x) in b ==> p != [] && p[0] == k
    ensures a !! b
  {
    forall e | e in a ensures e !in b { assert (e.0, e.1) in a; }
  }

  lemma Joined<T>(a: set<T>, b: set<T>)
    requires a !! b
    ensures |a + b| == |a| + |b|
  {
  }

  // ----- the counts --------------------------------------------------------------------------------------------

  /** Marks with position 0 for clashes. */
  ghost predicate Marks(t: Value, s: Value, clashes: set<(Path, nat)>, repeats: set<(Path, nat)>) {
    && (forall p, i: nat :: (p, i) in clashes <==> i == 0 && ClashAt(t, s, p))
    && (forall p, i: nat :: (p, i) in repeats <==> RepeatAt(t, s, p, i))
  }

  /** The marks whose path starts with one of the keys. */
  ghost predicate MarksUnder(t: Value, s: Value, keys: set<string>, clashes: set<(Path, nat)>,
                             repeats: set<(Path, nat)>) {
    && (forall p, i: nat :: (p, i) in clashes <==> p != [] && p[0] in keys && i == 0 && ClashAt(t, s, p))
    && (forall p, i: nat :: (p, i) in repeats <==> p != [] && p[0] in keys && RepeatAt(t, s, p, i))
  }

  lemma AtKey(t: Value, s: Value, p: Path, i: nat)
    requires BothObjects(t, s) && p != []
    ensures p[0] in Common(t, s) ==>
      (ClashAt(t, s, p) <==> ClashAt(t.fields[p[0]], s.fields[p[0]], p[1..]))
      && (RepeatAt(t, s, p, i) <==> RepeatAt(t.fields[p[0]], s.fields[p[0]], p[1..], i))
    ensures p[0] !in Common(t, s) ==> !ClashAt(t, s, p) && !RepeatAt(t, s, p, i)
  {
  }

  lemma {:induction false} CountsUnder(t: Value, s: Value, keys: set<string>)
    returns (clashes: set<(Path, nat)>, repeats: set<(Path, nat)>)
    requires BothObjects(t, s) && keys <= Common(t, s)
    ensures MarksUnder(t, s, keys, clashes, repeats)
    ensures SumCost(t, s, keys) == Cost(|clashes|, |repeats|)
    decreases t, |keys|
  {
    hide MergeCost, ClashAt, RepeatAt, SumCost;
    if keys == {} {
      clashes, repeats := {}, {};
      NoKeys(t, s);
    } else {
      var k :| k in keys;
      SumCostRemove(t, s, keys, k);
      var c, r := CountsUnder(t, s, keys - {k});
      KeyIsSmaller(t, s, k);
      var c', r' := Counts(t.fields[k], s.fields[k]);
      var c'' := Lifted(c', k);
      var r'' := Lifted(r', k);
      DisjointKeys(c, c'', k);
      DisjointKeys(r, r'', k);
      Joined(c, c'');
      Joined(r, r'');
      clashes, repeats := c + c'', r + r'';
      forall p: Path, i: nat
        ensures (p, i) in clashes <==> p != [] && p[0] in keys && i == 0 && ClashAt(t, s, p)
        ensures (p, i) in repeats <==> p != [] && p[0] in keys && RepeatAt(t, s, p, i)
      {
        if p != [] { AtKey(t, s, p, i); }
      }
    }
  }

  lemma NoKeys(t: Value, s: Value)
    requires BothObjects(t, s)
    ensures SumCost(t, s, {}) == Cost(0, 0)
  {
  }

  lemma KeyIsSmaller(t: Value, s: Value, k: string)
    requires BothObjects(t, s) && k in Common(t, s)
    ensures t.fields[k] < t
  {
  }

  lemma {:induction false} Counts(t: Value, s: Value) returns (clashes: set<(Path, nat)>, repeats: set<(Path, nat)>)
    ensures Marks(t, s, clashes, repeats)
    ensures MergeCost(t, s) == Cost(|clashes|, |repeats|)
    decreases t, if t.Obj? then |t.fields| + 1 else 0
  {
    hide SumCost, MergeCost, ClashAt, RepeatAt;
    if BothObjects(t, s) {
      CommonIsSmall(t, s);
      clashes, repeats := CountsUnder(t, s, Common(t, s));
      ObjectCost(t, s);
      ObjectMarks(t, s, clashes, repeats);
    } else {
      clashes, repeats := LeafCounts(t, s);
    }
  }

  lemma LeafCounts(t: Value, s: Value) returns (clashes: set<(Path, nat)>, repeats: set<(Path, nat)>)
    requires !BothObjects(t, s)
    ensures Marks(t, s, clashes, repeats)
    ensures MergeCost(t, s) == Cost(|clashes|, |repeats|)
  {
    hide SkippedItems;
    var here: Path := [];
    clashes := if Clash(t, s) then {(here, 0)} else {};
    repeats := {};
    if t.Arr? && s.Arr? {
      var at := SkippedAre(t.items, s.items);
      repeats := set i | i in at :: (here, i);
      OnePathSize(at, repeats);
    }
    LeafCost(t, s, |repeats|);
    forall p: Path, i: nat
      ensures (p, i) in clashes <==> i == 0 && ClashAt(t, s, p)
      ensures (p, i) in repeats <==> RepeatAt(t, s, p, i)
    {
      if p != [] { LeafMarks(t, s, p, i); }
    }
  }

  lemma LeafCost(t: Value, s: Value, n: nat)
    requires !BothObjects(t, s) && n == if t.Arr? && s.Arr? then SkippedItems(t.items, s.items) else 0
    ensures MergeCost(t, s) == Cost(if Clash(t, s) then 1 else 0, n)
  {
    hide SkippedItems;
  }

  lemma {:induction false} OnePathSize(at: set<nat>, b: set<(Path, nat)>)
    requires b == set i | i in at :: ([], i)
    ensures |at| == |b|
    decreases at
  {
    var here: Path := [];
    if at != {} {
      var x :| x in at;
      assert b - {(here, x)} == set i | i in at - {x} :: (here, i);
      OnePathSize(at - {x}, b - {(here, x)});
    }
  }

  lemma LeafMarks(t: Value, s: Value, p: Path, i: nat)
    requires !BothObjects(t, s) && p != []
    ensures !ClashAt(t, s, p) && !RepeatAt(t, s, p, i)
  {
  }

  lemma ObjectMarks(t: Value, s: Value, clashes: set<(Path, nat)>, repeats: set<(Path, nat)>)
    requires BothObjects(t, s) && MarksUnder(t, s, Common(t, s), clashes, repeats)
    ensures Marks(t, s, clashes, repeats)
  {
    hide ClashAt, RepeatAt;
    forall p: Path, i: nat
      ensures (p, i) in clashes <==> i == 0 && ClashAt(t, s, p)
      ensures (p, i) in repeats <==> RepeatAt(t, s, p, i)
    {
      if p != [] { AtKey(t, s, p, i); } else { NothingAtTop(t, s, i); }
    }
  }

  lemma NothingAtTop(t: Value, s: Value, i: nat)
    requires BothObjects(t, s)
    ensures !ClashAt(t, s, []) && !RepeatAt(t, s, [], i)
  {
  }

  /** The statistics of a merge count exactly the paths at which target and source clash, and the source
      items that are skipped because an equal one is there. */
  lemma MergeCountsClashes(t: Value, s: Value) returns (clashes: set<Path>, repeats: set<(Path, nat)>)
    ensures AreClashes(t, s, clashes) && AreRepeats(t, s, repeats)
    ensures MergeCost(t, s) == Cost(|clashes|, |repeats|)
  {
    hide MergeCost, ClashAt, RepeatAt;
    var marked;
    marked, repeats := Counts(t, s);
    clashes := set e | e in marked :: e.0;
    FirstsSize(marked, clashes);
    forall p ensures p in clashes <==> ClashAt(t, s, p) {
      if p in clashes {
        var e :| e in marked && e.0 == p;
        assert (p, e.1) in marked;
      }
      if ClashAt(t, s, p) { assert (p, 0) in marked; }
    }
  }

  lemma {:induction false} FirstsSize(a: set<(Path, nat)>, b: set<Path>)
    requires b == set e | e in a :: e.0
    requires forall e | e in a :: e.1 == 0
    ensures |a| == |b|
    decreases a
  {
    if a != {} {
      var e :| e in a;
      assert b - {e.0} == set f | f in a - {e} :: f.0;
      FirstsSize(a - {e}, b - {e.0});
    }
  }

  /** The positions of the source items that are new, in order. */
  ghost predicate NewPositions(mine: seq<Value>, theirs: seq<Value>, at: seq<nat>) {
    && (forall i, j | 0 <= i < j < |at| :: at[i] < at[j])
    && (forall i: nat :: i in at <==> i < |theirs| && theirs[i] !in mine && theirs[i] !in theirs[..i])
  }

  /** `r` is `mine` with the items of `theirs` at these positions behind it. */
  predicate Appended(mine: seq<Value>, theirs: seq<Value>, at: seq<nat>, r: seq<Value>) {
    && |r| == |mine| + |at| && mine <= r
    && forall i | 0 <= i < |at| :: at[i] < |theirs| && r[|mine| + i] == theirs[at[i]]
  }

  /** A merged array is the target's with the new source items behind it, in their order. */
  lemma {:induction false} AppendedInOrder(mine: seq<Value>, theirs: seq<Value>) returns (at: seq<nat>)
    ensures NewPositions(mine, theirs, at) && Appended(mine, theirs, at, AppendMissing(mine, theirs))
    decreases |theirs|
  {
    if theirs == [] {
      at := [];
    } else {
      var known := theirs[0] in mine;
      var more := if known then mine else mine + [theirs[0]];
      var later := AppendedInOrder(more, theirs[1..]);
      hide AppendMissing;
      var shifted := seq(|later|, i requires 0 <= i < |later| => later[i] + 1);
      at := (if known then [] else [0]) + shifted;
      PositionsBefore(mine, theirs, more, later, shifted, at);
      AppendedBefore(mine, theirs, more, later, shifted, at, AppendMissing(more, theirs[1..]));
      OneAppended(mine, theirs);
    }
  }

  lemma OneAppended(mine: seq<Value>, theirs: seq<Value>)
    requires theirs != []
    ensures AppendMissing(mine, theirs)
         == AppendMissing(if theirs[0] in mine then mine else mine + [theirs[0]], theirs[1..])
  {
  }

  lemma PositionsBefore(mine: seq<Value>, theirs: seq<Value>, more: seq<Value>, later: seq<nat>, shifted: seq<nat>,
                        at: seq<nat>)
    requires theirs != [] && more == if theirs[0] in mine then mine else mine + [theirs[0]]
    requires NewPositions(more, theirs[1..], later)
    requires |shifted| == |later| && forall i | 0 <= i < |later| :: shifted[i] == later[i] + 1
    requires at == (if theirs[0] in mine then [] else [0]) + shifted
    ensures NewPositions(mine, theirs, at)
  {
    ShiftedMembers(later, shifted);
    forall i: nat ensures i in at <==> i < |theirs| && theirs[i] !in mine && theirs[i] !in theirs[..i] {
      if i > 0 {
        assert i in at <==> (i - 1) in later;
        if i < |theirs| { PrefixMembers(theirs, i); }
      }
    }
  }

  lemma AppendedBefore(mine: seq<Value>, theirs: seq<Value>, more: seq<Value>, later: seq<nat>, shifted: seq<nat>,
                       at: seq<nat>, r: seq<Value>)
    requires theirs != [] && more == if theirs[0] in mine then mine else mine + [theirs[0]]
    requires Appended(more, theirs[1..], later, r)
    requires |shifted| == |later| && forall i | 0 <= i < |later| :: shifted[i] == later[i] + 1
    requires at == (if theirs[0] in mine then [] else [0]) + shifted
    ensures Appended(mine, theirs, at, r)
  {
    var k := |at| - |later|;
    assert k == 1 ==> r[|mine|] == more[|mine|];
    forall i | k <= i < |at| ensures at[i] < |theirs| && r[|mine| + i] == theirs[at[i]] {
      assert at[i] == later[i - k] + 1 && r[|more| + (i - k)] == theirs[1..][later[i - k]];
    }
  }

  lemma ShiftedMembers(later: seq<nat>, shifted: seq<nat>)
    requires |shifted| == |later| && forall i | 0 <= i < |later| :: shifted[i] == later[i] + 1
    ensures forall x: nat :: x in shifted <==> x > 0 && (x - 1) in later
  {
    forall x: nat | x > 0 && (x - 1) in later ensures x in shifted {
      var i :| 0 <= i < |later| && later[i] == x - 1;
      assert shifted[i] == x;
    }
  }
}
