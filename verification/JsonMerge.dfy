/** src/migration.rs: `merge_json_preserving_target`. */
module JsonMerge {
  import opened Text
  import opened Json

  /** What a merge adds to `JsonMergeStats`. */
  datatype Cost = Cost(conflicts: nat, duplicates: nat) {
    function Plus(c: Cost): Cost { Cost(conflicts + c.conflicts, duplicates + c.duplicates) }
  }

  class JsonMergeStats {
    var conflictsPreserved: nat
    var duplicateItemsSkipped: nat

    constructor ()
      ensures conflictsPreserved == 0 && duplicateItemsSkipped == 0
    {
      conflictsPreserved, duplicateItemsSkipped := 0, 0;
    }

    function Value(): Cost
      reads this
    {
      Cost(conflictsPreserved, duplicateItemsSkipped)
    }
  }

  // ----- the merge as a function -------------------------------------------------------------

  /** Items of `source` that the growing target does not hold yet are appended. */
  function AppendMissing(target: seq<Value>, source: seq<Value>): seq<Value>
    decreases source
  {
    if source == [] then target
    else AppendMissing(if source[0] in target then target else target + [source[0]], source[1..])
  }

  function SkippedItems(target: seq<Value>, source: seq<Value>): nat
    decreases source
  {
    if source == [] then 0
    else if source[0] in target then 1 + SkippedItems(target, source[1..])
    else SkippedItems(target + [source[0]], source[1..])
  }

  function Merge(t: Value, s: Value): Value
    decreases t
  {
    match t
    case Obj(m) =>
      if !s.Obj? then t else
        Obj(map k | k in m.Keys + s.fields.Keys ::
              if k !in m then s.fields[k]
              else if k !in s.fields then m[k]
              else Merge(m[k], s.fields[k]))
    case Arr(items) => if s.Arr? then Arr(AppendMissing(items, s.items)) else t
    case Null => s
    case _ => t
  }

  predicate BothObjects(t: Value, s: Value) { t.Obj? && s.Obj? }

  function Common(t: Value, s: Value): set<string>
    requires BothObjects(t, s)
  {
    t.fields.Keys * s.fields.Keys
  }

  ghost function MergeCost(t: Value, s: Value): Cost
    decreases t, if t.Obj? then |t.fields| + 1 else 0
  {
    match t
    case Obj(m) =>
      if !s.Obj? then Cost(1, 0) else
        CommonIsSmall(t, s);
        SumCost(t, s, Common(t, s))
    case Arr(items) => if s.Arr? then Cost(0, SkippedItems(items, s.items)) else Cost(1, 0)
    case Null => Cost(0, 0)
    case _ => Cost(if t != s then 1 else 0, 0)
  }

  lemma CommonIsSmall(t: Value, s: Value)
    requires BothObjects(t, s)
    ensures |Common(t, s)| <= |t.fields|
  {
    SubsetSize(Common(t, s), t.fields.Keys);
  }

  ghost function SumCost(t: Value, s: Value, keys: set<string>): Cost
    requires BothObjects(t, s) && keys <= Common(t, s)
    decreases t, |keys|
  {
    if keys == {} then Cost(0, 0) else
      var k :| k in keys;
      MergeCost(t.fields[k], s.fields[k]).Plus(SumCost(t, s, keys - {k}))
  }

  lemma SumCostStep(t: Value, s: Value, keys: set<string>) returns (j: string)
    requires BothObjects(t, s) && keys <= Common(t, s) && keys != {}
    ensures j in keys
    ensures SumCost(t, s, keys) == MergeCost(t.fields[j], s.fields[j]).Plus(SumCost(t, s, keys - {j}))
  {
    hide MergeCost;
    j :| j in keys && SumCost(t, s, keys) == MergeCost(t.fields[j], s.fields[j]).Plus(SumCost(t, s, keys - {j}));
  }

  /** The keys may be visited in any order. */
  lemma {:induction false} SumCostRemove(t: Value, s: Value, keys: set<string>, k: string)
    requires BothObjects(t, s) && keys <= Common(t, s) && k in keys
    ensures SumCost(t, s, keys) == MergeCost(t.fields[k], s.fields[k]).Plus(SumCost(t, s, keys - {k}))
    decreases |keys|
  {
    hide MergeCost, SumCost;
    var j := SumCostStep(t, s, keys);
    if j != k {
      var a, b := keys - {j}, keys - {k};
      SumCostRemove(t, s, a, k);
      SumCostRemove(t, s, b, j);
      SwapRemovals(keys, j, k);
      PlusSwaps(MergeCost(t.fields[j], s.fields[j]), MergeCost(t.fields[k], s.fields[k]), SumCost(t, s, a - {k}));
    }
  }

  lemma SwapRemovals(keys: set<string>, j: string, k: string)
    ensures keys - {j} - {k} == keys - {k} - {j}
  {
  }

  lemma PlusSwaps(a: Cost, b: Cost, c: Cost)
    ensures a.Plus(b.Plus(c)) == b.Plus(a.Plus(c))
  {
  }

  // ----- the loops ------------------------------------------------------------------------------

  /** The fields of a half-merged object: `done` source keys have been visited. */
  ghost predicate HalfMerged(t: Value, s: Value, done: set<string>, fields: map<string, Value>)
    requires BothObjects(t, s) && done <= s.fields.Keys
  {
    && fields.Keys == t.fields.Keys + done
    && forall k | k in fields :: fields[k] == if k in done then Merge(t, s).fields[k] else t.fields[k]
  }

  lemma MergedField(t: Value, s: Value, k: string)
    requires BothObjects(t, s) && k in s.fields
    ensures Merge(t, s).Obj? && k in Merge(t, s).fields
    ensures Merge(t, s).fields[k] == if k in t.fields then Merge(t.fields[k], s.fields[k]) else s.fields[k]
  {
  }

  lemma WholeMerged(t: Value, s: Value, fields: map<string, Value>)
    requires BothObjects(t, s) && HalfMerged(t, s, s.fields.Keys, fields)
    ensures Obj(fields) == Merge(t, s)
  {
    assert fields == Merge(t, s).fields;
  }

  lemma CostStep(t: Value, s: Value, done: set<string>, k: string)
    requires BothObjects(t, s) && done <= s.fields.Keys && k in s.fields && k !in done
    ensures SumCost(t, s, (done + {k}) * t.fields.Keys)
         == if k in t.fields then MergeCost(t.fields[k], s.fields[k]).Plus(SumCost(t, s, done * t.fields.Keys))
            else SumCost(t, s, done * t.fields.Keys)
  {
    hide MergeCost, SumCost;
    var before := done * t.fields.Keys;
    if k in t.fields {
      assert (done + {k}) * t.fields.Keys == before + {k} && before + {k} - {k} == before;
      SumCostRemove(t, s, before + {k}, k);
    } else {
      assert (done + {k}) * t.fields.Keys == before;
    }
  }

  method MergeFields(target: Value, source: Value, stats: JsonMergeStats) returns (merged: Value)
    requires BothObjects(target, source)
    modifies stats
    ensures merged == Merge(target, source)
    ensures stats.Value() == old(stats.Value()).Plus(MergeCost(target, source))
    decreases target, 0
  {
    hide Merge, MergeCost, SumCost;
    var fields := target.fields;
    var left := source.fields.Keys;
    ghost var done: set<string> := {};
    NothingMerged(target, source);
    while left != {}
      invariant done !! left && done + left == source.fields.Keys
      invariant HalfMerged(target, source, done, fields)
      invariant stats.Value() == old(stats.Value()).Plus(SumCost(target, source, done * target.fields.Keys))
      decreases left
    {
      var k :| k in left;
      var value := source.fields[k];
      MergedField(target, source, k);
      CostStep(target, source, done, k);
      if k in fields {
        var inner := MergePreservingTarget(fields[k], value, stats);
        fields := fields[k := inner];
      } else {
        fields := fields[k := value];
      }
      left, done := left - {k}, done + {k};
    }
    assert done * target.fields.Keys == Common(target, source);
    WholeMerged(target, source, fields);
    ObjectCost(target, source);
    merged := Obj(fields);
  }

  lemma NothingMerged(t: Value, s: Value)
    requires BothObjects(t, s)
    ensures HalfMerged(t, s, {}, t.fields) && SumCost(t, s, {} * t.fields.Keys) == Cost(0, 0)
  {
    assert {} * t.fields.Keys == {};
  }

  lemma ObjectCost(t: Value, s: Value)
    requires BothObjects(t, s)
    ensures MergeCost(t, s) == SumCost(t, s, Common(t, s))
  {
  }

  method AppendItems(items: seq<Value>, source: seq<Value>, stats: JsonMergeStats) returns (grown: seq<Value>)
    modifies stats
    ensures grown == AppendMissing(items, source)
    ensures stats.Value() == old(stats.Value()).Plus(Cost(0, SkippedItems(items, source)))
  {
    grown := items;
    var k := 0;
    while k < |source|
      invariant 0 <= k <= |source|
      invariant AppendMissing(grown, source[k..]) == AppendMissing(items, source)
      invariant stats.Value().Plus(Cost(0, SkippedItems(grown, source[k..])))
             == old(stats.Value()).Plus(Cost(0, SkippedItems(items, source)))
    {
      assert source[k..][0] == source[k] && source[k..][1..] == source[k + 1..];
      if source[k] in grown {
        stats.duplicateItemsSkipped := stats.duplicateItemsSkipped + 1;
      } else {
        grown := grown + [source[k]];
      }
      k := k + 1;
    }
  }

  /** `merge_json_preserving_target`; the caller's value is replaced by the result. */
  method MergePreservingTarget(target: Value, source: Value, stats: JsonMergeStats) returns (merged: Value)
    modifies stats
    ensures merged == Merge(target, source)
    ensures stats.Value() == old(stats.Value()).Plus(MergeCost(target, source))
    decreases target, 1
  {
    merged := target;
    match target {
      case Obj(_) =>
        if source.Obj? {
          merged := MergeFields(target, source, stats);
        } else {
          stats.conflictsPreserved := stats.conflictsPreserved + 1;
        }
      case Arr(items) =>
        if source.Arr? {
          var grown := AppendItems(items, source.items, stats);
          merged := Arr(grown);
        } else {
          stats.conflictsPreserved := stats.conflictsPreserved + 1;
        }
      case Null =>
        merged := source;
      case _ =>
        if target != source { stats.conflictsPreserved := stats.conflictsPreserved + 1; }
    }
  }

  // ----- merging only extends ------------------------------------------------------------------------

  /** `r` holds everything `t` holds: nulls may be filled, arrays and objects grow, scalars stay. */
  predicate Extends(t: Value, r: Value)
    decreases t
  {
    match t
    case Null => true
    case Arr(items) => r.Arr? && items <= r.items
    case Obj(m) => r.Obj? && forall k | k in m :: k in r.fields && Extends(m[k], r.fields[k])
    case _ => r == t
  }

  lemma {:induction false} ExtendsReflexive(t: Value)
    ensures Extends(t, t)
    decreases t
  {
    if t.Obj? {
      forall k | k in t.fields ensures Extends(t.fields[k], t.fields[k]) { ExtendsReflexive(t.fields[k]); }
    }
  }

  lemma {:induction false} ExtendsTransitive(a: Value, b: Value, c: Value)
    requires Extends(a, b) && Extends(b, c)
    ensures Extends(a, c)
    decreases a
  {
    if a.Obj? {
      forall k | k in a.fields ensures k in c.fields && Extends(a.fields[k], c.fields[k]) {
        ExtendsTransitive(a.fields[k], b.fields[k], c.fields[k]);
      }
    }
  }

  lemma {:induction false} AppendMissingGrows(target: seq<Value>, source: seq<Value>)
    ensures target <= AppendMissing(target, source)
    ensures forall v :: v in AppendMissing(target, source) <==> v in target || v in source
    decreases source
  {
    if source != [] {
      AppendMissingGrows(if source[0] in target then target else target + [source[0]], source[1..]);
      assert source == [source[0]] + source[1..];
    }
  }

  /** The merge keeps the target: its scalars, its array prefixes, its keys. */
  lemma {:induction false} MergeExtends(t: Value, s: Value)
    ensures Extends(t, Merge(t, s))
    decreases t
  {
    match t
    case Obj(m) =>
      if s.Obj? {
        forall k | k in m ensures Extends(m[k], Merge(t, s).fields[k]) {
          if k in s.fields { MergeExtends(m[k], s.fields[k]); } else { ExtendsReflexive(m[k]); }
        }
      } else {
        ExtendsReflexive(t);
      }
    case Arr(items) => if s.Arr? { AppendMissingGrows(items, s.items); }
    case _ =>
  }

  /** Where kinds agree nothing of the source is lost: its keys and its items are there. */
  ghost predicate Absorbs(t: Value, s: Value, r: Value)
    decreases t
  {
    match (t, s)
    case (Null, _) => r == s
    case (Obj(m), Obj(sm)) =>
      && r.Obj? && r.fields.Keys == m.Keys + sm.Keys
      && forall k | k in sm :: if k in m then Absorbs(m[k], sm[k], r.fields[k]) else r.fields[k] == sm[k]
    case (Arr(items), Arr(more)) =>
      r.Arr? && forall v :: v in r.items <==> v in items || v in more
    case _ => true
  }

  lemma {:induction false} MergeAbsorbs(t: Value, s: Value)
    ensures Absorbs(t, s, Merge(t, s))
    decreases t
  {
    match t
    case Obj(m) =>
      if s.Obj? {
        forall k | k in s.fields && k in m ensures Absorbs(m[k], s.fields[k], Merge(t, s).fields[k]) {
          MergeAbsorbs(m[k], s.fields[k]);
        }
      }
    case Arr(items) => if s.Arr? { AppendMissingGrows(items, s.items); }
    case _ =>
  }

  function MergeAll(t: Value, sources: seq<Value>): Value
    decreases sources
  {
    if sources == [] then t else MergeAll(Merge(t, sources[0]), sources[1..])
  }

  /** However many sources are merged, the target is only extended. */
  lemma {:induction false} MergeAllExtends(t: Value, sources: seq<Value>)
    ensures Extends(t, MergeAll(t, sources))
    decreases sources
  {
    if sources == [] {
      ExtendsReflexive(t);
    } else {
      var next := Merge(t, sources[0]);
      MergeExtends(t, sources[0]);
      MergeAllExtends(next, sources[1..]);
      ExtendsTransitive(t, next, MergeAll(t, sources));
    }
  }

  // ----- merging again changes nothing ------------------------------------------------------------------

  lemma {:induction false} NothingMissing(target: seq<Value>, source: seq<Value>)
    requires forall v | v in source :: v in target
    ensures AppendMissing(target, source) == target
    decreases source
  {
    if source != [] {
      assert source[0] in source;
      NothingMissing(target, source[1..]);
    }
  }

  lemma {:induction false} SumOfNothing(t: Value, s: Value, keys: set<string>)
    requires BothObjects(t, s) && keys <= Common(t, s)
    requires forall k | k in keys :: MergeCost(t.fields[k], s.fields[k]).conflicts == 0
    ensures SumCost(t, s, keys).conflicts == 0
    decreases |keys|
  {
    if keys != {} {
      var k :| k in keys;
      SumCostRemove(t, s, keys, k);
      SumOfNothing(t, s, keys - {k});
    }
  }

  lemma {:induction false} MergeSelf(v: Value)
    ensures Merge(v, v) == v && MergeCost(v, v).conflicts == 0
    decreases v
  {
    match v
    case Obj(m) =>
      forall k | k in m ensures Merge(m[k], m[k]) == m[k] && MergeCost(m[k], m[k]).conflicts == 0 {
        MergeSelf(m[k]);
      }
      assert Merge(v, v).fields == m;
      SumOfNothing(v, v, Common(v, v));
    case Arr(items) => NothingMissing(items, items);
    case _ =>
  }

  lemma {:induction false} SameConflicts(t: Value, r: Value, s: Value, keys: set<string>)
    requires BothObjects(t, s) && r.Obj? && keys <= Common(t, s) && keys <= Common(r, s)
    requires forall k | k in keys ::
      MergeCost(r.fields[k], s.fields[k]).conflicts == MergeCost(t.fields[k], s.fields[k]).conflicts
    ensures SumCost(r, s, keys).conflicts == SumCost(t, s, keys).conflicts
    decreases |keys|
  {
    if keys != {} {
      var k :| k in keys;
      SumCostRemove(t, s, keys, k);
      SumCostRemove(r, s, keys, k);
      SameConflicts(t, r, s, keys - {k});
    }
  }

  /** The conflicts of an object whose other keys came from the source itself. */
  lemma {:induction false} ConflictsSplit(r: Value, s: Value, a: set<string>, b: set<string>)
    requires BothObjects(r, s) && a + b <= Common(r, s) && a !! b
    requires forall k | k in b :: MergeCost(r.fields[k], s.fields[k]).conflicts == 0
    ensures SumCost(r, s, a + b).conflicts == SumCost(r, s, a).conflicts
    decreases |b|
  {
    if b == {} {
      assert a + b == a;
    } else {
      var k :| k in b;
      SumCostRemove(r, s, a + b, k);
      assert a + b - {k} == a + (b - {k});
      ConflictsSplit(r, s, a, b - {k});
    }
  }

  /** Merging the same source again changes nothing and reports the same conflicts. */
  lemma {:induction false} MergeIsIdempotent(t: Value, s: Value)
    ensures Merge(Merge(t, s), s) == Merge(t, s)
    ensures MergeCost(Merge(t, s), s).conflicts == MergeCost(t, s).conflicts
    decreases t
  {
    var r := Merge(t, s);
    match t
    case Obj(m) =>
      if s.Obj? {
        forall k | k in s.fields
          ensures Merge(r.fields[k], s.fields[k]) == r.fields[k]
          ensures k in m ==> MergeCost(r.fields[k], s.fields[k]).conflicts == MergeCost(m[k], s.fields[k]).conflicts
          ensures k !in m ==> MergeCost(r.fields[k], s.fields[k]).conflicts == 0
        {
          if k in m { MergeIsIdempotent(m[k], s.fields[k]); } else { MergeSelf(s.fields[k]); }
        }
        assert Merge(r, s).fields == r.fields;
        var both, added := Common(t, s), s.fields.Keys - m.Keys;
        assert Common(r, s) == both + added;
        SameConflicts(t, r, s, both);
        ConflictsSplit(r, s, both, added);
      }
    case Arr(items) =>
      if s.Arr? {
        AppendMissingGrows(items, s.items);
        NothingMissing(r.items, s.items);
      }
    case Null => MergeSelf(s);
    case _ =>
  }
}
