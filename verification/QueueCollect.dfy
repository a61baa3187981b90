/** scripts/ci/queue_hygiene.py: `collect_candidates`, its dictionaries and loops. */
module QueueCollect {
  import opened Text
  import opened QueueHygiene

  /** The last of the first `n` entries listed under the id. */
  function LastUnder(runs: seq<Run>, n: nat, id: int): Option<Run>
    requires n <= |runs|
  {
    if n == 0 then None
    else if ListedId(runs[n - 1]) == Some(id) then Some(runs[n - 1])
    else LastUnder(runs, n - 1, id)
  }

  /** `by_id` holds that entry for every id. */
  ghost predicate LastById(runs: seq<Run>, n: nat, byId: map<int, Run>)
    requires n <= |runs|
  {
    forall id :: LastUnder(runs, n, id) == if id in byId then Some(byId[id]) else None
  }

  /** The reason is recorded for the id. */
  predicate Has(reasons: map<int, set<Reason>>, id: int, r: Reason) {
    id in reasons && r in reasons[id]
  }

  predicate NoneEmpty(reasons: map<int, set<Reason>>) {
    forall id | id in reasons :: reasons[id] != {}
  }

  /** `reasons_by_id[id].add(r)` on a defaultdict of sets. */
  function Add(reasons: map<int, set<Reason>>, id: int, r: Reason): (reasons': map<int, set<Reason>>)
    ensures NoneEmpty(reasons) ==> NoneEmpty(reasons')
    ensures forall i, x :: Has(reasons', i, x) <==> Has(reasons, i, x) || (i == id && x == r)
  {
    reasons[id := (if id in reasons then reasons[id] else {}) + {r}]
  }

  ghost predicate ObsoleteAmong(runs: seq<Run>, p: Policy, n: nat, id: int)
    requires n <= |runs|
  {
    exists i: nat | i < n :: ListedId(runs[i]) == Some(id) && runs[i].name in p.obsolete
  }

  method ReadIds(runs: seq<Run>, p: Policy) returns (byId: map<int, Run>, reasons: map<int, set<Reason>>)
    ensures LastById(runs, |runs|, byId) && NoneEmpty(reasons)
    ensures forall id, r :: Has(reasons, id, r) <==> r == Obsolete && ObsoleteAmong(runs, p, |runs|, id)
  {
    hide LastById, ObsoleteAmong, Add, Has, NoneEmpty;
    byId, reasons := map[], map[];
    var k := 0;
    NothingRead(runs, p);
    while k < |runs|
      invariant 0 <= k <= |runs| && LastById(runs, k, byId) && NoneEmpty(reasons)
      invariant forall id, r :: Has(reasons, id, r) <==> r == Obsolete && ObsoleteAmong(runs, p, k, id)
    {
      ghost var before, before' := byId, reasons;
      match ListedId(runs[k]) {
        case Some(id) =>
          byId := byId[id := runs[k]];
          if runs[k].name in p.obsolete { reasons := Add(reasons, id, Obsolete); }
        case None =>
      }
      LastByIdStep(runs, k, before);
      forall id { ObsoleteStep(runs, p, k, id); }
      k := k + 1;
    }
  }

  lemma NothingRead(runs: seq<Run>, p: Policy)
    ensures LastById(runs, 0, map[]) && NoneEmpty(map[])
    ensures forall id, r :: !Has(map[], id, r)
    ensures forall id :: !ObsoleteAmong(runs, p, 0, id)
  {
  }

  lemma ObsoleteStep(runs: seq<Run>, p: Policy, k: nat, id: int)
    requires k < |runs|
    ensures ObsoleteAmong(runs, p, k + 1, id)
       <==> ObsoleteAmong(runs, p, k, id) || (ListedId(runs[k]) == Some(id) && runs[k].name in p.obsolete)
  {
  }

  lemma LastByIdStep(runs: seq<Run>, k: nat, byId: map<int, Run>)
    requires k < |runs| && LastById(runs, k, byId)
    ensures var id := ListedId(runs[k]);
      LastById(runs, k + 1, if id.Some? then byId[id.value := runs[k]] else byId)
  {
  }

  predicate Ascending(s: seq<nat>) {
    forall a, b | 0 <= a < b < |s| :: s[a] < s[b]
  }

  /** Positions before `n`, in listing order, of eligible entries with one identity key. */
  predicate IsGroup(runs: seq<Run>, p: Policy, n: nat, key: Key, s: seq<nat>)
    requires n <= |runs|
  {
    && s != [] && Ascending(s)
    && forall a | 0 <= a < |s| :: s[a] < n && Eligible(runs[s[a]], p) && IdentityKey(runs[s[a]], p) == key
  }

  /** The positions of the eligible entries of each identity group. */
  ghost predicate GroupsOf(runs: seq<Run>, p: Policy, n: nat, groups: map<Key, seq<nat>>)
    requires n <= |runs|
  {
    && (forall key | key in groups :: IsGroup(runs, p, n, key, groups[key]))
    && (forall i: nat | i < n && Eligible(runs[i], p) ::
          IdentityKey(runs[i], p) in groups && i in groups[IdentityKey(runs[i], p)])
  }

  method ReadGroups(runs: seq<Run>, p: Policy) returns (groups: map<Key, seq<nat>>)
    ensures GroupsOf(runs, p, |runs|, groups)
  {
    hide Eligible, IdentityKey, GroupsOf;
    groups := map[];
    NoGroups(runs, p);
    var k := 0;
    while k < |runs|
      invariant k <= |runs| && GroupsOf(runs, p, k, groups)
    {
      if Eligible(runs[k], p) {
        var key := IdentityKey(runs[k], p);
        var old' := if key in groups then groups[key] else [];
        ghost var before := groups;
        groups := groups[key := old' + [k]];
        AppendKeeps(runs, p, k, before, key, old');
      } else {
        SkipKeeps(runs, p, k, groups);
      }
      k := k + 1;
    }
  }

  lemma GroupGrows(runs: seq<Run>, p: Policy, k: nat, key: Key, s: seq<nat>)
    requires k < |runs| && (s == [] || IsGroup(runs, p, k, key, s))
    ensures s != [] ==> IsGroup(runs, p, k + 1, key, s)
    ensures Eligible(runs[k], p) && IdentityKey(runs[k], p) == key ==> IsGroup(runs, p, k + 1, key, s + [k])
  {
    hide Eligible, IdentityKey;
  }

  lemma AppendKeeps(runs: seq<Run>, p: Policy, k: nat, groups: map<Key, seq<nat>>, key: Key, old': seq<nat>)
    requires k < |runs| && GroupsOf(runs, p, k, groups)
    requires Eligible(runs[k], p) && IdentityKey(runs[k], p) == key
    requires old' == if key in groups then groups[key] else []
    ensures GroupsOf(runs, p, k + 1, groups[key := old' + [k]])
  {
    hide Eligible, IdentityKey;
    var after := groups[key := old' + [k]];
    forall other | other in after ensures IsGroup(runs, p, k + 1, other, after[other]) {
      GroupGrows(runs, p, k, other, if other in groups then groups[other] else []);
    }
    hide IsGroup;
    forall i: nat | i < k + 1 && Eligible(runs[i], p)
      ensures IdentityKey(runs[i], p) in after && i in after[IdentityKey(runs[i], p)]
    {
      if IdentityKey(runs[i], p) == key { assert (old' + [k])[|old'|] == k; }
    }
  }

  lemma NoGroups(runs: seq<Run>, p: Policy)
    ensures GroupsOf(runs, p, 0, map[])
  {
  }

  lemma SkipKeeps(runs: seq<Run>, p: Policy, k: nat, groups: map<Key, seq<nat>>)
    requires k < |runs| && GroupsOf(runs, p, k, groups) && !Eligible(runs[k], p)
    ensures GroupsOf(runs, p, k + 1, groups)
  {
    hide Eligible, IdentityKey;
    forall key | key in groups ensures IsGroup(runs, p, k + 1, key, groups[key]) {
      GroupGrows(runs, p, k, key, groups[key]);
    }
  }

  lemma GroupInRange(runs: seq<Run>, p: Policy, groups: map<Key, seq<nat>>, key: Key)
    requires GroupsOf(runs, p, |runs|, groups) && key in groups
    ensures InRange(runs, groups[key])
  {
  }

  /** Positions in the listing. */
  predicate InRange(runs: seq<Run>, s: seq<nat>) {
    forall a | 0 <= a < |s| :: s[a] < |runs|
  }

  predicate NewestFirst(runs: seq<Run>, s: seq<nat>) {
    && InRange(runs, s)
    && (forall a, b | 0 <= a < b < |s| :: NewerAt(runs, s[a], s[b]))
  }

  /** `sorted(group, key=.., reverse=True)`: newest first, ties in listing order. */
  method SortGroup(runs: seq<Run>, group: seq<nat>) returns (sorted: seq<nat>)
    requires InRange(runs, group) && Ascending(group)
    ensures NewestFirst(runs, sorted) && |sorted| == |group|
    ensures forall i :: i in sorted <==> i in group
  {
    sorted := [];
    var k := 0;
    while k < |group|
      invariant k <= |group| && |sorted| == k
      invariant NewestFirst(runs, sorted)
      invariant forall i :: i in sorted <==> i in group[..k]
    {
      var x := group[k];
      assert forall a | 0 <= a < k :: group[a] != x;
      assert group[..k + 1] == group[..k] + [x];
      var j := 0;
      while j < |sorted| && NewerAt(runs, sorted[j], x)
        invariant 0 <= j <= |sorted|
        invariant forall a | 0 <= a < j :: NewerAt(runs, sorted[a], x)
      {
        j := j + 1;
      }
      assert sorted == sorted[..j] + sorted[j..];
      InsertNewest(runs, sorted, x, j);
      sorted := sorted[..j] + [x] + sorted[j..];
      k := k + 1;
    }
    assert group[..k] == group;
  }

  lemma NewerTotal(runs: seq<Run>, a: nat, b: nat)
    requires a < |runs| && b < |runs| && a != b && !NewerAt(runs, a, b)
    ensures NewerAt(runs, b, a)
  {
  }

  lemma NewerTransitive(runs: seq<Run>, a: nat, b: nat, c: nat)
    requires a < |runs| && b < |runs| && c < |runs| && NewerAt(runs, a, b) && NewerAt(runs, b, c)
    ensures NewerAt(runs, a, c)
  {
  }

  lemma InsertNewest(runs: seq<Run>, s: seq<nat>, x: nat, j: nat)
    requires NewestFirst(runs, s) && x < |runs| && x !in s && 0 <= j <= |s|
    requires forall a | 0 <= a < j :: NewerAt(runs, s[a], x)
    requires j < |s| ==> !NewerAt(runs, s[j], x)
    ensures NewestFirst(runs, s[..j] + [x] + s[j..])
    ensures forall i :: i in s[..j] + [x] + s[j..] <==> i in s || i == x
  {
    hide NewerAt;
    var t := s[..j] + [x] + s[j..];
    assert s == s[..j] + s[j..];
    assert forall a | 0 <= a < |t| :: t[a] == if a < j then s[a] else if a == j then x else s[a - 1];
    if j < |s| {
      assert s[j] in s;
      NewerTotal(runs, s[j], x);
    }
    forall a, b | 0 <= a < b < |t| ensures NewerAt(runs, t[a], t[b]) {
      if a == j && b > j + 1 { NewerTransitive(runs, x, s[j], s[b - 1]); }
    }
  }

  /** One of the entries behind the first of a sorted group, up to the `n`th, has the id. */
  predicate MarkedBy(runs: seq<Run>, sorted: seq<nat>, n: nat, id: int, r: Reason)
    requires InRange(runs, sorted) && n <= |sorted|
  {
    exists b | 1 <= b < n :: IdOrZero(runs[sorted[b]]) == id && r == SupersededBy(IdOrZero(runs[sorted[0]]))
  }

  /** Every later member of a sorted group is superseded by the first. */
  method MarkStale(runs: seq<Run>, sorted: seq<nat>, reasons: map<int, set<Reason>>)
    returns (reasons': map<int, set<Reason>>)
    requires sorted != [] && InRange(runs, sorted) && NoneEmpty(reasons)
    ensures NoneEmpty(reasons')
    ensures forall id, r ::
      Has(reasons', id, r) <==> Has(reasons, id, r) || MarkedBy(runs, sorted, |sorted|, id, r)
  {
    reasons' := reasons;
    var keepId := IdOrZero(runs[sorted[0]]);
    var k := 1;
    while k < |sorted|
      invariant 1 <= k <= |sorted| && NoneEmpty(reasons')
      invariant forall id, r :: Has(reasons', id, r) <==> Has(reasons, id, r) || MarkedBy(runs, sorted, k, id, r)
    {
      ghost var before := reasons';
      var staleId := IdOrZero(runs[sorted[k]]);
      reasons' := Add(reasons', staleId, SupersededBy(keepId));
      forall id, r ensures MarkedBy(runs, sorted, k + 1, id, r)
        <==> MarkedBy(runs, sorted, k, id, r) || (id == staleId && r == SupersededBy(keepId)) {}
      k := k + 1;
    }
  }

  /** The reason comes from a stale entry of a group whose key is in `done`. */
  ghost predicate StaleIn(runs: seq<Run>, p: Policy, done: set<Key>, id: int, r: Reason) {
    exists i: nat, k: nat | i < |runs| && k < |runs| ::
      StaleFor(runs, p, i, k) && IdentityKey(runs[k], p) in done
      && IdOrZero(runs[i]) == id && r == SupersededBy(IdOrZero(runs[k]))
  }

  lemma GroupIsStale(runs: seq<Run>, p: Policy, groups: map<Key, seq<nat>>, key: Key, sorted: seq<nat>,
                     id: int, r: Reason)
    requires GroupsOf(runs, p, |runs|, groups) && key in groups
    requires NewestFirst(runs, sorted) && (forall i :: i in sorted <==> i in groups[key])
    ensures StaleIn(runs, p, {key}, id, r) <==> MarkedBy(runs, sorted, |sorted|, id, r)
  {
    hide Eligible, IdentityKey, NewerAt, GroupsOf;
    if MarkedBy(runs, sorted, |sorted|, id, r) {
      var b :| 1 <= b < |sorted| && IdOrZero(runs[sorted[b]]) == id && r == SupersededBy(IdOrZero(runs[sorted[0]]));
      SortedKeeps(runs, p, groups, key, sorted, b);
    }
    if StaleIn(runs, p, {key}, id, r) { StaleIsMarked(runs, p, groups, key, sorted, id, r); }
  }

  lemma StaleIsMarked(runs: seq<Run>, p: Policy, groups: map<Key, seq<nat>>, key: Key, sorted: seq<nat>,
                      id: int, r: Reason)
    requires GroupsOf(runs, p, |runs|, groups) && key in groups
    requires NewestFirst(runs, sorted) && (forall i :: i in sorted <==> i in groups[key])
    requires StaleIn(runs, p, {key}, id, r)
    ensures MarkedBy(runs, sorted, |sorted|, id, r)
  {
    hide Eligible, IdentityKey, NewerAt;
    var i: nat, k: nat :| i < |runs| && k < |runs| && StaleFor(runs, p, i, k) && IdentityKey(runs[k], p) in {key}
      && IdOrZero(runs[i]) == id && r == SupersededBy(IdOrZero(runs[k]));
    assert k in sorted && i in sorted;
    var a :| 0 <= a < |sorted| && sorted[a] == k;
    var b :| 0 <= b < |sorted| && sorted[b] == i;
    if a != 0 {
      assert sorted[0] in sorted && SameGroup(runs, p, sorted[0], k);
      NewerIsStrict(runs, sorted[0], k);
    }
  }

  lemma NewerIsStrict(runs: seq<Run>, a: nat, b: nat)
    requires a < |runs| && b < |runs| && NewerAt(runs, a, b)
    ensures a != b && !NewerAt(runs, b, a)
  {
  }

  lemma SortedKeeps(runs: seq<Run>, p: Policy, groups: map<Key, seq<nat>>, key: Key, sorted: seq<nat>, b: nat)
    requires GroupsOf(runs, p, |runs|, groups) && key in groups
    requires NewestFirst(runs, sorted) && (forall i :: i in sorted <==> i in groups[key])
    requires 1 <= b < |sorted|
    ensures sorted[0] < |runs| && sorted[b] < |runs| && StaleFor(runs, p, sorted[b], sorted[0])
    ensures IdentityKey(runs[sorted[0]], p) == key
  {
    hide Eligible, IdentityKey, NewerAt;
    var k := sorted[0];
    assert sorted[0] in sorted && sorted[b] in sorted;
    NewerIsStrict(runs, k, sorted[b]);
    forall j: nat | j < |runs| && SameGroup(runs, p, j, k) && j != k ensures NewerAt(runs, k, j) {
      assert j in groups[key];
      var a :| 0 <= a < |sorted| && sorted[a] == j;
    }
  }

  predicate GroupRaises(runs: seq<Run>, group: seq<nat>)
    requires InRange(runs, group)
  {
    |group| > 1 && exists a, b | 0 <= a < |group| && 0 <= b < |group| :: Unsortable(runs[group[a]], runs[group[b]])
  }

  /** Sorting some group raises. */
  predicate SomeGroupRaises(runs: seq<Run>, p: Policy, groups: map<Key, seq<nat>>, keys: set<Key>) {
    exists key | key in keys && key in groups :: InRange(runs, groups[key]) && GroupRaises(runs, groups[key])
  }

  lemma RaisesInGroup(runs: seq<Run>, p: Policy, groups: map<Key, seq<nat>>)
    requires GroupsOf(runs, p, |runs|, groups)
    ensures GroupsRaise(runs, p) <==> SomeGroupRaises(runs, p, groups, groups.Keys)
  {
    hide Eligible, IdentityKey, Unsortable;
    if GroupsRaise(runs, p) { PairRaises(runs, p, groups); }
    if SomeGroupRaises(runs, p, groups, groups.Keys) { RaisesPair(runs, p, groups); }
  }

  lemma PairRaises(runs: seq<Run>, p: Policy, groups: map<Key, seq<nat>>)
    requires GroupsOf(runs, p, |runs|, groups) && GroupsRaise(runs, p)
    ensures SomeGroupRaises(runs, p, groups, groups.Keys)
  {
    hide Eligible, IdentityKey, Unsortable;
    var i: nat, k: nat :| i < |runs| && k < |runs| && i != k && SameGroup(runs, p, i, k)
                       && Unsortable(runs[i], runs[k]);
    var key := IdentityKey(runs[i], p);
    var g := groups[key];
    assert i in g && k in g;
    GroupInRange(runs, p, groups, key);
    var a :| 0 <= a < |g| && g[a] == i;
    var b :| 0 <= b < |g| && g[b] == k;
    assert GroupRaises(runs, g);
  }

  lemma RaisesPair(runs: seq<Run>, p: Policy, groups: map<Key, seq<nat>>)
    requires GroupsOf(runs, p, |runs|, groups) && SomeGroupRaises(runs, p, groups, groups.Keys)
    ensures GroupsRaise(runs, p)
  {
    hide Eligible, IdentityKey, Unsortable;
    var key :| key in groups && InRange(runs, groups[key]) && GroupRaises(runs, groups[key]);
    var g := groups[key];
    var a, b :| 0 <= a < |g| && 0 <= b < |g| && Unsortable(runs[g[a]], runs[g[b]]);
    var c := if a != b then b else if a == 0 then 1 else 0;
    assert g[a] in g && g[c] in g && Ascending(g);
    UnsortableAlone(runs[g[a]], runs[g[b]], runs[g[c]], a == b);
    assert SameGroup(runs, p, g[a], g[c]);
  }

  lemma UnsortableAlone(a: Run, b: Run, c: Run, same: bool)
    requires Unsortable(a, b) && if same then a == b else b == c
    ensures Unsortable(a, c)
  {
  }

  lemma StaleSplit(runs: seq<Run>, p: Policy, done: set<Key>, key: Key, id: int, r: Reason)
    ensures StaleIn(runs, p, done + {key}, id, r)
       <==> StaleIn(runs, p, done, id, r) || StaleIn(runs, p, {key}, id, r)
  {
  }

  /** The middle loop: every group is sorted and its stale members marked, unless the sort
      raises. */
  method MarkGroups(runs: seq<Run>, p: Policy, groups: map<Key, seq<nat>>, reasons: map<int, set<Reason>>)
    returns (raised: bool, reasons': map<int, set<Reason>>)
    requires GroupsOf(runs, p, |runs|, groups) && NoneEmpty(reasons)
    ensures raised <==> GroupsRaise(runs, p)
    ensures !raised ==> NoneEmpty(reasons')
    ensures !raised ==> forall id, r ::
      Has(reasons', id, r) <==> Has(reasons, id, r) || StaleIn(runs, p, groups.Keys, id, r)
  {
    hide Eligible, IdentityKey, NewerAt, StaleFor;
    RaisesInGroup(runs, p, groups);
    raised, reasons' := false, reasons;
    var left := groups.Keys;
    ghost var done: set<Key> := {};
    while left != {}
      invariant done !! left && done + left == groups.Keys && NoneEmpty(reasons')
      invariant !SomeGroupRaises(runs, p, groups, done)
      invariant forall id, r :: Has(reasons', id, r) <==> Has(reasons, id, r) || StaleIn(runs, p, done, id, r)
      decreases left
    {
      var key :| key in left;
      var group := groups[key];
      ghost var before, done' := reasons', done;
      GroupInRange(runs, p, groups, key);
      if |group| > 1 {
        if exists a, b | 0 <= a < |group| && 0 <= b < |group| :: Unsortable(runs[group[a]], runs[group[b]]) {
          assert GroupRaises(runs, group);
          return true, reasons';
        }
        var sorted := SortGroup(runs, group);
        reasons' := MarkStale(runs, sorted, reasons');
        forall id, r ensures Has(reasons', id, r) <==> Has(before, id, r) || StaleIn(runs, p, {key}, id, r) {
          GroupIsStale(runs, p, groups, key, sorted, id, r);
        }
      } else {
        assert NewestFirst(runs, group);
        forall id, r ensures !StaleIn(runs, p, {key}, id, r) {
          GroupIsStale(runs, p, groups, key, group, id, r);
        }
      }
      left, done := left - {key}, done + {key};
      forall id, r
        ensures StaleIn(runs, p, done, id, r) <==> StaleIn(runs, p, done', id, r) || StaleIn(runs, p, {key}, id, r)
      {
        StaleSplit(runs, p, done', key, id, r);
      }
    }
    assert done == groups.Keys;
  }

  // ----- the selected runs ------------------------------------------------------------------------

  lemma RecordedReasons(runs: seq<Run>, p: Policy, reasons: map<int, set<Reason>>, groups: map<Key, seq<nat>>, id: int)
    requires GroupsOf(runs, p, |runs|, groups) && NoneEmpty(reasons)
    requires forall r ::
      Has(reasons, id, r)
      <==> (r == Obsolete && ObsoleteAmong(runs, p, |runs|, id)) || StaleIn(runs, p, groups.Keys, id, r)
    ensures id in reasons <==> Reasons(runs, p, id) != {}
    ensures id in reasons ==> reasons[id] == Reasons(runs, p, id)
  {
    hide Eligible, IdentityKey, NewerAt;
    forall r ensures r in Reasons(runs, p, id) <==> Has(reasons, id, r) {
      if StaleIn(runs, p, groups.Keys, id, r) {
        var i: nat, k: nat :| i < |runs| && k < |runs| && StaleFor(runs, p, i, k) && IdOrZero(runs[i]) == id
                           && r == SupersededBy(IdOrZero(runs[k]));
      }
      if r in Reasons(runs, p, id) && r != Obsolete {
        var i: nat, k: nat :| i < |runs| && k < |runs| && IdOrZero(runs[i]) == id && StaleFor(runs, p, i, k)
                           && r == SupersededBy(IdOrZero(runs[k]));
        assert IdentityKey(runs[k], p) in groups;
      }
    }
    if id in reasons {
      var r :| r in reasons[id];
      assert Has(reasons, id, r);
    }
  }

  lemma EmptyHasNone(ids: set<int>)
    ensures (forall n :: n !in ids) ==> ids == {}
  {
    if forall n :: n !in ids { assert ids == {}; }
  }

  method AnyOf(ids: set<int>) returns (n: int)
    requires ids != {}
    ensures n in ids
  {
    EmptyHasNone(ids);
    n :| n in ids;
  }

  predicate IsCandidate(c: Candidate, byId: map<int, Run>, reasons: map<int, set<Reason>>, done: set<int>)
    requires done <= reasons.Keys
  {
    c.id in byId && c.id in done && c == Candidate(c.id, byId[c.id], reasons[c.id])
  }

  /** `selected.append(..)` for every id with reasons that was listed, then the sort. */
  method SelectRuns(byId: map<int, Run>, reasons: map<int, set<Reason>>) returns (selected: seq<Candidate>)
    ensures Sorted(selected)
    ensures forall c :: c in selected <==> IsCandidate(c, byId, reasons, reasons.Keys)
  {
    selected := [];
    var left := reasons.Keys;
    ghost var done: set<int> := {};
    while left != {}
      invariant done !! left && done + left == reasons.Keys && Sorted(selected)
      invariant forall c :: c in selected <==> IsCandidate(c, byId, reasons, done)
      decreases left
    {
      var id := AnyOf(left);
      if id in byId {
        var c := Candidate(id, byId[id], reasons[id]);
        InsertSorted(c, selected);
        selected := Insert(c, selected);
      }
      left, done := left - {id}, done + {id};
    }
    assert done == reasons.Keys;
  }

  lemma ListedCandidate(runs: seq<Run>, p: Policy, byId: map<int, Run>, id: int)
    requires LastById(runs, |runs|, byId)
    ensures id in byId <==> exists i: nat | i < |runs| :: LastOf(runs, i, id)
    ensures forall i: nat | LastOf(runs, i, id) :: id in byId && byId[id] == runs[i]
  {
    hide LastUnder;
    LastUnderIsLast(runs, |runs|, id);
    if LastUnder(runs, |runs|, id).Some? {
      var r := LastUnder(runs, |runs|, id).value;
      var at: nat :| at < |runs| && runs[at] == r && ListedId(r) == Some(id)
                     && forall j | at < j < |runs| :: ListedId(runs[j]) != Some(id);
      assert LastOf(runs, at, id);
    }
  }

  lemma {:induction false} LastUnderIsLast(runs: seq<Run>, n: nat, id: int)
    requires n <= |runs|
    ensures match LastUnder(runs, n, id)
      case None => forall j | 0 <= j < n :: ListedId(runs[j]) != Some(id)
      case Some(r) => exists i: nat :: i < n && runs[i] == r && ListedId(r) == Some(id)
                               && forall j | i < j < n :: ListedId(runs[j]) != Some(id)
  {
    if n > 0 && ListedId(runs[n - 1]) != Some(id) { LastUnderIsLast(runs, n - 1, id); }
  }

  /** `collect_candidates`: raises, or returns the plan. */
  method CollectCandidates(runs: seq<Run>, p: Policy) returns (selected: Option<seq<Candidate>>)
    ensures selected == if Raises(runs, p) then None else Some(Plan(runs, p))
  {
    hide Eligible, IdentityKey, NewerAt, Reasons, PlanUpTo, StaleIn, GroupsOf, LastById, ObsoleteAmong;
    var byId, obsolete := ReadIds(runs, p);
    var groups := ReadGroups(runs, p);
    var raised, reasons := MarkGroups(runs, p, groups, obsolete);
    if raised { return None; }
    var plan := SelectRuns(byId, reasons);
    PlanMembers(runs, p);
    forall c: Candidate ensures c in plan <==> c in Plan(runs, p) {
      ListedCandidate(runs, p, byId, c.id);
      RecordedReasons(runs, p, reasons, groups, c.id);
      if IsCandidate(c, byId, reasons, reasons.Keys) {
        var i: nat :| i < |runs| && LastOf(runs, i, c.id);
        assert CandidateAt(runs, p, i, c);
      }
    }
    SortedUnique(plan, Plan(runs, p));
    selected := if MixedZones(plan) then None else Some(plan);
  }
}
