/** scripts/ci/queue_hygiene.py: which runs are planned and spared, and rounds of cancelling under a cap. */
module QueueRounds {
  import opened Text
  import opened QueueHygiene

  /** Every entry has its own id. */
  predicate DistinctIds(runs: seq<Run>) {
    && (forall i | 0 <= i < |runs| :: runs[i].id.Id?)
    && (forall i, j | 0 <= i < j < |runs| :: runs[i].id != runs[j].id)
  }

  predicate Mates(p: Policy, r: Run, q: Run) {
    Eligible(r, p) && Eligible(q, p) && IdentityKey(r, p) == IdentityKey(q, p)
  }

  predicate Newer(q: Run, r: Run) {
    q.createdAt > r.createdAt || (q.createdAt == r.createdAt && IdOrZero(q) > IdOrZero(r))
  }

  /** `q` is the newest run of its identity group. */
  predicate Newest(runs: seq<Run>, p: Policy, q: Run) {
    q in runs && forall x | x in runs && Mates(p, x, q) && x != q :: Newer(q, x)
  }

  /** The run is to be cancelled: its workflow is obsolete, or its group has a newer run. */
  predicate Selected(runs: seq<Run>, p: Policy, r: Run) {
    r in runs && (r.name in p.obsolete || exists q | q in runs :: Mates(p, r, q) && Newer(q, r))
  }

  // ----- reasons, without positions -------------------------------------------------------------

  lemma DistinctRuns(runs: seq<Run>)
    requires DistinctIds(runs)
    ensures forall i, j | 0 <= i < |runs| && 0 <= j < |runs| && runs[i].id == runs[j].id :: i == j
  {
    assert forall i, j | 0 <= j < i < |runs| :: runs[j].id != runs[i].id;
  }

  lemma StaleMeans(runs: seq<Run>, p: Policy, i: nat, k: nat)
    requires DistinctIds(runs) && i < |runs| && k < |runs|
    ensures StaleFor(runs, p, i, k)
       <==> i != k && Mates(p, runs[i], runs[k]) && Newest(runs, p, runs[k])
  {
    hide Eligible, IdentityKey;
    DistinctRuns(runs);
    if Mates(p, runs[i], runs[k]) && i != k {
      if StaleFor(runs, p, i, k) {
        forall x | x in runs && Mates(p, x, runs[k]) && x != runs[k] ensures Newer(runs[k], x) {
          var j :| 0 <= j < |runs| && runs[j] == x;
          assert SameGroup(runs, p, j, k);
          assert NewerAt(runs, k, j);
        }
      }
      if Newest(runs, p, runs[k]) {
        forall j: nat | j < |runs| && SameGroup(runs, p, j, k) && j != k ensures NewerAt(runs, k, j) {
          assert Mates(p, runs[j], runs[k]) && runs[j] != runs[k];
        }
      }
    }
  }

  /** `n` is the id of the newest run of the group of `r`, another run. */
  predicate NamesNewest(runs: seq<Run>, p: Policy, r: Run, n: int)
    requires DistinctIds(runs)
  {
    exists q | q in runs && q.id.n == n :: q != r && Mates(p, r, q) && Newest(runs, p, q)
  }

  /** The reasons for a run depend on the set of listed runs alone. */
  lemma ReasonsMean(runs: seq<Run>, p: Policy, r: Run)
    requires DistinctIds(runs) && r in runs
    ensures Obsolete in Reasons(runs, p, r.id.n) <==> r.name in p.obsolete
    ensures forall n :: SupersededBy(n) in Reasons(runs, p, r.id.n) <==> NamesNewest(runs, p, r, n)
  {
    hide Newest, Mates, Eligible, StaleFor;
    DistinctRuns(runs);
    var at: nat :| at < |runs| && runs[at] == r;
    var id := r.id.n;
    assert ListedId(runs[at]) == Some(id);
    forall n
      ensures SupersededBy(n) in Reasons(runs, p, id) <==> NamesNewest(runs, p, r, n)
    {
      if SupersededBy(n) in Reasons(runs, p, id) {
        var i: nat, k: nat :| i < |runs| && k < |runs| && IdOrZero(runs[i]) == id && StaleFor(runs, p, i, k)
                           && n == IdOrZero(runs[k]);
        assert i == at;
        StaleMeans(runs, p, i, k);
        assert runs[k] in runs && runs[k].id.n == n;
      }
      if q :| q in runs && q.id.n == n && q != r && Mates(p, r, q) && Newest(runs, p, q) {
        var k: nat :| k < |runs| && runs[k] == q;
        StaleMeans(runs, p, at, k);
        assert StaleFor(runs, p, at, k) && IdOrZero(runs[at]) == id && IdOrZero(runs[k]) == n;
      }
    }
  }

  lemma {:induction false} NewestExists(runs: seq<Run>, p: Policy, r: Run, n: nat) returns (m: Run)
    requires DistinctIds(runs) && r in runs && Eligible(r, p) && n <= |runs|
    ensures m in runs && Mates(p, r, m) && (m == r || Newer(m, r))
    ensures forall x | x in runs[..n] && Mates(p, x, m) && x != m :: Newer(m, x)
  {
    hide Eligible, IdentityKey;
    if n == 0 {
      m := r;
    } else {
      m := NewestExists(runs, p, r, n - 1);
      var x := runs[n - 1];
      assert runs[..n] == runs[..n - 1] + [x];
      DistinctRuns(runs);
      if Mates(p, x, m) && Newer(x, m) {
        var m' := m;
        m := x;
        forall y | y in runs[..n] && Mates(p, y, m) && y != m ensures Newer(m, y) {
          assert y != m' ==> Newer(m', y);
        }
      } else if Mates(p, x, m) && x != m {
        assert x.id != m.id;
      }
    }
  }

  lemma NewestMate(runs: seq<Run>, p: Policy, r: Run) returns (m: Run)
    requires DistinctIds(runs) && r in runs && Eligible(r, p)
    ensures m in runs && Mates(p, r, m) && (m == r || Newer(m, r)) && Newest(runs, p, m)
  {
    m := NewestExists(runs, p, r, |runs|);
    assert runs[..|runs|] == runs;
  }

  /** A run has a reason exactly when it is to be cancelled. */
  lemma ReasonsAreSelection(runs: seq<Run>, p: Policy, r: Run)
    requires DistinctIds(runs) && r in runs
    ensures Reasons(runs, p, r.id.n) != {} <==> Selected(runs, p, r)
  {
    hide Eligible, IdentityKey;
    var reasons := Reasons(runs, p, r.id.n);
    ReasonsMean(runs, p, r);
    if Selected(runs, p, r) && r.name !in p.obsolete {
      var m := NewestMate(runs, p, r);
      var q :| q in runs && Mates(p, r, q) && Newer(q, r);
      assert m != r by { assert Newest(runs, p, m); assert m == r ==> Newer(r, q); }
      assert SupersededBy(m.id.n) in reasons;
    }
    if reasons != {} && r.name !in p.obsolete {
      var reason :| reason in reasons;
      assert reason.SupersededBy?;
      var q :| q in runs && q.id.n == reason.keepId && q != r && Mates(p, r, q) && Newest(runs, p, q);
      assert Newer(q, r);
    }
  }

  predicate Chosen(runs: seq<Run>, p: Policy, c: Candidate)
    requires DistinctIds(runs)
  {
    && c.run in runs && Selected(runs, p, c.run)
    && c.id == c.run.id.n && c.reasons == Reasons(runs, p, c.id)
  }

  /** With distinct ids the plan holds exactly the selected runs, oldest first. */
  lemma PlanIsSelection(runs: seq<Run>, p: Policy)
    requires DistinctIds(runs)
    ensures Sorted(Plan(runs, p))
    ensures forall c :: c in Plan(runs, p) <==> Chosen(runs, p, c)
  {
    hide Reasons, Selected;
    PlanMembers(runs, p);
    DistinctRuns(runs);
    forall c ensures c in Plan(runs, p) <==> Chosen(runs, p, c) {
      if c in Plan(runs, p) {
        var i: nat :| i < |runs| && CandidateAt(runs, p, i, c);
        ReasonsAreSelection(runs, p, runs[i]);
      }
      if Chosen(runs, p, c) {
        var i: nat :| i < |runs| && runs[i] == c.run;
        ReasonsAreSelection(runs, p, c.run);
        assert CandidateAt(runs, p, i, c);
      }
    }
  }

  /** The newest run of an identity group is never cancelled unless its workflow is obsolete. */
  lemma NewestIsSpared(runs: seq<Run>, p: Policy, r: Run)
    requires DistinctIds(runs) && Newest(runs, p, r) && r.name !in p.obsolete
    ensures forall c | c in Plan(runs, p) :: c.id != r.id.n
  {
    hide Eligible, IdentityKey, Reasons, PlanUpTo;
    PlanIsSelection(runs, p);
    DistinctRuns(runs);
    forall q | q in runs && Mates(p, r, q) ensures !Newer(q, r) {
      assert q != r ==> Newer(r, q);
    }
    assert !Selected(runs, p, r);
    forall c | c in Plan(runs, p) ensures c.id != r.id.n {
      assert c.run != r && c.run.id.n == c.id;
    }
  }

  // ----- listings with repeated entries ---------------------------------------------------------------

  lemma {:induction false} KeptAt(runs: seq<Run>, p: Policy, i: nat, n: nat) returns (k: nat)
    requires i < |runs| && Eligible(runs[i], p) && n <= |runs|
    ensures SameGroup(runs, p, i, k) && (k == i || NewerAt(runs, k, i))
    ensures forall j: nat | j < n && SameGroup(runs, p, j, k) && j != k :: NewerAt(runs, k, j)
  {
    hide Eligible, IdentityKey;
    if n == 0 {
      k := i;
    } else {
      k := KeptAt(runs, p, i, n - 1);
      var x := n - 1;
      if SameGroup(runs, p, x, k) && x != k && !NewerAt(runs, k, x) {
        var k' := k;
        k := x;
        forall j: nat | j < n && SameGroup(runs, p, j, k) && j != k ensures NewerAt(runs, k, j) {
          assert j != k' ==> NewerAt(runs, k', j);
        }
      }
    }
  }

  /** An entry that is listed twice and takes part in deduplication has a reason to be cancelled. */
  lemma RepeatedIsStale(runs: seq<Run>, p: Policy, i: nat, j: nat)
    requires i < |runs| && j < |runs| && i != j && runs[i] == runs[j]
    requires runs[i].id.Id? && Eligible(runs[i], p)
    ensures Reasons(runs, p, runs[i].id.n) != {}
  {
    hide Eligible, IdentityKey, NewerAt;
    var k := KeptAt(runs, p, i, |runs|);
    var stale := if i == k then j else i;
    assert StaleFor(runs, p, stale, k) && IdOrZero(runs[stale]) == runs[i].id.n;
    assert SupersededBy(IdOrZero(runs[k])) in Reasons(runs, p, runs[i].id.n);
  }

  /** A listing that may repeat entries, as overlapping pages do. */
  predicate RepeatsOnly(runs: seq<Run>) {
    && (forall i | 0 <= i < |runs| :: runs[i].id.Id?)
    && (forall i, j | 0 <= i < |runs| && 0 <= j < |runs| && runs[i].id == runs[j].id :: runs[i] == runs[j])
  }

  lemma {:induction false} LastListed(runs: seq<Run>, id: int, n: nat) returns (i: nat)
    requires n <= |runs| && exists j: nat | j < |runs| :: j >= n && ListedId(runs[j]) == Some(id)
    ensures LastOf(runs, i, id) && i >= n
    decreases |runs| - n
  {
    if exists j: nat | j < |runs| :: j >= n + 1 && ListedId(runs[j]) == Some(id) {
      i := LastListed(runs, id, n + 1);
    } else {
      i := n;
    }
  }

  /** In such a listing the newest run of a group is spared exactly when it is listed once: listed
      twice, it supersedes itself and is cancelled. */
  lemma NewestSparedIffListedOnce(runs: seq<Run>, p: Policy, k: nat)
    requires RepeatsOnly(runs) && k < |runs| && Eligible(runs[k], p) && runs[k].name !in p.obsolete
    requires Newest(runs, p, runs[k])
    ensures (exists c | c in Plan(runs, p) :: c.id == runs[k].id.n)
       <==> exists j: nat | j < |runs| :: j != k && runs[j] == runs[k]
  {
    hide Eligible, IdentityKey, PlanUpTo;
    var id := runs[k].id.n;
    PlanMembers(runs, p);
    if j: nat :| j < |runs| && j != k && runs[j] == runs[k] {
      RepeatedIsStale(runs, p, k, j);
      var i := LastListed(runs, id, 0);
      assert CandidateAt(runs, p, i, Candidate(id, runs[i], Reasons(runs, p, id)));
    }
    if c :| c in Plan(runs, p) && c.id == id {
      var at: nat :| at < |runs| && CandidateAt(runs, p, at, c);
      CancelledNewestIsRepeated(runs, p, k);
    }
  }

  /** The newest run of a group has a reason to be cancelled only if it is listed twice. */
  lemma CancelledNewestIsRepeated(runs: seq<Run>, p: Policy, k: nat)
    requires RepeatsOnly(runs) && k < |runs| && Eligible(runs[k], p) && runs[k].name !in p.obsolete
    requires Newest(runs, p, runs[k]) && Reasons(runs, p, runs[k].id.n) != {}
    ensures exists j: nat | j < |runs| :: j != k && runs[j] == runs[k]
  {
    hide Eligible, IdentityKey;
    var id := runs[k].id.n;
    var reason :| reason in Reasons(runs, p, id);
    assert reason.SupersededBy?;
    var i: nat, m: nat :| i < |runs| && m < |runs| && IdOrZero(runs[i]) == id && StaleFor(runs, p, i, m);
    assert runs[i] == runs[k];
    var mate := runs[m];
    assert mate == runs[k] || Newer(runs[k], mate);
    assert i == k ==> NewerAt(runs, m, k);
  }

  // ----- capped rounds ------------------------------------------------------------------------------

  /** The runs still queued after a batch was cancelled. */
  function Remaining(runs: seq<Run>, gone: set<int>): seq<Run> {
    if runs == [] then []
    else (if IdOrZero(runs[0]) in gone then [] else [runs[0]]) + Remaining(runs[1..], gone)
  }

  lemma {:induction false} RemainingMembers(runs: seq<Run>, gone: set<int>)
    requires DistinctIds(runs)
    ensures DistinctIds(Remaining(runs, gone)) && |Remaining(runs, gone)| <= |runs|
    ensures forall r :: r in Remaining(runs, gone) <==> r in runs && IdOrZero(r) !in gone
  {
    if runs != [] {
      RemainingMembers(runs[1..], gone);
      assert runs == [runs[0]] + runs[1..];
      assert forall r | r in Remaining(runs[1..], gone) :: r in runs[1..] && r.id != runs[0].id;
    }
  }

  function Ids(batch: seq<Candidate>): set<int> {
    set c | c in batch :: c.id
  }

  /** The batch is the part of the plan up to the cap. */
  function Batch(plan: seq<Candidate>, cap: nat): seq<Candidate> {
    if |plan| <= cap then plan else plan[..cap]
  }

  /** Whatever is selected later than a cancelled run was cancelled before it. */
  lemma BatchIsOldest(runs: seq<Run>, p: Policy, cap: nat, r: Run, q: Run)
    requires DistinctIds(runs) && Selected(runs, p, r) && Selected(runs, p, q) && Newer(q, r)
    requires q.id.n in Ids(Batch(Plan(runs, p), cap))
    ensures r.id.n in Ids(Batch(Plan(runs, p), cap))
  {
    hide Reasons, Mates, PlanUpTo;
    var plan := Plan(runs, p);
    PlanIsSelection(runs, p);
    DistinctRuns(runs);
    var c := Candidate(r.id.n, r, Reasons(runs, p, r.id.n));
    assert c in plan;
    var d :| d in Batch(plan, cap) && d.id == q.id.n;
    assert d in plan && d.run == q;
    var i :| 0 <= i < |plan| && plan[i] == c;
    var j :| 0 <= j < |Batch(plan, cap)| && Batch(plan, cap)[j] == d;
    assert plan[j] == d && Before(c, d);
    assert i < j;
    assert Batch(plan, cap)[i] == c;
  }

  /** A run that stays queued keeps its group's newest run beside it. */
  lemma NewestStays(runs: seq<Run>, p: Policy, cap: nat, r: Run, m: Run)
    requires DistinctIds(runs) && r in runs && Newest(runs, p, m) && Mates(p, r, m)
    requires r.id.n !in Ids(Batch(Plan(runs, p), cap))
    ensures m.id.n !in Ids(Batch(Plan(runs, p), cap))
  {
    hide Eligible, IdentityKey, Reasons, PlanUpTo;
    var batch := Batch(Plan(runs, p), cap);
    if m != r && m.id.n in Ids(batch) {
      PlanIsSelection(runs, p);
      DistinctRuns(runs);
      var d :| d in batch && d.id == m.id.n;
      assert d in Plan(runs, p) && d.run == m;
      assert Selected(runs, p, m) && Selected(runs, p, r) && Newer(m, r);
      BatchIsOldest(runs, p, cap, r, m);
    }
  }

  lemma NewestCarriesOver(runs: seq<Run>, p: Policy, cap: nat, r: Run, q: Run)
    requires DistinctIds(runs) && r in runs && q in runs && Mates(p, r, q)
    requires r.id.n !in Ids(Batch(Plan(runs, p), cap))
    ensures var rest := Remaining(runs, Ids(Batch(Plan(runs, p), cap)));
      Newest(runs, p, q) <==> Newest(rest, p, q)
  {
    hide Reasons, PlanUpTo, Batch, Ids, IdentityKey, Eligible;
    var gone := Ids(Batch(Plan(runs, p), cap));
    var rest := Remaining(runs, gone);
    RemainingMembers(runs, gone);
    if Newest(runs, p, q) {
      NewestStays(runs, p, cap, r, q);
    }
    if Newest(rest, p, q) {
      var m := NewestMate(runs, p, r);
      NewestStays(runs, p, cap, r, m);
      assert m in rest && Mates(p, m, q);
      if m != q {
        assert Newer(q, m) && Newer(m, q);
      }
    }
  }

  /** Cancelling a batch changes no reason of a run that stays. */
  lemma ReasonsCarryOver(runs: seq<Run>, p: Policy, cap: nat, r: Run)
    requires DistinctIds(runs) && r in runs && r in Remaining(runs, Ids(Batch(Plan(runs, p), cap)))
    ensures Reasons(Remaining(runs, Ids(Batch(Plan(runs, p), cap))), p, r.id.n) == Reasons(runs, p, r.id.n)
  {
    hide Reasons, PlanUpTo, Batch, Ids, IdentityKey, Eligible, Newest;
    var gone := Ids(Batch(Plan(runs, p), cap));
    var rest := Remaining(runs, gone);
    RemainingMembers(runs, gone);
    ReasonsMean(runs, p, r);
    ReasonsMean(rest, p, r);
    forall q | q in runs && Mates(p, r, q)
      ensures Newest(runs, p, q) <==> Newest(rest, p, q)
      ensures Newest(rest, p, q) ==> q in rest
    {
      NewestCarriesOver(runs, p, cap, r, q);
      NewestIsMember(rest, p, q);
    }
    var before, after := Reasons(runs, p, r.id.n), Reasons(rest, p, r.id.n);
    forall reason: Reason ensures reason in after <==> reason in before {
      match reason
      case Obsolete =>
      case SupersededBy(n) => assert NamesNewest(runs, p, r, n) <==> NamesNewest(rest, p, r, n);
    }
  }

  lemma NewestIsMember(runs: seq<Run>, p: Policy, q: Run)
    ensures Newest(runs, p, q) ==> q in runs
  {
  }

  /** Selecting again after one capped batch is gone selects exactly the rest of the old plan,
      with the same reasons. */
  lemma PlanAfterBatch(runs: seq<Run>, p: Policy, cap: nat)
    requires DistinctIds(runs)
    ensures var plan := Plan(runs, p);
      Plan(Remaining(runs, Ids(Batch(plan, cap))), p) == plan[|Batch(plan, cap)|..]
  {
    hide Reasons, PlanUpTo, IdentityKey, Eligible, Newest, Selected, Chosen, Remaining, Sorted;
    var plan := Plan(runs, p);
    var batch := Batch(plan, cap);
    var rest := Remaining(runs, Ids(batch));
    var later := plan[|batch|..];
    RemainingMembers(runs, Ids(batch));
    PlanIsSelection(runs, p);
    PlanIsSelection(rest, p);
    assert plan == batch + later;
    PlanNamesRunsOnce(runs, p);
    SortedSuffix(plan, |batch|);
    forall c ensures c in Plan(rest, p) <==> c in later {
      BatchOrLater(plan, batch, later, c);
      ChosenCarriesOver(runs, p, cap, c, Ids(batch), rest);
    }
    SortedUnique(Plan(rest, p), later);
  }

  lemma PlanNamesRunsOnce(runs: seq<Run>, p: Policy)
    requires DistinctIds(runs)
    ensures forall a, b | a in Plan(runs, p) && b in Plan(runs, p) && a.id == b.id :: a == b
  {
    hide Reasons, Plan, Selected;
    PlanIsSelection(runs, p);
  }

  lemma SortedSuffix(s: seq<Candidate>, n: nat)
    requires Sorted(s) && n <= |s|
    ensures Sorted(s[n..])
  {
  }

  /** What is chosen among the remaining runs is what was chosen outside the batch. */
  lemma ChosenCarriesOver(runs: seq<Run>, p: Policy, cap: nat, c: Candidate, gone: set<int>, rest: seq<Run>)
    requires DistinctIds(runs) && DistinctIds(rest)
    requires gone == Ids(Batch(Plan(runs, p), cap)) && rest == Remaining(runs, gone)
    ensures Chosen(rest, p, c) <==> Chosen(runs, p, c) && c.id !in gone
  {
    hide Reasons, Plan, IdentityKey, Eligible, Newest, Selected;
    RemainingMembers(runs, gone);
    if c.run in rest && c.id == c.run.id.n {
      ReasonsCarryOver(runs, p, cap, c.run);
      ReasonsAreSelection(runs, p, c.run);
      ReasonsAreSelection(rest, p, c.run);
    }
  }

  lemma BatchOrLater(plan: seq<Candidate>, batch: seq<Candidate>, later: seq<Candidate>, c: Candidate)
    requires plan == batch + later && Sorted(plan)
    requires forall a, b | a in plan && b in plan && a.id == b.id :: a == b
    ensures c in later <==> c in plan && c.id !in Ids(batch)
  {
    if c in later {
      var j :| 0 <= j < |later| && later[j] == c;
      forall i | 0 <= i < |batch| ensures batch[i].id != c.id {
        assert Before(plan[i], plan[|batch| + j]);
      }
    }
  }

  lemma RemainingShrinks(runs: seq<Run>, p: Policy, cap: nat)
    requires DistinctIds(runs) && cap >= 1 && Plan(runs, p) != []
    ensures var rest := Remaining(runs, Ids(Batch(Plan(runs, p), cap)));
      DistinctIds(rest) && |rest| < |runs|
  {
    hide Reasons, PlanUpTo, Selected;
    var plan := Plan(runs, p);
    var gone := Ids(Batch(plan, cap));
    PlanIsSelection(runs, p);
    RemainingMembers(runs, gone);
    var c := plan[0];
    assert c in plan && c in Batch(plan, cap);
    RemainingDrops(runs, gone, c.run);
  }

  lemma {:induction false} RemainingDrops(runs: seq<Run>, gone: set<int>, r: Run)
    requires r in runs && IdOrZero(r) in gone
    ensures |Remaining(runs, gone)| < |runs|
  {
    if runs[0] == r {
      RemainingIsNoLonger(runs[1..], gone);
    } else {
      RemainingDrops(runs[1..], gone, r);
    }
  }

  lemma {:induction false} RemainingIsNoLonger(runs: seq<Run>, gone: set<int>)
    ensures |Remaining(runs, gone)| <= |runs|
  {
    if runs != [] { RemainingIsNoLonger(runs[1..], gone); }
  }

  /** Round after round with the same cap until nothing is selected: the batches, in order. */
  function Rounds(runs: seq<Run>, p: Policy, cap: nat): seq<seq<Candidate>>
    requires DistinctIds(runs) && cap >= 1
    decreases |runs|
  {
    var plan := Plan(runs, p);
    if plan == [] then [] else
      RemainingShrinks(runs, p, cap);
      [Batch(plan, cap)] + Rounds(Remaining(runs, Ids(Batch(plan, cap))), p, cap)
  }

  function Flatten(batches: seq<seq<Candidate>>): seq<Candidate> {
    if batches == [] then [] else batches[0] + Flatten(batches[1..])
  }

  /** Capped rounds terminate, cancel exactly the uncapped plan in its order, and every round but
      the last cancels as many runs as the cap allows. */
  lemma {:induction false} RoundsConverge(runs: seq<Run>, p: Policy, cap: nat)
    requires DistinctIds(runs) && cap >= 1
    ensures var rounds := Rounds(runs, p, cap);
      && Flatten(rounds) == Plan(runs, p)
      && (forall i | 0 <= i < |rounds| - 1 :: |rounds[i]| == cap)
      && (rounds != [] ==> 1 <= |rounds[|rounds| - 1]| <= cap)
    decreases |runs|
  {
    hide PlanUpTo, Remaining, Ids, DistinctIds;
    var plan := Plan(runs, p);
    if plan != [] {
      var batch := Batch(plan, cap);
      var rest := Remaining(runs, Ids(batch));
      RemainingShrinks(runs, p, cap);
      PlanAfterBatch(runs, p, cap);
      RoundsConverge(rest, p, cap);
      var later := Rounds(rest, p, cap);
      assert ([batch] + later)[1..] == later;
      assert batch + plan[|batch|..] == plan;
      assert |plan| <= cap ==> Plan(rest, p) == [] && later == [];
    }
  }
}
