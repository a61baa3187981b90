/** scripts/ci/queue_hygiene.py: which runs supersede each other, told by the fields of the runs. */
module QueueIdentity {
  import opened QueueHygiene
  import opened QueueRounds

  /** The first listed pull request has a number. */
  predicate HasNumber(r: Run) {
    && r.pullRequests.Listed? && r.pullRequests.items != []
    && r.pullRequests.items[0].Numbered? && r.pullRequests.items[0].number != ""
  }

  function NumberOf(r: Run): string
    requires HasNumber(r)
  {
    r.pullRequests.items[0].number
  }

  /** The branch of `q`, a run without a number, reads as the target of the numbered run `r`. */
  predicate BranchReadsAs(q: Run, r: Run, p: Policy)
    requires HasNumber(r)
  {
    q.headBranch == "pr:" + NumberOf(r) && (p.byBranch || q.headSha == "")
  }

  /** The runs are for the same pull request, or, both without one, for the same branch and commit, the
      commit counting unless runs go by branch. A run without one also matches by such a branch name. */
  predicate SameTarget(r: Run, q: Run, p: Policy) {
    && r.name == q.name && r.event == q.event
    && if HasNumber(r) && HasNumber(q) then NumberOf(r) == NumberOf(q)
       else if HasNumber(r) then BranchReadsAs(q, r, p)
       else if HasNumber(q) then BranchReadsAs(r, q, p)
       else r.headBranch == q.headBranch && (p.byBranch || r.headSha == q.headSha)
  }

  /** The workflow is deduplicated, and runs without a pull request take part or this is one of a
      pull-request event that lists one. */
  predicate TakesPart(r: Run, p: Policy) {
    && r.name in p.dedupe
    && (p.includeNonPr
        || ((r.event == "pull_request" || r.event == "pull_request_target")
            && r.pullRequests.Listed? && |r.pullRequests.items| > 0))
  }

  lemma NumberMeans(r: Run)
    ensures HasNumber(r) <==> PrNumber(r) != ""
    ensures HasNumber(r) ==> PrNumber(r) == NumberOf(r)
  {
  }

  lemma TargetTextsDiffer(a: string, b: string)
    ensures "pr:" + a == "pr:" + b <==> a == b
  {
    assert ("pr:" + a)[3..] == a && ("pr:" + b)[3..] == b;
  }

  /** Two runs are in one group exactly when both take part and have the same target. */
  lemma MatesIff(p: Policy, r: Run, q: Run)
    ensures Mates(p, r, q) <==> TakesPart(r, p) && TakesPart(q, p) && SameTarget(r, q, p)
  {
    NumberMeans(r);
    NumberMeans(q);
    TargetTextsDiffer(PrNumber(r), PrNumber(q));
  }

  /** A branch named like the target of a pull request: its run without a number is a mate of the runs of
      that pull request when runs go by branch. */
  lemma BranchLikePullRequest(p: Policy, r: Run, q: Run)
    requires TakesPart(r, p) && TakesPart(q, p) && p.byBranch && r.name == q.name && r.event == q.event
    requires HasNumber(r) && !HasNumber(q) && q.headBranch == "pr:" + NumberOf(r)
    ensures Mates(p, r, q)
  {
    MatesIff(p, r, q);
  }

  /** No branch is named like the target of a pull request. */
  predicate PlainBranches(runs: seq<Run>) {
    forall r | r in runs && !HasNumber(r) :: !("pr:" <= r.headBranch)
  }

  /** The runs of one pull request, or of no pull request and one branch. */
  predicate SameWork(r: Run, q: Run) {
    && r.name == q.name && r.event == q.event && (HasNumber(r) <==> HasNumber(q))
    && (HasNumber(r) ==> NumberOf(r) == NumberOf(q)) && (!HasNumber(r) ==> r.headBranch == q.headBranch)
  }

  /** A superseded run gives way to an entry of its own group: a run of a pull request never to a run of
      another, and with plain branch names only to a run of the same. */
  lemma SupersededByItsOwn(runs: seq<Run>, p: Policy, c: Candidate, n: int) returns (i: nat, k: nat)
    requires c in Plan(runs, p) && SupersededBy(n) in c.reasons
    ensures i < |runs| && k < |runs| && i != k && IdOrZero(runs[i]) == c.id && IdOrZero(runs[k]) == n
    ensures TakesPart(runs[i], p) && TakesPart(runs[k], p) && SameTarget(runs[i], runs[k], p)
    ensures HasNumber(runs[i]) && HasNumber(runs[k]) ==> NumberOf(runs[i]) == NumberOf(runs[k])
    ensures PlainBranches(runs) ==> SameWork(runs[i], runs[k])
  {
    hide Mates, SameTarget, TakesPart;
    PlanMembers(runs, p);
    var j: nat :| j < |runs| && CandidateAt(runs, p, j, c);
    i, k := ReasonNames(runs, p, c.id, n);
    assert Mates(p, runs[i], runs[k]) by { GroupsAreMates(runs, p, i, k); }
    MatesIff(p, runs[i], runs[k]);
    assert runs[i] in runs && runs[k] in runs;
    TargetsAreWork(runs[i], runs[k], p);
  }

  lemma GroupsAreMates(runs: seq<Run>, p: Policy, i: nat, k: nat)
    ensures SameGroup(runs, p, i, k) <==> i < |runs| && k < |runs| && Mates(p, runs[i], runs[k])
  {
  }

  lemma ReasonNames(runs: seq<Run>, p: Policy, id: int, n: int) returns (i: nat, k: nat)
    requires SupersededBy(n) in Reasons(runs, p, id)
    ensures i < |runs| && k < |runs| && IdOrZero(runs[i]) == id && IdOrZero(runs[k]) == n && StaleFor(runs, p, i, k)
  {
    hide StaleFor;
    i, k :| i < |runs| && k < |runs| && IdOrZero(runs[i]) == id && StaleFor(runs, p, i, k) && n == IdOrZero(runs[k]);
  }

  lemma TargetsAreWork(r: Run, q: Run, p: Policy)
    requires SameTarget(r, q, p)
    ensures HasNumber(r) && HasNumber(q) ==> NumberOf(r) == NumberOf(q)
    ensures (!HasNumber(r) ==> !("pr:" <= r.headBranch)) && (!HasNumber(q) ==> !("pr:" <= q.headBranch)) ==>
      SameWork(r, q)
  {
  }

  /** With distinct ids: a run is planned exactly when its workflow is obsolete or a later run with the
      same target takes part as well. */
  lemma PlannedIff(runs: seq<Run>, p: Policy, r: Run)
    requires DistinctIds(runs) && r in runs
    ensures (exists c :: c in Plan(runs, p) && c.run == r)
       <==> r.name in p.obsolete || exists q | q in runs ::
              && TakesPart(r, p) && TakesPart(q, p) && SameTarget(r, q, p)
              && (q.createdAt > r.createdAt || (q.createdAt == r.createdAt && q.id.n > r.id.n))
  {
    hide Mates, SameTarget, TakesPart, Plan, Reasons;
    PlanIsSelection(runs, p);
    var c := Candidate(r.id.n, r, Reasons(runs, p, r.id.n));
    assert Chosen(runs, p, c) <==> Selected(runs, p, r);
    forall q ensures Mates(p, r, q) <==> TakesPart(r, p) && TakesPart(q, p) && SameTarget(r, q, p) {
      MatesIff(p, r, q);
    }
  }
}
