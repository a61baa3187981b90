/** scripts/ci/queue_hygiene.py: which queued workflow runs to cancel. */
module QueueHygiene {
  import opened Text

  /** The `id` field of a run as listed. */
  datatype RunId = Missing | NullId | Unparsable | Id(n: int)

  datatype PullRequest = NotADict | WithoutNumber | Numbered(number: string)

  datatype PullRequests = NotAList | Listed(items: seq<PullRequest>)

  /** A listed run; `createdAt` is its parsed timestamp and `zoned` whether that has a time zone. */
  datatype Run = Run(id: RunId, name: string, event: string, headBranch: string, headSha: string,
                     createdAt: int, zoned: bool, pullRequests: PullRequests)

  datatype Policy = Policy(obsolete: set<string>, dedupe: set<string>, includeNonPr: bool, byBranch: bool)

  datatype Key = Key(name: string, event: string, target: string, sha: string)

  datatype Reason = Obsolete | SupersededBy(keepId: int)

  datatype Candidate = Candidate(id: int, run: Run, reasons: set<Reason>)

  /** The pull-request number of a run, empty when it has none. */
  function PrNumber(run: Run): string {
    match run.pullRequests
    case Listed(items) => if items != [] && items[0].Numbered? then items[0].number else ""
    case NotAList => ""
  }

  /** `run_identity_key`. */
  function IdentityKey(run: Run, p: Policy): Key {
    if PrNumber(run) != "" then Key(run.name, run.event, "pr:" + PrNumber(run), "")
    else if p.byBranch then Key(run.name, run.event, run.headBranch, "")
    else Key(run.name, run.event, run.headBranch, run.headSha)
  }

  /** The run takes part in deduplication. */
  predicate Eligible(run: Run, p: Policy) {
    var isPr := run.event == "pull_request" || run.event == "pull_request_target";
    var hasContext := run.pullRequests.Listed? && run.pullRequests.items != [];
    run.name in p.dedupe && (p.includeNonPr || (isPr && hasContext))
  }

  /** `int(run.get("id"))` where a failure skips the run. */
  function ListedId(run: Run): Option<int> {
    match run.id case Id(n) => Some(n) case _ => None
  }

  /** `int(run.get("id", 0))` where a failure is an exception. */
  function SortId(run: Run): Option<int> {
    match run.id case Id(n) => Some(n) case Missing => Some(0) case _ => None
  }

  function IdOrZero(run: Run): int {
    match SortId(run) case Some(n) => n case None => 0
  }

  // ----- the selection as a function of the listing ----------------------------------------------

  predicate SameGroup(runs: seq<Run>, p: Policy, i: nat, k: nat) {
    && i < |runs| && k < |runs| && Eligible(runs[i], p) && Eligible(runs[k], p)
    && IdentityKey(runs[i], p) == IdentityKey(runs[k], p)
  }

  /** Entry `k` comes before entry `i` when a group is sorted newest first (a stable sort). */
  predicate NewerAt(runs: seq<Run>, k: nat, i: nat)
    requires k < |runs| && i < |runs|
  {
    var a, b := runs[k], runs[i];
    || a.createdAt > b.createdAt
    || (a.createdAt == b.createdAt && IdOrZero(a) > IdOrZero(b))
    || (a.createdAt == b.createdAt && IdOrZero(a) == IdOrZero(b) && k < i)
  }

  /** Entry `i` is stale and entry `k` is the one its group keeps. */
  predicate StaleFor(runs: seq<Run>, p: Policy, i: nat, k: nat) {
    && SameGroup(runs, p, i, k) && i != k
    && forall j: nat | j < |runs| && SameGroup(runs, p, j, k) && j != k :: NewerAt(runs, k, j)
  }

  function Reasons(runs: seq<Run>, p: Policy, id: int): set<Reason> {
    (if exists i | 0 <= i < |runs| :: ListedId(runs[i]) == Some(id) && runs[i].name in p.obsolete
     then {Obsolete} else {})
    + set i: nat, k: nat | i < |runs| && k < |runs| && IdOrZero(runs[i]) == id && StaleFor(runs, p, i, k)
        :: SupersededBy(IdOrZero(runs[k]))
  }

  /** The id of entry `i` and the last entry listed under it: `runs_by_id` keeps the last. */
  predicate LastOf(runs: seq<Run>, i: nat, id: int) {
    && i < |runs| && ListedId(runs[i]) == Some(id)
    && forall j | i < j < |runs| :: ListedId(runs[j]) != Some(id)
  }

  predicate Before(a: Candidate, b: Candidate) {
    a.run.createdAt < b.run.createdAt || (a.run.createdAt == b.run.createdAt && a.id < b.id)
  }

  function Insert(c: Candidate, s: seq<Candidate>): seq<Candidate> {
    if s == [] || Before(c, s[0]) then [c] + s else [s[0]] + Insert(c, s[1..])
  }

  /** Candidates among the first `n` entries, oldest first. */
  function PlanUpTo(runs: seq<Run>, p: Policy, n: nat): seq<Candidate>
    requires n <= |runs|
  {
    if n == 0 then []
    else
      var id := ListedId(runs[n - 1]);
      var earlier := PlanUpTo(runs, p, n - 1);
      if id.Some? && LastOf(runs, n - 1, id.value) && Reasons(runs, p, id.value) != {}
      then Insert(Candidate(id.value, runs[n - 1], Reasons(runs, p, id.value)), earlier)
      else earlier
  }

  /** What `collect_candidates` returns. */
  function Plan(runs: seq<Run>, p: Policy): seq<Candidate> {
    PlanUpTo(runs, p, |runs|)
  }

  /** Sorting them together raises: an id is not a number, or a time with a zone meets one without. */
  predicate Unsortable(a: Run, b: Run) {
    SortId(a) == None || a.zoned != b.zoned
  }

  /** Sorting some group of two or more raises. */
  predicate GroupsRaise(runs: seq<Run>, p: Policy) {
    exists i: nat, k: nat | i < |runs| && k < |runs| ::
      i != k && SameGroup(runs, p, i, k) && Unsortable(runs[i], runs[k])
  }

  /** Times with and without a zone meet in the final sort. */
  predicate MixedZones(plan: seq<Candidate>) {
    exists c, d | c in plan && d in plan :: c.run.zoned != d.run.zoned
  }

  predicate Raises(runs: seq<Run>, p: Policy) {
    GroupsRaise(runs, p) || MixedZones(Plan(runs, p))
  }

  // ----- sorted plans ----------------------------------------------------------------------------

  predicate Sorted(s: seq<Candidate>) {
    forall i, j | 0 <= i < j < |s| :: Before(s[i], s[j])
  }

  lemma {:induction false} InsertSorted(c: Candidate, s: seq<Candidate>)
    requires Sorted(s) && forall d | d in s :: d.id != c.id
    ensures Sorted(Insert(c, s))
    ensures forall d :: d in Insert(c, s) <==> d == c || d in s
  {
    if s != [] && !Before(c, s[0]) {
      InsertSorted(c, s[1..]);
      assert s == [s[0]] + s[1..];
      var r := Insert(c, s[1..]);
      forall i, j | 0 <= i < j < |[s[0]] + r| ensures Before(([s[0]] + r)[i], ([s[0]] + r)[j]) {
        if i == 0 { assert r[j - 1] in r; }
      }
    }
  }

  /** The candidate listed for entry `i`, if it is one. */
  predicate CandidateAt(runs: seq<Run>, p: Policy, i: nat, c: Candidate) {
    LastOf(runs, i, c.id) && c == Candidate(c.id, runs[i], Reasons(runs, p, c.id)) && c.reasons != {}
  }

  lemma {:induction false} PlanUpToMembers(runs: seq<Run>, p: Policy, n: nat)
    requires n <= |runs|
    ensures Sorted(PlanUpTo(runs, p, n))
    ensures forall c :: c in PlanUpTo(runs, p, n) <==> exists i: nat | i < n :: CandidateAt(runs, p, i, c)
  {
    hide Reasons;
    if n > 0 {
      PlanUpToMembers(runs, p, n - 1);
      var id := ListedId(runs[n - 1]);
      var earlier := PlanUpTo(runs, p, n - 1);
      if id.Some? && LastOf(runs, n - 1, id.value) && Reasons(runs, p, id.value) != {} {
        var c := Candidate(id.value, runs[n - 1], Reasons(runs, p, id.value));
        forall d | d in earlier ensures d.id != c.id {
          var i: nat :| i < n - 1 && CandidateAt(runs, p, i, d);
        }
        InsertSorted(c, earlier);
        assert CandidateAt(runs, p, n - 1, c);
      }
    }
  }

  /** The plan is sorted oldest first and holds exactly the entries with a reason to cancel. */
  lemma PlanMembers(runs: seq<Run>, p: Policy)
    ensures Sorted(Plan(runs, p))
    ensures forall c :: c in Plan(runs, p) <==> exists i: nat | i < |runs| :: CandidateAt(runs, p, i, c)
  {
    PlanUpToMembers(runs, p, |runs|);
  }

  /** A sorted sequence is determined by its members. */
  lemma {:induction false} SortedUnique(s: seq<Candidate>, t: seq<Candidate>)
    requires Sorted(s) && Sorted(t) && forall c :: c in s <==> c in t
    ensures s == t
  {
    assert s != [] ==> s[0] in s;
    assert t != [] ==> t[0] in t;
    if s != [] {
      assert s[0] == t[0];
      forall c ensures c in s[1..] <==> c in t[1..] {
        assert c in s[1..] ==> c in s && c != s[0];
        assert c in t[1..] ==> c in t && c != t[0];
      }
      SortedUnique(s[1..], t[1..]);
    }
  }
}
