/** src/agent/classifier.rs: the rule that classifies a message. */
module Classifier {
  import opened Text
  import opened TextMeaning
  import opened Utf8

  datatype Rule = Rule(hint: string, keywords: seq<string>, patterns: seq<string>,
                       minLength: Option<nat>, maxLength: Option<nat>, priority: int)

  datatype Config = Config(enabled: bool, rules: seq<Rule>)

  datatype Decision = Decision(hint: string, priority: int)

  /** `str::to_lowercase`. */
  type ToLower = string -> string

  predicate LengthFits(rule: Rule, len: nat) {
    && (rule.minLength.Some? ==> rule.minLength.value <= len)
    && (rule.maxLength.Some? ==> len <= rule.maxLength.value)
  }

  predicate Hits(rule: Rule, message: string, lower: ToLower) {
    || (exists k | k in rule.keywords :: Contains(lower(message), lower(k)))
    || (exists p | p in rule.patterns :: Contains(message, p))
  }

  predicate Matches(rule: Rule, message: string, lower: ToLower) {
    LengthFits(rule, Utf8Len(message)) && Hits(rule, message, lower)
  }

  // ----- the sort -----------------------------------------------------------------------------------------

  predicate Descending(rules: seq<Rule>) {
    forall i, j | 0 <= i < j < |rules| :: rules[i].priority >= rules[j].priority
  }

  /** The rules of one priority, in order. */
  function OfPriority(rules: seq<Rule>, p: int): seq<Rule> {
    if rules == [] then []
    else (if rules[0].priority == p then [rules[0]] else []) + OfPriority(rules[1..], p)
  }

  /** What a stable sort by descending priority returns. */
  ghost predicate StablySorted(rules: seq<Rule>, sorted: seq<Rule>) {
    Descending(sorted) && forall p :: OfPriority(sorted, p) == OfPriority(rules, p)
  }

  /** `sort_by` on the priorities, highest first. */
  method SortRules(rules: seq<Rule>) returns (sorted: seq<Rule>)
    ensures StablySorted(rules, sorted)
  {
    sorted := [];
    for i := 0 to |rules|
      invariant StablySorted(rules[..i], sorted)
    {
      var r := rules[i];
      var at := |sorted|;
      while at > 0 && sorted[at - 1].priority < r.priority
        invariant 0 <= at <= |sorted|
        invariant forall k | at <= k < |sorted| :: sorted[k].priority < r.priority
      {
        at := at - 1;
      }
      assert rules[..i + 1] == rules[..i] + [r];
      ghost var before := sorted;
      sorted := sorted[..at] + [r] + sorted[at..];
      forall p ensures OfPriority(sorted, p) == OfPriority(rules[..i + 1], p) {
        InsertKeepsOrder(before, at, r, p);
        OfPriorityAppends(rules[..i], [r], p);
      }
    }
    assert rules[..|rules|] == rules;
  }

  lemma {:induction false} OfPriorityAppends(a: seq<Rule>, b: seq<Rule>, p: int)
    ensures OfPriority(a + b, p) == OfPriority(a, p) + OfPriority(b, p)
    decreases |a|
  {
    if a == [] {
      assert a + b == b;
    } else {
      assert (a + b)[1..] == a[1..] + b && (a + b)[0] == a[0];
      OfPriorityAppends(a[1..], b, p);
      Assoc(if a[0].priority == p then [a[0]] else [], OfPriority(a[1..], p), OfPriority(b, p));
    }
  }

  lemma {:induction false} NoneOfPriority(rules: seq<Rule>, p: int)
    requires forall k | 0 <= k < |rules| :: rules[k].priority != p
    ensures OfPriority(rules, p) == []
  {
    if rules != [] { NoneOfPriority(rules[1..], p); }
  }

  lemma InsertKeepsOrder(s: seq<Rule>, at: nat, r: Rule, p: int)
    requires at <= |s| && forall k | at <= k < |s| :: s[k].priority < r.priority
    ensures OfPriority(s[..at] + [r] + s[at..], p) == OfPriority(s, p) + OfPriority([r], p)
  {
    hide OfPriority;
    var front, back := s[..at], s[at..];
    assert s == front + back;
    OfPriorityAppends(front, back, p);
    OfPriorityAppends(front + [r], back, p);
    OfPriorityAppends(front, [r], p);
    if p == r.priority { NoneOfPriority(back, p); } else { NoneOfPriority([r], p); }
  }

  // ----- classification --------------------------------------------------------------------------------------

  /** Rule `i` is the earliest matching rule of the highest matching priority. */
  ghost predicate Best(rules: seq<Rule>, i: nat, message: string, lower: ToLower) {
    && i < |rules| && Matches(rules[i], message, lower)
    && forall j | 0 <= j < |rules| && Matches(rules[j], message, lower) ::
      rules[j].priority < rules[i].priority || (rules[j].priority == rules[i].priority && i <= j)
  }

  /** The decision of a list of rules: that of the best one, none exactly when none matches. */
  ghost predicate Decides(rules: seq<Rule>, message: string, lower: ToLower, d: Option<Decision>) {
    match d
    case None => forall r | r in rules :: !Matches(r, message, lower)
    case Some(v) => exists i: nat :: Best(rules, i, message, lower) && v == Decision(rules[i].hint, rules[i].priority)
  }

  /** `classify_with_decision`: sort, then the first match. */
  method Classify(config: Config, message: string, lower: ToLower) returns (d: Option<Decision>)
    ensures Decides(if config.enabled then config.rules else [], message, lower, d)
  {
    hide Hits, Utf8Len, OfPriority;
    if !config.enabled || config.rules == [] { return None; }
    var text := lower(message);
    var len := Utf8Len(message);
    var rules := SortRules(config.rules);
    for k := 0 to |rules|
      invariant forall j | 0 <= j < k :: !Matches(rules[j], message, lower)
    {
      var rule := rules[k];
      if rule.minLength.Some? && len < rule.minLength.value { continue; }
      if rule.maxLength.Some? && len > rule.maxLength.value { continue; }
      var hit := RuleHits(rule, message, text, lower);
      if hit {
        var i := FirstIsBest(config.rules, rules, k, message, lower);
        return Some(Decision(rule.hint, rule.priority));
      }
    }
    forall r | r in config.rules ensures !Matches(r, message, lower) {
      SortedHolds(config.rules, rules, r);
    }
    d := None;
  }

  method RuleHits(rule: Rule, message: string, text: string, lower: ToLower) returns (hit: bool)
    requires text == lower(message)
    ensures hit == Hits(rule, message, lower)
  {
    hide Contains;
    var keywordHit, patternHit := false, false;
    for i := 0 to |rule.keywords|
      invariant keywordHit <==> exists j :: 0 <= j < i && Contains(text, lower(rule.keywords[j]))
    {
      if Contains(text, lower(rule.keywords[i])) { keywordHit := true; }
    }
    for i := 0 to |rule.patterns|
      invariant patternHit <==> exists j :: 0 <= j < i && Contains(message, rule.patterns[j])
    {
      if Contains(message, rule.patterns[i]) { patternHit := true; }
    }
    hit := keywordHit || patternHit;
  }

  lemma {:induction false} OfPriorityMembers(rules: seq<Rule>, p: int, r: Rule)
    ensures r in OfPriority(rules, p) <==> r in rules && r.priority == p
  {
    if rules != [] {
      assert rules == [rules[0]] + rules[1..];
      OfPriorityMembers(rules[1..], p, r);
    }
  }

  /** A stable sort has the same rules. */
  lemma SortedHolds(rules: seq<Rule>, sorted: seq<Rule>, r: Rule)
    requires StablySorted(rules, sorted)
    ensures r in rules <==> r in sorted
  {
    OfPriorityMembers(rules, r.priority, r);
    OfPriorityMembers(sorted, r.priority, r);
    assert OfPriority(sorted, r.priority) == OfPriority(rules, r.priority);
  }

  /** The first element of a subsequence of one priority that matches. */
  lemma {:induction false} FirstMatchOfPriority(rules: seq<Rule>, p: int, i: nat, message: string, lower: ToLower)
    requires i < |rules| && rules[i].priority == p && Matches(rules[i], message, lower)
    requires forall j | 0 <= j < i && rules[j].priority == p :: !Matches(rules[j], message, lower)
    ensures FirstMatch(OfPriority(rules, p), message, lower) == Some(rules[i])
    decreases i
  {
    hide Matches;
    if i > 0 {
      assert forall j | 0 <= j < i :: rules[1..][j] == rules[j + 1];
      FirstMatchOfPriority(rules[1..], p, i - 1, message, lower);
      var rest := OfPriority(rules[1..], p);
      if rules[0].priority == p {
        assert OfPriority(rules, p)[1..] == rest && OfPriority(rules, p)[0] == rules[0];
      } else {
        assert OfPriority(rules, p) == rest;
      }
    }
  }

  ghost function FirstMatch(rules: seq<Rule>, message: string, lower: ToLower): Option<Rule> {
    if rules == [] then None
    else if Matches(rules[0], message, lower) then Some(rules[0])
    else FirstMatch(rules[1..], message, lower)
  }

  /** The earliest matching rule of a priority. */
  lemma {:induction false} EarliestOfPriority(rules: seq<Rule>, p: int, j: nat, message: string, lower: ToLower)
    returns (i: nat)
    requires j < |rules| && rules[j].priority == p && Matches(rules[j], message, lower)
    ensures i <= j && rules[i].priority == p && Matches(rules[i], message, lower)
    ensures forall k | 0 <= k < i && rules[k].priority == p :: !Matches(rules[k], message, lower)
    decreases j
  {
    hide Matches;
    if k :| 0 <= k < j && rules[k].priority == p && Matches(rules[k], message, lower) {
      i := EarliestOfPriority(rules, p, k, message, lower);
    } else {
      i := j;
    }
  }

  /** The first match of the sorted rules is the earliest match of the highest matching priority. */
  lemma FirstIsBest(rules: seq<Rule>, sorted: seq<Rule>, k: nat, message: string, lower: ToLower) returns (i: nat)
    requires StablySorted(rules, sorted)
    requires k < |sorted| && Matches(sorted[k], message, lower)
    requires forall j | 0 <= j < k :: !Matches(sorted[j], message, lower)
    ensures Best(rules, i, message, lower) && rules[i] == sorted[k]
  {
    hide Matches, OfPriority;
    var p := sorted[k].priority;
    SortedHolds(rules, sorted, sorted[k]);
    var j :| 0 <= j < |rules| && rules[j] == sorted[k];
    i := EarliestOfPriority(rules, p, j, message, lower);
    FirstMatchOfPriority(rules, p, i, message, lower);
    FirstMatchOfPriority(sorted, p, k, message, lower);
    assert OfPriority(sorted, p) == OfPriority(rules, p);
    forall m | 0 <= m < |rules| && Matches(rules[m], message, lower) ensures rules[m].priority <= p {
      SortedHolds(rules, sorted, rules[m]);
      var n :| 0 <= n < |sorted| && sorted[n] == rules[m];
    }
  }

  // ----- order of the rules -------------------------------------------------------------------------------

  predicate DistinctPriorities(rules: seq<Rule>) {
    forall i, j | 0 <= i < j < |rules| :: rules[i].priority != rules[j].priority
  }

  lemma SameBest(a: seq<Rule>, b: seq<Rule>, i: nat, j: nat, message: string, lower: ToLower)
    requires multiset(a) == multiset(b) && DistinctPriorities(a)
    requires Best(a, i, message, lower) && Best(b, j, message, lower)
    ensures a[i] == b[j]
  {
    hide Matches;
    assert a[i] in multiset(b) && b[j] in multiset(a);
    var m :| 0 <= m < |b| && b[m] == a[i];
    var n :| 0 <= n < |a| && a[n] == b[j];
    assert a[n].priority == a[i].priority;
    assert n == i;
  }

  /** With pairwise distinct priorities the order of the rules does not matter: every permutation
      comes to the same decision, or to none. */
  lemma OrderDoesNotMatter(a: seq<Rule>, b: seq<Rule>, message: string, lower: ToLower,
                           d: Option<Decision>, e: Option<Decision>)
    requires multiset(a) == multiset(b) && DistinctPriorities(a)
    requires Decides(a, message, lower, d) && Decides(b, message, lower, e)
    ensures d == e
  {
    hide Matches;
    assert forall r :: r in a <==> r in multiset(a);
    assert forall r :: r in b <==> r in multiset(b);
    if d.Some? && e.Some? {
      var i: nat :| Best(a, i, message, lower) && d.value == Decision(a[i].hint, a[i].priority);
      var j: nat :| Best(b, j, message, lower) && e.value == Decision(b[j].hint, b[j].priority);
      SameBest(a, b, i, j, message, lower);
    }
  }

  // ----- what matches -----------------------------------------------------------------------------------

  /** The text stands somewhere in the message. */
  predicate Occurs(text: string, message: string) { exists i | 0 <= i <= |message| :: text <= message[i..] }

  /** A rule matches exactly when the message has at least the minimal and at most the maximal number of
      bytes, where these are given, and some keyword occurs in it ignoring case or some pattern as it is. */
  lemma MatchesIff(rule: Rule, message: string, lower: ToLower)
    ensures Matches(rule, message, lower)
       <==> && (forall n | rule.minLength == Some(n) :: Utf8Len(message) >= n)
            && (forall n | rule.maxLength == Some(n) :: Utf8Len(message) <= n)
            && ((exists k | k in rule.keywords :: Occurs(lower(k), lower(message)))
                || exists p | p in rule.patterns :: Occurs(p, message))
  {
    hide Contains, Occurs;
    forall s, p ensures Contains(s, p) <==> Occurs(p, s) { OccursIs(s, p); }
  }

  lemma OccursIs(s: string, p: string)
    ensures Contains(s, p) <==> Occurs(p, s)
  {
    ContainsIs(s, p);
  }

  // ----- bytes and characters ---------------------------------------------------------------------------

  predicate IsAscii(s: string) { forall c | c in s :: c < '\U{80}' }

  lemma {:induction false} AsciiLength(s: string)
    ensures Utf8Len(s) >= |s|
    ensures Utf8Len(s) == |s| <==> IsAscii(s)
  {
    if s != [] {
      AsciiLength(s[1..]);
      assert s[0] in s && forall c :: c in s <==> c == s[0] || c in s[1..];
      assert IsAscii(s) <==> s[0] < '\U{80}' && IsAscii(s[1..]);
    }
  }

  /** Every rule allows the length in bytes exactly when it allows the length in characters. */
  ghost predicate ByteTestIsCharTest(message: string) {
    forall rule :: LengthFits(rule, Utf8Len(message)) <==> LengthFits(rule, |message|)
  }

  /** The documented length in characters and the compared length in bytes agree for every rule
      exactly on ASCII messages. */
  lemma LengthsAgreeIff(message: string)
    ensures ByteTestIsCharTest(message) <==> IsAscii(message)
  {
    AsciiLength(message);
    if !IsAscii(message) {
      var rule := Rule("", [], [], None, Some(|message|), 0);
      assert LengthFits(rule, |message|) && !LengthFits(rule, Utf8Len(message));
    }
  }

  /** A message of one character that a rule for at most one character does not classify. */
  lemma OneCharacterExample(message: string, rule: Rule, lower: ToLower)
    requires message == ['\U{E9}'] && rule == Rule("short", [], [message], None, Some(1), 0)
    ensures LengthFits(rule, |message|) && Hits(rule, message, lower) && !Matches(rule, message, lower)
  {
    assert Utf8Len(message) == 2 by { assert message[1..] == []; }
    assert message in rule.patterns && Contains(message, message);
  }
}
