/** src/migration.rs: what merging one delegate agent into another fills in and what it counts. */
module AgentFills {
  import opened Text
  import opened TextMeaning
  import opened AgentMerge

  /** A setting with a text that is not blank. */
  predicate HasContent(s: Option<string>) {
    s.Some? && exists c :: c in s.value && !IsWhitespace(c)
  }

  lemma ContentIsTrimmed(s: string)
    ensures Trim(s) != [] <==> exists c :: c in s && !IsWhitespace(c)
  {
    hide Trim, IsWhitespace;
    TrimIsTrimmed(s);
    var t := Trim(s);
    var i :| 0 <= i <= |s| && StandsIn(s, t, i);
    if t != [] { assert t[0] == s[i] && s[i] in s; }
    else { assert forall k | 0 <= k < |s| :: IsWhitespace(s[k]); }
  }

  /** A name or model without content takes the source's that has some; any other stays. */
  predicate NameMerged(t: Option<string>, s: Option<string>, r: Option<string>) {
    && (!HasContent(t) && HasContent(s) ==> r == s)
    && (HasContent(t) || !HasContent(s) ==> r == t)
  }

  /** A missing text takes the source's, and a blank one the source's that has content. */
  predicate TextMerged(t: Option<string>, s: Option<string>, r: Option<string>) {
    && (t.None? ==> r == s)
    && (t.Some? && !HasContent(t) && HasContent(s) ==> r == s)
    && (t.Some? && (HasContent(t) || !HasContent(s)) ==> r == t)
  }

  /** Every setting of the merged agent. */
  lemma MergeFills(t: AgentConfig, s: AgentConfig)
    ensures var r := MergeAgent(t, s);
      && NameMerged(t.provider, s.provider, r.provider) && NameMerged(t.model, s.model, r.model)
      && TextMerged(t.systemPrompt, s.systemPrompt, r.systemPrompt) && TextMerged(t.apiKey, s.apiKey, r.apiKey)
      && (t.temperature.Some? ==> r.temperature == t.temperature)
      && (t.temperature.None? ==> r.temperature == s.temperature)
      && (t.capabilities != [] ==> r.capabilities == t.capabilities)
      && (t.capabilities == [] ==> r.capabilities == s.capabilities)
      && r.maxDepth == t.maxDepth && r.agentic == t.agentic && r.maxIterations == t.maxIterations
      && r.enabled == t.enabled && r.priority == t.priority
  {
    hide Trim, AppendTools, IsWhitespace;
    NamesMean(t.provider, s.provider);
    NamesMean(t.model, s.model);
    NamesMean(t.systemPrompt, s.systemPrompt);
    NamesMean(t.apiKey, s.apiKey);
  }

  lemma NamesMean(t: Option<string>, s: Option<string>)
    ensures NameMerged(t, s, FillName(t, s)) && TextMerged(t, s, FillText(t, s))
  {
    hide Trim, IsWhitespace;
    if t.Some? { ContentIsTrimmed(t.value); }
    if s.Some? { ContentIsTrimmed(s.value); }
  }

  // ----- conflicts --------------------------------------------------------------------------------------------

  datatype Setting =
    Provider | Model | Prompt | ApiKey | Temperature | Depth | Agentic | Iterations | Enabled | Priority

  /** The merged agent does not have what the source asks for: for prompt, key and temperature only when
      both had a value, and temperatures only when they are apart. */
  predicate Overruled(t: AgentConfig, s: AgentConfig, r: AgentConfig, f: Setting) {
    match f
    case Provider => r.provider != s.provider
    case Model => r.model != s.model
    case Prompt => t.systemPrompt.Some? && s.systemPrompt.Some? && r.systemPrompt != s.systemPrompt
    case ApiKey => t.apiKey.Some? && s.apiKey.Some? && r.apiKey != s.apiKey
    case Temperature =>
      && t.temperature.Some? && s.temperature.Some? && r.temperature.Some?
      && (r.temperature.value - s.temperature.value >= EPSILON || s.temperature.value - r.temperature.value >= EPSILON)
    case Depth => r.maxDepth != s.maxDepth
    case Agentic => r.agentic != s.agentic
    case Iterations => r.maxIterations != s.maxIterations
    case Enabled => r.enabled != s.enabled
    case Priority => r.priority != s.priority
  }

  const SETTINGS: seq<Setting> :=
    [Provider, Model, Prompt, ApiKey, Temperature, Depth, Agentic, Iterations, Enabled, Priority]

  /** The settings of the first `n` in which the source is overruled. */
  function OverruledUpTo(t: AgentConfig, s: AgentConfig, r: AgentConfig, n: nat): nat
    requires n <= |SETTINGS|
  {
    if n == 0 then 0 else OverruledUpTo(t, s, r, n - 1) + if Overruled(t, s, r, SETTINGS[n - 1]) then 1 else 0
  }

  lemma OneMore(t: AgentConfig, s: AgentConfig, r: AgentConfig, n: nat)
    requires n < |SETTINGS|
    ensures OverruledUpTo(t, s, r, n + 1)
         == OverruledUpTo(t, s, r, n) + if Overruled(t, s, r, SETTINGS[n]) then 1 else 0
  {
  }

  lemma NameConflictMeans(t: Option<string>, s: Option<string>)
    ensures NameConflict(t, s) == if FillName(t, s) != s then 1 else 0
    ensures TextConflict(t, s) == if t.Some? && s.Some? && FillText(t, s) != s then 1 else 0
  {
    hide Trim;
  }

  /** The conflicts counted are the settings in which the merged agent overrules the source. */
  lemma ConflictsAreOverruled(t: AgentConfig, s: AgentConfig)
    ensures Conflicts(t, s) == OverruledUpTo(t, s, MergeAgent(t, s), |SETTINGS|)
  {
    hide NameConflict, TextConflict, FillName, FillText, AppendTools, SeenTools, OverruledUpTo;
    var r := MergeAgent(t, s);
    assert OverruledUpTo(t, s, r, 0) == 0 by { NoneOverruled(t, s, r); }
    NameConflictMeans(t.provider, s.provider);
    NameConflictMeans(t.model, s.model);
    NameConflictMeans(t.systemPrompt, s.systemPrompt);
    NameConflictMeans(t.apiKey, s.apiKey);
    OneMore(t, s, r, 0);
    OneMore(t, s, r, 1);
    OneMore(t, s, r, 2);
    OneMore(t, s, r, 3);
    OneMore(t, s, r, 4);
    OneMore(t, s, r, 5);
    OneMore(t, s, r, 6);
    OneMore(t, s, r, 7);
    OneMore(t, s, r, 8);
    OneMore(t, s, r, 9);
  }

  lemma NoneOverruled(t: AgentConfig, s: AgentConfig, r: AgentConfig)
    ensures OverruledUpTo(t, s, r, 0) == 0
  {
  }

  // ----- tools --------------------------------------------------------------------------------------------------

  /** The tool at `i` is named by the target, or earlier in the source, up to blanks at the ends. */
  predicate NamedBefore(tools: seq<string>, source: seq<string>, i: nat)
    requires i < |source|
  {
    || (exists t | t in tools :: Trim(t) == Trim(source[i]))
    || (exists j | 0 <= j < i :: Trim(source[j]) == Trim(source[i]))
  }

  /** The tools among the first `n` that have a name and were not named before, trimmed, in order. */
  function NewTools(tools: seq<string>, source: seq<string>, n: nat): seq<string>
    requires n <= |source|
  {
    if n == 0 then []
    else
      NewTools(tools, source, n - 1)
      + if HasContent(Some(source[n - 1])) && !NamedBefore(tools, source, n - 1) then [Trim(source[n - 1])] else []
  }

  /** How many of the first `n` have a name that was named before. */
  function NamedTwice(tools: seq<string>, source: seq<string>, n: nat): nat
    requires n <= |source|
  {
    if n == 0 then 0
    else
      NamedTwice(tools, source, n - 1)
      + if HasContent(Some(source[n - 1])) && NamedBefore(tools, source, n - 1) then 1 else 0
  }

  /** The names seen when the first `n` have been visited. */
  ghost predicate SeenAfter(tools: seq<string>, source: seq<string>, n: nat, seen: set<string>)
    requires n <= |source|
  {
    forall w :: w in seen <==> w != [] && ((exists t | t in tools :: Trim(t) == w)
                                           || exists j | 0 <= j < n :: Trim(source[j]) == w)
  }

  lemma SeenGrows(tools: seq<string>, source: seq<string>, n: nat, seen: set<string>)
    requires n < |source| && SeenAfter(tools, source, n, seen)
    ensures SeenAfter(tools, source, n + 1, if Trim(source[n]) == [] then seen else seen + {Trim(source[n])})
    ensures Trim(source[n]) != [] ==> (Trim(source[n]) in seen <==> NamedBefore(tools, source, n))
  {
    hide Trim;
  }

  lemma {:induction false} ToolsFrom(tools: seq<string>, source: seq<string>, n: nat, seen: set<string>)
    requires n <= |source| && SeenAfter(tools, source, n, seen)
    ensures AppendTools(tools + NewTools(tools, source, n), source[n..], seen)
         == tools + NewTools(tools, source, |source|)
    ensures NamedTwice(tools, source, n) + RepeatedTools(source[n..], seen) == NamedTwice(tools, source, |source|)
    decreases |source| - n
  {
    hide Trim, SeenAfter, NamedBefore, HasContent;
    if n < |source| {
      SeenGrows(tools, source, n, seen);
      ContentIsTrimmed(source[n]);
      assert HasContent(Some(source[n])) <==> Trim(source[n]) != [] by { ContentMeans(source[n]); }
      var name := Trim(source[n]);
      var next := if name == [] then seen else seen + {name};
      ToolsFrom(tools, source, n + 1, next);
      assert source[n..][0] == source[n] && source[n..][1..] == source[n + 1..];
      Assoc(tools, NewTools(tools, source, n), [name]);
      assert name in seen ==> next == seen;
      assert NewTools(tools, source, n) + [] == NewTools(tools, source, n);
    }
  }

  lemma ContentMeans(s: string)
    ensures HasContent(Some(s)) <==> Trim(s) != []
  {
    hide Trim;
    ContentIsTrimmed(s);
  }

  /** The merged tools are the target's and then the newly named ones in order, and the source's names
      that were named before are counted. */
  lemma ToolsAreMerged(tools: seq<string>, source: seq<string>)
    ensures AppendTools(tools, source, SeenTools(tools)) == tools + NewTools(tools, source, |source|)
    ensures RepeatedTools(source, SeenTools(tools)) == NamedTwice(tools, source, |source|)
  {
    hide AppendTools, RepeatedTools;
    assert SeenAfter(tools, source, 0, SeenTools(tools)) by { SeenFirst(tools, source); }
    ToolsFrom(tools, source, 0, SeenTools(tools));
    assert source[0..] == source;
    assert NewTools(tools, source, 0) == [] && NamedTwice(tools, source, 0) == 0 && tools + [] == tools;
  }

  lemma SeenFirst(tools: seq<string>, source: seq<string>)
    ensures SeenAfter(tools, source, 0, SeenTools(tools))
  {
    hide Trim;
  }

  // ----- the registry --------------------------------------------------------------------------------------------

  /** The counters after the first `n` agents of a source with distinct names, each against the agent that
      was registered under its name. */
  function Tallied(c: Counts, agents: map<string, AgentConfig>, source: seq<(string, AgentConfig)>, n: nat): Counts
    requires n <= |source|
  {
    if n == 0 then c else
      var (name, s) := source[n - 1];
      var before := Tallied(c, agents, source, n - 1);
      if name !in agents then before.(agentsAdded := before.agentsAdded + 1)
      else
        var t := agents[name];
        var r := MergeAgent(t, s);
        Counts(before.agentsAdded,
               before.agentsMerged + (if r != t then 1 else 0),
               before.toolsAdded + |NewTools(t.allowedTools, s.allowedTools, |s.allowedTools|)|,
               before.conflicts + OverruledUpTo(t, s, r, |SETTINGS|),
               before.duplicates + NamedTwice(t.allowedTools, s.allowedTools, |s.allowedTools|))
  }

  lemma OneTallied(c: Counts, agents: map<string, AgentConfig>, source: seq<(string, AgentConfig)>, n: nat)
    requires n < |source|
    ensures Tallied(c, agents, source, n + 1)
         == AgentCounted(Tallied(c, agents, source, n), agents, source[n].0, source[n].1)
  {
    var (name, s) := source[n];
    if name in agents {
      hide Conflicts, OverruledUpTo, AppendTools, RepeatedTools, SeenTools, NewTools, NamedTwice;
      ConflictsAreOverruled(agents[name], s);
      ToolsAreMerged(agents[name].allowedTools, s.allowedTools);
    }
  }

  lemma {:induction false} CountsFrom(c: Counts, agents: map<string, AgentConfig>, now: map<string, AgentConfig>,
                                      source: seq<(string, AgentConfig)>, n: nat)
    requires n <= |source| && DistinctNames(source)
    requires forall i | n <= i < |source| :: AgentAt(now, source[i].0) == AgentAt(agents, source[i].0)
    ensures AgentCounts(Tallied(c, agents, source, n), now, source[n..]) == Tallied(c, agents, source, |source|)
    decreases |source| - n
  {
    hide Tallied, AgentCounted, MergeAgent;
    if n < |source| {
      var (name, s) := source[n];
      assert source[n..][0] == source[n] && source[n..][1..] == source[n + 1..];
      OneTallied(c, agents, source, n);
      assert AgentAt(now, name) == AgentAt(agents, name);
      SameCount(Tallied(c, agents, source, n), now, agents, name, s);
      CountsFrom(c, agents, AgentMerged(now, name, s), source, n + 1);
    }
  }

  lemma SameCount(c: Counts, a: map<string, AgentConfig>, b: map<string, AgentConfig>, name: string, s: AgentConfig)
    requires AgentAt(a, name) == AgentAt(b, name)
    ensures AgentCounted(c, a, name, s) == AgentCounted(c, b, name, s)
  {
    hide MergeAgent, Counted;
  }

  /** The counters of a whole merge. */
  lemma RegistryIsTallied(c: Counts, agents: map<string, AgentConfig>, source: seq<(string, AgentConfig)>)
    requires DistinctNames(source)
    ensures AgentCounts(c, agents, source) == Tallied(c, agents, source, |source|)
  {
    hide AgentCounts;
    CountsFrom(c, agents, agents, source, 0);
    assert source[0..] == source && Tallied(c, agents, source, 0) == c;
  }
}
