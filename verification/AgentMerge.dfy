/** src/migration.rs: `merge_delegate_agent` and `merge_openclaw_agents`. */
module AgentMerge {
  import opened Text

  /** A delegate agent's settings. */
  datatype AgentConfig = AgentConfig(
    provider: Option<string>, model: Option<string>, systemPrompt: Option<string>, apiKey: Option<string>,
    temperature: Option<real>, maxDepth: nat, agentic: bool, allowedTools: seq<string>, maxIterations: nat,
    enabled: bool, capabilities: seq<string>, priority: int)

  /** The part of `ConfigMigrationStats` that merging agents touches. */
  datatype Counts = Counts(agentsAdded: nat, agentsMerged: nat, toolsAdded: nat, conflicts: nat, duplicates: nat)

  class ConfigStats {
    var counts: Counts

    constructor ()
      ensures counts == Counts(0, 0, 0, 0, 0)
    {
      counts := Counts(0, 0, 0, 0, 0);
    }
  }

  /** `f64::EPSILON`. */
  const EPSILON: real := 1.0 / 4503599627370496.0

  // ----- field by field ---------------------------------------------------------------------------

  predicate Blank(s: Option<string>) {
    match s case Some(t) => Trim(t) == [] case None => true
  }

  /** Provider and model: filled when blank. */
  function FillName(t: Option<string>, s: Option<string>): Option<string> {
    if Blank(t) && !Blank(s) then s else t
  }

  function NameConflict(t: Option<string>, s: Option<string>): nat {
    if !(Blank(t) && !Blank(s)) && t != s then 1 else 0
  }

  /** System prompt and API key: a missing one is filled even with a blank one. */
  predicate TextFills(t: Option<string>, s: Option<string>) {
    s.Some? && (t.None? || (Trim(t.value) == [] && Trim(s.value) != []))
  }

  function FillText(t: Option<string>, s: Option<string>): Option<string> {
    if TextFills(t, s) then s else t
  }

  function TextConflict(t: Option<string>, s: Option<string>): nat {
    if t.Some? && s.Some? && !TextFills(t, s) && t != s then 1 else 0
  }

  function FillTemperature(t: Option<real>, s: Option<real>): Option<real> {
    if t.None? && s.Some? then s else t
  }

  function TemperatureConflict(t: Option<real>, s: Option<real>): nat {
    if t.Some? && s.Some? && (t.value - s.value >= EPSILON || s.value - t.value >= EPSILON) then 1 else 0
  }

  function OneIf(b: bool): nat { if b then 1 else 0 }

  /** Trimmed names of the tools already allowed. */
  function SeenTools(tools: seq<string>): set<string> {
    set t | t in tools && Trim(t) != [] :: Trim(t)
  }

  function AppendTools(tools: seq<string>, source: seq<string>, seen: set<string>): (r: seq<string>)
    ensures tools <= r
    decreases |source|
  {
    if source == [] then tools else
      var name := Trim(source[0]);
      if name == [] || name in seen then AppendTools(tools, source[1..], seen)
      else AppendTools(tools + [name], source[1..], seen + {name})
  }

  function RepeatedTools(source: seq<string>, seen: set<string>): nat {
    if source == [] then 0 else
      var name := Trim(source[0]);
      if name == [] then RepeatedTools(source[1..], seen)
      else OneIf(name in seen) + RepeatedTools(source[1..], seen + {name})
  }

  function MergeAgent(t: AgentConfig, s: AgentConfig): (r: AgentConfig)
    ensures t.allowedTools <= r.allowedTools
  {
    t.(provider := FillName(t.provider, s.provider),
       model := FillName(t.model, s.model),
       systemPrompt := FillText(t.systemPrompt, s.systemPrompt),
       apiKey := FillText(t.apiKey, s.apiKey),
       temperature := FillTemperature(t.temperature, s.temperature),
       allowedTools := AppendTools(t.allowedTools, s.allowedTools, SeenTools(t.allowedTools)),
       capabilities := if t.capabilities == [] then s.capabilities else t.capabilities)
  }

  /** Settings that are only compared. */
  function PlainConflicts(t: AgentConfig, s: AgentConfig): nat {
    OneIf(t.maxDepth != s.maxDepth) + OneIf(t.agentic != s.agentic) + OneIf(t.maxIterations != s.maxIterations)
    + OneIf(t.enabled != s.enabled) + OneIf(t.priority != s.priority)
  }

  function Conflicts(t: AgentConfig, s: AgentConfig): nat {
    NameConflict(t.provider, s.provider) + NameConflict(t.model, s.model)
    + TextConflict(t.systemPrompt, s.systemPrompt) + TextConflict(t.apiKey, s.apiKey)
    + TemperatureConflict(t.temperature, s.temperature) + PlainConflicts(t, s)
  }

  function Counted(c: Counts, t: AgentConfig, s: AgentConfig): Counts {
    c.(conflicts := c.conflicts + Conflicts(t, s),
       toolsAdded := c.toolsAdded + (|MergeAgent(t, s).allowedTools| - |t.allowedTools|),
       duplicates := c.duplicates + RepeatedTools(s.allowedTools, SeenTools(t.allowedTools)))
  }

  // ----- what a merge keeps ----------------------------------------------------------------------------

  /** Old tools stay in front; what is added is new, trimmed and distinct; nothing named is lost. */
  lemma {:induction false} AppendToolsGrows(tools: seq<string>, source: seq<string>, seen: set<string>)
    ensures var r := AppendTools(tools, source, seen);
      && tools <= r
      && (forall i | |tools| <= i < |r| :: r[i] != [] && r[i] !in seen && exists t | t in source :: r[i] == Trim(t))
      && (forall i, j | |tools| <= i < j < |r| :: r[i] != r[j])
      && (forall t | t in source && Trim(t) != [] :: Trim(t) in seen || Trim(t) in r[|tools|..])
    decreases |source|
  {
    hide Trim;
    if source != [] {
      var name := Trim(source[0]);
      var r := AppendTools(tools, source, seen);
      assert source == [source[0]] + source[1..];
      if name == [] || name in seen {
        AppendToolsGrows(tools, source[1..], seen);
      } else {
        AppendToolsGrows(tools + [name], source[1..], seen + {name});
        assert r[|tools|] == name;
        assert r[|tools|..] == [name] + r[|tools| + 1..];
      }
    }
  }

  lemma {:induction false} NoNewTools(tools: seq<string>, source: seq<string>, seen: set<string>)
    requires forall t | t in source && Trim(t) != [] :: Trim(t) in seen
    ensures AppendTools(tools, source, seen) == tools
    decreases |source|
  {
    hide Trim;
    if source != [] {
      assert source[0] in source;
      NoNewTools(tools, source[1..], seen);
    }
  }

  lemma ToolsAreThere(tools: seq<string>, source: seq<string>)
    ensures var r := AppendTools(tools, source, SeenTools(tools));
      && tools <= r && AppendTools(r, source, SeenTools(r)) == r
      && forall t | t in source && Trim(t) != [] :: Trim(t) in SeenTools(r)
  {
    hide Trim, AppendTools;
    var r := AppendTools(tools, source, SeenTools(tools));
    AppendToolsGrows(tools, source, SeenTools(tools));
    assert forall t | t in tools :: t in r;
    forall t | t in source && Trim(t) != [] ensures Trim(t) in SeenTools(r) {
      if Trim(t) !in SeenTools(tools) {
        assert Trim(t) in r[|tools|..];
        assert Trim(t) in r;
        TrimTwice(t);
      }
    }
    NoNewTools(r, source, SeenTools(r));
  }

  /** What a merge leaves alone: settled names and texts, every plain setting, the old tools. */
  lemma MergePreservesTarget(t: AgentConfig, s: AgentConfig)
    ensures var r := MergeAgent(t, s);
      && (!Blank(t.provider) ==> r.provider == t.provider) && (!Blank(t.model) ==> r.model == t.model)
      && (!Blank(t.systemPrompt) ==> r.systemPrompt == t.systemPrompt)
      && (!Blank(t.apiKey) ==> r.apiKey == t.apiKey)
      && (t.temperature.Some? ==> r.temperature == t.temperature)
      && r.maxDepth == t.maxDepth && r.agentic == t.agentic && r.maxIterations == t.maxIterations
      && r.enabled == t.enabled && r.priority == t.priority
      && t.allowedTools <= r.allowedTools
      && (t.capabilities != [] ==> r.capabilities == t.capabilities)
  {
    hide AppendTools, Trim;
    ToolsAreThere(t.allowedTools, s.allowedTools);
  }

  /** Merging the same source again changes nothing. */
  lemma MergeAgentIsIdempotent(t: AgentConfig, s: AgentConfig)
    ensures MergeAgent(MergeAgent(t, s), s) == MergeAgent(t, s)
  {
    hide AppendTools, Trim, SeenTools;
    ToolsAreThere(t.allowedTools, s.allowedTools);
  }

  lemma MergeAgentSelf(s: AgentConfig)
    ensures MergeAgent(s, s) == s
  {
    hide Trim;
    NoNewTools(s.allowedTools, s.allowedTools, SeenTools(s.allowedTools));
  }

  lemma SettingsFilled(v: AgentConfig, s: AgentConfig, p: Option<string>, m: Option<string>, x: Option<string>,
                       a: Option<string>, t: Option<real>)
    requires p == FillName(v.provider, s.provider) && m == FillName(v.model, s.model)
    requires x == FillText(v.systemPrompt, s.systemPrompt) && a == FillText(v.apiKey, s.apiKey)
    requires t == FillTemperature(v.temperature, s.temperature)
    ensures var r := v.(provider := p, model := m, systemPrompt := x, apiKey := a, temperature := t);
      && r == MergeAgent(v, s).(allowedTools := v.allowedTools, capabilities := v.capabilities)
      && (r != v <==> p != v.provider || m != v.model || x != v.systemPrompt || a != v.apiKey || t != v.temperature)
  {
    hide FillName, FillText, FillTemperature, AppendTools, SeenTools;
  }

  // ----- the object ---------------------------------------------------------------------------------------

  class DelegateAgent {
    var provider: Option<string>
    var model: Option<string>
    var systemPrompt: Option<string>
    var apiKey: Option<string>
    var temperature: Option<real>
    const maxDepth: nat
    const agentic: bool
    var allowedTools: seq<string>
    const maxIterations: nat
    const enabled: bool
    var capabilities: seq<string>
    const priority: int

    constructor (c: AgentConfig)
      ensures View() == c
    {
      provider, model, systemPrompt, apiKey := c.provider, c.model, c.systemPrompt, c.apiKey;
      temperature, maxDepth, agentic, allowedTools := c.temperature, c.maxDepth, c.agentic, c.allowedTools;
      maxIterations, enabled, capabilities, priority := c.maxIterations, c.enabled, c.capabilities, c.priority;
    }

    function View(): AgentConfig
      reads this
    {
      AgentConfig(provider, model, systemPrompt, apiKey, temperature, maxDepth, agentic, allowedTools,
                  maxIterations, enabled, capabilities, priority)
    }

    method MergeTools(source: seq<string>) returns (added: nat, repeated: nat)
      modifies this`allowedTools
      ensures allowedTools == AppendTools(old(allowedTools), source, SeenTools(old(allowedTools)))
      ensures added == |allowedTools| - |old(allowedTools)|
      ensures repeated == RepeatedTools(source, SeenTools(old(allowedTools)))
    {
      hide Trim;
      var seen := SeenTools(allowedTools);
      ghost var seen0 := seen;
      added, repeated := 0, 0;
      var k := 0;
      while k < |source|
        invariant 0 <= k <= |source| && |allowedTools| == |old(allowedTools)| + added
        invariant AppendTools(allowedTools, source[k..], seen) == AppendTools(old(allowedTools), source, seen0)
        invariant repeated + RepeatedTools(source[k..], seen) == RepeatedTools(source, seen0)
      {
        assert source[k..][0] == source[k] && source[k..][1..] == source[k + 1..];
        var name := Trim(source[k]);
        k := k + 1;
        if name == [] { continue; }
        if name !in seen {
          seen := seen + {name};
          allowedTools := allowedTools + [name];
          added := added + 1;
        } else {
          assert seen + {name} == seen;
          repeated := repeated + 1;
        }
      }
    }

    /** The single-valued settings. */
    method MergeSettings(s: AgentConfig) returns (changed: bool, conflicts: nat)
      modifies this`provider, this`model, this`systemPrompt, this`apiKey, this`temperature
      ensures View() == MergeAgent(old(View()), s).(allowedTools := allowedTools, capabilities := capabilities)
      ensures changed <==> View() != old(View())
      ensures conflicts == Conflicts(old(View()), s)
    {
      hide MergeAgent, FillName, FillText, FillTemperature;
      hide NameConflict, TextConflict, TemperatureConflict, PlainConflicts;
      var p, p', c1 := MergeName(provider, s.provider);
      var m, m', c2 := MergeName(model, s.model);
      var x, x', c3 := MergeText(systemPrompt, s.systemPrompt);
      var a, a', c4 := MergeText(apiKey, s.apiKey);
      var t, t', c5 := MergeTemperature(temperature, s.temperature);
      ghost var before := View();
      conflicts := c1 + c2 + c3 + c4 + c5 + PlainConflicts(View(), s);
      assert conflicts == Conflicts(before, s);
      hide Conflicts;
      SettingsFilled(before, s, p, m, x, a, t);
      provider, model, systemPrompt, apiKey, temperature := p, m, x, a, t;
      changed := p' || m' || x' || a' || t';
      assert View() == before.(provider := p, model := m, systemPrompt := x, apiKey := a, temperature := t);
    }

    /** `merge_delegate_agent`: `changed` exactly when something changed. */
    method MergeFrom(s: AgentConfig, stats: ConfigStats) returns (changed: bool)
      modifies this, stats
      ensures View() == MergeAgent(old(View()), s)
      ensures stats.counts == Counted(old(stats.counts), old(View()), s)
      ensures changed <==> View() != old(View())
    {
      hide Trim, AppendTools, RepeatedTools, SeenTools, FillName, FillText, FillTemperature, Conflicts;
      ghost var before := View();
      var settings, conflicts := MergeSettings(s);
      var added, repeated := MergeTools(s.allowedTools);
      ToolsAreThere(before.allowedTools, s.allowedTools);
      var newCapabilities := capabilities == [] && s.capabilities != [];
      if newCapabilities { capabilities := s.capabilities; }
      changed := settings || added > 0 || newCapabilities;
      var c := stats.counts;
      stats.counts := c.(conflicts := c.conflicts + conflicts, toolsAdded := c.toolsAdded + added,
                         duplicates := c.duplicates + repeated);
    }
  }

  method MergeName(t: Option<string>, s: Option<string>) returns (r: Option<string>, changed: bool, conflicts: nat)
    ensures r == FillName(t, s) && (changed <==> r != t) && conflicts == NameConflict(t, s)
  {
    hide Trim;
    r, changed, conflicts := t, false, 0;
    if Blank(t) && !Blank(s) {
      r, changed := s, true;
    } else if t != s {
      conflicts := 1;
    }
  }

  method MergeText(t: Option<string>, s: Option<string>) returns (r: Option<string>, changed: bool, conflicts: nat)
    ensures r == FillText(t, s) && (changed <==> r != t) && conflicts == TextConflict(t, s)
  {
    hide Trim;
    r, changed, conflicts := t, false, 0;
    match (t, s) {
      case (None, Some(_)) => r, changed := s, true;
      case (Some(a), Some(b)) =>
        if Trim(a) == [] && Trim(b) != [] {
          r, changed := s, true;
        } else if a != b {
          conflicts := 1;
        }
      case _ =>
    }
  }

  method MergeTemperature(t: Option<real>, s: Option<real>) returns (r: Option<real>, changed: bool, conflicts: nat)
    ensures r == FillTemperature(t, s) && (changed <==> r != t) && conflicts == TemperatureConflict(t, s)
  {
    r, changed, conflicts := t, false, 0;
    match (t, s) {
      case (None, Some(_)) => r, changed := s, true;
      case (Some(a), Some(b)) =>
        if a - b >= EPSILON || b - a >= EPSILON { conflicts := 1; }
      case _ =>
    }
  }

  // ----- all agents ---------------------------------------------------------------------------------------

  /** `merge_openclaw_agents` on values; the names come from an object, so they are distinct. */
  function MergeAgents(agents: map<string, AgentConfig>, source: seq<(string, AgentConfig)>): map<string, AgentConfig>
    decreases |source|
  {
    if source == [] then agents else
      MergeAgents(AgentMerged(agents, source[0].0, source[0].1), source[1..])
  }

  function AgentMerged(agents: map<string, AgentConfig>, name: string, source: AgentConfig): map<string, AgentConfig> {
    agents[name := if name in agents then MergeAgent(agents[name], source) else source]
  }

  function AgentCounted(c: Counts, agents: map<string, AgentConfig>, name: string, source: AgentConfig): Counts {
    if name !in agents then c.(agentsAdded := c.agentsAdded + 1)
    else
      var next := Counted(c, agents[name], source);
      if MergeAgent(agents[name], source) == agents[name] then next
      else next.(agentsMerged := next.agentsMerged + 1)
  }

  function AgentCounts(c: Counts, agents: map<string, AgentConfig>, source: seq<(string, AgentConfig)>): Counts
    decreases |source|
  {
    if source == [] then c else
      AgentCounts(AgentCounted(c, agents, source[0].0, source[0].1), AgentMerged(agents, source[0].0, source[0].1),
                  source[1..])
  }

  predicate DistinctNames(source: seq<(string, AgentConfig)>) {
    forall i, j | 0 <= i < j < |source| :: source[i].0 != source[j].0
  }

  function AgentAt(agents: map<string, AgentConfig>, name: string): Option<AgentConfig> {
    if name in agents then Some(agents[name]) else None
  }

  function SourceAt(source: seq<(string, AgentConfig)>, name: string): Option<AgentConfig> {
    if source == [] then None else if source[0].0 == name then Some(source[0].1) else SourceAt(source[1..], name)
  }

  function Combine(t: Option<AgentConfig>, s: Option<AgentConfig>): Option<AgentConfig> {
    if s.None? then t else if t.None? then s else Some(MergeAgent(t.value, s.value))
  }

  lemma {:induction false} AbsentSource(source: seq<(string, AgentConfig)>, name: string)
    requires forall i | 0 <= i < |source| :: source[i].0 != name
    ensures SourceAt(source, name) == None
  {
    if source != [] { AbsentSource(source[1..], name); }
  }

  /** Name by name: an agent that was there is there, merged with its source when it has one, and
      every other source agent is added as it is. */
  lemma {:induction false} MergeAgentsByName(agents: map<string, AgentConfig>, source: seq<(string, AgentConfig)>,
                                             name: string)
    requires DistinctNames(source)
    ensures AgentAt(MergeAgents(agents, source), name) == Combine(AgentAt(agents, name), SourceAt(source, name))
    decreases |source|
  {
    hide MergeAgent;
    if source != [] {
      assert forall i | 0 <= i < |source[1..]| :: source[1..][i] == source[i + 1];
      if source[0].0 == name { AbsentSource(source[1..], name); }
      MergeAgentsByName(AgentMerged(agents, source[0].0, source[0].1), source[1..], name);
    }
  }

  lemma SameAgents(a: map<string, AgentConfig>, b: map<string, AgentConfig>)
    requires forall n :: AgentAt(a, n) == AgentAt(b, n)
    ensures a == b
  {
    forall n ensures n in a <==> n in b { assert AgentAt(a, n) == AgentAt(b, n); }
    forall n | n in a ensures a[n] == b[n] { assert AgentAt(a, n) == AgentAt(b, n); }
    assert a.Keys == b.Keys;
  }

  /** A second merge of the same agents changes no agent. */
  lemma MergeAgentsIsIdempotent(agents: map<string, AgentConfig>, source: seq<(string, AgentConfig)>)
    requires DistinctNames(source)
    ensures MergeAgents(MergeAgents(agents, source), source) == MergeAgents(agents, source)
    ensures !AnyMerged(MergeAgents(agents, source), source)
  {
    hide MergeAgent, MergeAgents, AgentAt, SourceAt, AnyMerged;
    var r := MergeAgents(agents, source);
    forall n ensures AgentAt(MergeAgents(r, source), n) == AgentAt(r, n) {
      MergeAgentsByName(agents, source, n);
      MergeAgentsByName(r, source, n);
      var t, s := AgentAt(agents, n), SourceAt(source, n);
      if s.Some? { MergeAgentSelf(s.value); }
      if t.Some? && s.Some? { MergeAgentIsIdempotent(t.value, s.value); }
    }
    SameAgents(MergeAgents(r, source), r);
    AnyMergedIff(r, source);
  }

  /** The flag `merge_openclaw_agents` returns: some source agent was added or changed its namesake. */
  predicate AnyMerged(agents: map<string, AgentConfig>, source: seq<(string, AgentConfig)>)
    decreases |source|
  {
    source != [] &&
    var next := AgentMerged(agents, source[0].0, source[0].1);
    next != agents || AnyMerged(next, source[1..])
  }

  /** No later source agent undoes what an earlier one changed. */
  lemma {:induction false} AnyMergedIff(agents: map<string, AgentConfig>, source: seq<(string, AgentConfig)>)
    requires DistinctNames(source)
    ensures AnyMerged(agents, source) <==> MergeAgents(agents, source) != agents
    decreases |source|
  {
    hide MergeAgent;
    if source != [] {
      var name, agent := source[0].0, source[0].1;
      var next := AgentMerged(agents, name, agent);
      assert forall i | 0 <= i < |source[1..]| :: source[1..][i] == source[i + 1];
      if next == agents {
        AnyMergedIff(agents, source[1..]);
      } else {
        AbsentSource(source[1..], name);
        MergeAgentsByName(next, source[1..], name);
        assert AgentAt(MergeAgents(agents, source), name) == AgentAt(next, name) != AgentAt(agents, name);
      }
    }
  }

  function Views(agents: map<string, DelegateAgent>): map<string, AgentConfig>
    reads agents.Values
  {
    map n | n in agents :: agents[n].View()
  }

  predicate Unshared(agents: map<string, DelegateAgent>) {
    forall n, m | n in agents && m in agents && n != m :: agents[n] != agents[m]
  }

  lemma OneChanged(a: map<string, AgentConfig>, b: map<string, AgentConfig>, name: string, c: AgentConfig)
    requires b.Keys == a.Keys + {name} && b[name] == c
    requires forall n | n in a && n != name :: b[n] == a[n]
    ensures b == a[name := c]
  {
  }

  lemma NewName(c: Counts, agents: map<string, AgentConfig>, name: string, source: AgentConfig)
    requires name !in agents
    ensures AgentCounted(c, agents, name, source) == c.(agentsAdded := c.agentsAdded + 1)
    ensures AgentMerged(agents, name, source) == agents[name := source]
  {
  }

  lemma StaysUnshared(agents: map<string, DelegateAgent>, name: string, added: DelegateAgent)
    requires Unshared(agents) && added !in agents.Values
    ensures Unshared(agents[name := added])
    ensures agents[name := added].Values - agents.Values <= {added}
    ensures agents[name := added].Keys == agents.Keys + {name} && agents[name := added][name] == added
    ensures forall n | n in agents && n != name :: agents[name := added][n] == agents[n]
  {
  }

  class AgentRegistry {
    var agents: map<string, DelegateAgent>

    constructor (agents: map<string, DelegateAgent>)
      ensures this.agents == agents
    {
      this.agents := agents;
    }

    /** A source agent whose name is taken. */
    method MergeExisting(name: string, source: AgentConfig, stats: ConfigStats) returns (changed: bool)
      requires Unshared(agents) && name in agents
      modifies agents.Values, stats
      ensures Views(agents) == AgentMerged(old(Views(agents)), name, source)
      ensures stats.counts == AgentCounted(old(stats.counts), old(Views(agents)), name, source)
      ensures changed <==> Views(agents) != old(Views(agents))
    {
      hide MergeAgent, Counted;
      ghost var before := Views(agents);
      var existing := agents[name];
      assert before[name] == existing.View();
      changed := existing.MergeFrom(source, stats);
      if changed { stats.counts := stats.counts.(agentsMerged := stats.counts.agentsMerged + 1); }
      assert Views(agents)[name] == existing.View();
      assert forall n | n in agents && n != name :: Views(agents)[n] == before[n];
      assert before.Keys == before.Keys + {name};
      OneChanged(before, Views(agents), name, MergeAgent(before[name], source));
    }

    /** A source agent whose name is free. */
    method Add(name: string, source: AgentConfig, stats: ConfigStats)
      requires Unshared(agents) && name !in agents
      modifies this, stats
      ensures Unshared(agents) && fresh(agents.Values - old(agents.Values))
      ensures Views(agents) == AgentMerged(old(Views(agents)), name, source)
      ensures stats.counts == AgentCounted(old(stats.counts), old(Views(agents)), name, source)
    {
      hide MergeAgent, Counted, AgentCounted, AgentMerged, Unshared, DelegateAgent.View;
      ghost var before := Views(agents);
      NewName(stats.counts, before, name, source);
      stats.counts := stats.counts.(agentsAdded := stats.counts.agentsAdded + 1);
      var added := new DelegateAgent(source);
      StaysUnshared(agents, name, added);
      ghost var was := agents;
      agents := agents[name := added];
      hide Unshared;
      assert Views(agents).Keys == before.Keys + {name};
      assert forall n | n in before :: agents[n] == was[n] && Views(agents)[n] == before[n];
      OneChanged(before, Views(agents), name, source);
    }

    /** `merge_openclaw_agents`. */
    method MergeAll(source: seq<(string, AgentConfig)>, stats: ConfigStats) returns (changed: bool)
      requires Unshared(agents)
      modifies this, agents.Values, stats
      ensures Unshared(agents) && fresh(agents.Values - old(agents.Values))
      ensures Views(agents) == MergeAgents(old(Views(agents)), source)
      ensures stats.counts == AgentCounts(old(stats.counts), old(Views(agents)), source)
      ensures changed <==> AnyMerged(old(Views(agents)), source)
    {
      hide MergeAgent, AgentCounted;
      changed := false;
      var k := 0;
      while k < |source|
        invariant 0 <= k <= |source| && Unshared(agents) && fresh(agents.Values - old(agents.Values))
        invariant MergeAgents(Views(agents), source[k..]) == MergeAgents(old(Views(agents)), source)
        invariant AgentCounts(stats.counts, Views(agents), source[k..])
               == AgentCounts(old(stats.counts), old(Views(agents)), source)
        invariant changed || AnyMerged(Views(agents), source[k..]) <==> AnyMerged(old(Views(agents)), source)
      {
        assert source[k..][0] == source[k] && source[k..][1..] == source[k + 1..];
        if source[k].0 in agents {
          var one := MergeExisting(source[k].0, source[k].1, stats);
          changed := changed || one;
        } else {
          assert source[k].0 !in Views(agents) && source[k].0 in AgentMerged(Views(agents), source[k].0, source[k].1);
          Add(source[k].0, source[k].1, stats);
          changed := true;
        }
        k := k + 1;
      }
    }
  }
}
