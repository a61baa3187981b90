/** src/agent/agent.rs: the conversation history and the turn loop of `Agent`. */
module AgentLoop {
  import opened ChatMessages
  import opened Text
  import opened Json
  import opened XmlToolCalls
  import opened Dispatcher

  /** What running a registered tool can come to. */
  datatype ToolOutcome =
    | Returned(success: bool, output: string, error: Option<string>)
    | Raised(message: string)

  datatype Reply = Answered(response: ChatResponse) | Failed(error: string)

  /** The loop detector's verdict, an input of each round. */
  datatype Verdict = Continue | InjectWarning(warning: string) | HardStop(reason: string)

  /** Everything outside the agent during one iteration of a turn. */
  datatype Round = Round(reply: Reply, outcomes: nat -> ToolOutcome, verdict: Verdict)

  /** One call of `turn`: the prompt builder's answer, the enriched user text, the rounds. */
  datatype TurnInput = TurnInput(systemPrompt: Option<string>, userText: string, rounds: nat -> Round)

  datatype TurnResult =
    | Ok(text: string)
    | PromptFailed
    | ProviderFailed(error: string)
    | LoopDetected(iteration: nat, reason: string)
    | TooManyIterations

  datatype Config = Config(kind: Kind, maxHistory: nat, maxIterations: nat, tools: set<string>, decode: Decode)

  predicate IsSystem(m: Message) { m.Chat? && m.message.role == "system" }

  function Systems(history: seq<Message>): seq<Message> {
    if history == [] then []
    else (if IsSystem(history[0]) then [history[0]] else []) + Systems(history[1..])
  }

  function Others(history: seq<Message>): seq<Message> {
    if history == [] then []
    else (if IsSystem(history[0]) then [] else [history[0]]) + Others(history[1..])
  }

  function LastN<T>(s: seq<T>, n: nat): seq<T> {
    if |s| <= n then s else s[|s| - n..]
  }

  /** `trim_history`. */
  function TrimHistory(history: seq<Message>, max: nat): seq<Message> {
    if |history| <= max then history else Systems(history) + LastN(Others(history), max)
  }

  /** `execute_tool_call`; an unknown tool or a failure is text for the model, not an error. */
  function ExecuteCall(tools: set<string>, call: ParsedCall, outcome: ToolOutcome): (result: ToolExecution)
    ensures result.name == call.name && result.id == call.id
  {
    var output :=
      if call.name !in tools then "Unknown tool: " + call.name
      else match outcome
        case Returned(true, out, _) => out
        case Returned(false, out, error) => "Error: " + (match error case Some(e) => e case None => out)
        case Raised(e) => "Error executing " + call.name + ": " + e;
    ToolExecution(call.name, output, true, call.id)
  }

  /** `execute_tools`: one result per call, in order, sequentially or joined. */
  function ExecuteCalls(tools: set<string>, calls: seq<ParsedCall>, outcomes: nat -> ToolOutcome, from: nat)
    : (results: seq<ToolExecution>)
    ensures |results| == |calls|
    ensures forall i | 0 <= i < |calls| :: results[i].id == calls[i].id && results[i].name == calls[i].name
    decreases |calls|
  {
    if calls == [] then []
    else
      hide ExecuteCall;
      var result := ExecuteCall(tools, calls[0], outcomes(from));
      var later := ExecuteCalls(tools, calls[1..], outcomes, from + 1);
      assert forall i | 1 <= i < |calls| :: ([result] + later)[i] == later[i - 1] && calls[1..][i - 1] == calls[i];
      [result] + later
  }

  /** History, histories shown to the provider in order, and the result of a stretch of work. */
  datatype Outcome = Outcome(history: seq<Message>, sent: seq<seq<Message>>, result: TurnResult)

  /** The messages one tool round appends. */
  function RoundMessages(cfg: Config, response: ChatResponse, text: string, calls: seq<ParsedCall>,
                         outcomes: nat -> ToolOutcome): seq<Message> {
    (if text == [] then [] else [Assistant(text)])
    + [AssistantToolCalls(response.text, response.calls, response.reasoning),
       FormatResults(cfg.kind, ExecuteCalls(cfg.tools, calls, outcomes, 0))]
  }

  /** The trimmed history after one tool round. */
  function AfterRound(cfg: Config, history: seq<Message>, response: ChatResponse, text: string,
                      calls: seq<ParsedCall>, outcomes: nat -> ToolOutcome): seq<Message> {
    TrimHistory(history + RoundMessages(cfg, response, text, calls, outcomes), cfg.maxHistory)
  }

  /** A warning of the loop detector is one more user message. */
  function Warned(history: seq<Message>, verdict: Verdict): seq<Message> {
    match verdict case InjectWarning(w) => history + [User(w)] case _ => history
  }

  /** Iterations `i` and later of the loop in `turn`. */
  function Iterate(cfg: Config, history: seq<Message>, i: nat, rounds: nat -> Round): Outcome
    decreases if i < cfg.maxIterations then cfg.maxIterations - i else 0
  {
    if i >= cfg.maxIterations then Outcome(history, [], TooManyIterations)
    else match rounds(i).reply
      case Failed(e) => Outcome(history, [history], ProviderFailed(e))
      case Answered(response) =>
        var (text, calls) := ParseResponse(cfg.kind, response, cfg.decode);
        if calls == [] then
          var final := if text == [] then OrEmpty(response.text) else text;
          Outcome(TrimHistory(history + [Assistant(final)], cfg.maxHistory), [history], Ok(final))
        else
          var trimmed := AfterRound(cfg, history, response, text, calls, rounds(i).outcomes);
          if rounds(i).verdict.HardStop? then
            Outcome(trimmed, [history], LoopDetected(i + 1, rounds(i).verdict.reason))
          else
            var o := Iterate(cfg, Warned(trimmed, rounds(i).verdict), i + 1, rounds);
            o.(sent := [history] + o.sent)
  }

  /** `turn`. */
  function TurnOf(cfg: Config, history: seq<Message>, input: TurnInput): Outcome {
    if history == [] && input.systemPrompt == None then Outcome([], [], PromptFailed)
    else
      var begun := if history == [] then [Chat(ChatMessage("system", input.systemPrompt.value))] else history;
      Iterate(cfg, begun + [User(input.userText)], 0, input.rounds)
  }

  lemma RoundAppends(cfg: Config, before: seq<Message>, response: ChatResponse, text: string,
                     calls: seq<ParsedCall>, outcomes: nat -> ToolOutcome)
    ensures var spoken := if text != [] then before + [Assistant(text)] else before;
      spoken + [AssistantToolCalls(response.text, response.calls, response.reasoning)]
      + [FormatResults(cfg.kind, ExecuteCalls(cfg.tools, calls, outcomes, 0))]
      == before + RoundMessages(cfg, response, text, calls, outcomes)
  {
  }

  lemma PartsStep(h: seq<Message>, k: nat, systems: seq<Message>, others: seq<Message>)
    requires k < |h|
    ensures systems + Systems(h[k..])
         == (if IsSystem(h[k]) then systems + [h[k]] else systems) + Systems(h[k + 1..])
    ensures others + Others(h[k..])
         == (if IsSystem(h[k]) then others else others + [h[k]]) + Others(h[k + 1..])
  {
    assert h[k..][1..] == h[k + 1..];
    Assoc(systems, [h[k]], Systems(h[k + 1..]));
    Assoc(others, [h[k]], Others(h[k + 1..]));
  }

  lemma PartsDone()
    ensures Systems([]) == [] && Others([]) == []
  {
  }

  // ----- the object --------------------------------------------------------------------------------

  lemma ExecuteStep(tools: set<string>, calls: seq<ParsedCall>, outcomes: nat -> ToolOutcome, k: nat)
    requires k < |calls|
    ensures ExecuteCalls(tools, calls[k..], outcomes, k)
         == [ExecuteCall(tools, calls[k], outcomes(k))] + ExecuteCalls(tools, calls[k + 1..], outcomes, k + 1)
  {
    hide ExecuteCall;
    assert calls[k..][0] == calls[k] && calls[k..][1..] == calls[k + 1..];
  }

  class Agent {
    const cfg: Config
    var history: seq<Message>
    /** Every history handed to the provider since the agent was built. */
    ghost var sent: seq<seq<Message>>

    constructor (cfg: Config)
      ensures this.cfg == cfg && history == [] && sent == []
    {
      this.cfg := cfg;
      history, sent := [], [];
    }

    method ClearHistory()
      modifies this
      ensures history == [] && sent == old(sent)
    {
      history := [];
    }

    method Trim()
      modifies this
      ensures history == TrimHistory(old(history), cfg.maxHistory) && sent == old(sent)
    {
      hide Systems, Others, IsSystem;
      var max := cfg.maxHistory;
      if |history| <= max { return; }
      PartsDone();
      var systems: seq<Message>, others: seq<Message> := [], [];
      var k := 0;
      while k < |history|
        invariant k <= |history| && history == old(history) && sent == old(sent)
        invariant systems + Systems(history[k..]) == Systems(history)
        invariant others + Others(history[k..]) == Others(history)
      {
        var m := history[k];
        PartsStep(history, k, systems, others);
        if IsSystem(m) { systems := systems + [m]; } else { others := others + [m]; }
        k := k + 1;
      }
      assert history[k..] == [] && systems + [] == systems && others + [] == others;
      if |others| > max {
        var dropCount := |others| - max;
        others := others[dropCount..];
      }
      history := systems + others;
    }

    method ExecuteTools(calls: seq<ParsedCall>, outcomes: nat -> ToolOutcome) returns (results: seq<ToolExecution>)
      ensures results == ExecuteCalls(cfg.tools, calls, outcomes, 0)
    {
      hide ExecuteCalls, ExecuteCall;
      results := [];
      var k := 0;
      assert calls[0..] == calls;
      while k < |calls|
        invariant k <= |calls|
        invariant results + ExecuteCalls(cfg.tools, calls[k..], outcomes, k)
               == ExecuteCalls(cfg.tools, calls, outcomes, 0)
      {
        ExecuteStep(cfg.tools, calls, outcomes, k);
        Assoc(results, [ExecuteCall(cfg.tools, calls[k], outcomes(k))],
              ExecuteCalls(cfg.tools, calls[k + 1..], outcomes, k + 1));
        results := results + [ExecuteCall(cfg.tools, calls[k], outcomes(k))];
        k := k + 1;
      }
    }

    /** Iteration `i` of the loop in `turn`: the result of the turn when it ends here. */
    method Iteration(rounds: nat -> Round, i: nat, ghost start: seq<Message>, ghost shown: seq<seq<Message>>)
      returns (result: Option<TurnResult>)
      requires i < cfg.maxIterations && Midway(cfg, start, rounds, shown, history, i)
      modifies this
      ensures sent == old(sent) + [old(history)]
      ensures result == None ==> Midway(cfg, start, rounds, shown + [old(history)], history, i + 1)
      ensures result.Some? ==>
        Iterate(cfg, start, 0, rounds) == Outcome(history, shown + [old(history)], result.value)
    {
      hide Iterate, Midway, ParseResponse, ExecuteCalls, TrimHistory, FormatResults, OrEmpty, RoundMessages,
           Assistant, User;
      var round := rounds(i);
      ghost var before := history;
      sent := sent + [history];
      if round.reply.Failed? {
        MidwayFailed(cfg, start, rounds, shown, history, i);
        return Some(ProviderFailed(round.reply.error));
      }
      var response := round.reply.response;
      var (text, calls) := ParseResponse(cfg.kind, response, cfg.decode);
      if calls == [] {
        var final := if text == [] then OrEmpty(response.text) else text;
        MidwayAnswer(cfg, start, rounds, shown, history, i, text, calls);
        history := history + [Assistant(final)];
        Trim();
        return Some(Ok(final));
      }
      if text != [] { history := history + [Assistant(text)]; }
      history := history + [AssistantToolCalls(response.text, response.calls, response.reasoning)];
      var results := ExecuteTools(calls, round.outcomes);
      history := history + [FormatResults(cfg.kind, results)];
      RoundAppends(cfg, before, response, text, calls, round.outcomes);
      Trim();
      MidwayRound(cfg, start, rounds, shown, before, i, text, calls);
      match round.verdict {
        case Continue => return None;
        case InjectWarning(w) => history := history + [User(w)]; return None;
        case HardStop(reason) => return Some(LoopDetected(i + 1, reason));
      }
    }

    method Turn(input: TurnInput) returns (result: TurnResult)
      modifies this
      ensures var o := TurnOf(cfg, old(history), input);
        history == o.history && sent == old(sent) + o.sent && result == o.result
    {
      hide Iterate, Midway;
      if history == [] {
        if input.systemPrompt == None {
          assert sent == sent + [];
          return PromptFailed;
        }
        history := [Chat(ChatMessage("system", input.systemPrompt.value))];
      }
      history := history + [User(input.userText)];
      ghost var start := history;
      var i := 0;
      ghost var shown: seq<seq<Message>> := [];
      MidwayStart(cfg, start, input.rounds);
      while i < cfg.maxIterations
        invariant i <= cfg.maxIterations && sent == old(sent) + shown
        invariant Midway(cfg, start, input.rounds, shown, history, i)
      {
        ghost var before := history;
        var ended := Iteration(input.rounds, i, start, shown);
        Assoc(old(sent), shown, [before]);
        if ended.Some? { return ended.value; }
        i, shown := i + 1, shown + [before];
      }
      MidwayExhausted(cfg, start, input.rounds, shown, history, i);
      return TooManyIterations;
    }
  }

  /** The turn that began with `start` has shown the provider `shown` and goes on from `history`. */
  ghost predicate Midway(cfg: Config, start: seq<Message>, rounds: nat -> Round, shown: seq<seq<Message>>,
                         history: seq<Message>, i: nat) {
    var rest := Iterate(cfg, history, i, rounds);
    Iterate(cfg, start, 0, rounds) == rest.(sent := shown + rest.sent)
  }

  lemma MidwayStart(cfg: Config, start: seq<Message>, rounds: nat -> Round)
    ensures Midway(cfg, start, rounds, [], start, 0)
  {
    hide Iterate;
    var rest := Iterate(cfg, start, 0, rounds);
    assert [] + rest.sent == rest.sent;
  }

  lemma MidwayFailed(cfg: Config, start: seq<Message>, rounds: nat -> Round, shown: seq<seq<Message>>,
                     history: seq<Message>, i: nat)
    requires Midway(cfg, start, rounds, shown, history, i) && i < cfg.maxIterations && rounds(i).reply.Failed?
    ensures Iterate(cfg, start, 0, rounds)
         == Outcome(history, shown + [history], ProviderFailed(rounds(i).reply.error))
  {
  }

  lemma MidwayExhausted(cfg: Config, start: seq<Message>, rounds: nat -> Round, shown: seq<seq<Message>>,
                        history: seq<Message>, i: nat)
    requires Midway(cfg, start, rounds, shown, history, i) && i >= cfg.maxIterations
    ensures Iterate(cfg, start, 0, rounds) == Outcome(history, shown, TooManyIterations)
  {
    assert shown + [] == shown;
  }

  lemma MidwayAnswer(cfg: Config, start: seq<Message>, rounds: nat -> Round, shown: seq<seq<Message>>,
                     history: seq<Message>, i: nat, text: string, calls: seq<ParsedCall>)
    requires Midway(cfg, start, rounds, shown, history, i) && i < cfg.maxIterations && rounds(i).reply.Answered?
    requires (text, calls) == ParseResponse(cfg.kind, rounds(i).reply.response, cfg.decode) && calls == []
    ensures var final := if text == [] then OrEmpty(rounds(i).reply.response.text) else text;
      Iterate(cfg, start, 0, rounds)
      == Outcome(TrimHistory(history + [Assistant(final)], cfg.maxHistory), shown + [history], Ok(final))
  {
    hide ParseResponse, TrimHistory, OrEmpty, Assistant, AfterRound, Warned;
  }

  lemma MidwayRound(cfg: Config, start: seq<Message>, rounds: nat -> Round, shown: seq<seq<Message>>,
                    history: seq<Message>, i: nat, text: string, calls: seq<ParsedCall>)
    requires Midway(cfg, start, rounds, shown, history, i) && i < cfg.maxIterations && rounds(i).reply.Answered?
    requires (text, calls) == ParseResponse(cfg.kind, rounds(i).reply.response, cfg.decode) && calls != []
    ensures var trimmed := AfterRound(cfg, history, rounds(i).reply.response, text, calls, rounds(i).outcomes);
      if rounds(i).verdict.HardStop? then
        Iterate(cfg, start, 0, rounds)
        == Outcome(trimmed, shown + [history], LoopDetected(i + 1, rounds(i).verdict.reason))
      else Midway(cfg, start, rounds, shown + [history], Warned(trimmed, rounds(i).verdict), i + 1)
  {
    hide ParseResponse, TrimHistory, OrEmpty, Assistant, AfterRound, Warned;
    if !rounds(i).verdict.HardStop? {
      var trimmed := AfterRound(cfg, history, rounds(i).reply.response, text, calls, rounds(i).outcomes);
      var o := Iterate(cfg, Warned(trimmed, rounds(i).verdict), i + 1, rounds);
      assert Iterate(cfg, history, i, rounds) == o.(sent := [history] + o.sent);
      Assoc(shown, [history], o.sent);
    }
  }
}
