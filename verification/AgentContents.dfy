/** What a turn puts into the history and shows the provider, message by message. */
module AgentContents {
  import opened ChatMessages
  import opened Text
  import opened Json
  import opened XmlToolCalls
  import opened Dispatcher
  import opened AgentLoop
  import opened AgentRuns

  // ----- the results of a round --------------------------------------------------------------------------

  /** What the model reads of a call: the tool's own output when it succeeded, and otherwise what went
      wrong. */
  predicate TellsOutcome(tools: set<string>, call: ParsedCall, outcome: ToolOutcome, output: string) {
    && (call.name !in tools ==> output == "Unknown tool: " + call.name)
    && (call.name in tools && outcome.Returned? && outcome.success ==> output == outcome.output)
    && (call.name in tools && outcome.Returned? && !outcome.success && outcome.error.Some? ==>
          output == "Error: " + outcome.error.value)
    && (call.name in tools && outcome.Returned? && !outcome.success && outcome.error.None? ==>
          output == "Error: " + outcome.output)
    && (call.name in tools && outcome.Raised? ==>
          output == "Error executing " + call.name + ": " + outcome.message)
  }

  /** One output for each call, in order. */
  predicate TellsAll(tools: set<string>, calls: seq<ParsedCall>, outcomes: nat -> ToolOutcome, outputs: seq<string>) {
    |outputs| == |calls| && forall i | 0 <= i < |calls| :: TellsOutcome(tools, calls[i], outcomes(i), outputs[i])
  }

  /** One output in the text that answers an XML call. */
  function XmlOutput(name: string, output: string): string {
    "<tool_result name=\"" + name + "\" status=\"ok\">\n" + output + "\n</tool_result>\n"
  }

  function Concat(parts: seq<string>): string {
    if parts == [] then [] else parts[0] + Concat(parts[1..])
  }

  /** The message that carries the outputs: one result with its id for each call, or one user message. */
  ghost predicate CarriesOutputs(kind: Kind, calls: seq<ParsedCall>, outputs: seq<string>, m: Message)
    requires |outputs| == |calls|
  {
    match kind
    case Native =>
      && m.ToolResults? && |m.results| == |calls|
      && forall i | 0 <= i < |calls| ::
           m.results[i].content == outputs[i] && (calls[i].id.Some? ==> m.results[i].id == calls[i].id.value)
           && (calls[i].id.None? ==> m.results[i].id == "unknown")
    case Xml =>
      exists parts :: |parts| == |calls|
        && (forall i | 0 <= i < |calls| :: parts[i] == XmlOutput(calls[i].name, outputs[i]))
        && m == Chat(ChatMessage("user", "[Tool results]\n" + Concat(parts)))
  }

  function Outputs(results: seq<ToolExecution>): (outputs: seq<string>)
    ensures |outputs| == |results| && forall i | 0 <= i < |results| :: outputs[i] == results[i].output
  {
    seq(|results|, i requires 0 <= i < |results| => results[i].output)
  }

  lemma {:induction false} ResultsTell(tools: set<string>, calls: seq<ParsedCall>, outcomes: nat -> ToolOutcome,
                                       from: nat)
    ensures var results := ExecuteCalls(tools, calls, outcomes, from);
      && (forall i | 0 <= i < |calls| :: TellsOutcome(tools, calls[i], outcomes(from + i), results[i].output))
      && forall i | 0 <= i < |calls| :: results[i].success
    decreases |calls|
  {
    hide ExecuteCall, ExecuteCalls, TellsOutcome;
    if calls != [] {
      ResultsTell(tools, calls[1..], outcomes, from + 1);
      OneTells(tools, calls[0], outcomes(from));
      ExecuteHead(tools, calls, outcomes, from);
      var head := ExecuteCall(tools, calls[0], outcomes(from));
      var later := ExecuteCalls(tools, calls[1..], outcomes, from + 1);
      forall i | 0 <= i < |calls|
        ensures TellsOutcome(tools, calls[i], outcomes(from + i), ([head] + later)[i].output)
        ensures ([head] + later)[i].success
      {
        if i > 0 { assert calls[i] == calls[1..][i - 1] && from + 1 + (i - 1) == from + i; }
      }
    }
  }

  lemma ExecuteHead(tools: set<string>, calls: seq<ParsedCall>, outcomes: nat -> ToolOutcome, from: nat)
    requires calls != []
    ensures ExecuteCalls(tools, calls, outcomes, from)
         == [ExecuteCall(tools, calls[0], outcomes(from))] + ExecuteCalls(tools, calls[1..], outcomes, from + 1)
  {
    hide ExecuteCall;
  }

  lemma OneTells(tools: set<string>, call: ParsedCall, outcome: ToolOutcome)
    ensures TellsOutcome(tools, call, outcome, ExecuteCall(tools, call, outcome).output)
    ensures ExecuteCall(tools, call, outcome).success
  {
  }

  lemma XmlHead(results: seq<ToolExecution>)
    requires results != [] && results[0].success
    ensures FormatXml(results) == XmlOutput(results[0].name, results[0].output) + FormatXml(results[1..])
  {
  }

  lemma {:induction false} XmlParts(results: seq<ToolExecution>) returns (parts: seq<string>)
    requires forall i | 0 <= i < |results| :: results[i].success
    ensures |parts| == |results| && FormatXml(results) == Concat(parts)
    ensures forall i | 0 <= i < |results| :: parts[i] == XmlOutput(results[i].name, results[i].output)
  {
    hide XmlOutput;
    if results == [] {
      parts := [];
    } else {
      var later := XmlParts(results[1..]);
      hide FormatXml;
      XmlHead(results);
      parts := [XmlOutput(results[0].name, results[0].output)] + later;
      assert parts[1..] == later;
    }
  }

  lemma {:induction false} UnknownIds(results: seq<ToolExecution>)
    ensures forall i | 0 <= i < |results| && results[i].id.None? :: FormatNative(results)[i].id == "unknown"
  {
    if results != [] { UnknownIds(results[1..]); }
  }

  /** The results message of a round carries the outputs of its calls. */
  lemma RoundCarries(cfg: Config, calls: seq<ParsedCall>, outcomes: nat -> ToolOutcome)
    ensures var results := ExecuteCalls(cfg.tools, calls, outcomes, 0);
      && TellsAll(cfg.tools, calls, outcomes, Outputs(results))
      && CarriesOutputs(cfg.kind, calls, Outputs(results), FormatResults(cfg.kind, results))
  {
    hide TellsOutcome, FormatXml, FormatNative, ExecuteCalls, ExecuteCall, CarriesOutputs;
    var results := ExecuteCalls(cfg.tools, calls, outcomes, 0);
    ResultsTell(cfg.tools, calls, outcomes, 0);
    match cfg.kind {
      case Native => NativeCarries(calls, results);
      case Xml => XmlCarries(calls, results);
    }
  }

  predicate AnswersCalls(calls: seq<ParsedCall>, results: seq<ToolExecution>) {
    && |results| == |calls|
    && forall i | 0 <= i < |calls| :: results[i].id == calls[i].id && results[i].name == calls[i].name
  }

  lemma NativeCarries(calls: seq<ParsedCall>, results: seq<ToolExecution>)
    requires AnswersCalls(calls, results)
    ensures CarriesOutputs(Native, calls, Outputs(results), FormatResults(Native, results))
  {
    hide FormatNative;
    UnknownIds(results);
  }

  lemma XmlCarries(calls: seq<ParsedCall>, results: seq<ToolExecution>)
    requires AnswersCalls(calls, results) && forall i | 0 <= i < |results| :: results[i].success
    ensures CarriesOutputs(Xml, calls, Outputs(results), FormatResults(Xml, results))
  {
    hide FormatXml, XmlOutput, Concat;
    var parts := XmlParts(results);
  }

  // ----- from call to call ----------------------------------------------------------------------------------

  /** What a round appends to the history: the text of the model if there is any, its calls and the
      message that carries their outputs. */
  ghost predicate Appends(cfg: Config, round: Round, before: seq<Message>, after: seq<Message>)
    requires round.reply.Answered?
  {
    var response := round.reply.response;
    var (text, calls) := ParseResponse(cfg.kind, response, cfg.decode);
    exists outputs, m ::
      && TellsAll(cfg.tools, calls, round.outcomes, outputs) && CarriesOutputs(cfg.kind, calls, outputs, m)
      && after == before + (if text == [] then [] else [Chat(ChatMessage("assistant", text))])
                  + [AssistantToolCalls(response.text, response.calls, response.reasoning), m]
  }

  predicate HasCalls(cfg: Config, round: Round) {
    round.reply.Answered? && ParseResponse(cfg.kind, round.reply.response, cfg.decode).1 != []
  }

  /** The trimmed history after a round with calls. */
  ghost predicate TrimmedRound(cfg: Config, round: Round, before: seq<Message>, after: seq<Message>) {
    && HasCalls(cfg, round)
    && exists full :: Appends(cfg, round, before, full) && after == TrimHistory(full, cfg.maxHistory)
  }

  /** A round after which the turn goes on: the trimmed history and the warning, if there is one. */
  ghost predicate GoesOn(cfg: Config, round: Round, before: seq<Message>, after: seq<Message>) {
    exists trimmed :: TrimmedRound(cfg, round, before, trimmed) && IsWarned(round.verdict, trimmed, after)
  }

  predicate IsWarned(verdict: Verdict, trimmed: seq<Message>, after: seq<Message>) {
    match verdict
    case Continue => after == trimmed
    case InjectWarning(w) => after == trimmed + [Chat(ChatMessage("user", w))]
    case HardStop(_) => false
  }

  /** The text of a provider that makes no calls. */
  predicate IsAnswer(cfg: Config, round: Round, t: string) {
    round.reply.Answered? &&
    var (text, calls) := ParseResponse(cfg.kind, round.reply.response, cfg.decode);
    && calls == [] && (text != [] ==> t == text)
    && (text == [] ==> t == match round.reply.response.text case Some(s) => s case None => "")
  }

  /** How iteration `i`, which showed the provider `before`, ended the turn. */
  ghost predicate Ends(cfg: Config, i: nat, round: Round, before: seq<Message>, after: seq<Message>,
                       result: TurnResult) {
    match result
    case Ok(t) =>
      IsAnswer(cfg, round, t) && after == TrimHistory(before + [Chat(ChatMessage("assistant", t))], cfg.maxHistory)
    case ProviderFailed(e) => round.reply == Failed(e) && after == before
    case LoopDetected(n, reason) =>
      n == i + 1 && round.verdict == HardStop(reason) && TrimmedRound(cfg, round, before, after)
    case TooManyIterations => i + 1 == cfg.maxIterations && GoesOn(cfg, round, before, after)
    case PromptFailed => false
  }

  /** The iterations from `i` on: each call sees what the one before left, and the last ends the turn. */
  ghost predicate Unfolds(cfg: Config, history: seq<Message>, i: nat, rounds: nat -> Round, o: Outcome) {
    if i >= cfg.maxIterations then o == Outcome(history, [], TooManyIterations)
    else
      && o.sent != [] && o.sent[0] == history
      && (forall k: nat | k + 1 < |o.sent| :: GoesOn(cfg, rounds(i + k), o.sent[k], o.sent[k + 1]))
      && var n := |o.sent| - 1;
         Ends(cfg, i + n, rounds(i + n), o.sent[n], o.history, o.result)
  }

  lemma RoundAppended(cfg: Config, round: Round, before: seq<Message>)
    requires round.reply.Answered?
    ensures var response := round.reply.response;
      var (text, calls) := ParseResponse(cfg.kind, response, cfg.decode);
      Appends(cfg, round, before, before + RoundMessages(cfg, response, text, calls, round.outcomes))
  {
    hide ParseResponse, TellsAll, CarriesOutputs, FormatResults, ExecuteCalls;
    var response := round.reply.response;
    var (text, calls) := ParseResponse(cfg.kind, response, cfg.decode);
    RoundCarries(cfg, calls, round.outcomes);
    var results := ExecuteCalls(cfg.tools, calls, round.outcomes, 0);
    var m := FormatResults(cfg.kind, results);
    var spoken := if text == [] then [] else [Chat(ChatMessage("assistant", text))];
    Assoc(before, spoken, [AssistantToolCalls(response.text, response.calls, response.reasoning), m]);
  }

  lemma RoundGoes(cfg: Config, round: Round, before: seq<Message>)
    requires HasCalls(cfg, round)
    ensures var response := round.reply.response;
      var (text, calls) := ParseResponse(cfg.kind, response, cfg.decode);
      var trimmed := AfterRound(cfg, before, response, text, calls, round.outcomes);
      && TrimmedRound(cfg, round, before, trimmed)
      && (!round.verdict.HardStop? ==> GoesOn(cfg, round, before, Warned(trimmed, round.verdict)))
  {
    hide ParseResponse, Appends, TrimHistory, RoundMessages;
    RoundAppended(cfg, round, before);
  }

  /** Every stretch of a turn unfolds so, whatever providers, tools and the loop detector answer. */
  lemma {:induction false} IterateUnfolds(cfg: Config, history: seq<Message>, i: nat, rounds: nat -> Round)
    ensures Unfolds(cfg, history, i, rounds, Iterate(cfg, history, i, rounds))
    decreases if i < cfg.maxIterations then cfg.maxIterations - i else 0
  {
    hide ParseResponse, TrimHistory, AfterRound, GoesOn, TrimmedRound, OrEmpty, Warned;
    if i < cfg.maxIterations && HasCalls(cfg, rounds(i)) {
      RoundGoes(cfg, rounds(i), history);
      if !rounds(i).verdict.HardStop? {
        var response := rounds(i).reply.response;
        var (text, calls) := ParseResponse(cfg.kind, response, cfg.decode);
        var next := Warned(AfterRound(cfg, history, response, text, calls, rounds(i).outcomes), rounds(i).verdict);
        IterateUnfolds(cfg, next, i + 1, rounds);
        var o := Iterate(cfg, next, i + 1, rounds);
        UnfoldsBefore(cfg, history, next, i, rounds, o);
      }
    } else {
      OrEmptyIs(rounds(i));
    }
  }

  lemma OrEmptyIs(round: Round)
    ensures round.reply.Answered? ==>
      OrEmpty(round.reply.response.text) == match round.reply.response.text case Some(s) => s case None => ""
  {
  }

  lemma UnfoldsBefore(cfg: Config, history: seq<Message>, next: seq<Message>, i: nat, rounds: nat -> Round, o: Outcome)
    requires i < cfg.maxIterations && GoesOn(cfg, rounds(i), history, next) && Unfolds(cfg, next, i + 1, rounds, o)
    ensures Unfolds(cfg, history, i, rounds, o.(sent := [history] + o.sent))
  {
    hide GoesOn, IsAnswer, TrimmedRound, TrimHistory;
    var sent := [history] + o.sent;
    forall k: nat | k + 1 < |sent| ensures GoesOn(cfg, rounds(i + k), sent[k], sent[k + 1]) {
      if k > 0 {
        var j := k - 1;
        assert i + 1 + j == i + k;
        assert sent[k] == o.sent[j] && sent[k + 1] == o.sent[j + 1];
      }
    }
    if o.sent != [] {
      assert sent[|sent| - 1] == o.sent[|o.sent| - 1];
      assert i + 1 + (|o.sent| - 1) == i + (|sent| - 1);
    }
  }

  /** A turn begins with the user's message behind the history, or behind the system message of a new
      conversation, and unfolds from there; without a prompt it shows and changes nothing. */
  lemma TurnUnfolds(cfg: Config, history: seq<Message>, input: TurnInput)
    ensures var o := TurnOf(cfg, history, input);
      if history == [] && input.systemPrompt == None then o == Outcome([], [], PromptFailed)
      else
        var begun := if history == [] then [Chat(ChatMessage("system", input.systemPrompt.value))] else history;
        Unfolds(cfg, begun + [Chat(ChatMessage("user", input.userText))], 0, input.rounds, o)
  {
    hide Iterate, Unfolds;
    if !(history == [] && input.systemPrompt == None) {
      var begun := if history == [] then [Chat(ChatMessage("system", input.systemPrompt.value))] else history;
      IterateUnfolds(cfg, begun + [User(input.userText)], 0, input.rounds);
    }
  }

  /** The first call sees the old history, or the system message, and then the user's message. */
  lemma FirstCallSeesUser(cfg: Config, history: seq<Message>, input: TurnInput)
    requires cfg.maxIterations > 0 && !(history == [] && input.systemPrompt == None)
    ensures var o := TurnOf(cfg, history, input);
      && o.sent != []
      && o.sent[0] == (if history == [] then [Chat(ChatMessage("system", input.systemPrompt.value))] else history)
                      + [Chat(ChatMessage("user", input.userText))]
  {
    hide TurnOf, GoesOn, Ends;
    TurnUnfolds(cfg, history, input);
  }

  lemma {:induction false} LastIsKept(history: seq<Message>, m: Message, max: nat)
    requires max > 0 && !IsSystem(m)
    ensures var t := TrimHistory(history + [m], max); t != [] && t[|t| - 1] == m
  {
    hide Systems, Others, IsSystem;
    ConcatParts(history, [m]);
    assert Others([m]) == [m] by { LastAlone(m); }
  }

  lemma LastAlone(m: Message)
    requires !IsSystem(m)
    ensures Others([m]) == [m]
  {
    assert [m][1..] == [];
  }

  /** A turn that succeeds answers with the provider's text, and the history ends with it. */
  lemma AnswerEndsHistory(cfg: Config, history: seq<Message>, input: TurnInput)
    requires cfg.maxHistory > 0
    ensures var o := TurnOf(cfg, history, input);
      o.result.Ok? ==>
        && o.sent != [] && IsAnswer(cfg, input.rounds(|o.sent| - 1), o.result.text)
        && o.history != [] && o.history[|o.history| - 1] == Chat(ChatMessage("assistant", o.result.text))
  {
    hide TurnOf, GoesOn, IsAnswer, TrimHistory, TrimmedRound;
    TurnUnfolds(cfg, history, input);
    var o := TurnOf(cfg, history, input);
    if o.result.Ok? {
      assert 0 + (|o.sent| - 1) == |o.sent| - 1;
      LastIsKept(o.sent[|o.sent| - 1], Chat(ChatMessage("assistant", o.result.text)), cfg.maxHistory);
    }
  }

  // ----- what calls and results say on the wire --------------------------------------------------------------

  /** `v` describes the call: its id, name and arguments, and its signature exactly when it has one. */
  predicate DescribesCall(v: Value, c: ToolCall) {
    && Get(v, "id") == Some(Str(c.id)) && Get(v, "name") == Some(Str(c.name))
    && Get(v, "arguments") == Some(Str(c.arguments))
    && Get(v, "thought_signature") == match c.thoughtSignature case Some(s) => Some(Str(s)) case None => None
  }

  lemma CallJsonDescribes(c: ToolCall)
    ensures DescribesCall(CallJson(c), c)
  {
    FieldNamesDiffer();
  }

  lemma FieldNamesDiffer()
    ensures "id" != "name" && "id" != "arguments" && "name" != "arguments"
    ensures "thought_signature" != "id" && "thought_signature" != "name" && "thought_signature" != "arguments"
    ensures "content" != "tool_calls" && "content" != "reasoning_content" && "tool_calls" != "reasoning_content"
    ensures "tool_call_id" != "content"
  {
    assert |"id"| == 2 && |"name"| == 4 && |"arguments"| == 9 && |"thought_signature"| == 17;
    assert |"content"| == 7 && |"tool_calls"| == 10 && |"reasoning_content"| == 17 && |"tool_call_id"| == 12;
  }

  /** The payload of a calls message holds its text, a description of each call in order, and its
      reasoning exactly when there is one; that of a result its id and content. */
  lemma PayloadsSay(m: Message, r: ToolResult)
    requires m.AssistantToolCalls?
    ensures Get(CallsPayload(m), "content") == Some(match m.text case Some(t) => Str(t) case None => Null)
    ensures var v := Get(CallsPayload(m), "tool_calls");
      && v.Some? && v.value.Arr? && |v.value.items| == |m.calls|
      && forall i | 0 <= i < |m.calls| :: DescribesCall(v.value.items[i], m.calls[i])
    ensures Get(CallsPayload(m), "reasoning_content")
         == match m.reasoning case Some(t) => Some(Str(t)) case None => None
    ensures Get(ResultPayload(r), "tool_call_id") == Some(Str(r.id))
    ensures Get(ResultPayload(r), "content") == Some(Str(r.content))
  {
    hide CallsJson, CallJson, DescribesCall;
    FieldNamesDiffer();
    forall i | 0 <= i < |m.calls| ensures DescribesCall(CallsJson(m.calls)[i], m.calls[i]) {
      CallJsonDescribes(m.calls[i]);
    }
  }

  /** A native response calls what it lists: same names and ids, the decoded arguments, and an empty
      object for arguments that are no JSON. */
  lemma {:induction false} NativeCallsMean(calls: seq<ToolCall>, decode: Decode)
    ensures var parsed := ParseCalls(calls, decode);
      |parsed| == |calls| && forall i | 0 <= i < |calls| ::
        && parsed[i].name == calls[i].name && parsed[i].id == Some(calls[i].id)
        && (decode(calls[i].arguments).Some? ==> parsed[i].arguments == decode(calls[i].arguments).value)
        && (decode(calls[i].arguments).None? ==> parsed[i].arguments == Obj(map[]))
  {
    if calls != [] { NativeCallsMean(calls[1..], decode); }
  }

  /** The text of a response, empty when there is none, and its calls: the listed ones, or with the XML
      dispatcher what is parsed out of that text. */
  lemma ResponsesMean(response: ChatResponse, decode: Decode)
    ensures var text := match response.text case Some(t) => t case None => "";
      && ParseResponse(Native, response, decode).0 == text
      && ParseResponse(Xml, response, decode) == ParseXml(text, decode)
      && |ParseResponse(Native, response, decode).1| == |response.calls|
      && forall i | 0 <= i < |response.calls| ::
           ParseResponse(Native, response, decode).1[i].name == response.calls[i].name
  {
  }
}
