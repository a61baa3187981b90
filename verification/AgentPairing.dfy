/** What every run of turns and clears keeps: tool calls stay paired with their results. */
module AgentPairing {
  import opened ChatMessages
  import opened Text
  import opened Json
  import opened Dispatcher
  import opened AgentLoop
  import opened AgentRuns

  // ----- pairing -------------------------------------------------------------------------------------

  /** `results` answers `calls`: the same ids in the same order. */
  predicate Answers(results: Message, calls: Message) {
    && results.ToolResults? && calls.AssistantToolCalls?
    && |results.results| == |calls.calls|
    && forall i | 0 <= i < |calls.calls| :: results.results[i].id == calls.calls[i].id
  }

  predicate IsSpoken(m: Message) { m.Chat? ==> m.message.role == "user" || m.message.role == "assistant" }

  /** Chat messages of user and assistant and tool messages: every call message is answered by the
      next one, and every result message but possibly the first answers the one before. */
  predicate Paired(body: seq<Message>) {
    && (forall i | 0 <= i < |body| :: IsSpoken(body[i]))
    && (forall i | 0 <= i < |body| && body[i].AssistantToolCalls? ::
          i + 1 < |body| && Answers(body[i + 1], body[i]))
    && (forall i | 0 < i < |body| && body[i].ToolResults? :: Answers(body[i], body[i - 1]))
  }

  /** Empty, or one system message followed by paired messages. */
  predicate WellPaired(history: seq<Message>) {
    history == [] || (IsSystem(history[0]) && Paired(history[1..]))
  }

  lemma PairedSuffix(body: seq<Message>, k: nat)
    requires Paired(body) && k <= |body|
    ensures Paired(body[k..])
  {
  }

  lemma PairedAppend(a: seq<Message>, b: seq<Message>)
    requires Paired(a) && Paired(b)
    requires b != [] ==> !b[0].ToolResults?
    ensures Paired(a + b)
  {
    var s := a + b;
    forall i | 0 <= i < |s| && s[i].AssistantToolCalls? ensures i + 1 < |s| && Answers(s[i + 1], s[i]) {
      if i < |a| { assert s[i] == a[i] && s[i + 1] == a[i + 1]; }
      else { assert s[i] == b[i - |a|] && s[i + 1] == b[i + 1 - |a|]; }
    }
    forall i | 0 < i < |s| && s[i].ToolResults? ensures Answers(s[i], s[i - 1]) {
      if i < |a| { assert s[i] == a[i] && s[i - 1] == a[i - 1]; }
      else { assert s[i] == b[i - |a|] && s[i - 1] == b[i - 1 - |a|]; }
    }
  }

  // ----- one round keeps the pairing -----------------------------------------------------------------------

  lemma RoundIsPaired(cfg: Config, response: ChatResponse, outcomes: nat -> ToolOutcome)
    requires cfg.kind == Native
    ensures var (text, calls) := ParseResponse(cfg.kind, response, cfg.decode);
      var ms := RoundMessages(cfg, response, text, calls, outcomes);
      Paired(ms) && !ms[0].ToolResults?
  {
    var (text, calls) := ParseResponse(cfg.kind, response, cfg.decode);
    var results := ExecuteCalls(cfg.tools, calls, outcomes, 0);
    var c := AssistantToolCalls(response.text, response.calls, response.reasoning);
    var r := FormatResults(cfg.kind, results);
    forall i | 0 <= i < |c.calls| ensures r.results[i].id == c.calls[i].id {
      assert results[i].id == calls[i].id == Some(response.calls[i].id);
    }
    assert Answers(r, c);
  }

  lemma TrimKeepsPairing(history: seq<Message>, max: nat)
    requires WellPaired(history) && history != []
    ensures WellPaired(TrimHistory(history, max)) && TrimHistory(history, max) != []
  {
    hide TrimHistory;
    TrimKeepsSuffix(history, max);
    LastNKeepsPairing(history[1..], max);
    assert TrimHistory(history, max)[1..] == LastN(history[1..], max);
  }

  lemma LastNKeepsPairing(body: seq<Message>, max: nat)
    requires Paired(body)
    ensures Paired(LastN(body, max))
  {
    if |body| > max { PairedSuffix(body, |body| - max); }
  }

  lemma AppendKeepsPairing(history: seq<Message>, b: seq<Message>)
    requires WellPaired(history) && history != [] && Paired(b) && (b != [] ==> !b[0].ToolResults?)
    ensures WellPaired(history + b)
  {
    PairedAppend(history[1..], b);
    assert (history + b)[1..] == history[1..] + b;
  }

  ghost predicate AllPaired(sent: seq<seq<Message>>) {
    forall k | 0 <= k < |sent| :: sent[k] != [] && WellPaired(sent[k])
  }

  lemma SpokenIsPaired(text: string)
    ensures Paired([User(text)]) && Paired([Assistant(text)])
    ensures User(text).Chat? && Assistant(text).Chat?
  {
  }

  lemma {:induction false} IterateKeepsPairing(cfg: Config, history: seq<Message>, i: nat, rounds: nat -> Round)
    requires cfg.kind == Native && history != [] && WellPaired(history)
    ensures var o := Iterate(cfg, history, i, rounds);
      o.history != [] && WellPaired(o.history) && AllPaired(o.sent)
    decreases if i < cfg.maxIterations then cfg.maxIterations - i else 0
  {
    hide WellPaired, Paired, TrimHistory, RoundMessages, ParseResponse, OrEmpty, User, Assistant;
    if i < cfg.maxIterations && rounds(i).reply.Answered? {
      var response := rounds(i).reply.response;
      var (text, calls) := ParseResponse(cfg.kind, response, cfg.decode);
      if calls == [] {
        var final := if text == [] then OrEmpty(response.text) else text;
        SpokenIsPaired(final);
        AppendKeepsPairing(history, [Assistant(final)]);
        TrimKeepsPairing(history + [Assistant(final)], cfg.maxHistory);
      } else {
        var ms := RoundMessages(cfg, response, text, calls, rounds(i).outcomes);
        RoundIsPaired(cfg, response, rounds(i).outcomes);
        AppendKeepsPairing(history, ms);
        TrimKeepsPairing(history + ms, cfg.maxHistory);
        var trimmed := TrimHistory(history + ms, cfg.maxHistory);
        var v := rounds(i).verdict;
        if v.InjectWarning? {
          SpokenIsPaired(v.warning);
          AppendKeepsPairing(trimmed, [User(v.warning)]);
        }
        if !v.HardStop? { IterateKeepsPairing(cfg, Warned(trimmed, v), i + 1, rounds); }
      }
    }
  }

  lemma TurnKeepsPairing(cfg: Config, history: seq<Message>, input: TurnInput)
    requires cfg.kind == Native && WellPaired(history)
    ensures WellPaired(TurnOf(cfg, history, input).history) && AllPaired(TurnOf(cfg, history, input).sent)
  {
    if !(history == [] && input.systemPrompt == None) {
      var begun := if history == [] then [Chat(ChatMessage("system", input.systemPrompt.value))] else history;
      assert WellPaired(begun);
      AppendKeepsPairing(begun, [User(input.userText)]);
      IterateKeepsPairing(cfg, begun + [User(input.userText)], 0, input.rounds);
    }
  }

  /** At every provider call of every run of turns and clears, every assistant tool-call message is
      immediately followed by the results of exactly its ids in order, and every result message
      but possibly the first non-system one is immediately preceded by its calls. */
  lemma {:induction false} EveryCallStaysPaired(cfg: Config, history: seq<Message>, ops: seq<Op>)
    requires cfg.kind == Native && WellPaired(history)
    ensures WellPaired(RunOf(cfg, history, ops).history) && AllPaired(RunOf(cfg, history, ops).sent)
    decreases |ops|
  {
    if ops != [] {
      match ops[0]
      case Clear => EveryCallStaysPaired(cfg, [], ops[1..]);
      case DoTurn(input) =>
        TurnKeepsPairing(cfg, history, input);
        EveryCallStaysPaired(cfg, TurnOf(cfg, history, input).history, ops[1..]);
    }
  }

  // ----- what the provider reads ------------------------------------------------------------------------------

  /** What the native dispatcher encodes of a history is read back as it was. */
  ghost predicate ReadsBack(history: seq<Message>, encode: Encode, decode: Decode) {
    && (forall m | m in history && m.AssistantToolCalls? ::
          decode(encode(CallsPayload(m))) == Some(CallsPayload(m)))
    && (forall m, r | m in history && m.ToolResults? && r in m.results ::
          decode(encode(ResultPayload(r))) == Some(ResultPayload(r)))
  }

  /** At `o` stands the payload of the tool calls of `m`. */
  ghost predicate IsCallsPayload(wire: seq<ChatMessage>, o: nat, m: Message, decode: Decode)
    requires m.AssistantToolCalls?
  {
    o < |wire| && wire[o].role == "assistant" && decode(wire[o].content) == Some(CallsPayload(m))
  }

  /** At `w` stands a tool message for the call `id`. */
  ghost predicate IsResultFor(wire: seq<ChatMessage>, w: nat, id: string, decode: Decode) {
    && w < |wire| && wire[w].role == "tool" && decode(wire[w].content).Some?
    && Get(decode(wire[w].content).value, "tool_call_id") == Some(Str(id))
  }

  lemma PayloadReads(wire: seq<ChatMessage>, o: nat, m: Message, encode: Encode, decode: Decode)
    requires m.AssistantToolCalls? && decode(encode(CallsPayload(m))) == Some(CallsPayload(m))
    requires o < |wire| && wire[o..o + 1] == WireOf(Native, m, encode)
    ensures IsCallsPayload(wire, o, m, decode)
  {
    hide CallsPayload;
    assert wire[o] == wire[o..o + 1][0];
  }

  lemma ResultsRead(wire: seq<ChatMessage>, o: nat, m: Message, encode: Encode, decode: Decode)
    requires m.ToolResults? && forall r | r in m.results :: decode(encode(ResultPayload(r))) == Some(ResultPayload(r))
    requires o + |m.results| <= |wire| && wire[o..o + |m.results|] == WireOf(Native, m, encode)
    ensures forall k | 0 <= k < |m.results| :: IsResultFor(wire, o + k, m.results[k].id, decode)
  {
    hide IsResultFor, ResultPayload;
    var ms := ToolMessages(m.results, encode);
    forall k | 0 <= k < |m.results| ensures IsResultFor(wire, o + k, m.results[k].id, decode) {
      assert wire[o + k] == wire[o..o + |m.results|][k] == ms[k];
      ResultReads(wire, o + k, m.results[k], encode, decode);
    }
  }

  lemma ResultReads(wire: seq<ChatMessage>, w: nat, r: ToolResult, encode: Encode, decode: Decode)
    requires decode(encode(ResultPayload(r))) == Some(ResultPayload(r))
    requires w < |wire| && wire[w] == ChatMessage("tool", encode(ResultPayload(r)))
    ensures IsResultFor(wire, w, r.id, decode)
  {
    assert "tool_call_id" != "content" by { assert |"tool_call_id"| != |"content"|; }
  }

  /** On the wire: the assistant payload lists the calls, and the tool messages right behind it
      carry exactly their ids, in order. */
  lemma WireStaysPaired(history: seq<Message>, i: nat, encode: Encode, decode: Decode)
    requires ReadsBack(history, encode, decode)
    requires WellPaired(history) && 0 < i < |history| && history[i].AssistantToolCalls?
    ensures var calls := history[i].calls;
      var wire := ToProviderMessages(Native, history, encode);
      var o := Offset(Native, history, i, encode);
      && IsCallsPayload(wire, o, history[i], decode)
      && forall k | 0 <= k < |calls| :: IsResultFor(wire, o + 1 + k, calls[k].id, decode)
  {
    hide Offset, ToProviderMessages, WellPaired, Paired, CallsPayload, IsCallsPayload, IsResultFor, ResultPayload;
    AnsweredNext(history, i);
    WireAt(Native, history, i, encode);
    WireAt(Native, history, i + 1, encode);
    var wire := ToProviderMessages(Native, history, encode);
    var o := Offset(Native, history, i, encode);
    PayloadReads(wire, o, history[i], encode, decode);
    ResultsRead(wire, o + 1, history[i + 1], encode, decode);
  }

  /** Tool message `k` of `history[i]` answers call `k` of the message before, whose payload stands
      right before the tool messages. */
  ghost predicate AnswersOnWire(history: seq<Message>, wire: seq<ChatMessage>, i: nat, k: nat, w: nat, decode: Decode)
    requires 0 < i < |history|
  {
    var calls := history[i - 1];
    && calls.AssistantToolCalls? && k < |calls.calls| && k < w
    && IsCallsPayload(wire, w - k - 1, calls, decode) && IsResultFor(wire, w, calls.calls[k].id, decode)
  }

  /** On the wire: every tool message belongs to the results right behind the system message, or
      stands, at the place of its id, behind the payload of the call it answers. */
  lemma ToolMessagesAreAnswers(history: seq<Message>, w: nat, encode: Encode, decode: Decode) returns (i: nat, k: nat)
    requires ReadsBack(history, encode, decode) && WellPaired(history)
    requires w < |ToProviderMessages(Native, history, encode)|
    requires ToProviderMessages(Native, history, encode)[w].role == "tool"
    ensures 0 < i < |history| && history[i].ToolResults? && w == Offset(Native, history, i, encode) + k
    ensures i == 1 || AnswersOnWire(history, ToProviderMessages(Native, history, encode), i, k, w, decode)
  {
    hide Offset, ToProviderMessages, WellPaired, Paired, ReadsBack, IsCallsPayload, IsResultFor, CallsPayload;
    i := WireComesFrom(Native, history, w, encode);
    k := w - Offset(Native, history, i, encode);
    ToolsAreResults(history, i, k, encode);
    if i > 1 {
      AnswersBefore(history, i);
      WireAt(Native, history, i - 1, encode);
      WireStaysPaired(history, i - 1, encode, decode);
    }
  }

  lemma ToolsAreResults(history: seq<Message>, i: nat, k: nat, encode: Encode)
    requires WellPaired(history) && i < |history|
    requires k < |WireOf(Native, history[i], encode)| && WireOf(Native, history[i], encode)[k].role == "tool"
    ensures 0 < i && history[i].ToolResults?
  {
    if i > 0 { assert history[i] == history[1..][i - 1]; }
  }

  lemma AnswersBefore(history: seq<Message>, i: nat)
    requires WellPaired(history) && 1 < i < |history| && history[i].ToolResults?
    ensures Answers(history[i], history[i - 1])
  {
    assert history[1..][i - 1] == history[i] && history[1..][i - 2] == history[i - 1];
  }

  lemma AnsweredNext(history: seq<Message>, i: nat)
    requires WellPaired(history) && 0 < i < |history| && history[i].AssistantToolCalls?
    ensures i + 1 < |history| && Answers(history[i + 1], history[i])
  {
    assert history[1..][i - 1] == history[i];
  }
}
