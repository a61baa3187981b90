/** Runs of turns and clears: trimming, and the bounds every run keeps. */
module AgentRuns {
  import opened ChatMessages
  import opened Text
  import opened XmlToolCalls
  import opened Dispatcher
  import opened AgentLoop

  datatype Op = DoTurn(input: TurnInput) | Clear

  /** A run of operations on a fresh or given history, with everything sent to the provider. */
  datatype Run = Run(history: seq<Message>, sent: seq<seq<Message>>)

  function RunOf(cfg: Config, history: seq<Message>, ops: seq<Op>): Run
    decreases |ops|
  {
    if ops == [] then Run(history, [])
    else match ops[0]
      case Clear => RunOf(cfg, [], ops[1..])
      case DoTurn(input) =>
        var o := TurnOf(cfg, history, input);
        var later := RunOf(cfg, o.history, ops[1..]);
        later.(sent := o.sent + later.sent)
  }

  // ----- system messages and trimming -------------------------------------------------------------------

  lemma {:induction false} NoSystems(body: seq<Message>)
    requires forall i | 0 <= i < |body| :: !IsSystem(body[i])
    ensures Systems(body) == [] && Others(body) == body
  {
    if body != [] {
      NoSystems(body[1..]);
      assert body == [body[0]] + body[1..];
    }
  }

  lemma {:induction false} OthersHaveNoSystem(history: seq<Message>)
    ensures forall i | 0 <= i < |Others(history)| :: !IsSystem(Others(history)[i])
    ensures forall i | 0 <= i < |Systems(history)| :: IsSystem(Systems(history)[i])
    ensures |Systems(history)| + |Others(history)| == |history|
  {
    if history != [] { OthersHaveNoSystem(history[1..]); }
  }

  predicate OneSystem(history: seq<Message>) {
    history != [] && IsSystem(history[0]) && forall i | 0 < i < |history| :: !IsSystem(history[i])
  }

  /** Trimming keeps the system message and the longest allowed suffix of the rest. */
  lemma TrimKeepsSuffix(history: seq<Message>, max: nat)
    requires OneSystem(history)
    ensures TrimHistory(history, max) == [history[0]] + LastN(history[1..], max)
    ensures OneSystem(TrimHistory(history, max))
  {
    var body := history[1..];
    NoSystems(body);
    assert Systems(history) == [history[0]] + Systems(body) && Others(history) == [] + Others(body);
    hide Systems, Others, IsSystem;
    var t := [history[0]] + LastN(body, max);
    assert |history| <= max ==> history == t;
    assert [] + Others(body) == body && [history[0]] + [] == [history[0]];
    LastNHasNoSystem(body, max);
  }

  lemma LastNHasNoSystem(body: seq<Message>, max: nat)
    requires forall i | 0 <= i < |body| :: !IsSystem(body[i])
    ensures forall i | 0 <= i < |LastN(body, max)| :: !IsSystem(LastN(body, max)[i])
  {
  }

  lemma {:induction false} ConcatParts(a: seq<Message>, b: seq<Message>)
    ensures Systems(a + b) == Systems(a) + Systems(b) && Others(a + b) == Others(a) + Others(b)
  {
    if a == [] {
      assert a + b == b;
    } else {
      assert (a + b)[1..] == a[1..] + b;
      ConcatParts(a[1..], b);
      Assoc(if IsSystem(a[0]) then [a[0]] else [], Systems(a[1..]), Systems(b));
      Assoc(if IsSystem(a[0]) then [] else [a[0]], Others(a[1..]), Others(b));
    }
  }

  lemma {:induction false} AllSystems(s: seq<Message>)
    requires forall i | 0 <= i < |s| :: IsSystem(s[i])
    ensures Systems(s) == s && Others(s) == []
  {
    if s != [] {
      AllSystems(s[1..]);
      assert s == [s[0]] + s[1..];
    }
  }

  /** Trimming twice is trimming once, on any history. */
  lemma TrimIsIdempotent(history: seq<Message>, max: nat)
    ensures TrimHistory(TrimHistory(history, max), max) == TrimHistory(history, max)
  {
    if |history| > max {
      var s, o := Systems(history), LastN(Others(history), max);
      OthersHaveNoSystem(history);
      TrimmedParts(s, o);
      assert LastN(o, max) == o;
    }
  }

  lemma TrimmedParts(s: seq<Message>, o: seq<Message>)
    requires forall i | 0 <= i < |s| :: IsSystem(s[i])
    requires forall i | 0 <= i < |o| :: !IsSystem(o[i])
    ensures Systems(s + o) == s && Others(s + o) == o
  {
    AllSystems(s);
    NoSystems(o);
    ConcatParts(s, o);
  }

  // ----- bounds ---------------------------------------------------------------------------------------------------

  predicate Tidy(history: seq<Message>) { history == [] || OneSystem(history) }

  lemma TrimBounds(history: seq<Message>, max: nat)
    requires OneSystem(history)
    ensures OneSystem(TrimHistory(history, max)) && |TrimHistory(history, max)| <= max + 1
  {
    TrimKeepsSuffix(history, max);
  }

  lemma RoundHasNoSystem(cfg: Config, response: ChatResponse, text: string, calls: seq<ParsedCall>,
                         outcomes: nat -> ToolOutcome)
    ensures var ms := RoundMessages(cfg, response, text, calls, outcomes);
      |ms| <= 3 && forall m | m in ms :: !IsSystem(m)
  {
  }

  /** Within a turn: non-system messages number at most the limit after success, at most one more
      at each provider call after the first, and the calls are at most the allowed iterations. */
  lemma {:induction false} IterateIsBounded(cfg: Config, history: seq<Message>, i: nat, rounds: nat -> Round)
    requires OneSystem(history) && i <= cfg.maxIterations
    ensures var o := Iterate(cfg, history, i, rounds);
      && OneSystem(o.history)
      && (forall k | 0 <= k < |o.sent| :: OneSystem(o.sent[k]))
      && (o.sent != [] ==> o.sent[0] == history)
      && (forall k | 0 < k < |o.sent| :: |o.sent[k]| <= cfg.maxHistory + 2)
      && |o.sent| <= cfg.maxIterations - i
      && (o.result.Ok? ==> |o.history| <= cfg.maxHistory + 1)
    decreases cfg.maxIterations - i
  {
    hide TrimHistory, ParseResponse, RoundMessages, OrEmpty;
    if i < cfg.maxIterations && rounds(i).reply.Answered? {
      var response := rounds(i).reply.response;
      var (text, calls) := ParseResponse(cfg.kind, response, cfg.decode);
      if calls == [] {
        var final := if text == [] then OrEmpty(response.text) else text;
        TrimBounds(history + [Assistant(final)], cfg.maxHistory);
      } else {
        var ms := RoundMessages(cfg, response, text, calls, rounds(i).outcomes);
        RoundHasNoSystem(cfg, response, text, calls, rounds(i).outcomes);
        assert OneSystem(history + ms);
        TrimBounds(history + ms, cfg.maxHistory);
        var trimmed := TrimHistory(history + ms, cfg.maxHistory);
        var v := rounds(i).verdict;
        if !v.HardStop? { IterateIsBounded(cfg, Warned(trimmed, v), i + 1, rounds); }
      }
    }
  }

  lemma SpokenCounts()
    ensures forall h: seq<Message> | OneSystem(h) :: |Others(h)| == |h| - 1
  {
    forall h: seq<Message> | OneSystem(h) ensures |Others(h)| == |h| - 1 {
      NoSystems(h[1..]);
    }
  }

  /** Over whole turns; the first call of a turn sees what was there plus the user's message. */
  lemma TurnIsBounded(cfg: Config, history: seq<Message>, input: TurnInput)
    requires Tidy(history)
    ensures var o := TurnOf(cfg, history, input);
      && Tidy(o.history)
      && (forall k | 0 <= k < |o.sent| :: OneSystem(o.sent[k]))
      && |o.sent| <= cfg.maxIterations
      && (o.sent != [] ==> |o.sent[0]| <= |history| + 2)
      && (forall k | 0 < k < |o.sent| :: |Others(o.sent[k])| <= cfg.maxHistory + 1)
      && (o.result.Ok? ==> |Others(o.history)| <= cfg.maxHistory)
  {
    SpokenCounts();
    if !(history == [] && input.systemPrompt == None) {
      var begun := if history == [] then [Chat(ChatMessage("system", input.systemPrompt.value))] else history;
      IterateIsBounded(cfg, begun + [User(input.userText)], 0, input.rounds);
    }
  }

  /** A history is empty or starts with its only system message, in every run. */
  lemma {:induction false} RunsStayTidy(cfg: Config, history: seq<Message>, ops: seq<Op>)
    requires Tidy(history)
    ensures Tidy(RunOf(cfg, history, ops).history)
    ensures forall k | 0 <= k < |RunOf(cfg, history, ops).sent| :: OneSystem(RunOf(cfg, history, ops).sent[k])
    decreases |ops|
  {
    if ops != [] {
      match ops[0]
      case Clear => RunsStayTidy(cfg, [], ops[1..]);
      case DoTurn(input) =>
        TurnIsBounded(cfg, history, input);
        RunsStayTidy(cfg, TurnOf(cfg, history, input).history, ops[1..]);
    }
  }
}
