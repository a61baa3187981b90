/** What a tighter history limit changes: nothing but how much is forgotten. */
module AgentForgetting {
  import opened ChatMessages
  import opened Text
  import opened XmlToolCalls
  import opened Dispatcher
  import opened AgentLoop
  import opened AgentRuns

  // ----- a tighter limit only forgets more ---------------------------------------------------------------------------

  predicate SuffixOf<T(==)>(a: seq<T>, b: seq<T>) {
    |a| <= |b| && a == b[|b| - |a|..]
  }

  /** `a` is `b` with some of the oldest non-system messages forgotten. */
  predicate Forgets(a: seq<Message>, b: seq<Message>) {
    (a == [] && b == []) || (OneSystem(a) && OneSystem(b) && a[0] == b[0] && SuffixOf(a[1..], b[1..]))
  }

  lemma SuffixAppend<T>(a: seq<T>, b: seq<T>, x: seq<T>)
    requires SuffixOf(a, b)
    ensures SuffixOf(a + x, b + x)
  {
    assert (b + x)[|b| - |a|..] == b[|b| - |a|..] + x;
  }

  lemma ForgetsAppend(a: seq<Message>, b: seq<Message>, x: seq<Message>)
    requires Forgets(a, b) && a != [] && forall m | m in x :: !IsSystem(m)
    ensures Forgets(a + x, b + x)
  {
    SuffixAppend(a[1..], b[1..], x);
    assert (a + x)[1..] == a[1..] + x && (b + x)[1..] == b[1..] + x;
  }

  lemma ForgetsTrim(a: seq<Message>, b: seq<Message>, m: nat, n: nat)
    requires Forgets(a, b) && a != [] && m <= n
    ensures Forgets(TrimHistory(a, m), TrimHistory(b, n)) && TrimHistory(a, m) != []
  {
    TrimKeepsSuffix(a, m);
    TrimKeepsSuffix(b, n);
    SuffixOfLastN(a[1..], b[1..], m, n);
    assert TrimHistory(a, m)[1..] == LastN(a[1..], m) && TrimHistory(b, n)[1..] == LastN(b[1..], n);
  }

  lemma SuffixOfLastN<T>(a: seq<T>, b: seq<T>, m: nat, n: nat)
    requires SuffixOf(a, b) && m <= n
    ensures SuffixOf(LastN(a, m), LastN(b, n))
  {
  }

  ghost predicate AllForget(a: seq<seq<Message>>, b: seq<seq<Message>>) {
    |a| == |b| && forall k | 0 <= k < |a| :: Forgets(a[k], b[k])
  }

  lemma NotSystem(text: string)
    ensures !IsSystem(User(text)) && !IsSystem(Assistant(text))
  {
  }

  lemma IterateStep(cfg: Config, history: seq<Message>, i: nat, rounds: nat -> Round, text: string,
                    calls: seq<ParsedCall>)
    requires i < cfg.maxIterations && rounds(i).reply.Answered? && !rounds(i).verdict.HardStop?
    requires (text, calls) == ParseResponse(cfg.kind, rounds(i).reply.response, cfg.decode) && calls != []
    ensures var trimmed := AfterRound(cfg, history, rounds(i).reply.response, text, calls, rounds(i).outcomes);
      var o := Iterate(cfg, Warned(trimmed, rounds(i).verdict), i + 1, rounds);
      Iterate(cfg, history, i, rounds) == o.(sent := [history] + o.sent)
  {
  }

  lemma RoundIgnoresLimit(cfg: Config, wide: Config, response: ChatResponse, text: string,
                          calls: seq<ParsedCall>, outcomes: nat -> ToolOutcome)
    requires wide == cfg.(maxHistory := wide.maxHistory)
    ensures RoundMessages(wide, response, text, calls, outcomes) == RoundMessages(cfg, response, text, calls, outcomes)
  {
  }

  lemma ForgetsCons(a: seq<Message>, b: seq<Message>, sa: seq<seq<Message>>, sb: seq<seq<Message>>)
    requires Forgets(a, b) && AllForget(sa, sb)
    ensures AllForget([a] + sa, [b] + sb)
  {
  }

  lemma {:induction false} IterateForgets(cfg: Config, wide: Config, a: seq<Message>, b: seq<Message>,
                                          i: nat, rounds: nat -> Round)
    requires cfg.maxHistory <= wide.maxHistory && wide == cfg.(maxHistory := wide.maxHistory)
    requires Forgets(a, b) && a != []
    ensures var o, w := Iterate(cfg, a, i, rounds), Iterate(wide, b, i, rounds);
      Forgets(o.history, w.history) && o.result == w.result && AllForget(o.sent, w.sent)
    decreases if i < cfg.maxIterations then cfg.maxIterations - i else 0
  {
    hide Forgets, TrimHistory, RoundMessages, ParseResponse, IsSystem, OrEmpty;
    if i < cfg.maxIterations && rounds(i).reply.Answered? {
      var response := rounds(i).reply.response;
      var (text, calls) := ParseResponse(cfg.kind, response, cfg.decode);
      if calls == [] {
        var final := [Assistant(if text == [] then OrEmpty(response.text) else text)];
        assert !IsSystem(final[0]) by { NotSystem(final[0].message.content); }
        ForgetsAppend(a, b, final);
        ForgetsTrim(a + final, b + final, cfg.maxHistory, wide.maxHistory);
      } else {
        var ms := RoundMessages(cfg, response, text, calls, rounds(i).outcomes);
        RoundHasNoSystem(cfg, response, text, calls, rounds(i).outcomes);
        RoundIgnoresLimit(cfg, wide, response, text, calls, rounds(i).outcomes);
        ForgetsAppend(a, b, ms);
        ForgetsTrim(a + ms, b + ms, cfg.maxHistory, wide.maxHistory);
        var a', b' := TrimHistory(a + ms, cfg.maxHistory), TrimHistory(b + ms, wide.maxHistory);
        var v := rounds(i).verdict;
        if v.InjectWarning? {
          NotSystem(v.warning);
          ForgetsAppend(a', b', [User(v.warning)]);
        }
        if !v.HardStop? {
          IterateForgets(cfg, wide, Warned(a', v), Warned(b', v), i + 1, rounds);
          IterateStep(cfg, a, i, rounds, text, calls);
          IterateStep(wide, b, i, rounds, text, calls);
          ForgetsCons(a, b, Iterate(cfg, Warned(a', v), i + 1, rounds).sent,
                      Iterate(wide, Warned(b', v), i + 1, rounds).sent);
        }
      }
    }
  }

  /** The same run under a wider limit differs only in that the tighter one has forgotten some of
      the oldest messages: at every provider call and in the end, nothing is reordered or changed. */
  lemma {:induction false} TighterLimitOnlyForgets(cfg: Config, wide: Config, a: seq<Message>, b: seq<Message>,
                                                   ops: seq<Op>)
    requires cfg.maxHistory <= wide.maxHistory && wide == cfg.(maxHistory := wide.maxHistory)
    requires Forgets(a, b)
    ensures Forgets(RunOf(cfg, a, ops).history, RunOf(wide, b, ops).history)
    ensures AllForget(RunOf(cfg, a, ops).sent, RunOf(wide, b, ops).sent)
    decreases |ops|
  {
    if ops != [] {
      match ops[0]
      case Clear => TighterLimitOnlyForgets(cfg, wide, [], [], ops[1..]);
      case DoTurn(input) =>
        var o, w := TurnOf(cfg, a, input), TurnOf(wide, b, input);
        if !(a == [] && input.systemPrompt == None) {
          var sys := if a == [] then [Chat(ChatMessage("system", input.systemPrompt.value))] else a;
          var sys' := if a == [] then sys else b;
          ForgetsAppend(sys, sys', [User(input.userText)]);
          IterateForgets(cfg, wide, sys + [User(input.userText)], sys' + [User(input.userText)], 0, input.rounds);
        }
        TighterLimitOnlyForgets(cfg, wide, o.history, w.history, ops[1..]);
    }
  }
}
