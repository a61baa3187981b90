/** src/agent/dispatcher.rs: the native and the XML dispatcher around the tool-call parser. */
module Dispatcher {
  import opened ChatMessages
  import opened Text
  import opened Json
  import opened XmlToolCalls

  datatype ToolCall = ToolCall(id: string, name: string, arguments: string, thoughtSignature: Option<string>)

  datatype ToolResult = ToolResult(id: string, content: string)

  datatype Message =
    | Chat(message: ChatMessage)
    | AssistantToolCalls(text: Option<string>, calls: seq<ToolCall>, reasoning: Option<string>)
    | ToolResults(results: seq<ToolResult>)

  datatype ChatResponse = ChatResponse(text: Option<string>, calls: seq<ToolCall>, reasoning: Option<string>)

  datatype ToolExecution = ToolExecution(name: string, output: string, success: bool, id: Option<string>)

  datatype Kind = Native | Xml

  function OrEmpty(s: Option<string>): string {
    match s case Some(t) => t case None => ""
  }

  function User(content: string): Message { Chat(ChatMessage("user", content)) }

  function Assistant(content: string): Message { Chat(ChatMessage("assistant", content)) }

  /** `NativeToolDispatcher::parse_response`, one call. Arguments that are not JSON become `{}`. */
  function ParseCall(call: ToolCall, decode: Decode): ParsedCall {
    var arguments := match decode(call.arguments) case Some(v) => v case None => Obj(map[]);
    ParsedCall(call.name, arguments, Some(call.id))
  }

  function ParseCalls(calls: seq<ToolCall>, decode: Decode): (parsed: seq<ParsedCall>)
    ensures |parsed| == |calls|
    ensures forall i | 0 <= i < |calls| :: parsed[i].id == Some(calls[i].id) && parsed[i].name == calls[i].name
  {
    if calls == [] then [] else [ParseCall(calls[0], decode)] + ParseCalls(calls[1..], decode)
  }

  function ParseResponse(kind: Kind, response: ChatResponse, decode: Decode): (string, seq<ParsedCall>) {
    match kind
    case Native => (OrEmpty(response.text), ParseCalls(response.calls, decode))
    case Xml => ParseXml(OrEmpty(response.text), decode)
  }

  /** `NativeToolDispatcher::format_results`, one result. */
  function FormatResult(r: ToolExecution): ToolResult {
    ToolResult(match r.id case Some(id) => id case None => "unknown", r.output)
  }

  function FormatNative(results: seq<ToolExecution>): (formatted: seq<ToolResult>)
    ensures |formatted| == |results|
    ensures forall i | 0 <= i < |results| && results[i].id.Some? :: formatted[i].id == results[i].id.value
    ensures forall i | 0 <= i < |results| :: formatted[i].content == results[i].output
  {
    if results == [] then [] else [FormatResult(results[0])] + FormatNative(results[1..])
  }

  function FormatXml(results: seq<ToolExecution>): string {
    if results == [] then [] else
      var r := results[0];
      var status := if r.success then "ok" else "error";
      "<tool_result name=\"" + r.name + "\" status=\"" + status + "\">\n" + r.output + "\n</tool_result>\n"
        + FormatXml(results[1..])
  }

  function FormatResults(kind: Kind, results: seq<ToolExecution>): Message {
    match kind
    case Native => ToolResults(FormatNative(results))
    case Xml => User("[Tool results]\n" + FormatXml(results))
  }

  // ----- the provider's view of a history -----------------------------------------------------

  type Encode = Value -> string

  function CallJson(c: ToolCall): Value {
    var fields := map["id" := Str(c.id), "name" := Str(c.name), "arguments" := Str(c.arguments)];
    Obj(match c.thoughtSignature case Some(s) => fields["thought_signature" := Str(s)] case None => fields)
  }

  function CallsJson(calls: seq<ToolCall>): (vs: seq<Value>)
    ensures |vs| == |calls| && forall i | 0 <= i < |calls| :: vs[i] == CallJson(calls[i])
  {
    if calls == [] then [] else [CallJson(calls[0])] + CallsJson(calls[1..])
  }

  function OptionJson(s: Option<string>): Value {
    match s case Some(t) => Str(t) case None => Null
  }

  function CallsPayload(m: Message): Value
    requires m.AssistantToolCalls?
  {
    var fields := map["content" := OptionJson(m.text), "tool_calls" := Arr(CallsJson(m.calls))];
    Obj(match m.reasoning case Some(r) => fields["reasoning_content" := Str(r)] case None => fields)
  }

  function ResultPayload(r: ToolResult): Value {
    Obj(map["tool_call_id" := Str(r.id), "content" := Str(r.content)])
  }

  function ToolMessages(results: seq<ToolResult>, encode: Encode): (ms: seq<ChatMessage>)
    ensures |ms| == |results|
    ensures forall i | 0 <= i < |results| :: ms[i] == ChatMessage("tool", encode(ResultPayload(results[i])))
  {
    if results == [] then []
    else [ChatMessage("tool", encode(ResultPayload(results[0])))] + ToolMessages(results[1..], encode)
  }

  function XmlResults(results: seq<ToolResult>): string {
    if results == [] then [] else
      var r := results[0];
      "<tool_result id=\"" + r.id + "\">\n" + r.content + "\n</tool_result>\n" + XmlResults(results[1..])
  }

  /** What one message of the history sends to the provider. */
  function WireOf(kind: Kind, m: Message, encode: Encode): seq<ChatMessage> {
    match m
    case Chat(message) => [message]
    case AssistantToolCalls(text, _, _) =>
      if kind.Native? then [ChatMessage("assistant", encode(CallsPayload(m)))]
      else [ChatMessage("assistant", OrEmpty(text))]
    case ToolResults(results) =>
      if kind.Native? then ToolMessages(results, encode)
      else [ChatMessage("user", "[Tool results]\n" + XmlResults(results))]
  }

  function ToProviderMessages(kind: Kind, history: seq<Message>, encode: Encode): seq<ChatMessage> {
    if history == [] then []
    else WireOf(kind, history[0], encode) + ToProviderMessages(kind, history[1..], encode)
  }

  /** Where on the wire the image of message `i` starts. */
  function Offset(kind: Kind, history: seq<Message>, i: nat, encode: Encode): nat
    requires i <= |history|
  {
    |ToProviderMessages(kind, history[..i], encode)|
  }

  lemma {:induction false} WireConcat(kind: Kind, a: seq<Message>, b: seq<Message>, encode: Encode)
    ensures ToProviderMessages(kind, a + b, encode)
         == ToProviderMessages(kind, a, encode) + ToProviderMessages(kind, b, encode)
  {
    hide WireOf;
    if a == [] {
      assert a + b == b;
    } else {
      assert (a + b)[1..] == a[1..] + b && (a + b)[0] == a[0];
      WireConcat(kind, a[1..], b, encode);
      Assoc(WireOf(kind, a[0], encode), ToProviderMessages(kind, a[1..], encode), ToProviderMessages(kind, b, encode));
    }
  }

  /** The image of message `i` stands at its offset. */
  lemma WireAt(kind: Kind, history: seq<Message>, i: nat, encode: Encode)
    requires i < |history|
    ensures var o, w := Offset(kind, history, i, encode), WireOf(kind, history[i], encode);
      && Offset(kind, history, i + 1, encode) == o + |w|
      && o + |w| <= |ToProviderMessages(kind, history, encode)|
      && ToProviderMessages(kind, history, encode)[o..o + |w|] == w
  {
    hide ToProviderMessages, WireOf;
    var before, after := history[..i], history[i + 1..];
    var w := WireOf(kind, history[i], encode);
    assert history == before + ([history[i]] + after) && history[..i + 1] == before + [history[i]];
    WireConcat(kind, before, [history[i]] + after, encode);
    WireConcat(kind, [history[i]], after, encode);
    WireConcat(kind, before, [history[i]], encode);
    WireOne(kind, history[i], encode);
    Middle(ToProviderMessages(kind, before, encode), w, ToProviderMessages(kind, after, encode));
  }

  /** Every provider message is part of the image of some message of the history. */
  lemma {:induction false} WireComesFrom(kind: Kind, history: seq<Message>, w: nat, encode: Encode) returns (i: nat)
    requires w < |ToProviderMessages(kind, history, encode)|
    ensures i < |history|
    ensures var o := Offset(kind, history, i, encode);
      && o <= w < o + |WireOf(kind, history[i], encode)|
      && ToProviderMessages(kind, history, encode)[w] == WireOf(kind, history[i], encode)[w - o]
    decreases |history|
  {
    hide ToProviderMessages, WireOf;
    WireEmpty(kind, encode);
    var n := |history| - 1;
    assert history[..n] + [history[n]] == history && history[..n + 1] == history;
    WireAt(kind, history, n, encode);
    var o := Offset(kind, history, n, encode);
    if w >= o {
      i := n;
      var wire := ToProviderMessages(kind, history, encode);
      assert wire[w] == wire[o..o + |WireOf(kind, history[n], encode)|][w - o];
    } else {
      var before := history[..n];
      i := WireComesFrom(kind, before, w, encode);
      assert before[..i] == history[..i];
      WireConcat(kind, before, [history[n]], encode);
    }
  }

  lemma WireEmpty(kind: Kind, encode: Encode)
    ensures ToProviderMessages(kind, [], encode) == []
  {
  }

  lemma WireOne(kind: Kind, m: Message, encode: Encode)
    ensures ToProviderMessages(kind, [m], encode) == WireOf(kind, m, encode)
  {
    assert [m][1..] == [];
    assert WireOf(kind, m, encode) + [] == WireOf(kind, m, encode);
  }

  lemma Middle<T>(a: seq<T>, b: seq<T>, c: seq<T>)
    ensures (a + (b + c))[|a|..|a| + |b|] == b
  {
  }
}
