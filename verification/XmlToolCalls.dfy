/** src/agent/dispatcher.rs: `XmlToolDispatcher::parse_xml_tool_calls`. */
module XmlToolCalls {
  import opened Text
  import opened Json
  import opened ToolTags

  datatype ParsedCall = ParsedCall(name: string, arguments: Value, id: Option<string>)

  datatype Parsed = Parsed(texts: seq<string>, calls: seq<ParsedCall>)

  function TextOf(s: string): seq<string> {
    if Trim(s) == [] then [] else [Trim(s)]
  }

  /** The call a block denotes: none when its JSON is malformed or names no tool. */
  function CallOf(inner: string, decode: Decode): seq<ParsedCall> {
    match decode(Trim(inner))
    case None => []
    case Some(v) =>
      var name := match Get(v, "name") case Some(Str(n)) => n case _ => "";
      var arguments := match Get(v, "arguments") case Some(a) => a case None => Obj(map[]);
      if name == [] then [] else [ParsedCall(name, arguments, None)]
  }

  lemma TagComesAfterTag(s: string, t: string, f: string)
    requires IsTag(t) && IsTag(f) && t != f && t <= s && Find(s, f).Some?
    ensures |t| <= Find(s, f).value && Find(s, f).value + |f| <= |s|
  {
    var e := Find(s, f).value;
    assert s[e..][0] == s[e] == '<';
    assert forall i | 0 < i < |t| :: t[i] == s[i] != '<';
    var rest := s[|t|..];
    assert s == t + rest;
    if f <= t + rest { TagsAlign(f, t, rest); }
  }

  predicate TagPair(open: string, close: string) {
    IsTag(open) && IsTag(close) && open != close
  }

  /** Where the first complete block starts and, from there, where its closing tag starts. */
  function BlockAt(remaining: string, open: string, close: string): (at: Option<(nat, nat)>)
    requires TagPair(open, close)
    ensures at.Some? ==> |open| <= at.value.1 && at.value.0 + at.value.1 + |close| <= |remaining|
  {
    match Find(remaining, open)
    case None => None
    case Some(start) =>
      match Find(remaining[start..], close)
      case None => None
      case Some(end) =>
        TagComesAfterTag(remaining[start..], open, close);
        Some((start, end))
  }

  function Before(remaining: string, at: (nat, nat)): string
    requires at.0 <= |remaining|
  {
    remaining[..at.0]
  }

  function Inner(remaining: string, at: (nat, nat), open: string): string
    requires |open| <= at.1 && at.0 + at.1 <= |remaining|
  {
    remaining[at.0 + |open|..at.0 + at.1]
  }

  function After(remaining: string, at: (nat, nat), close: string): (s: string)
    requires at.0 + at.1 + |close| <= |remaining|
    ensures |s| == |remaining| - at.0 - at.1 - |close|
  {
    remaining[at.0 + at.1 + |close|..]
  }

  /** What is left when no complete block is: the text before an unclosed tag counts twice, alone
      and within the remaining text. */
  function LeftOver(remaining: string, open: string): seq<string> {
    match Find(remaining, open)
    case None => TextOf(remaining)
    case Some(start) => TextOf(remaining[..start]) + TextOf(remaining)
  }

  /** The parser on normalised text: what each remaining stretch contributes. */
  function ParseBlocks(remaining: string, open: string, close: string, decode: Decode): Parsed
    requires TagPair(open, close)
    decreases |remaining|
  {
    var at := BlockAt(remaining, open, close);
    if at == None then Parsed(LeftOver(remaining, open), []) else
      var later := ParseBlocks(After(remaining, at.value, close), open, close, decode);
      Parsed(TextOf(Before(remaining, at.value)) + later.texts,
             CallOf(Inner(remaining, at.value, open), decode) + later.calls)
  }

  function ParseXml(response: string, decode: Decode): (string, seq<ParsedCall>) {
    VariantsArePairs();
    var p := ParseBlocks(NormalizeTags(response), OPEN, CLOSE, decode);
    (Join(p.texts, "\n"), p.calls)
  }

  method ReadCall(inner: string, decode: Decode) returns (calls: seq<ParsedCall>)
    ensures calls == CallOf(inner, decode)
  {
    calls := [];
    match decode(Trim(inner)) {
      case Some(v) =>
        var name := match Get(v, "name") case Some(Str(n)) => n case _ => "";
        if name != [] {
          var arguments := match Get(v, "arguments") case Some(a) => a case None => Obj(map[]);
          calls := [ParsedCall(name, arguments, None)];
        }
      case None =>
    }
  }

  /** `texts` and `calls` have been read and `remaining` is still to be read. */
  ghost predicate Reading(whole: Parsed, texts: seq<string>, calls: seq<ParsedCall>, rest: Parsed) {
    texts + rest.texts == whole.texts && calls + rest.calls == whole.calls
  }

  lemma ReadBlock(whole: Parsed, texts: seq<string>, calls: seq<ParsedCall>,
                  text: seq<string>, call: seq<ParsedCall>, later: Parsed)
    requires Reading(whole, texts, calls, Parsed(text + later.texts, call + later.calls))
    ensures Reading(whole, texts + text, calls + call, later)
  {
    Assoc(texts, text, later.texts);
    Assoc(calls, call, later.calls);
  }

  lemma ReadRest(whole: Parsed, texts: seq<string>, calls: seq<ParsedCall>, text: seq<string>)
    requires Reading(whole, texts, calls, Parsed(text, []))
    ensures texts + text == whole.texts && calls == whole.calls
  {
    assert calls + [] == calls;
  }

  /** The loop of `parse_xml_tool_calls`; `open` and `close` are the canonical tags. */
  method ReadBlocks(normalized: string, open: string, close: string, decode: Decode) returns (parsed: Parsed)
    requires TagPair(open, close)
    ensures parsed == ParseBlocks(normalized, open, close, decode)
  {
    hide Find, IsTag, CallOf, LeftOver, Before, Inner, After, Trim;
    var texts: seq<string>, calls: seq<ParsedCall> := [], [];
    var remaining := normalized;
    ghost var whole := ParseBlocks(remaining, open, close, decode);
    while BlockAt(remaining, open, close).Some?
      invariant Reading(whole, texts, calls, ParseBlocks(remaining, open, close, decode))
      decreases |remaining|
    {
      var at := BlockAt(remaining, open, close).value;
      var before := Before(remaining, at);
      var read := ReadCall(Inner(remaining, at, open), decode);
      var after := After(remaining, at, close);
      ReadBlock(whole, texts, calls, TextOf(before), read, ParseBlocks(after, open, close, decode));
      if Trim(before) != [] { texts := texts + [Trim(before)]; }
      calls := calls + read;
      remaining := after;
    }
    ReadRest(whole, texts, calls, LeftOver(remaining, open));
    var last := ReadLeftOver(remaining, open);
    parsed := Parsed(texts + last, calls);
  }

  method ReadLeftOver(remaining: string, open: string) returns (texts: seq<string>)
    ensures texts == LeftOver(remaining, open)
  {
    texts := [];
    match Find(remaining, open) {
      case Some(start) =>
        if Trim(remaining[..start]) != [] { texts := [Trim(remaining[..start])]; }
      case None =>
    }
    if Trim(remaining) != [] { texts := texts + [Trim(remaining)]; }
  }

  /** `parse_xml_tool_calls`: terminates on every response, and every slice is in bounds. */
  method ParseXmlToolCalls(response: string, decode: Decode) returns (text: string, calls: seq<ParsedCall>)
    ensures (text, calls) == ParseXml(response, decode)
  {
    VariantsArePairs();
    var parsed := ReadBlocks(NormalizeTags(response), OPEN, CLOSE, decode);
    text, calls := Join(parsed.texts, "\n"), parsed.calls;
  }

  // ----- round trip -------------------------------------------------------------------------------

  /** A response as a model writes it: text interleaved with tool-call blocks. */
  datatype Script = Last(text: string) | Block(text: string, open: string, body: string, close: string, rest: Script)

  function Print(d: Script): string {
    match d
    case Last(t) => t
    case Block(t, open, body, close, rest) => t + (open + (body + (close + Print(rest))))
  }

  predicate IsOpener(t: string) { t == OPEN || (t, OPEN) in VARIANTS }

  predicate IsCloser(t: string) { t == CLOSE || (t, CLOSE) in VARIANTS }

  /** None of the eight tags is in the text. */
  predicate TagFree(s: string) {
    && !Contains(s, OPEN) && !Contains(s, CLOSE)
    && forall p | p in VARIANTS :: !Contains(s, p.0)
  }

  /** Any opening and closing variants, no tags inside texts and bodies. */
  predicate Proper(d: Script) {
    && TagFree(d.text)
    && (d.Block? ==> IsOpener(d.open) && IsCloser(d.close) && TagFree(d.body) && Proper(d.rest))
  }

  function Texts(d: Script): seq<string> {
    TextOf(d.text) + if d.Last? then [] else Texts(d.rest)
  }

  function Calls(d: Script, decode: Decode): seq<ParsedCall> {
    if d.Last? then [] else CallOf(d.body, decode) + Calls(d.rest, decode)
  }

  /** The same script with the canonical tags. */
  function Canonical(d: Script): Script {
    match d
    case Last(t) => d
    case Block(t, _, body, _, rest) => Block(t, OPEN, body, CLOSE, Canonical(rest))
  }

  /** The tag normalisation as one substitution. */
  function Normalized(s: string): string {
    VariantsArePairs();
    Simultaneous(VARIANTS, s)
  }

  predicate HeadAngle(x: string) { x == [] || x[0] == '<' }

  /** A tag cannot straddle the end of a text that the next tag follows. */
  lemma NoStraddlingTag(f: string, w: string, x: string)
    requires IsTag(f) && w != [] && HeadAngle(x) && f <= w + x
    ensures f <= w
  {
    if |f| > |w| {
      assert f[|w|] == (w + x)[|w|] == x[0];
      AngleOnlyFirst(f, |w|);
    }
  }

  lemma AngleOnlyFirst(f: string, i: nat)
    requires IsTag(f) && i < |f| && f[i] == '<'
    ensures i == 0
  {
  }

  lemma NoVariantHead(w: string, x: string)
    requires TagFree(w) && w != [] && HeadAngle(x)
    ensures HeadSub(VARIANTS, w + x) == None
  {
    VariantsArePairs();
    var m := HeadSub(VARIANTS, w + x);
    if m.Some? { NoStraddlingTag(m.value.0, w, x); }
  }

  lemma {:induction false} TextPasses(w: string, x: string)
    requires TagFree(w) && HeadAngle(x)
    ensures Normalized(w + x) == w + Normalized(x)
  {
    hide HeadSub;
    if w == [] {
      assert w + x == x;
    } else {
      NoVariantHead(w, x);
      assert (w + x)[1..] == w[1..] + x;
      TextPasses(w[1..], x);
      Assoc([w[0]], w[1..], Normalized(x));
      CutAt(w, 1);
      assert w[..1] == [w[0]];
    }
  }

  /** A tag becomes the tag it stands for. */
  lemma TagPasses(t: string, canon: string, x: string)
    requires (t == canon && (t == OPEN || t == CLOSE)) || (t, canon) in VARIANTS
    ensures Normalized(t + x) == canon + Normalized(x)
    ensures IsTag(t)
  {
    VariantsArePairs();
    if t == canon {
      SimultaneousPassesTag(t, x, VARIANTS);
    } else {
      var m := HeadSub(VARIANTS, t + x);
      assert t <= t + x;
      TagsAlign(m.value.0, t, x);
      VariantsAreFunctional(m.value, (t, canon));
      assert (t + x)[|t|..] == x;
    }
  }

  lemma VariantsAreFunctional(p: (string, string), q: (string, string))
    requires p in VARIANTS && q in VARIANTS && p.0 == q.0
    ensures p == q
  {
    assert VARIANTS[0].0[1] == 't' && VARIANTS[2].0[1] == 't' && VARIANTS[4].0[1] == 'i';
    assert VARIANTS[1].0[1] == '/' && VARIANTS[3].0[1] == '/' && VARIANTS[5].0[1] == '/';
  }

  /** Normalising a printed script prints it with the canonical tags. */
  lemma {:induction false} NormalizePrinted(d: Script)
    requires Proper(d)
    ensures Normalized(Print(d)) == Print(Canonical(d))
  {
    hide Normalized, IsTag, TagFree, IsOpener, IsCloser;
    if d.Last? {
      LastPasses(d.text);
    } else {
      NormalizePrinted(d.rest);
      BlockPasses(d.text, d.open, d.body, d.close, Print(d.rest));
    }
  }

  lemma LastPasses(text: string)
    requires TagFree(text)
    ensures Normalized(text) == text
  {
    hide Normalized, IsTag, TagFree;
    TextPasses(text, []);
    NothingLeft();
    assert text + [] == text;
  }

  lemma BlockPasses(text: string, open: string, body: string, close: string, after: string)
    requires TagFree(text) && TagFree(body) && IsOpener(open) && IsCloser(close)
    ensures Normalized(text + (open + (body + (close + after))))
         == text + (OPEN + (body + (CLOSE + Normalized(after))))
  {
    hide Normalized, IsTag, TagFree;
    TagPasses(close, CLOSE, after);
    TagPasses(open, OPEN, body + (close + after));
    TextPasses(body, close + after);
    TextPasses(text, open + (body + (close + after)));
  }

  lemma NothingLeft()
    ensures Normalized([]) == []
  {
    VariantsArePairs();
  }

  lemma {:induction false} FindsTag(w: string, t: string, x: string)
    requires IsTag(t) && !Contains(w, t)
    ensures Find(w + (t + x), t) == Some(|w|)
  {
    if w == [] {
      assert w + (t + x) == t + x;
    } else {
      if t <= w + (t + x) { NoStraddlingTag(t, w, t + x); }
      assert (w + (t + x))[1..] == w[1..] + (t + x);
      FindsTag(w[1..], t, x);
    }
  }

  lemma {:induction false} FindsNothing(w: string, t: string)
    requires !Contains(w, t)
    ensures Find(w, t) == None
  {
    if w != [] { FindsNothing(w[1..], t); }
  }

  /** Every block carries the tags `open` and `close`. */
  predicate Tagged(d: Script, open: string, close: string) {
    d.Block? ==> d.open == open && d.close == close && Tagged(d.rest, open, close)
  }

  predicate FreeOf(d: Script, open: string, close: string) {
    && !Contains(d.text, open)
    && (d.Block? ==> !Contains(d.body, close) && FreeOf(d.rest, open, close))
  }

  lemma {:induction false} ParsePrinted(d: Script, open: string, close: string, decode: Decode)
    requires TagPair(open, close) && Tagged(d, open, close) && FreeOf(d, open, close)
    ensures ParseBlocks(Print(d), open, close, decode) == Parsed(Texts(d), Calls(d, decode))
  {
    if d.Last? {
      FindsNothing(d.text, open);
      assert TextOf(d.text) + [] == TextOf(d.text);
    } else {
      ParsePrinted(d.rest, open, close, decode);
      FirstBlock(d.text, open, d.body, close, Print(d.rest));
    }
  }

  lemma FirstBlock(text: string, open: string, body: string, close: string, after: string)
    requires TagPair(open, close) && !Contains(text, open) && !Contains(body, close)
    ensures var s := text + (open + (body + (close + after)));
      var at := (|text|, |open| + |body|);
      && BlockAt(s, open, close) == Some(at)
      && Before(s, at) == text && Inner(s, at, open) == body && After(s, at, close) == after
  {
    hide Find, IsTag, Contains, Before, Inner, After;
    var u := open + (body + (close + after));
    FindsTag(text, open, body + (close + after));
    FindsSecondTag(open, body, close, after);
    CutBehind(text, u);
    BlockParts(text, open, body, close, after);
  }

  lemma CutBehind(t: string, u: string)
    ensures (t + u)[|t|..] == u
  {
  }

  lemma BlockParts(text: string, open: string, body: string, close: string, after: string)
    ensures var s := text + (open + (body + (close + after)));
      var at := (|text|, |open| + |body|);
      && Before(s, at) == text && Inner(s, at, open) == body && After(s, at, close) == after
  {
    SlicesOfFive(text, open, body, close, after);
  }

  lemma SlicesOfFive(t: string, a: string, b: string, c: string, d: string)
    ensures var u := t + (a + (b + (c + d)));
      && u[..|t|] == t
      && u[|t| + |a|..|t| + (|a| + |b|)] == b && u[|t| + (|a| + |b|) + |c|..] == d
  {
    Assoc(t, a, b + (c + d));
    Assoc(t + a, b, c + d);
    Assoc(t + a + b, c, d);
  }

  lemma FindsSecondTag(open: string, body: string, close: string, after: string)
    requires TagPair(open, close) && !Contains(body, close)
    ensures Find(open + (body + (close + after)), close) == Some(|open| + |body|)
  {
    hide *;
    Assoc(open, body, close + after);
    FindsBehind(open, body, close, after, open + body);
  }

  lemma FindsBehind(open: string, body: string, close: string, after: string, w: string)
    requires TagPair(open, close) && !Contains(body, close) && w == open + body
    ensures Find(w + (close + after), close) == Some(|w|)
  {
    TagBefore(open, body, close);
    FindsTag(w, close, after);
  }

  lemma {:induction false} CanonicalSays(d: Script, decode: Decode)
    requires Proper(d)
    ensures Tagged(Canonical(d), OPEN, CLOSE) && FreeOf(Canonical(d), OPEN, CLOSE)
    ensures Texts(Canonical(d)) == Texts(d) && Calls(Canonical(d), decode) == Calls(d, decode)
  {
    if d.Block? { CanonicalSays(d.rest, decode); }
  }

  /** Parsing a printed response gives back the calls its blocks denote, in order, and its trimmed
      non-empty texts, whichever variants the tags were written in. */
  lemma ParseInvertsPrint(d: Script, decode: Decode)
    requires Proper(d)
    ensures ParseXml(Print(d), decode) == (Join(Texts(d), "\n"), Calls(d, decode))
  {
    NormalizationIsOneSubstitution(Print(d));
    NormalizePrinted(d);
    CanonicalSays(d, decode);
    VariantsArePairs();
    ParsePrinted(Canonical(d), OPEN, CLOSE, decode);
  }

  /** The JSON body of a call. */
  function CallValue(name: string, arguments: Value): Value {
    Obj(map["name" := Str(name), "arguments" := arguments])
  }

  /** A printed call is read back as that call. */
  lemma EncodedCallIsRead(name: string, arguments: Value, body: string, decode: Decode)
    requires name != [] && decode(Trim(body)) == Some(CallValue(name, arguments))
    ensures CallOf(body, decode) == [ParsedCall(name, arguments, None)]
  {
    assert "name" != "arguments" by { assert |"name"| != |"arguments"|; }
  }

  /** A call and the text behind it. */
  datatype NamedCall = NamedCall(name: string, arguments: Value, after: string)

  /** A response that makes the given calls. */
  function Calling(before: string, calls: seq<NamedCall>, encode: Value -> string): Script
    decreases |calls|
  {
    if calls == [] then Last(before)
    else
      var c := calls[0];
      Block(before, OPEN, encode(CallValue(c.name, c.arguments)), CLOSE, Calling(c.after, calls[1..], encode))
  }

  /** The call has a name, its text and body hold no tag, and its body decodes to what was encoded. */
  ghost predicate Printable(c: NamedCall, encode: Value -> string, decode: Decode) {
    var body := encode(CallValue(c.name, c.arguments));
    c.name != [] && TagFree(c.after) && TagFree(body) && decode(Trim(body)) == Some(CallValue(c.name, c.arguments))
  }

  /** The calls as the parser returns them. */
  function Named(calls: seq<NamedCall>): seq<ParsedCall> {
    if calls == [] then [] else [ParsedCall(calls[0].name, calls[0].arguments, None)] + Named(calls[1..])
  }

  lemma {:induction false} CallingSays(before: string, calls: seq<NamedCall>, encode: Value -> string, decode: Decode)
    requires TagFree(before) && forall c | c in calls :: Printable(c, encode, decode)
    ensures Proper(Calling(before, calls, encode)) && Calls(Calling(before, calls, encode), decode) == Named(calls)
    decreases |calls|
  {
    hide TagFree, CallOf, CallValue;
    if calls != [] {
      var c := calls[0];
      assert c in calls;
      EncodedCallIsRead(c.name, c.arguments, encode(CallValue(c.name, c.arguments)), decode);
      CallingSays(c.after, calls[1..], encode, decode);
    }
  }

  /** Printing calls through an encoder and parsing the response returns exactly those calls. */
  lemma PrintedCallsAreRead(before: string, calls: seq<NamedCall>, encode: Value -> string, decode: Decode)
    requires TagFree(before) && forall c | c in calls :: Printable(c, encode, decode)
    ensures ParseXml(Print(Calling(before, calls, encode)), decode).1 == Named(calls)
  {
    hide TagFree, ParseXml, Print, Calling, Calls, Named;
    CallingSays(before, calls, encode, decode);
    ParseInvertsPrint(Calling(before, calls, encode), decode);
  }
}
