/** src/agent/dispatcher.rs: what any response with XML tool calls is read as. */
module XmlContents {
  import opened Text
  import opened TextMeaning
  import opened Json
  import opened ToolTags
  import opened XmlToolCalls

  // ----- bodies and calls -------------------------------------------------------------------------------------

  /** The trimmed body is JSON for an object whose `name` is a text that is not empty. */
  predicate NamesTool(body: string, decode: Decode) {
    decode(Trim(body)).Some? &&
    var v := decode(Trim(body)).value;
    v.Obj? && "name" in v.fields && v.fields["name"].Str? && v.fields["name"].s != ""
  }

  /** The call of such a body: its name, its arguments or none, and no id. */
  predicate IsCallOf(body: string, call: ParsedCall, decode: Decode) {
    decode(Trim(body)).Some? &&
    var v := decode(Trim(body)).value;
    && v.Obj? && "name" in v.fields && v.fields["name"] == Str(call.name) && call.name != "" && call.id == None
    && ("arguments" in v.fields ==> call.arguments == v.fields["arguments"])
    && ("arguments" !in v.fields ==> call.arguments == Obj(map[]))
  }

  function Bodies(d: Script): seq<string> {
    if d.Last? then [] else [d.body] + Bodies(d.rest)
  }

  /** One call for each body that names a tool, in order, and no other. */
  ghost predicate CallsOf(bodies: seq<string>, calls: seq<ParsedCall>, decode: Decode)
    decreases |bodies|
  {
    if bodies == [] then calls == []
    else if NamesTool(bodies[0], decode) then
      calls != [] && IsCallOf(bodies[0], calls[0], decode) && CallsOf(bodies[1..], calls[1..], decode)
    else CallsOf(bodies[1..], calls, decode)
  }

  lemma CallIsRead(body: string, decode: Decode)
    ensures NamesTool(body, decode) ==>
      |CallOf(body, decode)| == 1 && IsCallOf(body, CallOf(body, decode)[0], decode)
    ensures !NamesTool(body, decode) ==> CallOf(body, decode) == []
  {
    hide Trim;
  }

  lemma {:induction false} CallsAreRead(d: Script, decode: Decode)
    ensures CallsOf(Bodies(d), Calls(d, decode), decode)
  {
    hide NamesTool, IsCallOf, CallOf;
    if d.Block? {
      CallIsRead(d.body, decode);
      CallsAreRead(d.rest, decode);
      var one, more := CallOf(d.body, decode), Calls(d.rest, decode);
      assert ([d.body] + Bodies(d.rest))[1..] == Bodies(d.rest);
      if NamesTool(d.body, decode) { assert (one + more)[1..] == more && (one + more)[0] == one[0]; }
      else { assert one + more == more; }
    }
  }

  // ----- texts -------------------------------------------------------------------------------------------------

  predicate HasText(s: string) { exists c :: c in s && !IsWhitespace(c) }

  /** The texts that are not blank, trimmed, in order. */
  ghost predicate TextsOf(texts: seq<string>, words: seq<string>)
    decreases |texts|
  {
    if texts == [] then words == []
    else if HasText(texts[0]) then words != [] && IsTrimmed(texts[0], words[0]) && TextsOf(texts[1..], words[1..])
    else TextsOf(texts[1..], words)
  }

  function ScriptTexts(d: Script): seq<string> {
    [d.text] + if d.Last? then [] else ScriptTexts(d.rest)
  }

  lemma BlankIsNoText(s: string)
    ensures Trim(s) == [] <==> !HasText(s)
  {
    hide Trim;
    TrimIsTrimmed(s);
    var t := Trim(s);
    var i :| 0 <= i <= |s| && StandsIn(s, t, i);
    if t != [] { assert t[0] == s[i] && s[i] in s; }
    else { assert forall k | 0 <= k < |s| :: IsWhitespace(s[k]); }
  }

  lemma TextIsRead(text: string, texts: seq<string>, words: seq<string>)
    requires TextsOf(texts, words)
    ensures TextsOf([text] + texts, TextOf(text) + words)
  {
    hide HasText, IsTrimmed, Trim;
    BlankIsNoText(text);
    TrimIsTrimmed(text);
    assert ([text] + texts)[1..] == texts;
    if HasText(text) { assert (TextOf(text) + words)[1..] == words; } else { assert TextOf(text) + words == words; }
  }

  lemma {:induction false} TextsAreRead(d: Script)
    ensures TextsOf(ScriptTexts(d), Texts(d))
  {
    hide TextOf;
    if d.Last? {
      TextIsRead(d.text, [], []);
      assert TextOf(d.text) + [] == TextOf(d.text) && [d.text] + [] == [d.text];
    } else {
      TextsAreRead(d.rest);
      TextIsRead(d.text, ScriptTexts(d.rest), Texts(d.rest));
    }
  }

  // ----- tags --------------------------------------------------------------------------------------------------

  predicate IsToolWord(w: string) {
    w == "tool_call>" || w == "toolcall>" || w == "tool-call>" || w == "invoke>"
  }

  /** The four opening tags, and the four closing tags, which are these with a slash. */
  lemma TagsAre(w: string)
    ensures IsOpener("<" + w) <==> IsToolWord(w)
    ensures IsCloser("</" + w) <==> IsToolWord(w)
  {
    hide IsOpener, IsCloser;
    OpenersAre("<" + w);
    ClosersAre("</" + w);
    BehindStart("<", w);
    BehindStart("</", w);
    BehindStart("<", "tool_call>");
    BehindStart("<", "toolcall>");
    BehindStart("<", "tool-call>");
    BehindStart("<", "invoke>");
    BehindStart("</", "tool_call>");
    BehindStart("</", "toolcall>");
    BehindStart("</", "tool-call>");
    BehindStart("</", "invoke>");
  }

  lemma BehindStart(a: string, w: string)
    ensures (a + w)[|a|..] == w
  {
  }

  lemma OpenersAre(t: string)
    ensures IsOpener(t)
       <==> t == "<" + "tool_call>" || t == "<" + "toolcall>" || t == "<" + "tool-call>" || t == "<" + "invoke>"
  {
    assert OPEN[1] == 't' && CLOSE[1] == '/';
    assert OPEN == "<" + "tool_call>";
    assert "<" + "toolcall>" == "<toolcall>" && VARIANTS[0].0 == "<toolcall>";
    assert "<" + "tool-call>" == "<tool-call>" && VARIANTS[2].0 == "<tool-call>";
    assert "<" + "invoke>" == "<invoke>" && VARIANTS[4].0 == "<invoke>";
  }

  lemma ClosersAre(t: string)
    ensures IsCloser(t)
       <==> t == "</" + "tool_call>" || t == "</" + "toolcall>" || t == "</" + "tool-call>" || t == "</" + "invoke>"
  {
    assert OPEN[1] == 't' && CLOSE[1] == '/';
    assert CLOSE == "</" + "tool_call>";
    assert "</" + "toolcall>" == "</toolcall>" && VARIANTS[1].0 == "</toolcall>";
    assert "</" + "tool-call>" == "</tool-call>" && VARIANTS[3].0 == "</tool-call>";
    assert "</" + "invoke>" == "</invoke>" && VARIANTS[5].0 == "</invoke>";
  }

  // ----- any response --------------------------------------------------------------------------------------------

  /** The blocks are cut at the first opening tag and the first closing tag behind it, and no complete
      block is left at the end. */
  predicate CutAtTags(d: Script)
  {
    VariantsArePairs();
    match d
    case Last(t) => BlockAt(t, OPEN, CLOSE) == None
    case Block(t, open, body, close, rest) =>
      && open == OPEN && close == CLOSE && !Contains(t, OPEN) && !Contains(body, CLOSE) && CutAtTags(rest)
  }

  /** A text that ends before the first place of `p` does not contain it. */
  lemma NotBefore(s: string, p: string, w: string)
    requires p != [] && Find(s, p).Some? && w <= s && |w| < Find(s, p).value + |p|
    ensures !Contains(w, p)
  {
    hide Find;
    if Contains(w, p) {
      ContainsIs(w, p);
      var i :| 0 <= i <= |w| && p <= w[i..];
      assert w[i..] <= s[i..];
      FoundFirst(s, p, i);
    }
  }

  lemma {:induction false} FoundFirst(s: string, p: string, i: nat)
    requires i <= |s| && p <= s[i..]
    ensures Find(s, p).Some? && Find(s, p).value <= i
    decreases |s|
  {
    if !(p <= s) {
      assert i > 0 by { assert s[0..] == s; }
      assert s[1..][i - 1..] == s[i..];
      FoundFirst(s[1..], p, i - 1);
    }
  }

  lemma CutBlock(s: string) returns (text: string, body: string, rest: string)
    requires TagPair(OPEN, CLOSE) && BlockAt(s, OPEN, CLOSE).Some?
    ensures s == text + (OPEN + (body + (CLOSE + rest))) && !Contains(text, OPEN) && !Contains(body, CLOSE)
    ensures |rest| < |s|
  {
    hide Contains, IsTag;
    var start := Find(s, OPEN).value;
    var u := s[start..];
    var end := Find(u, CLOSE).value;
    assert BlockAt(s, OPEN, CLOSE) == Some((start, end));
    text, body, rest := s[..start], u[|OPEN|..end], u[end + |CLOSE|..];
    NotBefore(s, OPEN, text);
    NotInTail(u, body, CLOSE, end);
    BlockParts(u, OPEN, body, CLOSE, end);
    CutAt(s, start);
  }

  lemma BlockParts(u: string, open: string, body: string, close: string, end: nat)
    requires open <= u && |open| <= end && end + |close| <= |u| && close <= u[end..] && body == u[|open|..end]
    ensures u == open + (body + (close + u[end + |close|..]))
  {
    assert u[end..] == close + u[end + |close|..];
    assert u == open + u[|open|..];
    assert u[|open|..] == body + u[end..];
  }

  lemma NotInTail(u: string, body: string, p: string, end: nat)
    requires p != [] && Find(u, p) == Some(end) && |OPEN| <= end <= |u| && body == u[|OPEN|..end]
    ensures !Contains(body, p)
  {
    hide Find;
    if Contains(body, p) {
      ContainsIs(body, p);
      var i :| 0 <= i <= |body| && p <= body[i..];
      assert body[i..] <= u[|OPEN| + i..];
      FoundFirst(u, p, |OPEN| + i);
    }
  }

  lemma {:induction false} CutScript(s: string) returns (d: Script)
    ensures Print(d) == s && CutAtTags(d)
    decreases |s|
  {
    hide Contains, BlockAt;
    VariantsArePairs();
    if BlockAt(s, OPEN, CLOSE) == None {
      d := Last(s);
    } else {
      var text, body, rest := CutBlock(s);
      var later := CutScript(rest);
      d := Block(text, OPEN, body, CLOSE, later);
    }
  }

  function LastText(d: Script): string { if d.Last? then d.text else LastText(d.rest) }

  function BlockTexts(d: Script): seq<string> { if d.Last? then [] else [d.text] + BlockTexts(d.rest) }

  /** What the text behind the last block is read as: without an opening tag once, and with one, which
      no closing tag follows, twice, once up to that tag and once whole. */
  ghost predicate EndOf(end: string, texts: seq<string>) {
    && (!Contains(end, OPEN) ==> texts == [end])
    && (Contains(end, OPEN) ==>
          |texts| == 2 && texts[1] == end && !Contains(texts[0], OPEN) && texts[0] + OPEN <= end)
  }

  lemma {:induction false} FindsContained(s: string, p: string)
    requires p != []
    ensures Contains(s, p) <==> Find(s, p).Some?
  {
    if s != [] && !(p <= s) { FindsContained(s[1..], p); }
  }

  lemma EndIsRead(end: string) returns (texts: seq<string>)
    requires TagPair(OPEN, CLOSE) && BlockAt(end, OPEN, CLOSE) == None
    ensures EndOf(end, texts) && TextsOf(texts, LeftOver(end, OPEN))
  {
    hide Contains, Find, BlockAt, IsTrimmed, HasText, TextOf;
    FindsContained(end, OPEN);
    match Find(end, OPEN) {
      case None =>
        texts := [end];
        TextIsRead(end, [], []);
        assert TextOf(end) + [] == TextOf(end) && [end] + [] == [end];
      case Some(start) =>
        var before := end[..start];
        texts := [before, end];
        NotBefore(end, OPEN, before);
        assert end[start..][..|OPEN|] == OPEN;
        TextIsRead(end, [], []);
        assert TextOf(end) + [] == TextOf(end) && [end] + [] == [end];
        TextIsRead(before, [end], TextOf(end));
        assert [before] + [end] == texts;
    }
  }

  lemma {:induction false} BlocksAreRead(d: Script, decode: Decode) returns (texts: seq<string>)
    requires CutAtTags(d) && TagPair(OPEN, CLOSE)
    ensures var p := ParseBlocks(Print(d), OPEN, CLOSE, decode);
      && CallsOf(Bodies(d), p.calls, decode)
      && EndOf(LastText(d), texts) && TextsOf(BlockTexts(d) + texts, p.texts)
  {
    hide Contains, BlockAt, TextOf, CallOf, NamesTool, IsCallOf, EndOf, TextsOf;
    if d.Last? {
      texts := EndIsRead(d.text);
      assert [] + texts == texts;
    } else {
      texts := BlocksAreRead(d.rest, decode);
      FirstBlock(d.text, OPEN, d.body, CLOSE, Print(d.rest));
      var p := ParseBlocks(Print(d.rest), OPEN, CLOSE, decode);
      TextIsRead(d.text, BlockTexts(d.rest) + texts, p.texts);
      Assoc([d.text], BlockTexts(d.rest), texts);
      OneMoreCall(d.body, Bodies(d.rest), p.calls, decode);
    }
  }

  lemma OneMoreCall(body: string, bodies: seq<string>, calls: seq<ParsedCall>, decode: Decode)
    requires CallsOf(bodies, calls, decode)
    ensures CallsOf([body] + bodies, CallOf(body, decode) + calls, decode)
  {
    hide CallOf, NamesTool, IsCallOf;
    CallIsRead(body, decode);
    var one := CallOf(body, decode);
    assert ([body] + bodies)[1..] == bodies;
    if NamesTool(body, decode) { assert (one + calls)[1..] == calls; } else { assert one + calls == calls; }
  }

  /** Any response at all: its tags are made one, it is cut at them into texts and blocks, each block that
      names a tool gives that call and no other block gives one, and the texts that are not blank are
      joined by line breaks. */
  lemma AnyResponseIsRead(response: string, decode: Decode) returns (d: Script, texts: seq<string>, words: seq<string>)
    ensures Print(d) == Simultaneous(VARIANTS, response) && CutAtTags(d)
    ensures CallsOf(Bodies(d), ParseXml(response, decode).1, decode)
    ensures EndOf(LastText(d), texts) && TextsOf(BlockTexts(d) + texts, words)
    ensures ParseXml(response, decode).0 == Join(words, "\n")
  {
    hide Print, CallsOf, EndOf, TextsOf, ParseBlocks, Simultaneous, Join, CutAtTags;
    NormalizationIsOneSubstitution(response);
    VariantsArePairs();
    d := CutScript(NormalizeTags(response));
    texts := BlocksAreRead(d, decode);
    words := ParseBlocks(Print(d), OPEN, CLOSE, decode).texts;
  }

  /** A response as models write it, in any tag variants: one call for each body that names a tool, and
      the trimmed texts that are not blank. */
  lemma PrintedScriptIsRead(d: Script, decode: Decode) returns (words: seq<string>)
    requires Proper(d)
    ensures CallsOf(Bodies(d), ParseXml(Print(d), decode).1, decode)
    ensures TextsOf(ScriptTexts(d), words) && ParseXml(Print(d), decode).0 == Join(words, "\n")
  {
    hide ParseXml, CallsOf, TextsOf, Proper, Print;
    ParseInvertsPrint(d, decode);
    CallsAreRead(d, decode);
    TextsAreRead(d);
    words := Texts(d);
  }
}
