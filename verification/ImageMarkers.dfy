/** src/multimodal.rs: `[IMAGE:...]` markers in message text. */
module ImageMarkers {
  import opened Text

  /** What `parse_image_markers` returns. */
  datatype Parsed = Parsed(text: string, refs: seq<string>)

  const PREFIX: string := "[IMAGE:"

  predicate NotBracket(c: char) { c != ']' }

  // ----- reading ---------------------------------------------------------------------------------------

  /** Where the marker at the start of `s` has its first closing bracket, or else the end of `s`. */
  function MarkerEnd(s: string): (e: nat)
    requires PREFIX <= s
    ensures 7 <= e <= |s| && (e < |s| ==> s[e] == ']')
  {
    7 + RunLen(s[7..], NotBracket)
  }

  predicate Unclosed(s: string)
    requires PREFIX <= s
  {
    MarkerEnd(s) == |s|
  }

  /** Length of the closed marker at the start of `s`, bracket included. */
  function MarkerLen(s: string): (n: nat)
    requires PREFIX <= s && !Unclosed(s)
    ensures 8 <= n <= |s|
  {
    MarkerEnd(s) + 1
  }

  /** The reference a closed marker names, empty when it is blank. */
  function RefAt(s: string): string
    requires PREFIX <= s && !Unclosed(s)
  {
    Trim(s[7..MarkerEnd(s)])
  }

  /** Text with the markers taken out, untrimmed, and their references. Blank markers stay, and so
      does everything from an unclosed one on. */
  function Scan(s: string): (r: Parsed)
    decreases |s|
  {
    if s == [] then Parsed([], [])
    else if !(PREFIX <= s) then
      var rest := Scan(s[1..]);
      Parsed([s[0]] + rest.text, rest.refs)
    else if Unclosed(s) then Parsed(s, [])
    else
      var rest := Scan(s[MarkerLen(s)..]);
      if RefAt(s) == [] then Parsed(s[..MarkerLen(s)] + rest.text, rest.refs)
      else Parsed(rest.text, [RefAt(s)] + rest.refs)
  }

  function ParseMarkers(s: string): Parsed {
    Parsed(Trim(Scan(s).text), Scan(s).refs)
  }

  /** Some marker of the text has no closing bracket: a later one would complete it. */
  predicate Open(s: string)
    decreases |s|
  {
    && s != []
    && if !(PREFIX <= s) then Open(s[1..])
       else Unclosed(s) || Open(s[MarkerLen(s)..])
  }

  lemma {:induction false} FindIsFirst(s: string, p: string, i: nat)
    requires i <= |s| && (Find(s, p).Some? ==> i < Find(s, p).value)
    ensures !(p <= s[i..])
    decreases i
  {
    if i > 0 {
      assert s[1..][i - 1..] == s[i..];
      FindIsFirst(s[1..], p, i - 1);
    } else {
      assert s[0..] == s;
    }
  }

  /** `content.find(']')`. */
  lemma {:induction false} FindBracket(s: string)
    ensures Find(s, "]") == if RunLen(s, NotBracket) < |s| then Some(RunLen(s, NotBracket)) else None
  {
    if s != [] && s[0] != ']' { FindBracket(s[1..]); }
  }

  /** A piece of text and its references, then the rest. */
  function After(text: string, refs: seq<string>, rest: Parsed): Parsed {
    Parsed(text + rest.text, refs + rest.refs)
  }

  /** What a closed marker at the start of `s` contributes. */
  function KeptAt(s: string): string
    requires PREFIX <= s && !Unclosed(s)
  {
    if RefAt(s) == [] then s[..MarkerLen(s)] else []
  }

  function RefsAt(s: string): seq<string>
    requires PREFIX <= s && !Unclosed(s)
  {
    if RefAt(s) == [] then [] else [RefAt(s)]
  }

  /** One step of the scan, at a marker. */
  lemma ScanMarker(s: string)
    requires PREFIX <= s
    ensures Unclosed(s) ==> Scan(s) == Parsed(s, [])
    ensures !Unclosed(s) ==> Scan(s) == After(KeptAt(s), RefsAt(s), Scan(s[MarkerLen(s)..]))
  {
    hide Trim, RunLen;
  }

  /** One step of the scan, elsewhere. */
  lemma ScanChar(s: string)
    requires s != [] && !(PREFIX <= s)
    ensures Scan(s) == After([s[0]], [], Scan(s[1..]))
  {
  }

  lemma AfterAfter(a: string, b: seq<string>, c: string, d: seq<string>, rest: Parsed)
    ensures After(a, b, After(c, d, rest)) == After(a + c, b + d, rest)
  {
    Assoc(a, c, rest.text);
    Assoc(b, d, rest.refs);
  }

  lemma AfterEnds(a: string, b: seq<string>, p: Parsed, x: string)
    ensures After([], [], p) == p
    ensures After(a, b, Parsed(x, [])) == Parsed(a + x, b)
  {
  }

  /** Text before the first marker prefix is kept. */
  lemma {:induction false} ScanSkips(s: string, k: nat)
    requires k <= |s| && forall i | 0 <= i < k :: !(PREFIX <= s[i..])
    ensures Scan(s) == After(s[..k], [], Scan(s[k..]))
    decreases k
  {
    hide Scan, After;
    assert s[0..] == s;
    if k > 0 {
      forall i | 0 <= i < k - 1 ensures s[1..][i..] == s[i + 1..] {}
      ScanChar(s);
      ScanSkips(s[1..], k - 1);
      assert s[1..][k - 1..] == s[k..];
      assert s[..k] == [s[0]] + s[1..][..k - 1];
      var none: seq<string> := [];
      AfterAfter([s[0]], none, s[1..][..k - 1], none, Scan(s[k..]));
      assert none + none == none;
    } else {
      AfterEnds([], [], Scan(s), []);
    }
  }

  lemma ScanUntilPrefix(s: string)
    ensures Find(s, PREFIX).None? ==> Scan(s) == Parsed(s, [])
    ensures Find(s, PREFIX).Some? ==>
      var k := Find(s, PREFIX).value;
      Scan(s) == After(s[..k], [], Scan(s[k..]))
  {
    hide Scan, Find, After;
    var k := match Find(s, PREFIX) case Some(k) => k case None => |s|;
    forall i | 0 <= i < k ensures !(PREFIX <= s[i..]) { FindIsFirst(s, PREFIX, i); }
    ScanSkips(s, k);
    EmptyScan();
    assert k == |s| ==> s[k..] == [] && s[..k] == s;
    AfterEnds(s, [], Scan(s), []);
    assert s + [] == s;
  }

  lemma EmptyScan()
    ensures Scan([]) == Parsed([], [])
  {
  }

  /** The scan from the cursor up to the next marker, in positions of `content`. */
  lemma ScanToMarker(content: string, cursor: nat)
    requires cursor <= |content|
    ensures var f := Find(content[cursor..], PREFIX);
      && (f.None? ==> Scan(content[cursor..]) == Parsed(content[cursor..], []))
      && (f.Some? ==>
           var start := cursor + f.value;
           && start + 7 <= |content|
           && Scan(content[cursor..]) == After(content[cursor..start], [], Scan(content[start..])))
  {
    hide Scan, Find;
    var here := content[cursor..];
    ScanUntilPrefix(here);
    if Find(here, PREFIX).Some? {
      var k := Find(here, PREFIX).value;
      assert PREFIX <= here[k..];
      assert here[..k] == content[cursor..cursor + k] && here[k..] == content[cursor + k..];
    }
  }

  /** The scan at a marker, in positions of `content`. */
  lemma ScanOverMarker(content: string, start: nat)
    requires start + 7 <= |content| && PREFIX <= content[start..]
    ensures var f := Find(content[start + 7..], "]");
      && (f.None? ==> Scan(content[start..]) == Parsed(content[start..], []))
      && (f.Some? ==>
           var end := start + 7 + f.value;
           && end < |content|
           && var candidate := Trim(content[start + 7..end]);
             var rest := Scan(content[end + 1..]);
             Scan(content[start..]) == if candidate == [] then After(content[start..end + 1], [], rest)
                                       else After([], [candidate], rest))
  {
    hide Scan, Find, Trim, RunLen;
    var marker := content[start..];
    assert marker[7..] == content[start + 7..];
    FindBracket(content[start + 7..]);
    ScanMarker(marker);
    if !Unclosed(marker) {
      var n := MarkerLen(marker);
      assert marker[7..n - 1] == content[start + 7..start + n - 1];
      assert marker[..n] == content[start..start + n] && marker[n..] == content[start + n..];
    }
  }

  /** `parse_image_markers`: the cursor loop. */
  method ParseImageMarkers(content: string) returns (text: string, refs: seq<string>)
    ensures Parsed(text, refs) == ParseMarkers(content)
  {
    hide Scan, Find, Trim, After;
    refs := [];
    var cleaned := [];
    var cursor := 0;
    assert content[0..] == content;
    AfterEnds([], [], Scan(content), []);
    while Find(content[cursor..], PREFIX).Some?
      invariant 0 <= cursor <= |content|
      invariant Scan(content) == After(cleaned, refs, Scan(content[cursor..]))
      decreases |content| - cursor
    {
      ScanToMarker(content, cursor);
      var start := cursor + Find(content[cursor..], PREFIX).value;
      assert content[cursor..][start - cursor..] == content[start..];
      AfterAfter(cleaned, refs, content[cursor..start], [], Scan(content[start..]));
      assert refs + [] == refs;
      cleaned := cleaned + content[cursor..start];
      ScanOverMarker(content, start);
      var markerStart := start + 7;
      var close := Find(content[markerStart..], "]");
      if close.None? {
        AfterEnds(cleaned, refs, Scan(content), content[start..]);
        cleaned := cleaned + content[start..];
        cursor := |content|;
        break;
      }
      var end := markerStart + close.value;
      var candidate := Trim(content[markerStart..end]);
      if candidate == [] {
        AfterAfter(cleaned, refs, content[start..end + 1], [], Scan(content[end + 1..]));
        cleaned := cleaned + content[start..end + 1];
      } else {
        AfterAfter(cleaned, refs, [], [candidate], Scan(content[end + 1..]));
        assert cleaned + [] == cleaned;
        refs := refs + [candidate];
      }
      cursor := end + 1;
    }
    EmptyScan();
    AfterEnds(cleaned, refs, Scan(content), []);
    assert content[|content|..] == [] && cleaned + [] == cleaned;
    if cursor < |content| {
      ScanToMarker(content, cursor);
      AfterEnds(cleaned, refs, Scan(content), content[cursor..]);
      cleaned := cleaned + content[cursor..];
    }
    text := Trim(cleaned);
  }

  // ----- writing -----------------------------------------------------------------------------------------

  function Marker(uri: string): string { PREFIX + uri + "]" }

  function Markers(uris: seq<string>): string {
    if uris == [] then [] else Marker(uris[0]) + MoreMarkers(uris[1..])
  }

  function MoreMarkers(uris: seq<string>): string {
    if uris == [] then [] else "\n" + Marker(uris[0]) + MoreMarkers(uris[1..])
  }

  function Compose(text: string, uris: seq<string>): string {
    (if Trim(text) == [] then [] else Trim(text) + "\n\n") + Markers(uris)
  }

  /** `compose_multimodal_message`. */
  method ComposeMultimodalMessage(text: string, uris: seq<string>) returns (content: string)
    ensures content == Compose(text, uris)
  {
    hide Trim, MoreMarkers, Pending;
    content := [];
    var trimmed := Trim(text);
    if trimmed != [] {
      content := content + trimmed;
      content := content + "\n\n";
    }
    ghost var head := content;
    PendingEnds(uris);
    for index := 0 to |uris|
      invariant content + Pending(uris, index) == head + Markers(uris)
    {
      hide Markers;
      PendingStep(uris, index);
      ghost var before := content;
      ghost var piece := Piece(uris[index], index);
      if index > 0 { content := content + "\n"; }
      content := content + PREFIX;
      content := content + uris[index];
      content := content + "]";
      assert content == before + piece;
      Assoc(before, piece, Pending(uris, index + 1));
    }
    assert content + [] == content;
  }

  /** A marker with the line break that separates it from an earlier one. */
  ghost function Piece(uri: string, index: nat): string {
    if index > 0 then "\n" + Marker(uri) else Marker(uri)
  }

  /** What is still to be written once `index` markers are. */
  ghost function Pending(uris: seq<string>, index: nat): string
    requires index <= |uris|
  {
    if index == 0 then Markers(uris) else MoreMarkers(uris[index..])
  }

  lemma PendingEnds(uris: seq<string>)
    ensures Pending(uris, 0) == Markers(uris) && Pending(uris, |uris|) == []
  {
    assert uris == [] ==> Markers(uris) == [];
  }

  lemma PendingStep(uris: seq<string>, index: nat)
    requires index < |uris|
    ensures Pending(uris, index) == Piece(uris[index], index) + Pending(uris, index + 1)
  {
    hide Marker;
    assert uris[index..][0] == uris[index] && uris[index..][1..] == uris[index + 1..];
  }
}
