/** src/multimodal.rs: composing and parsing image markers undo each other. */
module ImageRoundTrip {
  import opened Text
  import opened ImageMarkers

  /** A reference that can stand in a marker: trimmed, not empty, no bracket. */
  predicate CleanRef(u: string) { u != [] && Trim(u) == u && ']' !in u }

  predicate CleanRefs(us: seq<string>) { forall u | u in us :: CleanRef(u) }

  /** Text that cannot complete a marker prefix begun before it. */
  predicate NoStraddle(rest: string) {
    rest == [] || IsWhitespace(rest[0]) || rest[0] == '['
  }

  lemma RunLenIs(s: string, n: nat)
    requires n <= |s| && (forall i | 0 <= i < n :: NotBracket(s[i])) && (n < |s| ==> !NotBracket(s[n]))
    ensures RunLen(s, NotBracket) == n
  {
    hide RunLen;
  }

  lemma PrefixStays(t: string, rest: string, p: string)
    requires p == PREFIX && t != [] && NoStraddle(rest)
    ensures p <= t + rest <==> p <= t
  {
    assert rest != [] ==> (t + rest)[|t|] == rest[0];
  }

  lemma ClosedStays(t: string, rest: string)
    requires PREFIX <= t && !Unclosed(t)
    ensures PREFIX <= t + rest && !Unclosed(t + rest)
    ensures MarkerLen(t + rest) == MarkerLen(t) && RefAt(t + rest) == RefAt(t)
    ensures (t + rest)[MarkerLen(t)..] == t[MarkerLen(t)..] + rest && (t + rest)[..MarkerLen(t)] == t[..MarkerLen(t)]
  {
    hide Trim, RunLen;
    assert (t + rest)[7..] == t[7..] + rest;
    RunLenIs(t[7..] + rest, RunLen(t[7..], NotBracket));
    assert (t + rest)[7..MarkerEnd(t)] == t[7..MarkerEnd(t)];
  }

  /** Without an open marker a text is scanned the same whatever follows it. */
  lemma {:induction false} ScanSplit(t: string, rest: string)
    requires !Open(t) && NoStraddle(rest)
    ensures Scan(t + rest) == After(Scan(t).text, Scan(t).refs, Scan(rest))
    decreases |t|
  {
    hide Trim, RunLen, MarkerLen, RefAt, Unclosed, Scan, After;
    var more := Scan(rest);
    if t == [] {
      assert t + rest == rest;
      EmptyScan();
      AfterEnds([], [], more, []);
    } else {
      PrefixStays(t, rest, PREFIX);
      if !(PREFIX <= t) {
        assert (t + rest)[1..] == t[1..] + rest && (t + rest)[0] == t[0];
        ScanChar(t);
        ScanChar(t + rest);
        ScanSplit(t[1..], rest);
        AfterParts([t[0]], [], Scan(t[1..]), more);
      } else {
        ClosedStays(t, rest);
        ScanMarker(t);
        ScanMarker(t + rest);
        ScanSplit(t[MarkerLen(t)..], rest);
        AfterParts(KeptAt(t), RefsAt(t), Scan(t[MarkerLen(t)..]), more);
      }
    }
  }

  lemma AfterParts(a: string, b: seq<string>, p: Parsed, rest: Parsed)
    ensures var q := After(a, b, p); After(a, b, After(p.text, p.refs, rest)) == After(q.text, q.refs, rest)
  {
    AfterAfter(a, b, p.text, p.refs, rest);
  }

  lemma {:induction false} NoRefsKeepsText(t: string)
    requires Scan(t).refs == []
    ensures Scan(t).text == t
    decreases |t|
  {
    hide Trim, RunLen, MarkerLen, RefAt, Unclosed;
    if t != [] {
      if !(PREFIX <= t) {
        NoRefsKeepsText(t[1..]);
      } else if !Unclosed(t) {
        NoRefsKeepsText(t[MarkerLen(t)..]);
      }
    }
  }

  /** An open marker runs on into what follows, up to the first bracket there. */
  lemma {:induction false} OpenRunsOn(t: string, rest: string, e: nat) returns (x: string)
    requires Open(t) && NoStraddle(rest) && e == RunLen(rest, NotBracket)
    ensures e == |rest| ==> Scan(t + rest) == Parsed(Scan(t).text + rest, Scan(t).refs)
    ensures e < |rest| && Trim(x + rest[..e]) != [] ==>
      Scan(t + rest).refs == Scan(t).refs + ([Trim(x + rest[..e])] + Scan(rest[e + 1..]).refs)
    decreases |t|
  {
    hide Trim, RunLen, MarkerLen, RefAt, Unclosed, Scan;
    PrefixStays(t, rest, PREFIX);
    if !(PREFIX <= t) {
      assert (t + rest)[1..] == t[1..] + rest && (t + rest)[0] == t[0];
      ScanChar(t);
      ScanChar(t + rest);
      x := OpenRunsOn(t[1..], rest, e);
    } else {
      ScanMarker(t);
      ScanMarker(t + rest);
      if Unclosed(t) {
        EndRunsOn(t, rest, e);
        UnclosedRunsOn(t, rest, e);
        x := t[7..];
      } else {
        ClosedStays(t, rest);
        var u := t[MarkerLen(t)..];
        x := OpenRunsOn(u, rest, e);
        Assoc(KeptAt(t), Scan(u).text, rest);
        if e < |rest| { Assoc(RefsAt(t), Scan(u).refs, [Trim(x + rest[..e])] + Scan(rest[e + 1..]).refs); }
      }
    }
  }

  lemma UnclosedRunsOn(t: string, rest: string, e: nat)
    requires PREFIX <= t && PREFIX <= t + rest && MarkerEnd(t + rest) == |t| + e && e <= |rest|
    ensures Unclosed(t + rest) <==> e == |rest|
    ensures e < |rest| ==>
      RefAt(t + rest) == Trim(t[7..] + rest[..e]) && (t + rest)[MarkerLen(t + rest)..] == rest[e + 1..]
  {
    hide Trim, MarkerEnd, RefAt, MarkerLen;
    if e < |rest| {
      var name, after := t[7..] + rest[..e], rest[e + 1..];
      MiddleSlice(t, rest, 7, e);
      SplitAtEnd(t + rest, |t| + e, name, after);
    }
  }

  lemma SplitAtEnd(s: string, end: nat, name: string, after: string)
    requires PREFIX <= s && MarkerEnd(s) == end < |s| && s[7..end] == name && s[end + 1..] == after
    ensures RefAt(s) == Trim(name) && s[MarkerLen(s)..] == after
  {
    hide Trim, MarkerEnd;
  }

  lemma EndRunsOn(t: string, rest: string, e: nat)
    requires PREFIX <= t && Unclosed(t) && e == RunLen(rest, NotBracket)
    ensures PREFIX <= t + rest && MarkerEnd(t + rest) == |t| + e
  {
    hide RunLen;
    InnerRunsOn(t[7..], rest, e);
    TailSlices(t, rest, 7);
  }

  lemma TailSlices(t: string, rest: string, k: nat)
    requires k <= |t|
    ensures (t + rest)[k..] == t[k..] + rest
  {
  }

  lemma MiddleSlice(t: string, rest: string, k: nat, e: nat)
    requires k <= |t| && e < |rest|
    ensures (t + rest)[k..|t| + e] == t[k..] + rest[..e] && (t + rest)[|t| + e + 1..] == rest[e + 1..]
  {
  }

  lemma InnerRunsOn(inner: string, rest: string, e: nat)
    requires RunLen(inner, NotBracket) == |inner| && e == RunLen(rest, NotBracket)
    ensures RunLen(inner + rest, NotBracket) == |inner| + e
  {
    hide RunLen;
    RunLenIs(inner + rest, |inner| + e);
  }

  // ----- the markers ------------------------------------------------------------------------------------

  predicate Blank(s: string) { forall c | c in s :: IsWhitespace(c) }

  lemma MarkerIsRead(u: string, rest: string)
    requires CleanRef(u)
    ensures Scan(Marker(u) + rest) == After([], [u], Scan(rest))
  {
    hide Trim, RunLen, Scan;
    var s := Marker(u) + rest;
    assert s[7..] == u + "]" + rest;
    RunLenIs(s[7..], |u|);
    assert s[7..7 + |u|] == u;
    assert s[8 + |u|..] == rest;
    ScanMarker(s);
  }

  lemma LineBreakIsText(rest: string)
    ensures Scan("\n" + rest) == After("\n", [], Scan(rest))
  {
    assert ("\n" + rest)[1..] == rest;
    assert ("\n" + rest)[0] == '\n';
  }

  lemma {:induction false} MoreMarkersAreRead(us: seq<string>)
    requires CleanRefs(us)
    ensures Scan(MoreMarkers(us)).refs == us && Blank(Scan(MoreMarkers(us)).text) && NoStraddle(MoreMarkers(us))
  {
    hide Scan, Trim, Marker;
    EmptyScan();
    if us != [] {
      MoreMarkersAreRead(us[1..]);
      MarkerIsRead(us[0], MoreMarkers(us[1..]));
      Assoc("\n", Marker(us[0]), MoreMarkers(us[1..]));
      LineBreakIsText(Marker(us[0]) + MoreMarkers(us[1..]));
    }
  }

  lemma MarkersAreRead(us: seq<string>)
    requires CleanRefs(us)
    ensures Scan(Markers(us)).refs == us && Blank(Scan(Markers(us)).text)
  {
    hide Scan, Trim, Marker, MoreMarkers;
    EmptyScan();
    if us != [] {
      MoreMarkersAreRead(us[1..]);
      MarkerIsRead(us[0], MoreMarkers(us[1..]));
    }
  }

  // ----- trimming ------------------------------------------------------------------------------------------

  lemma {:induction false} TrimPad(t: string, w: string)
    requires Trim(t) == t && Blank(w)
    ensures Trim(t + w) == t
    decreases |w|
  {
    if w == [] {
      assert t + w == t;
    } else {
      var v := w[..|w| - 1];
      TrimPad(t, v);
      assert t + w == t + v + [w[|w| - 1]];
      TrimLast(t + v, w[|w| - 1]);
    }
  }

  lemma TrimLast(s: string, c: char)
    requires IsWhitespace(c)
    ensures Trim(s + [c]) == Trim(s)
  {
    DropLeadingLast(s, c);
    var d := DropLeading(s, IsWhitespace);
    if d != [] { assert (d + [c])[..|d|] == d; }
  }

  lemma {:induction false} DropLeadingLast(s: string, c: char)
    requires IsWhitespace(c)
    ensures var d := DropLeading(s, IsWhitespace);
      DropLeading(s + [c], IsWhitespace) == if d == [] then [] else d + [c]
  {
    if s == [] {
      assert s + [c] == [c];
    } else if IsWhitespace(s[0]) {
      assert (s + [c])[1..] == s[1..] + [c];
      DropLeadingLast(s[1..], c);
    } else {
      assert (s + [c])[0] == s[0];
    }
  }

  /** Trimming cannot reach past a character that stays, nor cut a text that ends in one. */
  lemma TrimReaches(x: string, c: char, u: string)
    requires !IsWhitespace(c) && u != [] && Trim(u) == u
    ensures |Trim(x + [c] + u)| > |u|
  {
    hide DropTrailing;
    var s := x + [c] + u;
    DropLeadingStops(x, [c] + u);
    Assoc(x, [c], u);
    var d := DropLeading(s, IsWhitespace);
    LastStays(u);
    assert d[|d| - 1] == u[|u| - 1];
  }

  lemma LastStays(u: string)
    requires u != [] && Trim(u) == u
    ensures !IsWhitespace(u[|u| - 1])
  {
    hide DropLeading, DropTrailing;
  }

  lemma {:induction false} DropLeadingStops(x: string, y: string)
    requires y != [] && !IsWhitespace(y[0])
    ensures var d := DropLeading(x + y, IsWhitespace); |d| >= |y| && d[|d| - |y|..] == y
  {
    if x == [] {
      assert x + y == y;
    } else if IsWhitespace(x[0]) {
      assert (x + y)[1..] == x[1..] + y;
      DropLeadingStops(x[1..], y);
    } else {
      assert (x + y)[0] == x[0];
    }
  }

  // ----- the round trip ----------------------------------------------------------------------------------------

  /** The text holds no marker of its own and, when references follow, none they would complete. */
  predicate Faithful(text: string, us: seq<string>) {
    Scan(Trim(text)).refs == [] && (us == [] || !Open(Trim(text)))
  }

  lemma BareRoundTrip(text: string, us: seq<string>)
    requires CleanRefs(us) && Trim(text) == []
    ensures ParseMarkers(Compose(text, us)) == Parsed([], us) && Faithful(text, us)
  {
    hide Scan, Markers, Trim, Open;
    MarkersAreRead(us);
    EmptyScan();
    EmptyTrim();
    assert Compose(text, us) == Markers(us);
    TrimPad([], Scan(Markers(us)).text);
    assert [] + Scan(Markers(us)).text == Scan(Markers(us)).text;
  }

  lemma EmptyTrim()
    ensures Trim([]) == [] && !Open([])
  {
  }

  lemma ClosedRoundTrip(text: string, us: seq<string>)
    requires CleanRefs(us) && Trim(text) != [] && !Open(Trim(text))
    ensures ParseMarkers(Compose(text, us)) == Parsed(Trim(text), us) <==> Scan(Trim(text)).refs == []
  {
    hide Scan, Markers, Trim, Open;
    var b, m := Trim(text), Markers(us);
    TrimTwice(text);
    MarkersAreRead(us);
    assert Compose(text, us) == b + ("\n" + ("\n" + m));
    ScanSplit(b, "\n" + ("\n" + m));
    LineBreakIsText("\n" + m);
    LineBreakIsText(m);
    var gap := "\n" + ("\n" + Scan(m).text);
    assert Scan(Compose(text, us)) == Parsed(Scan(b).text + gap, Scan(b).refs + us);
    if Scan(b).refs == [] {
      NoRefsKeepsText(b);
      TrimPad(b, gap);
    } else {
      assert |Scan(b).refs + us| > |us|;
    }
  }

  lemma OpenRoundTrip(text: string, us: seq<string>)
    requires CleanRefs(us) && Trim(text) != [] && Open(Trim(text))
    ensures ParseMarkers(Compose(text, us)) == Parsed(Trim(text), us) <==> us == [] && Scan(Trim(text)).refs == []
  {
    hide Scan, Trim, Open, MoreMarkers, RunLen;
    var b, m := Trim(text), Markers(us);
    TrimTwice(text);
    var rest := "\n\n" + m;
    assert Compose(text, us) == b + rest;
    var e := RunLen(rest, NotBracket);
    var x := OpenRunsOn(b, rest, e);
    if us == [] {
      assert m == [];
      RunLenIs(rest, 2);
      if Scan(b).refs == [] {
        NoRefsKeepsText(b);
        TrimPad(b, rest);
      }
    } else {
      var u := us[0];
      assert u in us && us == [u] + us[1..];
      var more := MoreMarkers(us[1..]);
      assert rest == "\n\n[IMAGE:" + u + "]" + more;
      RunLenIs(rest, 9 + |u|);
      assert rest[..e] == "\n\n[IMAGE" + [':'] + u && rest[e + 1..] == more;
      assert x + rest[..e] == (x + "\n\n[IMAGE") + [':'] + u;
      TrimReaches(x + "\n\n[IMAGE", ':', u);
      MoreMarkersAreRead(us[1..]);
      assert Scan(b + rest).refs == Scan(b).refs + ([Trim(x + rest[..e])] + us[1..]);
    }
  }

  /** Composing and then parsing gives back the trimmed text and the references exactly when the text
      holds no marker with a reference and, unless there are no references, no open one. */
  lemma RoundTripIff(text: string, us: seq<string>)
    requires CleanRefs(us)
    ensures ParseMarkers(Compose(text, us)) == Parsed(Trim(text), us) <==> Faithful(text, us)
  {
    hide Scan, Trim, Open, Compose, ParseMarkers;
    if Trim(text) == [] {
      BareRoundTrip(text, us);
    } else if Open(Trim(text)) {
      OpenRoundTrip(text, us);
    } else {
      ClosedRoundTrip(text, us);
    }
  }

  /** Text without the marker prefix always makes the round trip. */
  lemma PlainTextRoundTrip(text: string, us: seq<string>)
    requires CleanRefs(us) && forall i | 0 <= i <= |Trim(text)| :: !(PREFIX <= Trim(text)[i..])
    ensures ParseMarkers(Compose(text, us)) == Parsed(Trim(text), us)
  {
    hide Scan, Trim, Open, Compose, ParseMarkers;
    var b := Trim(text);
    ScanSkips(b, |b|);
    EmptyScan();
    assert b[|b|..] == [];
    NeverOpen(b);
    RoundTripIff(text, us);
  }

  lemma {:induction false} NeverOpen(b: string)
    requires forall i | 0 <= i <= |b| :: !(PREFIX <= b[i..])
    ensures !Open(b)
    decreases |b|
  {
    if b != [] {
      assert b[0..] == b;
      forall i | 0 <= i < |b| ensures b[1..][i..] == b[i + 1..] {}
      NeverOpen(b[1..]);
    }
  }

  /** Taking one marker out can leave another: the text the parser returns is not always faithful. */
  lemma NestedMarkerExample()
    ensures ParseMarkers("[IMA[IMAGE:x]GE:y]") == Parsed("[IMAGE:y]", ["x"])
    ensures !Faithful("[IMAGE:y]", ["x"])
  {
    hide Scan, Trim, Open, RunLen;
    TrimsOfExample();
    var head, tail := "[IMA", "GE:y]";
    assert "[IMA[IMAGE:x]GE:y]" == head + (Marker("x") + tail);
    assert Marker("y") + [] == "[IMAGE:y]" == head + tail;
    ShortScan(head);
    ShortScan(tail);
    MarkerIsRead("x", tail);
    ScanSplit(head, Marker("x") + tail);
    EmptyScan();
    MarkerIsRead("y", []);
    assert head + ([] + tail) == head + tail && [] + (["x"] + []) == ["x"];
    assert Scan(head + (Marker("x") + tail)) == Parsed(head + tail, ["x"]);
  }

  lemma {:induction false} ShortScan(s: string)
    requires |s| < 7
    ensures Scan(s) == Parsed(s, []) && !Open(s)
  {
    if s != [] { ShortScan(s[1..]); }
  }

  lemma TrimsOfExample()
    ensures Trim("x") == "x" && Trim("y") == "y" && Trim("[IMAGE:y]") == "[IMAGE:y]"
  {
  }
}
