/** What `enforce` guarantees: its report, the URLs that survive, when it is the identity. */
module LinkSafety {
  import opened Text
  import opened LinkResolver
  import opened LinkEnforcer
  import opened LinkMerging
  import opened LinkPlaceholders
  import opened LinkSlots

  // ----- the report -------------------------------------------------------------------------

  /** Every link is either kept exactly, or reported: repaired into a recorded URL, or removed
      because nothing recorded stands for it. */
  lemma {:induction false} ReportIsExact(urls: seq<string>, known: set<string>, lower: Lower)
    ensures forall u, g :: (u, g) in Repairs(urls, known, lower)
                      <==> u in urls && Resolve(u, known, lower) == Some(g) && g != u
    ensures forall u :: u in Removals(urls, known, lower)
                   <==> u in urls && Resolve(u, known, lower) == None
    ensures forall r | r in Repairs(urls, known, lower) :: r.0 !in known && r.1 in known
    ensures forall u | u in Removals(urls, known, lower) :: u !in known
  {
    if urls != [] {
      ReportIsExact(urls[1..], known, lower);
      ResolveStaysInLedger(urls[0], known, lower);
      assert urls == [urls[0]] + urls[1..];
    }
  }

  /** `u` is the target of a Markdown link of the text, or a bare URL outside of them, as it is looked up. */
  ghost predicate IsLinkOf(text: string, u: string) {
    var d := Parse(text);
    exists raw :: (raw in Targets(d) || raw in UrlMatches(WithSlots(d, 0))) && NormalizeRaw(raw) == u
  }

  /** The report of `enforce` lists exactly the links of the text that it repairs and removes. */
  lemma EnforceReportsItsLinks(text: string, known: set<string>, lower: Lower)
    ensures forall u, g :: (u, g) in Enforced(text, known, lower).repaired
                      <==> IsLinkOf(text, u) && Resolve(u, known, lower) == Some(g) && g != u
    ensures forall u :: u in Enforced(text, known, lower).removed
                   <==> IsLinkOf(text, u) && Resolve(u, known, lower) == None
  {
    hide Parse, WithSlots, UrlMatches, Targets, NormalizeRaw, Resolve;
    ReportIsExact(Urls(text), known, lower);
    var d := Parse(text);
    var a, b := Targets(d), UrlMatches(WithSlots(d, 0));
    forall u ensures u in Urls(text) <==> IsLinkOf(text, u) {
      NormalizedMembers(a, u);
      NormalizedMembers(b, u);
    }
  }

  lemma NormalizedMembers(raws: seq<string>, u: string)
    ensures u in NormalizeAll(raws) <==> exists raw :: raw in raws && NormalizeRaw(raw) == u
  {
    hide NormalizeRaw;
    var urls := NormalizeAll(raws);
    if u in urls {
      var i :| 0 <= i < |urls| && urls[i] == u;
      assert raws[i] in raws;
    }
    if raw :| raw in raws && NormalizeRaw(raw) == u {
      var i :| 0 <= i < |raws| && raws[i] == raw;
      assert urls[i] in urls;
    }
  }

  // ----- URLs never cross a character that is not a URL character -----------------------------

  predicate Border(a: string, b: string) {
    a == [] || b == [] || !IsUrlChar(a[|a| - 1]) || !IsUrlChar(b[0])
  }

  lemma {:induction false} HeadSplit(a: string, b: string)
    requires a != [] && Border(a, b)
    ensures UrlLen(a + b) == UrlLen(a)
  {
    RunPrefix(a, b, IsUrlChar);
    UrlLenIsRun(a);
    UrlLenIsRun(a + b);
    if RunLen(a, IsUrlChar) == |a| {
      assert IsUrlChar(a[|a| - 1]);
      RunSplit(a, b, IsUrlChar);
    }
    if SchemeLen(a + b) <= |a| { assert SchemeLen(a + b) == SchemeLen(a); }
  }

  lemma {:induction false} MatchesSplit(a: string, b: string)
    requires Border(a, b)
    ensures UrlMatches(a + b) == UrlMatches(a) + UrlMatches(b)
    decreases |a|
  {
    if a == [] {
      assert a + b == b;
    } else {
      HeadSplit(a, b);
      var k := if UrlLen(a) > 0 then UrlLen(a) else 1;
      CutBoth(a, b, k);
      BorderSuffix(a, b, k);
      MatchesSplit(a[k..], b);
    }
  }

  lemma BorderSuffix(a: string, b: string, k: nat)
    requires Border(a, b) && k <= |a|
    ensures Border(a[k..], b)
  {
  }

  lemma {:induction false} RewriteSplit(a: string, b: string, known: set<string>, lower: Lower)
    requires Border(a, b)
    ensures RewriteBare(a + b, known, lower) == RewriteBare(a, known, lower) + RewriteBare(b, known, lower)
    decreases |a|
  {
    if a == [] {
      assert a + b == b;
    } else {
      HeadSplit(a, b);
      var k := StepLen(a);
      CutBoth(a, b, k);
      BorderSuffix(a, b, k);
      RewriteSplit(a[k..], b, known, lower);
      RewriteStep(a, known, lower);
      RewriteStep(a + b, known, lower);
      Assoc(StepText(a[..k], UrlLen(a) > 0, known, lower),
            RewriteBare(a[k..], known, lower), RewriteBare(b, known, lower));
    }
  }

  // ----- a rewritten gap holds exactly the resolutions of its URLs ----------------------------

  /** The URL that remains where `raw` stood, if any. */
  ghost function Survivor(raw: string, suffix: string, known: set<string>, lower: Lower): seq<string> {
    match Resolve(NormalizeRaw(raw), known, lower)
    case Some(good) => if SchemeLen(good) < |good + suffix| then [good] else []
    case None => []
  }

  ghost function GapSurvivors(urls: seq<string>, known: set<string>, lower: Lower): seq<string> {
    if urls == [] then []
    else Survivor(urls[0], Suffix(urls[0]), known, lower) + GapSurvivors(urls[1..], known, lower)
  }

  function TrimAll(urls: seq<string>): seq<string> {
    if urls == [] then [] else [TrimPunct(urls[0])] + TrimAll(urls[1..])
  }

  lemma {:induction false} TrimAllConcat(a: seq<string>, b: seq<string>)
    ensures TrimAll(a + b) == TrimAll(a) + TrimAll(b)
  {
    if a == [] {
      assert a + b == b;
    } else {
      assert (a + b)[1..] == a[1..] + b;
      TrimAllConcat(a[1..], b);
    }
  }

  ghost predicate ShapedLedger(known: set<string>) {
    forall k | k in known :: RecordedShape(k)
  }

  /** Removing or repairing a URL makes no URL out of the text before it. */
  lemma {:induction false} NoEarlierUrl(u: string, raw: string, x: string)
    requires u != [] && UrlLen(u + raw) == 0
    requires raw != [] && IsUrlChar(raw[0])
    requires x == [] || x[0] == 'h' || '/' !in x
    ensures UrlLen(u + x) == 0
  {
    var q := SchemeLen(u + x);
    NoStraddle(u, x);
    if q > 0 {
      SchemeInside(u, x);
      SchemeInside(u, raw);
      UrlLenIsRun(u + raw);
      UrlLenIsRun(u + x);
      RunLenAt(u, raw, x, q);
    }
  }

  /** A replacement never completes a scheme begun before it. */
  lemma NoStraddle(u: string, x: string)
    requires u != []
    requires x == [] || x[0] == 'h' || '/' !in x
    ensures SchemeLen(u + x) <= |u|
  {
    var q := SchemeLen(u + x);
    if q > |u| {
      assert (u + x)[q - 1] == x[q - 1 - |u|] == '/';
      assert (u + x)[|u|] == x[0];
      SchemeHasOneH(u + x, |u|);
    }
  }

  lemma SchemeHasOneH(s: string, i: nat)
    requires 0 < i < SchemeLen(s)
    ensures s[i] != 'h'
  {
  }

  lemma {:induction false} RunLenAt(u: string, raw: string, x: string, q: nat)
    requires q <= |u| && RunLen(u + raw, IsUrlChar) <= q
    requires raw != [] && IsUrlChar(raw[0])
    ensures RunLen(u + x, IsUrlChar) <= q
  {
    RunPrefix(u, raw, IsUrlChar);
    RunPrefix(u, x, IsUrlChar);
    if RunLen(u, IsUrlChar) == |u| {
      RunSplit(u, raw, IsUrlChar);
    }
  }

  predicate NoUrlIn(p: string, t: string) {
    forall i | 0 <= i < |p| :: UrlLen(p[i..] + t) == 0
  }

  /** Text before the first URL is copied. */
  lemma {:induction false} SkipText(p: string, t: string, known: set<string>, lower: Lower)
    requires NoUrlIn(p, t)
    ensures RewriteBare(p + t, known, lower) == p + RewriteBare(t, known, lower)
    ensures UrlMatches(p + t) == UrlMatches(t)
  {
    if p == [] {
      assert p + t == t;
    } else {
      assert p[0..] == p;
      assert (p + t)[1..] == p[1..] + t;
      forall i | 0 <= i < |p[1..]| ensures UrlLen(p[1..][i..] + t) == 0 {
        assert p[1..][i..] == p[i + 1..];
      }
      SkipText(p[1..], t, known, lower);
      RewriteStep(p + t, known, lower);
      Assoc([p[0]], p[1..], RewriteBare(t, known, lower));
      assert [p[0]] + p[1..] == p && (p + t)[..1] == [p[0]];
    }
  }

  lemma {:induction false} FirstUrl(s: string) returns (k: nat)
    ensures k <= |s| && NoUrlIn(s[..k], s[k..])
    ensures k < |s| ==> UrlLen(s[k..]) > 0
  {
    hide UrlLen;
    if s == [] || UrlLen(s) > 0 {
      k := 0;
      assert s[0..] == s;
    } else {
      var j := FirstUrl(s[1..]);
      k := j + 1;
      forall i | 0 <= i < k ensures UrlLen(s[..k][i..] + s[k..]) == 0 {
        assert s[..k][i..] + s[k..] == s[i..];
        if i > 0 { assert s[1..][..j][i - 1..] + s[1..][j..] == s[i..]; }
      }
    }
  }

  lemma ReplacementShape(raw: string, known: set<string>, lower: Lower)
    requires ShapedLedger(known)
    requires UrlLen(raw) == |raw| > 0 && forall c | c in raw :: IsUrlChar(c)
    ensures var x := BareReplacement(raw, known, lower);
      && (x == [] || x[0] == 'h' || '/' !in x)
      && TrimAll(UrlMatches(x)) == Survivor(raw, Suffix(raw), known, lower)
      && (forall c | c in x :: IsUrlChar(c))
  {
    SuffixIsPunct(raw);
    var u := NormalizeRaw(raw);
    ResolveStaysInLedger(u, known, lower);
    if Resolve(u, known, lower) == None {
      CopiesText(Suffix(raw), [], known, lower);
      assert Suffix(raw) + [] == Suffix(raw);
    } else {
      var good := Resolve(u, known, lower).value;
      RecordedUrlReads(good, Suffix(raw));
    }
  }

  /** A recorded URL with punctuation behind it reads back as itself. */
  lemma {:induction false} RecordedUrlReads(good: string, suffix: string)
    requires RecordedShape(good)
    requires forall c | c in suffix :: IsUrlChar(c) && IsTrailingPunct(c)
    ensures TrimAll(UrlMatches(good + suffix))
         == if SchemeLen(good) < |good + suffix| then [good] else []
  {
    var x := good + suffix;
    SchemeInside(good, suffix);
    WholeRun(x, IsUrlChar);
    UrlLenIsRun(x);
    if SchemeLen(good) < |x| {
      assert x[..|x|] == x && x[|x|..] == [];
      assert UrlMatches(x) == [x] + UrlMatches([]);
      TrimKeeps(good, suffix);
    } else {
      assert x[0] == 'h' && 'h' !in x[1..];
      CopiesText(x[1..], [], {}, s => s);
      assert x[1..] + [] == x[1..];
    }
  }

  lemma {:induction false} TrimKeeps(good: string, suffix: string)
    requires good != [] && !IsTrailingPunct(good[|good| - 1])
    requires forall c | c in suffix :: IsTrailingPunct(c)
    ensures TrimPunct(good + suffix) == good
  {
    if suffix == [] {
      assert good + suffix == good;
    } else {
      var shorter := suffix[..|suffix| - 1];
      assert suffix[|suffix| - 1] in suffix;
      assert (good + suffix)[..|good + suffix| - 1] == good + shorter;
      TrimKeeps(good, shorter);
    }
  }

  lemma {:induction false} NoUrlBefore(p: string, raw: string, x: string)
    requires NoUrlIn(p, raw) && raw != [] && IsUrlChar(raw[0])
    requires x == [] || x[0] == 'h' || '/' !in x
    ensures NoUrlIn(p, x)
  {
    forall i | 0 <= i < |p| ensures UrlLen(p[i..] + x) == 0 {
      NoEarlierUrl(p[i..], raw, x);
    }
  }

  lemma NoUrlCut(p: string, raw: string, rest: string)
    requires NoUrlIn(p, raw + rest)
    ensures NoUrlIn(p, raw)
  {
    forall i | 0 <= i < |p| ensures UrlLen(p[i..] + raw) == 0 {
      assert p[i..] + (raw + rest) == (p[i..] + raw) + rest;
      UrlGrows(p[i..] + raw, rest);
    }
  }

  lemma RewriteKeepsHead(s: string, known: set<string>, lower: Lower)
    requires s == [] || !IsUrlChar(s[0])
    ensures s == [] <==> RewriteBare(s, known, lower) == []
    ensures s != [] ==> RewriteBare(s, known, lower)[0] == s[0]
  {
    UrlLenIsRun(s);
  }

  /** The URLs read from a rewritten gap are the resolutions of the URLs it held, in order. */
  lemma {:induction false} RewrittenGap(s: string, known: set<string>, lower: Lower)
    requires ShapedLedger(known)
    ensures TrimAll(UrlMatches(RewriteBare(s, known, lower))) == GapSurvivors(UrlMatches(s), known, lower)
    decreases |s|
  {
    var k := FirstUrl(s);
    var p, t := s[..k], s[k..];
    CutAt(s, k);
    SkipText(p, t, known, lower);
    if t == [] {
      NoUrlNothing(p, known, lower);
    } else {
      var n := UrlLen(t);
      var raw, rest := t[..n], t[n..];
      CutAt(t, n);
      UrlLenIsRun(t);
      assert raw in UrlMatches(t);
      MatchesAreUrls(t);
      var x := BareReplacement(raw, known, lower);
      ReplacementShape(raw, known, lower);
      NoUrlCut(p, raw, rest);
      assert raw[0] in raw;
      NoUrlBefore(p, raw, x);
      SkipText(p, x, known, lower);
      RewriteKeepsHead(rest, known, lower);
      var r := RewriteBare(rest, known, lower);
      Assoc(p, x, r);
      MatchesSplit(p + x, r);
      TrimAllConcat(UrlMatches(x), UrlMatches(r));
      RewrittenGap(rest, known, lower);
    }
  }

  lemma NoUrlNothing(p: string, known: set<string>, lower: Lower)
    requires NoUrlIn(p, [])
    ensures RewriteBare(p, known, lower) == p && UrlMatches(p) == []
  {
    SkipText(p, [], known, lower);
    assert p + [] == p;
  }

  // ----- link safety --------------------------------------------------------------------------

  /** Every Markdown link stands between characters that are not URL characters (or at an end of the
      text), so that two links never touch, and no caption holds a URL. */
  predicate Fenced(d: Doc, first: bool) {
    match d
    case Tail(g) => first || g == [] || !IsUrlChar(g[0])
    case Linked(g, c, _, rest) =>
      && UrlMatches(c) == []
      && (g == [] ==> first)
      && (g != [] ==> !IsUrlChar(g[|g| - 1]) && (first || !IsUrlChar(g[0])))
      && Fenced(rest, false)
  }

  /** The URLs that stay, in order of appearance. */
  ghost function Survivors(d: Doc, known: set<string>, lower: Lower): seq<string> {
    match d
    case Tail(g) => GapSurvivors(UrlMatches(g), known, lower)
    case Linked(g, _, t, rest) =>
      GapSurvivors(UrlMatches(g), known, lower)
      + (Survivor(t, [], known, lower) + Survivors(rest, known, lower))
  }

  lemma {:induction false} MatchChars(s: string)
    ensures forall m, c | m in UrlMatches(s) && c in m :: c in s
    decreases |s|
  {
    if s != [] {
      MatchChars(s[StepLen(s)..]);
    }
  }

  lemma {:induction false} FencedMatches(d: Doc, first: bool, i: nat)
    requires Fenced(d, first) && NulFree(Unparse(d))
    ensures forall m | m in UrlMatches(WithSlots(d, i)) :: NulFree(m)
    decreases d
  {
    MatchChars(d.gap);
    assert forall c | c in d.gap :: c in Unparse(d);
    if d.Linked? {
      assert forall c | c in Unparse(d.rest) :: c in Unparse(d);
      FencedMatches(d.rest, false, i + 1);
      WithSlotsStep(d, i);
      SlotTextIsUrlText(i);
      CopiesText(SlotText(i), WithSlots(d.rest, i + 1), {}, s => s);
      MatchesSplit(d.gap, SlotText(i) + WithSlots(d.rest, i + 1));
    }
  }

  lemma FencedIsSeparated(text: string)
    requires NulFree(text) && Fenced(Parse(text), true)
    ensures Separated(text)
  {
    UnparseParse(text);
    FencedMatches(Parse(text), true, 0);
  }

  lemma {:induction false} RewriteKeepsLast(s: string, known: set<string>, lower: Lower)
    requires s != [] && !IsUrlChar(s[|s| - 1])
    ensures RewriteBare(s, known, lower) != []
    ensures RewriteBare(s, known, lower)[|RewriteBare(s, known, lower)| - 1] == s[|s| - 1]
  {
    var a, b := s[..|s| - 1], s[|s| - 1..];
    CutAt(s, |s| - 1);
    RewriteSplit(a, b, known, lower);
    RewriteKeepsHead(b, known, lower);
    RewriteStep(b, known, lower);
    UrlLenIsRun(b);
    assert b[1..] == [] && b[..1] == b;
  }

  lemma {:induction false} ReplacedLinkReads(c: string, t: string, known: set<string>, lower: Lower)
    requires ShapedLedger(known) && UrlMatches(c) == []
    ensures TrimAll(UrlMatches(LinkReplacement(c, t, known, lower))) == Survivor(t, [], known, lower)
  {
    hide Resolve, NormalizeRaw, UrlMatches, LinkText;
    var u := NormalizeRaw(t);
    ResolveStaysInLedger(u, known, lower);
    if Resolve(u, known, lower).Some? {
      var good := Resolve(u, known, lower).value;
      LinkTextReads(c, good);
      RecordedUrlReads(good, []);
      assert good + [] == good;
    }
  }

  lemma EmptyHasNoUrl()
    ensures UrlMatches([]) == []
  {
  }

  lemma LinkTextReads(c: string, good: string)
    ensures UrlMatches(LinkText(c, good)) == UrlMatches(c) + UrlMatches(good)
  {
    hide UrlMatches;
    CopiesText(['['], c + ([']', '('] + (good + [')'])), {}, s => s);
    EmptyHasNoUrl();
    assert LinkText(c, good) == ['['] + (c + ([']', '('] + (good + [')'])));
    MatchesSplit(c, [']', '('] + (good + [')']));
    CopiesText([']', '('], good + [')'], {}, s => s);
    MatchesSplit(good, [')']);
    CopiesText([')'], [], {}, s => s);
    assert [')'] + [] == [')'];
  }

  predicate HeadClear(s: string) { s == [] || !IsUrlChar(s[0]) }

  predicate TailClear(s: string) { s == [] || !IsUrlChar(s[|s| - 1]) }

  lemma ReadInParts(g: string, r: string, m: string)
    requires TailClear(g) && HeadClear(m)
    ensures TrimAll(UrlMatches(g + r + m))
         == TrimAll(UrlMatches(g)) + (TrimAll(UrlMatches(r)) + TrimAll(UrlMatches(m)))
  {
    Assoc(g, r, m);
    MatchesSplit(g, r + m);
    MatchesSplit(r, m);
    TrimAllConcat(UrlMatches(g), UrlMatches(r) + UrlMatches(m));
    TrimAllConcat(UrlMatches(r), UrlMatches(m));
  }

  lemma {:induction false} MergedHeadClear(d: Doc, known: set<string>, lower: Lower)
    requires Fenced(d, false)
    ensures HeadClear(Merged(d, known, lower))
  {
    RewriteKeepsHead(d.gap, known, lower);
  }

  lemma {:induction false} MergedReads(d: Doc, first: bool, known: set<string>, lower: Lower)
    requires Fenced(d, first) && ShapedLedger(known)
    ensures TrimAll(UrlMatches(Merged(d, known, lower))) == Survivors(d, known, lower)
  {
    RewrittenGap(d.gap, known, lower);
    if d.Linked? {
      MergedReads(d.rest, false, known, lower);
      MergedHeadClear(d.rest, known, lower);
      ReplacedLinkReads(d.caption, d.target, known, lower);
      if d.gap != [] { RewriteKeepsLast(d.gap, known, lower); }
      ReadInParts(RewriteBare(d.gap, known, lower),
                  LinkReplacement(d.caption, d.target, known, lower),
                  Merged(d.rest, known, lower));
    }
  }

  lemma {:induction false} SurvivorsAreRecorded(urls: seq<string>, known: set<string>, lower: Lower)
    ensures forall u | u in GapSurvivors(urls, known, lower) :: u in known
  {
    if urls != [] {
      SurvivorsAreRecorded(urls[1..], known, lower);
      ResolveStaysInLedger(NormalizeRaw(urls[0]), known, lower);
    }
  }

  lemma {:induction false} AllSurvivorsAreRecorded(d: Doc, known: set<string>, lower: Lower)
    ensures forall u | u in Survivors(d, known, lower) :: u in known
  {
    SurvivorsAreRecorded(UrlMatches(d.gap), known, lower);
    if d.Linked? {
      AllSurvivorsAreRecorded(d.rest, known, lower);
      ResolveStaysInLedger(NormalizeRaw(d.target), known, lower);
    }
  }

  /** Link safety: read back from the output, the URLs are exactly the resolutions of the links
      of the input, in order, and every one of them was recorded. */
  lemma OutputHoldsOnlyRecordedUrls(text: string, known: set<string>, lower: Lower)
    requires NulFree(text) && NulFreeLedger(known) && ShapedLedger(known)
    requires Fenced(Parse(text), true)
    ensures TrimAll(UrlMatches(Enforced(text, known, lower).output)) == Survivors(Parse(text), known, lower)
    ensures forall m | m in UrlMatches(Enforced(text, known, lower).output) :: TrimPunct(m) in known
  {
    FencedIsSeparated(text);
    SeparatedIsMerged(text, known, lower);
    MergedReads(Parse(text), true, known, lower);
    AllSurvivorsAreRecorded(Parse(text), known, lower);
    TrimAllMembers(UrlMatches(Enforced(text, known, lower).output));
  }

  lemma {:induction false} TrimAllMembers(urls: seq<string>)
    ensures forall u | u in urls :: TrimPunct(u) in TrimAll(urls)
  {
    if urls != [] { TrimAllMembers(urls[1..]); }
  }
}
