/** When a second run of `enforce` changes nothing: what the brackets between the links of a text
    come to once its unrecorded links are dropped. */
module LinkReopening {
  import opened Text
  import opened LinkResolver
  import opened LinkEnforcer
  import opened LinkSlots
  import opened LinkPlaceholders
  import opened LinkMerging
  import opened LinkSafety
  import opened LinkIdentity
  import opened LinkBrackets

  // ----- a text whose URLs are all recorded ----------------------------------------------------------

  lemma NulEndsScheme(g: string, x: string)
    requires x != [] && x[0] == NUL
    ensures SchemeLen(g + x) == SchemeLen(g)
  {
    SchemeInside(g, x);
    assert (g + x)[|g|] == NUL;
  }

  /** A gap without URL text at its end is read the same before a placeholder. */
  lemma {:induction false} FreeGapMatches(g: string, x: string, glued: bool)
    requires !EndsUrl(g, glued) && x != [] && x[0] == NUL
    ensures UrlMatches(g + x) == UrlMatches(g) + UrlMatches(x)
    decreases |g|
  {
    hide SchemeLen, UrlLen, UrlRun;
    if g == [] {
      assert g + x == x;
    } else if UrlRun(g) > 0 {
      var n := UrlRun(g);
      UrlRunFacts(g);
      CutAt(g, n);
      CutBoth(g, x, n);
      hide UrlMatches;
      FreeGapMatches(g[n..], x, true);
      Assoc(g[..n], g[n..], x);
      MatchesSplit(g[..n], g[n..]);
      MatchesSplit(g[..n], g[n..] + x);
      Assoc(UrlMatches(g[..n]), UrlMatches(g[n..]), UrlMatches(x));
    } else {
      NulEndsScheme(g, x);
      UrlRunFacts(g);
      UrlRunFacts(g + x);
      UrlLenIsRun(g);
      UrlLenIsRun(g + x);
      assert (g + x)[1..] == g[1..] + x;
      FreeGapMatches(g[1..], x, false);
    }
  }

  predicate HoldsNul(urls: seq<string>) { exists m :: m in urls && NUL in m }

  lemma NulUrl(g: string, x: string)
    requires UrlRun(g) == |g| > 0 && x != [] && x[0] == NUL
    ensures HoldsNul(UrlMatches(g + x))
  {
    hide UrlMatches, UrlLen, RunLen, SchemeLen;
    NulEndsScheme(g, x);
    UrlRunFacts(g);
    assert g[..|g|] == g;
    RunSplit(g, x, IsUrlChar);
    NulRuns(x);
    UrlLenIsRun(g + x);
    var n := UrlLen(g + x);
    assert n > |g|;
    var m := (g + x)[..n];
    assert m[|g|] == NUL;
    MatchStep(g + x);
    assert UrlMatches(g + x)[0] == m;
    assert m in UrlMatches(g + x);
  }

  lemma NulRuns(x: string)
    requires x != [] && x[0] == NUL
    ensures RunLen(x, IsUrlChar) > 0
  {
  }

  /** URL text right before a placeholder runs into it. */
  lemma {:induction false} StuckGapMatches(g: string, x: string, glued: bool)
    requires g != [] && EndsUrl(g, glued) && x != [] && x[0] == NUL
    ensures HoldsNul(UrlMatches(g + x))
    decreases |g|
  {
    hide SchemeLen, UrlLen, UrlRun;
    var n := UrlRun(g);
    UrlRunFacts(g);
    if n == |g| {
      NulUrl(g, x);
    } else if n > 0 {
      CutAt(g, n);
      Assoc(g[..n], g[n..], x);
      MatchesSplit(g[..n], g[n..] + x);
      StuckGapMatches(g[n..], x, true);
      var m :| m in UrlMatches(g[n..] + x) && NUL in m;
      assert m in UrlMatches(g + x);
    } else {
      NulEndsScheme(g, x);
      UrlRunFacts(g + x);
      UrlLenIsRun(g + x);
      assert (g + x)[1..] == g[1..] + x;
      StuckGapMatches(g[1..], x, false);
    }
  }

  /** No link of the document directly follows URL text. */
  predicate LinksAreFree(d: Doc) {
    d.Linked? ==> !EndsUrl(d.gap, false) && LinksAreFree(d.rest)
  }

  lemma {:induction false} FreeSlots(d: Doc, i: nat)
    requires LinksAreFree(d)
    ensures UrlMatches(WithSlots(d, i)) == GapUrls(d)
    decreases d
  {
    hide EndsUrl, UrlMatches;
    if d.Linked? {
      WithSlotsStep(d, i);
      SlotTextIsUrlText(i);
      CopiesText(SlotText(i), WithSlots(d.rest, i + 1), {}, s => s);
      FreeGapMatches(d.gap, SlotText(i) + WithSlots(d.rest, i + 1), false);
      FreeSlots(d.rest, i + 1);
    }
  }

  lemma {:induction false} StuckSlots(d: Doc, i: nat)
    requires !LinksAreFree(d)
    ensures HoldsNul(UrlMatches(WithSlots(d, i)))
    decreases d
  {
    hide UrlMatches;
    var later := SlotText(i) + WithSlots(d.rest, i + 1);
    WithSlotsStep(d, i);
    if EndsUrl(d.gap, false) {
      StuckGapMatches(d.gap, later, false);
    } else {
      SlotTextIsUrlText(i);
      CopiesText(SlotText(i), WithSlots(d.rest, i + 1), {}, s => s);
      FreeGapMatches(d.gap, later, false);
      StuckSlots(d.rest, i + 1);
      var m :| m in UrlMatches(WithSlots(d.rest, i + 1)) && NUL in m;
      assert m in UrlMatches(WithSlots(d, i));
    }
  }

  /** The bare URLs between links are among the URLs of the text. */
  lemma {:induction false} GapUrlsAreRead(d: Doc)
    ensures forall m | m in GapUrls(d) :: m in UrlMatches(Unparse(d))
  {
    hide UrlMatches;
    if d.Linked? {
      GapUrlsAreRead(d.rest);
      var l, u := LinkText(d.caption, d.target), Unparse(d.rest);
      Assoc(d.gap, l, u);
      MatchesSplit(d.gap, l + u);
      MatchesSplit(l, u);
    }
  }

  lemma {:induction false} NoAmpDecodes(s: string)
    requires !Contains(s, "&amp;")
    ensures DecodeAmp(s) == s
  {
    if s != [] {
      NoAmpDecodes(s[1..]);
      assert s == [s[0]] + s[1..];
    }
  }

  ghost predicate AmpFreeLedger(known: set<string>) {
    forall k | k in known :: !Contains(k, "&amp;")
  }

  lemma NormalizeRecorded(m: string, known: set<string>)
    requires AmpFreeLedger(known) && TrimPunct(m) in known
    ensures RecordedAsWritten(m, TrimPunct(m), known)
  {
    NoAmpDecodes(TrimPunct(m));
  }

  lemma {:induction false} RecordedLinks(d: Doc, known: set<string>)
    ensures LinksAreRecorded(d, false, known) <==> LinksAreFree(d) && forall t | t in Targets(d) :: t in known
  {
    hide EndsUrl;
    if d.Linked? {
      RecordedLinks(d.rest, known);
      assert forall t :: t in Targets(d) <==> t == d.target || t in Targets(d.rest);
    }
  }

  /** Where every URL is recorded, all links are as written exactly when every Markdown link has a
      recorded target and no URL text before it. */
  lemma AsWrittenIff(text: string, known: set<string>)
    requires NulFree(text) && NulFreeLedger(known) && ShapedLedger(known) && AmpFreeLedger(known)
    requires forall m | m in UrlMatches(text) :: TrimPunct(m) in known
    ensures AsWritten(text, known) <==> LinksAreRecorded(Parse(text), false, known)
  {
    hide UrlMatches, Parse, EndsUrl;
    var d := Parse(text);
    RecordedLinks(d, known);
    UnparseParse(text);
    if AsWritten(text, known) { RecordedIsSeparated(text, known); }
    if LinksAreRecorded(d, false, known) {
      FreeSlots(d, 0);
      GapUrlsAreRead(d);
      forall t | t in Targets(d) ensures RecordedAsWritten(t, t, known) {
        assert RecordedShape(t);
        assert TrimPunct(t) == t;
        NormalizeRecorded(t, known);
      }
      forall m | m in UrlMatches(WithSlots(d, 0)) ensures RecordedAsWritten(m, TrimPunct(m), known) {
        NormalizeRecorded(m, known);
      }
    } else if !LinksAreFree(d) {
      StuckSlots(d, 0);
      var m :| m in UrlMatches(WithSlots(d, 0)) && NUL in m;
      assert !Separated(text);
    }
  }

  // ----- brackets between the links of a text ---------------------------------------------------------

  /** Something of URL text is left when it is rewritten. */
  ghost predicate Stays(raw: string, known: set<string>, lower: Lower) {
    UrlLen(raw) == 0 || Resolve(NormalizeRaw(raw), known, lower).Some?
  }

  /** Where the pass stands after a gap whose URLs are rewritten. */
  ghost function GapState(g: string, st: State, known: set<string>, lower: Lower): State
    decreases |g|
  {
    if g == [] then st
    else if UrlRun(g) > 0 then
      GapState(g[UrlRun(g)..], State(st.bracket, Stays(g[..UrlRun(g)], known, lower)), known, lower)
    else GapState(g[1..], Next(g[0], st), known, lower)
  }

  /** Every `]` of a gap is harmless before the rewritten rest of the gap and the text `x`. */
  ghost predicate GapQuiet(g: string, x: string, st: State, known: set<string>, lower: Lower)
    decreases |g|
  {
    g == [] ||
    if UrlRun(g) > 0 then
      GapQuiet(g[UrlRun(g)..], x, State(st.bracket, Stays(g[..UrlRun(g)], known, lower)), known, lower)
    else
      && (g[0] == ']' ==> Harmless(st.bracket, RewriteBare(g[1..], known, lower) + x, known))
      && GapQuiet(g[1..], x, Next(g[0], st), known, lower)
  }

  /** The text up to the first character that ends a target. */
  function UpToEnd(s: string): string {
    if RunLen(s, IsTargetChar) < |s| then s[..RunLen(s, IsTargetChar) + 1] else s
  }

  /** What becomes of the text behind a gap, up to the first character that ends a target. */
  ghost function Ahead(d: Doc, known: set<string>, lower: Lower): string {
    if d.Tail? then []
    else match Resolve(NormalizeRaw(d.target), known, lower)
      case Some(good) => UpToEnd(LinkText(d.caption, good))
      case None =>
        var s := d.caption + RewriteBare(d.rest.gap, known, lower);
        if RunLen(s, IsTargetChar) < |s| then UpToEnd(s) else s + Ahead(d.rest, known, lower)
  }

  /** Once the unrecorded links are dropped, no `]` between the links of a text ends a link other than
      a recorded one with no URL text right before it, and no recorded link comes to stand on a line
      whose first unclosed `[` before it directly follows URL text. */
  ghost predicate NoReopening(d: Doc, st: State, known: set<string>, lower: Lower) {
    && GapQuiet(d.gap, Ahead(d, known, lower), st, known, lower)
    && (d.Linked? ==>
      var after := GapState(d.gap, st, known, lower);
      match Resolve(NormalizeRaw(d.target), known, lower)
      case Some(good) => (after.bracket.Stuck? ==> !HasBody(good)) && NoReopening(d.rest, START, known, lower)
      case None => NoReopening(d.rest, GapState(d.caption, after, known, lower), known, lower))
  }

  // ----- how far a bracket looks ahead -------------------------------------------------------------------

  /** What becomes of the whole text behind a gap. */
  ghost function Following(d: Doc, known: set<string>, lower: Lower): string {
    if d.Tail? then []
    else LinkReplacement(d.caption, d.target, known, lower) + Merged(d.rest, known, lower)
  }

  /** `a` is as much of `s` as a target at its start needs. */
  predicate Shows(a: string, s: string) {
    a <= s && (a == s || RunLen(a, IsTargetChar) < |a|)
  }

  lemma UpToEndShows(s: string, x: string)
    requires RunLen(s, IsTargetChar) < |s|
    ensures Shows(UpToEnd(s), s + x)
  {
    var a := UpToEnd(s);
    CutAt(s, |a|);
    Assoc(a, s[|a|..], x);
    RunPrefix(a, s[|a|..], IsTargetChar);
  }

  lemma ShowsBehind(r: string, a: string, s: string)
    requires Shows(a, s)
    ensures Shows(r + a, r + s)
  {
    var k := RunLen(a, IsTargetChar);
    assert k < |a| ==> (r + a)[|r| + k] == a[k];
  }

  /** The target of a link is read from what is shown. */
  lemma ShownTarget(a: string, s: string)
    requires Shows(a, s)
    ensures LinkTarget(a) == LinkTarget(s)
  {
    if a != s {
      var z := s[|a|..];
      assert a[0] == s[0] && s == a + z;
      assert s[1..] == a[1..] + z;
      if s[0] == '(' { TargetShown(a[1..], z); }
    }
  }

  lemma TargetShown(t: string, z: string)
    requires RunLen(t, IsTargetChar) < |t|
    ensures TargetAt(t + z) == TargetAt(t)
  {
    hide RunLen, SchemeLen;
    RunPrefix(t, z, IsTargetChar);
    SchemeShown(t, z);
    var k := RunLen(t, IsTargetChar);
    assert (t + z)[..k] == t[..k];
  }

  lemma SchemeShown(t: string, z: string)
    requires RunLen(t, IsTargetChar) < |t|
    ensures SchemeLen(t + z) == SchemeLen(t)
  {
    var k := RunLen(t, IsTargetChar);
    assert (t + z)[k] == t[k];
    SchemeTarget(t + z, k);
    SchemeInside(t, z);
  }

  lemma SchemeTarget(s: string, k: nat)
    requires k < |s| && !IsTargetChar(s[k])
    ensures SchemeLen(s) <= k
  {
  }

  lemma {:induction false} AheadShows(d: Doc, known: set<string>, lower: Lower)
    ensures Shows(Ahead(d, known, lower), Following(d, known, lower))
  {
    hide RunLen, Resolve, NormalizeRaw, RewriteBare, Shows, UpToEnd;
    assert Shows([], []) by { NothingShown(); }
    if d.Linked? {
      var m := Merged(d.rest, known, lower);
      match Resolve(NormalizeRaw(d.target), known, lower) {
        case Some(good) =>
          LinkEnds(d.caption, good);
          UpToEndShows(LinkText(d.caption, good), m);
        case None =>
          var g := RewriteBare(d.rest.gap, known, lower);
          var s := d.caption + g;
          MergedIsGap(d.rest, known, lower);
          Assoc(d.caption, g, Following(d.rest, known, lower));
          if RunLen(s, IsTargetChar) < |s| {
            UpToEndShows(s, Following(d.rest, known, lower));
          } else {
            AheadShows(d.rest, known, lower);
            ShowsBehind(s, Ahead(d.rest, known, lower), Following(d.rest, known, lower));
          }
      }
    }
  }

  lemma NothingShown()
    ensures Shows([], [])
  {
  }

  lemma MergedIsGap(d: Doc, known: set<string>, lower: Lower)
    ensures Merged(d, known, lower) == RewriteBare(d.gap, known, lower) + Following(d, known, lower)
  {
    hide RewriteBare, LinkReplacement;
    var g := RewriteBare(d.gap, known, lower);
    assert g + [] == g;
    if d.Linked? {
      Assoc(g, LinkReplacement(d.caption, d.target, known, lower), Merged(d.rest, known, lower));
    }
  }

  lemma LinkEnds(c: string, good: string)
    ensures RunLen(LinkText(c, good), IsTargetChar) < |LinkText(c, good)|
  {
    var s := LinkText(c, good);
    assert !IsTargetChar(s[|s| - 1]);
  }

  /** A `]` of a gap needs no more of the text behind the gap than is shown. */
  lemma {:induction false} ShownIsEnough(g: string, a: string, x: string, st: State, known: set<string>, lower: Lower)
    requires Shows(a, x)
    ensures GapQuiet(g, a, st, known, lower) <==> GapQuiet(g, x, st, known, lower)
    decreases |g|
  {
    hide UrlRun, Shows, LinkTarget, RewriteBare, Stays;
    if g != [] {
      var n := UrlRun(g);
      if n > 0 {
        ShownIsEnough(g[n..], a, x, State(st.bracket, Stays(g[..n], known, lower)), known, lower);
      } else {
        var r := RewriteBare(g[1..], known, lower);
        ShowsBehind(r, a, x);
        ShownTarget(r + a, r + x);
        ShownIsEnough(g[1..], a, x, Next(g[0], st), known, lower);
      }
    }
  }

  // ----- a rewritten gap -------------------------------------------------------------------------------

  lemma {:induction false} NoSchemeInside(w: string, y: string, st: State, known: set<string>)
    requires UrlText(w) && 'h' !in w && HeadClear(y)
    ensures Quiet(w + y, st, known) <==> Quiet(y, if w == [] then st else State(st.bracket, false), known)
  {
    if w == [] {
      assert w + y == y;
    } else {
      assert w[0] in w && (w + y)[1..] == w[1..] + y;
      NoSchemeInside(w[1..], y, State(st.bracket, false), known);
    }
  }

  /** Rewritten URL text. */
  lemma QuietRewrittenUrl(raw: string, y: string, st: State, known: set<string>, lower: Lower)
    requires UrlRun(raw) == |raw| > 0 && HeadClear(y) && ShapedLedger(known) && !st.glued
    ensures Quiet(RewriteBare(raw, known, lower) + y, st, known)
       <==> Quiet(y, State(st.bracket, Stays(raw, known, lower)), known)
  {
    hide Resolve, NormalizeRaw, RecordedShape, UrlRun, Quiet, TrimPunct, UrlMatches;
    UrlRunFacts(raw);
    assert raw[..|raw|] == raw && raw[|raw|..] == [];
    if UrlLen(raw) == 0 {
      BareSchemeStays(raw, known, lower);
      QuietUrl(raw, y, st, known);
    } else {
      var w := BareReplacement(raw, known, lower);
      assert RewriteBare(raw, known, lower) == w + [] == w;
      SuffixIsPunct(raw);
      assert forall c | c in Suffix(raw) :: c in raw;
      match Resolve(NormalizeRaw(raw), known, lower) {
        case None => NoSchemeInside(w, y, st, known);
        case Some(good) =>
          ResolveStaysInLedger(NormalizeRaw(raw), known, lower);
          RecordedRun(good, Suffix(raw));
          QuietUrl(w, y, st, known);
      }
    }
  }

  lemma RecordedRun(good: string, suffix: string)
    requires RecordedShape(good) && UrlText(suffix)
    ensures UrlRun(good + suffix) == |good + suffix| > 0
  {
    SchemeInside(good, suffix);
    WholeRun(good + suffix, IsUrlChar);
  }

  lemma BareSchemeStays(raw: string, known: set<string>, lower: Lower)
    requires UrlRun(raw) == |raw| > 0 && UrlLen(raw) == 0
    ensures RewriteBare(raw, known, lower) == raw
  {
    hide RewriteBare, RunLen;
    UrlRunFacts(raw);
    SchemeHead(raw);
    RewriteChar(raw, known, lower);
    CopiesText(raw[1..], [], known, lower);
    EmptyGap(known, lower);
    assert raw[1..] + [] == raw[1..];
  }

  lemma SchemeHead(raw: string)
    requires SchemeLen(raw) == |raw| > 0
    ensures 'h' !in raw[1..]
  {
  }

  /** Rewriting starts no scheme where none was. */
  lemma SchemeNotMade(g: string, known: set<string>, lower: Lower)
    requires g != [] && SchemeLen(g) == 0 && ShapedLedger(known)
    ensures RewriteBare(g, known, lower) != [] && SchemeLen(RewriteBare(g, known, lower)) == 0
  {
    hide Resolve, NormalizeRaw, RecordedShape;
    UrlLenIsRun(g);
    var k := FirstUrl(g);
    var p, t := g[..k], g[k..];
    CutAt(g, k);
    SkipText(p, t, known, lower);
    if t == [] {
      NoUrlNothing(p, known, lower);
      assert p + [] == p;
    } else {
      assert p != [];
      var n := UrlLen(t);
      var raw, rest := t[..n], t[n..];
      UrlRunFacts(t);
      UrlLenIsRun(t);
      assert raw in UrlMatches(t);
      MatchesAreUrls(t);
      var x := BareReplacement(raw, known, lower);
      ReplacementShape(raw, known, lower);
      RewriteKeepsHead(rest, known, lower);
      var r := RewriteBare(rest, known, lower);
      Assoc(p, x, r);
      SchemeWithin(p + x, r);
      NoStraddle(p, x);
      SchemeInside(p, x);
      SchemeInside(p, t);
    }
  }

  lemma GapBorder(a: string, b: string, x: string)
    requires b != [] && Border(a + b, x)
    ensures Border(b, x)
  {
    assert (a + b)[|a + b| - 1] == b[|b| - 1];
  }

  /** A rewritten gap before `x`. */
  lemma {:induction false} QuietGap(g: string, x: string, st: State, known: set<string>, lower: Lower)
    requires ShapedLedger(known) && Border(g, x) && (st.glued ==> HeadClear(g))
    ensures Quiet(RewriteBare(g, known, lower) + x, st, known)
       <==> GapQuiet(g, x, st, known, lower) && Quiet(x, GapState(g, st, known, lower), known)
    decreases |g|
  {
    hide Quiet, UrlRun, SchemeLen, ShapedLedger, RewriteBare, Stays;
    if g == [] {
      EmptyGap(known, lower);
      assert [] + x == x;
    } else if UrlRun(g) > 0 {
      var n := UrlRun(g);
      var raw, rest := g[..n], g[n..];
      UrlRunFacts(g);
      UrlRunOfRun(g);
      CutAt(g, n);
      UrlBorder(raw, rest, x, known, lower);
      var r := RewriteBare(rest, known, lower);
      Assoc(RewriteBare(raw, known, lower), r, x);
      StartsUrl(g);
      QuietRewrittenUrl(raw, r + x, st, known, lower);
      QuietGap(rest, x, State(st.bracket, Stays(raw, known, lower)), known, lower);
    } else {
      var r := RewriteBare(g[1..], known, lower);
      UrlRunFacts(g);
      SchemeNotMade(g, known, lower);
      var t := RewriteBare(g, known, lower);
      RewriteChar(g, known, lower);
      RewrittenBorder(g, x, known, lower);
      SchemeWithin(t, x);
      UrlRunFacts(t + x);
      QuietAtChar(t + x, st, known);
      assert (t + x)[1..] == r + x && (t + x)[0] == g[0];
      if g[1..] != [] { assert g == [g[0]] + g[1..]; GapBorder([g[0]], g[1..], x); }
      QuietGap(g[1..], x, Next(g[0], st), known, lower);
    }
  }

  lemma EmptyGap(known: set<string>, lower: Lower)
    ensures RewriteBare([], known, lower) == []
  {
  }

  lemma RewriteChar(g: string, known: set<string>, lower: Lower)
    requires g != [] && UrlLen(g) == 0
    ensures RewriteBare(g, known, lower) == [g[0]] + RewriteBare(g[1..], known, lower)
  {
  }

  lemma StartsUrl(g: string)
    requires UrlRun(g) > 0
    ensures !HeadClear(g)
  {
  }

  lemma UrlBorder(raw: string, rest: string, x: string, known: set<string>, lower: Lower)
    requires raw != [] && UrlText(raw) && HeadClear(rest) && Border(raw + rest, x)
    ensures RewriteBare(raw + rest, known, lower) == RewriteBare(raw, known, lower) + RewriteBare(rest, known, lower)
    ensures HeadClear(RewriteBare(rest, known, lower) + x) && Border(rest, x)
  {
    hide RewriteBare;
    RewriteSplit(raw, rest, known, lower);
    RewriteKeepsHead(rest, known, lower);
    if rest == [] {
      assert raw + rest == raw && raw[|raw| - 1] in raw;
      assert RewriteBare(rest, known, lower) + x == x;
    } else {
      GapBorder(raw, rest, x);
    }
  }

  lemma RewrittenBorder(g: string, x: string, known: set<string>, lower: Lower)
    requires g != [] && Border(g, x)
    ensures HeadClear(x) || TailClear(RewriteBare(g, known, lower))
  {
    hide RewriteBare;
    if !HeadClear(x) { RewriteKeepsLast(g, known, lower); }
  }

  // ----- captions and kept links -------------------------------------------------------------------------

  predicate IsLabel(c: string) { forall ch | ch in c :: IsLabelChar(ch) }

  lemma {:induction false} CaptionQuiet(c: string, x: string, st: State, known: set<string>, lower: Lower)
    requires IsLabel(c)
    ensures GapQuiet(c, x, st, known, lower)
    decreases |c|
  {
    hide UrlRun;
    if c != [] {
      if UrlRun(c) > 0 {
        CaptionQuiet(c[UrlRun(c)..], x, State(st.bracket, Stays(c[..UrlRun(c)], known, lower)), known, lower);
      } else {
        assert c[0] in c;
        CaptionQuiet(c[1..], x, Next(c[0], st), known, lower);
      }
    }
  }

  lemma {:induction false} NoUrlIsCopied(s: string, known: set<string>, lower: Lower)
    requires UrlMatches(s) == []
    ensures RewriteBare(s, known, lower) == s
  {
    if s != [] { NoUrlIsCopied(s[1..], known, lower); }
  }

  /** A dropped link leaves its caption. */
  lemma QuietCaption(c: string, x: string, st: State, known: set<string>, lower: Lower)
    requires IsLabel(c) && UrlMatches(c) == [] && HeadClear(x) && ShapedLedger(known) && !st.glued
    ensures Quiet(c + x, st, known) <==> Quiet(x, GapState(c, st, known, lower), known)
  {
    NoUrlIsCopied(c, known, lower);
    CaptionQuiet(c, x, st, known, lower);
    QuietGap(c, x, st, known, lower);
  }

  /** A kept link. */
  lemma QuietKept(c: string, good: string, m: string, st: State, known: set<string>)
    requires IsLabel(c) && UrlMatches(c) == [] && good in known && ShapedLedger(known) && !st.glued
    ensures Quiet(LinkText(c, good) + m, st, known)
       <==> (st.bracket.Stuck? ==> !HasBody(good)) && Quiet(m, START, known)
  {
    hide Quiet, UrlMatches, MdTail, ShapedLedger, UrlRun, RecordedShape, GapState, TargetAt, SchemeLen, WellFormedLink;
    var l := MdLink(c, good);
    var s := LinkText(c, good) + m;
    LinkFromInside(l, m);
    UrlRunFacts(s);
    QuietAtChar(s, st, known);
    var inside := Next('[', st);
    assert RecordedShape(good) by { ShapeOfRecorded(good, known); }
    if HasBody(good) {
      KeptIsLink(c, good);
      MdTailFinds(l, m);
      QuietTail(s[1..], inside, l, known);
      assert s[1..][|TailText(l)|..] == m;
    } else {
      BodylessIsNoLink(c, good, m);
      QuietWithoutTail(s[1..], inside, START, known);
      var y := [']'] + (['('] + (good + ([')'] + m)));
      assert s[1..] == c + y;
      QuietCaption(c, y, START, known, s => s);
      BodylessQuiet(good, m, GapState(c, START, known, s => s), known);
    }
  }

  lemma KeptIsLink(c: string, good: string)
    requires IsLabel(c) && RecordedShape(good) && HasBody(good)
    ensures WellFormedLink(MdLink(c, good))
  {
    assert forall ch | IsUrlChar(ch) :: IsTargetChar(ch);
  }

  lemma ShapeOfRecorded(good: string, known: set<string>)
    requires good in known && ShapedLedger(known)
    ensures RecordedShape(good)
  {
  }

  lemma LinkFromInside(l: MdLink, m: string)
    ensures var s := LinkText(l.caption, l.target) + m;
      s != [] && s[0] == '[' && SchemeLen(s) == 0 && s[1..] == TailText(l) + m
  {
  }

  /** `[c](http://)` is not a Markdown link. */
  lemma BodylessIsNoLink(c: string, good: string, m: string)
    requires RecordedShape(good) && !HasBody(good) && IsLabel(c)
    ensures MdTail(TailText(MdLink(c, good)) + m) == None
  {
    var u := [']', '('] + (good + [')']) + m;
    assert TailText(MdLink(c, good)) + m == c + u;
    MdTailSkips(c, u);
    assert u[2..] == good + ([')'] + m);
    BodylessTarget(good, m);
  }

  lemma BodylessTarget(good: string, m: string)
    requires RecordedShape(good) && !HasBody(good)
    ensures TargetAt(good + ([')'] + m)) == None
  {
    RunSplit(good, [')'] + m, IsTargetChar);
    SchemeInside(good, [')'] + m);
  }

  /** A character no scheme starts with. */
  lemma QuietPast(c: char, rest: string, st: State, known: set<string>)
    requires c != 'h' && (c == ']' ==> LinkTarget(rest) == None)
    ensures Quiet([c] + rest, st, known) <==> Quiet(rest, Next(c, st), known)
  {
    hide LinkTarget;
    assert ([c] + rest)[1..] == rest;
  }

  lemma BodylessQuiet(good: string, m: string, st: State, known: set<string>)
    requires RecordedShape(good) && !HasBody(good)
    ensures Quiet([']'] + (['('] + (good + ([')'] + m))), st, known) <==> Quiet(m, START, known)
  {
    hide Quiet, TargetAt, RunLen, UrlRun;
    var y := [')'] + m;
    var p := ['('] + (good + y);
    assert p[1..] == good + y;
    BodylessTarget(good, m);
    QuietPast(']', p, st, known);
    QuietPast('(', good + y, START, known);
    RecordedRun(good, []);
    assert good + [] == good;
    QuietUrl(good, y, START, known);
    QuietPast(')', m, State(Shut, true), known);
  }
}
