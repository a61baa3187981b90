/** Running `enforce` on its own output. */
module LinkIdempotence {
  import opened Text
  import opened LinkResolver
  import opened LinkEnforcer
  import opened LinkMerging
  import opened LinkPlaceholders
  import opened LinkSlots
  import opened LinkSafety
  import opened LinkIdentity
  import opened LinkBrackets
  import opened LinkReopening

  predicate LabelCaptions(d: Doc) {
    d.Linked? ==> IsLabel(d.caption) && LabelCaptions(d.rest)
  }

  lemma {:induction false} ParsedCaptions(s: string)
    ensures LabelCaptions(Parse(s))
    decreases |s|
  {
    hide MdTail;
    if MdAt(s).Some? {
      var m := MdAt(s).value;
      MdAtReads(s, m);
      ParsedCaptions(s[|m.caption| + |m.target| + 4..]);
    } else if s != [] {
      ParsedCaptions(s[1..]);
    }
  }

  lemma {:induction false} NotGlued(g: string, st: State, known: set<string>, lower: Lower)
    requires TailClear(g) && (g == [] ==> !st.glued)
    ensures !GapState(g, st, known, lower).glued
    decreases |g|
  {
    hide UrlRun, Stays;
    if g != [] {
      var n := UrlRun(g);
      UrlRunFacts(g);
      if n > 0 {
        assert g[n - 1] == g[..n][n - 1];
        NotGlued(g[n..], State(st.bracket, Stays(g[..n], known, lower)), known, lower);
      } else {
        NotGlued(g[1..], Next(g[0], st), known, lower);
      }
    }
  }

  /** One pass over the brackets of the text that remains is quiet exactly when nothing is reopened
      between the links of the text. */
  lemma {:induction false} QuietMerged(d: Doc, first: bool, st: State, known: set<string>, lower: Lower)
    requires Fenced(d, first) && LabelCaptions(d) && ShapedLedger(known)
    requires if first then !st.glued else true
    ensures Quiet(Merged(d, known, lower), st, known) <==> NoReopening(d, st, known, lower)
  {
    hide Quiet, GapQuiet, GapState, ShapedLedger, RewriteBare, UrlMatches, HasBody, IsLabel, Ahead, Shows;
    var g := RewriteBare(d.gap, known, lower);
    var x := Following(d, known, lower);
    AheadShows(d, known, lower);
    ShownIsEnough(d.gap, Ahead(d, known, lower), x, st, known, lower);
    QuietGap(d.gap, x, st, known, lower);
    var after := GapState(d.gap, st, known, lower);
    if d.Tail? {
      assert g + [] == g;
      NothingIsQuiet(after, known);
    } else {
      var m := Merged(d.rest, known, lower);
      Assoc(g, LinkReplacement(d.caption, d.target, known, lower), m);
      NotGlued(d.gap, st, known, lower);
      MergedHeadClear(d.rest, known, lower);
      match Resolve(NormalizeRaw(d.target), known, lower) {
        case Some(good) =>
          ResolveStaysInLedger(NormalizeRaw(d.target), known, lower);
          QuietKept(d.caption, good, m, after, known);
          QuietMerged(d.rest, false, START, known, lower);
        case None =>
          QuietCaption(d.caption, m, after, known, lower);
          QuietMerged(d.rest, false, GapState(d.caption, after, known, lower), known, lower);
      }
    }
  }

  lemma NothingIsQuiet(st: State, known: set<string>)
    ensures Quiet([], st, known)
  {
  }

  /** On any text: a second run changes and reports nothing exactly when every link of the first
      output is recorded as it is written there. */
  lemma SecondRunChangesNothingIff(text: string, known: set<string>, lower: Lower)
    requires NulFree(text) && NulFreeLedger(known)
    ensures var out := Enforced(text, known, lower).output;
      Enforced(out, known, lower) == LinkCheck(out, [], []) <==> AsWritten(out, known)
  {
    hide Enforced, AsWritten;
    RestorationIsTotal(text, known, lower);
    IdentityExactly(Enforced(text, known, lower).output, known, lower);
  }

  /** On fenced text: a second run changes and reports nothing exactly when, once the unrecorded
      links are dropped, no `]` between the links ends a link other than a recorded one with no URL
      text right before it, and no recorded link stands on a line whose first unclosed `[` before it
      directly follows URL text. */
  lemma EnforceIsIdempotentIff(text: string, known: set<string>, lower: Lower)
    requires NulFree(text) && NulFreeLedger(known) && ShapedLedger(known) && AmpFreeLedger(known)
    requires Fenced(Parse(text), true)
    ensures var out := Enforced(text, known, lower).output;
      Enforced(out, known, lower) == LinkCheck(out, [], []) <==> NoReopening(Parse(text), START, known, lower)
  {
    hide Enforced, AsWritten, Parse, Quiet, UrlMatches, Fenced, NoReopening, ShapedLedger, LinksAreRecorded;
    var d := Parse(text);
    var out := Enforced(text, known, lower).output;
    FencedIsSeparated(text);
    SeparatedIsMerged(text, known, lower);
    RestorationIsTotal(text, known, lower);
    OutputHoldsOnlyRecordedUrls(text, known, lower);
    ParsedCaptions(text);
    SecondRunChangesNothingIff(text, known, lower);
    AsWrittenIff(out, known);
    QuietReadsLinks(out, false, known);
    QuietMerged(d, true, START, known, lower);
  }

  // ----- texts with harmless brackets ---------------------------------------------------------------------

  /** In a gap every `]` is followed by a character that neither is `(` nor starts URL text, and no
      `[` directly follows a URL character. */
  predicate TameGap(g: string) {
    forall i | 0 <= i < |g| ::
      && (g[i] == ']' ==> i + 1 < |g| && g[i + 1] != '(' && UrlRun(g[i + 1..]) == 0)
      && (g[i] == '[' && i > 0 ==> !IsUrlChar(g[i - 1]))
  }

  /** Captions without `[` and tame gaps, none but the first starting with `[`. */
  predicate Tame(d: Doc, first: bool) {
    && TameGap(d.gap) && (first || d.gap == [] || d.gap[0] != '[')
    && (d.Linked? ==> '[' !in d.caption && Tame(d.rest, false))
  }

  lemma TameSuffix(g: string, n: nat)
    requires TameGap(g) && n <= |g|
    ensures TameGap(g[n..])
  {
    var t := g[n..];
    forall i | 0 <= i < |t|
      ensures t[i] == ']' ==> i + 1 < |t| && t[i + 1] != '(' && UrlRun(t[i + 1..]) == 0
      ensures t[i] == '[' && i > 0 ==> !IsUrlChar(t[i - 1])
    {
      assert t[i] == g[n + i];
      if t[i] == ']' { assert t[i + 1..] == g[n + i + 1..]; }
    }
  }

  lemma {:induction false} TameIsQuiet(g: string, x: string, st: State, known: set<string>, lower: Lower)
    requires TameGap(g) && !st.bracket.Stuck? && (st.glued ==> g == [] || g[0] != '[')
    ensures GapQuiet(g, x, st, known, lower) && !GapState(g, st, known, lower).bracket.Stuck?
    decreases |g|
  {
    hide UrlRun, Stays, TameGap, RewriteBare;
    if g != [] {
      var n := UrlRun(g);
      UrlRunFacts(g);
      if n > 0 {
        TameSuffix(g, n);
        if n < |g| { TameBehindUrl(g, n); }
        TameIsQuiet(g[n..], x, State(st.bracket, Stays(g[..n], known, lower)), known, lower);
      } else {
        TameSuffix(g, 1);
        if g[0] == ']' { TameBracket(g, x, st.bracket, known, lower); }
        TameIsQuiet(g[1..], x, Next(g[0], st), known, lower);
      }
    }
  }

  lemma TameBehindUrl(g: string, n: nat)
    requires TameGap(g) && 0 < n < |g| && UrlText(g[..n])
    ensures g[n] != '['
  {
    assert g[n - 1] == g[..n][n - 1];
  }

  lemma TameBracket(g: string, x: string, b: Bracket, known: set<string>, lower: Lower)
    requires TameGap(g) && g != [] && g[0] == ']'
    ensures Harmless(b, RewriteBare(g[1..], known, lower) + x, known)
  {
    hide UrlRun;
    UrlRunFacts(g[1..]);
    RewriteChar(g[1..], known, lower);
  }

  lemma {:induction false} PlainCaption(c: string, st: State, known: set<string>, lower: Lower)
    requires '[' !in c && !st.bracket.Stuck?
    ensures !GapState(c, st, known, lower).bracket.Stuck?
    decreases |c|
  {
    hide UrlRun, Stays;
    if c != [] {
      assert c[0] in c;
      if UrlRun(c) > 0 {
        PlainCaption(c[UrlRun(c)..], State(st.bracket, Stays(c[..UrlRun(c)], known, lower)), known, lower);
      } else {
        PlainCaption(c[1..], Next(c[0], st), known, lower);
      }
    }
  }

  lemma {:induction false} TameReopensNothing(d: Doc, first: bool, st: State, known: set<string>, lower: Lower)
    requires Tame(d, first) && !st.bracket.Stuck? && (first ==> !st.glued)
    ensures NoReopening(d, st, known, lower)
  {
    hide GapQuiet, GapState, TameGap, Ahead;
    TameIsQuiet(d.gap, Ahead(d, known, lower), st, known, lower);
    if d.Linked? {
      var after := GapState(d.gap, st, known, lower);
      if Resolve(NormalizeRaw(d.target), known, lower).Some? {
        TameReopensNothing(d.rest, false, START, known, lower);
      } else {
        PlainCaption(d.caption, after, known, lower);
        TameReopensNothing(d.rest, false, GapState(d.caption, after, known, lower), known, lower);
      }
    }
  }

  /** Fenced text with tame brackets: running `enforce` on its own output changes nothing and
      reports nothing. */
  lemma EnforceIsIdempotent(text: string, known: set<string>, lower: Lower)
    requires NulFree(text) && NulFreeLedger(known) && ShapedLedger(known) && AmpFreeLedger(known)
    requires Fenced(Parse(text), true) && Tame(Parse(text), true)
    ensures var out := Enforced(text, known, lower).output;
      Enforced(out, known, lower) == LinkCheck(out, [], [])
  {
    hide Enforced, Parse, NoReopening;
    TameReopensNothing(Parse(text), true, START, known, lower);
    EnforceIsIdempotentIff(text, known, lower);
  }
}
