/** Markdown links and the brackets of a text: which links a second run of `enforce` reads, told by
    one pass over the brackets. */
module LinkBrackets {
  import opened Text
  import opened LinkResolver
  import opened LinkEnforcer
  import opened LinkMerging
  import opened LinkSafety

  // ----- parsing past text -----------------------------------------------------------------------

  predicate Terminates(c: char) { c == ']' || c == '\n' }

  predicate UrlText(x: string) { forall c | c in x :: IsUrlChar(c) }

  /** Text without `]` and newlines belongs to the caption. */
  lemma {:induction false} MdTailSkips(a: string, b: string)
    requires forall c | c in a :: !Terminates(c)
    ensures MdTail(a + b) == match MdTail(b) case Some(m) => Some(MdLink(a + m.caption, m.target)) case None => None
  {
    if a == [] {
      assert a + b == b;
      if MdTail(b).Some? { assert a + MdTail(b).value.caption == MdTail(b).value.caption; }
    } else {
      assert a[0] in a && (a + b)[1..] == a[1..] + b;
      MdTailSkips(a[1..], b);
      if MdTail(b).Some? { assert a + MdTail(b).value.caption == [a[0]] + (a[1..] + MdTail(b).value.caption); }
    }
  }

  lemma PrependTwice(a: string, b: string, d: Doc)
    ensures Prepend(a, Prepend(b, d)) == Prepend(a + b, d)
  {
    Assoc(a, b, d.gap);
  }

  lemma {:induction false} ParseUnbracketed(a: string, x: string)
    requires '[' !in a
    ensures Parse(a + x) == Prepend(a, Parse(x))
  {
    if a == [] {
      assert a + x == x;
    } else {
      assert a[0] in a && (a + x)[1..] == a[1..] + x;
      ParseUnbracketed(a[1..], x);
      PrependTwice([a[0]], a[1..], Parse(x));
      assert [a[0]] + a[1..] == a;
    }
  }

  // ----- URL text -------------------------------------------------------------------------------------

  /** Length of the run of URL characters that a scheme starts, 0 without one. A bare scheme counts:
      a placeholder written behind it would make it a URL. */
  function UrlRun(s: string): (n: nat)
    ensures n <= |s|
  {
    if SchemeLen(s) == 0 then 0 else RunLen(s, IsUrlChar)
  }

  lemma UrlRunFacts(s: string)
    ensures UrlRun(s) > 0 <==> SchemeLen(s) > 0
    ensures UrlRun(s) >= SchemeLen(s)
    ensures UrlText(s[..UrlRun(s)]) && (UrlRun(s) > 0 ==> HeadClear(s[UrlRun(s)..]))
    ensures UrlLen(s) > 0 ==> UrlLen(s) == UrlRun(s)
    ensures UrlLen(s) > 0 <==> UrlRun(s) > SchemeLen(s)
  {
    UrlLenIsRun(s);
    if SchemeLen(s) > 0 {
      SchemeText(s);
      RunSplit(s[..SchemeLen(s)], s[SchemeLen(s)..], IsUrlChar);
      CutAt(s, SchemeLen(s));
    }
  }

  lemma SchemeText(s: string)
    ensures UrlText(s[..SchemeLen(s)])
  {
  }

  /** What follows a run of URL characters does not change the run, unless it goes on. */
  lemma UrlRunStays(a: string, b: string)
    requires a != [] && (HeadClear(b) || UrlRun(a) < |a|)
    requires SchemeLen(a + b) <= |a|
    ensures UrlRun(a + b) == UrlRun(a)
  {
    SchemeInside(a, b);
    RunPrefix(a, b, IsUrlChar);
    if SchemeLen(a) > 0 && RunLen(a, IsUrlChar) == |a| {
      RunSplit(a, b, IsUrlChar);
    }
  }

  /** A scheme does not reach over a character that is not a URL character. */
  lemma SchemeWithin(a: string, y: string)
    requires a != [] && (HeadClear(y) || TailClear(a))
    ensures SchemeLen(a + y) == SchemeLen(a)
  {
    SchemeInside(a, y);
    SchemeText(a + y);
    assert y != [] ==> (a + y)[|a|] == y[0];
    assert (a + y)[|a| - 1] == a[|a| - 1];
    var q := SchemeLen(a + y);
    assert forall i | 0 <= i < q :: (a + y)[i] == (a + y)[..q][i];
  }

  /** A recorded URL that goes on after its scheme: only such a one makes a Markdown link. */
  predicate HasBody(good: string) { |good| > SchemeLen(good) }

  // ----- one pass over the brackets ---------------------------------------------------------------------

  /** The first unclosed `[` of the line: none, one, or one that directly follows URL text. */
  datatype Bracket = Shut | Open | Stuck

  /** Where a pass stands: the unclosed bracket, and whether URL text was just read. */
  datatype State = State(bracket: Bracket, glued: bool)

  const START := State(Shut, false)

  /** After a character that starts no URL text. */
  function Next(c: char, st: State): State {
    State(if Terminates(c) then Shut
          else if c == '[' && st.bracket.Shut? then (if st.glued then Stuck else Open)
          else st.bracket,
          false)
  }

  /** The target of the link that a `]` before `t` would end. */
  function LinkTarget(t: string): Option<string> {
    if t != [] && t[0] == '(' then TargetAt(t[1..]) else None
  }

  /** A `]` before `t` ends no link, or one with a recorded target and no URL text before it. */
  predicate Harmless(b: Bracket, t: string, known: set<string>) {
    match LinkTarget(t)
    case None => true
    case Some(g) => b.Shut? || (b.Open? && g in known)
  }

  /** Every `]` of the text is harmless. */
  predicate Quiet(s: string, st: State, known: set<string>)
    decreases |s|
  {
    s == [] ||
    if UrlRun(s) > 0 then Quiet(s[UrlRun(s)..], State(st.bracket, true), known)
    else (s[0] == ']' ==> Harmless(st.bracket, s[1..], known)) && Quiet(s[1..], Next(s[0], st), known)
  }

  /** URL text at the end of a gap. */
  predicate EndsUrl(g: string, glued: bool)
    decreases |g|
  {
    if g == [] then glued
    else if UrlRun(g) > 0 then EndsUrl(g[UrlRun(g)..], true)
    else EndsUrl(g[1..], false)
  }

  /** Every link of the document has a recorded target and no URL text before it. */
  predicate LinksAreRecorded(d: Doc, glued: bool, known: set<string>) {
    d.Linked? ==> d.target in known && !EndsUrl(d.gap, glued) && LinksAreRecorded(d.rest, false, known)
  }

  // ----- the pass reads the links ------------------------------------------------------------------------

  lemma QuietUrl(u: string, y: string, st: State, known: set<string>)
    requires UrlRun(u) == |u| > 0 && HeadClear(y)
    ensures Quiet(u + y, st, known) <==> Quiet(y, State(st.bracket, true), known)
  {
    SchemeWithin(u, y);
    UrlRunStays(u, y);
    assert (u + y)[|u|..] == y;
  }

  /** When no link is read from here, the unclosed bracket does not matter. */
  lemma {:induction false} QuietWithoutTail(s: string, a: State, b: State, known: set<string>)
    requires MdTail(s) == None && a.glued == b.glued
    ensures Quiet(s, a, known) <==> Quiet(s, b, known)
    decreases |s|
  {
    hide SchemeLen, RunLen, TargetAt;
    if s != [] {
      var n := UrlRun(s);
      if n > 0 {
        UrlRunFacts(s);
        CutAt(s, n);
        MdTailSkips(s[..n], s[n..]);
        QuietWithoutTail(s[n..], State(a.bracket, true), State(b.bracket, true), known);
      } else if Terminates(s[0]) {
        assert s[0] == ']' ==> LinkTarget(s[1..]) == None by {
          if s[0] == ']' && |s| >= 2 && s[1] == '(' { assert s[1..][1..] == s[2..]; }
        }
      } else {
        QuietWithoutTail(s[1..], Next(s[0], a), Next(s[0], b), known);
      }
    }
  }

  /** After a recorded target the pass goes on behind it. */
  lemma QuietTarget(good: string, rest: string, known: set<string>)
    requires RecordedShape(good) && good in known
    ensures Quiet(['('] + (good + ([')'] + rest)), START, known) <==> Quiet(rest, START, known)
  {
    hide RunLen, TargetAt, UrlRun;
    var y := [')'] + rest;
    var s := ['('] + (good + y);
    assert s[1..] == good + y && y[1..] == rest;
    UrlRunOfGood(good);
    QuietUrl(good, y, START, known);
    UrlRunFacts(s);
    UrlRunFacts(y);
    QuietAtChar(s, START, known);
    QuietAtChar(y, State(Shut, true), known);
  }

  lemma UrlRunOfGood(good: string)
    requires RecordedShape(good)
    ensures UrlRun(good) == |good| > 0
  {
    WholeRun(good, IsUrlChar);
  }

  lemma QuietAtUrl(s: string, st: State, known: set<string>)
    requires UrlRun(s) > 0
    ensures Quiet(s, st, known) <==> Quiet(s[UrlRun(s)..], State(st.bracket, true), known)
  {
  }

  lemma QuietAtChar(s: string, st: State, known: set<string>)
    requires s != [] && UrlRun(s) == 0
    ensures Quiet(s, st, known)
       <==> (s[0] == ']' ==> Harmless(st.bracket, s[1..], known)) && Quiet(s[1..], Next(s[0], st), known)
  {
  }

  /** A link text read from inside its caption. */
  lemma TailFrom(s: string, m: MdLink, n: nat)
    requires MdTail(s) == Some(m) && n <= |s| && forall c | c in s[..n] :: !Terminates(c)
    ensures MdTail(s[n..]).Some?
    ensures var m' := MdTail(s[n..]).value;
      && m'.target == m.target && |TailText(m)| <= |s| && |TailText(m')| <= |s[n..]|
      && s[n..][|TailText(m')|..] == s[|TailText(m)|..]
  {
    CutAt(s, n);
    MdTailSkips(s[..n], s[n..]);
    MdTailReads(s, m);
    MdTailReads(s[n..], MdTail(s[n..]).value);
  }

  /** The text behind a `]` that ends a link. */
  lemma TargetBehind(s: string, m: MdLink)
    requires s != [] && s[0] == ']' && MdTail(s) == Some(m)
    ensures |TailText(m)| <= |s| && LinkTarget(s[1..]) == Some(m.target)
    ensures s[1..] == ['('] + (m.target + ([')'] + s[|TailText(m)|..]))
  {
    hide TargetAt, MdTail, WellFormedLink, TailText;
    MdTailReads(s, m);
    BracketTail(s, m);
    var rest := s[|TailText(m)|..];
    var p := ['('] + (m.target + ([')'] + rest));
    BareTail(m, rest);
    assert s[1..] == p;
    assert p[1..] == s[2..];
  }

  lemma BracketTail(s: string, m: MdLink)
    requires s != [] && s[0] == ']' && MdTail(s) == Some(m)
    ensures |s| >= 2 && s[1] == '(' && m.caption == [] && TargetAt(s[2..]) == Some(m.target)
  {
    hide TargetAt;
  }

  lemma BareTail(m: MdLink, rest: string)
    requires m.caption == []
    ensures TailText(m) + rest == [']'] + (['('] + (m.target + ([')'] + rest)))
  {
  }

  lemma QuietAtTarget(s: string, st: State, m: MdLink, known: set<string>)
    requires s != [] && s[0] == ']' && MdTail(s) == Some(m) && UrlRun(s) == 0
    requires !st.bracket.Shut? && ShapedLedger(known)
    ensures |TailText(m)| <= |s|
    ensures Quiet(s, st, known)
       <==> st.bracket.Open? && m.target in known && Quiet(s[|TailText(m)|..], START, known)
  {
    hide UrlRun, MdTail, RecordedShape, Quiet, LinkTarget, TailText;
    TargetBehind(s, m);
    QuietAtChar(s, st, known);
    if m.target in known { QuietTarget(m.target, s[|TailText(m)|..], known); }
  }

  /** Behind an unclosed bracket of a link: the link decides, and then what follows it. */
  lemma {:induction false} QuietTail(s: string, st: State, m: MdLink, known: set<string>)
    requires MdTail(s) == Some(m) && !st.bracket.Shut? && ShapedLedger(known)
    ensures |TailText(m)| <= |s|
    ensures Quiet(s, st, known)
       <==> st.bracket.Open? && m.target in known && Quiet(s[|TailText(m)|..], START, known)
    decreases |s|
  {
    hide SchemeLen, RunLen, TargetAt, Quiet, ShapedLedger, UrlRun, TailText;
    var n := UrlRun(s);
    if n > 0 {
      UrlRunFacts(s);
      TailFrom(s, m, n);
      QuietAtUrl(s, st, known);
      QuietTail(s[n..], State(st.bracket, true), MdTail(s[n..]).value, known);
    } else if s[0] == ']' {
      QuietAtTarget(s, st, m, known);
    } else {
      TailFrom(s, m, 1);
      QuietAtChar(s, st, known);
      QuietTail(s[1..], Next(s[0], st), MdTail(s[1..]).value, known);
    }
  }

  lemma EndsUrlSkips(u: string, g: string, glued: bool)
    requires UrlRun(u) == |u| > 0 && HeadClear(g)
    ensures EndsUrl(u + g, glued) <==> EndsUrl(g, true)
  {
    SchemeWithin(u, g);
    UrlRunStays(u, g);
    assert (u + g)[|u|..] == g;
  }

  lemma GapHeadClear(s: string)
    requires HeadClear(s)
    ensures HeadClear(Parse(s).gap)
  {
  }

  lemma RecordedPastUrl(s: string, glued: bool, known: set<string>)
    requires UrlRun(s) > 0
    ensures LinksAreRecorded(Parse(s), glued, known) <==> LinksAreRecorded(Parse(s[UrlRun(s)..]), true, known)
  {
    hide SchemeLen, RunLen, UrlRun, Parse, EndsUrl;
    var n := UrlRun(s);
    UrlRunFacts(s);
    CutAt(s, n);
    UrlRunOfRun(s);
    ParseUnbracketed(s[..n], s[n..]);
    GapHeadClear(s[n..]);
    EndsUrlSkips(s[..n], Parse(s[n..]).gap, glued);
  }

  lemma RecordedPastChar(s: string, glued: bool, known: set<string>)
    requires s != [] && UrlRun(s) == 0 && MdAt(s) == None
    ensures LinksAreRecorded(Parse(s), glued, known) <==> LinksAreRecorded(Parse(s[1..]), false, known)
  {
    hide SchemeLen, RunLen, UrlRun, EndsUrl, MdTail;
    UnparseParse(s[1..]);
    EndsUrlStep(s, Parse(s[1..]), glued);
  }

  lemma RecordedAtLink(s: string, glued: bool, known: set<string>)
    requires MdAt(s).Some? && ShapedLedger(known) && UrlRun(s) == 0
    ensures var m := MdAt(s).value; var rest := s[|m.caption| + |m.target| + 4..];
      && (LinksAreRecorded(Parse(s), glued, known)
          <==> !glued && m.target in known && LinksAreRecorded(Parse(rest), false, known))
      && (Quiet(s, State(Shut, glued), known) <==> !glued && m.target in known && Quiet(rest, START, known))
  {
    hide SchemeLen, RunLen, UrlRun, MdTail, RecordedShape, Quiet;
    var m := MdAt(s).value;
    QuietAtChar(s, State(Shut, glued), known);
    QuietTail(s[1..], Next(s[0], State(Shut, glued)), m, known);
    assert s[1..][|TailText(m)|..] == s[|m.caption| + |m.target| + 4..];
  }

  /** The pass is quiet exactly when every Markdown link it reads is recorded and follows no URL text. */
  lemma {:induction false} QuietReadsLinks(s: string, glued: bool, known: set<string>)
    requires ShapedLedger(known)
    ensures Quiet(s, State(Shut, glued), known) <==> LinksAreRecorded(Parse(s), glued, known)
    decreases |s|
  {
    hide SchemeLen, RunLen, MdTail, ShapedLedger, UrlRun, EndsUrl, LinksAreRecorded;
    if s == [] {
      assert LinksAreRecorded(Tail([]), glued, known) by { TailIsRecorded(glued, known); }
    } else if UrlRun(s) > 0 {
      hide Quiet, Parse;
      QuietAtUrl(s, State(Shut, glued), known);
      RecordedPastUrl(s, glued, known);
      QuietReadsLinks(s[UrlRun(s)..], true, known);
    } else if MdAt(s).Some? {
      hide Quiet, Parse;
      RecordedAtLink(s, glued, known);
      var m := MdAt(s).value;
      QuietReadsLinks(s[|m.caption| + |m.target| + 4..], false, known);
    } else {
      hide Quiet, Parse;
      QuietAtChar(s, State(Shut, glued), known);
      RecordedPastChar(s, glued, known);
      if s[0] == '[' { QuietWithoutTail(s[1..], Next(s[0], State(Shut, glued)), START, known); }
      QuietReadsLinks(s[1..], false, known);
    }
  }

  lemma TailIsRecorded(glued: bool, known: set<string>)
    ensures LinksAreRecorded(Tail([]), glued, known)
  {
  }

  lemma UrlRunOfRun(s: string)
    requires UrlRun(s) > 0
    ensures UrlRun(s[..UrlRun(s)]) == UrlRun(s) && '[' !in s[..UrlRun(s)]
  {
    UrlRunFacts(s);
    var n := UrlRun(s);
    var u := s[..n];
    CutAt(s, n);
    SchemeWithin(u, s[n..]);
    WholeRun(u, IsUrlChar);
    assert !IsUrlChar('[');
  }

  lemma EndsUrlStep(s: string, d: Doc, glued: bool)
    requires s != [] && UrlRun(s) == 0 && Unparse(d) == s[1..]
    ensures EndsUrl([s[0]] + d.gap, glued) <==> EndsUrl(d.gap, false)
  {
    var g := [s[0]] + d.gap;
    assert g[1..] == d.gap && g <= s;
    CutAt(s, |g|);
    SchemeInside(g, s[|g|..]);
  }
}
