/** What `enforce` joins when it drops links: the URLs that come about across them. */
module LinkJoins {
  import opened Text
  import opened LinkResolver
  import opened LinkEnforcer
  import opened LinkMerging
  import opened LinkPlaceholders
  import opened LinkSlots
  import opened LinkSafety
  import opened LinkBrackets
  import opened LinkReopening

  /** Every URL that is read from the text is recorded. */
  ghost predicate OnlyRecorded(s: string, known: set<string>) {
    forall m | m in UrlMatches(s) :: TrimPunct(m) in known
  }

  // ----- runs of URL characters --------------------------------------------------------------------------

  /** The text up to its last character that is not a URL character. */
  function Settled(s: string): (r: string)
    ensures r <= s && TailClear(r) && UrlText(s[|r|..])
  {
    var r := DropTrailing(s, IsUrlChar);
    assert forall c | c in s[|r|..] :: IsUrlChar(c);
    r
  }

  /** The run of URL characters at the end. */
  function Running(s: string): (r: string)
    ensures UrlText(r) && s == Settled(s) + r
  {
    CutAt(s, |Settled(s)|);
    s[|Settled(s)|..]
  }

  /** The run of URL characters at the start. */
  function FirstRun(s: string): string { s[..RunLen(s, IsUrlChar)] }

  // ----- what crosses the dropped links ------------------------------------------------------------------

  /** With `a` the run of URL characters that the kept text before ends with: every URL in a run of
      URL characters that reaches into a rewritten gap, and every URL that a caption holds or that
      reaches into one, is recorded. A dropped link joins the runs on its two sides to its caption,
      a kept one ends them. */
  ghost predicate JoinsAreRecorded(d: Doc, a: string, known: set<string>, lower: Lower) {
    var s := a + RewriteBare(d.gap, known, lower);
    match d
    case Tail(_) => OnlyRecorded(FirstRun(s), known)
    case Linked(_, c, target, rest) =>
      match Resolve(NormalizeRaw(target), known, lower)
      case Some(_) =>
        && OnlyRecorded(FirstRun(s), known) && OnlyRecorded(c, known)
        && JoinsAreRecorded(rest, [], known, lower)
      case None =>
        var t := Running(s) + c;
        && (UrlText(s) || OnlyRecorded(FirstRun(s), known))
        && OnlyRecorded(Settled(t), known) && JoinsAreRecorded(rest, Running(t), known, lower)
  }

  // ----- text in parts ------------------------------------------------------------------------------------

  lemma RecordedParts(x: string, y: string, known: set<string>)
    requires TailClear(x) || HeadClear(y)
    ensures OnlyRecorded(x + y, known) <==> OnlyRecorded(x, known) && OnlyRecorded(y, known)
  {
    hide UrlMatches;
    MatchesSplit(x, y);
  }

  lemma NothingRecorded(known: set<string>)
    ensures OnlyRecorded([], known)
  {
  }

  /** Only the first run can hold a URL that is not one of `p`. */
  lemma FirstRunDecides(a: string, p: string, known: set<string>)
    requires UrlText(a) && OnlyRecorded(p, known)
    ensures OnlyRecorded(a + p, known) <==> OnlyRecorded(FirstRun(a + p), known)
  {
    hide OnlyRecorded;
    var k := RunLen(p, IsUrlChar);
    RunSplit(a, p, IsUrlChar);
    CutAt(p, k);
    RecordedParts(p[..k], p[k..], known);
    Assoc(a, p[..k], p[k..]);
    assert FirstRun(a + p) == a + p[..k];
    RecordedParts(a + p[..k], p[k..], known);
  }

  /** What follows a settled text does not change its URLs. */
  lemma SettledReads(s: string, y: string, known: set<string>)
    ensures OnlyRecorded(s + y, known) <==> OnlyRecorded(Settled(s), known) && OnlyRecorded(Running(s) + y, known)
  {
    hide OnlyRecorded, Settled, Running;
    Assoc(Settled(s), Running(s), y);
    RecordedParts(Settled(s), Running(s) + y, known);
  }

  lemma UrlTextSettled(s: string)
    requires UrlText(s)
    ensures Settled(s) == [] && Running(s) == s
  {
  }

  /** The settled part of a gap behind a run: its first run decides. */
  lemma SettledGap(a: string, p: string, known: set<string>)
    requires UrlText(a) && OnlyRecorded(p, known) && !UrlText(a + p)
    ensures OnlyRecorded(Settled(a + p), known) <==> OnlyRecorded(FirstRun(a + p), known)
  {
    hide OnlyRecorded, Settled;
    var s := Settled(a + p);
    var r := Running(a + p);
    assert |a| < |s| by { SettledReaches(a, p); }
    var q := s[|a|..];
    assert s == a + q by { CutAt(s, |a|); }
    assert p == q + r;
    RecordedParts(q, r, known);
    FirstRunDecides(a, q, known);
    RunPrefix(s, r, IsUrlChar);
    assert FirstRun(a + p) == FirstRun(s);
  }

  lemma SettledReaches(a: string, p: string)
    requires UrlText(a) && !UrlText(a + p)
    ensures |a| < |Settled(a + p)|
  {
    var s := Settled(a + p);
    assert s + Running(a + p) == a + p;
    assert forall i | 0 <= i < |s| :: s[i] == (a + p)[i];
    assert forall i | 0 <= i < |a| :: (a + p)[i] == a[i] && a[i] in a;
  }

  lemma GapIsRecorded(g: string, known: set<string>, lower: Lower)
    requires ShapedLedger(known)
    ensures OnlyRecorded(RewriteBare(g, known, lower), known)
  {
    hide UrlMatches, RewriteBare;
    var p := RewriteBare(g, known, lower);
    RewrittenGap(g, known, lower);
    SurvivorsAreRecorded(UrlMatches(g), known, lower);
    TrimAllMembers(UrlMatches(p));
  }

  lemma LinkIsRecorded(c: string, good: string, known: set<string>)
    requires ShapedLedger(known) && good in known
    ensures OnlyRecorded(LinkText(c, good), known) <==> OnlyRecorded(c, known)
  {
    hide UrlMatches, LinkText;
    LinkTextReads(c, good);
    RecordedUrlReads(good, []);
    assert good + [] == good;
    TrimAllMembers(UrlMatches(good));
  }

  // ----- when the output is safe -----------------------------------------------------------------------

  lemma LinkTextClear(c: string, good: string)
    ensures HeadClear(LinkText(c, good)) && TailClear(LinkText(c, good))
  {
  }

  lemma {:induction false} JoinsDecide(d: Doc, a: string, known: set<string>, lower: Lower)
    requires UrlText(a) && ShapedLedger(known)
    ensures OnlyRecorded(a + Merged(d, known, lower), known) <==> JoinsAreRecorded(d, a, known, lower)
    decreases d
  {
    hide OnlyRecorded, RewriteBare, UrlText, ShapedLedger, FirstRun, Settled, Running, Resolve, NormalizeRaw;
    var p := RewriteBare(d.gap, known, lower);
    var s := a + p;
    GapIsRecorded(d.gap, known, lower);
    FirstRunDecides(a, p, known);
    if d.Linked? {
      var c, m := d.caption, Merged(d.rest, known, lower);
      var r := LinkReplacement(c, d.target, known, lower);
      Assoc(p, r, m);
      Assoc(a, p, r + m);
      assert a + Merged(d, known, lower) == s + (r + m);
      match Resolve(NormalizeRaw(d.target), known, lower) {
        case Some(good) =>
          ResolveStaysInLedger(NormalizeRaw(d.target), known, lower);
          LinkTextClear(c, good);
          KeptSplits(s, r, m, known);
          LinkIsRecorded(c, good, known);
          NoRun();
          JoinsDecide(d.rest, [], known, lower);
          assert [] + m == m;
        case None =>
          var t := Running(s) + c;
          SettledReads(s, c + m, known);
          Assoc(Running(s), c, m);
          SettledReads(t, m, known);
          if UrlText(s) {
            UrlTextSettled(s);
            NothingRecorded(known);
          } else {
            SettledGap(a, p, known);
          }
          JoinsDecide(d.rest, Running(t), known, lower);
      }
    }
  }

  lemma NoRun()
    ensures UrlText([])
  {
  }

  lemma KeptSplits(s: string, r: string, m: string, known: set<string>)
    requires r != [] && HeadClear(r) && TailClear(r)
    ensures OnlyRecorded(s + (r + m), known)
       <==> OnlyRecorded(s, known) && OnlyRecorded(r, known) && OnlyRecorded(m, known)
  {
    hide OnlyRecorded;
    RecordedParts(s, r + m, known);
    RecordedParts(r, m, known);
  }

  lemma FreeIsSeparated(text: string)
    requires NulFree(text) && LinksAreFree(Parse(text))
    ensures Separated(text)
  {
    hide Parse, UrlMatches, LinksAreFree;
    var d := Parse(text);
    FreeSlots(d, 0);
    GapUrlsAreRead(d);
    UnparseParse(text);
    MatchChars(text);
  }

  /** For links that no URL text runs into: every URL of the output is recorded exactly when every URL
      is that a caption holds or that runs, in the kept text, across the place of a dropped link. */
  lemma OutputIsSafeIff(text: string, known: set<string>, lower: Lower)
    requires NulFree(text) && NulFreeLedger(known) && ShapedLedger(known)
    requires LinksAreFree(Parse(text))
    ensures OnlyRecorded(Enforced(text, known, lower).output, known)
       <==> JoinsAreRecorded(Parse(text), [], known, lower)
  {
    hide Enforced, Parse, OnlyRecorded, JoinsAreRecorded, LinksAreFree;
    FreeIsSeparated(text);
    SeparatedIsMerged(text, known, lower);
    NoRun();
    JoinsDecide(Parse(text), [], known, lower);
    var m := Merged(Parse(text), known, lower);
    assert [] + m == m;
  }
}
