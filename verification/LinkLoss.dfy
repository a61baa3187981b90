/** A recorded link that a second run of `enforce` deletes. */
module LinkLoss {
  import opened Text
  import opened LinkResolver
  import opened LinkEnforcer
  import opened LinkMerging
  import opened LinkPlaceholders
  import opened LinkSlots
  import opened LinkSafety
  import opened LinkIdentity
  import opened LinkBrackets
  import opened LinkReopening
  import opened LinkCounterexamples

  const SCHEME: string := "http://"

  /** A caption in which a `[` directly follows a bare scheme. */
  function StuckCaption(b: string): string { SCHEME + (['['] + b) }

  /** A link with that caption, a blank and another link. */
  function StuckText(b: string, t: string, c: string, k: string): string {
    LinkText(StuckCaption(b), t) + ([' '] + LinkText(c, k))
  }

  predicate PlainLabel(c: string) {
    'h' !in c && NulFree(c) && forall ch | ch in c :: IsLabelChar(ch) && ch != '['
  }

  predicate StuckParts(b: string, t: string, c: string, k: string) {
    && PlainLabel(b) && PlainLabel(c)
    && WellFormedTarget(t) && NulFree(t) && WellFormedTarget(k) && NulFree(k)
  }

  lemma StuckCaptionFacts(b: string)
    requires PlainLabel(b)
    ensures NulFree(StuckCaption(b)) && forall ch | ch in StuckCaption(b) :: IsLabelChar(ch)
  {
  }

  lemma StuckCaptionHasNoUrl(b: string)
    requires 'h' !in b
    ensures UrlMatches(StuckCaption(b)) == []
  {
    hide UrlMatches, UrlLen;
    var s, rest := StuckCaption(b), ['['] + b;
    BareSchemeEnds(rest);
    BareSchemeRest(s, rest);
    MatchStep(s);
    PlainHasNoUrl(s[1..], {}, s => s);
  }

  ghost function StuckDoc(b: string, t: string, c: string, k: string): Doc {
    Linked([], StuckCaption(b), t, Linked([' '], c, k, Tail([])))
  }

  lemma StuckParse(b: string, t: string, c: string, k: string)
    requires StuckParts(b, t, c, k)
    ensures Parse(StuckText(b, t, c, k)) == StuckDoc(b, t, c, k)
  {
    hide MdTail, WellFormedTarget, UrlMatches, StuckCaption;
    StuckCaptionFacts(b);
    var p, rest := StuckCaption(b), [' '] + LinkText(c, k);
    MdAtFinds(MdLink(p, t), rest);
    assert StuckText(b, t, c, k)[|LinkText(p, t)|..] == rest;
    ParseUnbracketed([' '], LinkText(c, k));
    ParseOneLink(c, k, []);
    assert LinkText(c, k) + [] == LinkText(c, k);
  }

  lemma StuckFenced(b: string, t: string, c: string, k: string)
    requires StuckParts(b, t, c, k)
    ensures Fenced(StuckDoc(b, t, c, k), true)
  {
    hide UrlMatches, StuckCaption;
    StuckCaptionHasNoUrl(b);
    PlainHasNoUrl(c, {}, s => s);
    var none: string := [];
    assert Fenced(Tail(none), false);
    assert !IsUrlChar(' ');
    assert Fenced(Linked([' '], c, k, Tail([])), false);
  }

  /** What remains of it when the first link is dropped and the second kept. */
  function StuckOutput(b: string, c: string, k: string): string {
    StuckCaption(b) + ([' '] + LinkText(c, k))
  }

  lemma StuckMerges(d: Doc, p: string, c: string, k: string, known: set<string>, lower: Lower)
    requires d.Linked? && d.gap == [] && d.caption == p && d.rest == Linked([' '], c, k, Tail([]))
    requires Resolve(NormalizeRaw(d.target), known, lower) == None
    requires Resolve(NormalizeRaw(k), known, lower) == Some(k)
    ensures LinksAreFree(d) && GapUrls(d) == []
    ensures Merged(d, known, lower) == p + ([' '] + LinkText(c, k))
  {
    hide NormalizeRaw, UrlMatches, Resolve, LinkText, EndsUrl, RewriteBare;
    var e := d.rest;
    PlainHasNoUrl([], known, lower);
    PlainHasNoUrl([' '], known, lower);
    UrlRunOfPlain([]);
    UrlRunOfPlain([' ']);
    assert LinksAreFree(e.rest) && GapUrls(e.rest) == [];
    assert LinksAreFree(e) && GapUrls(e) == [];
    assert Merged(e, known, lower) == [' '] + LinkText(c, k) + [] == [' '] + LinkText(c, k);
    MergedOne(d, p, known, lower);
  }

  lemma StuckFirstRun(b: string, t: string, c: string, k: string, known: set<string>, lower: Lower)
    requires StuckParts(b, t, c, k) && NulFreeLedger(known)
    requires Resolve(NormalizeRaw(t), known, lower) == None
    requires Resolve(NormalizeRaw(k), known, lower) == Some(k)
    ensures Enforced(StuckText(b, t, c, k), known, lower).output == StuckOutput(b, c, k)
  {
    hide Enforced, Parse, Merged, UrlMatches, LinksAreFree, GapUrls, Resolve, NormalizeRaw, StuckCaption, LinkText,
         WellFormedTarget;
    StuckCaptionFacts(b);
    StuckParse(b, t, c, k);
    StuckMerges(StuckDoc(b, t, c, k), StuckCaption(b), c, k, known, lower);
    NulFreeLink(StuckCaption(b), t);
    NulFreeLink(c, k);
    PlainGapsMerge(StuckText(b, t, c, k), StuckDoc(b, t, c, k), known, lower);
  }

  /** The second run reads one link, right behind the scheme. */
  lemma StuckReads(b: string, t: string, c: string, k: string)
    requires StuckParts(b, t, c, k)
    ensures Parse(StuckOutput(b, c, k)) == Linked(SCHEME, b + [' ', '['] + c, k, Tail([]))
  {
    hide MdTail, Parse, WellFormedTarget;
    var l := LinkText(b + [' ', '['] + c, k);
    assert StuckOutput(b, c, k) == SCHEME + l;
    ParseUnbracketed(SCHEME, l);
    ParseOneLink(b + [' ', '['] + c, k, []);
    assert l + [] == l && SCHEME + [] == SCHEME;
  }

  /** The placeholder of that link completes the scheme to a URL that is not recorded. */
  lemma SchemeSwallowsSlot(known: set<string>, lower: Lower)
    requires Resolve(SCHEME + SlotText(0), known, lower) == None
    ensures RewriteBare(SCHEME + SlotText(0), known, lower) == []
  {
    hide Resolve, NormalizeRaw, RewriteBare, UrlLen, RunLen, TrimPunct, RecordedShape, PlainUrl;
    var s := SlotText(0);
    SlotTextIsUrlText(0);
    assert s[|s| - 1] == NUL && !IsTrailingPunct(NUL);
    SlotHasNoAmp();
    NormalHost(s);
    SchemeInside(SCHEME, s);
    assert UrlText(SCHEME + s);
    OneUrl(SCHEME + s, known, lower);
    assert Suffix(SCHEME + s) == [];
  }

  lemma SlotHasNoAmp()
    ensures '&' !in SlotText(0)
  {
    assert !IsDigit('&');
  }

  lemma StuckSecondRun(b: string, t: string, c: string, k: string, known: set<string>, lower: Lower)
    requires StuckParts(b, t, c, k) && Resolve(SCHEME + SlotText(0), known, lower) == None
    ensures Enforced(StuckOutput(b, c, k), known, lower).output == []
  {
    hide Parse, RewriteBare, Resolve, StuckOutput, SlotText, Stash, Restore, WithSlots;
    StuckReads(b, t, c, k);
    SchemeSwallowsSlot(known, lower);
    SlotBehind(SCHEME, b + [' ', '['] + c, k);
    NothingRestored(Stash(Parse(StuckOutput(b, c, k)), known, lower));
  }

  lemma SlotBehind(g: string, c: string, t: string)
    ensures WithSlots(Linked(g, c, t, Tail([])), 0) == g + SlotText(0)
  {
    hide SlotText;
    assert WithSlots(Tail([]), 1) == [];
    assert g + SlotText(0) + [] == g + SlotText(0);
  }

  lemma NothingRestored(stash: seq<string>)
    ensures Restore([], stash) == []
  {
  }

  /** A dropped link whose caption holds a `[` right behind a bare scheme, before a recorded link: the
      text is fenced, no `]` stands outside its links, and the second run deletes everything. */
  lemma RecordedLinkIsLost(b: string, t: string, c: string, k: string, known: set<string>, lower: Lower)
    requires StuckParts(b, t, c, k) && NulFreeLedger(known)
    requires Resolve(NormalizeRaw(t), known, lower) == None
    requires NormalizeRaw(k) == k && k in known
    requires Resolve(SCHEME + SlotText(0), known, lower) == None
    ensures Fenced(Parse(StuckText(b, t, c, k)), true)
    ensures var out := Enforced(StuckText(b, t, c, k), known, lower).output;
      out == StuckOutput(b, c, k) && Enforced(out, known, lower).output == []
  {
    hide Enforced, Parse, Resolve, Fenced, StuckOutput, StuckParts, StuckText, StuckDoc, SlotText;
    ResolveStaysInLedger(k, known, lower);
    StuckParse(b, t, c, k);
    StuckFenced(b, t, c, k);
    StuckFirstRun(b, t, c, k, known, lower);
    StuckSecondRun(b, t, c, k, known, lower);
  }

  /** `[http://[b](http://u) [c](http://k)` with `http://k` recorded becomes
      `http://[b [c](http://k)`, and then nothing. */
  lemma LostLinkExample(b: string, u: string, c: string, k: string, known: set<string>, lower: Lower)
    requires b == "b" && u == "u" && c == "c" && k == "k"
    requires known == {"http://" + k} && lower == ((s: string) => s)
    ensures var text := StuckText(b, "http://" + u, c, "http://" + k);
      var out := Enforced(text, known, lower).output;
      && Fenced(Parse(text), true)
      && out == StuckOutput(b, c, "http://" + k)
      && Enforced(out, known, lower).output == []
  {
    hide Enforced, Parse, Resolve, Fenced, StuckText, StuckOutput, NormalizeRaw, WellFormedTarget, TrimPunct, SlotText;
    HostTarget(u);
    HostTarget(k);
    NormalHost(u);
    NormalHost(k);
    HostUnresolved(u, k, known, lower);
    SlotIsHost();
    HostUnresolved(SlotText(0), k, known, lower);
    RecordedLinkIsLost(b, "http://" + u, c, "http://" + k, known, lower);
  }

  lemma SlotIsHost()
    ensures HostOnly(SlotText(0)) && SlotText(0) != "k"
  {
    assert !IsDigit('/') && !IsDigit('h') && !IsDigit('w');
    assert SlotText(0)[0] == NUL;
  }
}
