/** Inputs on which the guarantees of `enforce` fail without their side conditions. */
module LinkCounterexamples {
  import opened Text
  import opened LinkResolver
  import opened LinkEnforcer
  import opened LinkMerging
  import opened LinkPlaceholders
  import opened LinkSlots
  import opened LinkSafety
  import opened LinkIdentity
  import opened LinkBrackets
  import opened LinkReopening

  lemma PlainHasNoUrl(s: string, known: set<string>, lower: Lower)
    requires 'h' !in s
    ensures UrlMatches(s) == [] && RewriteBare(s, known, lower) == s
  {
    CopiesText(s, [], known, lower);
    assert s + [] == s;
  }

  lemma ParseOneLink(c: string, t: string, tail: string)
    requires WellFormedLink(MdLink(c, t)) && '[' !in tail
    ensures Parse(LinkText(c, t) + tail) == Linked([], c, t, Tail(tail))
  {
    var text := LinkText(c, t) + tail;
    MdAtFinds(MdLink(c, t), tail);
    assert text[|LinkText(c, t)|..] == tail;
    ParseUnbracketed(tail, []);
    assert tail + [] == tail;
  }

  lemma OneLinkIsSeparated(c: string, t: string, tail: string)
    requires WellFormedLink(MdLink(c, t)) && '[' !in tail && 'h' !in tail
    ensures Separated(LinkText(c, t) + tail)
  {
    ParseOneLink(c, t, tail);
    SlotTextIsUrlText(0);
    CopiesText(SlotText(0), tail, {}, s => s);
    PlainHasNoUrl(tail, {}, s => s);
    OneSlot(c, t, tail, 0);
  }

  lemma OneSlot(c: string, t: string, tail: string, i: nat)
    ensures WithSlots(Linked([], c, t, Tail(tail)), i) == SlotText(i) + tail
  {
    assert [] + SlotText(i) == SlotText(i);
  }

  lemma MergeOneRemoved(c: string, t: string, tail: string, known: set<string>, lower: Lower)
    requires Resolve(NormalizeRaw(t), known, lower) == None && 'h' !in tail
    ensures Merged(Linked([], c, t, Tail(tail)), known, lower) == c + tail
  {
    PlainHasNoUrl(tail, known, lower);
    MergedOne(Linked([], c, t, Tail(tail)), c, known, lower);
  }

  lemma MergedOne(d: Doc, r: string, known: set<string>, lower: Lower)
    requires d.Linked? && d.gap == [] && r == LinkReplacement(d.caption, d.target, known, lower)
    ensures Merged(d, known, lower) == r + Merged(d.rest, known, lower)
  {
    assert [] + r == r;
  }

  /** A removed link leaves its caption, joined to the text behind it. */
  lemma RemovedLinkJoins(c: string, t: string, tail: string, known: set<string>, lower: Lower)
    requires WellFormedLink(MdLink(c, t)) && Resolve(NormalizeRaw(t), known, lower) == None
    requires '[' !in tail && 'h' !in tail
    requires NulFree(LinkText(c, t) + tail) && NulFreeLedger(known)
    ensures Enforced(LinkText(c, t) + tail, known, lower).output == c + tail
  {
    ParseOneLink(c, t, tail);
    OneLinkIsSeparated(c, t, tail);
    MergeOneRemoved(c, t, tail, known, lower);
    SeparatedIsMerged(LinkText(c, t) + tail, known, lower);
  }

  /** The caption of a Markdown link and the text behind it spell a URL. */
  predicate LeakParts(c: string, t: string, tail: string) {
    && WellFormedLink(MdLink(c, t)) && NulFree(LinkText(c, t) + tail)
    && '[' !in tail && 'h' !in tail
    && RecordedShape(c + tail) && SchemeLen(c + tail) < |c + tail|
  }

  /** Without fences the output can hold a URL nobody recorded: when the link is dropped, that
      spelled URL is the output. */
  lemma UnfencedLinkLeaksUrl(c: string, t: string, tail: string, lower: Lower)
    requires LeakParts(c, t, tail)
    ensures TrimAll(UrlMatches(Enforced(LinkText(c, t) + tail, {}, lower).output)) == [c + tail]
  {
    RemovedLinkJoins(c, t, tail, {}, lower);
    RecordedUrlReads(c + tail, []);
    assert (c + tail) + [] == c + tail;
  }

  /** Such a text: `[http](http://u)://e`. */
  lemma LeakExampleParts(c: string, u: string, e: string)
    requires c == "http" && u == "u" && e == "e"
    ensures LeakParts(c, "http://" + u, "://" + e)
  {
    hide RecordedShape, RunLen, TrimPunct, NormalizeRaw, WellFormedTarget, LinkText;
    var t, tail := "http://" + u, "://" + e;
    assert c + tail == "http://" + e;
    HostTarget(u);
    PlainHost(e);
    NulFreeLink(c, t);
  }

  /** `[http](http://u)://e` with nothing recorded: the link is removed, and what is left reads as
      the unrecorded URL `http://e`. */
  lemma LeakExample(c: string, u: string, e: string, lower: Lower)
    requires c == "http" && u == "u" && e == "e"
    ensures TrimAll(UrlMatches(Enforced(LinkText(c, "http://" + u) + ("://" + e), {}, lower).output))
         == [c + ("://" + e)]
  {
    hide UrlMatches, Enforced, LinkText;
    LeakExampleParts(c, u, e);
    UnfencedLinkLeaksUrl(c, "http://" + u, "://" + e, lower);
  }

  /** Links that no URL text runs into, between gaps without URLs. */
  lemma PlainGapsMerge(text: string, d: Doc, known: set<string>, lower: Lower)
    requires Parse(text) == d && LinksAreFree(d) && GapUrls(d) == []
    requires NulFree(text) && NulFreeLedger(known)
    ensures Enforced(text, known, lower).output == Merged(d, known, lower)
  {
    hide Enforced, Parse, UrlMatches, LinksAreFree, GapUrls;
    FreeSlots(d, 0);
    SeparatedIsMerged(text, known, lower);
  }

  lemma TwoLinksParse(c: string, t: string, e: string, v: string)
    requires WellFormedLink(MdLink(c, t)) && WellFormedLink(MdLink(e, v))
    ensures Parse(LinkText(c, t) + LinkText(e, v)) == Linked([], c, t, Linked([], e, v, Tail([])))
  {
    hide MdTail, WellFormedLink;
    var text := LinkText(c, t) + LinkText(e, v);
    ParseOneLink(e, v, []);
    assert LinkText(e, v) + [] == LinkText(e, v);
    MdAtFinds(MdLink(c, t), LinkText(e, v));
    assert text[|LinkText(c, t)|..] == LinkText(e, v);
  }

  lemma TwoRemoved(d: Doc, lower: Lower)
    requires d.Linked? && d.rest.Linked? && d.rest.rest == Tail([]) && d.gap == [] && d.rest.gap == []
    ensures LinksAreFree(d) && GapUrls(d) == []
    ensures Merged(d, {}, lower) == d.caption + d.rest.caption
  {
    hide NormalizeRaw, Resolve, UrlMatches;
    var e := d.rest;
    PlainHasNoUrl([], {}, lower);
    assert LinksAreFree(e.rest) && GapUrls(e.rest) == [] && LinksAreFree(e) && GapUrls(e) == [];
    NothingResolves(NormalizeRaw(d.target), lower);
    NothingResolves(NormalizeRaw(e.target), lower);
    MergedOne(d, d.caption, {}, lower);
    MergedOne(e, e.caption, {}, lower);
    assert e.caption + [] == e.caption;
  }

  lemma NothingResolves(url: string, lower: Lower)
    ensures Resolve(url, {}, lower) == None
  {
    hide LooseKey, SplitKey;
  }

  /** Two removed links side by side leave their captions, joined. */
  lemma AdjacentLinksJoin(c: string, t: string, e: string, v: string, lower: Lower)
    requires WellFormedLink(MdLink(c, t)) && WellFormedLink(MdLink(e, v))
    requires NulFree(LinkText(c, t)) && NulFree(LinkText(e, v))
    ensures Enforced(LinkText(c, t) + LinkText(e, v), {}, lower).output == c + e
  {
    hide MdTail, UrlMatches, Parse, Enforced, WellFormedLink, LinksAreFree, GapUrls, Merged;
    var d := Linked([], c, t, Linked([], e, v, Tail([])));
    TwoLinksParse(c, t, e, v);
    TwoRemoved(d, lower);
    PlainGapsMerge(LinkText(c, t) + LinkText(e, v), d, {}, lower);
  }

  /** `[http](http://u)[://e](http://v)` with nothing recorded: no URL in a caption, no URL character
      beside a link, and yet the output is the unrecorded URL `http://e`. */
  lemma AdjacentLeakExample(c: string, u: string, e: string, v: string, lower: Lower)
    requires c == "http" && u == "u" && e == "://e" && v == "v"
    ensures UrlMatches(c) == [] && UrlMatches(e) == []
    ensures TrimAll(UrlMatches(Enforced(LinkText(c, "http://" + u) + LinkText(e, "http://" + v), {}, lower).output))
         == [c + e]
  {
    hide Enforced, LinkText, MdTail;
    AdjacentParts(c, u, e, v);
    NulFreeLink(c, "http://" + u);
    NulFreeLink(e, "http://" + v);
    AdjacentLinksJoin(c, "http://" + u, e, "http://" + v, lower);
    RecordedUrlReads(c + e, []);
    assert (c + e) + [] == c + e;
  }

  lemma AdjacentParts(c: string, u: string, e: string, v: string)
    requires c == "http" && u == "u" && e == "://e" && v == "v"
    ensures WellFormedTarget("http://" + u) && WellFormedTarget("http://" + v)
    ensures NulFree("http://" + u) && NulFree("http://" + v)
    ensures RecordedShape(c + e) && SchemeLen(c + e) < |c + e|
    ensures UrlMatches(c) == [] && UrlMatches(e) == []
  {
    hide UrlMatches, RecordedShape, WellFormedTarget, RunLen, TrimPunct, NormalizeRaw;
    HostTarget(u);
    HostTarget(v);
    PlainHost("e");
    assert c + e == "http://" + "e";
    PlainHasNoUrl(e, {}, s => s);
    NoUrlInHttp(c);
  }

  lemma NoUrlInHttp(c: string)
    requires c == "http"
    ensures UrlMatches(c) == []
  {
    PlainHasNoUrl(c[1..], {}, s => s);
  }

  /** One removed link between two texts that hold no URL: the output is the two texts and the
      caption joined, and it holds a URL exactly when one starts before the end of the caption. */
  lemma SingleRemovedLinkLeaksIff(a: string, c: string, t: string, b: string, known: set<string>, lower: Lower)
    requires Parse(a + LinkText(c, t) + b) == Linked(a, c, t, Tail(b)) && !EndsUrl(a, false)
    requires Resolve(NormalizeRaw(t), known, lower) == None
    requires NulFree(a + LinkText(c, t) + b) && NulFreeLedger(known)
    requires UrlMatches(a) == [] && UrlMatches(b) == []
    ensures var out := Enforced(a + LinkText(c, t) + b, known, lower).output;
      && out == a + c + b
      && (UrlMatches(out) == [] <==> NoUrlIn(a + c, b))
  {
    hide UrlMatches, Parse, Enforced;
    PlainGapsMerge(a + LinkText(c, t) + b, Linked(a, c, t, Tail(b)), known, lower);
    NoUrlIsCopied(a, known, lower);
    NoUrlIsCopied(b, known, lower);
    UrlFreeIff(a + c, b);
  }

  lemma UrlFreeIff(p: string, t: string)
    requires UrlMatches(t) == []
    ensures UrlMatches(p + t) == [] <==> NoUrlIn(p, t)
  {
    hide UrlMatches, UrlLen;
    if NoUrlIn(p, t) {
      SkipText(p, t, {}, s => s);
    } else {
      var i :| 0 <= i < |p| && UrlLen(p[i..] + t) != 0;
      assert p[i..] + t == (p + t)[i..];
      UrlFreeSuffix(p + t, i);
    }
  }

  lemma {:induction false} UrlFreeSuffix(s: string, i: nat)
    requires i < |s| && UrlLen(s[i..]) > 0
    ensures UrlMatches(s) != []
  {
    hide UrlLen;
    if UrlLen(s) == 0 {
      assert s[0..] == s;
      assert i > 0 ==> s[1..][i - 1..] == s[i..];
      UrlFreeSuffix(s[1..], i - 1);
    }
  }

  lemma HostTarget(u: string)
    requires 0 < |u| && '&' !in u && NulFree(u) && !IsTrailingPunct(u[|u| - 1]) && UrlText(u)
    ensures WellFormedTarget("http://" + u) && NulFree("http://" + u)
  {
    PlainHost(u);
  }

  /** A whole text that is one URL. */
  predicate IsUrl(u: string) {
    UrlText(u) && |u| > SchemeLen(u) > 0
  }

  lemma OneUrl(u: string, known: set<string>, lower: Lower)
    requires IsUrl(u)
    ensures RewriteBare(u, known, lower) == BareReplacement(u, known, lower)
  {
    WholeRun(u, IsUrlChar);
    UrlLenIsRun(u);
    assert u[..|u|] == u && u[|u|..] == [];
  }

  lemma UrlThen(u: string, y: string, known: set<string>, lower: Lower)
    requires IsUrl(u) && HeadClear(y)
    ensures RewriteBare(u + y, known, lower) == BareReplacement(u, known, lower) + RewriteBare(y, known, lower)
  {
    OneUrl(u, known, lower);
    RewriteSplit(u, y, known, lower);
  }

  lemma GluedRewrites(head: string, a: string, b: string, tail: string, known: set<string>, lower: Lower)
    requires 'h' !in head && IsUrl(a) && IsUrl(b)
    requires BareReplacement(a, known, lower) == [] && BareReplacement(b, known, lower) == b
    requires tail != [] && 'h' !in tail && !IsUrlChar(tail[0])
    ensures RewriteBare(head + (a + (['('] + (b + tail))), known, lower) == head + (['('] + (b + tail))
  {
    var y := ['('] + (b + tail);
    assert RewriteBare(y, known, lower) == y by {
      CopiesText(['('], b + tail, known, lower);
      UrlThen(b, tail, known, lower);
      PlainHasNoUrl(tail, known, lower);
    }
    UrlThen(a, y, known, lower);
    CopiesText(head, a + y, known, lower);
    assert [] + y == y;
  }

  /** Text without NULs and links is only rewritten. */
  lemma PlainTextOutput(text: string, out: string, known: set<string>, lower: Lower)
    requires Parse(text) == Tail(text) && RewriteBare(text, known, lower) == out && NulFree(out)
    ensures Enforced(text, known, lower).output == out
  {
    RestoreText(out, [], []);
    assert out + [] == out && Restore([], []) == [];
  }

  /** Removing a bare URL between `]` and `(` makes a Markdown link out of plain text. */
  lemma GluedUrlMakesLink(x: string, a: string, b: string, q: string, known: set<string>, lower: Lower)
    requires GluedParts(x, a, b, q)
    requires Resolve(a, known, lower) == None && b in known
    ensures Enforced(GluedText(x, a, b, q), known, lower).output == LinkText(x, b + q)
  {
    hide Enforced, Parse, RewriteBare, Resolve, UrlLen, RunLen;
    GluedIsPlain(x, a, ['('] + (b + (q + [')'])));
    GluedFirstRun(x, a, b, q, known, lower);
    NulFreeLink(x, b + q);
    PlainTextOutput(GluedText(x, a, b, q), LinkText(x, b + q), known, lower);
  }

  lemma NulFreeLink(c: string, t: string)
    requires NulFree(c) && NulFree(t)
    ensures NulFree(LinkText(c, t))
  {
  }

  lemma GluedFirstRun(x: string, a: string, b: string, q: string, known: set<string>, lower: Lower)
    requires GluedParts(x, a, b, q)
    requires Resolve(a, known, lower) == None && b in known
    ensures RewriteBare(GluedText(x, a, b, q), known, lower) == LinkText(x, b + q)
  {
    ResolveStaysInLedger(b, known, lower);
    GluedRewrites(['['] + x + [']'], a, b, q + [')'], known, lower);
    GluedOutput(x, b, q);
  }

  lemma GluedOutput(x: string, b: string, q: string)
    ensures ['['] + x + [']'] + (['('] + (b + (q + [')']))) == LinkText(x, b + q)
  {
  }

  function GluedText(x: string, a: string, b: string, q: string): string {
    ['['] + x + [']'] + (a + (['('] + (b + (q + [')']))))
  }

  predicate PlainUrl(u: string) {
    IsUrl(u) && NulFree(u) && TrimPunct(u) == NormalizeRaw(u) == u
  }

  predicate GluedParts(x: string, a: string, b: string, q: string) {
    && 'h' !in x && NulFree(x) && (forall c | c in x :: IsLabelChar(c) && c != '[')
    && PlainUrl(a) && PlainUrl(b)
    && q != [] && 'h' !in q && NulFree(q) && !IsUrlChar(q[0])
    && (forall c | c in q :: IsTargetChar(c) && c != '[')
  }

  /** The second run reads that link and drops it: `enforce` is not idempotent on texts in which
      a bare URL is glued to a `]`, such as `[x]http://u(http://k"z)` with `http://k` recorded. */
  lemma GluedUrlBreaksIdempotence(x: string, a: string, b: string, q: string, known: set<string>, lower: Lower)
    requires GluedParts(x, a, b, q)
    requires Resolve(a, known, lower) == None && b in known && NulFreeLedger(known)
    requires Resolve(NormalizeRaw(b + q), known, lower) == None
    ensures var out := Enforced(GluedText(x, a, b, q), known, lower).output;
      Enforced(out, known, lower).output == x != out
  {
    GluedUrlMakesLink(x, a, b, q, known, lower);
    GluedLinkRemoved(x, b + q, known, lower) by {
      SchemeInside(b, q);
      assert NulFree(b + q);
    }
  }

  lemma GluedLinkRemoved(x: string, t: string, known: set<string>, lower: Lower)
    requires WellFormedLink(MdLink(x, t)) && NulFree(x) && NulFree(t) && NulFreeLedger(known)
    requires Resolve(NormalizeRaw(t), known, lower) == None
    ensures Enforced(LinkText(x, t), known, lower).output == x != LinkText(x, t)
  {
    RemovedLinkJoins(x, t, [], known, lower);
    assert LinkText(x, t) + [] == LinkText(x, t) && x + [] == x;
  }

  lemma GluedExampleParts(x: string, u: string, k: string, q: string)
    requires x == "x" && u == "u" && k == "k" && q == "\"z"
    ensures GluedParts(x, "http://" + u, "http://" + k, q)
  {
    hide RecordedShape, RunLen, PlainUrl;
    PlainHost(u);
    PlainHost(k);
  }

  lemma GluedExampleUnresolved(u: string, k: string, q: string, known: set<string>, lower: Lower)
    requires u == "u" && k == "k" && q == "\"z"
    requires known == {"http://" + k} && lower == ((s: string) => s)
    ensures Resolve("http://" + u, known, lower) == None
    ensures Resolve(NormalizeRaw(("http://" + k) + q), known, lower) == None
  {
    hide Resolve, NormalizeRaw;
    HostUnresolved(u, k, known, lower);
    HostUnresolved(k + q, k, known, lower);
    NormalHost(k + q);
    Assoc("http://", k, q);
  }

  lemma GluedExample(x: string, u: string, k: string, q: string, known: set<string>, lower: Lower)
    requires x == "x" && u == "u" && k == "k" && q == "\"z"
    requires known == {"http://" + k} && lower == ((s: string) => s)
    ensures var out := Enforced(GluedText(x, "http://" + u, "http://" + k, q), known, lower).output;
      Enforced(out, known, lower).output != out
  {
    GluedExampleUnresolved(u, k, q, known, lower);
    GluedExampleParts(x, u, k, q);
    GluedUrlBreaksIdempotence(x, "http://" + u, "http://" + k, q, known, lower);
  }

  // ----- a removed link that closes another ---------------------------------------------------------------

  /** `[x]` followed by a link whose caption is a target in parentheses. */
  function CaptionText(x: string, g: string, t: string): string {
    ['['] + x + [']'] + LinkText(['('] + (g + [')']), t)
  }

  predicate CaptionParts(x: string, g: string, t: string) {
    && 'h' !in x && NulFree(x) && (forall c | c in x :: IsLabelChar(c) && c != '[')
    && WellFormedTarget(g) && NulFree(g) && (forall c | c in g :: IsLabelChar(c) && c != '[')
    && WellFormedTarget(t) && NulFree(t)
  }

  lemma CaptionParse(x: string, g: string, t: string)
    requires CaptionParts(x, g, t)
    ensures Parse(CaptionText(x, g, t)) == Linked(['['] + x + [']'], ['('] + (g + [')']), t, Tail([]))
  {
    var c := ['('] + (g + [')']);
    var l := LinkText(c, t);
    var text := CaptionText(x, g, t);
    assert text == ['['] + (x + ([']'] + l)) && text[1..] == x + ([']'] + l);
    MdTailSkips(x, [']'] + l);
    assert ([']'] + l)[1] == '[';
    assert MdTail([']'] + l) == None && MdAt(text) == None;
    assert x + ([']'] + l) == (x + [']']) + l;
    ParseUnbracketed(x + [']'], l);
    assert l + [] == l;
    ParseOneLink(c, t, []);
    PrependTwice(['['], x + [']'], Parse(l));
    assert ['['] + (x + [']']) + [] == ['['] + x + [']'];
  }

  /** A removed link whose caption is a target makes a Markdown link with the bracket before it, and
      the second run drops that one: `enforce` is not idempotent on texts such as
      `[a][(http://"z)](http://u)`, fenced and without a bare URL. */
  lemma CaptionBreaksIdempotence(x: string, g: string, t: string, lower: Lower)
    requires CaptionParts(x, g, t)
    ensures var out := Enforced(CaptionText(x, g, t), {}, lower).output;
      out == LinkText(x, g) && Enforced(out, {}, lower).output == x != out
  {
    hide MdTail, UrlMatches, Parse, Enforced, LinksAreFree, GapUrls, Merged, WellFormedTarget;
    var a, c := ['['] + x + [']'], ['('] + (g + [')']);
    CaptionParse(x, g, t);
    OneRemoved(Linked(a, c, t, Tail([])), lower);
    NulFreeLink(c, t);
    PlainGapsMerge(CaptionText(x, g, t), Linked(a, c, t, Tail([])), {}, lower);
    assert a + c == LinkText(x, g);
    GluedLinkRemoved(x, g, {}, lower);
  }

  lemma OneRemoved(d: Doc, lower: Lower)
    requires d.Linked? && d.rest == Tail([]) && 'h' !in d.gap
    ensures LinksAreFree(d) && GapUrls(d) == []
    ensures Merged(d, {}, lower) == d.gap + d.caption
  {
    hide NormalizeRaw, UrlMatches, Resolve;
    NothingResolves(NormalizeRaw(d.target), lower);
    PlainHasNoUrl(d.gap, {}, lower);
    PlainHasNoUrl([], {}, lower);
    UrlRunOfPlain(d.gap);
    assert LinksAreFree(d.rest) && GapUrls(d.rest) == [];
    assert Merged(d, {}, lower) == d.gap + d.caption + [] == d.gap + d.caption;
  }

  lemma {:induction false} UrlRunOfPlain(a: string)
    requires 'h' !in a
    ensures !EndsUrl(a, false)
  {
    if a != [] {
      assert a[0] in a;
      UrlRunOfPlain(a[1..]);
    }
  }

  /** That text, with an empty ledger. */
  lemma CaptionExample(x: string, z: string, u: string, lower: Lower)
    requires x == "a" && z == "\"z" && u == "u"
    ensures var text := CaptionText(x, "http://" + z, "http://" + u);
      && Fenced(Parse(text), true)
      && Enforced(Enforced(text, {}, lower).output, {}, lower).output != Enforced(text, {}, lower).output
  {
    hide Enforced, Parse, UrlMatches;
    CaptionExampleParts(x, z, u);
    CaptionParse(x, "http://" + z, "http://" + u);
    CaptionBreaksIdempotence(x, "http://" + z, "http://" + u, lower);
  }

  lemma CaptionExampleParts(x: string, z: string, u: string)
    requires x == "a" && z == "\"z" && u == "u"
    ensures CaptionParts(x, "http://" + z, "http://" + u)
    ensures UrlMatches(['('] + (("http://" + z) + [')'])) == []
  {
    hide UrlMatches;
    HostTarget(u);
    SchemeInside("http://", z);
    BareSchemeText('(', z + [')']);
    Assoc("http://", z, [')']);
  }

  lemma BareSchemeText(c: char, rest: string)
    requires c == '(' && rest != [] && !IsUrlChar(rest[0]) && 'h' !in rest
    ensures UrlMatches([c] + ("http://" + rest)) == []
  {
    hide UrlMatches, UrlLen;
    var s := "http://" + rest;
    CopiesText([c], s, {}, s => s);
    BareSchemeEnds(rest);
    BareSchemeRest(s, rest);
    MatchStep(s);
    PlainHasNoUrl(s[1..], {}, s => s);
  }

  lemma BareSchemeRest(s: string, rest: string)
    requires s == "http://" + rest && 'h' !in rest
    ensures s != [] && 'h' !in s[1..]
  {
    assert s[1..] == "ttp://" + rest;
  }

  lemma BareSchemeEnds(rest: string)
    requires rest != [] && !IsUrlChar(rest[0])
    ensures UrlLen("http://" + rest) == 0
  {
    var s := "http://" + rest;
    SchemeInside("http://", rest);
    assert s[7..] == rest;
  }

  lemma NormalHost(c: string)
    requires 0 < |c| && '&' !in c && !IsTrailingPunct(c[|c| - 1])
    ensures NormalizeRaw("http://" + c) == TrimPunct("http://" + c) == "http://" + c
  {
    var u := "http://" + c;
    ReplaceSkips(u, [], "&amp;", "&");
    assert u + [] == u;
  }

  lemma PlainHost(c: string)
    requires 0 < |c| && '&' !in c && NulFree(c) && !IsTrailingPunct(c[|c| - 1]) && UrlText(c)
    ensures PlainUrl("http://" + c) && RecordedShape("http://" + c)
  {
    NormalHost(c);
    SchemeFacts("http://");
    SchemeInside("http://", c);
  }

  lemma GluedIsPlain(x: string, a: string, y: string)
    requires (forall c | c in x :: IsLabelChar(c) && c != '[') && IsUrl(a) && '[' !in y
    ensures Parse(['['] + x + [']'] + (a + y)) == Tail(['['] + x + [']'] + (a + y))
  {
    var inner := x + ([']'] + (a + y));
    var text := ['['] + x + [']'] + (a + y);
    assert text == ['['] + inner && text[1..] == inner;
    MdTailSkips(x, [']'] + (a + y));
    assert ([']'] + (a + y))[1] == a[0] == 'h';
    assert MdAt(text) == None;
    assert '[' !in inner;
    ParseUnbracketed(inner, []);
    assert inner + [] == inner;
  }

  /** A URL without a path whose host is not recorded. */
  lemma HostUnresolved(c: string, k: string, known: set<string>, lower: Lower)
    requires known == {"http://" + k} && c != k && lower == ((s: string) => s)
    requires HostOnly(c) && HostOnly(k)
    ensures Resolve("http://" + c, known, lower) == None
  {
    ShortKey(c, lower);
    ShortKey(k, lower);
    assert ("http://" + c)[7..] == c && ("http://" + k)[7..] == k;
    NoneOfOne("http://" + k, known, j => LooseKey(j, lower) == LooseKey("http://" + c, lower));
  }

  lemma NoneOfOne(k: string, known: set<string>, p: string -> bool)
    requires known == {k} && !p(k)
    ensures OnlyOne(known, p) == None
  {
  }

  predicate HostOnly(c: string) { 0 < |c| && '/' !in c && 'h' !in c && 'w' !in c }

  lemma ShortKey(c: string, lower: Lower)
    requires HostOnly(c) && lower == ((s: string) => s)
    ensures LooseKey("http://" + c, lower) == c
    ensures SplitKey(c).segments == []
  {
    var u := "http://" + c;
    assert u[7..] == c && u[4] == ':';
    assert c[|c| - 1] in c && c[0] in c;
    assert DropPrefixes(u, "https://") == u;
    assert DropPrefixes(u, "http://") == DropPrefixes(c, "http://") == c;
    WholeRun(c, NotSlash);
    assert NonEmpty([[]]) == NonEmpty([[]][1..]);
  }
}
