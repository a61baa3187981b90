/** When no bare URL runs into a placeholder, the three passes of `enforce` are one. */
module LinkMerging {
  import opened Text
  import opened LinkResolver
  import opened LinkEnforcer
  import opened LinkSlots
  import opened LinkPlaceholders

  // ----- links no bare URL runs into --------------------------------------------------------

  /** No bare URL of the first pass runs into a placeholder. */
  predicate Separated(text: string) {
    forall m | m in UrlMatches(WithSlots(Parse(text), 0)) :: NulFree(m)
  }

  /** The text rewritten gap by gap and link by link. */
  ghost function Merged(d: Doc, known: set<string>, lower: Lower): string {
    match d
    case Tail(g) => RewriteBare(g, known, lower)
    case Linked(g, c, t, rest) =>
      RewriteBare(g, known, lower) + LinkReplacement(c, t, known, lower) + Merged(rest, known, lower)
  }

  ghost function MergedSlots(d: Doc, i: nat, known: set<string>, lower: Lower): string
    decreases d
  {
    match d
    case Tail(g) => RewriteBare(g, known, lower)
    case Linked(g, _, _, rest) =>
      RewriteBare(g, known, lower) + (SlotText(i) + MergedSlots(rest, i + 1, known, lower))
  }

  lemma {:induction false} GapHead(g: string, x: string)
    requires g != [] && x != [] && x[0] == NUL
    requires UrlLen(g + x) > 0 ==> NulFree((g + x)[..UrlLen(g + x)])
    ensures UrlLen(g + x) == UrlLen(g)
    ensures UrlLen(g) < |g|
  {
    hide RunLen, UrlLen;
    var s := g + x;
    var n := UrlLen(s);
    UrlLenIsRun(s);
    UrlLenIsRun(g);
    RunPrefix(g, x, IsUrlChar);
    if n > 0 {
      assert s[|g|] == NUL && IsUrlChar(NUL);
      forall j | 0 <= j < n ensures s[j] != NUL { assert s[j] == s[..n][j]; }
      assert SchemeLen(g) == SchemeLen(s);
    } else {
      UrlGrows(g, x);
    }
  }

  /** A bare URL that does not reach the placeholder is the same URL in its gap alone. */
  lemma {:induction false} GapMatches(g: string, x: string)
    requires x != [] && x[0] == NUL
    requires forall m | m in UrlMatches(g + x) :: NulFree(m)
    ensures UrlMatches(g + x) == UrlMatches(g) + UrlMatches(x)
    decreases |g|
  {
    if g == [] {
      assert g + x == x;
    } else {
      MatchStep(g + x);
      GapHead(g, x);
      MatchStep(g);
      CutBoth(g, x, StepLen(g));
      GapMatches(g[StepLen(g)..], x);
      Assoc(if UrlLen(g) > 0 then [g[..StepLen(g)]] else [], UrlMatches(g[StepLen(g)..]), UrlMatches(x));
    }
  }

  lemma {:induction false} GapRewrites(g: string, x: string, known: set<string>, lower: Lower)
    requires x != [] && x[0] == NUL
    requires forall m | m in UrlMatches(g + x) :: NulFree(m)
    ensures RewriteBare(g + x, known, lower) == RewriteBare(g, known, lower) + RewriteBare(x, known, lower)
    decreases |g|
  {
    if g == [] {
      assert g + x == x;
    } else {
      var k := StepLen(g);
      MatchStep(g + x);
      GapHead(g, x);
      RewriteStep(g + x, known, lower);
      RewriteStep(g, known, lower);
      CutBoth(g, x, k);
      GapRewrites(g[k..], x, known, lower);
      Assoc(StepText(g[..k], UrlLen(g) > 0, known, lower),
            RewriteBare(g[k..], known, lower), RewriteBare(x, known, lower));
    }
  }

  lemma CutBoth(g: string, x: string, k: nat)
    requires k <= |g|
    ensures (g + x)[..k] == g[..k] && (g + x)[k..] == g[k..] + x
  {
  }

  lemma {:induction false} RunPrefix(a: string, b: string, p: char -> bool)
    ensures RunLen(a + b, p) >= RunLen(a, p)
    ensures RunLen(a, p) < |a| ==> RunLen(a + b, p) == RunLen(a, p)
    ensures RunLen(a + b, p) < |a| ==> RunLen(a + b, p) == RunLen(a, p)
  {
    if a != [] {
      assert (a + b)[1..] == a[1..] + b;
      RunPrefix(a[1..], b, p);
    }
  }

  lemma {:induction false} UrlGrows(a: string, b: string)
    ensures UrlLen(a) > 0 ==> UrlLen(a + b) > 0
  {
    UrlLenIsRun(a);
    UrlLenIsRun(a + b);
    RunPrefix(a, b, IsUrlChar);
    if UrlLen(a) > 0 { assert SchemeLen(a + b) == SchemeLen(a); }
  }

  lemma {:induction false} SeparatedPass(d: Doc, i: nat, known: set<string>, lower: Lower)
    requires forall m | m in UrlMatches(WithSlots(d, i)) :: NulFree(m)
    ensures RewriteBare(WithSlots(d, i), known, lower) == MergedSlots(d, i, known, lower)
    decreases d
  {
    if d.Linked? {
      var later := WithSlots(d.rest, i + 1);
      WithSlotsStep(d, i);
      SlotTextIsUrlText(i);
      CopiesText(SlotText(i), later, known, lower);
      GapMatches(d.gap, SlotText(i) + later);
      GapRewrites(d.gap, SlotText(i) + later, known, lower);
      SeparatedPass(d.rest, i + 1, known, lower);
    }
  }

  lemma WithSlotsStep(d: Doc, i: nat)
    requires d.Linked?
    ensures WithSlots(d, i) == d.gap + (SlotText(i) + WithSlots(d.rest, i + 1))
  {
  }

  lemma {:induction false} RestoreText(g: string, s: string, stash: seq<string>)
    requires NulFree(g)
    ensures Restore(g + s, stash) == g + Restore(s, stash)
  {
    if g == [] {
      assert g + s == s;
    } else {
      RestoreText(g[1..], s, stash);
      RestoreChar(g[0], g[1..] + s, stash);
      assert g + s == [g[0]] + (g[1..] + s);
      assert g[0] in g;
    }
  }

  lemma {:induction false} RewriteNulFree(s: string, known: set<string>, lower: Lower)
    requires NulFree(s) && NulFreeLedger(known)
    ensures NulFree(RewriteBare(s, known, lower))
    decreases |s|
  {
    if s != [] {
      if UrlLen(s) > 0 {
        ReplacementNulFree(s[..UrlLen(s)], known, lower);
        RewriteNulFree(s[UrlLen(s)..], known, lower);
      } else {
        RewriteNulFree(s[1..], known, lower);
      }
    }
  }

  predicate NulFreeGaps(d: Doc) {
    NulFree(d.gap) && (d.Linked? ==> NulFreeGaps(d.rest))
  }

  lemma {:induction false} NulFreeParts(d: Doc)
    requires NulFree(Unparse(d))
    ensures NulFreeGaps(d)
  {
    assert forall c | c in d.gap :: c in Unparse(d);
    if d.Linked? {
      assert forall c | c in Unparse(d.rest) :: c in Unparse(d);
      NulFreeParts(d.rest);
    }
  }

  lemma {:induction false} MergedRestore(d: Doc, pre: seq<string>, known: set<string>, lower: Lower)
    requires NulFreeGaps(d) && NulFreeLedger(known)
    ensures Restore(MergedSlots(d, |pre|, known, lower), pre + Stash(d, known, lower)) == Merged(d, known, lower)
    decreases d
  {
    var g := RewriteBare(d.gap, known, lower);
    var stash := pre + Stash(d, known, lower);
    RewriteNulFree(d.gap, known, lower);
    if d.Tail? {
      RestoreText(g, [], stash);
      assert g + [] == g && Restore([], stash) == [];
    } else {
      var r := LinkReplacement(d.caption, d.target, known, lower);
      var pre' := pre + [r];
      Assoc(pre, [r], Stash(d.rest, known, lower));
      MergedRestore(d.rest, pre', known, lower);
      var later := MergedSlots(d.rest, |pre'|, known, lower);
      RestoreText(g, SlotText(|pre|) + later, stash);
      RestoreSlot(|pre|, later, stash);
    }
  }

  /** When no bare URL runs into a link, gaps and links are rewritten independently. */
  lemma SeparatedIsMerged(text: string, known: set<string>, lower: Lower)
    requires NulFree(text) && NulFreeLedger(known) && Separated(text)
    ensures Enforced(text, known, lower).output == Merged(Parse(text), known, lower)
  {
    var d := Parse(text);
    UnparseParse(text);
    SeparatedPass(d, 0, known, lower);
    NulFreeParts(d);
    MergedRestore(d, [], known, lower);
    assert [] + Stash(d, known, lower) == Stash(d, known, lower);
  }
}
