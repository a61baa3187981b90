/** The NUL placeholders of `enforce`: on NUL-free input every slot that survives the bare-URL pass
    is restored exactly. */
module LinkPlaceholders {
  import opened LinkResolver
  import opened LinkEnforcer
  import opened LinkSlots

  // ----- the token view of a whole run ----------------------------------------------------

  function LinkCount(d: Doc): nat {
    if d.Tail? then 0 else 1 + LinkCount(d.rest)
  }

  function SlotToks(d: Doc, i: nat): seq<Tok>
    decreases d
  {
    match d
    case Tail(g) => Chars(g)
    case Linked(g, _, _, rest) => Chars(g) + ([Slot(i)] + SlotToks(rest, i + 1))
  }

  lemma {:induction false} SoundConcat(a: seq<Tok>, b: seq<Tok>, n: nat)
    ensures Sound(a + b, n) <==> Sound(a, n) && Sound(b, n)
  {
    assert forall k | 0 <= k < |a| :: (a + b)[k] == a[k];
    assert forall k | 0 <= k < |b| :: (a + b)[|a| + k] == b[k];
  }

  lemma {:induction false} CharsSound(s: string, n: nat)
    requires NulFree(s)
    ensures Sound(Chars(s), n)
  {
    assert forall k | 0 <= k < |s| :: s[k] in s;
  }

  lemma {:induction false} SlotToksRender(d: Doc, i: nat)
    ensures Render(SlotToks(d, i)) == WithSlots(d, i)
    decreases d
  {
    hide SlotText;
    RenderChars(d.gap);
    if d.Linked? {
      SlotToksRender(d.rest, i + 1);
      var later := SlotToks(d.rest, i + 1);
      assert ([Slot(i)] + later)[1..] == later;
      RenderConcat(Chars(d.gap), [Slot(i)] + later);
    }
  }

  lemma {:induction false} SlotToksSound(d: Doc, i: nat)
    requires NulFree(Unparse(d))
    ensures Sound(SlotToks(d, i), i + LinkCount(d))
    decreases d
  {
    var n := i + LinkCount(d);
    assert forall c | c in d.gap :: c in Unparse(d);
    CharsSound(d.gap, n);
    if d.Linked? {
      assert forall c | c in Unparse(d.rest) :: c in Unparse(d);
      SlotToksSound(d.rest, i + 1);
      SoundConcat([Slot(i)], SlotToks(d.rest, i + 1), n);
      SoundConcat(Chars(d.gap), [Slot(i)] + SlotToks(d.rest, i + 1), n);
    }
  }

  ghost predicate NulFreeLedger(known: set<string>) {
    forall k | k in known :: NulFree(k)
  }

  lemma ReplacementNulFree(raw: string, known: set<string>, lower: Lower)
    requires NulFreeLedger(known)
    ensures NulFree(BareReplacement(raw, known, lower))
  {
    hide Resolve, NormalizeRaw, Suffix;
    ResolveStaysInLedger(NormalizeRaw(raw), known, lower);
    SuffixIsPunct(raw);
    assert !IsTrailingPunct(NUL);
  }

  lemma {:induction false} RewriteToksSound(toks: seq<Tok>, n: nat, known: set<string>, lower: Lower)
    requires Sound(toks, n) && NulFreeLedger(known)
    ensures Sound(RewriteToks(toks, known, lower), n)
    decreases |toks|
  {
    if toks != [] {
      var k := LeadRun(toks);
      if UrlLen(Render(toks)) > 0 && k > 0 {
        RewriteToksSound(toks[k..], n, known, lower);
        var r := BareReplacement(Render(toks[..k]), known, lower);
        ReplacementNulFree(Render(toks[..k]), known, lower);
        CharsSound(r, n);
        SoundConcat(Chars(r), RewriteToks(toks[k..], known, lower), n);
      } else {
        RewriteToksSound(toks[1..], n, known, lower);
      }
    }
  }

  lemma {:induction false} StashNulFree(d: Doc, known: set<string>, lower: Lower)
    requires NulFree(Unparse(d)) && NulFreeLedger(known)
    ensures |Stash(d, known, lower)| == LinkCount(d)
    ensures forall i | 0 <= i < LinkCount(d) :: NulFree(Stash(d, known, lower)[i])
  {
    hide Resolve, NormalizeRaw;
    if d.Linked? {
      assert forall c | c in Unparse(d.rest) || c in d.caption :: c in Unparse(d);
      StashNulFree(d.rest, known, lower);
      ResolveStaysInLedger(NormalizeRaw(d.target), known, lower);
    }
  }

  lemma {:induction false} SubstNulFree(toks: seq<Tok>, stash: seq<string>)
    requires Sound(toks, |stash|)
    requires forall i | 0 <= i < |stash| :: NulFree(stash[i])
    ensures NulFree(Subst(toks, stash))
  {
    if toks != [] { SubstNulFree(toks[1..], stash); }
  }

  /** On NUL-free text and ledger the restoration never meets a missing slot: the output is the
      token stream with each surviving placeholder replaced by its own link, free of NULs. */
  lemma RestorationIsTotal(text: string, known: set<string>, lower: Lower)
    requires NulFree(text) && NulFreeLedger(known)
    ensures var d := Parse(text);
      && Sound(RewriteToks(SlotToks(d, 0), known, lower), |Stash(d, known, lower)|)
      && Enforced(text, known, lower).output
         == Subst(RewriteToks(SlotToks(d, 0), known, lower), Stash(d, known, lower))
    ensures NulFree(Enforced(text, known, lower).output)
  {
    var d := Parse(text);
    UnparseParse(text);
    var stash := Stash(d, known, lower);
    StashNulFree(d, known, lower);
    SlotToksRender(d, 0);
    SlotToksSound(d, 0);
    RewriteToksCommutes(SlotToks(d, 0), known, lower);
    RewriteToksSound(SlotToks(d, 0), |stash|, known, lower);
    RestoreRendered(RewriteToks(SlotToks(d, 0), known, lower), stash);
    SubstNulFree(RewriteToks(SlotToks(d, 0), known, lower), stash);
  }
}
