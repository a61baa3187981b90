/** When `enforce` changes nothing, and when running it twice is running it once. */
module LinkIdentity {
  import opened Text
  import opened LinkResolver
  import opened LinkEnforcer
  import opened LinkMerging
  import opened LinkPlaceholders
  import opened LinkSlots

  /** The link is recorded in the very form in which it is written. */
  predicate RecordedAsWritten(raw: string, url: string, known: set<string>) {
    NormalizeRaw(raw) == url && url in known
  }

  predicate AsWritten(text: string, known: set<string>) {
    var d := Parse(text);
    && (forall t | t in Targets(d) :: RecordedAsWritten(t, t, known))
    && (forall m | m in UrlMatches(WithSlots(d, 0)) :: RecordedAsWritten(m, TrimPunct(m), known))
  }

  // ----- the report is empty exactly when every link is recorded ------------------------------

  lemma {:induction false} NothingReported(urls: seq<string>, known: set<string>, lower: Lower)
    ensures Repairs(urls, known, lower) == [] && Removals(urls, known, lower) == []
       <==> forall u | u in urls :: u in known
  {
    hide Resolve;
    if urls != [] {
      NothingReported(urls[1..], known, lower);
      ResolveStaysInLedger(urls[0], known, lower);
      assert urls == [urls[0]] + urls[1..];
    }
  }

  predicate AllFound(text: string, known: set<string>) {
    var d := Parse(text);
    && (forall t | t in Targets(d) :: NormalizeRaw(t) in known)
    && (forall m | m in UrlMatches(WithSlots(d, 0)) :: NormalizeRaw(m) in known)
  }

  lemma AllRecorded(text: string, known: set<string>)
    ensures (forall u | u in Urls(text) :: u in known) <==> AllFound(text, known)
  {
    hide Parse, Targets, UrlMatches, WithSlots, NormalizeRaw, NormalizeAll;
    var d := Parse(text);
    var targets, bare := Targets(d), UrlMatches(WithSlots(d, 0));
    forall t | t in targets ensures NormalizeRaw(t) in Urls(text) {
      var i :| 0 <= i < |targets| && targets[i] == t;
      assert NormalizeAll(targets)[i] in Urls(text);
    }
    forall m | m in bare ensures NormalizeRaw(m) in Urls(text) {
      var i :| 0 <= i < |bare| && bare[i] == m;
      assert NormalizeAll(bare)[i] in Urls(text);
    }
  }

  /** A recorded link never swallows a placeholder. */
  lemma RecordedIsSeparated(text: string, known: set<string>)
    requires NulFreeLedger(known)
    requires forall m | m in UrlMatches(WithSlots(Parse(text), 0)) :: NormalizeRaw(m) in known
    ensures Separated(text)
  {
    hide UrlMatches, Parse, WithSlots;
    forall m | m in UrlMatches(WithSlots(Parse(text), 0)) ensures NulFree(m) {
      DecodeKeepsChars(TrimPunct(m));
      SuffixIsPunct(m);
      assert forall c | IsTrailingPunct(c) :: c != NUL;
    }
  }

  // ----- rewriting recorded links never lengthens the text ------------------------------------

  /** Bare URLs of all the gaps. */
  function GapUrls(d: Doc): seq<string> {
    match d
    case Tail(g) => UrlMatches(g)
    case Linked(g, _, _, rest) => UrlMatches(g) + GapUrls(rest)
  }

  lemma {:induction false} SeparatedGapUrls(d: Doc, i: nat)
    requires forall m | m in UrlMatches(WithSlots(d, i)) :: NulFree(m)
    ensures UrlMatches(WithSlots(d, i)) == GapUrls(d)
    decreases d
  {
    if d.Linked? {
      WithSlotsStep(d, i);
      SlotTextIsUrlText(i);
      CopiesText(SlotText(i), WithSlots(d.rest, i + 1), {}, s => s);
      GapMatches(d.gap, SlotText(i) + WithSlots(d.rest, i + 1));
      SeparatedGapUrls(d.rest, i + 1);
    }
  }

  lemma {:induction false} RecordedUrlShrinks(raw: string, known: set<string>, lower: Lower)
    requires NormalizeRaw(raw) in known
    ensures |BareReplacement(raw, known, lower)| <= |raw|
    ensures |BareReplacement(raw, known, lower)| == |raw| <==> NormalizeRaw(raw) == TrimPunct(raw)
    ensures NormalizeRaw(raw) == TrimPunct(raw) ==> BareReplacement(raw, known, lower) == raw
  {
    DecodeShrinks(TrimPunct(raw));
    SuffixIsPunct(raw);
    ResolveStaysInLedger(NormalizeRaw(raw), known, lower);
  }

  lemma {:induction false} GapShrinks(s: string, known: set<string>, lower: Lower)
    requires forall m | m in UrlMatches(s) :: NormalizeRaw(m) in known
    ensures |RewriteBare(s, known, lower)| <= |s|
    ensures |RewriteBare(s, known, lower)| == |s| <==> forall m | m in UrlMatches(s) :: NormalizeRaw(m) == TrimPunct(m)
    ensures (forall m | m in UrlMatches(s) :: NormalizeRaw(m) == TrimPunct(m)) ==> RewriteBare(s, known, lower) == s
    decreases |s|
  {
    if s != [] {
      var k := StepLen(s);
      CutAt(s, k);
      RewriteStep(s, known, lower);
      if UrlLen(s) > 0 {
        assert UrlMatches(s) == [s[..k]] + UrlMatches(s[k..]);
        RecordedUrlShrinks(s[..k], known, lower);
      }
      GapShrinks(s[k..], known, lower);
    }
  }

  lemma {:induction false} LinkShrinks(c: string, t: string, known: set<string>, lower: Lower)
    requires NormalizeRaw(t) in known
    ensures |LinkReplacement(c, t, known, lower)| <= |LinkText(c, t)|
    ensures |LinkReplacement(c, t, known, lower)| == |LinkText(c, t)| <==> NormalizeRaw(t) == t
    ensures NormalizeRaw(t) == t ==> LinkReplacement(c, t, known, lower) == LinkText(c, t)
  {
    DecodeShrinks(TrimPunct(t));
    ResolveStaysInLedger(NormalizeRaw(t), known, lower);
  }

  predicate AllFixed(d: Doc) {
    && (forall t | t in Targets(d) :: NormalizeRaw(t) == t)
    && (forall m | m in GapUrls(d) :: NormalizeRaw(m) == TrimPunct(m))
  }

  lemma {:induction false} MergedShrinks(d: Doc, known: set<string>, lower: Lower)
    requires forall t | t in Targets(d) :: NormalizeRaw(t) in known
    requires forall m | m in GapUrls(d) :: NormalizeRaw(m) in known
    ensures |Merged(d, known, lower)| <= |Unparse(d)|
    ensures |Merged(d, known, lower)| == |Unparse(d)| <==> AllFixed(d)
    ensures AllFixed(d) ==> Merged(d, known, lower) == Unparse(d)
  {
    if d.Tail? {
      GapShrinks(d.gap, known, lower);
    } else {
      assert forall m :: m in GapUrls(d) <==> m in UrlMatches(d.gap) || m in GapUrls(d.rest);
      assert forall t :: t in Targets(d) <==> t == d.target || t in Targets(d.rest);
      GapShrinks(d.gap, known, lower);
      LinkShrinks(d.caption, d.target, known, lower);
      MergedShrinks(d.rest, known, lower);
    }
  }

  lemma FoundShrinks(text: string, known: set<string>, lower: Lower)
    requires NulFree(text) && NulFreeLedger(known) && AllFound(text, known)
    ensures Enforced(text, known, lower).output == text <==> AsWritten(text, known)
  {
    hide Enforced, Parse, UrlMatches, Merged;
    var d := Parse(text);
    UnparseParse(text);
    RecordedIsSeparated(text, known);
    SeparatedIsMerged(text, known, lower);
    SeparatedGapUrls(d, 0);
    MergedShrinks(d, known, lower);
    assert AsWritten(text, known) <==> AllFixed(d);
  }

  lemma EmptyReport(text: string, known: set<string>, lower: Lower)
    ensures var r := Enforced(text, known, lower);
      AllFound(text, known) <==> r.repaired == [] && r.removed == []
  {
    NothingReported(Urls(text), known, lower);
    AllRecorded(text, known);
  }

  /** `enforce` returns the text untouched with an empty report exactly when every link is
      recorded in the form in which it is written. */
  lemma IdentityExactly(text: string, known: set<string>, lower: Lower)
    requires NulFree(text) && NulFreeLedger(known)
    ensures Enforced(text, known, lower) == LinkCheck(text, [], []) <==> AsWritten(text, known)
  {
    EmptyReport(text, known, lower);
    if AllFound(text, known) {
      FoundShrinks(text, known, lower);
    } else {
      assert !AsWritten(text, known);
    }
  }
}
