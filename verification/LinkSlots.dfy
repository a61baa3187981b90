/** Text with the NUL placeholders of `enforce` as tokens: the bare-URL pass and the restoration
    act on whole placeholders. */
module LinkSlots {
  import opened Text
  import opened LinkResolver
  import opened LinkEnforcer

  /** A character of text, or a whole placeholder. */
  datatype Tok = Ch(c: char) | Slot(i: nat)

  function TokText(t: Tok): string {
    match t
    case Ch(c) => [c]
    case Slot(i) => SlotText(i)
  }

  function Render(toks: seq<Tok>): string {
    if toks == [] then [] else TokText(toks[0]) + Render(toks[1..])
  }

  function Chars(s: string): (toks: seq<Tok>)
    ensures |toks| == |s|
    ensures forall i | 0 <= i < |s| :: toks[i] == Ch(s[i])
  {
    if s == [] then [] else [Ch(s[0])] + Chars(s[1..])
  }

  /** Slots replaced by what was stashed for them. */
  function Subst(toks: seq<Tok>, stash: seq<string>): string
    requires forall k | 0 <= k < |toks| :: toks[k].Slot? ==> toks[k].i < |stash|
  {
    if toks == [] then [] else
      (match toks[0] case Ch(c) => [c] case Slot(i) => stash[i]) + Subst(toks[1..], stash)
  }

  predicate NulFree(s: string) { NUL !in s }

  /** No raw NUL outside a placeholder, and every slot is in the stash. */
  predicate Sound(toks: seq<Tok>, n: nat) {
    forall k | 0 <= k < |toks| :: if toks[k].Ch? then toks[k].c != NUL else toks[k].i < n
  }

  // ----- restoration --------------------------------------------------------------------

  lemma {:induction false} SplitAfter(a: string, sep: char, b: string)
    requires sep !in a
    ensures Split(a + [sep] + b, sep) == [a] + Split(b, sep)
  {
    if a == [] {
      assert a + [sep] + b == [sep] + b;
    } else {
      assert (a + [sep] + b)[1..] == a[1..] + [sep] + b;
      SplitAfter(a[1..], sep, b);
      assert a[0] in a && a == [a[0]] + a[1..];
    }
  }

  lemma ParseDecimal(i: nat)
    ensures ParseIndex(Decimal(i)) == Some(i)
  {
    DecimalRoundTrip(i);
    assert IsDigit(Decimal(i)[0]);
  }

  lemma RestoreChar(c: char, s: string, stash: seq<string>)
    requires c != NUL
    ensures Restore([c] + s, stash) == [c] + Restore(s, stash)
  {
    assert ([c] + s)[1..] == s;
    var parts := Split(s, NUL);
    assert Split([c] + s, NUL) == [[c] + parts[0]] + parts[1..];
    assert Split([c] + s, NUL)[1..] == parts[1..];
  }

  lemma RestoreSlot(i: nat, s: string, stash: seq<string>)
    requires i < |stash|
    ensures Restore(SlotText(i) + s, stash) == stash[i] + Restore(s, stash)
  {
    hide Decimal, ParseIndex;
    var d := Decimal(i);
    var parts := Split(s, NUL);
    SplitAfter(d, NUL, s);
    SplitAfter([], NUL, d + [NUL] + s);
    assert SlotText(i) + s == [] + [NUL] + (d + [NUL] + s);
    ParseDecimal(i);
    assert Split(SlotText(i) + s, NUL) == [[]] + ([d] + parts);
    assert ([[]] + ([d] + parts))[1..] == [d] + parts;
    assert ([d] + parts)[2..] == parts[1..];
  }

  /** Splitting at NUL and reading the indices back finds every placeholder again. */
  lemma {:induction false} RestoreRendered(toks: seq<Tok>, stash: seq<string>)
    requires Sound(toks, |stash|)
    ensures Restore(Render(toks), stash) == Subst(toks, stash)
  {
    if toks != [] {
      RestoreRendered(toks[1..], stash);
      var s := Render(toks[1..]);
      match toks[0]
      case Ch(c) => RestoreChar(c, s, stash);
      case Slot(i) => RestoreSlot(i, s, stash);
    }
  }

  // ----- the bare-URL pass on whole placeholders ------------------------------------------

  predicate InRun(t: Tok) { t.Slot? || IsUrlChar(t.c) }

  /** Leading tokens whose text consists of URL characters. */
  function LeadRun(toks: seq<Tok>): (k: nat)
    ensures k <= |toks|
  {
    if toks != [] && InRun(toks[0]) then 1 + LeadRun(toks[1..]) else 0
  }

  lemma SlotTextIsUrlText(i: nat)
    ensures forall c | c in SlotText(i) :: IsUrlChar(c) && c != 'h'
    ensures SlotText(i) != []
  {
    assert forall c | IsDigit(c) :: IsUrlChar(c) && c != 'h';
    assert IsUrlChar(NUL);
  }

  lemma {:induction false} RunEndsAtToken(toks: seq<Tok>)
    ensures RunLen(Render(toks), IsUrlChar) == |Render(toks[..LeadRun(toks)])|
  {
    if toks != [] && InRun(toks[0]) {
      RunEndsAtToken(toks[1..]);
      if toks[0].Slot? { SlotTextIsUrlText(toks[0].i); }
      RunSplit(TokText(toks[0]), Render(toks[1..]), IsUrlChar);
      assert toks[..LeadRun(toks)][1..] == toks[1..][..LeadRun(toks[1..])];
    }
  }

  lemma RenderCut(toks: seq<Tok>, k: nat)
    requires k <= |toks|
    ensures Render(toks) == Render(toks[..k]) + Render(toks[k..])
  {
    CutAt(toks, k);
    RenderConcat(toks[..k], toks[k..]);
  }

  /** The bare-URL pass, acting on tokens. */
  ghost function RewriteToks(toks: seq<Tok>, known: set<string>, lower: Lower): seq<Tok>
    decreases |toks|
  {
    if toks == [] then []
    else if UrlLen(Render(toks)) > 0 && LeadRun(toks) > 0 then
      Chars(BareReplacement(Render(toks[..LeadRun(toks)]), known, lower))
      + RewriteToks(toks[LeadRun(toks)..], known, lower)
    else [toks[0]] + RewriteToks(toks[1..], known, lower)
  }

  lemma {:induction false} RenderChars(s: string)
    ensures Render(Chars(s)) == s
  {
    if s != [] {
      RenderChars(s[1..]);
      RenderCons(Ch(s[0]), Chars(s[1..]));
      CutAt(s, 1);
      assert s[..1] == [s[0]];
    }
  }

  lemma RenderCons(t: Tok, toks: seq<Tok>)
    ensures Render([t] + toks) == TokText(t) + Render(toks)
  {
    assert ([t] + toks)[1..] == toks;
  }

  lemma {:induction false} RenderConcat(a: seq<Tok>, b: seq<Tok>)
    ensures Render(a + b) == Render(a) + Render(b)
  {
    if a == [] {
      assert a + b == b;
    } else {
      assert (a + b)[1..] == a[1..] + b;
      RenderConcat(a[1..], b);
    }
  }

  lemma StartsNoUrl(s: string)
    requires s == [] || s[0] != 'h'
    ensures SchemeLen(s) == UrlLen(s) == 0
  {
  }

  lemma {:induction false} SkipsNonUrls(a: string, b: string)
    requires 'h' !in a
    ensures UrlMatches(a + b) == UrlMatches(b)
  {
    if a == [] {
      assert a + b == b;
    } else {
      assert a[0] in a;
      StartsNoUrl(a + b);
      assert (a + b)[1..] == a[1..] + b;
      SkipsNonUrls(a[1..], b);
    }
  }

  lemma {:induction false} CopiesNonUrls(a: string, b: string, known: set<string>, lower: Lower)
    requires 'h' !in a
    ensures RewriteBare(a + b, known, lower) == a + RewriteBare(b, known, lower)
  {
    if a == [] {
      assert a + b == b;
    } else {
      assert a[0] in a;
      StartsNoUrl(a + b);
      assert (a + b)[1..] == a[1..] + b;
      CopiesNonUrls(a[1..], b, known, lower);
      Assoc([a[0]], a[1..], RewriteBare(b, known, lower));
      CutAt(a, 1);
      assert a[..1] == [a[0]];
    }
  }

  /** Text that contains no 'h' starts no URL and is copied. */
  lemma CopiesText(a: string, b: string, known: set<string>, lower: Lower)
    requires 'h' !in a
    ensures RewriteBare(a + b, known, lower) == a + RewriteBare(b, known, lower)
    ensures UrlMatches(a + b) == UrlMatches(b)
  {
    SkipsNonUrls(a, b);
    CopiesNonUrls(a, b, known, lower);
  }

  lemma {:induction false} RewriteToksCommutes(toks: seq<Tok>, known: set<string>, lower: Lower)
    ensures RewriteBare(Render(toks), known, lower) == Render(RewriteToks(toks, known, lower))
    decreases |toks|
  {
    if toks != [] {
      var s, k := Render(toks), LeadRun(toks);
      UrlLenIsRun(s);
      RunEndsAtToken(toks);
      if UrlLen(s) > 0 {
        RenderCut(toks, k);
        assert k != 0;
        RewriteToksCommutes(toks[k..], known, lower);
        var r := BareReplacement(Render(toks[..k]), known, lower);
        RenderChars(r);
        RenderConcat(Chars(r), RewriteToks(toks[k..], known, lower));
      } else {
        RewriteToksCommutes(toks[1..], known, lower);
        if toks[0].Slot? {
          SlotTextIsUrlText(toks[0].i);
          CopiesText(SlotText(toks[0].i), Render(toks[1..]), known, lower);
        } else {
          assert s == [toks[0].c] + Render(toks[1..]);
        }
      }
    }
  }
}
