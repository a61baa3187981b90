/** src/agent/dispatcher.rs: the six tag replacements in front of the tool-call parser. */
module ToolTags {
  import opened Text

  /** `<...>` with no other angle bracket inside. */
  predicate IsTag(t: string) {
    && |t| >= 2 && t[0] == '<' && t[|t| - 1] == '>'
    && forall i | 0 < i < |t| - 1 :: t[i] != '<' && t[i] != '>'
  }

  const OPEN := "<tool_call>"
  const CLOSE := "</tool_call>"

  /** Every tag variant with the tag it stands for. */
  const VARIANTS: seq<(string, string)> := [
    ("<toolcall>", OPEN), ("</toolcall>", CLOSE),
    ("<tool-call>", OPEN), ("</tool-call>", CLOSE),
    ("<invoke>", OPEN), ("</invoke>", CLOSE)]

  /** Pairs of tags, no replacement being a tag to replace. */
  ghost predicate TagPairs(subs: seq<(string, string)>) {
    && (forall i | 0 <= i < |subs| :: IsTag(subs[i].0) && IsTag(subs[i].1))
    && (forall i, j | 0 <= i < |subs| && 0 <= j < |subs| :: subs[i].1 != subs[j].0)
  }

  /** One `replace` after the other. */
  function Sequential(subs: seq<(string, string)>, s: string): string
    requires forall i | 0 <= i < |subs| :: IsTag(subs[i].0)
  {
    if subs == [] then s else
      assert IsTag(subs[0].0);
      Sequential(subs[1..], Replace(s, subs[0].0, subs[0].1))
  }

  /** The first pair whose left side starts `s`. */
  function HeadSub(subs: seq<(string, string)>, s: string): (m: Option<(string, string)>)
    ensures m.Some? ==> m.value in subs && m.value.0 <= s
    ensures m.None? ==> forall p | p in subs :: !(p.0 <= s)
  {
    if subs == [] then None
    else if subs[0].0 <= s then Some(subs[0])
    else HeadSub(subs[1..], s)
  }

  /** All replacements at once, left to right. */
  function Simultaneous(subs: seq<(string, string)>, s: string): string
    requires forall p | p in subs :: IsTag(p.0)
    decreases |s|
  {
    if s == [] then []
    else match HeadSub(subs, s)
      case Some(p) => p.1 + Simultaneous(subs, s[|p.0|..])
      case None => [s[0]] + Simultaneous(subs, s[1..])
  }

  // ----- tags in text ---------------------------------------------------------------------------

  /** Two tags at the start of the same text are the same tag. */
  lemma TagsAlign(f: string, t: string, x: string)
    requires IsTag(f) && IsTag(t) && f <= t + x
    ensures f == t
  {
    assert (t + x)[|f| - 1] == '>' && (t + x)[|t| - 1] == '>';
    assert forall i | 0 <= i < |f| :: f[i] == (t + x)[i];
  }

  predicate NoAngle(w: string) { '<' !in w }

  lemma TagTail(t: string)
    requires IsTag(t)
    ensures NoAngle(t[1..])
  {
  }

  /** Text without '<' is copied by a tag replacement. */
  lemma {:induction false} ReplaceKeepsPrefix(w: string, s: string, f: string, t: string)
    requires NoAngle(w) && IsTag(f) && IsTag(t)
    requires w <= Replace(s, f, t)
    ensures w <= s
    decreases |s|
  {
    if s != [] && w != [] {
      assert w[0] in w;
      if !(f <= s) {
        var r := Replace(s[1..], f, t);
        assert ([s[0]] + r)[1..] == r;
        assert w[1..] <= r;
        ReplaceKeepsPrefix(w[1..], s[1..], f, t);
      }
    }
  }

  lemma {:induction false} SimultaneousKeepsPrefix(w: string, s: string, subs: seq<(string, string)>)
    requires NoAngle(w) && forall p | p in subs :: IsTag(p.0) && IsTag(p.1)
    requires w <= Simultaneous(subs, s)
    ensures w <= s
    decreases |s|
  {
    if s != [] && w != [] {
      assert w[0] in w;
      if HeadSub(subs, s) == None {
        var r := Simultaneous(subs, s[1..]);
        assert ([s[0]] + r)[1..] == r;
        assert w[1..] <= r;
        SimultaneousKeepsPrefix(w[1..], s[1..], subs);
      }
    }
  }

  lemma StartsNoTag(s: string, subs: seq<(string, string)>)
    requires forall p | p in subs :: IsTag(p.0)
    requires s != [] && s[0] != '<'
    ensures HeadSub(subs, s) == None
  {
  }

  lemma {:induction false} SimultaneousCopies(w: string, x: string, subs: seq<(string, string)>)
    requires NoAngle(w) && forall p | p in subs :: IsTag(p.0)
    ensures Simultaneous(subs, w + x) == w + Simultaneous(subs, x)
  {
    if w == [] {
      assert w + x == x;
    } else {
      assert w[0] in w;
      StartsNoTag(w + x, subs);
      assert (w + x)[1..] == w[1..] + x;
      SimultaneousCopies(w[1..], x, subs);
      Assoc([w[0]], w[1..], Simultaneous(subs, x));
      CutAt(w, 1);
      assert w[..1] == [w[0]];
    }
  }

  /** A tag that is not replaced passes unchanged. */
  lemma SimultaneousPassesTag(t: string, x: string, subs: seq<(string, string)>)
    requires IsTag(t) && forall p | p in subs :: IsTag(p.0) && p.0 != t
    ensures Simultaneous(subs, t + x) == t + Simultaneous(subs, x)
  {
    var m := HeadSub(subs, t + x);
    if m.Some? { TagsAlign(m.value.0, t, x); }
    TagTail(t);
    SimultaneousCopies(t[1..], x, subs);
    assert (t + x)[1..] == t[1..] + x;
    Assoc([t[0]], t[1..], Simultaneous(subs, x));
    CutAt(t, 1);
    assert t[..1] == [t[0]];
  }

  lemma ReplacePassesTag(g: string, x: string, f: string, t: string)
    requires IsTag(g) && IsTag(f) && g != f
    ensures Replace(g + x, f, t) == g + Replace(x, f, t)
  {
    if f <= g + x { TagsAlign(f, g, x); }
    TagTail(g);
    ReplaceSkips(g[1..], x, f, t);
    assert (g + x)[1..] == g[1..] + x;
    Assoc([g[0]], g[1..], Replace(x, f, t));
    CutAt(g, 1);
    assert g[..1] == [g[0]];
  }

  lemma {:induction false} HeadSubOfTag(subs: seq<(string, string)>, g: string, x: string, y: string)
    requires IsTag(g) && forall p | p in subs :: IsTag(p.0)
    ensures HeadSub(subs, g + x) == HeadSub(subs, g + y)
  {
    if subs != [] {
      assert subs[0] in subs;
      HeadSubOfTag(subs[1..], g, x, y);
      if subs[0].0 <= g + x { TagsAlign(subs[0].0, g, x); }
      if subs[0].0 <= g + y { TagsAlign(subs[0].0, g, y); }
    }
  }

  /** Replacing one more tag first is one more simultaneous replacement. */
  lemma {:induction false} ReplaceThenSimultaneous(f: string, t: string, rest: seq<(string, string)>, s: string)
    requires IsTag(f) && IsTag(t)
    requires forall p | p in rest :: IsTag(p.0) && IsTag(p.1) && p.0 != t
    ensures Simultaneous(rest, Replace(s, f, t)) == Simultaneous([(f, t)] + rest, s)
    decreases |s|
  {
    var all := [(f, t)] + rest;
    assert all[0] == (f, t) && all[1..] == rest;
    if s != [] {
      var m := HeadSub(rest, s);
      if f <= s {
        ReplaceThenSimultaneous(f, t, rest, s[|f|..]);
        SimultaneousPassesTag(t, Replace(s[|f|..], f, t), rest);
      } else if m.Some? {
        var p, tail := m.value, s[|m.value.0|..];
        CutAt(s, |p.0|);
        assert s == p.0 + tail;
        ReplacePassesTag(p.0, tail, f, t);
        ReplaceThenSimultaneous(f, t, rest, tail);
        SubstitutesTag(rest, p, tail, Replace(tail, f, t));
      } else {
        var r := Replace(s[1..], f, t);
        ReplaceThenSimultaneous(f, t, rest, s[1..]);
        assert ([s[0]] + r)[1..] == r;
        NoNewTag(rest, s, f, t);
      }
    }
  }

  lemma SubstitutesTag(subs: seq<(string, string)>, p: (string, string), x: string, y: string)
    requires forall q | q in subs :: IsTag(q.0)
    requires HeadSub(subs, p.0 + x) == Some(p)
    ensures Simultaneous(subs, p.0 + y) == p.1 + Simultaneous(subs, y)
  {
    HeadSubOfTag(subs, p.0, x, y);
    assert (p.0 + y)[|p.0|..] == y;
  }

  lemma NoNewTag(subs: seq<(string, string)>, s: string, f: string, t: string)
    requires s != [] && IsTag(f) && IsTag(t) && !(f <= s)
    requires (forall p | p in subs :: IsTag(p.0)) && HeadSub(subs, s) == None
    ensures HeadSub(subs, [s[0]] + Replace(s[1..], f, t)) == None
  {
    var r := Replace(s[1..], f, t);
    var m := HeadSub(subs, [s[0]] + r);
    if m.Some? {
      var g := m.value.0;
      TagTail(g);
      assert ([s[0]] + r)[1..] == r;
      assert g[1..] <= r;
      ReplaceKeepsPrefix(g[1..], s[1..], f, t);
    }
  }

  /** The sequential replacements are one simultaneous left-to-right substitution. */
  lemma {:induction false} SequentialIsSimultaneous(subs: seq<(string, string)>, s: string)
    requires TagPairs(subs)
    ensures Sequential(subs, s) == Simultaneous(subs, s)
  {
    if subs == [] {
      NothingToReplace(s);
    } else {
      var f, t, rest := subs[0].0, subs[0].1, subs[1..];
      assert subs == [(f, t)] + rest;
      SequentialIsSimultaneous(rest, Replace(s, f, t));
      ReplaceThenSimultaneous(f, t, rest, s);
    }
  }

  lemma {:induction false} NothingToReplace(s: string)
    ensures Simultaneous([], s) == s
  {
    if s != [] {
      NothingToReplace(s[1..]);
      CutAt(s, 1);
      assert s[..1] == [s[0]];
    }
  }

  /** No tag that is to be replaced is in the result. */
  lemma {:induction false} NoVariantRemains(subs: seq<(string, string)>, s: string, p: (string, string))
    requires TagPairs(subs) && p in subs
    ensures !Contains(Simultaneous(subs, s), p.0)
    decreases |s|
  {
    if s != [] {
      match HeadSub(subs, s)
      case Some(q) =>
        NoVariantRemains(subs, s[|q.0|..], p);
        TagBefore(q.1, Simultaneous(subs, s[|q.0|..]), p.0);
      case None =>
        var r := Simultaneous(subs, s[1..]);
        NoVariantRemains(subs, s[1..], p);
        assert ([s[0]] + r)[1..] == r;
        if p.0 <= [s[0]] + r {
          TagTail(p.0);
          assert p.0[1..] <= r;
          SimultaneousKeepsPrefix(p.0[1..], s[1..], subs);
        }
    }
  }

  /** A tag in front of a text does not make another tag appear. */
  lemma {:induction false} TagBefore(t: string, x: string, f: string)
    requires IsTag(t) && IsTag(f) && t != f && !Contains(x, f)
    ensures !Contains(t + x, f)
  {
    if f <= t + x { TagsAlign(f, t, x); }
    TagTail(t);
    PlainBefore(t[1..], x, f);
    assert (t + x)[1..] == t[1..] + x;
  }

  lemma {:induction false} PlainBefore(w: string, x: string, f: string)
    requires NoAngle(w) && IsTag(f) && !Contains(x, f)
    ensures !Contains(w + x, f)
  {
    if w == [] {
      assert w + x == x;
    } else {
      assert w[0] in w && (w + x)[1..] == w[1..] + x;
      PlainBefore(w[1..], x, f);
    }
  }

  /** A text without any of the tags is left alone. */
  lemma {:induction false} CleanIsFixed(subs: seq<(string, string)>, s: string)
    requires forall p | p in subs :: IsTag(p.0) && !Contains(s, p.0)
    ensures Simultaneous(subs, s) == s
  {
    if s != [] {
      CleanIsFixed(subs, s[1..]);
      CutAt(s, 1);
      assert s[..1] == [s[0]];
    }
  }

  /** The chain of replacements at the head of `parse_xml_tool_calls`. */
  function NormalizeTags(response: string): string {
    Replace(Replace(Replace(Replace(Replace(Replace(response,
      "<toolcall>", OPEN), "</toolcall>", CLOSE),
      "<tool-call>", OPEN), "</tool-call>", CLOSE),
      "<invoke>", OPEN), "</invoke>", CLOSE)
  }

  lemma OpenersAreTags()
    ensures IsTag(OPEN) && IsTag("<toolcall>") && IsTag("<tool-call>") && IsTag("<invoke>")
    ensures OPEN[1] == 't' && OPEN[5] == '_'
  {
  }

  lemma ClosersAreTags()
    ensures IsTag(CLOSE) && IsTag("</toolcall>") && IsTag("</tool-call>") && IsTag("</invoke>")
    ensures CLOSE[1] == '/' && CLOSE[2] == 't' && CLOSE[6] == '_'
  {
  }

  lemma VariantsByIndex(i: nat)
    requires i < 6
    ensures var p := VARIANTS[i];
      && IsTag(p.0) && (p.1 == OPEN || p.1 == CLOSE)
      && |p.0| > 6
      && (p.0[1] == 't' || p.0[1] == 'i' || (p.0[1] == '/' && (p.0[2] == 't' || p.0[2] == 'i')))
      && (p.0[1] == 't' ==> p.0[5] != '_') && (p.0[1] == '/' && p.0[2] == 't' ==> p.0[6] != '_')
  {
    OpenersAreTags();
    ClosersAreTags();
  }

  lemma VariantsArePairs()
    ensures TagPairs(VARIANTS) && |VARIANTS| == 6
    ensures forall p | p in VARIANTS :: p.1 == OPEN || p.1 == CLOSE
    ensures IsTag(OPEN) && IsTag(CLOSE) && OPEN != CLOSE
    ensures forall p | p in VARIANTS :: IsTag(p.0) && IsTag(p.1) && p.0 != OPEN && p.0 != CLOSE
  {
    hide IsTag;
    OpenersAreTags();
    ClosersAreTags();
    forall i: nat | i < 6
      ensures IsTag(VARIANTS[i].0) && (VARIANTS[i].1 == OPEN || VARIANTS[i].1 == CLOSE)
      ensures VARIANTS[i].0 != OPEN && VARIANTS[i].0 != CLOSE
    {
      VariantsByIndex(i);
    }
  }

  /** Tag normalisation is one substitution; no variant survives it; twice is once. */
  lemma NormalizationIsOneSubstitution(s: string)
    ensures NormalizeTags(s) == Simultaneous(VARIANTS, s)
    ensures forall p | p in VARIANTS :: !Contains(NormalizeTags(s), p.0)
    ensures NormalizeTags(NormalizeTags(s)) == NormalizeTags(s)
  {
    VariantsArePairs();
    UnrollSequential(s);
    UnrollSequential(NormalizeTags(s));
    SequentialIsSimultaneous(VARIANTS, s);
    SequentialIsSimultaneous(VARIANTS, NormalizeTags(s));
    forall p | p in VARIANTS ensures !Contains(NormalizeTags(s), p.0) { NoVariantRemains(VARIANTS, s, p); }
    CleanIsFixed(VARIANTS, NormalizeTags(s));
  }

  lemma SequentialStep(i: nat, s: string)
    requires TagPairs(VARIANTS) && i < |VARIANTS|
    ensures Sequential(VARIANTS[i..], s)
         == Sequential(VARIANTS[i + 1..], Replace(s, VARIANTS[i].0, VARIANTS[i].1))
  {
    assert VARIANTS[i..][1..] == VARIANTS[i + 1..];
  }

  lemma UnrollSequential(s: string)
    requires TagPairs(VARIANTS)
    ensures Sequential(VARIANTS, s) == NormalizeTags(s)
  {
    var s1 := Replace(s, "<toolcall>", OPEN);
    var s2 := Replace(s1, "</toolcall>", CLOSE);
    var s3 := Replace(s2, "<tool-call>", OPEN);
    var s4 := Replace(s3, "</tool-call>", CLOSE);
    var s5 := Replace(s4, "<invoke>", OPEN);
    SequentialStep(0, s);
    SequentialStep(1, s1);
    SequentialStep(2, s2);
    SequentialStep(3, s3);
    SequentialStep(4, s4);
    SequentialStep(5, s5);
    assert VARIANTS[0..] == VARIANTS;
  }
}
