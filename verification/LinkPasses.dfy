/** src/agent/source_links.rs: the loops of `enforce`, proved against its specification. */
module LinkPasses {
  import opened Text
  import opened LinkResolver
  import opened LinkEnforcer

  lemma {:induction false} RepairsConcat(a: seq<string>, b: seq<string>, known: set<string>, lower: Lower)
    ensures Repairs(a + b, known, lower) == Repairs(a, known, lower) + Repairs(b, known, lower)
  {
    if a == [] {
      assert a + b == b;
    } else {
      assert (a + b)[1..] == a[1..] + b;
      RepairsConcat(a[1..], b, known, lower);
      Assoc(RepairOf(a[0], Resolve(a[0], known, lower)), Repairs(a[1..], known, lower), Repairs(b, known, lower));
    }
  }

  lemma {:induction false} RemovalsConcat(a: seq<string>, b: seq<string>, known: set<string>, lower: Lower)
    ensures Removals(a + b, known, lower) == Removals(a, known, lower) + Removals(b, known, lower)
  {
    if a == [] {
      assert a + b == b;
    } else {
      assert (a + b)[1..] == a[1..] + b;
      RemovalsConcat(a[1..], b, known, lower);
      Assoc(RemovalOf(a[0], Resolve(a[0], known, lower)), Removals(a[1..], known, lower), Removals(b, known, lower));
    }
  }

  method Lookup(url: string, order: seq<string>, lower: Lower, ghost known: set<string>)
    returns (found: Option<string>)
    requires Enumerates(order, known)
    ensures found == Resolve(url, known, lower)
  {
    ResolveIgnoresOrder(url, order, known, lower);
    found := ResolveScan(url, order, lower);
  }

  /** What the lookup of one more link adds to the report. */
  method Report(url: string, found: Option<string>, repaired: seq<(string, string)>, removed: seq<string>,
                ghost seen: seq<string>, ghost known: set<string>, ghost lower: Lower)
    returns (repaired': seq<(string, string)>, removed': seq<string>)
    requires found == Resolve(url, known, lower)
    requires repaired == Repairs(seen, known, lower) && removed == Removals(seen, known, lower)
    ensures repaired' == Repairs(seen + [url], known, lower)
    ensures removed' == Removals(seen + [url], known, lower)
  {
    hide Resolve;
    RepairsConcat(seen, [url], known, lower);
    RemovalsConcat(seen, [url], known, lower);
    assert [url][1..] == [];
    repaired', removed' := repaired, removed;
    match found {
      case Some(good) =>
        if good != url { repaired' := repaired + [(url, good)]; }
      case None =>
        removed' := removed + [url];
    }
  }

  lemma PrependChar(c: char, d: Doc, i: nat, known: set<string>, lower: Lower)
    ensures WithSlots(Prepend([c], d), i) == [c] + WithSlots(d, i)
    ensures Stash(Prepend([c], d), known, lower) == Stash(d, known, lower)
    ensures Targets(Prepend([c], d)) == Targets(d)
  {
    if d.Linked? {
      assert [c] + d.gap + SlotText(i) + WithSlots(d.rest, i + 1)
          == [c] + (d.gap + SlotText(i) + WithSlots(d.rest, i + 1));
    }
  }

  lemma LinkStep(m: MdLink, after: Doc, i: nat, known: set<string>, lower: Lower)
    ensures var d := Linked([], m.caption, m.target, after);
      && WithSlots(d, i) == SlotText(i) + WithSlots(after, i + 1)
      && Stash(d, known, lower) == [LinkReplacement(m.caption, m.target, known, lower)] + Stash(after, known, lower)
      && NormalizeAll(Targets(d)) == [NormalizeRaw(m.target)] + NormalizeAll(Targets(after))
  {
    assert [] + SlotText(i) == SlotText(i);
    assert ([m.target] + Targets(after))[1..] == Targets(after);
  }

  /** The first pass, part way: `d` is the document still to be written, `whole` the whole one. */
  ghost predicate Halfway(whole: Doc, d: Doc, slots: string, stashed: seq<string>, seen: seq<string>,
                          known: set<string>, lower: Lower) {
    && slots + WithSlots(d, |stashed|) == WithSlots(whole, 0)
    && stashed + Stash(d, known, lower) == Stash(whole, known, lower)
    && seen + NormalizeAll(Targets(d)) == NormalizeAll(Targets(whole))
  }

  lemma HalfwayLink(whole: Doc, m: MdLink, after: Doc, slots: string, stashed: seq<string>, seen: seq<string>,
                    known: set<string>, lower: Lower)
    requires Halfway(whole, Linked([], m.caption, m.target, after), slots, stashed, seen, known, lower)
    ensures Halfway(whole, after, slots + SlotText(|stashed|),
                    stashed + [LinkReplacement(m.caption, m.target, known, lower)],
                    seen + [NormalizeRaw(m.target)], known, lower)
  {
    var i := |stashed|;
    var r := LinkReplacement(m.caption, m.target, known, lower);
    LinkStep(m, after, i, known, lower);
    Assoc(slots, SlotText(i), WithSlots(after, i + 1));
    Assoc(stashed, [r], Stash(after, known, lower));
    Assoc(seen, [NormalizeRaw(m.target)], NormalizeAll(Targets(after)));
  }

  lemma HalfwayChar(whole: Doc, c: char, d: Doc, slots: string, stashed: seq<string>, seen: seq<string>,
                    known: set<string>, lower: Lower)
    requires Halfway(whole, Prepend([c], d), slots, stashed, seen, known, lower)
    ensures Halfway(whole, d, slots + [c], stashed, seen, known, lower)
  {
    PrependChar(c, d, |stashed|, known, lower);
    assert slots + [c] + WithSlots(d, |stashed|) == slots + ([c] + WithSlots(d, |stashed|));
  }

  /** First pass: Markdown links are looked up, their replacements stashed, slots left behind. */
  method StashLinks(text: string, order: seq<string>, lower: Lower, ghost known: set<string>)
    returns (slots: string, stashed: seq<string>, repaired: seq<(string, string)>, removed: seq<string>)
    requires Enumerates(order, known)
    ensures slots == WithSlots(Parse(text), 0)
    ensures stashed == Stash(Parse(text), known, lower)
    ensures repaired == Repairs(NormalizeAll(Targets(Parse(text))), known, lower)
    ensures removed == Removals(NormalizeAll(Targets(Parse(text))), known, lower)
  {
    hide MdTail, Resolve, NormalizeRaw, LinkText, SlotText;
    slots, stashed, repaired, removed := [], [], [], [];
    var rest := text;
    ghost var seen: seq<string> := [];
    while MdAt(rest).Some? || rest != []
      invariant Halfway(Parse(text), Parse(rest), slots, stashed, seen, known, lower)
      invariant repaired == Repairs(seen, known, lower) && removed == Removals(seen, known, lower)
      decreases |rest|
    {
      match MdAt(rest) {
        case Some(m) =>
          var url := NormalizeRaw(m.target);
          var found := Lookup(url, order, lower, known);
          var replacement := match found case Some(good) => LinkText(m.caption, good) case None => m.caption;
          repaired, removed := Report(url, found, repaired, removed, seen, known, lower);
          var after := rest[|m.caption| + |m.target| + 4..];
          ParseLink(rest, m, after);
          HalfwayLink(Parse(text), m, Parse(after), slots, stashed, seen, known, lower);
          rest := after;
          slots, stashed, seen := slots + SlotText(|stashed|), stashed + [replacement], seen + [url];
        case None =>
          HalfwayChar(Parse(text), rest[0], Parse(rest[1..]), slots, stashed, seen, known, lower);
          slots := slots + [rest[0]];
          rest := rest[1..];
      }
    }
    HalfwayDone(Parse(text), slots, stashed, seen, known, lower);
  }

  lemma ParseLink(s: string, m: MdLink, after: string)
    requires MdAt(s) == Some(m) && after == s[|m.caption| + |m.target| + 4..]
    ensures Parse(s) == Linked([], m.caption, m.target, Parse(after))
  {
  }

  lemma HalfwayDone(whole: Doc, slots: string, stashed: seq<string>, seen: seq<string>,
                    known: set<string>, lower: Lower)
    requires Halfway(whole, Tail([]), slots, stashed, seen, known, lower)
    ensures slots == WithSlots(whole, 0) && stashed == Stash(whole, known, lower)
    ensures seen == NormalizeAll(Targets(whole))
  {
    assert slots + [] == slots && stashed + [] == stashed && seen + [] == seen;
  }

  /** Second pass: bare URLs. */
  method RewriteUrls(s: string, order: seq<string>, lower: Lower, ghost known: set<string>)
    returns (done: string, repaired: seq<(string, string)>, removed: seq<string>)
    requires Enumerates(order, known)
    ensures done == RewriteBare(s, known, lower)
    ensures repaired == Repairs(NormalizeAll(UrlMatches(s)), known, lower)
    ensures removed == Removals(NormalizeAll(UrlMatches(s)), known, lower)
  {
    hide RewriteBare, UrlMatches, Resolve, NormalizeRaw, UrlLen, TrimPunct;
    done, repaired, removed := [], [], [];
    var rest := s;
    ghost var seen: seq<string> := [];
    while rest != []
      invariant Partway(s, rest, done, seen, known, lower)
      invariant repaired == Repairs(seen, known, lower) && removed == Removals(seen, known, lower)
      decreases |rest|
    {
      PartwayStep(s, rest, done, seen, known, lower);
      var n := UrlLen(rest);
      if n > 0 {
        var raw := rest[..n];
        var url := NormalizeRaw(raw);
        var found := Lookup(url, order, lower, known);
        repaired, removed := Report(url, found, repaired, removed, seen, known, lower);
        done := done + (match found case Some(good) => good + Suffix(raw) case None => Suffix(raw));
        rest, seen := rest[n..], seen + [url];
      } else {
        done, rest := done + [rest[0]], rest[1..];
      }
    }
    PartwayDone(s, done, seen, known, lower);
  }

  lemma PartwayDone(s: string, done: string, seen: seq<string>, known: set<string>, lower: Lower)
    requires Partway(s, [], done, seen, known, lower)
    ensures done == RewriteBare(s, known, lower) && seen == NormalizeAll(UrlMatches(s))
  {
    assert done + [] == done && seen + [] == seen;
  }

  ghost predicate Partway(s: string, rest: string, done: string, seen: seq<string>,
                          known: set<string>, lower: Lower) {
    && done + RewriteBare(rest, known, lower) == RewriteBare(s, known, lower)
    && seen + NormalizeAll(UrlMatches(rest)) == NormalizeAll(UrlMatches(s))
  }

  lemma PartwayStep(s: string, rest: string, done: string, seen: seq<string>, known: set<string>, lower: Lower)
    requires Partway(s, rest, done, seen, known, lower) && rest != []
    ensures var n := UrlLen(rest);
      if n > 0 then
        Partway(s, rest[n..], done + BareReplacement(rest[..n], known, lower),
                seen + [NormalizeRaw(rest[..n])], known, lower)
      else Partway(s, rest[1..], done + [rest[0]], seen, known, lower)
  {
    var n := UrlLen(rest);
    if n > 0 {
      var m := UrlMatches(rest[n..]);
      Assoc(done, BareReplacement(rest[..n], known, lower), RewriteBare(rest[n..], known, lower));
      assert ([rest[..n]] + m)[1..] == m;
      Assoc(seen, [NormalizeRaw(rest[..n])], NormalizeAll(m));
    } else {
      Assoc(done, [rest[0]], RewriteBare(rest[1..], known, lower));
    }
  }

  /** Third pass: the parts between NULs come in (index, text) pairs. */
  method RestoreSlots(s: string, stash: seq<string>) returns (restored: string)
    ensures restored == Restore(s, stash)
  {
    hide Split, SlotContent;
    var parts := Split(s, NUL);
    restored := parts[0];
    var k := 1;
    while k + 1 < |parts|
      invariant 1 <= k <= |parts|
      invariant restored + RestorePairs(parts[k..], stash) == Restore(s, stash)
    {
      ghost var rest := parts[k..];
      assert rest[0] == parts[k] && rest[1] == parts[k + 1] && rest[2..] == parts[k + 2..];
      Assoc(restored, SlotContent(parts[k], stash) + parts[k + 1], RestorePairs(rest[2..], stash));
      Assoc(restored, SlotContent(parts[k], stash), parts[k + 1]);
      restored := restored + SlotContent(parts[k], stash) + parts[k + 1];
      k := k + 2;
    }
    assert RestorePairs(parts[k..], stash) == [] && restored + [] == restored;
  }

  /** `enforce`: `order` is the hash set of recorded URLs as it happens to be iterated. */
  method Enforce(output: string, order: seq<string>, lower: Lower, ghost known: set<string>)
    returns (check: LinkCheck)
    requires Enumerates(order, known)
    ensures check == Enforced(output, known, lower)
  {
    var slots, stashed, repaired, removed := StashLinks(output, order, lower, known);
    var done, repaired', removed' := RewriteUrls(slots, order, lower, known);
    var restored := RestoreSlots(done, stashed);
    RepairsConcat(NormalizeAll(Targets(Parse(output))), NormalizeAll(UrlMatches(slots)), known, lower);
    RemovalsConcat(NormalizeAll(Targets(Parse(output))), NormalizeAll(UrlMatches(slots)), known, lower);
    check := LinkCheck(restored, repaired + repaired', removed + removed');
  }
}
