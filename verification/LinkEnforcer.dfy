/** src/agent/source_links.rs: `enforce`, the two-pass rewriter with stashed Markdown links. */
module LinkEnforcer {
  import opened Text
  import opened LinkResolver

  const NUL := '\U{0}'

  // ----- pass 1: Markdown links ---------------------------------------------------------

  datatype MdLink = MdLink(caption: string, target: string)

  function LinkText(caption: string, target: string): string {
    ['['] + caption + ([']', '('] + (target + [')']))
  }

  predicate IsLabelChar(c: char) { c != ']' && c != '\n' }

  predicate IsTargetChar(c: char) { c != ')' && !IsWhitespace(c) }

  /** `https?://[^)\s]+\)` at the start of `t`. */
  function TargetAt(t: string): (g: Option<string>)
    ensures g.Some? ==> |g.value| < |t|
  {
    var r := RunLen(t, IsTargetChar);
    if SchemeLen(t) == 0 || r <= SchemeLen(t) || r == |t| || t[r] != ')' then None else Some(t[..r])
  }

  /** `([^\]\n]*)\]\((https?://[^)\s]+)\)` at the start of `s`. */
  function MdTail(s: string): (m: Option<MdLink>)
    ensures m.Some? ==> |m.value.caption| + |m.value.target| + 3 <= |s|
  {
    if s == [] || s[0] == '\n' then None
    else if s[0] == ']' then
      if |s| < 2 || s[1] != '(' || TargetAt(s[2..]) == None then None
      else Some(MdLink([], TargetAt(s[2..]).value))
    else
      var m := MdTail(s[1..]);
      if m == None then None else Some(MdLink([s[0]] + m.value.caption, m.value.target))
  }

  /** The MD_LINK_RE match at the start of `s`: `\[([^\]\n]*)\]\((https?://[^)\s]+)\)`. */
  function MdAt(s: string): (m: Option<MdLink>)
    ensures m.Some? ==> |m.value.caption| + |m.value.target| + 4 <= |s|
  {
    if s == [] || s[0] != '[' then None else MdTail(s[1..])
  }

  predicate WellFormedTarget(t: string) {
    (forall c | c in t :: IsTargetChar(c)) && |t| > SchemeLen(t) > 0
  }

  predicate WellFormedLink(m: MdLink) {
    (forall c | c in m.caption :: IsLabelChar(c)) && WellFormedTarget(m.target)
  }

  lemma {:induction false} TargetReads(t: string, g: string)
    requires TargetAt(t) == Some(g)
    ensures t == g + [')'] + t[|g| + 1..]
    ensures WellFormedTarget(g)
  {
    assert forall c | c in g :: IsTargetChar(c);
    assert SchemeLen(g) == SchemeLen(t);
  }

  lemma {:induction false} TargetFinds(g: string, rest: string)
    requires WellFormedTarget(g)
    ensures TargetAt(g + [')'] + rest) == Some(g)
  {
    var t := g + [')'] + rest;
    assert t == g + ([')'] + rest);
    RunSplit(g, [')'] + rest, IsTargetChar);
    assert SchemeLen(t) == SchemeLen(g);
  }

  function TailText(m: MdLink): string {
    m.caption + ([']', '('] + (m.target + [')']))
  }

  lemma {:induction false} MdTailReads(s: string, m: MdLink)
    requires MdTail(s) == Some(m)
    ensures s == TailText(m) + s[|TailText(m)|..]
    ensures WellFormedLink(m)
  {
    hide TargetAt, WellFormedTarget;
    if s[0] == ']' {
      TargetReads(s[2..], m.target);
      assert s == [']', '('] + s[2..];
    } else {
      var m' := MdTail(s[1..]).value;
      MdTailReads(s[1..], m');
      assert TailText(m) == [s[0]] + TailText(m');
    }
  }

  lemma {:induction false} MdTailFinds(m: MdLink, rest: string)
    requires WellFormedLink(m)
    ensures MdTail(TailText(m) + rest) == Some(m)
    decreases |m.caption|
  {
    var s := TailText(m) + rest;
    if m.caption == [] {
      assert s[2..] == m.target + [')'] + rest;
      TargetFinds(m.target, rest);
    } else {
      var m' := MdLink(m.caption[1..], m.target);
      assert m.caption[0] in m.caption;
      assert s[1..] == TailText(m') + rest;
      MdTailFinds(m', rest);
      assert m.caption == [s[0]] + m'.caption;
    }
  }

  lemma MdAtReads(s: string, m: MdLink)
    requires MdAt(s) == Some(m)
    ensures s == LinkText(m.caption, m.target) + s[|m.caption| + |m.target| + 4..]
    ensures WellFormedLink(m)
  {
    MdTailReads(s[1..], m);
    assert LinkText(m.caption, m.target) == ['['] + TailText(m);
  }

  lemma MdAtFinds(m: MdLink, rest: string)
    requires WellFormedLink(m)
    ensures MdAt(LinkText(m.caption, m.target) + rest) == Some(m)
  {
    MdTailFinds(m, rest);
    assert (LinkText(m.caption, m.target) + rest)[1..] == TailText(m) + rest;
  }

  /** A text cut at its Markdown links, leftmost first. */
  datatype Doc = Tail(gap: string) | Linked(gap: string, caption: string, target: string, rest: Doc)

  function Prepend(s: string, d: Doc): Doc {
    d.(gap := s + d.gap)
  }

  /** `MD_LINK_RE` applied over the whole text. */
  function Parse(s: string): Doc
    decreases |s|
  {
    var m := MdAt(s);
    if m.Some? then
      Linked([], m.value.caption, m.value.target, Parse(s[|m.value.caption| + |m.value.target| + 4..]))
    else if s == [] then Tail([])
    else Prepend([s[0]], Parse(s[1..]))
  }

  function Unparse(d: Doc): string {
    match d
    case Tail(g) => g
    case Linked(g, c, t, rest) => g + LinkText(c, t) + Unparse(rest)
  }

  lemma {:induction false} UnparseParse(s: string)
    ensures Unparse(Parse(s)) == s
    decreases |s|
  {
    var m := MdAt(s);
    if m.Some? {
      var rest := s[|m.value.caption| + |m.value.target| + 4..];
      MdAtReads(s, m.value);
      UnparseParse(rest);
      UnparseLink(m.value.caption, m.value.target, Parse(rest));
    } else if s != [] {
      UnparseParse(s[1..]);
      UnparsePrepend([s[0]], Parse(s[1..]));
    }
  }

  lemma UnparseLink(c: string, t: string, rest: Doc)
    ensures Unparse(Linked([], c, t, rest)) == LinkText(c, t) + Unparse(rest)
  {
    assert [] + LinkText(c, t) == LinkText(c, t);
  }

  lemma UnparsePrepend(s: string, d: Doc)
    ensures Unparse(Prepend(s, d)) == s + Unparse(d)
  {
    if d.Linked? {
      var l := LinkText(d.caption, d.target) + Unparse(d.rest);
      assert Unparse(d) == d.gap + l;
      assert Unparse(Prepend(s, d)) == (s + d.gap) + l;
    }
  }

  /** The placeholder pushed for stash slot `i`. */
  function SlotText(i: nat): string {
    [NUL] + Decimal(i) + [NUL]
  }

  /** The text after the first pass, its links numbered from `i`. */
  function WithSlots(d: Doc, i: nat): string
    decreases d
  {
    match d
    case Tail(g) => g
    case Linked(g, _, _, rest) => g + SlotText(i) + WithSlots(rest, i + 1)
  }

  /** What a Markdown link becomes. */
  ghost function LinkReplacement(caption: string, target: string, known: set<string>, lower: Lower): string {
    match Resolve(NormalizeRaw(target), known, lower)
    case Some(good) => LinkText(caption, good)
    case None => caption
  }

  ghost function Stash(d: Doc, known: set<string>, lower: Lower): seq<string> {
    match d
    case Tail(_) => []
    case Linked(_, c, t, rest) => [LinkReplacement(c, t, known, lower)] + Stash(rest, known, lower)
  }

  // ----- pass 2: bare URLs --------------------------------------------------------------

  function Suffix(raw: string): string {
    raw[|TrimPunct(raw)|..]
  }

  lemma SuffixIsPunct(raw: string)
    ensures raw == TrimPunct(raw) + Suffix(raw)
    ensures forall c | c in Suffix(raw) :: IsTrailingPunct(c) && c != 'h' && c != '/'
  {
    hide DropTrailing;
    var t := TrimPunct(raw);
    forall i | 0 <= i < |Suffix(raw)| ensures IsTrailingPunct(Suffix(raw)[i]) {
      assert IsTrailingPunct(raw[|t| + i]);
    }
  }

  /** What a bare URL becomes: the trailing punctuation stays. */
  ghost function BareReplacement(raw: string, known: set<string>, lower: Lower): string {
    match Resolve(NormalizeRaw(raw), known, lower)
    case Some(good) => good + Suffix(raw)
    case None => Suffix(raw)
  }

  /** `URL_RE.replace_all`. */
  ghost function RewriteBare(s: string, known: set<string>, lower: Lower): string
    decreases |s|
  {
    if s == [] then []
    else if UrlLen(s) > 0 then
      BareReplacement(s[..UrlLen(s)], known, lower) + RewriteBare(s[UrlLen(s)..], known, lower)
    else [s[0]] + RewriteBare(s[1..], known, lower)
  }

  function StepLen(s: string): (k: nat)
    requires s != []
    ensures 0 < k <= |s|
  {
    if UrlLen(s) > 0 then UrlLen(s) else 1
  }

  /** What one step of `replace_all` writes for the text it consumes. */
  ghost function StepText(taken: string, isUrl: bool, known: set<string>, lower: Lower): string {
    if isUrl then BareReplacement(taken, known, lower) else taken
  }

  lemma RewriteStep(s: string, known: set<string>, lower: Lower)
    requires s != []
    ensures RewriteBare(s, known, lower)
         == StepText(s[..StepLen(s)], UrlLen(s) > 0, known, lower) + RewriteBare(s[StepLen(s)..], known, lower)
  {
  }

  lemma MatchStep(s: string)
    requires s != []
    ensures UrlMatches(s)
         == (if UrlLen(s) > 0 then [s[..StepLen(s)]] else []) + UrlMatches(s[StepLen(s)..])
  {
  }

  // ----- pass 3: restoring the links ----------------------------------------------------

  /** `str::parse::<usize>`; an index too large for `usize` is out of the stash as well, so
      overflow takes the branch of a missing slot. */
  function ParseIndex(s: string): Option<nat> {
    var digits := if s != [] && s[0] == '+' then s[1..] else s;
    if digits == [] || !forall c | c in digits :: IsDigit(c) then None else Some(DigitsValue(digits))
  }

  function SlotContent(index: string, stash: seq<string>): string {
    match ParseIndex(index)
    case Some(i) => if i < |stash| then stash[i] else index
    case None => index
  }

  /** The `(index, rest)` pairs after the first part. */
  function RestorePairs(parts: seq<string>, stash: seq<string>): string {
    if |parts| < 2 then []
    else SlotContent(parts[0], stash) + parts[1] + RestorePairs(parts[2..], stash)
  }

  function Restore(s: string, stash: seq<string>): string {
    var parts := Split(s, NUL);
    parts[0] + RestorePairs(parts[1..], stash)
  }

  // ----- the report ---------------------------------------------------------------------

  datatype LinkCheck = LinkCheck(output: string, repaired: seq<(string, string)>, removed: seq<string>)

  /** Link targets as the text writes them. */
  function Targets(d: Doc): seq<string> {
    match d
    case Tail(_) => []
    case Linked(_, _, t, rest) => [t] + Targets(rest)
  }

  /** URLs as `resolve` sees them. */
  function NormalizeAll(raws: seq<string>): (urls: seq<string>)
    ensures |urls| == |raws|
    ensures forall i | 0 <= i < |urls| :: urls[i] == NormalizeRaw(raws[i])
  {
    if raws == [] then [] else [NormalizeRaw(raws[0])] + NormalizeAll(raws[1..])
  }

  function RepairOf(url: string, found: Option<string>): seq<(string, string)> {
    if found.Some? && found.value != url then [(url, found.value)] else []
  }

  function RemovalOf(url: string, found: Option<string>): seq<string> {
    if found == None then [url] else []
  }

  ghost function Repairs(urls: seq<string>, known: set<string>, lower: Lower): seq<(string, string)> {
    if urls == [] then []
    else RepairOf(urls[0], Resolve(urls[0], known, lower)) + Repairs(urls[1..], known, lower)
  }

  ghost function Removals(urls: seq<string>, known: set<string>, lower: Lower): seq<string> {
    if urls == [] then []
    else RemovalOf(urls[0], Resolve(urls[0], known, lower)) + Removals(urls[1..], known, lower)
  }

  /** Every link `enforce` looks up, Markdown links first. */
  function Urls(text: string): seq<string> {
    var d := Parse(text);
    NormalizeAll(Targets(d)) + NormalizeAll(UrlMatches(WithSlots(d, 0)))
  }

  ghost function Enforced(text: string, known: set<string>, lower: Lower): LinkCheck {
    var d := Parse(text);
    LinkCheck(Restore(RewriteBare(WithSlots(d, 0), known, lower), Stash(d, known, lower)),
              Repairs(Urls(text), known, lower),
              Removals(Urls(text), known, lower))
  }
}
