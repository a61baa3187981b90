/** The bare URLs and Markdown links of a text, told by the positions at which they stand. */
module LinkMatches {
  import opened Text
  import opened LinkResolver
  import opened LinkEnforcer

  /** At `i` stand a scheme and at least one URL character more, `n` characters in all, and no more URL
      characters behind them. */
  predicate UrlAt(s: string, i: nat, n: nat) {
    && i + n <= |s|
    && (exists scheme | scheme in ["http://", "https://"] :: |scheme| < n && s[i..i + |scheme|] == scheme)
    && (forall k | i <= k < i + n :: IsUrlChar(s[k]))
    && (i + n < |s| ==> !IsUrlChar(s[i + n]))
  }

  /** The texts stand at `at`, from `from` on, one behind the other, and are URLs. */
  ghost predicate UrlsInOrder(s: string, from: nat, urls: seq<string>, at: seq<nat>) {
    && |at| == |urls|
    && (forall k | 0 <= k < |at| :: at[k] >= from && UrlAt(s, at[k], |urls[k]|) && StandsAt(s, at[k], urls[k]))
    && (forall j, k | 0 <= j < k < |at| :: at[j] + |urls[j]| <= at[k])
  }

  predicate StandsAt(s: string, i: nat, u: string) { i + |u| <= |s| && s[i..i + |u|] == u }

  /** No URL starts outside them. */
  ghost predicate NoOtherUrl(s: string, from: nat, urls: seq<string>, at: seq<nat>) {
    && |at| == |urls|
    && forall p: nat, n: nat | p >= from && UrlAt(s, p, n) :: exists k :: Within(p, k, urls, at)
  }

  predicate Within(p: nat, k: int, urls: seq<string>, at: seq<nat>)
    requires |at| == |urls|
  {
    0 <= k < |at| && at[k] <= p < at[k] + |urls[k]|
  }

  ghost predicate UrlsStand(s: string, from: nat, urls: seq<string>, at: seq<nat>) {
    UrlsInOrder(s, from, urls, at) && NoOtherUrl(s, from, urls, at)
  }

  lemma UrlMoves(s: string, i: nat, n: nat)
    requires i <= |s|
    ensures UrlAt(s, i, n) <==> UrlAt(s[i..], 0, n)
  {
    var t := s[i..];
    assert forall k | i <= k < |s| :: s[k] == t[k - i];
    assert forall scheme: string | i + |scheme| <= |s| :: s[i..i + |scheme|] == t[0..0 + |scheme|];
    assert forall k | 0 <= k < |t| :: t[k] == s[i + k];
  }

  lemma UrlLenIs(s: string, i: nat, n: nat)
    requires i <= |s| && n > 0
    ensures UrlLen(s[i..]) == n <==> UrlAt(s, i, n)
  {
    hide UrlLen, UrlAt;
    UrlMoves(s, i, n);
    UrlStarts(s[i..], n);
  }

  lemma UrlStarts(t: string, n: nat)
    requires n > 0
    ensures UrlLen(t) == n <==> UrlAt(t, 0, n)
  {
    hide UrlLen, RunLen, SchemeLen;
    UrlLenIsRun(t);
    if UrlAt(t, 0, n) {
      var scheme :| scheme in ["http://", "https://"] && |scheme| < n && t[0..0 + |scheme|] == scheme;
      SchemeReads(t, scheme);
      RunIs(t, n);
    }
    if UrlLen(t) == n {
      var scheme := SchemeStands(t);
      assert scheme in ["http://", "https://"] && |scheme| < n && t[0..0 + |scheme|] == scheme;
      assert forall k | 0 <= k < n :: t[k] == t[..n][k];
    }
  }

  lemma SchemeReads(t: string, scheme: string)
    requires scheme in ["http://", "https://"] && |scheme| <= |t| && t[..|scheme|] == scheme
    ensures SchemeLen(t) == |scheme|
  {
    assert "http://"[4] == ':' && "https://"[4] == 's';
  }

  lemma SchemeStands(t: string) returns (scheme: string)
    requires SchemeLen(t) > 0
    ensures scheme in ["http://", "https://"] && |scheme| == SchemeLen(t) <= |t| && t[..|scheme|] == scheme
  {
    if "https://" <= t { scheme := "https://"; } else { scheme := "http://"; }
  }

  lemma RunIs(t: string, n: nat)
    requires n <= |t| && (forall k | 0 <= k < n :: IsUrlChar(t[k])) && (n < |t| ==> !IsUrlChar(t[n]))
    ensures RunLen(t, IsUrlChar) == n
  {
    hide RunLen;
  }

  /** No URL starts within another one that is taken: what is taken reaches as far as URL characters do. */
  lemma {:induction false} UrlsAreFound(s: string, i: nat) returns (at: seq<nat>)
    requires i <= |s|
    ensures UrlsStand(s, i, UrlMatches(s[i..]), at)
    decreases |s| - i
  {
    hide UrlLen, UrlAt;
    var t := s[i..];
    if i == |s| {
      at := [];
      NoUrlAtEnd(s);
    } else {
      var n := UrlLen(t);
      if n > 0 {
        var rest := UrlsAreFound(s, i + n);
        assert t[n..] == s[i + n..] && t[..n] == s[i..i + n];
        UrlLenIs(s, i, n);
        at := [i] + rest;
        hide UrlMatches;
        UrlFirst(s, i, n, UrlMatches(s[i + n..]), rest);
        UrlsHead(t);
      } else {
        at := UrlsAreFound(s, i + 1);
        assert t[1..] == s[i + 1..];
        forall m: nat | UrlAt(s, i, m) ensures false {
          UrlNotEmpty(s, i, m);
          UrlLenIs(s, i, m);
        }
        UrlSkips(s, i, UrlMatches(s[i + 1..]), at);
      }
    }
  }

  lemma UrlsHead(t: string)
    requires t != [] && UrlLen(t) > 0
    ensures UrlMatches(t) == [t[..UrlLen(t)]] + UrlMatches(t[UrlLen(t)..])
  {
  }

  lemma NoUrlAtEnd(s: string)
    ensures UrlMatches(s[|s|..]) == [] && forall p: nat, n: nat | p >= |s| :: !UrlAt(s, p, n)
  {
  }

  lemma UrlNotEmpty(s: string, i: nat, n: nat)
    requires UrlAt(s, i, n)
    ensures n > 0
  {
  }

  lemma UrlFirst(s: string, i: nat, n: nat, urls: seq<string>, rest: seq<nat>)
    requires UrlAt(s, i, n) && UrlsStand(s, i + n, urls, rest)
    ensures i + n <= |s| && UrlsStand(s, i, [s[i..i + n]] + urls, [i] + rest)
  {
    hide UrlAt, UrlsInOrder, NoOtherUrl;
    UrlFits(s, i, n);
    FirstInOrder(s, i, n, urls, rest);
    FirstLeavesNone(s, i, n, urls, rest);
  }

  lemma FirstInOrder(s: string, i: nat, n: nat, urls: seq<string>, rest: seq<nat>)
    requires UrlAt(s, i, n) && i + n <= |s| && UrlsInOrder(s, i + n, urls, rest)
    ensures UrlsInOrder(s, i, [s[i..i + n]] + urls, [i] + rest)
  {
    hide UrlAt, StandsAt;
    var u := s[i..i + n];
    assert StandsAt(s, i, u) by { SliceStands(s, i, n); }
    var us, at := [u] + urls, [i] + rest;
    forall k | 0 <= k < |at| ensures at[k] >= i && UrlAt(s, at[k], |us[k]|) && StandsAt(s, at[k], us[k]) {
      if k > 0 { assert at[k] == rest[k - 1] && us[k] == urls[k - 1]; }
    }
    forall j, k | 0 <= j < k < |at| ensures at[j] + |us[j]| <= at[k] {
      assert at[k] == rest[k - 1];
      if j > 0 { assert at[j] == rest[j - 1] && us[j] == urls[j - 1]; }
    }
  }

  lemma SliceStands(s: string, i: nat, n: nat)
    requires i + n <= |s|
    ensures StandsAt(s, i, s[i..i + n])
  {
  }

  lemma FirstLeavesNone(s: string, i: nat, n: nat, urls: seq<string>, rest: seq<nat>)
    requires i + n <= |s| && NoOtherUrl(s, i + n, urls, rest)
    ensures NoOtherUrl(s, i, [s[i..i + n]] + urls, [i] + rest)
  {
    hide UrlAt;
    var us, at := [s[i..i + n]] + urls, [i] + rest;
    forall p: nat, m: nat | p >= i && UrlAt(s, p, m) ensures exists k :: Within(p, k, us, at) {
      if p < i + n {
        assert Within(p, 0, us, at);
      } else {
        var k :| Within(p, k, urls, rest);
        assert at[k + 1] == rest[k] && us[k + 1] == urls[k];
        assert Within(p, k + 1, us, at);
      }
    }
  }

  lemma UrlFits(s: string, i: nat, n: nat)
    requires UrlAt(s, i, n)
    ensures i + n <= |s|
  {
  }

  lemma UrlSkips(s: string, i: nat, urls: seq<string>, at: seq<nat>)
    requires UrlsStand(s, i + 1, urls, at) && forall m: nat :: !UrlAt(s, i, m)
    ensures UrlsStand(s, i, urls, at)
  {
    hide UrlAt;
    assert forall p: nat, m: nat | p >= i && UrlAt(s, p, m) :: p >= i + 1;
  }

  /** The bare URLs of a text are the texts that stand where a URL starts, leftmost first, each as long as
      URL characters reach. */
  lemma UrlMatchesStand(s: string) returns (at: seq<nat>)
    ensures UrlsStand(s, 0, UrlMatches(s), at)
  {
    at := UrlsAreFound(s, 0);
    assert s[0..] == s;
  }

  // ----- Markdown links --------------------------------------------------------------------------------

  /** At `i` stands `[caption](target)`: no `]` and no line break in the caption, and as target a scheme
      and more without `)` and blanks. */
  predicate LinkAt(s: string, i: nat, caption: string, target: string) {
    && i + |LinkText(caption, target)| <= |s| && s[i..i + |LinkText(caption, target)|] == LinkText(caption, target)
    && ']' !in caption && '\n' !in caption
    && (forall c | c in target :: c != ')' && !IsWhitespace(c))
    && (exists scheme | scheme in ["http://", "https://"] :: scheme <= target && |scheme| < |target|)
  }

  lemma TargetMeans(target: string)
    ensures WellFormedTarget(target)
       <==> (forall c | c in target :: c != ')' && !IsWhitespace(c))
            && exists scheme | scheme in ["http://", "https://"] :: scheme <= target && |scheme| < |target|
  {
    if exists scheme | scheme in ["http://", "https://"] :: scheme <= target && |scheme| < |target| {
      var scheme :| scheme in ["http://", "https://"] && scheme <= target && |scheme| < |target|;
      SchemeReads(target, scheme);
    }
    if SchemeLen(target) > 0 { var scheme := SchemeStands(target); }
  }

  lemma LinkIs(s: string, i: nat, m: MdLink)
    requires i <= |s|
    ensures MdAt(s[i..]) == Some(m) <==> LinkAt(s, i, m.caption, m.target)
  {
    hide MdTail, LinkText, WellFormedTarget;
    TargetMeans(m.target);
    var t := s[i..];
    var l := LinkText(m.caption, m.target);
    if LinkAt(s, i, m.caption, m.target) {
      assert t == l + t[|l|..] by { CutAt(t, |l|); assert t[..|l|] == s[i..i + |l|]; }
      MdAtFinds(m, t[|l|..]);
    }
    if MdAt(t) == Some(m) {
      MdAtReads(t, m);
      LinkStands(s, i, m, t);
    }
  }

  lemma LinkStands(s: string, i: nat, m: MdLink, t: string)
    requires i <= |s| && t == s[i..] && MdAt(t) == Some(m)
    ensures var l := LinkText(m.caption, m.target); i + |l| <= |s| && s[i..i + |l|] == l && WellFormedLink(m)
  {
    hide MdTail, WellFormedLink;
    MdTailReads(t[1..], m);
    var l := LinkText(m.caption, m.target);
    assert l == ['['] + TailText(m);
    assert t == ['['] + t[1..] == l + t[1..][|TailText(m)|..];
    assert s[i..i + |l|] == t[..|l|];
  }

  /** A text is cut at its Markdown links, leftmost first: in the text before a link none starts. */
  lemma {:induction false} ParseIsLeftmost(s: string)
    ensures var d := Parse(s);
      && |d.gap| <= |s| && (forall i, c, t | 0 <= i < |d.gap| :: !LinkAt(s, i, c, t))
      && (d.Linked? ==>
            && LinkAt(s, |d.gap|, d.caption, d.target)
            && d.rest == Parse(s[|d.gap| + |LinkText(d.caption, d.target)|..]))
      && (d.Tail? ==> d.gap == s)
    decreases |s|
  {
    hide MdAt, LinkAt, LinkText;
    forall c, t ensures MdAt(s) == Some(MdLink(c, t)) <==> LinkAt(s, 0, c, t) {
      assert s[0..] == s;
      LinkIs(s, 0, MdLink(c, t));
    }
    if MdAt(s).Some? { LinkLength(MdAt(s).value.caption, MdAt(s).value.target); }
    if MdAt(s) == None && s != [] {
      ParseIsLeftmost(s[1..]);
      var e := Parse(s[1..]);
      forall i, c, t | 0 <= i < |s| ensures LinkAt(s, i + 1, c, t) <==> LinkAt(s[1..], i, c, t) {
        LinkMoves(s, i, c, t);
      }
      forall i, c, t | 0 <= i < |e.gap| + 1 ensures !LinkAt(s, i, c, t) {
        if i > 0 { assert !LinkAt(s[1..], i - 1, c, t); LinkMoves(s, i - 1, c, t); }
        else { assert MdAt(s) != Some(MdLink(c, t)); }
      }
      if e.Linked? { LinkMoves(s, |e.gap|, e.caption, e.target); RestMoves(s, |e.gap|, e.caption, e.target); }
      assert e.Tail? ==> [s[0]] + s[1..] == s;
    }
  }

  lemma LinkLength(c: string, t: string)
    ensures |LinkText(c, t)| == |c| + |t| + 4
  {
  }

  lemma RestMoves(s: string, g: nat, c: string, t: string)
    requires s != [] && LinkAt(s[1..], g, c, t)
    ensures var n := g + |LinkText(c, t)|; n < |s| && s[1..][n..] == s[1 + n..]
  {
  }

  lemma LinkMoves(s: string, i: nat, c: string, t: string)
    requires s != []
    ensures LinkAt(s, i + 1, c, t) <==> LinkAt(s[1..], i, c, t)
  {
    var n := |LinkText(c, t)|;
    assert i + 1 + n <= |s| ==> s[1..][i..i + n] == s[i + 1..i + 1 + n];
  }
}
