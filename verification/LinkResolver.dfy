/** src/agent/source_links.rs: URL recognition, the recorded-URL ledger and the resolver. */
module LinkResolver {
  import opened Text

  /** Rust's `str::to_lowercase` (full Unicode), which the model leaves open. */
  type Lower = string -> string

  // ----- the two regular expressions -------------------------------------------------

  /** The class `[^\s"'<>()\[\]{}\\`]` of URL_RE. */
  predicate IsUrlChar(c: char) {
    !IsWhitespace(c) && c !in "\"'<>()[]{}\\`"
  }

  /** Length of `https?://` at the start of `s`, 0 when it is not there. */
  function SchemeLen(s: string): (n: nat)
    ensures n <= |s|
  {
    if "https://" <= s then 8 else if "http://" <= s then 7 else 0
  }

  /** Length of the URL_RE match at the start of `s`, 0 when there is none. */
  function UrlLen(s: string): (n: nat)
    ensures n <= |s|
  {
    var q := SchemeLen(s);
    if q == 0 then 0 else
      var r := RunLen(s[q..], IsUrlChar);
      if r == 0 then 0 else q + r
  }

  /** `URL_RE.find_iter`: leftmost, non-overlapping. */
  function UrlMatches(s: string): seq<string>
    decreases |s|
  {
    if s == [] then []
    else if UrlLen(s) > 0 then [s[..UrlLen(s)]] + UrlMatches(s[UrlLen(s)..])
    else UrlMatches(s[1..])
  }

  predicate IsTrailingPunct(c: char) {
    c in ['.', ',', ';', ':', '!', '?', '\'', '\"', '\U{3002}', '\U{FF0C}', '\U{FF1B}', '\U{FF1A}']
  }

  function TrimPunct(url: string): string {
    DropTrailing(url, IsTrailingPunct)
  }

  function DecodeAmp(s: string): string {
    Replace(s, "&amp;", "&")
  }

  function NormalizeRaw(url: string): string {
    DecodeAmp(TrimPunct(url))
  }

  /** `urls_in`: what `record` adds to the ledger for one tool result. */
  function UrlsIn(text: string): set<string> {
    set m | m in UrlMatches(text) :: NormalizeRaw(m)
  }

  // ----- the resolver ----------------------------------------------------------------

  predicate IsSlash(c: char) { c == '/' }

  predicate NotSlash(c: char) { c != '/' }

  predicate InPath(c: char) { c != '?' && c != '#' }

  /** Case-insensitive identity of a URL. */
  function LooseKey(url: string, lower: Lower): string {
    var withoutScheme := DropPrefixes(DropPrefixes(lower(url), "https://"), "http://");
    DropTrailing(DropPrefixes(withoutScheme, "www."), IsSlash)
  }

  datatype Place = Place(host: string, segments: seq<string>)

  function NonEmpty(parts: seq<string>): seq<string> {
    if parts == [] then []
    else (if parts[0] == [] then [] else [parts[0]]) + NonEmpty(parts[1..])
  }

  /** Host and path segments of a loose key, query and fragment dropped. */
  function SplitKey(key: string): Place {
    var h := RunLen(key, NotSlash);
    var path := if h < |key| then key[h + 1..] else [];
    var p := RunLen(path, InPath);
    Place(key[..h], NonEmpty(Split(path[..p], '/')))
  }

  /** The greedy iterator scan of `is_subsequence`. */
  predicate IsSubsequence(inner: seq<string>, outer: seq<string>) {
    inner == [] ||
    (outer != [] &&
     if outer[0] == inner[0] then IsSubsequence(inner[1..], outer[1..])
     else IsSubsequence(inner, outer[1..]))
  }

  predicate Near(k: string, host: string, segments: seq<string>, lower: Lower)
    requires segments != []
  {
    var place := SplitKey(LooseKey(k, lower));
    && place.host == host
    && place.segments != []
    && place.segments[|place.segments| - 1] == segments[|segments| - 1]
    && (IsSubsequence(place.segments, segments) || IsSubsequence(segments, place.segments))
  }

  /** `iter().filter(..).collect()` over an enumeration of the recorded URLs. */
  function Filter(order: seq<string>, p: string -> bool): seq<string> {
    if order == [] then []
    else (if p(order[0]) then [order[0]] else []) + Filter(order[1..], p)
  }

  /** `resolve`, run on the order in which the hash set happens to be iterated. */
  function ResolveScan(url: string, order: seq<string>, lower: Lower): Option<string> {
    if url in order then Some(url) else
      var key := LooseKey(url, lower);
      var same := Filter(order, k => LooseKey(k, lower) == key);
      if |same| == 1 then Some(same[0]) else
        var place := SplitKey(key);
        if place.segments == [] then None else
          var near := Filter(order, k => Near(k, place.host, place.segments, lower));
          if |near| == 1 then Some(near[0]) else None
  }

  /** The one element of `known` that satisfies `p`, when there is exactly one. */
  ghost function OnlyOne(known: set<string>, p: string -> bool): Option<string> {
    if exists k | k in known :: p(k) && forall j | j in known && p(j) :: j == k
    then var k :| k in known && p(k) && forall j | j in known && p(j) :: j == k; Some(k)
    else None
  }

  /** `resolve` as a function of the set of recorded URLs alone. */
  ghost function Resolve(url: string, known: set<string>, lower: Lower): Option<string> {
    if url in known then Some(url) else
      var key := LooseKey(url, lower);
      var same := OnlyOne(known, k => LooseKey(k, lower) == key);
      if same.Some? then same else
        var place := SplitKey(key);
        if place.segments == [] then None
        else OnlyOne(known, k => Near(k, place.host, place.segments, lower))
  }

  ghost predicate Enumerates(order: seq<string>, known: set<string>) {
    && (forall k :: k in order <==> k in known)
    && (forall i, j | 0 <= i < j < |order| :: order[i] != order[j])
  }

  lemma {:induction false} FilterMembers(order: seq<string>, p: string -> bool)
    ensures forall k :: k in Filter(order, p) <==> k in order && p(k)
  {
    if order != [] {
      FilterMembers(order[1..], p);
      assert order == [order[0]] + order[1..];
    }
  }

  lemma {:induction false} FilterDistinct(order: seq<string>, p: string -> bool)
    requires forall i, j | 0 <= i < j < |order| :: order[i] != order[j]
    ensures forall i, j | 0 <= i < j < |Filter(order, p)| :: Filter(order, p)[i] != Filter(order, p)[j]
  {
    if order != [] {
      FilterDistinct(order[1..], p);
      FilterMembers(order[1..], p);
      assert order[0] !in order[1..];
    }
  }

  /** "Exactly one survivor of the filter" is a fact about the set. */
  lemma {:induction false} FilterIsOnlyOne(order: seq<string>, known: set<string>, p: string -> bool)
    requires Enumerates(order, known)
    ensures OnlyOne(known, p) == if |Filter(order, p)| == 1 then Some(Filter(order, p)[0]) else None
  {
    FilterMembers(order, p);
    FilterDistinct(order, p);
    var f := Filter(order, p);
    if |f| == 1 {
      assert f[0] in f;
      forall j | j in known && p(j) ensures j == f[0] { assert j in f; }
    } else {
      forall k | k in known && p(k) ensures k in f && |f| > 1 && exists j :: j in known && p(j) && j != k {
        assert k in f && f[0] in f && f[1] in f;
      }
    }
  }

  /** The answer of `resolve` does not depend on the order of iteration of the hash set. */
  lemma ResolveIgnoresOrder(url: string, order: seq<string>, known: set<string>, lower: Lower)
    requires Enumerates(order, known)
    ensures ResolveScan(url, order, lower) == Resolve(url, known, lower)
  {
    var key := LooseKey(url, lower);
    FilterIsOnlyOne(order, known, k => LooseKey(k, lower) == key);
    var place := SplitKey(key);
    if place.segments != [] {
      FilterIsOnlyOne(order, known, k => Near(k, place.host, place.segments, lower));
    }
  }

  /** Whatever `resolve` answers was recorded; a recorded URL stands for itself. */
  lemma ResolveStaysInLedger(url: string, known: set<string>, lower: Lower)
    ensures Resolve(url, known, lower).Some? ==> Resolve(url, known, lower).value in known
    ensures url in known <==> Resolve(url, known, lower) == Some(url)
  {
  }

  /** Two recorded URLs with the loose key of an unrecorded one leave it unresolved. */
  lemma AmbiguousKeyResolvesToNothing(url: string, a: string, b: string, known: set<string>, lower: Lower)
    requires url !in known && a in known && b in known && a != b
    requires LooseKey(a, lower) == LooseKey(b, lower) == LooseKey(url, lower)
    ensures Resolve(url, known, lower) == None
  {
    var key := LooseKey(url, lower);
    TwoAreNotOne(known, k => LooseKey(k, lower) == key, a, b);
    var place := SplitKey(key);
    if place.segments != [] {
      SameKeyIsNear(a, key, lower);
      SameKeyIsNear(b, key, lower);
      TwoAreNotOne(known, k => Near(k, place.host, place.segments, lower), a, b);
    }
  }

  lemma TwoAreNotOne(known: set<string>, p: string -> bool, a: string, b: string)
    requires a in known && b in known && a != b && p(a) && p(b)
    ensures OnlyOne(known, p) == None
  {
  }

  lemma SameKeyIsNear(a: string, key: string, lower: Lower)
    requires LooseKey(a, lower) == key && SplitKey(key).segments != []
    ensures Near(a, SplitKey(key).host, SplitKey(key).segments, lower)
  {
    SubsequenceReflexive(SplitKey(key).segments);
  }

  lemma {:induction false} SubsequenceReflexive(s: seq<string>)
    ensures IsSubsequence(s, s)
  {
    if s != [] { SubsequenceReflexive(s[1..]); }
  }

  /** An order-preserving embedding of `inner` into `outer`. */
  ghost predicate Embeds(inner: seq<string>, outer: seq<string>, at: seq<nat>) {
    && |at| == |inner|
    && (forall i | 0 <= i < |at| :: at[i] < |outer| && outer[at[i]] == inner[i])
    && (forall i, j | 0 <= i < j < |at| :: at[i] < at[j])
  }

  /** The greedy scan finds an embedding whenever there is one. */
  lemma {:induction false} SubsequenceIsEmbedding(inner: seq<string>, outer: seq<string>)
    ensures IsSubsequence(inner, outer) <==> exists at :: Embeds(inner, outer, at)
  {
    if IsSubsequence(inner, outer) { var at := GreedyEmbedding(inner, outer); }
    if at :| Embeds(inner, outer, at) { EmbeddingIsFound(inner, outer, at); }
  }

  lemma {:induction false} GreedyEmbedding(inner: seq<string>, outer: seq<string>) returns (at: seq<nat>)
    requires IsSubsequence(inner, outer)
    ensures Embeds(inner, outer, at)
    decreases |outer|
  {
    if inner == [] {
      at := [];
    } else if outer[0] == inner[0] {
      var rest := GreedyEmbedding(inner[1..], outer[1..]);
      at := [0] + Shifted(rest);
    } else {
      var rest := GreedyEmbedding(inner, outer[1..]);
      at := Shifted(rest);
    }
  }

  function Shifted(at: seq<nat>): (r: seq<nat>)
    ensures |r| == |at| && forall i | 0 <= i < |at| :: r[i] == at[i] + 1
  {
    seq(|at|, i requires 0 <= i < |at| => at[i] + 1)
  }

  lemma {:induction false} EmbeddingIsFound(inner: seq<string>, outer: seq<string>, at: seq<nat>)
    requires Embeds(inner, outer, at)
    ensures IsSubsequence(inner, outer)
    decreases |outer|
  {
    if inner != [] {
      assert at[0] < |outer|;
      var hit := outer[0] == inner[0];
      var used := if hit then at[1..] else at;
      assert forall i | 0 <= i < |used| :: used[i] > 0 by {
        assert !hit ==> at[0] != 0;
      }
      var shifted := seq(|used|, i requires 0 <= i < |used| => (used[i] - 1) as nat);
      EmbeddingIsFound(if hit then inner[1..] else inner, outer[1..], shifted);
    }
  }

  // ----- the shape of recorded URLs ----------------------------------------------------

  /** What every URL in a ledger looks like: a scheme, URL characters, no trailing punctuation. */
  predicate RecordedShape(u: string) {
    && SchemeLen(u) > 0
    && (forall c | c in u :: IsUrlChar(c))
    && !IsTrailingPunct(u[|u| - 1])
  }

  lemma {:induction false} MatchesAreUrls(s: string)
    ensures forall m | m in UrlMatches(s) :: UrlLen(m) == |m| > 0 && forall c | c in m :: IsUrlChar(c)
    decreases |s|
  {
    if s != [] {
      var n := UrlLen(s);
      if n > 0 {
        MatchesAreUrls(s[n..]);
        UrlLenIsRun(s);
        var m := s[..n];
        assert SchemeLen(m) == SchemeLen(s);
        WholeRun(m[SchemeLen(m)..], IsUrlChar);
      } else {
        MatchesAreUrls(s[1..]);
      }
    }
  }

  lemma {:induction false} WholeRun(s: string, p: char -> bool)
    requires forall c | c in s :: p(c)
    ensures RunLen(s, p) == |s|
  {
    if s != [] {
      assert s[0] in s;
      WholeRun(s[1..], p);
    }
  }

  /** A URL match is the whole run of URL characters it starts. */
  lemma {:induction false} UrlLenIsRun(s: string)
    ensures UrlLen(s) > 0 ==> UrlLen(s) == RunLen(s, IsUrlChar) > SchemeLen(s) > 0
    ensures UrlLen(s) > 0 ==> forall c | c in s[..UrlLen(s)] :: IsUrlChar(c)
    ensures UrlLen(s) > 0 <==> 0 < SchemeLen(s) < RunLen(s, IsUrlChar)
  {
    hide RunLen;
    var q := SchemeLen(s);
    if q > 0 {
      RunSplit(s[..q], s[q..], IsUrlChar);
      assert s == s[..q] + s[q..];
    }
  }

  lemma {:induction false} RunSplit(a: string, b: string, p: char -> bool)
    requires forall c | c in a :: p(c)
    ensures RunLen(a + b, p) == |a| + RunLen(b, p)
  {
    if a == [] {
      assert a + b == b;
    } else {
      assert a[0] in a;
      assert (a + b)[1..] == a[1..] + b;
      RunSplit(a[1..], b, p);
    }
  }

  /** Every URL that `record` puts in the ledger has the recorded shape. */
  lemma UrlsInHaveShape(text: string)
    ensures forall u | u in UrlsIn(text) :: RecordedShape(u)
  {
    MatchesAreUrls(text);
    forall m | m in UrlMatches(text) ensures RecordedShape(NormalizeRaw(m)) {
      NormalizedHasShape(m);
    }
  }

  lemma {:induction false} TrimAfter(p: string, b: string)
    requires p != [] && !IsTrailingPunct(p[|p| - 1])
    ensures TrimPunct(p + b) == p + TrimPunct(b)
  {
    if b == [] {
      assert p + b == p;
    } else {
      var shorter := b[..|b| - 1];
      assert (p + b)[..|p + b| - 1] == p + shorter;
      assert (p + b)[|p + b| - 1] == b[|b| - 1];
      TrimAfter(p, shorter);
    }
  }

  /** A scheme at the start of a text is read whatever follows. */
  lemma SchemeInside(u: string, x: string)
    ensures 0 < SchemeLen(u + x) <= |u| ==> SchemeLen(u) == SchemeLen(u + x)
    ensures SchemeLen(u) > 0 ==> SchemeLen(u + x) == SchemeLen(u)
  {
    assert "http://"[4] == ':' && "https://"[4] == 's';
  }

  predicate IsScheme(p: string) { p == "http://" || p == "https://" }

  lemma SchemeCut(s: string)
    requires SchemeLen(s) > 0
    ensures IsScheme(s[..SchemeLen(s)])
  {
  }

  lemma SchemeFacts(p: string)
    requires IsScheme(p)
    ensures SchemeLen(p) == |p| > 0 && '&' !in p && p[|p| - 1] == '/'
    ensures forall c | c in p :: IsUrlChar(c)
  {
    assert "http://"[4] == ':' && "https://"[4] == 's';
  }

  lemma NormalizedBody(p: string, b: string)
    requires IsScheme(p)
    ensures NormalizeRaw(p + b) == p + DecodeAmp(TrimPunct(b))
  {
    SchemeFacts(p);
    TrimAfter(p, b);
    ReplaceSkips(p, TrimPunct(b), "&amp;", "&");
  }

  lemma ShapeOf(p: string, x: string)
    requires IsScheme(p) && (forall c | c in x :: IsUrlChar(c))
    requires x != [] ==> !IsTrailingPunct(x[|x| - 1])
    ensures RecordedShape(p + x)
  {
    SchemeFacts(p);
    SchemeInside(p, x);
  }

  lemma NormalizedHasShape(m: string)
    requires UrlLen(m) == |m| > 0 && forall c | c in m :: IsUrlChar(c)
    ensures RecordedShape(NormalizeRaw(m))
  {
    var q := SchemeLen(m);
    var p, b := m[..q], m[q..];
    SchemeCut(m);
    CutAt(m, q);
    NormalizedBody(p, b);
    DecodeKeepsChars(TrimPunct(b));
    ShapeOf(p, DecodeAmp(TrimPunct(b)));
  }

  lemma {:induction false} DecodeKeepsChars(s: string)
    ensures forall c | c in DecodeAmp(s) :: c in s
    ensures '\U{0}' in s ==> '\U{0}' in DecodeAmp(s)
    ensures s != [] && s[|s| - 1] != ';' ==> DecodeAmp(s) != [] && DecodeAmp(s)[|DecodeAmp(s)| - 1] == s[|s| - 1]
    decreases |s|
  {
    if s != [] {
      if "&amp;" <= s {
        DecodeKeepsChars(s[5..]);
        assert s == "&amp;" + s[5..];
      } else {
        DecodeKeepsChars(s[1..]);
        assert s == [s[0]] + s[1..];
      }
    }
  }

  lemma {:induction false} DecodeShrinks(s: string)
    ensures |DecodeAmp(s)| <= |s|
    ensures |DecodeAmp(s)| == |s| ==> DecodeAmp(s) == s
    decreases |s|
  {
    if s != [] {
      DecodeShrinks(if "&amp;" <= s then s[5..] else s[1..]);
    }
  }
}
