/** Which recorded URL an unrecorded one stands for, told by the text of the URLs. */
module LinkRepairs {
  import opened Text
  import opened LinkResolver

  // ----- addresses ---------------------------------------------------------------------------------

  function Repeated(p: string, n: nat): string {
    if n == 0 then [] else p + Repeated(p, n - 1)
  }

  /** Without its leading copies of `p`, `s` is `rest`. */
  ghost predicate Strips(s: string, p: string, rest: string) {
    !(p <= rest) && exists n: nat :: s == Repeated(p, n) + rest
  }

  /** `x` ends in no slash, and `s` is `x` with slashes behind it. */
  ghost predicate EndsBare(s: string, x: string) {
    (x == [] || x[|x| - 1] != '/') && exists n: nat :: s == x + Repeated("/", n)
  }

  /** `x` is the address written as `s`, without schemes, `www.` and the slashes at the end. */
  ghost predicate Bare(s: string, x: string) {
    exists a, b, c :: Strips(s, "https://", a) && Strips(a, "http://", b) && Strips(b, "www.", c) && EndsBare(c, x)
  }

  /** The two URLs differ in case, scheme, `www.` and slashes at the end at most. */
  ghost predicate SameAddress(u: string, k: string, lower: Lower) {
    exists x :: Bare(lower(u), x) && Bare(lower(k), x)
  }

  lemma {:induction false} StripsIs(s: string, p: string, rest: string)
    requires p != []
    ensures DropPrefixes(s, p) == rest <==> Strips(s, p, rest)
  {
    var n := Stripped(s, p);
    if Strips(s, p, rest) {
      var m: nat :| s == Repeated(p, m) + rest;
      StripCopies(p, m, rest);
    }
  }

  lemma OneMore(p: string, n: nat, rest: string)
    ensures Repeated(p, n + 1) + rest == p + (Repeated(p, n) + rest)
    ensures Repeated(p, 0) + rest == rest
  {
    Assoc(p, Repeated(p, n), rest);
  }

  lemma DropStep(s: string, p: string)
    requires p != []
    ensures DropPrefixes(s, p) == if p <= s then DropPrefixes(s[|p|..], p) else s
  {
  }

  lemma {:induction false} Stripped(s: string, p: string) returns (n: nat)
    requires p != []
    ensures s == Repeated(p, n) + DropPrefixes(s, p) && !(p <= DropPrefixes(s, p))
    decreases |s|
  {
    hide Repeated, DropPrefixes;
    DropStep(s, p);
    if p <= s {
      var t := s[|p|..];
      CutAt(s, |p|);
      var m := Stripped(t, p);
      n := m + 1;
      OneMore(p, m, DropPrefixes(t, p));
    } else {
      n := 0;
      OneMore(p, 0, s);
    }
  }

  lemma {:induction false} StripCopies(p: string, n: nat, rest: string)
    requires p != [] && !(p <= rest)
    ensures DropPrefixes(Repeated(p, n) + rest, p) == rest
  {
    if n == 0 {
      assert [] + rest == rest;
    } else {
      StripCopies(p, n - 1, rest);
      Assoc(p, Repeated(p, n - 1), rest);
      assert (p + (Repeated(p, n - 1) + rest))[|p|..] == Repeated(p, n - 1) + rest;
    }
  }

  lemma {:induction false} SlashesAre(n: nat)
    ensures |Repeated("/", n)| == n && forall c | c in Repeated("/", n) :: c == '/'
  {
    if n > 0 { SlashesAre(n - 1); }
  }

  lemma {:induction false} AllSlashes(s: string)
    requires forall c | c in s :: c == '/'
    ensures s == Repeated("/", |s|)
  {
    if s != [] {
      assert s[0] in s && s == [s[0]] + s[1..];
      assert forall c | c in s[1..] :: c in s;
      AllSlashes(s[1..]);
    }
  }

  lemma EndsBareIs(s: string, x: string)
    ensures DropTrailing(s, IsSlash) == x <==> EndsBare(s, x)
  {
    hide DropTrailing;
    var d := DropTrailing(s, IsSlash);
    CutAt(s, |d|);
    AllSlashes(s[|d|..]);
    assert EndsBare(s, d);
    if EndsBare(s, x) {
      var n: nat :| s == x + Repeated("/", n);
      SlashesAre(n);
      OneEnd(s, x, d, n);
    }
  }

  lemma OneEnd(s: string, x: string, d: string, n: nat)
    requires s == x + Repeated("/", n) && |Repeated("/", n)| == n && forall c | c in Repeated("/", n) :: c == '/'
    requires x == [] || x[|x| - 1] != '/'
    requires d <= s && (d == [] || d[|d| - 1] != '/') && forall i | |d| <= i < |s| :: s[i] == '/'
    ensures d == x
  {
    var r := Repeated("/", n);
    assert forall i | |x| <= i < |s| :: s[i] == r[i - |x|] && r[i - |x|] in r;
    assert x != [] ==> s[|x| - 1] == x[|x| - 1];
    assert d != [] ==> s[|d| - 1] == d[|d| - 1];
  }

  lemma KeyIsBare(u: string, x: string, lower: Lower)
    ensures LooseKey(u, lower) == x <==> Bare(lower(u), x)
  {
    hide Strips, EndsBare, DropPrefixes, DropTrailing;
    var s := lower(u);
    var a := DropPrefixes(s, "https://");
    var b := DropPrefixes(a, "http://");
    var c := DropPrefixes(b, "www.");
    StripsIs(s, "https://", a);
    StripsIs(a, "http://", b);
    StripsIs(b, "www.", c);
    EndsBareIs(c, x);
    if Bare(s, x) {
      var a', b', c' :|
        Strips(s, "https://", a') && Strips(a', "http://", b') && Strips(b', "www.", c') && EndsBare(c', x);
      StripsIs(s, "https://", a');
      StripsIs(a', "http://", b');
      StripsIs(b', "www.", c');
    }
  }

  lemma SameKeyIsSameAddress(u: string, k: string, lower: Lower)
    ensures LooseKey(k, lower) == LooseKey(u, lower) <==> SameAddress(u, k, lower)
  {
    hide LooseKey, Bare;
    KeyIsBare(u, LooseKey(u, lower), lower);
    KeyIsBare(k, LooseKey(u, lower), lower);
    if SameAddress(u, k, lower) {
      var x :| Bare(lower(u), x) && Bare(lower(k), x);
      KeyIsBare(u, x, lower);
      KeyIsBare(k, x, lower);
    }
  }

  // ----- places on a host ---------------------------------------------------------------------------

  /** The segments between the slashes of a path, in order. */
  ghost predicate Slashed(path: string, segments: seq<string>)
    decreases |segments|
  {
    if segments == [] then forall c | c in path :: c == '/'
    else
      && segments[0] != [] && '/' !in segments[0]
      && exists n: nat, rest :: SegmentFirst(path, n, segments[0], rest) && Slashed(rest, segments[1..])
  }

  /** The path starts with `n` slashes and the segment, and goes on with a slash or not at all. */
  predicate SegmentFirst(path: string, n: nat, segment: string, rest: string) {
    path == Repeated("/", n) + (segment + rest) && (rest == [] || rest[0] == '/')
  }

  predicate StartsTail(tail: string) { tail == [] || tail[0] == '?' || tail[0] == '#' }

  /** The address names this host and these path segments, before any query or fragment. */
  ghost predicate ReadsAs(x: string, host: string, segments: seq<string>) {
    && '/' !in host
    && ((x == host && segments == []) || exists path, tail ::
          && x == host + (['/'] + (path + tail)) && '?' !in path && '#' !in path && StartsTail(tail)
          && Slashed(path, segments))
  }

  /** The segments of one path are those of the other with some left out. */
  ghost predicate Thinned(inner: seq<string>, outer: seq<string>) {
    exists at :: Embeds(inner, outer, at)
  }

  /** Two addresses on one host with the same last segment, one with segments of the other left out. */
  ghost predicate NearAddress(u: string, k: string, lower: Lower) {
    exists x, y, host, us, ks ::
      && Bare(lower(u), x) && Bare(lower(k), y) && ReadsAs(x, host, us) && ReadsAs(y, host, ks)
      && us != [] && ks != [] && us[|us| - 1] == ks[|ks| - 1] && (Thinned(us, ks) || Thinned(ks, us))
  }

  function SegmentsOf(path: string): seq<string> { NonEmpty(Split(path, '/')) }

  lemma SlashFirst(path: string)
    requires path != [] && path[0] == '/'
    ensures SegmentsOf(path) == SegmentsOf(path[1..])
  {
    assert ([[]] + Split(path[1..], '/'))[1..] == Split(path[1..], '/');
  }

  lemma {:induction false} SplitsSegment(segment: string, rest: string)
    requires '/' !in segment && (rest == [] || rest[0] == '/')
    ensures Split(segment + rest, '/') == [segment] + (if rest == [] then [] else Split(rest[1..], '/'))
  {
    if segment == [] {
      assert segment + rest == rest;
    } else {
      assert (segment + rest)[1..] == segment[1..] + rest;
      SplitsSegment(segment[1..], rest);
      assert [segment[0]] + segment[1..] == segment;
    }
  }

  lemma TakesSegment(segment: string, rest: string)
    requires segment != [] && '/' !in segment && (rest == [] || rest[0] == '/')
    ensures SegmentsOf(segment + rest) == [segment] + SegmentsOf(rest)
  {
    SplitsSegment(segment, rest);
    var more := if rest == [] then [] else Split(rest[1..], '/');
    assert ([segment] + more)[1..] == more;
    if rest != [] { SlashFirst(rest); }
    NoSegments();
  }

  lemma NoSegments()
    ensures SegmentsOf([]) == []
  {
    assert Split([], '/')[1..] == [];
  }

  lemma {:induction false} SkipsSlashes(n: nat, rest: string)
    ensures SegmentsOf(Repeated("/", n) + rest) == SegmentsOf(rest)
  {
    hide SegmentsOf;
    if n == 0 {
      assert [] + rest == rest;
    } else {
      SkipsSlashes(n - 1, rest);
      var s := Repeated("/", n) + rest;
      assert s[1..] == Repeated("/", n - 1) + rest;
      SlashFirst(s);
    }
  }

  lemma {:induction false} SlashedIs(path: string, segments: seq<string>)
    requires Slashed(path, segments)
    ensures SegmentsOf(path) == segments
    decreases |segments|
  {
    hide SegmentsOf;
    NoSegments();
    if segments == [] {
      AllSlashes(path);
      SkipsSlashes(|path|, []);
      assert path + [] == path;
    } else {
      var n: nat, rest :| SegmentFirst(path, n, segments[0], rest) && Slashed(rest, segments[1..]);
      SkipsSlashes(n, segments[0] + rest);
      TakesSegment(segments[0], rest);
      SlashedIs(rest, segments[1..]);
    }
  }

  lemma {:induction false} IsSlashed(path: string)
    ensures Slashed(path, SegmentsOf(path))
    decreases |path|
  {
    hide SegmentsOf, RunLen, Slashed;
    NoSegments();
    var n := RunLen(path, IsSlash);
    var s := path[n..];
    CutAt(path, n);
    AllSlashes(path[..n]);
    SkipsSlashes(n, s);
    if s == [] {
      AllIsSlashed(path);
    } else {
      var m := RunLen(s, NotSlash);
      var segment, rest := s[..m], s[m..];
      CutAt(s, m);
      assert m > 0;
      TakesSegment(segment, rest);
      IsSlashed(rest);
      MoreIsSlashed(path, n, segment, rest, SegmentsOf(rest));
    }
  }

  lemma AllIsSlashed(path: string)
    requires forall c | c in path :: c == '/'
    ensures Slashed(path, [])
  {
  }

  lemma MoreIsSlashed(path: string, n: nat, segment: string, rest: string, more: seq<string>)
    requires SegmentFirst(path, n, segment, rest) && segment != [] && '/' !in segment && Slashed(rest, more)
    ensures Slashed(path, [segment] + more)
  {
    hide SegmentFirst;
    assert ([segment] + more)[1..] == more;
  }

  lemma ReadsPath(host: string, path: string, tail: string, segments: seq<string>)
    requires '/' !in host && '?' !in path && '#' !in path && StartsTail(tail) && Slashed(path, segments)
    ensures ReadsAs(host + (['/'] + (path + tail)), host, segments)
  {
    hide Slashed;
  }

  lemma PlaceReads(x: string)
    ensures ReadsAs(x, SplitKey(x).host, SplitKey(x).segments)
  {
    hide Slashed, ReadsAs, NonEmpty, Split;
    var h := RunLen(x, NotSlash);
    var host := x[..h];
    if h < |x| {
      var p := x[h + 1..];
      var k := RunLen(p, InPath);
      CutAt(p, k);
      IsSlashed(p[..k]);
      assert x == host + (['/'] + p);
      ReadsPath(host, p[..k], p[k..], SegmentsOf(p[..k]));
    } else {
      assert x == host && [][..0] == "";
      NoSegments();
      HostAlone(x);
    }
  }

  lemma HostAlone(x: string)
    requires '/' !in x
    ensures ReadsAs(x, x, [])
  {
  }

  lemma RunOf(a: string, b: string, p: char -> bool)
    requires (forall c | c in a :: p(c)) && (b == [] || !p(b[0]))
    ensures RunLen(a + b, p) == |a|
  {
    RunSplit(a, b, p);
  }

  lemma ReadsOnce(x: string, host: string, segments: seq<string>)
    requires ReadsAs(x, host, segments)
    ensures SplitKey(x) == Place(host, segments)
  {
    hide Slashed, RunLen, NonEmpty, Split;
    NoSegments();
    if x == host && segments == [] {
      RunOf(host, [], NotSlash);
      assert host + [] == host;
    } else {
      var path, tail :| x == host + (['/'] + (path + tail)) && '?' !in path && '#' !in path && StartsTail(tail)
                        && Slashed(path, segments);
      RunOf(host, ['/'] + (path + tail), NotSlash);
      assert x[|host| + 1..] == path + tail && x[..|host|] == host;
      RunOf(path, tail, InPath);
      assert (path + tail)[..|path|] == path;
      SlashedIs(path, segments);
    }
  }

  lemma ThinnedIs(inner: seq<string>, outer: seq<string>)
    ensures IsSubsequence(inner, outer) <==> Thinned(inner, outer)
  {
    SubsequenceIsEmbedding(inner, outer);
  }

  lemma NearIsNearAddress(u: string, k: string, lower: Lower)
    ensures var place := SplitKey(LooseKey(u, lower));
      (place.segments != [] && Near(k, place.host, place.segments, lower)) <==> NearAddress(u, k, lower)
  {
    hide LooseKey, SplitKey, Bare, ReadsAs, Thinned, IsSubsequence;
    var x, y := LooseKey(u, lower), LooseKey(k, lower);
    KeyIsBare(u, x, lower);
    KeyIsBare(k, y, lower);
    PlaceReads(x);
    PlaceReads(y);
    var us, ks := SplitKey(x).segments, SplitKey(y).segments;
    ThinnedIs(us, ks);
    ThinnedIs(ks, us);
    if NearAddress(u, k, lower) {
      var x', y', host, us', ks' :|
        && Bare(lower(u), x') && Bare(lower(k), y') && ReadsAs(x', host, us') && ReadsAs(y', host, ks')
        && us' != [] && ks' != [] && us'[|us'| - 1] == ks'[|ks'| - 1] && (Thinned(us', ks') || Thinned(ks', us'));
      KeyIsBare(u, x', lower);
      KeyIsBare(k, y', lower);
      ReadsOnce(x, host, us');
      ReadsOnce(y, host, ks');
    }
  }

  // ----- the answer -----------------------------------------------------------------------------------

  /** `g` is the one recorded URL with the address of `u`. */
  ghost predicate OnlySame(u: string, g: string, known: set<string>, lower: Lower) {
    g in known && SameAddress(u, g, lower) && forall k | k in known && SameAddress(u, k, lower) :: k == g
  }

  /** `g` is the one recorded URL near the address of `u`. */
  ghost predicate OnlyNear(u: string, g: string, known: set<string>, lower: Lower) {
    g in known && NearAddress(u, g, lower) && forall k | k in known && NearAddress(u, k, lower) :: k == g
  }

  /** An unrecorded URL stands for the one recorded URL with its address or else, when there is not
      exactly one, for the one recorded URL near it, and for nothing otherwise. */
  lemma ResolveIff(u: string, g: string, known: set<string>, lower: Lower)
    requires u !in known
    ensures Resolve(u, known, lower) == Some(g)
       <==> OnlySame(u, g, known, lower) || (OnlyNear(u, g, known, lower) && !exists k :: OnlySame(u, k, known, lower))
  {
    hide LooseKey, SplitKey, SameAddress, NearAddress, Near;
    var key := LooseKey(u, lower);
    var place := SplitKey(key);
    forall k ensures LooseKey(k, lower) == key <==> SameAddress(u, k, lower) { SameKeyIsSameAddress(u, k, lower); }
    forall k ensures place.segments != [] && Near(k, place.host, place.segments, lower) <==> NearAddress(u, k, lower) {
      NearIsNearAddress(u, k, lower);
    }
    OnlySameIs(u, key, known, lower);
    if place.segments != [] { OnlyNearIs(u, place, known, lower); }
  }

  lemma OnlySameIs(u: string, key: string, known: set<string>, lower: Lower)
    requires forall k :: LooseKey(k, lower) == key <==> SameAddress(u, k, lower)
    ensures var o := OnlyOne(known, k => LooseKey(k, lower) == key);
      forall g :: o == Some(g) <==> OnlySame(u, g, known, lower)
  {
    hide LooseKey, SameAddress;
  }

  lemma OnlyNearIs(u: string, place: Place, known: set<string>, lower: Lower)
    requires place.segments != []
    requires forall k :: Near(k, place.host, place.segments, lower) <==> NearAddress(u, k, lower)
    ensures var o := OnlyOne(known, k => Near(k, place.host, place.segments, lower));
      forall g :: o == Some(g) <==> OnlyNear(u, g, known, lower)
  {
    hide Near, NearAddress;
  }

  // ----- ways of writing one address --------------------------------------------------------------------

  /** `x` starts with no scheme and no `www.`, whatever slashes follow, and does not end in a slash. */
  predicate IsAddress(x: string) {
    && (x == [] || x[|x| - 1] != '/')
    && !("https://" <= x + "//") && !("http://" <= x + "//") && !("www." <= x + "//")
  }

  /** `s` is the address with or without a scheme, `www.` and slashes at the end. */
  ghost predicate Writes(s: string, x: string) {
    IsAddress(x) && exists scheme, www, n: nat :: IsDress(scheme, www) && s == scheme + (www + (x + Repeated("/", n)))
  }

  predicate IsDress(scheme: string, www: string) {
    (scheme == [] || scheme == "http://" || scheme == "https://") && (www == [] || www == "www.")
  }

  lemma TwoSlashesSuffice(x: string, n: nat, p: string)
    requires p == "https://" || p == "http://" || p == "www."
    requires p <= x + Repeated("/", n)
    ensures p <= x + "//"
  {
    SlashesAre(n);
    var r := Repeated("/", n);
    assert forall i | 0 <= i < |r| :: r[i] in r;
    assert forall i | 0 <= i < |p| :: p[i] == (x + r)[i];
    assert |p| > 4 ==> p[|p| - 3] == ':';
    assert |p| == 4 ==> p[3] == '.';
  }

  lemma NoPrefixBehind(x: string, n: nat, p: string)
    requires IsAddress(x) && (p == "https://" || p == "http://" || p == "www.")
    ensures !(p <= x + Repeated("/", n))
  {
    if p <= x + Repeated("/", n) { TwoSlashesSuffice(x, n, p); }
  }

  lemma StripsOne(p: string, rest: string)
    requires !(p <= rest)
    ensures Strips(p + rest, p, rest) && Strips(rest, p, rest)
  {
    assert Repeated(p, 0) + rest == rest;
    assert Repeated(p, 1) + rest == p + rest;
  }

  lemma WritesBare(s: string, x: string)
    requires Writes(s, x)
    ensures Bare(s, x)
  {
    hide Strips, IsAddress;
    var scheme, www, n: nat :| IsDress(scheme, www) && s == scheme + (www + (x + Repeated("/", n)));
    var c := x + Repeated("/", n);
    var b := www + c;
    NoPrefixBehind(x, n, "https://");
    NoPrefixBehind(x, n, "http://");
    NoPrefixBehind(x, n, "www.");
    StripsOne("www.", c);
    assert www == [] ==> b == c;
    assert www != [] ==> b[0] == 'w';
    StripsOne("http://", b);
    StripsOne("https://", b);
    assert scheme == [] ==> s == b;
    assert scheme == "http://" ==> s[4] == ':';
    assert !("https://" <= "http://" + b) by { assert ("http://" + b)[4] == ':'; }
    StripsOne("https://", "http://" + b);
    assert EndsBare(c, x) by { AddressEnds(x, n); }
  }

  lemma AddressEnds(x: string, n: nat)
    requires IsAddress(x)
    ensures EndsBare(x + Repeated("/", n), x)
  {
  }

  /** A link that differs from one recorded URL in case, scheme, `www.` or slashes at the end only, and
      from no other so, stands for it. */
  lemma RewrittenIsRepaired(u: string, k: string, x: string, known: set<string>, lower: Lower)
    requires u !in known && k in known && Writes(lower(u), x) && Writes(lower(k), x)
    requires forall j | j in known && SameAddress(u, j, lower) :: j == k
    ensures Resolve(u, known, lower) == Some(k)
  {
    hide Writes, Bare;
    WritesBare(lower(u), x);
    WritesBare(lower(k), x);
    ResolveIff(u, k, known, lower);
  }

  /** The same for a link that differs in case only, whatever it looks like. */
  lemma CaseIsRepaired(u: string, k: string, known: set<string>, lower: Lower)
    requires u !in known && k in known && lower(u) == lower(k)
    requires forall j | j in known && SameAddress(u, j, lower) :: j == k
    ensures Resolve(u, known, lower) == Some(k)
  {
    hide Bare;
    KeyIsBare(u, LooseKey(u, lower), lower);
    ResolveIff(u, k, known, lower);
  }

  /** A path of the segments. */
  function PathText(segments: seq<string>): string {
    if segments == [] then [] else ['/'] + (segments[0] + PathText(segments[1..]))
  }

  predicate PlainSegments(segments: seq<string>) {
    forall s | s in segments :: s != [] && '/' !in s && '?' !in s && '#' !in s
  }

  lemma {:induction false} PathIsSlashed(segments: seq<string>)
    requires PlainSegments(segments)
    ensures Slashed(PathText(segments), segments) && '?' !in PathText(segments) && '#' !in PathText(segments)
    ensures PathText(segments) == [] || PathText(segments)[0] == '/'
  {
    if segments != [] {
      assert segments[0] in segments;
      PathIsSlashed(segments[1..]);
      var rest := PathText(segments[1..]);
      assert Repeated("/", 1) == ['/'];
      assert SegmentFirst(PathText(segments), 1, segments[0], rest);
    }
  }

  lemma PathReads(host: string, segments: seq<string>)
    requires '/' !in host && PlainSegments(segments) && segments != []
    ensures ReadsAs(host + PathText(segments), host, segments)
  {
    hide Slashed;
    assert segments[0] in segments;
    PathIsSlashed(segments);
    PathIsSlashed(segments[1..]);
    var path := PathText(segments)[1..];
    assert PathText(segments) == ['/'] + (path + []);
    InnerPath(segments);
    ReadsPath(host, path, [], segments);
  }

  lemma InnerPath(segments: seq<string>)
    requires PlainSegments(segments) && segments != []
    ensures Slashed(PathText(segments)[1..], segments)
  {
    assert segments[0] in segments;
    PathIsSlashed(segments[1..]);
    var path, rest := PathText(segments)[1..], PathText(segments[1..]);
    assert Repeated("/", 0) + (segments[0] + rest) == path;
    assert SegmentFirst(path, 0, segments[0], rest);
  }

  lemma LeftOut(before: seq<string>, middle: seq<string>, after: seq<string>)
    ensures Thinned(before + after, before + middle + after)
  {
    var at := seq(|before + after|, i requires 0 <= i < |before + after| =>
      if i < |before| then i else i + |middle|);
    assert Embeds(before + after, before + middle + after, at);
  }

  /** A link with path segments put in, or left out, before the last one stands for the one recorded
      URL it is near. */
  lemma ExtraSegmentsAreRepaired(u: string, k: string, host: string, before: seq<string>, middle: seq<string>,
                                 after: seq<string>, known: set<string>, lower: Lower)
    requires u !in known && k in known && '/' !in host && after != []
    requires PlainSegments(before) && PlainSegments(middle) && PlainSegments(after)
    requires var long, short := host + PathText(before + middle + after), host + PathText(before + after);
      || (Writes(lower(u), long) && Writes(lower(k), short))
      || (Writes(lower(u), short) && Writes(lower(k), long))
    requires forall j | j in known && (SameAddress(u, j, lower) || NearAddress(u, j, lower)) :: j == k
    ensures Resolve(u, known, lower) == Some(k)
  {
    hide Writes, Bare, ReadsAs, Thinned, SameAddress, PathText;
    var us, ks := before + middle + after, before + after;
    var long, short := host + PathText(us), host + PathText(ks);
    PathReads(host, us);
    PathReads(host, ks);
    LeftOut(before, middle, after);
    assert us[|us| - 1] == ks[|ks| - 1] == after[|after| - 1];
    if Writes(lower(u), long) && Writes(lower(k), short) {
      WritesBare(lower(u), long);
      WritesBare(lower(k), short);
    } else {
      WritesBare(lower(u), short);
      WritesBare(lower(k), long);
    }
    assert NearAddress(u, k, lower);
    ResolveIff(u, k, known, lower);
  }

  // ----- escaped and punctuated links -------------------------------------------------------------------

  /** A URL as HTML writes it. */
  function EscapeAmp(s: string): string {
    if s == [] then [] else (if s[0] == '&' then "&amp;" else [s[0]]) + EscapeAmp(s[1..])
  }

  lemma {:induction false} DecodesEscaped(s: string)
    ensures DecodeAmp(EscapeAmp(s)) == s
  {
    if s != [] {
      DecodesEscaped(s[1..]);
      var head, rest := if s[0] == '&' then "&amp;" else [s[0]], EscapeAmp(s[1..]);
      assert (head + rest)[|head|..] == rest;
      assert s == [s[0]] + s[1..];
    }
  }

  lemma {:induction false} EscapedEnd(s: string)
    requires s != [] && s[|s| - 1] != '&'
    ensures EscapeAmp(s) != [] && EscapeAmp(s)[|EscapeAmp(s)| - 1] == s[|s| - 1]
  {
    if |s| > 1 { EscapedEnd(s[1..]); } else { assert EscapeAmp(s[1..]) == []; }
  }

  /** A URL that is escaped and followed by punctuation is looked up as it is. */
  lemma EscapedUrlIsRead(u: string, suffix: string)
    requires u != [] && !IsTrailingPunct(u[|u| - 1]) && u[|u| - 1] != '&'
    requires forall c | c in suffix :: IsTrailingPunct(c)
    ensures NormalizeRaw(EscapeAmp(u) + suffix) == u
  {
    EscapedEnd(u);
    DecodesEscaped(u);
    TrimsPunct(EscapeAmp(u), suffix);
  }

  lemma TrimsPunct(s: string, suffix: string)
    requires s != [] && !IsTrailingPunct(s[|s| - 1]) && forall c | c in suffix :: IsTrailingPunct(c)
    ensures TrimPunct(s + suffix) == s
  {
    hide DropTrailing;
    var t := s + suffix;
    var r := TrimPunct(t);
    assert forall i | |s| <= i < |t| :: t[i] == suffix[i - |s|] && suffix[i - |s|] in suffix;
    assert t[|s| - 1] == s[|s| - 1];
    assert r != [] ==> r[|r| - 1] == t[|r| - 1];
    assert |r| == |s|;
  }
}
