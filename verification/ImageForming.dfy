/** src/multimodal.rs: markers that come about when others are taken out of a text. */
module ImageForming {
  import opened Text
  import opened ImageMarkers
  import opened ImageRoundTrip

  /** A closed marker with a reference stands at `i`. */
  predicate NamesAt(k: string, i: nat) {
    && i <= |k| && PREFIX <= k[i..] && !Unclosed(k[i..]) && RefAt(k[i..]) != []
  }

  // ----- a scan finds a marker exactly when there is one ---------------------------------------------

  lemma OneBracket(s: string, i: nat)
    requires PREFIX <= s && 0 < i < 7
    ensures s[i] != '['
  {
    assert s[i] == PREFIX[i];
  }

  lemma NamedIsClosed(k: string, i: nat)
    requires NamesAt(k, i)
    ensures i + 7 <= MarkerEnd(k[i..]) + i < |k| && k[MarkerEnd(k[i..]) + i] == ']' && k[i] == '['
  {
    assert k[i..][MarkerEnd(k[i..])] == ']';
  }

  /** Within a marker at the start nothing else is named, unless the marker names something. */
  lemma InsideMarker(k: string, i: nat)
    requires PREFIX <= k && NamesAt(k, i) && (Unclosed(k) || i < MarkerLen(k))
    ensures !Unclosed(k) && RefAt(k) != []
  {
    hide RunLen, Trim;
    NamedIsClosed(k, i);
    if i == 0 {
      assert k[0..] == k;
    } else {
      if i < 7 { OneBracket(k, i); }
      BracketInside(k, i, MarkerEnd(k[i..]) + i);
    }
  }

  lemma BracketInside(k: string, i: nat, e: nat)
    requires PREFIX <= k && 7 <= i < e < |k| && k[i] == '[' && k[e] == ']'
    requires Unclosed(k) || i < MarkerLen(k)
    ensures !Unclosed(k) && RefAt(k) != []
  {
    var inner := k[7..];
    var n := RunLen(inner, NotBracket);
    assert inner[i - 7] == '[' && inner[e - 7] == ']';
    assert NotBracket(inner[e - 7]) <==> false;
    assert n <= e - 7;
    var r := k[7..MarkerEnd(k)];
    assert i < MarkerEnd(k);
    assert r[i - 7] == '[';
    TrimKeepsText(r, i - 7);
  }

  lemma TrimKeepsText(s: string, i: nat)
    requires i < |s| && !IsWhitespace(s[i])
    ensures Trim(s) != []
  {
    hide DropTrailing;
    var x, y := s[..i], s[i..];
    CutAt(s, i);
    DropLeadingStops(x, y);
    var d := DropLeading(s, IsWhitespace);
    var t := |d| - |y|;
    assert d[t..] == y && d[t] == y[0] == s[i];
    DropTrailingStops(d, t);
  }

  lemma DropTrailingStops(d: string, t: nat)
    requires t < |d| && !IsWhitespace(d[t])
    ensures DropTrailing(d, IsWhitespace) != []
  {
    hide DropTrailing;
  }

  lemma {:induction false} NamedIsFound(k: string, i: nat)
    requires NamesAt(k, i)
    ensures Scan(k).refs != []
    decreases |k|
  {
    hide Scan, Trim, RunLen, MarkerEnd, RefAt;
    NamedIsClosed(k, i);
    if !(PREFIX <= k) {
      ScanChar(k);
      assert i > 0 by { assert k[0..] == k; }
      assert k[1..][i - 1..] == k[i..];
      NamedIsFound(k[1..], i - 1);
    } else {
      ScanMarker(k);
      if Unclosed(k) || i < MarkerLen(k) {
        InsideMarker(k, i);
      } else {
        assert k[MarkerLen(k)..][i - MarkerLen(k)..] == k[i..];
        NamedIsFound(k[MarkerLen(k)..], i - MarkerLen(k));
      }
    }
  }

  lemma {:induction false} FoundIsNamed(k: string) returns (i: nat)
    requires Scan(k).refs != []
    ensures NamesAt(k, i)
    decreases |k|
  {
    hide Scan, Trim, RunLen, MarkerEnd, RefAt;
    EmptyScan();
    if !(PREFIX <= k) {
      ScanChar(k);
      var j := FoundIsNamed(k[1..]);
      i := j + 1;
      assert k[1..][j..] == k[i..];
    } else {
      ScanMarker(k);
      if RefAt(k) != [] {
        i := 0;
        assert k[0..] == k;
      } else {
        var j := FoundIsNamed(k[MarkerLen(k)..]);
        i := j + MarkerLen(k);
        assert k[MarkerLen(k)..][j..] == k[i..];
      }
    }
  }

  // ----- where a marker can come about ------------------------------------------------------------------

  /** Behind kept text `a`, the kept text `y` completes a prefix that `a` ends with to a marker with
      a reference. */
  predicate Completes(a: string, y: string) {
    exists i | 0 <= i < |a| :: |a| < i + 7 && NamesAt(a + y, i)
  }

  /** Reading the message `s` with `a` kept so far: at no marker that is taken out does the text kept
      before it end in the beginning of a prefix that the text kept behind it completes to a marker
      with a reference. */
  predicate NothingForms(a: string, s: string)
    decreases |s|
  {
    s == [] ||
    if !(PREFIX <= s) then NothingForms(a + [s[0]], s[1..])
    else if Unclosed(s) then true
    else if RefAt(s) == [] then NothingForms(a + s[..MarkerLen(s)], s[MarkerLen(s)..])
    else !Completes(a, Scan(s[MarkerLen(s)..]).text) && NothingForms(a, s[MarkerLen(s)..])
  }

  /** What is kept of a message. */
  function Kept(a: string, s: string): string { a + Scan(s).text }

  lemma KeptStep(a: string, s: string)
    requires s != []
    ensures !(PREFIX <= s) ==> Kept(a, s) == Kept(a + [s[0]], s[1..])
    ensures PREFIX <= s && Unclosed(s) ==> Kept(a, s) == a + s
    ensures PREFIX <= s && !Unclosed(s) && RefAt(s) == [] ==>
      Kept(a, s) == Kept(a + s[..MarkerLen(s)], s[MarkerLen(s)..])
    ensures PREFIX <= s && !Unclosed(s) && RefAt(s) != [] ==> Kept(a, s) == Kept(a, s[MarkerLen(s)..])
  {
    hide Trim, RunLen, MarkerEnd, RefAt;
    if PREFIX <= s { ScanMarker(s); } else { ScanChar(s); }
  }

  /** A prefix begun in `a` and not completed by the message text right behind it. */
  lemma {:induction false} BegunForms(a: string, s: string, i: nat)
    requires i < |a| < i + 7 && NamesAt(Kept(a, s), i)
    requires !(PREFIX[|a| - i..] <= s)
    ensures !NothingForms(a, s)
    decreases |s|
  {
    hide Scan, Trim, RunLen, MarkerEnd, RefAt, Kept;
    EmptyKept(a);
    var k := Kept(a, s);
    KeptStarts(a, s);
    assert k[i..][|a| - i] == PREFIX[|a| - i];
    assert k[|a|] == PREFIX[|a| - i];
    if s != [] && (PREFIX <= s ==> Unclosed(s) || RefAt(s) == []) { NextKept(a, s); }
    if s != [] {
      KeptStep(a, s);
      if !(PREFIX <= s) {
        ShorterTail(s, |a| - i);
        BegunForms(a + [s[0]], s[1..], i);
      } else if !Unclosed(s) && RefAt(s) != [] {
        KeptIs(a, s[MarkerLen(s)..]);
        assert Completes(a, Scan(s[MarkerLen(s)..]).text);
      }
    }
  }

  /** Where no marker is taken out the next character is kept. */
  lemma NextKept(a: string, s: string)
    requires s != []
    requires PREFIX <= s ==> Unclosed(s) || RefAt(s) == []
    ensures |a| < |Kept(a, s)| && Kept(a, s)[|a|] == s[0]
  {
    hide Scan, Trim, RunLen, MarkerEnd, RefAt, Kept;
    KeptStep(a, s);
    if !(PREFIX <= s) {
      KeptStarts(a + [s[0]], s[1..]);
    } else if !Unclosed(s) {
      KeptStarts(a + s[..MarkerLen(s)], s[MarkerLen(s)..]);
    }
  }

  lemma KeptIs(a: string, s: string)
    ensures Kept(a, s) == a + Scan(s).text
  {
  }

  lemma EmptyKept(a: string)
    ensures Kept(a, []) == a
  {
  }

  lemma KeptStarts(a: string, s: string)
    ensures a <= Kept(a, s)
  {
  }

  lemma ShorterTail(s: string, p: nat)
    requires 0 < p < 7 && s != [] && s[0] == PREFIX[p] && !(PREFIX[p..] <= s)
    ensures p + 1 < 7 && !(PREFIX[p + 1..] <= s[1..])
  {
    assert PREFIX[p..] == [PREFIX[p]] + PREFIX[p + 1..];
    assert s == [s[0]] + s[1..];
  }

  /** A marker in what is kept, from `a` on, forms at some marker that is taken out. */
  lemma {:induction false} NamedForms(a: string, s: string, i: nat)
    requires |a| <= i && NamesAt(Kept(a, s), i)
    ensures !NothingForms(a, s)
    decreases |s|
  {
    hide Scan, Trim, RunLen, MarkerEnd, RefAt, Kept;
    EmptyKept(a);
    var k := Kept(a, s);
    NamedIsClosed(k, i);
    if s != [] {
      KeptStep(a, s);
      if !(PREFIX <= s) {
        if i > |a| {
          NamedForms(a + [s[0]], s[1..], i);
        } else {
          KeptStarts(a + [s[0]], s[1..]);
          assert k[|a|] == s[0];
          assert PREFIX == ['['] + PREFIX[1..] && s == [s[0]] + s[1..];
          BegunForms(a + [s[0]], s[1..], i);
        }
      } else if Unclosed(s) {
        NamedBehind(a, s, i);
      } else if RefAt(s) == [] {
        var n := MarkerLen(s);
        if i >= |a| + n {
          NamedForms(a + s[..n], s[n..], i);
        } else {
          KeptIs(a + s[..n], s[n..]);
          assert (a + s[..n]) + Scan(s[n..]).text == a + (s[..n] + Scan(s[n..]).text);
          BlankStays(s, Scan(s[n..]).text);
          NamedBehind(a, s[..n] + Scan(s[n..]).text, i);
        }
      } else {
        NamedForms(a, s[MarkerLen(s)..], i);
      }
    }
  }

  /** A blank marker stays blank whatever follows it. */
  lemma BlankStays(s: string, y: string)
    requires PREFIX <= s && !Unclosed(s) && RefAt(s) == []
    ensures var t := s[..MarkerLen(s)] + y;
      PREFIX <= t && !Unclosed(t) && MarkerLen(t) == MarkerLen(s) && RefAt(t) == []
  {
    hide RunLen, Trim;
    var n := MarkerLen(s);
    var m := s[..n];
    CutAt(s, n);
    MarkerAlone(s);
    ClosedStays(m, y);
  }

  lemma MarkerAlone(s: string)
    requires PREFIX <= s && !Unclosed(s)
    ensures var m := s[..MarkerLen(s)];
      PREFIX <= m && !Unclosed(m) && MarkerLen(m) == MarkerLen(s) && RefAt(m) == RefAt(s)
  {
    hide Trim;
    var n := MarkerLen(s);
    var m := s[..n];
    assert m[7..] == s[7..n];
    assert forall i | 0 <= i < n - 8 :: m[7..][i] == s[7..][i];
    RunLenIs(m[7..], n - 8);
    assert m[7..n - 1] == s[7..n - 1];
  }

  /** Nothing is named inside an unclosed or blank marker. */
  lemma NamedBehind(a: string, t: string, i: nat)
    requires PREFIX <= t && (Unclosed(t) || RefAt(t) == []) && NamesAt(a + t, i) && |a| <= i
    ensures !Unclosed(t) && i >= |a| + MarkerLen(t)
  {
    hide RunLen, Trim, MarkerEnd, RefAt, MarkerLen;
    assert (a + t)[i..] == t[i - |a|..];
    if Unclosed(t) || i - |a| < MarkerLen(t) { InsideMarker(t, i - |a|); }
  }

  lemma {:induction false} FormsIsNamed(a: string, s: string) returns (i: nat)
    requires !NothingForms(a, s)
    ensures NamesAt(Kept(a, s), i)
    decreases |s|
  {
    hide Scan, Trim, RunLen, MarkerEnd, RefAt, Kept;
    KeptStep(a, s);
    if !(PREFIX <= s) {
      i := FormsIsNamed(a + [s[0]], s[1..]);
    } else {
      var n := MarkerLen(s);
      if RefAt(s) == [] {
        i := FormsIsNamed(a + s[..n], s[n..]);
      } else if Completes(a, Scan(s[n..]).text) {
        KeptIs(a, s[n..]);
        i :| 0 <= i < |a| && |a| < i + 7 && NamesAt(a + Scan(s[n..]).text, i);
      } else {
        i := FormsIsNamed(a, s[n..]);
      }
    }
  }

  /** What is left of a message names no image exactly when none forms. */
  lemma NoImageIsLeftIff(s: string)
    ensures Scan(Scan(s).text).refs == [] <==> NothingForms([], s)
  {
    hide Scan, NothingForms;
    KeptIs([], s);
    assert [] + Scan(s).text == Scan(s).text;
    if NothingForms([], s) {
      if Scan(Scan(s).text).refs != [] {
        var i := FoundIsNamed(Scan(s).text);
        NamedForms([], s, i);
      }
    } else {
      var i := FormsIsNamed([], s);
      NamedIsFound(Scan(s).text, i);
    }
  }

  // ----- messages in which nothing can form ---------------------------------------------------------------

  /** The text ends in a proper beginning of the marker prefix. */
  predicate EndsInPrefix(a: string) {
    exists i | 0 <= i < |a| :: |a| < i + 7 && a[i..] <= PREFIX
  }

  /** At no marker that is taken out does the text kept before it end in the beginning of a prefix. */
  predicate MarkersStandApart(a: string, s: string)
    decreases |s|
  {
    s == [] ||
    if !(PREFIX <= s) then MarkersStandApart(a + [s[0]], s[1..])
    else if Unclosed(s) then true
    else if RefAt(s) == [] then MarkersStandApart(a + s[..MarkerLen(s)], s[MarkerLen(s)..])
    else !EndsInPrefix(a) && MarkersStandApart(a, s[MarkerLen(s)..])
  }

  lemma {:induction false} ApartFormsNothing(a: string, s: string)
    requires MarkersStandApart(a, s)
    ensures NothingForms(a, s)
    decreases |s|
  {
    hide Scan, Trim, RunLen, MarkerEnd, RefAt, EndsInPrefix, Completes;
    if s != [] {
      if !(PREFIX <= s) {
        ApartFormsNothing(a + [s[0]], s[1..]);
      } else if !Unclosed(s) {
        if RefAt(s) == [] {
          ApartFormsNothing(a + s[..MarkerLen(s)], s[MarkerLen(s)..]);
        } else {
          CompletesPrefix(a, Scan(s[MarkerLen(s)..]).text);
          ApartFormsNothing(a, s[MarkerLen(s)..]);
        }
      }
    }
  }

  lemma CompletesPrefix(a: string, y: string)
    ensures Completes(a, y) ==> EndsInPrefix(a)
  {
    hide RefAt, MarkerEnd;
    if Completes(a, y) {
      var i :| 0 <= i < |a| && |a| < i + 7 && NamesAt(a + y, i);
      assert (a + y)[i..] == a[i..] + y;
      assert a[i..] == PREFIX[..|a| - i];
    }
  }
}
