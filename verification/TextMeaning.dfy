/** What the string operations of `Text` compute, told without their recursion. */
module TextMeaning {
  import opened Text

  /** `t` stands in `s` at `i`, with blanks only around it. */
  predicate StandsIn(s: string, t: string, i: nat) {
    && i + |t| <= |s| && s[i..i + |t|] == t
    && (forall k | 0 <= k < i :: IsWhitespace(s[k]))
    && (forall k | i + |t| <= k < |s| :: IsWhitespace(s[k]))
  }

  predicate HasBareEnds(t: string) { t != [] ==> !IsWhitespace(t[0]) && !IsWhitespace(t[|t| - 1]) }

  /** `t` is `s` without the blanks at both ends. */
  predicate IsTrimmed(s: string, t: string) {
    HasBareEnds(t) && exists i | 0 <= i <= |s| :: StandsIn(s, t, i)
  }

  lemma {:induction false} LeadingCut(s: string) returns (i: nat)
    ensures i <= |s| && DropLeading(s, IsWhitespace) == s[i..]
    ensures forall k | 0 <= k < i :: IsWhitespace(s[k])
    ensures i < |s| ==> !IsWhitespace(s[i])
  {
    if s != [] && IsWhitespace(s[0]) {
      var j := LeadingCut(s[1..]);
      i := j + 1;
      assert s[1..][j..] == s[i..];
      assert forall k | 1 <= k < i :: s[k] == s[1..][k - 1];
    } else {
      i := 0;
    }
  }

  lemma TrimIsTrimmed(s: string)
    ensures IsTrimmed(s, Trim(s))
  {
    hide DropLeading, DropTrailing, IsWhitespace;
    var i := LeadingCut(s);
    TrailingStands(s, i, DropTrailing(s[i..], IsWhitespace));
  }

  lemma TrailingStands(s: string, i: nat, t: string)
    requires i <= |s| && (forall k | 0 <= k < i :: IsWhitespace(s[k])) && (i < |s| ==> !IsWhitespace(s[i]))
    requires var d := s[i..];
      t <= d && (t != [] ==> !IsWhitespace(t[|t| - 1])) && forall k | |t| <= k < |d| :: IsWhitespace(d[k])
    ensures IsTrimmed(s, t)
  {
    hide IsWhitespace;
    var d := s[i..];
    assert forall k | i <= k < |s| :: s[k] == d[k - i];
    assert StandsIn(s, t, i);
  }

  lemma TrimmedOnce(s: string, t: string, u: string)
    requires IsTrimmed(s, t) && IsTrimmed(s, u)
    ensures t == u
  {
    hide IsWhitespace;
    var i :| 0 <= i <= |s| && StandsIn(s, t, i);
    var j :| 0 <= j <= |s| && StandsIn(s, u, j);
    if t != [] { StandsAround(s, u, j, t, i); }
    if u != [] { StandsAround(s, t, i, u, j); }
  }

  lemma StandsAround(s: string, u: string, j: nat, t: string, i: nat)
    requires StandsIn(s, u, j) && StandsIn(s, t, i) && t != [] && HasBareEnds(t)
    ensures u != [] && j <= i && i + |t| <= j + |u|
  {
    hide IsWhitespace;
    assert s[i] == t[0] && s[i + |t| - 1] == t[|t| - 1];
  }

  /** `str::trim` cuts the blanks at both ends and nothing else. */
  lemma TrimIs(s: string, t: string)
    ensures Trim(s) == t <==> IsTrimmed(s, t)
  {
    TrimIsTrimmed(s);
    if IsTrimmed(s, t) { TrimmedOnce(s, t, Trim(s)); }
  }

  /** A text is contained exactly when it stands somewhere. */
  lemma {:induction false} ContainsIs(s: string, p: string)
    ensures Contains(s, p) <==> exists i | 0 <= i <= |s| :: p <= s[i..]
  {
    if p <= s {
      assert s[0..] == s;
    } else if s != [] {
      ContainsIs(s[1..], p);
      assert forall i | 0 < i <= |s| :: s[1..][i - 1..] == s[i..];
      if Contains(s[1..], p) {
        var i :| 0 <= i <= |s[1..]| && p <= s[1..][i..];
        assert s[1..][i..] == s[i + 1..];
      }
      if i :| 0 <= i <= |s| && p <= s[i..] {
        assert i > 0 by { assert s[0..] == s; }
        assert s[1..][i - 1..] == s[i..];
      }
    }
  }

  /** Splitting at a character and joining with it are inverse. */
  lemma {:induction false} SplitIs(s: string, sep: char)
    ensures Join(Split(s, sep), [sep]) == s
    ensures forall p | p in Split(s, sep) :: sep !in p
  {
    if s != [] {
      SplitIs(s[1..], sep);
      var rest := Split(s[1..], sep);
      if s[0] == sep {
        assert ([[]] + rest)[1..] == rest;
        assert [] + [sep] + Join(rest, [sep]) == [sep] + s[1..] == s;
      } else {
        var parts := [[s[0]] + rest[0]] + rest[1..];
        assert rest == [rest[0]] + rest[1..];
        assert parts[1..] == rest[1..];
        assert |rest| > 1 ==>
          [s[0]] + rest[0] + [sep] + Join(rest[1..], [sep]) == [s[0]] + (rest[0] + [sep] + Join(rest[1..], [sep]));
        assert Join(parts, [sep]) == [s[0]] + Join(rest, [sep]) == s;
      }
    }
  }

  /** `to_ascii_lowercase` changes the capital letters A to Z and nothing else. */
  lemma {:induction false} LowerIs(s: string)
    ensures |Lower(s)| == |s|
    ensures forall i | 0 <= i < |s| ::
      if s[i] in "ABCDEFGHIJKLMNOPQRSTUVWXYZ" then Lower(s)[i] as int == s[i] as int + 32 else Lower(s)[i] == s[i]
  {
    if s != [] {
      LowerIs(s[1..]);
      CapitalIs(s[0]);
    }
  }

  lemma CapitalIs(c: char)
    ensures c in "ABCDEFGHIJKLMNOPQRSTUVWXYZ" <==> 'A' <= c <= 'Z'
  {
    var all := "ABCDEFGHIJKLMNOPQRSTUVWXYZ";
    assert 'A' <= c <= 'Z' ==> all[c as int - 'A' as int] == c;
  }
}
