/** Strings as the Rust and Python sources use them: sequences of Unicode scalar values,
    with the standard-library operations the modelled code calls. */
module Text {

  datatype Option<+T> = None | Some(value: T)

  /** Unicode White_Space: `str::trim` and the regex class `\s`. */
  predicate IsWhitespace(c: char) {
    || '\U{9}' <= c <= '\U{D}' || c == ' ' || c == '\U{85}' || c == '\U{A0}' || c == '\U{1680}'
    || '\U{2000}' <= c <= '\U{200A}' || c == '\U{2028}' || c == '\U{2029}' || c == '\U{202F}'
    || c == '\U{205F}' || c == '\U{3000}'
  }

  /** `str::trim_start_matches` with a character class. */
  function DropLeading(s: string, p: char -> bool): string {
    if s != [] && p(s[0]) then DropLeading(s[1..], p) else s
  }

  /** `str::trim_end_matches` with a character class. */
  function DropTrailing(s: string, p: char -> bool): (r: string)
    ensures |r| <= |s| && r == s[..|r|]
    ensures r != [] ==> !p(r[|r| - 1])
    ensures forall i | |r| <= i < |s| :: p(s[i])
  {
    if s != [] && p(s[|s| - 1]) then DropTrailing(s[..|s| - 1], p) else s
  }

  function Trim(s: string): string {
    DropTrailing(DropLeading(s, IsWhitespace), IsWhitespace)
  }

  lemma {:induction false} LeadingGone(s: string)
    ensures var d := DropLeading(s, IsWhitespace); d == [] || !IsWhitespace(d[0])
  {
    if s != [] && IsWhitespace(s[0]) { LeadingGone(s[1..]); }
  }

  lemma TrimTwice(s: string)
    ensures Trim(Trim(s)) == Trim(s)
  {
    var d := DropLeading(s, IsWhitespace);
    var t := Trim(s);
    LeadingGone(s);
    if t != [] {
      assert t[0] == d[0];
      assert DropLeading(t, IsWhitespace) == t;
    }
  }

  /** `str::trim_start_matches` with a pattern string: every leading repetition goes. */
  function DropPrefixes(s: string, p: string): string
    requires p != []
    decreases |s|
  {
    if p <= s then DropPrefixes(s[|p|..], p) else s
  }

  /** `str::replace`: leftmost, non-overlapping. */
  function Replace(s: string, from: string, to: string): string
    requires from != []
    decreases |s|
  {
    if s == [] then []
    else if from <= s then to + Replace(s[|from|..], from, to)
    else [s[0]] + Replace(s[1..], from, to)
  }

  /** Text that cannot start a match is copied by `replace`. */
  lemma {:induction false} ReplaceSkips(a: string, b: string, from: string, to: string)
    requires from != [] && from[0] !in a
    ensures Replace(a + b, from, to) == a + Replace(b, from, to)
  {
    if a == [] {
      assert a + b == b;
    } else {
      assert (a + b)[1..] == a[1..] + b;
      ReplaceSkips(a[1..], b, from, to);
    }
  }

  /** Length of the longest prefix of characters in class `p`: a greedy `[...]*`. */
  function RunLen(s: string, p: char -> bool): (n: nat)
    ensures n <= |s|
    ensures forall i | 0 <= i < n :: p(s[i])
    ensures n < |s| ==> !p(s[n])
  {
    if s != [] && p(s[0]) then 1 + RunLen(s[1..], p) else 0
  }

  /** `str::split` on one character. */
  function Split(s: string, sep: char): (parts: seq<string>)
    ensures |parts| > 0
  {
    if s == [] then [[]]
    else if s[0] == sep then [[]] + Split(s[1..], sep)
    else var rest := Split(s[1..], sep); [[s[0]] + rest[0]] + rest[1..]
  }

  predicate Contains(s: string, p: string) {
    p <= s || (s != [] && Contains(s[1..], p))
  }

  function LowerChar(c: char): char {
    if 'A' <= c <= 'Z' then (c as int + 32) as char else c
  }

  /** `to_ascii_lowercase`. */
  function Lower(s: string): string {
    if s == [] then [] else [LowerChar(s[0])] + Lower(s[1..])
  }

  function DigitChar(d: nat): char
    requires d < 10
  {
    ('0' as int + d) as char
  }

  predicate IsDigit(c: char) { '0' <= c <= '9' }

  /** `format!("{n}")` of an unsigned integer. */
  function Decimal(n: nat): (s: string)
    ensures |s| > 0 && forall c | c in s :: IsDigit(c)
  {
    if n < 10 then [DigitChar(n)] else Decimal(n / 10) + [DigitChar(n % 10)]
  }

  function DigitsValue(s: string): nat
    requires forall c | c in s :: IsDigit(c)
  {
    if s == [] then 0
    else
      assert IsDigit(s[|s| - 1]);
      10 * DigitsValue(s[..|s| - 1]) + (s[|s| - 1] as int - '0' as int)
  }

  lemma {:induction false} DecimalRoundTrip(n: nat)
    ensures DigitsValue(Decimal(n)) == n
  {
    if n >= 10 {
      DecimalRoundTrip(n / 10);
      assert Decimal(n)[..|Decimal(n)| - 1] == Decimal(n / 10);
    }
  }

  lemma DecimalInjective(m: nat, n: nat)
    requires Decimal(m) == Decimal(n)
    ensures m == n
  {
    DecimalRoundTrip(m);
    DecimalRoundTrip(n);
  }

  lemma CutAt<T>(s: seq<T>, n: nat)
    requires n <= |s|
    ensures s == s[..n] + s[n..]
  {
  }

  lemma {:induction false} SubsetSize<T>(a: set<T>, b: set<T>)
    requires a <= b
    ensures |a| <= |b|
  {
    if a != {} {
      var x :| x in a;
      SubsetSize(a - {x}, b - {x});
    }
  }

  lemma Assoc<T>(a: seq<T>, b: seq<T>, c: seq<T>)
    ensures a + b + c == a + (b + c)
  {
  }

  /** `str::find` of a pattern string. */
  function Find(s: string, p: string): (at: Option<nat>)
    ensures at.Some? ==> at.value <= |s| && p <= s[at.value..]
    decreases |s|
  {
    if p <= s then Some(0)
    else if s == [] then None
    else match Find(s[1..], p)
      case Some(k) => Some(k + 1)
      case None => None
  }

  /** `slice::join`. */
  function Join(parts: seq<string>, sep: string): string {
    if parts == [] then []
    else if |parts| == 1 then parts[0]
    else parts[0] + sep + Join(parts[1..], sep)
  }
}
