/** Lengths and positions in bytes of the UTF-8 encoding, and src/util.rs `floor_utf8_char_boundary`. */
module Utf8 {

  function CharLen(c: char): nat {
    if c < '\U{80}' then 1 else if c < '\U{800}' then 2 else if c < '\U{10000}' then 3 else 4
  }

  function PowerOfTwo(n: nat): nat { if n == 0 then 1 else 2 * PowerOfTwo(n - 1) }

  /** Code points that fit into `n` bytes: the first byte gives 7 bits when it is alone and `7 - n` with
      others, of which each gives 6. */
  function Capacity(n: nat): nat
    requires 1 <= n <= 4
  {
    PowerOfTwo(if n == 1 then 7 else 7 - n + 6 * (n - 1))
  }

  lemma Capacities()
    ensures Capacity(1) == 0x80 && Capacity(2) == 0x800 && Capacity(3) == 0x1_0000 && Capacity(4) == 0x20_0000
  {
    assert PowerOfTwo(7) == 0x80;
    assert PowerOfTwo(11) == 16 * PowerOfTwo(7);
    assert PowerOfTwo(16) == 32 * PowerOfTwo(11);
    assert PowerOfTwo(21) == 32 * PowerOfTwo(16);
  }

  /** A character takes the least number of bytes its code point fits into. */
  lemma CharLenIsLeast(c: char)
    ensures 1 <= CharLen(c) <= 4 && (c as int) < Capacity(CharLen(c))
    ensures forall n | 1 <= n < CharLen(c) :: c as int >= Capacity(n)
  {
    Capacities();
  }

  /** `str::len`. */
  function Utf8Len(s: string): nat {
    if s == [] then 0 else CharLen(s[0]) + Utf8Len(s[1..])
  }

  /** `is_char_boundary`: some number of whole characters take `i` bytes. */
  predicate IsBoundary(s: string, i: nat) {
    i == 0 || (s != [] && CharLen(s[0]) <= i && IsBoundary(s[1..], i - CharLen(s[0])))
  }

  /** `floor_utf8_char_boundary`: the greatest boundary at or below the index, never four bytes away. */
  method FloorBoundary(s: string, index: nat) returns (r: nat)
    ensures IsBoundary(s, r) && r <= Utf8Len(s)
    ensures index >= Utf8Len(s) ==> r == Utf8Len(s)
    ensures index < Utf8Len(s) ==> index < r + 4 && r <= index && forall k | r < k <= index :: !IsBoundary(s, k)
  {
    if index >= Utf8Len(s) {
      EndIsBoundary(s);
      return Utf8Len(s);
    }
    r := index;
    while r > 0 && !IsBoundary(s, r)
      invariant 0 <= r <= index && forall k | r < k <= index :: !IsBoundary(s, k)
    {
      r := r - 1;
    }
    BoundaryIsNear(s, index);
  }

  lemma {:induction false} EndIsBoundary(s: string)
    ensures IsBoundary(s, Utf8Len(s))
  {
    if s != [] { EndIsBoundary(s[1..]); }
  }

  lemma {:induction false} BoundaryIsNear(s: string, i: nat)
    requires i <= Utf8Len(s)
    ensures exists k: nat :: k <= i < k + 4 && IsBoundary(s, k)
  {
    if i < 4 {
      assert IsBoundary(s, 0);
    } else {
      var n := CharLen(s[0]);
      BoundaryIsNear(s[1..], i - n);
      var k: nat :| k <= i - n < k + 4 && IsBoundary(s[1..], k);
      assert IsBoundary(s, k + n);
    }
  }

  /** Boundaries are exactly the byte lengths of the prefixes. */
  lemma {:induction false} BoundaryIffPrefix(s: string, i: nat)
    ensures IsBoundary(s, i) <==> exists n: nat :: n <= |s| && Utf8Len(s[..n]) == i
    decreases |s|
  {
    assert s[..0] == [];
    if IsBoundary(s, i) && i != 0 {
      BoundaryIffPrefix(s[1..], i - CharLen(s[0]));
      var n: nat :| n <= |s| - 1 && Utf8Len(s[1..][..n]) == i - CharLen(s[0]);
      assert s[..n + 1][1..] == s[1..][..n];
      assert Utf8Len(s[..n + 1]) == i;
    }
    if n: nat :| n <= |s| && Utf8Len(s[..n]) == i && i != 0 {
      assert s[..n][1..] == s[1..][..n - 1];
      BoundaryIffPrefix(s[1..], i - CharLen(s[0]));
    }
  }
}
