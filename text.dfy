/**
 * The string operations the pricing pipeline relies on: `str.lower`,
 * `str.strip` and the substring test `key in text`.
 */
module Text {

  /** `str.lower` on one character; only ASCII capitals change. */
  function LowerChar(c: char): char
  {
    if 'A' <= c <= 'Z' then (c as int + 32) as char else c
  }

  /**
   * `str.lower`, character by character: every ASCII capital becomes its
   * small letter, and every other character is kept where it stands.
   */
  function Lower(s: string): (r: string)
    ensures |r| == |s|
    ensures forall i :: 0 <= i < |r| ==> !('A' <= r[i] <= 'Z')
    ensures forall i :: 0 <= i < |s| && 'A' <= s[i] <= 'Z' ==> r[i] as int == s[i] as int + 32
    ensures forall i :: 0 <= i < |s| && !('A' <= s[i] <= 'Z') ==> r[i] == s[i]
  {
    seq(|s|, i requires 0 <= i < |s| => LowerChar(s[i]))
  }

  /** `s` and `t` have the same length and differ at most in the ASCII case of their letters. */
  predicate SameUpToCase(s: string, t: string)
  {
    && |s| == |t|
    && forall i :: 0 <= i < |s| ==>
         || s[i] == t[i]
         || ('A' <= s[i] <= 'Z' && t[i] as int == s[i] as int + 32)
         || ('A' <= t[i] <= 'Z' && s[i] as int == t[i] as int + 32)
  }

  /** Texts that differ only in ASCII case lower-case to the same text. */
  lemma LowerIgnoresCase(s: string, t: string)
    requires SameUpToCase(s, t)
    ensures Lower(s) == Lower(t)
  {
    assert forall i :: 0 <= i < |s| ==> Lower(s)[i] == Lower(t)[i];
  }

  /** Lower-casing twice is lower-casing once, so matching on `Lower(s)` is case-insensitive. */
  lemma LowerIdempotent(s: string)
    ensures Lower(Lower(s)) == Lower(s)
  {
  }

  /** `k` occurs in `s` starting at position `i`. */
  ghost predicate OccursAt(k: string, s: string, i: int)
  {
    0 <= i && i + |k| <= |s| && s[i..i + |k|] == k
  }

  /** `k` is a substring of `s`: the meaning of Python's `k in s` on strings. */
  ghost predicate Occurs(k: string, s: string)
  {
    exists i :: OccursAt(k, s, i)
  }

  /** An occurrence away from the front of `s` is an occurrence in `s[1..]`. */
  lemma OccursInTail(k: string, s: string)
    requires s != [] && !(k <= s)
    ensures Occurs(k, s) <==> Occurs(k, s[1..])
  {
    if Occurs(k, s) {
      var i :| OccursAt(k, s, i);
      assert i != 0;
      assert s[1..][i - 1..i - 1 + |k|] == s[i..i + |k|];
      assert OccursAt(k, s[1..], i - 1);
    }
    if Occurs(k, s[1..]) {
      var i :| OccursAt(k, s[1..], i);
      assert s[1..][i..i + |k|] == s[i + 1..i + 1 + |k|];
      assert OccursAt(k, s, i + 1);
    }
  }

  /** A non-empty `k` whose first character appears nowhere in `s` does not occur in `s`. */
  lemma FirstCharAbsent(k: string, s: string)
    requires k != [] && k[0] !in s
    ensures !Occurs(k, s)
  {
    assert forall i :: OccursAt(k, s, i) ==> s[i..i + |k|][0] == s[i];
  }

  /** Python's substring test `k in s`, as a left-to-right scan. */
  function Contains(k: string, s: string): (b: bool)
    ensures b <==> Occurs(k, s)
    decreases |s|
  {
    if k <= s then
      assert OccursAt(k, s, 0);
      true
    else if s == [] then
      false
    else
      OccursInTail(k, s);
      Contains(k, s[1..])
  }

  /** The characters for which Python's `str.isspace` holds. */
  predicate IsSpace(c: char)
  {
    || '\U{9}' <= c <= '\U{D}'
    || '\U{1C}' <= c <= '\U{20}'
    || c == '\U{85}' || c == '\U{A0}' || c == '\U{1680}'
    || '\U{2000}' <= c <= '\U{200A}'
    || c == '\U{2028}' || c == '\U{2029}' || c == '\U{202F}' || c == '\U{205F}' || c == '\U{3000}'
  }

  /** `s` without its leading whitespace. */
  function StripLeft(s: string): (r: string)
    ensures |r| <= |s| && r == s[|s| - |r|..]
    ensures forall i :: 0 <= i < |s| - |r| ==> IsSpace(s[i])
    ensures r == [] || !IsSpace(r[0])
  {
    if s != [] && IsSpace(s[0]) then
      var r := StripLeft(s[1..]);
      assert s[1..][|s| - 1 - |r|..] == s[|s| - |r|..];
      assert forall i :: 1 <= i < |s| - |r| ==> s[i] == s[1..][i - 1];
      r
    else
      s
  }

  /** `s` without its trailing whitespace. */
  function StripRight(s: string): (r: string)
    ensures |r| <= |s| && r == s[..|r|]
    ensures forall i :: |r| <= i < |s| ==> IsSpace(s[i])
    ensures r == [] || !IsSpace(r[|r| - 1])
  {
    if s != [] && IsSpace(s[|s| - 1]) then
      var r := StripRight(s[..|s| - 1]);
      assert s[..|s| - 1][..|r|] == s[..|r|];
      assert forall i :: |r| <= i < |s| - 1 ==> s[i] == s[..|s| - 1][i];
      r
    else
      s
  }

  /**
   * Python's `str.strip()` with no argument: the result is no longer than
   * `s` and neither starts nor ends with whitespace.
   */
  function Strip(s: string): (r: string)
    ensures |r| <= |s|
    ensures r == [] || (!IsSpace(r[0]) && !IsSpace(r[|r| - 1]))
  {
    var l := StripLeft(s);
    var r := StripRight(l);
    assert r == [] || r[0] == l[0];
    r
  }

  /** A text that starts with a non-space character has nothing to strip on the left. */
  lemma StripLeftKeeps(s: string)
    requires s == [] || !IsSpace(s[0])
    ensures StripLeft(s) == s
  {
  }

  /** A text that ends with a non-space character has nothing to strip on the right. */
  lemma StripRightKeeps(s: string)
    requires s == [] || !IsSpace(s[|s| - 1])
    ensures StripRight(s) == s
  {
  }

  /** Stripping twice is stripping once. */
  lemma StripIdempotent(s: string)
    ensures Strip(Strip(s)) == Strip(s)
  {
    StripLeftKeeps(Strip(s));
    StripRightKeeps(Strip(s));
  }

  /** A word without whitespace. */
  predicate SpaceFree(k: string)
  {
    forall i :: 0 <= i < |k| ==> !IsSpace(k[i])
  }

  /** Lower-casing commutes with taking a slice. */
  lemma LowerSlice(s: string, a: nat, b: nat)
    requires a <= b <= |s|
    ensures Lower(s[a..b]) == Lower(s)[a..b]
  {
  }

  /** `Strip(s)` is the window `s[a..b]`, and only whitespace lies outside it. */
  lemma StripWindow(s: string) returns (a: int, b: int)
    ensures 0 <= a <= b <= |s| && Strip(s) == s[a..b]
    ensures forall i :: 0 <= i < a ==> IsSpace(s[i])
    ensures forall i :: b <= i < |s| ==> IsSpace(s[i])
  {
    var l := StripLeft(s);
    var r := StripRight(l);
    a := |s| - |l|;
    b := a + |r|;
    PrefixOfSuffix(s, l, r, a, b);
    TailSpaces(s, l, a, b);
  }

  /** A prefix `r` of the suffix `l == s[a..]` is the slice `s[a..b]` of the same length. */
  lemma PrefixOfSuffix(s: string, l: string, r: string, a: nat, b: nat)
    requires a <= |s| && l == s[a..] && |r| <= |l| && r == l[..|r|] && b == a + |r|
    ensures b <= |s| && r == s[a..b]
  {
  }

  /** Whitespace after position `b - a` of the suffix `s[a..]` is whitespace after position `b` of `s`. */
  lemma TailSpaces(s: string, l: string, a: nat, b: nat)
    requires a <= b <= |s| && l == s[a..]
    requires forall i :: b - a <= i < |l| ==> IsSpace(l[i])
    ensures forall i :: b <= i < |s| ==> IsSpace(s[i])
  {
    forall i | b <= i < |s| ensures IsSpace(s[i]) {
      assert s[i] == l[i - a];
    }
  }

  /** An occurrence in a window of `u` is an occurrence in `u`. */
  lemma WindowOccurrence(k: string, u: string, a: nat, b: nat)
    requires a <= b <= |u| && Occurs(k, u[a..b])
    ensures Occurs(k, u)
  {
    var i :| OccursAt(k, u[a..b], i);
    var w, v := u[a..b][i..i + |k|], u[a + i..a + i + |k|];
    assert forall j :: 0 <= j < |k| ==> w[j] == v[j];
    assert OccursAt(k, u, a + i);
  }

  /** An occurrence of `u` that lies inside a window is an occurrence in that window. */
  lemma OccurrenceInWindow(k: string, u: string, a: nat, b: nat, i: int)
    requires a <= i && i + |k| <= b <= |u| && OccursAt(k, u, i)
    ensures Occurs(k, u[a..b])
  {
    var w, v := u[a..b][i - a..i - a + |k|], u[i..i + |k|];
    assert forall j :: 0 <= j < |k| ==> w[j] == v[j];
    assert OccursAt(k, u[a..b], i - a);
  }

  /**
   * Stripping whitespace from either end does not change whether a
   * non-empty, whitespace-free word occurs in the lower-cased text.
   */
  lemma {:induction false} StripKeepsOccurrence(k: string, s: string)
    requires k != [] && SpaceFree(k)
    ensures Occurs(k, Lower(Strip(s))) <==> Occurs(k, Lower(s))
  {
    var a, b := StripWindow(s);
    LowerSlice(s, a, b);
    if Occurs(k, Lower(Strip(s))) {
      WindowOccurrence(k, Lower(s), a, b);
    }
    if Occurs(k, Lower(s)) {
      var i :| OccursAt(k, Lower(s), i);
      OccurrenceAvoidsMargins(k, s, a, b, i);
      OccurrenceInWindow(k, Lower(s), a, b, i);
    }
  }

  /**
   * An occurrence of a whitespace-free word in the lower-cased text lies
   * inside any window outside which there is only whitespace.
   */
  lemma OccurrenceAvoidsMargins(k: string, s: string, a: nat, b: nat, i: int)
    requires k != [] && SpaceFree(k) && OccursAt(k, Lower(s), i)
    requires a <= b <= |s|
    requires forall j :: 0 <= j < a ==> IsSpace(s[j])
    requires forall j :: b <= j < |s| ==> IsSpace(s[j])
    ensures a <= i && i + |k| <= b
  {
    var last := i + |k| - 1;
    assert Lower(s)[i] == k[0] && Lower(s)[last] == k[|k| - 1];
    SpaceStaysSpace(s[i]);
    SpaceStaysSpace(s[last]);
  }

  /** Lower-casing neither creates nor removes whitespace. */
  lemma SpaceStaysSpace(c: char)
    ensures IsSpace(LowerChar(c)) <==> IsSpace(c)
  {
  }
}
