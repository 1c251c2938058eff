/** The string operations the item search relies on: `toLowerCase`,
    `String.contains` and `StringUtils.isBlank`. */
module Text {

  /** `Character.toLowerCase` on the Latin capital letters; every other
      character is its own lower case in this model. */
  function LowerChar(c: char): char {
    if 'A' <= c <= 'Z' then (c as int + 32) as char else c
  }

  /** `String.toLowerCase`, one character at a time. */
  function Lower(s: string): (r: string)
    ensures |r| == |s|
    ensures forall i :: 0 <= i < |s| ==> r[i] == LowerChar(s[i])
  {
    if s == [] then [] else [LowerChar(s[0])] + Lower(s[1..])
  }

  /** Lowering twice is lowering once, so a query that is already lower case
      is unchanged by the search's own `toLowerCase`. */
  lemma LowerIdempotent(s: string)
    ensures Lower(Lower(s)) == Lower(s)
  {
  }

  /** `t` occurs in `s` at offset `i`. */
  predicate OccursAt(s: string, t: string, i: int) {
    0 <= i <= |s| - |t| && s[i..i + |t|] == t
  }

  /** `s.contains(t)`, as the scan it performs: `t` starts at the first
      position of `s`, or is contained in the rest of it. Its result is the
      usual substring relation: `t` occurs at some offset of `s`. */
  predicate Contains(s: string, t: string): (r: bool)
    ensures r <==> exists i :: OccursAt(s, t, i)
    decreases |s|
  {
    if |t| > |s| then false
    else if s[..|t|] == t then
      assert OccursAt(s, t, 0);
      true
    else
      OccursLater(s, t);
      Contains(s[1..], t)
  }

  /** When `t` does not start `s`, it occurs in `s` exactly when it occurs
      in the rest of `s`, one offset earlier. */
  lemma OccursLater(s: string, t: string)
    requires |t| <= |s| && s[..|t|] != t
    ensures (exists i :: OccursAt(s, t, i)) <==> (exists i :: OccursAt(s[1..], t, i))
  {
    if exists i :: OccursAt(s[1..], t, i) {
      var i :| OccursAt(s[1..], t, i);
      assert s[i + 1..i + 1 + |t|] == s[1..][i..i + |t|];
      assert OccursAt(s, t, i + 1);
    }
    if exists i :: OccursAt(s, t, i) {
      var i :| OccursAt(s, t, i);
      assert i != 0;
      var u, v := s[1..][i - 1..i - 1 + |t|], s[i..i + |t|];
      assert forall k :: 0 <= k < |t| ==> u[k] == v[k];
      assert OccursAt(s[1..], t, i - 1);
    }
  }

  /** `Character.isWhitespace` (Java 11 and later): the space, line and
      paragraph separators of Unicode except the no-break spaces U+00A0,
      U+2007 and U+202F, and the controls tab, line feed, vertical tab, form
      feed, carriage return and U+001C to U+001F. */
  predicate IsWhitespace(c: char): (r: bool)
    ensures c == ' ' || c == '\t' || c == '\n' || c == '\r' ==> r
    ensures c == '\U{A0}' || c == '\U{2007}' || c == '\U{202F}' ==> !r
    ensures '0' <= c <= '9' || 'a' <= c <= 'z' || 'A' <= c <= 'Z' ==> !r
  {
    || '\t' <= c <= '\r'
    || '\U{1C}' <= c <= ' '
    || c == '\U{1680}'
    || '\U{2000}' <= c <= '\U{2006}'
    || '\U{2008}' <= c <= '\U{200A}'
    || c == '\U{2028}' || c == '\U{2029}'
    || c == '\U{205F}'
    || c == '\U{3000}'
  }

  /** `StringUtils.isBlank` (Commons Lang 2), as the loop it runs: an empty
      string is blank, and a string is blank while its characters are
      whitespace. Its result: every character is whitespace. */
  predicate IsBlank(s: string): (r: bool)
    ensures r <==> forall i :: 0 <= i < |s| ==> IsWhitespace(s[i])
  {
    s == [] || (IsWhitespace(s[0]) && IsBlank(s[1..]))
  }

  /** The ideographic space is blank, as `isBlank("\u3000")` is; a
      no-break space is not. */
  lemma BlankExamples()
    ensures IsBlank("\U{3000} \t")
    ensures !IsBlank("\U{A0}")
    ensures !IsBlank(" a")
  {
    assert !IsWhitespace(" a"[1]);
  }
}
