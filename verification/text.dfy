/**
 * The three string operations the search filter relies on: `trim`,
 * `toLowerCase` and `includes`.
 */
module Text {

  /**
   * The characters `String.prototype.trim` removes: the ECMAScript
   * WhiteSpace and LineTerminator code points.
   */
  predicate IsSpace(c: char) {
    || c == '\t' || c == '\n' || c == '\U{B}' || c == '\U{C}' || c == '\r' || c == ' '
    || c == '\U{A0}' || c == '\U{1680}' || ('\U{2000}' <= c <= '\U{200A}')
    || c == '\U{2028}' || c == '\U{2029}' || c == '\U{202F}' || c == '\U{205F}'
    || c == '\U{3000}' || c == '\U{FEFF}'
  }

  /** Drops leading white space: the result is the suffix that starts at the first other character. */
  function TrimStart(s: string): (r: string)
    ensures |r| <= |s| && r == s[|s| - |r|..]
    ensures forall i :: 0 <= i < |s| - |r| ==> IsSpace(s[i])
    ensures r == [] || !IsSpace(r[0])
  {
    if s != [] && IsSpace(s[0]) then TrimStart(s[1..]) else s
  }

  /** Drops trailing white space: the result is the prefix that ends at the last other character. */
  function TrimEnd(s: string): (r: string)
    ensures |r| <= |s| && r == s[..|r|]
    ensures forall i :: |r| <= i < |s| ==> IsSpace(s[i])
    ensures r == [] || !IsSpace(r[|r| - 1])
  {
    if s != [] && IsSpace(s[|s| - 1]) then TrimEnd(s[..|s| - 1]) else s
  }

  /**
   * White space removed from both ends: what is left is a slice of the
   * input, everything outside it is white space, it is empty exactly when
   * the input is all white space, and otherwise it starts and ends with a
   * character that is not white space.
   */
  function Trim(s: string): (r: string)
    ensures var k := |s| - |TrimStart(s)|; k + |r| <= |s| && r == s[k..k + |r|]
    ensures var k := |s| - |TrimStart(s)|; forall i :: 0 <= i < |s| && !(k <= i < k + |r|) ==> IsSpace(s[i])
    ensures r == [] <==> forall i :: 0 <= i < |s| ==> IsSpace(s[i])
    ensures r == [] || (!IsSpace(r[0]) && !IsSpace(r[|r| - 1]))
  {
    TrimEnd(TrimStart(s))
  }

  /** ASCII case mapping of one character, as `toLowerCase` does for ASCII. */
  function LowerChar(c: char): char {
    if 'A' <= c <= 'Z' then (c as int - 'A' as int + 'a' as int) as char else c
  }

  /** Lower-casing, restricted to the ASCII letters. */
  function Lower(s: string): (r: string)
    ensures |r| == |s|
    ensures forall i :: 0 <= i < |r| ==> !('A' <= r[i] <= 'Z')
    ensures forall i :: 0 <= i < |s| && !('A' <= s[i] <= 'Z') ==> r[i] == s[i]
    ensures forall i :: 0 <= i < |s| && 'A' <= s[i] <= 'Z' ==> r[i] as int == s[i] as int + 32
  {
    seq(|s|, i requires 0 <= i < |s| => LowerChar(s[i]))
  }

  /** Text without ASCII capitals, such as Hangul, is left as it is. */
  lemma LowerKeepsUncased(s: string)
    requires forall i :: 0 <= i < |s| ==> !('A' <= s[i] <= 'Z')
    ensures Lower(s) == s
  {
  }

  /** Lower-casing twice is lower-casing once. */
  lemma LowerIdempotent(s: string)
    ensures Lower(Lower(s)) == Lower(s)
  {
  }

  /** Substring search as `includes` does it: `n` is a prefix of `h` or of one of its suffixes. */
  predicate Includes(h: string, n: string)
    ensures Includes(h, n) ==> |n| <= |h|
    ensures n == [] ==> Includes(h, n)
    decreases |h|
  {
    n <= h || (h != [] && Includes(h[1..], n))
  }

  /** A text lacking the first character of `n` does not include `n`. */
  lemma {:induction false} MissingFirstChar(h: string, n: string)
    requires n != [] && n[0] !in h
    ensures !Includes(h, n)
    decreases |h|
  {
    if h != [] {
      assert h[0] in h;
      assert forall c :: c in h[1..] ==> c in h;
      MissingFirstChar(h[1..], n);
    }
  }

  /** `n` sits in `h` starting at position `i`. */
  predicate OccursAt(h: string, n: string, i: int) {
    0 <= i && i + |n| <= |h| && h[i..i + |n|] == n
  }

  /** Reference definition of a substring: some position of `h` holds `n`. */
  ghost predicate Occurs(h: string, n: string) {
    exists i :: OccursAt(h, n, i)
  }

  /** `Includes` is exactly the substring relation. */
  lemma {:induction false} IncludesIffOccurs(h: string, n: string)
    ensures Includes(h, n) <==> Occurs(h, n)
    decreases |h|
  {
    if Occurs(h, n) {
      var i :| OccursAt(h, n, i);
      if i == 0 {
        assert h[..|n|] == n;
      } else {
        assert h[1..][i - 1..i - 1 + |n|] == h[i..i + |n|];
        assert OccursAt(h[1..], n, i - 1);
        IncludesIffOccurs(h[1..], n);
      }
    }
    if Includes(h, n) {
      if n <= h {
        assert OccursAt(h, n, 0);
      } else {
        IncludesIffOccurs(h[1..], n);
        var i :| OccursAt(h[1..], n, i);
        assert h[i + 1..i + 1 + |n|] == h[1..][i..i + |n|];
        assert OccursAt(h, n, i + 1);
      }
    }
  }
}
