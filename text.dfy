/**
 * The few string primitives of JavaScript the client code relies on, over `seq<char>`:
 * `toLowerCase` (restricted to ASCII letters), the `\s` class of JavaScript regular
 * expressions, and `String.prototype.includes`.
 */
module Text {

  predicate IsUpper(c: char) { 'A' <= c <= 'Z' }

  predicate IsLowerLetter(c: char) { 'a' <= c <= 'z' }

  predicate IsDigit(c: char) { '0' <= c <= '9' }

  /** `toLowerCase` on one character: ASCII capitals map to their small letters. */
  function LowerChar(c: char): (r: char)
    ensures !IsUpper(r)
    ensures IsUpper(c) ==> IsLowerLetter(r) && r as int == c as int + 32
    ensures !IsUpper(c) ==> r == c
  {
    if IsUpper(c) then (c as int + 32) as char else c
  }

  function Lower(s: string): (r: string)
    ensures |r| == |s|
    ensures forall i :: 0 <= i < |s| ==> r[i] == LowerChar(s[i])
  {
    seq(|s|, i requires 0 <= i < |s| => LowerChar(s[i]))
  }

  lemma LowerIdempotent(s: string)
    ensures Lower(Lower(s)) == Lower(s)
  {
    assert forall i :: 0 <= i < |s| ==> LowerChar(LowerChar(s[i])) == LowerChar(s[i]);
  }

  /** The characters JavaScript's `\s` matches: ASCII blanks, no-break space, the Unicode
      space separators, line and paragraph separators and the byte-order mark. */
  predicate IsJsSpace(c: char) {
    c == '\t' || c == '\n' || c == '\U{B}' || c == '\U{C}' || c == '\r' || c == ' '
    || c == '\U{A0}' || c == '\U{1680}' || ('\U{2000}' <= c <= '\U{200A}')
    || c == '\U{2028}' || c == '\U{2029}' || c == '\U{202F}' || c == '\U{205F}'
    || c == '\U{3000}' || c == '\U{FEFF}'
  }

  /** `haystack.includes(needle)`: the needle occurs at some offset of the haystack. */
  predicate Contains(haystack: string, needle: string)
    decreases |haystack|
  {
    needle <= haystack || (haystack != [] && Contains(haystack[1..], needle))
  }

  lemma {:induction false} ContainsAt(haystack: string, needle: string, k: nat)
    requires k + |needle| <= |haystack| && haystack[k..k + |needle|] == needle
    ensures Contains(haystack, needle)
    decreases k
  {
    if k > 0 {
      assert haystack[1..][k - 1..k - 1 + |needle|] == haystack[k..k + |needle|];
      ContainsAt(haystack[1..], needle, k - 1);
    } else {
      assert needle <= haystack;
    }
  }

  lemma {:induction false} ContainsWitness(haystack: string, needle: string) returns (k: nat)
    requires Contains(haystack, needle)
    ensures k + |needle| <= |haystack| && haystack[k..k + |needle|] == needle
    decreases |haystack|
  {
    if needle <= haystack {
      k := 0;
    } else {
      var j := ContainsWitness(haystack[1..], needle);
      assert haystack[1..][j..j + |needle|] == haystack[j + 1..j + 1 + |needle|];
      k := j + 1;
    }
  }
}
