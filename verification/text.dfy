/** JavaScript string semantics the validators rely on: `.length` counts
    UTF-16 code units, and `trim()` strips the ECMAScript white-space and
    line-terminator code points from both ends. */
module Text {

  /** WhiteSpace and LineTerminator code points of ECMA-262 (sections 12.2
      and 12.3), the set `String.prototype.trim` removes. */
  predicate IsJsWhitespace(c: char) {
    || c == '\t' || c == '\n' || c == '\U{B}' || c == '\U{C}' || c == '\r'
    || c == ' ' || c == '\U{A0}' || c == '\U{1680}'
    || ('\U{2000}' <= c <= '\U{200A}')
    || c == '\U{2028}' || c == '\U{2029}' || c == '\U{202F}' || c == '\U{205F}'
    || c == '\U{3000}' || c == '\U{FEFF}'
  }

  /** Length of `s` as JavaScript reports it: code points above the Basic
      Multilingual Plane take two UTF-16 code units. */
  function Utf16Length(s: string): (n: nat)
    ensures |s| <= n <= 2 * |s|
  {
    if s == [] then 0
    else (if s[0] as int >= 0x1_0000 then 2 else 1) + Utf16Length(s[1..])
  }

  /** Lengths add up under concatenation, so the length is the sum of the
      code units of each code point. */
  lemma {:induction false} Utf16LengthAppend(s: string, t: string)
    ensures Utf16Length(s + t) == Utf16Length(s) + Utf16Length(t)
    decreases |s|
  {
    if s == [] {
      assert s + t == t;
    } else {
      assert (s + t)[0] == s[0];
      assert (s + t)[1..] == s[1..] + t;
      Utf16LengthAppend(s[1..], t);
    }
  }

  /** A code point takes two code units exactly when it lies above the
      Basic Multilingual Plane, and one otherwise. */
  lemma Utf16LengthOfCodePoint(c: char)
    ensures Utf16Length([c]) == 2 <==> c as int >= 0x1_0000
    ensures Utf16Length([c]) == 1 <==> c as int < 0x1_0000
    ensures Utf16Length("\U{1F600}") == 2
  {
    assert [c][1..] == [];
    assert "\U{1F600}"[1..] == [];
  }

  /** True when `s` holds a character that `trim()` would keep. */
  predicate HasVisibleChar(s: string) {
    exists i :: 0 <= i < |s| && !IsJsWhitespace(s[i])
  }

  /** `s` without its leading white space. */
  function TrimStart(s: string): (r: string)
    ensures |r| <= |s| && r == s[|s| - |r|..]
    ensures forall i :: 0 <= i < |s| - |r| ==> IsJsWhitespace(s[i])
    ensures r != [] ==> !IsJsWhitespace(r[0])
  {
    if s == [] || !IsJsWhitespace(s[0]) then s else TrimStart(s[1..])
  }

  /** `s` without its trailing white space. */
  function TrimEnd(s: string): (r: string)
    ensures |r| <= |s| && r == s[..|r|]
    ensures forall i :: |r| <= i < |s| ==> IsJsWhitespace(s[i])
    ensures r != [] ==> !IsJsWhitespace(r[|r| - 1])
  {
    if s == [] || !IsJsWhitespace(s[|s| - 1]) then s else TrimEnd(s[..|s| - 1])
  }

  /** `String.prototype.trim`. */
  function Trim(s: string): string {
    TrimEnd(TrimStart(s))
  }

  /** `s.trim().length > 0` holds exactly when `s` has a non-white-space
      character; in particular a string of blanks trims to nothing. */
  lemma TrimNonEmptyIff(s: string)
    ensures Trim(s) != [] <==> HasVisibleChar(s)
  {
    var t := TrimStart(s);
    var k := |s| - |t|;
    if Trim(s) != [] {
      assert !IsJsWhitespace(t[0]);
      assert s[k] == t[0];
    }
  }
}
