/** Properties of .NET strings that the credential service relies on:
    the length .NET reports, what .NET calls white space, and substring search.
    A .NET string is modelled as a sequence of Unicode scalar values. */
module Text {

  /** True for a character that .NET stores in one UTF-16 code unit. */
  predicate InBmp(c: char) {
    c as int < 0x1_0000
  }

  /** String.Length in .NET: the number of UTF-16 code units, so a character
      outside the Basic Multilingual Plane counts twice. */
  function Utf16Length(s: string): (n: nat)
    ensures |s| <= n <= 2 * |s|
    ensures n == |s| <==> forall i :: 0 <= i < |s| ==> InBmp(s[i])
  {
    if s == [] then 0
    else
      var init := s[..|s| - 1];
      assert forall i :: 0 <= i < |init| ==> init[i] == s[i];
      Utf16Length(init) + (if InBmp(s[|s| - 1]) then 1 else 2)
  }

  /** Appending one character adds one or two code units. */
  lemma Utf16LengthSnoc(s: string, c: char)
    ensures Utf16Length(s + [c]) == Utf16Length(s) + (if InBmp(c) then 1 else 2)
  {
    assert (s + [c])[..|s|] == s;
  }

  /** char.IsWhiteSpace: the separators of Unicode categories Zs, Zl and Zp,
      together with U+0009 to U+000D and U+0085. */
  predicate IsWhiteSpace(c: char)
    ensures IsWhiteSpace(c) ==> InBmp(c)
    ensures c == ' ' || c == '\t' || c == '\n' || c == '\r' ==> IsWhiteSpace(c)
  {
    || ('\t' <= c <= '\r')
    || c == ' ' || c == '\U{85}' || c == '\U{A0}' || c == '\U{1680}'
    || ('\U{2000}' <= c <= '\U{200A}')
    || c == '\U{2028}' || c == '\U{2029}' || c == '\U{202F}' || c == '\U{205F}'
    || c == '\U{3000}'
  }

  /** string.IsNullOrWhiteSpace for a non-null string: empty or white space
      only. Every white-space character is one code unit, so a blank string's
      .NET length is its number of characters. */
  predicate IsBlank(s: string)
    ensures s == [] ==> IsBlank(s)
    ensures IsBlank(s) ==> Utf16Length(s) == |s|
  {
    forall i :: 0 <= i < |s| ==> IsWhiteSpace(s[i])
  }

  /** t occurs in s starting at position k. */
  predicate IsAt(s: string, t: string, k: int) {
    0 <= k <= |s| - |t| && s[k..k + |t|] == t
  }

  /** String.Contains: t occurs in s at some position. */
  predicate Contains(s: string, t: string) {
    exists k :: 0 <= k <= |s| - |t| && IsAt(s, t, k)
  }
}
