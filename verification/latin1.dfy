/** The study guide's text sanitiser `s.encode('latin-1', 'replace').decode('latin-1')`:
    every character Latin-1 cannot encode becomes one `?`, all others pass through. */
module Latin1 {

  /** Largest code point Latin-1 can encode. */
  const MaxCodePoint := 255

  /** The substitute the `'replace'` error handler writes when encoding. */
  const Replacement := '?'

  predicate IsLatin1Char(c: char)
  {
    c as int <= MaxCodePoint
  }

  predicate IsLatin1(s: string)
  {
    forall i :: 0 <= i < |s| ==> IsLatin1Char(s[i])
  }

  /** One character through the encode/decode round trip. */
  function SanitizeChar(c: char): (d: char)
    ensures IsLatin1Char(d)
    ensures IsLatin1Char(c) ==> d == c
    ensures !IsLatin1Char(c) ==> d == Replacement
  {
    if IsLatin1Char(c) then c else Replacement
  }

  /** The encode/decode round trip applied character by character. */
  function Sanitize(s: string): (r: string)
    ensures |r| == |s|
    ensures forall i :: 0 <= i < |s| ==> r[i] == SanitizeChar(s[i])
    ensures IsLatin1(r)
    decreases |s|
  {
    if |s| == 0 then [] else [SanitizeChar(s[0])] + Sanitize(s[1..])
  }

  /** Characters up to code point 255 are kept, every other one becomes `?`. */
  lemma SanitizeKeepsOrReplaces(s: string, i: nat)
    requires i < |s|
    ensures s[i] as int <= 255 ==> Sanitize(s)[i] == s[i]
    ensures s[i] as int > 255 ==> Sanitize(s)[i] == '?'
  {
  }

  /** Sanitising a sanitised string changes nothing. */
  lemma SanitizeIdempotent(s: string)
    ensures Sanitize(Sanitize(s)) == Sanitize(s)
  {
  }

  /** A string is left unchanged exactly when it is already Latin-1. */
  lemma SanitizeFixesExactlyLatin1(s: string)
    ensures Sanitize(s) == s <==> IsLatin1(s)
  {
    if Sanitize(s) == s {
      assert IsLatin1(Sanitize(s));
    }
  }

  /** Sanitising works piece by piece, so it commutes with concatenation. */
  lemma SanitizeConcat(a: string, b: string)
    ensures Sanitize(a + b) == Sanitize(a) + Sanitize(b)
  {
  }

  /** Gluing Latin-1 strings gives a Latin-1 string. */
  lemma Latin1Concat(a: string, b: string)
    requires IsLatin1(a) && IsLatin1(b)
    ensures IsLatin1(a + b)
  {
  }
}
