/**
 * Character classes, case mapping and substring search on ASCII text: the parts of
 * Python's `str.lower`, `str.title` and case-insensitive `re.search` that the readers
 * rely on. Non-ASCII characters are treated as uncased.
 */
module Ascii {

  predicate IsUpper(c: char) { 'A' <= c <= 'Z' }

  predicate IsLower(c: char) { 'a' <= c <= 'z' }

  /** Python's "cased" characters, restricted to ASCII. */
  predicate IsLetter(c: char) { IsUpper(c) || IsLower(c) }

  function Lower(c: char): (r: char)
    ensures IsLetter(c) <==> IsLetter(r)
    ensures IsLetter(c) ==> IsLower(r)
    ensures !IsUpper(c) ==> r == c
  {
    if IsUpper(c) then (c as int - 'A' as int + 'a' as int) as char else c
  }

  function Upper(c: char): (r: char)
    ensures IsLetter(c) <==> IsLetter(r)
    ensures IsLetter(c) ==> IsUpper(r)
    ensures !IsLower(c) ==> r == c
  {
    if IsLower(c) then (c as int - 'a' as int + 'A' as int) as char else c
  }

  /** Upper- and lower-casing keep the letter and only change its case. */
  lemma CaseRoundTrip(c: char)
    ensures Lower(Upper(c)) == Lower(c) && Lower(Lower(c)) == Lower(c)
    ensures Upper(Lower(c)) == Upper(c) && Upper(Upper(c)) == Upper(c)
  {
  }

  function LowerAll(s: string): (r: string)
    ensures |r| == |s|
    ensures forall i :: 0 <= i < |s| ==> r[i] == Lower(s[i])
  {
    seq(|s|, i requires 0 <= i < |s| => Lower(s[i]))
  }

  predicate OccursAt(s: string, q: string, i: int)
  {
    0 <= i <= |s| - |q| && s[i..i + |q|] == q
  }

  /** `q in s`: q occurs in s at some position. */
  predicate Contains(s: string, q: string)
  {
    exists i :: 0 <= i <= |s| - |q| && OccursAt(s, q, i)
  }

  /** `s` contains `q` when case is ignored. */
  predicate ContainsIgnoreCase(s: string, q: string)
  {
    Contains(LowerAll(s), LowerAll(q))
  }
}
