/** Character classes of Python 2 byte strings in the C locale. */
module Chars {

  /** Python's isspace(): space, tab, newline, vertical tab, form feed, carriage return. */
  predicate IsSpace(c: char) {
    c == ' ' || c == '\t' || c == '\n' || c == '\r' || c == 11 as char || c == 12 as char
  }

  predicate IsUpper(c: char) { 'A' <= c <= 'Z' }

  predicate IsLower(c: char) { 'a' <= c <= 'z' }

  predicate IsLetter(c: char) { IsUpper(c) || IsLower(c) }

  function Lower(c: char): (r: char)
    ensures !IsUpper(r)
    ensures IsSpace(c) <==> IsSpace(r)
    ensures c == '_' <==> r == '_'
    ensures IsLetter(c) <==> IsLetter(r)
  {
    if IsUpper(c) then (c as int - 'A' as int + 'a' as int) as char else c
  }

  function Upper(c: char): (r: char)
    ensures !IsLower(r)
    ensures IsSpace(c) <==> IsSpace(r)
    ensures c == '_' <==> r == '_'
    ensures IsLetter(c) <==> IsLetter(r)
  {
    if IsLower(c) then (c as int - 'a' as int + 'A' as int) as char else c
  }

  /** Lowering a character forgets exactly its case. */
  lemma LowerUpper(c: char)
    ensures Lower(Upper(c)) == Lower(c)
    ensures Upper(Lower(c)) == Upper(c)
  {
  }

  /** str.lower() */
  function LowerCase(s: string): (r: string)
    ensures |r| == |s|
    ensures forall i :: 0 <= i < |s| ==> r[i] == Lower(s[i])
  {
    if s == [] then [] else [Lower(s[0])] + LowerCase(s[1..])
  }

  /** str.upper() */
  function UpperCase(s: string): (r: string)
    ensures |r| == |s|
    ensures forall i :: 0 <= i < |s| ==> r[i] == Upper(s[i])
  {
    if s == [] then [] else [Upper(s[0])] + UpperCase(s[1..])
  }

  /** Upper-casing a lower-cased string gives the upper-cased original. */
  lemma UpperOfLower(s: string)
    ensures UpperCase(LowerCase(s)) == UpperCase(s)
  {
    forall i | 0 <= i < |s| ensures UpperCase(LowerCase(s))[i] == UpperCase(s)[i] {
      LowerUpper(s[i]);
    }
  }
}
