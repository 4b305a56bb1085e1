/** The test runner's name normalization as the resolver calls it,
    `normalize(name, ignore='_')`: whitespace is removed, letters are lower-cased
    and underscores are removed. */
module Normalizing {
  import opened Chars

  /** A character that normalization deletes. */
  predicate Ignored(c: char) {
    IsSpace(c) || c == '_'
  }

  /** A string that normalization leaves as it is. */
  ghost predicate IsNormal(s: string) {
    forall i :: 0 <= i < |s| ==> !Ignored(s[i]) && !IsUpper(s[i])
  }

  function Normalize(s: string): (r: string)
    ensures |r| <= |s|
    ensures IsNormal(r)
  {
    if s == [] then []
    else (if Ignored(s[0]) then [] else [Lower(s[0])]) + Normalize(s[1..])
  }

  /** Normalization works character by character. */
  lemma {:induction false} NormalizeConcat(a: string, b: string)
    ensures Normalize(a + b) == Normalize(a) + Normalize(b)
    decreases |a|
  {
    if a == [] {
      assert a + b == b;
    } else {
      assert (a + b)[1..] == a[1..] + b;
      NormalizeConcat(a[1..], b);
    }
  }

  /** Normalizing twice is normalizing once. */
  lemma {:induction false} NormalizeIdempotent(s: string)
    ensures Normalize(Normalize(s)) == Normalize(s)
    decreases |s|
  {
    if s != [] {
      var head := if Ignored(s[0]) then [] else [Lower(s[0])];
      NormalizeConcat(head, Normalize(s[1..]));
      NormalizeIdempotent(s[1..]);
      if head != [] {
        assert Normalize(head) == head by {
          assert head[1..] == [];
          LowerUpper(s[0]);
        }
      }
    }
  }

  /** Case does not matter. */
  lemma {:induction false} NormalizeUpperCase(s: string)
    ensures Normalize(UpperCase(s)) == Normalize(s)
    decreases |s|
  {
    if s != [] {
      assert UpperCase(s)[1..] == UpperCase(s[1..]);
      LowerUpper(s[0]);
      NormalizeUpperCase(s[1..]);
    }
  }

  lemma {:induction false} NormalizeLowerCase(s: string)
    ensures Normalize(LowerCase(s)) == Normalize(s)
    decreases |s|
  {
    if s != [] {
      assert LowerCase(s)[1..] == LowerCase(s[1..]);
      LowerUpper(s[0]);
      assert Lower(Lower(s[0])) == Lower(s[0]);
      NormalizeLowerCase(s[1..]);
    }
  }

  /** A string already in normal form is kept as it is: normalization deletes
      no other character and changes no other letter. */
  lemma {:induction false} NormalizeNormal(s: string)
    requires IsNormal(s)
    ensures Normalize(s) == s
    decreases |s|
  {
    if s != [] {
      assert IsNormal(s[1..]) by {
        forall i | 0 <= i < |s[1..]|
          ensures !Ignored(s[1..][i]) && !IsUpper(s[1..][i])
        {
          assert s[1..][i] == s[i + 1];
        }
      }
      NormalizeNormal(s[1..]);
      assert !Ignored(s[0]) && Lower(s[0]) == s[0];
    }
  }

  /** An underscore or a whitespace character may be inserted anywhere. */
  lemma NormalizeIgnores(a: string, c: char, b: string)
    requires Ignored(c)
    ensures Normalize(a + [c] + b) == Normalize(a + b)
  {
    NormalizeConcat(a + [c], b);
    NormalizeConcat(a, [c]);
    NormalizeConcat(a, b);
    assert [c][1..] == [];
  }
}
