/** Python 2's integer literals as the library uses them: `int(s, 0)` (the base is
    taken from the literal's prefix), `int(s)` (decimal) and `str(n)`.
    The digits of a literal are read by a left fold; the rendering functions are
    their inverse, which the round-trip lemmas below state. */
module PyInt {
  import opened Values
  import opened Chars

  /** The base argument of int(): 0 for "take it from the prefix", or 10. */
  datatype Radix = AnyBase | Decimal

  /** The value of a digit character, 99 for anything that is not a digit in any base up to 36. */
  function DigitOf(c: char): (d: nat)
    ensures d < 36 || d == 99
    ensures IsSpace(c) || c == '-' || c == '+' || c == '_' ==> d == 99
  {
    if '0' <= c <= '9' then c as int - '0' as int
    else if 'a' <= c <= 'z' then c as int - 'a' as int + 10
    else if 'A' <= c <= 'Z' then c as int - 'A' as int + 10
    else 99
  }

  predicate AllDigits(s: string, base: nat) {
    forall i :: 0 <= i < |s| ==> DigitOf(s[i]) < base
  }

  /** The number a string of digits denotes, most significant digit first. */
  function DigitsValue(s: string, base: nat): nat {
    if s == [] then 0 else DigitsValue(s[..|s| - 1], base) * base + DigitOf(s[|s| - 1])
  }

  /** A non-empty string of digits of the given base, or nothing. */
  function ParseDigits(s: string, base: nat): (r: Option<int>)
    ensures r.Some? <==> s != [] && AllDigits(s, base)
    ensures r.Some? ==> r.value >= 0
  {
    if s != [] && AllDigits(s, base) then Some(DigitsValue(s, base)) else None
  }

  /** str.lstrip(): the suffix left once the leading whitespace is removed. */
  function StripLeading(s: string): (r: string)
    ensures |r| <= |s|
    ensures r != [] ==> r[|r| - 1] == s[|s| - 1]
    ensures r != [] ==> !IsSpace(r[0])
  {
    if s != [] && IsSpace(s[0]) then StripLeading(s[1..]) else s
  }

  /** str.rstrip(): the prefix left once the trailing whitespace is removed. */
  function StripTrailing(s: string): (r: string)
    ensures |r| <= |s|
    ensures r != [] ==> r[0] == s[0]
    ensures r != [] ==> !IsSpace(r[|r| - 1])
  {
    if s != [] && IsSpace(s[|s| - 1]) then StripTrailing(s[..|s| - 1]) else s
  }

  /** lstrip removes whitespace only, and only from the front. */
  lemma {:induction false} StripLeadingSuffix(s: string)
    ensures StripLeading(s) == s[|s| - |StripLeading(s)|..]
    ensures forall i :: 0 <= i < |s| - |StripLeading(s)| ==> IsSpace(s[i])
    decreases |s|
  {
    if s != [] && IsSpace(s[0]) {
      StripLeadingSuffix(s[1..]);
      forall i | 0 < i < |s| - |StripLeading(s)|
        ensures IsSpace(s[i])
      {
        assert s[i] == s[1..][i - 1];
      }
    }
  }

  /** rstrip removes whitespace only, and only from the back. */
  lemma {:induction false} StripTrailingPrefix(s: string)
    ensures StripTrailing(s) == s[..|StripTrailing(s)|]
    ensures forall i :: |StripTrailing(s)| <= i < |s| ==> IsSpace(s[i])
    decreases |s|
  {
    if s != [] && IsSpace(s[|s| - 1]) {
      StripTrailingPrefix(s[..|s| - 1]);
      forall i | |StripTrailing(s)| <= i < |s| - 1
        ensures IsSpace(s[i])
      {
        assert s[i] == s[..|s| - 1][i];
      }
    }
  }

  function Strip(s: string): string {
    StripTrailing(StripLeading(s))
  }

  /** The body of a literal after its sign: a prefixed literal, a leading-zero
      octal literal (Python 2), or a decimal literal. */
  function ParseBody(b: string, radix: Radix): Option<int> {
    match radix
    case Decimal => ParseDigits(b, 10)
    case AnyBase =>
      if |b| >= 2 && b[0] == '0' && (b[1] == 'x' || b[1] == 'X') then ParseDigits(b[2..], 16)
      else if |b| >= 2 && b[0] == '0' && (b[1] == 'o' || b[1] == 'O') then ParseDigits(b[2..], 8)
      else if |b| >= 2 && b[0] == '0' && (b[1] == 'b' || b[1] == 'B') then ParseDigits(b[2..], 2)
      else if b != [] && b[0] == '0' then ParseDigits(b, 8)
      else ParseDigits(b, 10)
  }

  /** Python 2's int(s, base) for a string: whitespace around the literal and
      between its sign and its digits is skipped; anything else is an error. */
  function ParseInt(s: string, radix: Radix): Option<int> {
    var t := Strip(s);
    if t == [] then None
    else if t[0] == '-' then
      match ParseBody(StripLeading(t[1..]), radix)
      case Some(n) => Some(-n)
      case None => None
    else if t[0] == '+' then ParseBody(StripLeading(t[1..]), radix)
    else ParseBody(t, radix)
  }

  /** Python's int(x) applied to a keyword argument: integers pass, strings are parsed as decimal. */
  function IntOf(a: Arg): (r: Result<int>)
    ensures a.Num? ==> r == Ok(a.n)
    ensures a.Text? && ParseInt(a.s, Decimal).Some? ==> r == Ok(ParseInt(a.s, Decimal).value)
    ensures a.Text? && ParseInt(a.s, Decimal).None? ==> r == Err(InvalidInteger(a.s))
  {
    match a
    case Num(n) => Ok(n)
    case Text(s) =>
      match ParseInt(s, Decimal)
      case Some(n) => Ok(n)
      case None => Err(InvalidInteger(s))
  }

  // ---------------------------------------------------------------------------
  // Rendering, the inverse of parsing
  // ---------------------------------------------------------------------------

  function DigitChar(d: nat): (c: char)
    requires d < 16
    ensures DigitOf(c) == d
  {
    if d < 10 then ('0' as int + d) as char else ('a' as int + d - 10) as char
  }

  /** The digits of n in the given base, most significant first, without leading zeros. */
  function DigitString(n: nat, base: nat): (r: string)
    requires 2 <= base <= 16
    ensures r != []
    decreases n
  {
    if n < base then [DigitChar(n)] else DigitString(n / base, base) + [DigitChar(n % base)]
  }

  /** Python's str(n) for an integer. */
  function DecimalLiteral(n: int): string {
    if n < 0 then "-" + DigitString(-n, 10) else DigitString(n, 10)
  }

  /** The prefix letter Python uses for binary, octal and hexadecimal literals. */
  function PrefixLetter(base: nat): char {
    if base == 2 then 'b' else if base == 8 then 'o' else 'x'
  }

  /** A binary, octal or hexadecimal literal of n with its `0b`, `0o` or `0x`
      prefix and no suffix. Python 2's hex() and oct() of a long append `L`, and
      its oct() writes a bare leading `0`; those spellings are not these. */
  function PrefixedLiteral(n: int, base: nat): string
    requires base == 2 || base == 8 || base == 16
  {
    var body := "0" + [PrefixLetter(base)] + DigitString(if n < 0 then -n else n, base);
    if n < 0 then "-" + body else body
  }

  /** Euclidean division by the base, as the digit lemmas below use it. */
  lemma DivMod(n: nat, base: nat)
    requires 2 <= base
    ensures n == (n / base) * base + n % base && n % base < base
    ensures n >= base ==> 0 < n / base < n
  {
  }

  lemma {:induction false} DigitStringDigits(n: nat, base: nat)
    requires 2 <= base <= 16
    ensures AllDigits(DigitString(n, base), base)
    decreases n
  {
    if n >= base {
      DigitStringDigits(n / base, base);
    }
  }

  lemma {:induction false} DigitStringValue(n: nat, base: nat)
    requires 2 <= base <= 16
    ensures DigitsValue(DigitString(n, base), base) == n
    decreases n
  {
    if n >= base {
      var q, d := n / base, n % base;
      DivMod(n, base);
      var s := DigitString(n, base);
      assert s == DigitString(q, base) + [DigitChar(d)];
      assert s[..|s| - 1] == DigitString(q, base);
      DigitStringValue(q, base);
      assert DigitsValue(s, base) == q * base + d;
    }
  }

  /** The digits of a positive number do not start with zero, so the octal rule of
      int(s, 0) does not apply to them. */
  lemma {:induction false} DigitStringLeading(n: nat, base: nat)
    requires 2 <= base <= 16
    ensures (n > 0) == (DigitString(n, base)[0] != '0')
    ensures DigitOf(DigitString(n, base)[0]) < base
    decreases n
  {
    if n >= base {
      DivMod(n, base);
      DigitStringLeading(n / base, base);
    } else {
      assert DigitOf('0') == 0;
    }
  }

  /** Reading back the digits of n gives n. */
  lemma DigitsRoundTrip(n: nat, base: nat)
    requires 2 <= base <= 16
    ensures ParseDigits(DigitString(n, base), base) == Some(n)
  {
    DigitStringDigits(n, base);
    DigitStringValue(n, base);
  }

  lemma StripNoSpace(s: string)
    requires s != [] && !IsSpace(s[0]) && !IsSpace(s[|s| - 1])
    ensures Strip(s) == s
  {
    assert StripLeading(s) == s;
  }

  /** The digits of a number, read back in either radix. */
  lemma DecimalBody(m: nat, radix: Radix)
    ensures ParseBody(DigitString(m, 10), radix) == Some(m)
  {
    var ds := DigitString(m, 10);
    DigitStringLeading(m, 10);
    DigitsRoundTrip(m, 10);
    if radix == AnyBase {
      if m > 0 {
        assert ds[0] != '0';
        assert ParseBody(ds, radix) == ParseDigits(ds, 10);
      } else {
        assert ds == "0" && ds[..0] == [];
        assert DigitsValue(ds, 8) == 0;
        assert ParseBody(ds, radix) == ParseDigits(ds, 8);
      }
    }
  }

  /** A literal without surrounding space reads as its body, and with a leading minus as its negation. */
  lemma SignedParse(body: string, radix: Radix)
    requires body != [] && !IsSpace(body[0]) && !IsSpace(body[|body| - 1])
    requires body[0] != '-' && body[0] != '+'
    ensures ParseInt(body, radix) == ParseBody(body, radix)
    ensures ParseInt("-" + body, radix) ==
      match ParseBody(body, radix) case Some(n) => Some(-n) case None => None
  {
    StripNoSpace(body);
    var neg := "-" + body;
    assert neg[|neg| - 1] == body[|body| - 1];
    StripNoSpace(neg);
    assert neg[0] == '-' && neg[1..] == body;
    assert StripLeading(body) == body;
  }

  /** int(str(n)) == n and int(str(n), 0) == n. */
  lemma DecimalRoundTrip(n: int, radix: Radix)
    ensures ParseInt(DecimalLiteral(n), radix) == Some(n)
  {
    var m := if n < 0 then -n else n;
    var ds := DigitString(m, 10);
    DigitStringDigits(m, 10);
    DigitStringLeading(m, 10);
    DecimalBody(m, radix);
    SignedParse(ds, radix);
  }

  /** The body of a prefixed literal, read back by int(s, 0). */
  lemma PrefixedBody(m: nat, base: nat)
    requires base == 2 || base == 8 || base == 16
    ensures ParseBody("0" + [PrefixLetter(base)] + DigitString(m, base), AnyBase) == Some(m)
  {
    var body := "0" + [PrefixLetter(base)] + DigitString(m, base);
    assert body[2..] == DigitString(m, base);
    DigitsRoundTrip(m, base);
  }

  /** A prefixed literal without suffix reads back as its number in int(s, 0). */
  lemma PrefixedRoundTrip(n: int, base: nat)
    requires base == 2 || base == 8 || base == 16
    ensures ParseInt(PrefixedLiteral(n, base), AnyBase) == Some(n)
  {
    var m := if n < 0 then -n else n;
    var ds := DigitString(m, base);
    DigitStringDigits(m, base);
    PrefixedBody(m, base);
    var body := "0" + [PrefixLetter(base)] + ds;
    assert body[0] == '0' && body[|body| - 1] == ds[|ds| - 1];
    SignedParse(body, AnyBase);
  }

  /** A literal must start with a sign, a digit or whitespace: a string whose first
      character is a letter is never an integer. */
  lemma LetterIsNoInteger(s: string, radix: Radix)
    requires s != [] && IsLetter(s[0])
    ensures ParseInt(s, radix).None?
  {
    assert StripLeading(s) == s;
    StripPrefixKeepsNonSpace(s);
  }

  lemma {:induction false} StripPrefixKeepsNonSpace(s: string)
    requires s != [] && !IsSpace(s[0])
    ensures StripTrailing(s) != [] && StripTrailing(s)[0] == s[0]
    decreases |s|
  {
    if IsSpace(s[|s| - 1]) {
      assert |s| > 1;
      StripPrefixKeepsNonSpace(s[..|s| - 1]);
    }
  }

  /** Python 2 reads a leading zero as octal in int(s, 0), but not in int(s). */
  lemma LeadingZero()
    ensures ParseInt("010", AnyBase) == Some(8)
    ensures ParseInt("010", Decimal) == Some(10)
    ensures ParseInt("09", AnyBase).None?
  {
    assert Strip("010") == "010";
    assert "010"[..2] == "01" && "01"[..1] == "0" && "0"[..0] == "";
    assert DigitsValue("010", 8) == 8;
    assert DigitsValue("010", 10) == 10;
    assert Strip("09") == "09";
    assert DigitOf("09"[1]) == 9;
  }

  /** Whitespace around the literal and after its sign is skipped. */
  lemma SignAndSpace()
    ensures ParseInt(" - 0x1F ", AnyBase) == Some(-31)
  {
    assert "1F"[..1] == "1" && "1"[..0] == "";
    assert DigitsValue("1F", 16) == 31;
    assert ("0x1F")[2..] == "1F";
    assert ParseBody("0x1F", AnyBase) == Some(31);
    assert StripLeading(" 0x1F") == "0x1F";
    assert StripLeading(" - 0x1F ") == "- 0x1F ";
    assert ("- 0x1F ")[..6] == "- 0x1F";
    assert StripTrailing("- 0x1F ") == "- 0x1F";
    assert Strip(" - 0x1F ") == "- 0x1F";
    assert ("- 0x1F")[1..] == " 0x1F";
  }

  /** A base prefix must be followed by at least one digit. */
  lemma PrefixNeedsDigits()
    ensures ParseInt("0x", AnyBase).None?
  {
    assert Strip("0x") == "0x";
    assert ("0x")[2..] == "";
  }
}
