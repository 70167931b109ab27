/** The Python string builtins the quiz pipeline leans on: `str.isspace`,
    `str.strip`, `str(int)` and `int(str)` in base 10. */
module PyText {
  import opened Wrappers

  /** Python's `str.isspace` for one character. */
  predicate IsSpace(c: char) {
    var n := c as int;
    n == 0x20 || (0x09 <= n <= 0x0d) || (0x1c <= n <= 0x1f) || n == 0x85 || n == 0xa0
    || n == 0x1680 || (0x2000 <= n <= 0x200a) || n == 0x2028 || n == 0x2029
    || n == 0x202f || n == 0x205f || n == 0x3000
  }

  predicate AllSpace(s: string) {
    forall i {:trigger IsSpace(s[i])} :: 0 <= i < |s| ==> IsSpace(s[i])
  }

  /** Non-empty, and neither starting nor ending with whitespace: what `strip()` leaves
      of a string that is not blank. */
  predicate Trimmed(s: string) {
    s != [] && !IsSpace(s[0]) && !IsSpace(s[|s| - 1])
  }

  predicate IsDigit(c: char) {
    '0' <= c <= '9'
  }

  /** Number of whitespace characters at the start of `s`. */
  function LeadingSpaces(s: string): (k: nat)
    ensures k <= |s|
    ensures AllSpace(s[..k])
    ensures k < |s| ==> !IsSpace(s[k])
  {
    if |s| > 0 && IsSpace(s[0]) then
      var k := 1 + LeadingSpaces(s[1..]);
      assert s[..k] == [s[0]] + s[1..][..k - 1];
      k
    else 0
  }

  lemma AllSpaceSnoc(s: string, c: char)
    requires AllSpace(s) && IsSpace(c)
    ensures AllSpace(s + [c])
  {
    assert forall i :: 0 <= i < |s| ==> (s + [c])[i] == s[i];
  }

  lemma AllSpaceConcat(a: string, b: string)
    requires AllSpace(a) && AllSpace(b)
    ensures AllSpace(a + b)
  {
    assert forall i :: 0 <= i < |a + b| ==> (a + b)[i] == if i < |a| then a[i] else b[i - |a|];
  }

  /** Number of whitespace characters at the end of `s`. */
  function TrailingSpaces(s: string): (k: nat)
    ensures k <= |s|
    ensures AllSpace(s[|s| - k..])
    ensures k < |s| ==> !IsSpace(s[|s| - 1 - k])
  {
    if |s| > 0 && IsSpace(s[|s| - 1]) then
      var t := s[..|s| - 1];
      var j := TrailingSpaces(t);
      assert s[|s| - (j + 1)..] == t[|t| - j..] + [s[|s| - 1]];
      AllSpaceSnoc(t[|t| - j..], s[|s| - 1]);
      assert j + 1 < |s| ==> s[|s| - 1 - (j + 1)] == t[|t| - 1 - j];
      j + 1
    else 0
  }

  /** Python's `str.strip()` with no argument. */
  function Strip(s: string): (r: string)
    ensures |r| <= |s|
    ensures r == [] <==> AllSpace(s)
    ensures r != [] ==> Trimmed(r)
    ensures exists k :: 0 <= k <= k + |r| <= |s| && r == s[k..k + |r|] && AllSpace(s[..k]) && AllSpace(s[k + |r|..])
  {
    var k := LeadingSpaces(s);
    var j := TrailingSpaces(s[k..]);
    assert s[k..][|s| - k - j..] == s[|s| - j..];
    assert j < |s| - k ==> s[k..][|s| - k - 1 - j] == s[|s| - 1 - j];
    StripBlank(s, k, j);
    StripTrimmed(s, k, j);
    StripWitness(s, k, j);
    s[k..|s| - j]
  }

  /** The three facts `Strip` states about `s[k..|s| - j]`, with `k` leading and `j` trailing
      whitespace characters cut off. */
  lemma StripTrimmed(s: string, k: nat, j: nat)
    requires k + j <= |s|
    requires k < |s| ==> !IsSpace(s[k])
    requires j < |s| - k ==> !IsSpace(s[|s| - 1 - j])
    ensures s[k..|s| - j] != [] ==> Trimmed(s[k..|s| - j])
  {
    var r := s[k..|s| - j];
    if r != [] {
      assert r[0] == s[k] && r[|r| - 1] == s[|s| - 1 - j];
    }
  }

  lemma StripWitness(s: string, k: nat, j: nat)
    requires k + j <= |s|
    requires AllSpace(s[..k]) && AllSpace(s[|s| - j..])
    ensures var r := s[k..|s| - j];
            exists k' :: 0 <= k' <= k' + |r| <= |s| && r == s[k'..k' + |r|] &&
                         AllSpace(s[..k']) && AllSpace(s[k' + |r|..])
  {
    var r := s[k..|s| - j];
    assert k + |r| == |s| - j;
    assert 0 <= k <= k + |r| <= |s| && r == s[k..k + |r|] && AllSpace(s[..k]) && AllSpace(s[k + |r|..]);
  }

  lemma StripBlank(s: string, k: nat, j: nat)
    requires k + j <= |s|
    requires AllSpace(s[..k]) && AllSpace(s[|s| - j..])
    requires k < |s| ==> !IsSpace(s[k])
    ensures s[k..|s| - j] == [] <==> AllSpace(s)
  {
    if k + j == |s| {
      AllSpaceConcat(s[..k], s[|s| - j..]);
      assert s == s[..k] + s[|s| - j..];
    } else {
      assert !IsSpace(s[k]);
    }
  }

  /** Stripping a string that neither starts nor ends with whitespace leaves it unchanged. */
  lemma StripUnchanged(s: string)
    requires Trimmed(s)
    ensures Strip(s) == s
  {
    assert LeadingSpaces(s) == 0;
    assert TrailingSpaces(s) == 0;
  }

  /** `s.strip().strip() == s.strip()`. */
  lemma StripIdempotent(s: string)
    ensures Strip(Strip(s)) == Strip(s)
  {
    if Strip(s) != [] {
      StripUnchanged(Strip(s));
    }
  }

  /** The digit character for `d`. */
  function DigitChar(d: nat): (c: char)
    requires d < 10
    ensures IsDigit(c) && c as int - '0' as int == d
  {
    ('0' as int + d) as char
  }

  /** Python's `str(n)` for a non-negative integer: decimal, no leading zeros. */
  function NatText(n: nat): (r: string)
    ensures |r| >= 1
    ensures forall i :: 0 <= i < |r| ==> IsDigit(r[i])
    ensures (r[0] == '0') == (n == 0)
  {
    if n < 10 then [DigitChar(n)] else NatText(n / 10) + [DigitChar(n % 10)]
  }

  /** Python's `str(i)` for any integer. */
  function IntText(i: int): (r: string)
    ensures Trimmed(r)
  {
    if i < 0 then "-" + NatText(-i) else NatText(i)
  }

  /** The value of a string of decimal digits. */
  function DigitsValue(s: string): nat
    requires forall i :: 0 <= i < |s| ==> IsDigit(s[i])
  {
    if s == [] then 0
    else
      assert IsDigit(s[|s| - 1]);
      DigitsValue(s[..|s| - 1]) * 10 + (s[|s| - 1] as int - '0' as int)
  }

  /** A digit string as Python's `int()` accepts it in base 10: digits, with single
      underscores allowed between two digits. */
  predicate DigitGroups(u: string) {
    && |u| >= 1
    && IsDigit(u[0]) && IsDigit(u[|u| - 1])
    && (forall i :: 0 <= i < |u| ==> IsDigit(u[i]) || u[i] == '_')
    && (forall i :: 0 <= i < |u| - 1 ==> !(u[i] == '_' && u[i + 1] == '_'))
  }

  /** `u` with every underscore removed. */
  function DropUnderscores(u: string): (r: string)
    requires forall i :: 0 <= i < |u| ==> IsDigit(u[i]) || u[i] == '_'
    ensures forall i :: 0 <= i < |r| ==> IsDigit(r[i])
    ensures |r| <= |u|
  {
    if u == [] then []
    else if u[0] == '_' then DropUnderscores(u[1..])
    else [u[0]] + DropUnderscores(u[1..])
  }

  /** The digits after an optional sign, as `int()` reads them. */
  function ParseUnsigned(u: string): Option<nat> {
    if DigitGroups(u) then Some(DigitsValue(DropUnderscores(u))) else None
  }

  /** A digit of a slice is a digit of the whole text. */
  lemma SliceDigit(s: string, k: nat, e: nat)
    requires k <= e <= |s|
    ensures (exists i :: 0 <= i < e - k && IsDigit(s[k..e][i])) ==>
            exists i :: 0 <= i < |s| && IsDigit(s[i])
  {
    if i :| 0 <= i < e - k && IsDigit(s[k..e][i]) {
      assert s[k + i] == s[k..e][i];
    }
  }

  /** An optional sign followed by digit groups, on already stripped text. */
  function ParseSigned(t: string): (r: Option<int>)
    ensures t == [] ==> r.None?
    ensures r.Some? ==> exists i :: 0 <= i < |t| && IsDigit(t[i])
  {
    if |t| > 0 && (t[0] == '-' || t[0] == '+') then
      match ParseUnsigned(t[1..])
      case Some(n) =>
        assert t[1..][0] == t[1];
        Some(if t[0] == '-' then 0 - n else n as int)
      case None => None
    else
      match ParseUnsigned(t)
      case Some(n) => Some(n)
      case None => None
  }

  /** Python's `int(s)` for a string: `None` where Python raises `ValueError`. */
  function ParseInt(s: string): (r: Option<int>)
    ensures AllSpace(s) ==> r.None?
    ensures r.Some? ==> exists i :: 0 <= i < |s| && IsDigit(s[i])
  {
    var k := LeadingSpaces(s);
    SliceDigit(s, k, |s| - TrailingSpaces(s[k..]));
    ParseSigned(Strip(s))
  }

  lemma ParseIntNeedsDigit(s: string)
    requires forall i :: 0 <= i < |s| ==> !IsDigit(s[i])
    ensures ParseInt(s) == None
  {
  }

  lemma {:induction false} DigitsValueOfNatText(n: nat)
    ensures DigitsValue(NatText(n)) == n
  {
    if n >= 10 {
      var r := NatText(n);
      assert r[..|r| - 1] == NatText(n / 10);
      DigitsValueOfNatText(n / 10);
    }
  }

  lemma {:induction false} DropUnderscoresOfDigits(u: string)
    requires forall i :: 0 <= i < |u| ==> IsDigit(u[i])
    ensures DropUnderscores(u) == u
  {
    if u != [] {
      DropUnderscoresOfDigits(u[1..]);
    }
  }

  lemma ParseUnsignedNatText(d: nat)
    ensures ParseUnsigned(NatText(d)) == Some(d)
  {
    DropUnderscoresOfDigits(NatText(d));
    DigitsValueOfNatText(d);
  }

  lemma ParseSignedNatText(d: nat)
    ensures ParseSigned(NatText(d)) == Some(d)
  {
    var t := NatText(d);
    assert t[0] != '-' && t[0] != '+';
    ParseUnsignedNatText(d);
  }

  lemma ParseSignedNegText(d: nat)
    ensures ParseSigned("-" + NatText(d)) == Some(0 - d)
  {
    var t := "-" + NatText(d);
    assert |t| > 0 && t[0] == '-' && t[1..] == NatText(d);
    ParseUnsignedNatText(d);
  }

  /** `int(str(i)) == i` for every integer `i`. */
  lemma ParseIntText(i: int)
    ensures ParseInt(IntText(i)) == Some(i)
  {
    var s := IntText(i);
    StripUnchanged(s);
    assert ParseInt(s) == ParseSigned(s);
    if i < 0 {
      ParseSignedNegText(-i);
    } else {
      ParseSignedNatText(i);
    }
  }
}
