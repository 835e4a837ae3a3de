/** The string operations the loaders use to build file names: Python's
    decimal `str()` of an integer and POSIX `os.path.join`. */
module Text {

  predicate IsDigit(c: char) { '0' <= c <= '9' }

  function DigitChar(d: nat): (c: char)
    requires d < 10
    ensures IsDigit(c)
  {
    ('0' as int + d) as char
  }

  function DigitValue(c: char): nat
  {
    if IsDigit(c) then c as int - '0' as int else 0
  }

  /** Decimal digits of `n`, most significant first, without leading zeros. */
  function NatToString(n: nat): (s: string)
    ensures |s| > 0
    ensures forall k :: 0 <= k < |s| ==> IsDigit(s[k])
  {
    if n < 10 then [DigitChar(n)] else NatToString(n / 10) + [DigitChar(n % 10)]
  }

  /** `str(i)` for a Python or NumPy integer: a minus sign, then the digits. */
  function IntToString(i: int): (s: string)
    ensures |s| > 0
    ensures s[0] == '-' <==> i < 0
    ensures forall k :: 0 <= k < |s| ==> IsDigit(s[k]) || (k == 0 && s[k] == '-')
  {
    if i < 0 then "-" + NatToString(-i) else NatToString(i)
  }

  /** Reads back a string of decimal digits; the partner of NatToString. */
  function ParseNat(s: string): nat
  {
    if s == [] then 0 else ParseNat(s[..|s| - 1]) * 10 + DigitValue(s[|s| - 1])
  }

  /** Reads back an optionally signed decimal; the partner of IntToString. */
  function ParseInt(s: string): int
  {
    if |s| > 0 && s[0] == '-' then -(ParseNat(s[1..]) as int) else ParseNat(s)
  }

  lemma {:induction false} ParseNatToString(n: nat)
    ensures ParseNat(NatToString(n)) == n
  {
    if n >= 10 {
      var s := NatToString(n);
      assert s[..|s| - 1] == NatToString(n / 10);
      ParseNatToString(n / 10);
    }
  }

  /** Decimal rendering round-trips through ParseInt. */
  lemma ParseIntToString(i: int)
    ensures ParseInt(IntToString(i)) == i
  {
    if i < 0 {
      assert IntToString(i)[1..] == NatToString(-i);
      ParseNatToString(-i);
    } else {
      ParseNatToString(i);
    }
  }

  /** Distinct integers render to distinct strings. */
  lemma IntToStringInjective(a: int, b: int)
    requires IntToString(a) == IntToString(b)
    ensures a == b
  {
    ParseIntToString(a);
    ParseIntToString(b);
  }

  /** Decimal digits start with '0' only for zero itself. */
  lemma {:induction false} NatToStringNoLeadingZero(n: nat)
    ensures NatToString(n)[0] == '0' <==> n == 0
  {
    if n >= 10 {
      NatToStringNoLeadingZero(n / 10);
      assert NatToString(n)[0] == NatToString(n / 10)[0];
    }
  }

  /** `str()` is canonical: no leading zero except for 0 itself, and none
      after the minus sign of a negative value. */
  lemma IntToStringCanonical(i: int)
    ensures IntToString(i)[0] == '0' <==> i == 0
    ensures i < 0 ==> |IntToString(i)| > 1 && IntToString(i)[1] != '0'
  {
    if i < 0 {
      NatToStringNoLeadingZero(-i);
      assert IntToString(i)[1] == NatToString(-i)[0];
    } else {
      NatToStringNoLeadingZero(i);
    }
  }

  /** No rendered integer contains a path separator. */
  lemma IntToStringHasNoSlash(i: int)
    ensures '/' !in IntToString(i)
  {
  }

  /** `os.path.join(a, b)` for POSIX paths: an absolute `b` replaces `a`,
      otherwise a separator is inserted unless `a` is empty or already ends in one. */
  function Join(a: string, b: string): (r: string)
    ensures |b| > 0 && b[0] == '/' ==> r == b
    ensures (|b| == 0 || b[0] != '/') && (a == [] || a[|a| - 1] == '/') ==> r == a + b
    ensures (|b| == 0 || b[0] != '/') && !(a == [] || a[|a| - 1] == '/') ==> r == a + "/" + b
  {
    if |b| > 0 && b[0] == '/' then b
    else if a == [] || a[|a| - 1] == '/' then a + b
    else a + "/" + b
  }

  /** A joined path ends with its last component and, when that component is
      relative, starts with the directory. */
  lemma JoinEnds(a: string, b: string)
    ensures var p := Join(a, b); |b| <= |p| && p[|p| - |b|..] == b
    ensures var p := Join(a, b); (|b| == 0 || b[0] != '/') ==> |a| <= |p| && p[..|a|] == a
  {
  }

  /** Joining a relative component onto a directory that ends in a slash is
      plain concatenation. */
  lemma JoinAfterSlash(a: string, b: string)
    requires |a| > 0 && a[|a| - 1] == '/'
    requires |b| == 0 || b[0] != '/'
    ensures Join(a, b) == a + b
  {
  }

  /** Two strings that each consist of a slash-free head, a slash and a tail
      split the same way when they are equal. */
  lemma SplitAtSlash(x: string, y: string, x': string, y': string)
    requires '/' !in x && '/' !in x'
    requires x + "/" + y == x' + "/" + y'
    ensures x == x' && y == y'
  {
    var s := x + "/" + y;
    assert s[|x|] == '/' && forall k :: 0 <= k < |x| ==> s[k] == x[k];
    assert s[|x'|] == '/' && forall k :: 0 <= k < |x'| ==> s[k] == x'[k];
    assert |x| == |x'|;
    assert x == s[..|x|] == x';
    assert y == s[|x| + 1..] == y';
  }

  /** Equal strings with a common prefix agree after it. */
  lemma DropCommonPrefix(p: string, x: string, y: string)
    requires p + x == p + y
    ensures x == y
  {
    assert x == (p + x)[|p|..];
    assert y == (p + y)[|p|..];
  }

  /** Equal strings with a common suffix agree before it. */
  lemma DropCommonSuffix(x: string, y: string, q: string)
    requires x + q == y + q
    ensures x == y
  {
    assert x == (x + q)[..|x|];
    assert y == (y + q)[..|y|];
  }
}
