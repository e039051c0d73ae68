/** String operations the service relies on from the Java library: decimal
    rendering of an integer (string concatenation with an `Integer`) and
    `Collectors.joining`, together with the inverse operations used to state
    what those renderings preserve. */
module Text {

  /** The separator `UserErrorResponse.getErrorMessage` joins field errors with. */
  const Separator: string := "; "

  predicate IsDigit(c: char) {
    '0' <= c <= '9'
  }

  predicate AllDigits(s: string) {
    forall i :: 0 <= i < |s| ==> IsDigit(s[i])
  }

  function DigitChar(d: nat): (c: char)
    requires d < 10
    ensures IsDigit(c) && c as int - '0' as int == d
  {
    ('0' as int + d) as char
  }

  function DigitValue(c: char): (d: nat)
    requires IsDigit(c)
    ensures d < 10 && DigitChar(d) == c
  {
    c as int - '0' as int
  }

  /** Decimal digits of a natural number, most significant first, no leading zeros. */
  function NatToString(n: nat): (s: string)
    ensures 1 <= |s| && AllDigits(s)
    ensures |s| > 1 ==> s[0] != '0'
    decreases n
  {
    if n < 10 then [DigitChar(n)] else NatToString(n / 10) + [DigitChar(n % 10)]
  }

  /** Java's decimal rendering of an integer: a minus sign before the digits of a negative one. */
  function IntToString(n: int): (s: string)
    ensures 1 <= |s|
    ensures n < 0 <==> s[0] == '-'
  {
    if n < 0 then "-" + NatToString(-n) else NatToString(n)
  }

  function ParseNat(s: string): (n: nat)
    requires AllDigits(s)
    decreases |s|
  {
    if |s| == 0 then 0 else ParseNat(s[..|s| - 1]) * 10 + DigitValue(s[|s| - 1])
  }

  function ParseInt(s: string): int
    requires 1 <= |s|
    requires s[0] == '-' ==> AllDigits(s[1..])
    requires s[0] != '-' ==> AllDigits(s)
  {
    if s[0] == '-' then -(ParseNat(s[1..]) as int) else ParseNat(s)
  }

  lemma {:induction false} ParseNatToString(n: nat)
    ensures ParseNat(NatToString(n)) == n
    decreases n
  {
    var s := NatToString(n);
    if n >= 10 {
      ParseNatToString(n / 10);
      assert s[..|s| - 1] == NatToString(n / 10);
    }
  }

  /** Decimal rendering loses nothing: the integer can be read back from it. */
  lemma IntToStringRoundTrip(n: int)
    ensures var s := IntToString(n);
      (s[0] == '-' ==> AllDigits(s[1..])) && (s[0] != '-' ==> AllDigits(s)) && ParseInt(s) == n
  {
    var s := IntToString(n);
    if n < 0 {
      assert s[1..] == NatToString(-n);
      ParseNatToString(-n);
    } else {
      ParseNatToString(n);
    }
  }

  lemma IntToStringInjective(a: int, b: int)
    requires IntToString(a) == IntToString(b)
    ensures a == b
  {
    IntToStringRoundTrip(a);
    IntToStringRoundTrip(b);
  }

  /** `Collectors.joining(sep)`: the parts in order, with `sep` between neighbours only. */
  function Join(parts: seq<string>, sep: string): (s: string)
    ensures |parts| == 0 ==> s == ""
    ensures |parts| == 1 ==> s == parts[0]
    decreases |parts|
  {
    if |parts| == 0 then ""
    else if |parts| == 1 then parts[0]
    else parts[0] + sep + Join(parts[1..], sep)
  }

  predicate ContainsSeparator(s: string) {
    exists i :: 0 <= i && i + 1 < |s| && s[i] == ';' && s[i + 1] == ' '
  }

  /** Splits a string at every occurrence of `Separator`, scanning left to right. */
  function Split(s: string): (r: seq<string>)
    ensures 1 <= |r|
    decreases |s|
  {
    if |s| < 2 then [s]
    else if s[0] == ';' && s[1] == ' ' then [""] + Split(s[2..])
    else var t := Split(s[1..]); [[s[0]] + t[0]] + t[1..]
  }

  /** Number of occurrences of `Separator` in a string. */
  function CountSeparators(s: string): nat
    decreases |s|
  {
    if |s| < 2 then 0
    else if s[0] == ';' && s[1] == ' ' then 1 + CountSeparators(s[2..])
    else CountSeparators(s[1..])
  }

  lemma {:induction false} SplitWithoutSeparator(p: string)
    requires !ContainsSeparator(p)
    ensures Split(p) == [p]
    decreases |p|
  {
    if |p| >= 2 {
      assert !(p[0] == ';' && p[1] == ' ');
      assert !ContainsSeparator(p[1..]) by {
        forall i | 0 <= i && i + 1 < |p[1..]|
          ensures !(p[1..][i] == ';' && p[1..][i + 1] == ' ')
        {
          assert p[1..][i] == p[i + 1] && p[1..][i + 1] == p[i + 2];
        }
      }
      SplitWithoutSeparator(p[1..]);
      assert [p[0]] + p[1..] == p;
    }
  }

  lemma {:induction false} SplitAfterPart(p: string, rest: string)
    requires !ContainsSeparator(p)
    ensures Split(p + Separator + rest) == [p] + Split(rest)
    decreases |p|
  {
    var s := p + Separator + rest;
    if |p| == 0 {
      assert s[2..] == rest;
    } else {
      assert s[0] == p[0];
      if |p| >= 2 {
        assert s[1] == p[1];
        assert !(p[0] == ';' && p[1] == ' ');
      } else {
        assert s[1] == ';';
      }
      assert !ContainsSeparator(p[1..]) by {
        forall i | 0 <= i && i + 1 < |p[1..]|
          ensures !(p[1..][i] == ';' && p[1..][i + 1] == ' ')
        {
          assert p[1..][i] == p[i + 1] && p[1..][i + 1] == p[i + 2];
        }
      }
      assert s[1..] == p[1..] + Separator + rest;
      SplitAfterPart(p[1..], rest);
      assert [p[0]] + p[1..] == p;
    }
  }

  /** Splitting a joined string at `Separator` gives back the parts, when no part contains it. */
  lemma {:induction false} SplitJoin(parts: seq<string>)
    requires 1 <= |parts|
    requires forall i :: 0 <= i < |parts| ==> !ContainsSeparator(parts[i])
    ensures Split(Join(parts, Separator)) == parts
    decreases |parts|
  {
    if |parts| == 1 {
      SplitWithoutSeparator(parts[0]);
    } else {
      SplitJoin(parts[1..]);
      SplitAfterPart(parts[0], Join(parts[1..], Separator));
      assert [parts[0]] + parts[1..] == parts;
    }
  }

  /** Every separator found ends one piece of the split. */
  lemma {:induction false} SplitCountsSeparators(s: string)
    ensures |Split(s)| == CountSeparators(s) + 1
    decreases |s|
  {
    if |s| >= 2 {
      if s[0] == ';' && s[1] == ' ' {
        SplitCountsSeparators(s[2..]);
      } else {
        SplitCountsSeparators(s[1..]);
      }
    }
  }

  /** Joining n >= 1 parts that hold no separator writes exactly n - 1 separators. */
  lemma JoinSeparatorCount(parts: seq<string>)
    requires 1 <= |parts|
    requires forall i :: 0 <= i < |parts| ==> !ContainsSeparator(parts[i])
    ensures CountSeparators(Join(parts, Separator)) == |parts| - 1
  {
    SplitJoin(parts);
    SplitCountsSeparators(Join(parts, Separator));
  }

  /** The length Java's `String.length()` reports: UTF-16 code units, so a
      character outside the Basic Multilingual Plane (a surrogate pair) counts twice. */
  function Utf16Length(s: string): (n: nat)
    ensures |s| <= n <= 2 * |s|
    ensures n == 0 <==> |s| == 0
    ensures (forall i :: 0 <= i < |s| ==> (s[i] as int) < 0x1_0000) ==> n == |s|
    ensures (forall i :: 0 <= i < |s| ==> (s[i] as int) >= 0x1_0000) ==> n == 2 * |s|
    decreases |s|
  {
    if |s| == 0 then 0
    else Utf16Length(s[..|s| - 1]) + (if (s[|s| - 1] as int) < 0x1_0000 then 1 else 2)
  }

  /** A string without `;` cannot contain the separator. */
  lemma NoSemicolonNoSeparator(s: string)
    requires ';' !in s
    ensures !ContainsSeparator(s)
  {
    forall i | 0 <= i < |s| ensures s[i] != ';' {
      assert s[i] in s;
    }
  }
}
