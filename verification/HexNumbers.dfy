/** Reading an unsigned 64-bit number in hexadecimal, in the manner of a C++ stream. */
module HexNumbers {
  import opened Text

  const SIZE_LIMIT: nat := 0x1_0000_0000_0000_0000

  const HEX_DIGITS: set<char> := set c: char | '0' <= c <= '9' || 'a' <= c <= 'f' || 'A' <= c <= 'F'

  function DigitValue(c: char): (v: nat)
    ensures v < 16
  {
    if '0' <= c <= '9' then c as int - '0' as int
    else if 'a' <= c <= 'f' then c as int - 'a' as int + 10
    else if 'A' <= c <= 'F' then c as int - 'A' as int + 10
    else 0
  }

  function HexValue(s: string): nat {
    HexPrefix(s, |s|)
  }

  /** The value of the first `k` digits. */
  function HexPrefix(s: string, k: nat): nat
    requires k <= |s|
  {
    if k == 0 then 0 else 16 * HexPrefix(s, k - 1) + DigitValue(s[k - 1])
  }

  lemma {:induction false} HexPrefixSame(s: string, t: string, k: nat)
    requires k <= |s| && k <= |t| && s[..k] == t[..k]
    ensures HexPrefix(s, k) == HexPrefix(t, k)
  {
    if k == 0 {
    } else {
      assert s[..k][..k - 1] == s[..k - 1] && t[..k][..k - 1] == t[..k - 1];
      assert s[..k][k - 1] == s[k - 1] && t[..k][k - 1] == t[k - 1];
      HexPrefixSame(s, t, k - 1);
    }
  }

  function AfterSign(s: string): (t: string)
    ensures |t| <= |s|
  {
    if s != "" && s[0] in {'+', '-'} then s[1..] else s
  }

  function AfterPrefix(t: string): (u: string)
    ensures |u| <= |t|
  {
    if |t| >= 2 && t[0] == '0' && t[1] in {'x', 'X'} then t[2..] else t
  }

  function Negated(neg: bool, v: nat): nat
    requires v < SIZE_LIMIT
  {
    if neg && v > 0 then SIZE_LIMIT - v else v
  }

  /** The value of a string of digits: there must be at least one, and the number must not be too large. */
  function SizeValue(neg: bool, digits: string): (v: Option<nat>)
    ensures v.Some? ==> digits != "" && v.value < SIZE_LIMIT
  {
    if digits == "" || HexValue(digits) >= SIZE_LIMIT then None else Some(Negated(neg, HexValue(digits)))
  }

  /**
    The number that `s` starts with: an optional sign, an optional `0x`, then at least one digit. A negative
    number wraps round; one that is too large fails.
   */
  function HexNumber(s: string): (r: (Option<nat>, string))
    ensures |r.1| <= |s|
    ensures r.0.Some? ==> r.0.value < SIZE_LIMIT && |r.1| < |s|
  {
    var u := AfterPrefix(AfterSign(s));
    var n := FindFirstNotOf(u, HEX_DIGITS);
    (SizeValue("-" <= s, u[..n]), u[n..])
  }

  /** Nothing that the text was free of turns up after the number. */
  lemma RestFree(s: string, cs: set<char>)
    requires Free(s, cs)
    ensures Free(HexNumber(s).1, cs)
  {
    var u := AfterPrefix(AfterSign(s));
    SuffixFree(s, 1, cs);
    SuffixFree(AfterSign(s), 2, cs);
    SuffixFree(u, FindFirstNotOf(u, HEX_DIGITS), cs);
  }

  lemma SuffixFree(s: string, k: nat, cs: set<char>)
    requires Free(s, cs)
    ensures k <= |s| ==> Free(s[k..], cs)
  {
  }

  function Digit(d: nat): (c: char)
    requires d < 16
    ensures c in HEX_DIGITS && DigitValue(c) == d
  {
    if d < 10 then ('0' as int + d) as char else ('a' as int + d - 10) as char
  }

  /** A number in hexadecimal. */
  function Hex(n: nat): (s: string)
    ensures s != "" && forall i :: 0 <= i < |s| ==> s[i] in HEX_DIGITS
    ensures HexValue(s) == n
  {
    if n < 16 then
      assert HexPrefix([Digit(n)], 0) == 0;
      [Digit(n)]
    else
      var s := Hex(n / 16) + [Digit(n % 16)];
      assert s[..|s| - 1] == Hex(n / 16)[..|s| - 1];
      HexPrefixSame(s, Hex(n / 16), |s| - 1);
      s
  }

  // ----- hexadecimal as it is written

  const SMALL := "0123456789abcdef"
  const LARGE := "0123456789ABCDEF"

  /** `c` is the digit for `d`, in either case. */
  ghost predicate IsDigit(c: char, d: nat) {
    d < 16 && (c == SMALL[d] || c == LARGE[d])
  }

  /** `s` writes `n` in hexadecimal, in either case and with any leading zeros. */
  ghost predicate Writes(s: string, n: nat) {
    && s != ""
    && IsDigit(s[|s| - 1], n % 16)
    && (if |s| == 1 then n < 16 else Writes(s[..|s| - 1], n / 16))
  }

  lemma DigitIff(c: char, d: nat)
    ensures IsDigit(c, d) <==> c in HEX_DIGITS && DigitValue(c) == d
  {
    if d < 16 {
      DigitNumbers(d);
    }
    if c in HEX_DIGITS {
      DigitNumbers(DigitValue(c));
    }
  }

  lemma DigitNumbers(d: nat)
    requires d < 16
    ensures SMALL[d] as int == if d < 10 then 48 + d else 87 + d
    ensures LARGE[d] as int == if d < 10 then 48 + d else 55 + d
  {
  }

  lemma LastDigit(s: string)
    requires s != ""
    ensures var k := |s| - 1;
            && HexValue(s) == 16 * HexValue(s[..k]) + DigitValue(s[k])
            && ((forall i :: 0 <= i < |s| ==> s[i] in HEX_DIGITS) <==>
                s[k] in HEX_DIGITS && forall i :: 0 <= i < k ==> s[..k][i] in HEX_DIGITS)
  {
    var k := |s| - 1;
    assert forall i :: 0 <= i < k ==> s[..k][i] == s[i];
    HexPrefixSame(s, s[..k], k);
  }

  lemma SixteenParts(a: nat, d: nat, n: nat)
    requires d < 16
    ensures 16 * a + d == n <==> a == n / 16 && d == n % 16
  {
  }

  /** A text writes a number exactly when it is a string of digits with that value. */
  lemma {:induction false} WritesIff(s: string, n: nat)
    ensures Writes(s, n) <==> s != "" && (forall i :: 0 <= i < |s| ==> s[i] in HEX_DIGITS) && HexValue(s) == n
  {
    if s == "" {
    } else {
      var k := |s| - 1;
      DigitIff(s[k], n % 16);
      LastDigit(s);
      SixteenParts(HexValue(s[..k]), DigitValue(s[k]), n);
      if |s| == 1 {
        assert HexValue(s[..k]) == 0;
      } else {
        WritesIff(s[..k], n / 16);
      }
    }
  }

  /** Plain digits are read whole. */
  lemma DigitsRead(digits: string, rest: string)
    requires digits != "" && forall i :: 0 <= i < |digits| ==> digits[i] in HEX_DIGITS
    requires HexValue(digits) < SIZE_LIMIT
    requires rest == "" || (rest[0] !in HEX_DIGITS && rest[0] !in {'x', 'X'})
    ensures HexNumber(digits + rest) == (Some(HexValue(digits)), rest)
  {
    NoSign(digits, rest);
    NoPrefix(digits + rest);
    DigitsAhead(digits + rest, digits, rest);
  }

  lemma NoSign(digits: string, rest: string)
    requires digits != "" && forall i :: 0 <= i < |digits| ==> digits[i] in HEX_DIGITS
    requires rest == "" || rest[0] !in {'x', 'X'}
    ensures var s := digits + rest;
            s[0] !in {'+', '-'} && (|s| >= 2 ==> s[1] !in {'x', 'X'})
  {
  }

  lemma Halves(s: string, t: string)
    ensures (s + t)[..|s|] == s && (s + t)[|s|..] == t
  {
  }

  lemma NoPrefix(s: string)
    requires s != "" && s[0] !in {'+', '-'}
    requires |s| >= 2 ==> s[1] !in {'x', 'X'}
    ensures AfterPrefix(AfterSign(s)) == s && !("-" <= s)
  {
  }

  /**
    Any number that a `size_t` can be read from: an optional sign, an optional `0x` and digits in either case.
    A number of more than 64 bits fails, and a negative one wraps round.
   */
  lemma NumberRead(sign: string, pre: string, digits: string, n: nat, rest: string)
    requires sign in {"", "+", "-"} && pre in {"", "0x", "0X"} && Writes(digits, n)
    requires rest == "" || (rest[0] !in SMALL && rest[0] !in LARGE && rest[0] != 'x' && rest[0] != 'X')
    ensures HexNumber(sign + (pre + (digits + rest))) == (Sized(sign == "-", n), rest)
  {
    WritesIff(digits, n);
    if rest != "" {
      NotDigit(rest[0]);
    }
    Unsigned(sign, pre, digits, rest);
    DigitsAhead(sign + (pre + (digits + rest)), digits, rest);
    SizeIs(sign == "-", digits, n);
  }

  /** A 64-bit size: none when the number is too large, and the number wrapped round when it is negative. */
  ghost function Sized(neg: bool, n: nat): Option<nat> {
    if n > 0xFFFF_FFFF_FFFF_FFFF then None
    else if neg && n > 0 then Some(0x1_0000_0000_0000_0000 - n)
    else Some(n)
  }

  lemma SizeIs(neg: bool, digits: string, n: nat)
    requires digits != "" && HexValue(digits) == n
    ensures SizeValue(neg, digits) == Sized(neg, n)
  {
  }

  lemma Unsigned(sign: string, pre: string, digits: string, rest: string)
    requires sign in {"", "+", "-"} && pre in {"", "0x", "0X"}
    requires digits != "" && forall i :: 0 <= i < |digits| ==> digits[i] in HEX_DIGITS
    requires rest == "" || rest[0] !in {'x', 'X'}
    ensures AfterPrefix(AfterSign(sign + (pre + (digits + rest)))) == digits + rest
    ensures "-" <= sign + (pre + (digits + rest)) <==> sign == "-"
  {
    NoSign(digits, rest);
    PrefixDropped(sign, pre, digits + rest);
  }

  /** Without a digit there is no number; a sign and an `0x` are taken all the same. */
  lemma NoNumber(sign: string, pre: string, rest: string)
    requires sign in {"", "+", "-"} && pre in {"", "0x", "0X"}
    requires rest == "" || (rest[0] !in SMALL && rest[0] !in LARGE)
    requires sign == "" && pre == "" && rest != "" ==> rest[0] !in {'+', '-'}
    ensures HexNumber(sign + (pre + rest)) == (None, rest)
  {
    if rest != "" {
      NotDigit(rest[0]);
    }
    var t := pre + rest;
    assert pre == "" ==> t == rest;
    assert pre != "" ==> t[0] == '0' && t[1] == pre[1] && t[2..] == rest;
    assert sign == "" ==> sign + t == t;
    assert sign != "" ==> (sign + t)[0] == sign[0] && (sign + t)[1..] == t;
    assert "" + rest == rest;
    DigitsAhead(sign + t, "", rest);
  }

  lemma NotDigit(c: char)
    ensures c !in SMALL && c !in LARGE ==> c !in HEX_DIGITS && c != '0'
  {
    DigitIff(c, DigitValue(c));
    DigitNumbers(0);
  }

  lemma DigitsAhead(s: string, digits: string, rest: string)
    requires AfterPrefix(AfterSign(s)) == digits + rest
    requires forall i :: 0 <= i < |digits| ==> digits[i] in HEX_DIGITS
    requires rest == "" || rest[0] !in HEX_DIGITS
    ensures HexNumber(s) == (SizeValue("-" <= s, digits), rest)
  {
    FindFirstNotOfAt(digits, rest, HEX_DIGITS);
    Halves(digits, rest);
  }

  lemma PrefixDropped(sign: string, pre: string, u: string)
    requires sign in {"", "+", "-"} && pre in {"", "0x", "0X"}
    requires u != "" && u[0] !in {'+', '-'} && (|u| >= 2 ==> u[1] !in {'x', 'X'})
    ensures AfterPrefix(AfterSign(sign + (pre + u))) == u
    ensures "-" <= sign + (pre + u) <==> sign == "-"
  {
    var t := pre + u;
    assert pre == "" ==> t == u;
    assert pre != "" ==> t[0] == '0' && t[1] == pre[1] && t[2..] == u;
    assert sign == "" ==> sign + t == t;
    assert sign != "" ==> (sign + t)[0] == sign[0] && (sign + t)[1..] == t;
  }
}
