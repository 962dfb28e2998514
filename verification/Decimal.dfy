/** Decimal integers as strconv.FormatInt and strconv.ParseInt (base 10, 64 bits) write and read them. */
module Decimal {
  import opened Base

  const MIN_INT64: int := -0x8000_0000_0000_0000
  const MAX_INT64: int := 0x7fff_ffff_ffff_ffff

  predicate IsDigit(c: char) {
    '0' <= c <= '9'
  }

  function DigitChar(n: nat): (c: char)
    requires n < 10
    ensures IsDigit(c) && DigitValue(c) == n && c == "0123456789"[n]
  {
    '0' + n as char
  }

  function DigitValue(c: char): (n: nat)
    requires IsDigit(c)
    ensures n < 10
  {
    c as nat - '0' as nat
  }

  function FormatNat(n: nat): (s: string)
    ensures s != "" && forall i :: 0 <= i < |s| ==> IsDigit(s[i])
  {
    if n < 10 then [DigitChar(n)] else FormatNat(n / 10) + [DigitChar(n % 10)]
  }

  function FormatInt(n: int): (s: string)
    ensures s != "" && forall i :: 0 <= i < |s| ==> IsDigit(s[i]) || s[i] == '-'
  {
    if n < 0 then "-" + FormatNat(-n) else FormatNat(n)
  }

  /** The value of a string of digits; leading zeros are read. */
  function ParseDigits(s: string): Option<nat> {
    if s == "" then Some(0)
    else
      var c := s[|s| - 1];
      match ParseDigits(s[..|s| - 1])
      case None => None
      case Some(n) => if IsDigit(c) then Some(10 * n + DigitValue(c)) else None
  }

  function ParseInt(s: string): (r: Option<int>)
    ensures r.Some? ==> MIN_INT64 <= r.value <= MAX_INT64
  {
    var signed := s != "" && (s[0] == '-' || s[0] == '+');
    var digits := if signed then s[1..] else s;
    if digits == "" then None
    else
      match ParseDigits(digits)
      case None => None
      case Some(n) =>
        var m: int := n;
        var v := if signed && s[0] == '-' then -m else m;
        if MIN_INT64 <= v <= MAX_INT64 then Some(v) else None
  }

  function Pow10(i: nat): (p: nat)
    ensures p > 0
  {
    if i == 0 then 1 else 10 * Pow10(i - 1)
  }

  /** A number without its last i digits. */
  function Shifted(n: nat, i: nat): nat {
    if i == 0 then n else Shifted(n / 10, i - 1)
  }

  /** Dividing by ten i times divides by ten to the i. */
  lemma {:induction false} ShiftedRange(n: nat, i: nat)
    ensures Pow10(i) * Shifted(n, i) <= n < Pow10(i) * (Shifted(n, i) + 1)
  {
    if i > 0 {
      ShiftedRange(n / 10, i - 1);
      TenTimes(Pow10(i - 1), Shifted(n / 10, i - 1), n);
    }
  }

  lemma TenTimes(p: nat, q: nat, n: nat)
    requires p * q <= n / 10 < p * (q + 1)
    ensures (10 * p) * q <= n < (10 * p) * (q + 1)
  {
    Scaled(p, q);
    Scaled(p, q + 1);
  }

  lemma Scaled(p: nat, q: nat)
    ensures (10 * p) * q == 10 * (p * q)
  {
  }

  /** The i-th digit from the right is the one that stands for 10 to the i. */
  lemma {:induction false} DigitAt(n: nat, i: nat)
    requires i < |FormatNat(n)|
    ensures FormatNat(n)[|FormatNat(n)| - 1 - i] == "0123456789"[Shifted(n, i) % 10]
    decreases i
  {
    if n >= 10 && i > 0 {
      DigitAt(n / 10, i - 1);
    }
  }

  /** There are as many digits as the number needs: no leading zero, unless the number is zero. */
  lemma {:induction false} DigitCount(n: nat)
    ensures n < Pow10(|FormatNat(n)|) && (n > 0 ==> Pow10(|FormatNat(n)| - 1) <= n)
  {
    if n >= 10 {
      DigitCount(n / 10);
    }
  }

  function Zeros(k: nat): string {
    seq(k, _ => '0')
  }

  /** Exactly the strings of digits are read. */
  lemma {:induction false} DigitsParse(s: string)
    ensures ParseDigits(s).Some? <==> forall i :: 0 <= i < |s| ==> '0' <= s[i] <= '9'
  {
    if s != "" {
      var m := |s| - 1;
      DigitsParse(s[..m]);
      assert forall i :: 0 <= i < m ==> s[i] == s[..m][i];
    }
  }

  /** They are read as the number they spell, after leading zeros. */
  lemma {:induction false} ParseDigitsReads(s: string)
    requires s != "" && ParseDigits(s).Some?
    ensures var f := FormatNat(ParseDigits(s).value); |f| <= |s| && s == Zeros(|s| - |f|) + f
  {
    var m := |s| - 1;
    if m == 0 {
      OneDigit(s);
    } else {
      ParseDigitsReads(s[..m]);
      SpelledOn(s, ParseDigits(s[..m]).value, DigitValue(s[m]));
    }
  }

  lemma OneDigit(s: string)
    requires |s| == 1 && ParseDigits(s).Some?
    ensures FormatNat(ParseDigits(s).value) == s
  {
    assert s[..0] == "" && s == [s[0]];
  }

  lemma Appended(n: nat, d: nat)
    requires d < 10
    ensures FormatNat(10 * n + d) == if n > 0 then FormatNat(n) + [DigitChar(d)] else [DigitChar(d)]
  {
  }

  lemma SpelledOn(s: string, n: nat, d: nat)
    requires |s| >= 2 && d < 10 && s[|s| - 1] == DigitChar(d)
    requires var f := FormatNat(n); |f| < |s| && s[..|s| - 1] == Zeros(|s| - 1 - |f|) + f
    ensures var f := FormatNat(10 * n + d); |f| <= |s| && s == Zeros(|s| - |f|) + f
  {
    var m, f := |s| - 1, FormatNat(n);
    Appended(n, d);
    if n > 0 {
      Extended(s, Zeros(m - |f|), f, DigitChar(d));
    } else {
      assert f == ['0'];
      ZerosSnoc(m - 1);
      Extended(s, Zeros(m), [], DigitChar(d));
    }
  }

  lemma ZerosSnoc(k: nat)
    ensures Zeros(k) + ['0'] == Zeros(k + 1)
  {
  }

  lemma Extended(s: string, z: string, f: string, c: char)
    requires s != "" && s[..|s| - 1] == z + f && s[|s| - 1] == c
    ensures s == z + (f + [c])
  {
  }

  /** What is read as an integer: an optional sign, then digits, if the number fits into 64 bits. */
  lemma ParseIntReads(digits: string)
    requires digits != "" && forall i :: 0 <= i < |digits| ==> '0' <= digits[i] <= '9'
    ensures ParseDigits(digits).Some?
    ensures var n := ParseDigits(digits).value;
            && ParseInt(digits) == (if n <= 0x7fff_ffff_ffff_ffff then Some(n) else None)
            && ParseInt("+" + digits) == ParseInt(digits)
            && ParseInt("-" + digits) == (if n <= 0x8000_0000_0000_0000 then Some(-(n as int)) else None)
  {
    DigitsParse(digits);
    assert digits[0] != '-' && digits[0] != '+';
    SignRead('+', digits);
    SignRead('-', digits);
  }

  lemma SignRead(sign: char, digits: string)
    requires digits != "" && (sign == '-' || sign == '+') && ParseDigits(digits).Some?
    ensures var n: int := ParseDigits(digits).value;
            var v := if sign == '-' then -n else n;
            ParseInt([sign] + digits) == if MIN_INT64 <= v <= MAX_INT64 then Some(v) else None
  {
    var s := [sign] + digits;
    assert s[0] == sign && s[1..] == digits;
  }

  /** Nothing else is. */
  lemma ParseIntRejects(s: string)
    requires ParseInt(s).Some?
    ensures var digits := if s != "" && (s[0] == '-' || s[0] == '+') then s[1..] else s;
            digits != "" && forall i :: 0 <= i < |digits| ==> '0' <= digits[i] <= '9'
  {
    DigitsParse(if s != "" && (s[0] == '-' || s[0] == '+') then s[1..] else s);
  }

  lemma {:induction false} ParseFormatNat(n: nat)
    ensures ParseDigits(FormatNat(n)) == Some(n)
  {
    var s := FormatNat(n);
    if n < 10 {
      assert s[..0] == "";
    } else {
      ParseFormatNat(n / 10);
      assert s[..|s| - 1] == FormatNat(n / 10);
    }
  }

  /** Parsing undoes printing, for every 64-bit integer; nothing wider is accepted. */
  lemma ParseFormatInt(n: int)
    ensures ParseInt(FormatInt(n)) == if -0x8000_0000_0000_0000 <= n <= 0x7fff_ffff_ffff_ffff then Some(n) else None
  {
    var s := FormatInt(n);
    if n < 0 {
      ParseFormatNat(-n);
      assert s[1..] == FormatNat(-n);
    } else {
      ParseFormatNat(n);
      assert IsDigit(s[0]);
    }
  }

  lemma FormatIntInjective(a: int, b: int)
    requires FormatInt(a) == FormatInt(b)
    ensures a == b
  {
    assert a < 0 <==> FormatInt(a)[0] == '-';
    assert b < 0 <==> FormatInt(b)[0] == '-';
    var x, y := if a < 0 then -a else a, if b < 0 then -b else b;
    if a < 0 {
      assert FormatNat(x) == FormatInt(a)[1..] == FormatNat(y);
    }
    ParseFormatNat(x);
    ParseFormatNat(y);
  }
}
