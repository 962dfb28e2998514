/** Hexadecimal text, as encoding/hex writes and reads it. */
module Hex {
  import opened Base

  type byte = b: nat | b < 256

  function Digit(n: nat): (c: char)
    requires n < 16
    ensures Value(c) == Some(n) && c == "0123456789abcdef"[n]
  {
    if n < 10 then '0' + n as char else 'a' + (n - 10) as char
  }

  predicate IsDigit(c: char) {
    '0' <= c <= '9' || 'a' <= c <= 'f' || 'A' <= c <= 'F'
  }

  /** Upper-case digits are read too. */
  function Value(c: char): (v: Option<nat>)
    ensures v.Some? ==> v.value < 16
    ensures v.Some? <==> IsDigit(c)
  {
    if '0' <= c <= '9' then Some(c as nat - '0' as nat)
    else if 'a' <= c <= 'f' then Some(c as nat - 'a' as nat + 10)
    else if 'A' <= c <= 'F' then Some(c as nat - 'A' as nat + 10)
    else None
  }

  /** Exactly the digits of both cases have a value, and it is their place in the alphabet. */
  lemma ValueIs(c: char)
    ensures Value(c).Some? <==> c in "0123456789abcdefABCDEF"
    ensures Value(c).Some? ==> c == "0123456789abcdef"[Value(c).value] || c == "0123456789ABCDEF"[Value(c).value]
  {
    var alphabet := "0123456789abcdefABCDEF";
    if Value(c).Some? {
      var v := Value(c).value;
      assert alphabet[v] == c || alphabet[v + 6] == c;
    }
  }

  function Encode(bs: seq<byte>): (s: string)
    ensures |s| == 2 * |bs|
  {
    if bs == [] then [] else [Digit(bs[0] / 16), Digit(bs[0] % 16)] + Encode(bs[1..])
  }

  datatype DecodeError = InvalidByte | OddLength

  function Decode(s: string): Result<seq<byte>, DecodeError> {
    if s == "" then Ok([])
    else if |s| == 1 then Err(if Value(s[0]).None? then InvalidByte else OddLength)
    else if Value(s[0]).None? || Value(s[1]).None? then Err(InvalidByte)
    else
      match Decode(s[2..])
      case Err(e) => Err(e)
      case Ok(bs) => Ok([Value(s[0]).value * 16 + Value(s[1]).value as byte] + bs)
  }

  /** What each error means: the first character that is no digit decides, unless it is only a digit that is missing. */
  lemma {:induction false} DecodeErrors(s: string)
    ensures Decode(s) == Err(InvalidByte) <==> exists i :: 0 <= i < |s| && !IsDigit(s[i])
    ensures Decode(s) == Err(OddLength) <==>
              |s| % 2 == 1 && forall i :: 0 <= i < |s| ==> IsDigit(s[i])
  {
    if |s| >= 2 {
      DecodeErrors(s[2..]);
      assert forall i :: 2 <= i < |s| ==> s[i] == s[2..][i - 2];
      assert forall i :: 0 <= i < |s[2..]| ==> s[2..][i] == s[i + 2];
    }
  }

  /** Decoding undoes encoding, for all byte strings. */
  lemma {:induction false} RoundTrip(bs: seq<byte>)
    ensures Decode(Encode(bs)) == Ok(bs)
  {
    if bs != [] {
      RoundTrip(bs[1..]);
      DecodePair(bs[0], Encode(bs[1..]));
      assert [bs[0]] + bs[1..] == bs;
    }
  }

  lemma DecodePair(b: byte, rest: string)
    requires Decode(rest).Ok?
    ensures Decode([Digit(b / 16), Digit(b % 16)] + rest) == Ok([b] + Decode(rest).value)
  {
    var s := [Digit(b / 16), Digit(b % 16)] + rest;
    assert b / 16 * 16 + b % 16 == b;
    assert s[0] == Digit(b / 16) && s[1] == Digit(b % 16) && s[2..] == rest;
  }

  lemma EncodeInjective(a: seq<byte>, b: seq<byte>)
    requires Encode(a) == Encode(b)
    ensures a == b
  {
    RoundTrip(a);
    RoundTrip(b);
  }

  /** What decodes at all: an even number of hexadecimal digits. */
  lemma {:induction false} DecodesIff(s: string)
    ensures Decode(s).Ok? <==> |s| % 2 == 0 && forall i :: 0 <= i < |s| ==> IsDigit(s[i])
  {
    if |s| >= 2 {
      DecodesIff(s[2..]);
      assert forall i :: 2 <= i < |s| ==> s[i] == s[2..][i - 2];
    }
  }

  /** Each byte becomes two lower-case digits, the high one first. */
  lemma {:induction false} EncodeDigits(bs: seq<byte>, i: nat)
    requires i < 2 * |bs|
    ensures Encode(bs)[i] == "0123456789abcdef"[if i % 2 == 0 then bs[i / 2] / 16 else bs[i / 2] % 16]
  {
    var pair := [Digit(bs[0] / 16), Digit(bs[0] % 16)];
    assert Encode(bs) == pair + Encode(bs[1..]);
    if i >= 2 {
      EncodeDigits(bs[1..], i - 2);
      assert Encode(bs)[i] == Encode(bs[1..])[i - 2] && bs[1..][(i - 2) / 2] == bs[i / 2];
    }
  }
}
