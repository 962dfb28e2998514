/** The stable uuid of an upstream decision, derived from its scope and value. */
module UpstreamUuid {
  import opened Base
  import opened Hex

  const NUL: char := '\0'
  const PREFIX: string := "upstream-capi"

  type Digest = d: seq<byte> | |d| == 20 witness seq(20, _ => 0)

  /** What is hashed. */
  function Message(scope: string, value: string): string {
    PREFIX + [NUL] + scope + [NUL] + value
  }

  /** The digest with the version and variant bits of a version 5 UUID (section 5.5 of RFC 9562) laid over it. */
  function Marked(d: Digest): (r: seq<byte>)
    ensures |r| == 20
  {
    d[6 := d[6] % 16 + 0x50][8 := d[8] % 64 + 0x80]
  }

  /** The first 16 bytes in groups of 4, 2, 2, 2 and 6. */
  function Format(b: seq<byte>): string
    requires |b| >= 16
  {
    Dashed(Encode(b[0..4]), Encode(b[4..6]), Encode(b[6..8]), Encode(b[8..10]), Encode(b[10..16]))
  }

  function Dashed(a: string, b: string, c: string, d: string, e: string): string {
    a + "-" + b + "-" + c + "-" + d + "-" + e
  }

  lemma DashedParts(a: string, b: string, c: string, d: string, e: string)
    requires |a| == 8 && |b| == 4 && |c| == 4 && |d| == 4 && |e| == 12
    ensures var s := Dashed(a, b, c, d, e);
            && |s| == 36 && s[8] == s[13] == s[18] == s[23] == '-'
            && s[0..8] == a && s[9..13] == b && s[14..18] == c && s[19..23] == d && s[24..36] == e
  {
  }

  function UuidOf(d: Digest): string {
    Format(Marked(d))
  }

  method UpstreamDecisionUUID(sha1: string -> Digest, scope: string, value: string) returns (uuid: string)
    ensures uuid == UuidOf(sha1("upstream-capi\0" + scope + "\0" + value))
    ensures |uuid| == 36 && uuid[14] == '5' && uuid[19] in "89ab"
    ensures uuid[8] == uuid[13] == uuid[18] == uuid[23] == '-'
  {
    var digest: seq<byte> := sha1("upstream-capi\0" + scope + "\0" + value);
    assert "upstream-capi\0" + scope + "\0" + value == Message(scope, value);
    var h := new byte[20](i requires 0 <= i < 20 => digest[i]);
    assert h[..] == digest;
    h[6] := h[6] % 16 + 0x50;
    h[8] := h[8] % 64 + 0x80;
    assert h[..] == Marked(digest);
    assert digest == sha1("upstream-capi\0" + scope + "\0" + value);
    uuid := Dashed(Encode(h[0..4]), Encode(h[4..6]), Encode(h[6..8]), Encode(h[8..10]), Encode(h[10..16]));
    assert h[0..4] == h[..][0..4] && h[4..6] == h[..][4..6] && h[6..8] == h[..][6..8];
    assert h[8..10] == h[..][8..10] && h[10..16] == h[..][10..16];
    Shape(digest);
  }

  lemma Shape(d: Digest)
    ensures var u := UuidOf(d);
            && |u| == 36 && u[8] == u[13] == u[18] == u[23] == '-' && u[14] == '5' && u[19] in "89ab"
  {
    var m := Marked(d);
    DashedParts(Encode(m[0..4]), Encode(m[4..6]), Encode(m[6..8]), Encode(m[8..10]), Encode(m[10..16]));
    EncodeDigits(m[6..8], 0);
    EncodeDigits(m[8..10], 0);
    var u := UuidOf(d);
    assert u[14] == u[14..18][0] == "0123456789abcdef"[m[6] / 16] && m[6] / 16 == 5;
    assert u[19] == u[19..23][0] == "0123456789abcdef"[m[8] / 16] && 8 <= m[8] / 16 <= 11;
  }

  /** The text without its dashes. */
  function Undashed(u: string): string
    requires |u| == 36
  {
    u[0..8] + u[9..13] + u[14..18] + u[19..23] + u[24..36]
  }

  lemma {:induction false} EncodeConcat(a: seq<byte>, b: seq<byte>)
    ensures Encode(a + b) == Encode(a) + Encode(b)
  {
    if a == [] {
      assert a + b == b;
    } else {
      EncodeConcat(a[1..], b);
      assert (a + b)[0] == a[0] && (a + b)[1..] == a[1..] + b;
      Associate([Digit(a[0] / 16), Digit(a[0] % 16)], Encode(a[1..]), Encode(b));
    }
  }

  lemma Associate(a: string, b: string, c: string)
    ensures a + (b + c) == a + b + c
  {
  }

  lemma UndashedFormat(b: seq<byte>)
    requires |b| >= 16
    ensures |Format(b)| == 36 && Undashed(Format(b)) == Encode(b[..16])
  {
    var b1, b2, b3, b4, b5 := b[0..4], b[4..6], b[6..8], b[8..10], b[10..16];
    DashedParts(Encode(b1), Encode(b2), Encode(b3), Encode(b4), Encode(b5));
    EncodeConcat(b1 + b2 + b3 + b4, b5);
    EncodeConcat(b1 + b2 + b3, b4);
    EncodeConcat(b1 + b2, b3);
    EncodeConcat(b1, b2);
    Regrouped(b);
  }

  /** The text spells the first 16 bytes of the digest, but for the version in byte 6 and the variant in byte 8. */
  lemma UuidSpellsDigest(d: Digest)
    ensures |UuidOf(d)| == 36 && Decode(Undashed(UuidOf(d))).Ok?
    ensures var b := Decode(Undashed(UuidOf(d))).value;
            && |b| == 16 && (forall i :: 0 <= i < 16 && i != 6 && i != 8 ==> b[i] == d[i])
            && b[6] / 16 == 5 && b[6] % 16 == d[6] % 16
            && b[8] / 64 == 2 && b[8] % 64 == d[8] % 64
  {
    UndashedFormat(Marked(d));
    RoundTrip(Marked(d)[..16]);
  }

  lemma DashedInjective(p: seq<string>, q: seq<string>)
    requires |p| == 5 && |p[0]| == 8 && |p[1]| == |p[2]| == |p[3]| == 4 && |p[4]| == 12
    requires |q| == 5 && |q[0]| == 8 && |q[1]| == |q[2]| == |q[3]| == 4 && |q[4]| == 12
    requires Dashed(p[0], p[1], p[2], p[3], p[4]) == Dashed(q[0], q[1], q[2], q[3], q[4])
    ensures p[0] == q[0] && p[1] == q[1] && p[2] == q[2] && p[3] == q[3] && p[4] == q[4]
  {
    DashedParts(p[0], p[1], p[2], p[3], p[4]);
    DashedParts(q[0], q[1], q[2], q[3], q[4]);
  }

  lemma Regrouped(b: seq<byte>)
    requires |b| >= 16
    ensures b[..16] == b[0..4] + b[4..6] + b[6..8] + b[8..10] + b[10..16]
  {
  }

  /** The text determines the 16 bytes. */
  lemma FormatInjective(a: seq<byte>, b: seq<byte>)
    requires |a| >= 16 && |b| >= 16 && Format(a) == Format(b)
    ensures a[..16] == b[..16]
  {
    var a1, a2, a3, a4, a5 := a[0..4], a[4..6], a[6..8], a[8..10], a[10..16];
    var b1, b2, b3, b4, b5 := b[0..4], b[4..6], b[6..8], b[8..10], b[10..16];
    DashedInjective([Encode(a1), Encode(a2), Encode(a3), Encode(a4), Encode(a5)],
                    [Encode(b1), Encode(b2), Encode(b3), Encode(b4), Encode(b5)]);
    EncodeInjective(a1, b1);
    EncodeInjective(a2, b2);
    EncodeInjective(a3, b3);
    EncodeInjective(a4, b4);
    EncodeInjective(a5, b5);
    Regrouped(a);
    Regrouped(b);
  }

  /** The hashed message is unambiguous on scopes without NUL, whatever the values. */
  lemma MessageInjective(s: string, v: string, s': string, v': string)
    requires NUL !in s && NUL !in s'
    requires Message(s, v) == Message(s', v')
    ensures s == s' && v == v'
  {
    var k := |PREFIX| + 1;
    var m := Message(s, v);
    assert m[k..] == s + [NUL] + v == s' + [NUL] + v';
    var w := m[k..];
    assert w[|s|] == NUL && w[|s'|] == NUL;
    assert forall i :: 0 <= i < |s| ==> w[i] == s[i];
    assert forall i :: 0 <= i < |s'| ==> w[i] == s'[i];
    assert s == m[k..k + |s|] == s';
    assert v == m[k + |s| + 1..] == v';
  }

  /** A NUL in the scope makes two different targets share a message, and hence a uuid. */
  lemma NulIsAmbiguous(s: string, t: string, v: string)
    ensures Message(s + [NUL] + t, v) == Message(s, t + [NUL] + v)
    ensures (s + [NUL] + t, v) != (s, t + [NUL] + v)
  {
    assert Message(s + [NUL] + t, v) == Message(s, t + [NUL] + v);
  }

  /** The digests of two messages collide where it matters: in what becomes of the first 16 bytes. */
  ghost predicate Collide(sha1: string -> Digest, m: string, n: string) {
    m != n && Marked(sha1(m))[..16] == Marked(sha1(n))[..16]
  }

  /** Two targets share a uuid only if they are the same target or their digests collide. */
  lemma UuidsDistinguish(sha1: string -> Digest, s: string, v: string, s': string, v': string)
    requires NUL !in s && NUL !in s'
    requires UuidOf(sha1(Message(s, v))) == UuidOf(sha1(Message(s', v')))
    ensures (s == s' && v == v') || Collide(sha1, Message(s, v), Message(s', v'))
  {
    FormatInjective(Marked(sha1(Message(s, v))), Marked(sha1(Message(s', v'))));
    if Message(s, v) == Message(s', v') {
      MessageInjective(s, v, s', v');
    }
  }
}
