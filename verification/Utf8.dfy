/** str.encode("utf-8") on Unicode scalar values, and that it loses nothing. */
module Utf8 {
  import opened Bytes

  // One code point as one to four bytes.
  function EncodeChar(c: char): (r: seq<byte>)
    ensures 1 <= |r| <= 4
  {
    var n := c as int;
    if n < 0x80 then [n]
    else if n < 0x800 then [0xC0 + n / 64, 0x80 + n % 64]
    else if n < 0x1_0000 then [0xE0 + n / 4096, 0x80 + n / 64 % 64, 0x80 + n % 64]
    else [0xF0 + n / 262144, 0x80 + n / 4096 % 64, 0x80 + n / 64 % 64, 0x80 + n % 64]
  }

  function Encode(s: string): (r: seq<byte>) {
    if s == [] then [] else EncodeChar(s[0]) + Encode(s[1..])
  }

  // How many bytes the leading byte of a code point announces.
  function Announced(lead: byte): nat {
    if lead < 0x80 then 1 else if lead < 0xE0 then 2 else if lead < 0xF0 then 3 else 4
  }

  lemma LeadingByte(c: char)
    ensures |EncodeChar(c)| == Announced(EncodeChar(c)[0])
  {
  }

  // The number a code point's bytes spell.
  function CodePoint(x: seq<byte>): int
    requires 1 <= |x| <= 4
  {
    var lead: int := x[0];
    if |x| == 1 then lead
    else
      var b1: int := x[1];
      if |x| == 2 then (lead - 0xC0) * 64 + (b1 - 0x80)
      else
        var b2: int := x[2];
        if |x| == 3 then (lead - 0xE0) * 4096 + (b1 - 0x80) * 64 + (b2 - 0x80)
        else
          var b3: int := x[3];
          (lead - 0xF0) * 262144 + (b1 - 0x80) * 4096 + (b2 - 0x80) * 64 + (b3 - 0x80)
  }

  lemma SixBitDigits(n: nat)
    ensures n == n / 64 * 64 + n % 64
    ensures n / 64 == n / 4096 * 64 + n / 64 % 64
    ensures n / 4096 == n / 262144 * 64 + n / 4096 % 64
  {
  }

  lemma CodePointOfChar(c: char)
    ensures CodePoint(EncodeChar(c)) == c as int
  {
    SixBitDigits(c as int);
  }

  predicate Continues(b: byte) { 0x80 <= b < 0xC0 }

  /** The bit layout of section 3 of RFC 3629: the leading byte says how many bytes there are, the
      others are continuation bytes, and the payload bits, most significant first, are the code point. */
  lemma CharLayout(c: char, n: int, r: seq<byte>)
    requires n == c as int && r == EncodeChar(c)
    ensures 1 <= |r| <= 4
    ensures |r| == 1 ==> n == r[0] < 0x80
    ensures |r| == 2 ==> 0x80 <= n == 0x40 * (r[0] as int - 0xC0) + (r[1] as int - 0x80)
    ensures |r| == 2 ==> 0xC0 <= r[0] < 0xE0 && Continues(r[1])
    ensures |r| == 3 ==> 0x800 <= n == 0x1000 * (r[0] as int - 0xE0) + 0x40 * (r[1] as int - 0x80) + (r[2] as int - 0x80)
    ensures |r| == 3 ==> 0xE0 <= r[0] < 0xF0 && Continues(r[1]) && Continues(r[2])
    ensures |r| == 4 ==> 0x1_0000 <= n == 0x4_0000 * (r[0] as int - 0xF0) + 0x1000 * (r[1] as int - 0x80)
                                          + 0x40 * (r[2] as int - 0x80) + (r[3] as int - 0x80)
    ensures |r| == 4 ==> 0xF0 <= r[0] < 0xF5 && Continues(r[1]) && Continues(r[2]) && Continues(r[3])
  {
    SixBitDigits(n);
  }

  lemma CharInjective(c: char, d: char)
    requires EncodeChar(c) == EncodeChar(d)
    ensures c == d
  {
    CodePointOfChar(c);
    CodePointOfChar(d);
  }

  // No code point's bytes begin with another's.
  lemma CharPrefixFree(c: char, d: char, u: seq<byte>, v: seq<byte>)
    requires EncodeChar(c) + u == EncodeChar(d) + v
    ensures c == d && u == v
  {
    var x, y := EncodeChar(c), EncodeChar(d);
    assert (x + u)[0] == x[0] && (y + v)[0] == y[0];
    LeadingByte(c);
    LeadingByte(d);
    assert x == (x + u)[..|x|] && y == (y + v)[..|y|];
    CharInjective(c, d);
    assert u == (x + u)[|x|..] && v == (y + v)[|y|..];
  }

  /** Two texts with the same bytes are the same text. */
  lemma {:induction false} EncodeInjective(s: string, t: string)
    requires Encode(s) == Encode(t)
    ensures s == t
  {
    if s != [] && t != [] {
      CharPrefixFree(s[0], t[0], Encode(s[1..]), Encode(t[1..]));
      EncodeInjective(s[1..], t[1..]);
      assert s == [s[0]] + s[1..] && t == [t[0]] + t[1..];
    }
  }
}
