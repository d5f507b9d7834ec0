/** The URL-safe alphabet of section 5 of RFC 4648, with CPython's lenient decoder. */
module Base64 {
  import opened Wrappers
  import opened Bytes

  function Symbol(v: nat): (c: char)
    requires v < 64
  {
    if v < 26 then 'A' + v as char
    else if v < 52 then 'a' + (v - 26) as char
    else if v < 62 then '0' + (v - 52) as char
    else if v == 62 then '-' else '_'
  }

  // Six bits of one character; '+' and '/' still count after the translation of '-' and '_'.
  function Sextet(c: char): (r: Option<nat>)
    ensures r.Some? ==> r.value < 64
  {
    if 'A' <= c <= 'Z' then Some((c - 'A') as int)
    else if 'a' <= c <= 'z' then Some((c - 'a') as int + 26)
    else if '0' <= c <= '9' then Some((c - '0') as int + 52)
    else if c == '+' || c == '-' then Some(62)
    else if c == '/' || c == '_' then Some(63) else None
  }

  function Group(a: byte, b: byte, c: byte, rest: string): string {
    [Symbol(a / 4)] + ([Symbol(a % 4 * 16 + b / 16)] + ([Symbol(b % 16 * 4 + c / 64)] + ([Symbol(c % 64)] + rest)))
  }

  // Three bytes make four characters; a short last group is padded.
  function Encode(bytes: seq<byte>): string {
    if |bytes| == 0 then ""
    else if |bytes| == 1 then
      [Symbol(bytes[0] / 4)] + ([Symbol(bytes[0] % 4 * 16)] + "==")
    else if |bytes| == 2 then
      [Symbol(bytes[0] / 4)] + ([Symbol(bytes[0] % 4 * 16 + bytes[1] / 16)] + ([Symbol(bytes[1] % 16 * 4)] + "="))
    else Group(bytes[0], bytes[1], bytes[2], Encode(bytes[3..]))
  }

  function Prepend(b: int, rest: Option<seq<int>>): Option<seq<int>> {
    if rest.Some? then Some([b] + rest.value) else None
  }

  // quad counts the characters of the open group, left holds its unread bits, and pads counts '='
  // since the last character. Unknown characters are skipped; enough padding ends the input.
  function Scan(s: string, quad: nat, left: nat, pads: nat): Option<seq<int>>
    requires quad < 4
  {
    if |s| == 0 then if quad == 0 then Some([]) else None
    else if s[0] == '=' then
      if quad >= 2 then
        if quad + pads + 1 >= 4 then Some([]) else Scan(s[1..], quad, left, pads + 1)
      else Scan(s[1..], quad, left, pads)
    else
      match Sextet(s[0])
      case None => Scan(s[1..], quad, left, pads)
      case Some(v) =>
        if quad == 0 then Scan(s[1..], 1, v, 0)
        else if quad == 1 then Prepend(left * 4 + v / 16, Scan(s[1..], 2, v % 16, 0))
        else if quad == 2 then Prepend(left * 16 + v / 4, Scan(s[1..], 3, v % 4, 0))
        else Prepend(left * 64 + v, Scan(s[1..], 0, 0, 0))
  }

  function Decode(s: string): Option<seq<int>> { Scan(s, 0, 0, 0) }

  lemma SextetOfSymbol(v: nat)
    requires v < 64
    ensures Sextet(Symbol(v)) == Some(v) && Symbol(v) != '='
  {
  }

  lemma ScanSymbol(v: nat, rest: string, quad: nat, left: nat, pads: nat)
    requires quad < 4 && v < 64
    ensures var s := [Symbol(v)] + rest;
            Scan(s, quad, left, pads) ==
              if quad == 0 then Scan(rest, 1, v, 0)
              else if quad == 1 then Prepend(left * 4 + v / 16, Scan(rest, 2, v % 16, 0))
              else if quad == 2 then Prepend(left * 16 + v / 4, Scan(rest, 3, v % 4, 0))
              else Prepend(left * 64 + v, Scan(rest, 0, 0, 0))
  {
    var s := [Symbol(v)] + rest;
    SextetOfSymbol(v);
    assert s[0] == Symbol(v) && s[1..] == rest;
  }

  // A group's first two characters give back its first byte.
  lemma ScanFirst(a: byte, v: nat, rest: string, pads: nat)
    requires v < 16
    ensures Scan([Symbol(a / 4)] + ([Symbol(a % 4 * 16 + v)] + rest), 0, 0, pads) == Prepend(a, Scan(rest, 2, v, 0))
  {
    ScanSymbol(a / 4, [Symbol(a % 4 * 16 + v)] + rest, 0, 0, pads);
    ScanSymbol(a % 4 * 16 + v, rest, 1, a / 4, 0);
    assert a / 4 * 4 + (a % 4 * 16 + v) / 16 == a && (a % 4 * 16 + v) % 16 == v;
  }

  lemma ScanSecond(b: byte, v: nat, rest: string)
    requires v < 4
    ensures Scan([Symbol(b % 16 * 4 + v)] + rest, 2, b / 16, 0) == Prepend(b, Scan(rest, 3, v, 0))
  {
    ScanSymbol(b % 16 * 4 + v, rest, 2, b / 16, 0);
    assert b / 16 * 16 + (b % 16 * 4 + v) / 4 == b && (b % 16 * 4 + v) % 4 == v;
  }

  lemma ScanThird(c: byte, rest: string)
    ensures Scan([Symbol(c % 64)] + rest, 3, c / 64, 0) == Prepend(c, Scan(rest, 0, 0, 0))
  {
    ScanSymbol(c % 64, rest, 3, c / 64, 0);
  }

  lemma ScanGroup(a: byte, b: byte, c: byte, rest: string, pads: nat)
    ensures Scan(Group(a, b, c, rest), 0, 0, pads) == Prepend(a, Prepend(b, Prepend(c, Scan(rest, 0, 0, 0))))
  {
    var third := [Symbol(c % 64)] + rest;
    var second := [Symbol(b % 16 * 4 + c / 64)] + third;
    ScanFirst(a, b / 16, second, pads);
    ScanSecond(b, c / 64, third);
    ScanThird(c, rest);
  }

  lemma ScanLastEquals(s: string, quad: nat, pads: nat)
    requires |s| == 1 && s[0] == '=' && 2 <= quad < 4 && quad + pads + 1 >= 4
    ensures Scan(s, quad, 0, pads) == Some([])
  {
  }

  lemma ScanTwoEquals(s: string, quad: nat, pads: nat)
    requires |s| == 2 && s[0] == s[1] == '=' && quad == 2 && pads == 0
    ensures Scan(s, quad, 0, pads) == Some([])
  {
    ScanLastEquals(s[1..], quad, pads + 1);
  }

  lemma ScanOne(a: byte, equals: string, pads: nat)
    requires equals == "=="
    ensures Scan([Symbol(a / 4)] + ([Symbol(a % 4 * 16)] + equals), 0, 0, pads) == Some([a])
  {
    ScanTwoEquals(equals, 2, 0);
    ScanFirst(a, 0, equals, pads);
    assert [a] + [] == [a];
  }

  lemma ScanTwo(a: byte, b: byte, equals: string, pads: nat)
    requires equals == "="
    ensures Scan([Symbol(a / 4)] + ([Symbol(a % 4 * 16 + b / 16)] + ([Symbol(b % 16 * 4)] + equals)), 0, 0, pads) == Some([a, b])
  {
    ScanLastEquals(equals, 3, 0);
    ScanSecond(b, 0, equals);
    ScanFirst(a, b / 16, [Symbol(b % 16 * 4)] + equals, pads);
    assert [a] + ([b] + []) == [a, b];
  }

  lemma ScanShort(bytes: seq<byte>, pads: nat)
    requires 1 <= |bytes| <= 2
    ensures Scan(Encode(bytes), 0, 0, pads) == Some(bytes)
  {
    if |bytes| == 1 {
      ScanOne(bytes[0], "==", pads);
      assert bytes == [bytes[0]];
    } else {
      ScanTwo(bytes[0], bytes[1], "=", pads);
      assert bytes == [bytes[0], bytes[1]];
    }
  }

  lemma ScanLong(bytes: seq<byte>, pads: nat)
    requires |bytes| >= 3 && Scan(Encode(bytes[3..]), 0, 0, 0) == Some(bytes[3..])
    ensures Scan(Encode(bytes), 0, 0, pads) == Some(bytes)
  {
    ScanGroup(bytes[0], bytes[1], bytes[2], Encode(bytes[3..]), pads);
    assert bytes == [bytes[0]] + ([bytes[1]] + ([bytes[2]] + bytes[3..]));
  }

  /** Decoding an encoding gives the bytes back. */
  lemma {:induction false} ScanOfEncode(bytes: seq<byte>, pads: nat)
    ensures Scan(Encode(bytes), 0, 0, pads) == Some(bytes)
  {
    if |bytes| == 0 {
    } else if |bytes| <= 2 {
      ScanShort(bytes, pads);
    } else {
      ScanOfEncode(bytes[3..], 0);
      ScanLong(bytes, pads);
    }
  }

  /** Padding and alphabet: a character outside the alphabet and '=' never changes the result, so
      decoding accepts many spellings of the same bytes. */
  lemma {:induction false} UnknownSkipped(s: string, c: char, t: string, quad: nat, left: nat, pads: nat)
    requires quad < 4 && Sextet(c).None? && c != '='
    ensures Scan(s + [c] + t, quad, left, pads) == Scan(s + t, quad, left, pads)
  {
    var u := s + [c] + t;
    if |s| == 0 {
      assert u[0] == c && u[1..] == t == s + t;
    } else {
      assert u[0] == s[0] == (s + t)[0] && u[1..] == s[1..] + [c] + t && (s + t)[1..] == s[1..] + t;
      forall q: nat, l: nat, p: nat | q < 4
        ensures Scan(u[1..], q, l, p) == Scan((s + t)[1..], q, l, p)
      {
        UnknownSkipped(s[1..], c, t, q, l, p);
      }
    }
  }

  // ----- Which strings the encoder produces -----

  predicate UrlSafe(c: char) {
    'A' <= c <= 'Z' || 'a' <= c <= 'z' || '0' <= c <= '9' || c == '-' || c == '_'
  }

  // Characters of the alphabet whose last one has no bits outside the mask.
  predicate Quantum(s: string, spare: nat)
    requires |s| > 0 && spare > 0
  {
    && (forall i :: 0 <= i < |s| ==> UrlSafe(s[i]))
    && Bits(s[|s| - 1]) % spare == 0
  }

  // The value of a character, 0 outside the alphabet.
  function Bits(c: char): (v: nat)
    ensures v < 64
  {
    var r := Sextet(c);
    if r.Some? then r.value else 0
  }

  // Whole groups of four URL-safe characters; only the last may be padded, and then its unused low
  // bits are zero.
  predicate Canonical(s: string) {
    |s| == 0
    || (|s| >= 4 && Quantum(s[..4], 1) && Canonical(s[4..]))
    || (|s| == 4 && s[3] == '=' && Quantum(s[..3], 4))
    || (|s| == 4 && s[2] == s[3] == '=' && Quantum(s[..2], 16))
  }

  lemma SymbolOfBits(c: char)
    requires UrlSafe(c)
    ensures Symbol(Bits(c)) == c
  {
  }

  lemma BitsOfSymbol(v: nat)
    requires v < 64
    ensures UrlSafe(Symbol(v)) && Bits(Symbol(v)) == v
  {
  }

  // The three bytes that four values spell.
  lemma FourValues(p: nat, q: nat, r: nat, t: nat) returns (a: byte, b: byte, c: byte)
    requires p < 64 && q < 64 && r < 64 && t < 64
    ensures p == a / 4 && q == a % 4 * 16 + b / 16 && r == b % 16 * 4 + c / 64 && t == c % 64
    ensures r % 4 == 0 && t == 0 ==> c == 0
    ensures q % 16 == 0 && r == 0 ==> b == 0
  {
    a, b, c := p * 4 + q / 16, q % 16 * 16 + r / 4, r % 4 * 64 + t;
  }

  lemma FourSymbols(s: string)
    requires |s| >= 4 && Quantum(s[..4], 1)
    ensures forall i :: 0 <= i < 4 ==> Symbol(Bits(s[i])) == s[i]
  {
    forall i | 0 <= i < 4 ensures Symbol(Bits(s[i])) == s[i] {
      assert s[..4][i] == s[i];
      SymbolOfBits(s[i]);
    }
  }

  lemma GroupOfFour(s: string, bytes: seq<byte>) returns (more: seq<byte>)
    requires |s| >= 4 && Quantum(s[..4], 1) && Encode(bytes) == s[4..]
    ensures Encode(more) == s
  {
    FourSymbols(s);
    var a, b, c := FourValues(Bits(s[0]), Bits(s[1]), Bits(s[2]), Bits(s[3]));
    more := [a, b, c] + bytes;
    assert more[3..] == bytes;
    assert Group(a, b, c, s[4..]) == s;
  }

  lemma GroupOfThree(s: string) returns (bytes: seq<byte>)
    requires |s| == 4 && s[3] == '=' && Quantum(s[..3], 4)
    ensures Encode(bytes) == s
  {
    forall i | 0 <= i < 3 ensures Symbol(Bits(s[i])) == s[i] {
      assert s[..3][i] == s[i];
      SymbolOfBits(s[i]);
    }
    var a, b, c := FourValues(Bits(s[0]), Bits(s[1]), Bits(s[2]), 0);
    bytes := [a, b];
  }

  lemma GroupOfTwo(s: string) returns (bytes: seq<byte>)
    requires |s| == 4 && s[2] == s[3] == '=' && Quantum(s[..2], 16)
    ensures Encode(bytes) == s
  {
    forall i | 0 <= i < 2 ensures Symbol(Bits(s[i])) == s[i] {
      assert s[..2][i] == s[i];
      SymbolOfBits(s[i]);
    }
    var a, b, c := FourValues(Bits(s[0]), Bits(s[1]), 0, 0);
    bytes := [a];
  }

  lemma {:induction false} CanonicalIsEncoding(s: string) returns (bytes: seq<byte>)
    requires Canonical(s)
    ensures Encode(bytes) == s
  {
    if |s| == 0 {
      bytes := [];
    } else if Quantum(s[..4], 1) && Canonical(s[4..]) {
      var rest := CanonicalIsEncoding(s[4..]);
      bytes := GroupOfFour(s, rest);
    } else if s[3] == '=' && Quantum(s[..3], 4) {
      bytes := GroupOfThree(s);
    } else {
      bytes := GroupOfTwo(s);
    }
  }

  lemma GroupIsQuantum(a: byte, b: byte, c: byte, rest: string)
    ensures var s := Group(a, b, c, rest); |s| >= 4 && Quantum(s[..4], 1) && s[4..] == rest
  {
    BitsOfSymbol(a / 4);
    BitsOfSymbol(a % 4 * 16 + b / 16);
    BitsOfSymbol(b % 16 * 4 + c / 64);
    BitsOfSymbol(c % 64);
  }

  lemma TwoSymbols(p: nat, q: nat, s: string)
    requires p < 64 && q < 64 && q % 16 == 0 && s == [Symbol(p)] + ([Symbol(q)] + "==")
    ensures Canonical(s)
  {
    BitsOfSymbol(p);
    BitsOfSymbol(q);
    assert s[..2] == [Symbol(p), Symbol(q)];
    assert Quantum(s[..2], 16);
  }

  lemma ThreeSymbols(p: nat, q: nat, r: nat, s: string)
    requires p < 64 && q < 64 && r < 64 && r % 4 == 0 && s == [Symbol(p)] + ([Symbol(q)] + ([Symbol(r)] + "="))
    ensures Canonical(s)
  {
    BitsOfSymbol(p);
    BitsOfSymbol(q);
    BitsOfSymbol(r);
    assert s[..3] == [Symbol(p), Symbol(q), Symbol(r)];
    assert Quantum(s[..3], 4);
  }

  lemma OneByteIsCanonical(a: byte, bytes: seq<byte>, s: string)
    requires bytes == [a] && s == Encode(bytes)
    ensures Canonical(s)
  {
    TwoSymbols(a / 4, a % 4 * 16, s);
  }

  lemma TwoBytesAreCanonical(a: byte, b: byte, bytes: seq<byte>, s: string)
    requires bytes == [a, b] && s == Encode(bytes)
    ensures Canonical(s)
  {
    ThreeSymbols(a / 4, a % 4 * 16 + b / 16, b % 16 * 4, s);
  }

  lemma {:induction false} EncodingIsCanonical(bytes: seq<byte>)
    ensures Canonical(Encode(bytes))
  {
    if |bytes| == 0 {
    } else if |bytes| == 1 {
      OneByteIsCanonical(bytes[0], bytes, Encode(bytes));
    } else if |bytes| == 2 {
      TwoBytesAreCanonical(bytes[0], bytes[1], bytes, Encode(bytes));
    } else {
      EncodingIsCanonical(bytes[3..]);
      GroupIsQuantum(bytes[0], bytes[1], bytes[2], Encode(bytes[3..]));
    }
  }

  /** A string is canonical exactly when it decodes and encoding the result gives it back. */
  lemma CanonicalExactlyWhen(s: string)
    ensures Canonical(s) <==> exists bytes: seq<byte> :: Decode(s) == Some(bytes) && Encode(bytes) == s
  {
    if Canonical(s) {
      var own := CanonicalIsEncoding(s);
      ScanOfEncode(own, 0);
    }
    if exists bytes: seq<byte> :: Decode(s) == Some(bytes) && Encode(bytes) == s {
      var bytes: seq<byte> :| Decode(s) == Some(bytes) && Encode(bytes) == s;
      EncodingIsCanonical(bytes);
    }
  }

  // ----- The layout of RFC 4648 -----

  /** Table 2 of RFC 4648: A to Z, a to z, 0 to 9, minus and underscore, in that order. */
  lemma AlphabetInOrder(v: nat)
    requires v < 63
    ensures Symbol(0) == 'A' && Symbol(25) == 'Z' && Symbol(26) == 'a' && Symbol(51) == 'z'
    ensures Symbol(52) == '0' && Symbol(61) == '9' && Symbol(62) == '-' && Symbol(63) == '_'
    ensures v != 25 && v != 51 && v < 61 ==> Symbol(v + 1) as int == Symbol(v) as int + 1
  {
    assert v < 26 ==> v as char as int == v;
  }

  /** Four characters spell three bytes, six bits each, most significant bits first. */
  lemma GroupSpells(bytes: seq<byte>) returns (v0: nat, v1: nat, v2: nat, v3: nat)
    requires |bytes| >= 3
    ensures v0 < 64 && v1 < 64 && v2 < 64 && v3 < 64
    ensures Encode(bytes) == [Symbol(v0), Symbol(v1), Symbol(v2), Symbol(v3)] + Encode(bytes[3..])
    ensures 0x4_0000 * v0 + 0x1000 * v1 + 0x40 * v2 + v3 == 0x1_0000 * bytes[0] as int + 0x100 * bytes[1] as int + bytes[2] as int
  {
    var a: int, b: int, c: int := bytes[0], bytes[1], bytes[2];
    v0, v1, v2, v3 := a / 4, a % 4 * 16 + b / 16, b % 16 * 4 + c / 64, c % 64;
  }

  /** A last group of one or two bytes is filled up with zero bits and padded to four characters. */
  lemma TailSpells(bytes: seq<byte>) returns (v0: nat, v1: nat, v2: nat)
    requires 1 <= |bytes| <= 2
    ensures v0 < 64 && v1 < 64 && v2 < 64
    ensures |bytes| == 1 ==> Encode(bytes) == [Symbol(v0), Symbol(v1), '=', '='] && 0x40 * v0 + v1 == 0x10 * bytes[0] as int
    ensures |bytes| == 2 ==> Encode(bytes) == [Symbol(v0), Symbol(v1), Symbol(v2), '=']
    ensures |bytes| == 2 ==> 0x1000 * v0 + 0x40 * v1 + v2 == 4 * (0x100 * bytes[0] as int + bytes[1] as int)
  {
    var a: int := bytes[0];
    if |bytes| == 1 {
      v0, v1, v2 := a / 4, a % 4 * 16, 0;
    } else {
      var b: int := bytes[1];
      v0, v1, v2 := a / 4, a % 4 * 16 + b / 16, b % 16 * 4;
    }
  }
}
