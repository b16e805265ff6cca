/** Well-formed UTF-8 byte sequences, as `core::str::from_utf8` accepts them. */
module Utf8 {
  import opened Arithmetic

  predicate Continuation(b: byte) {
    0x80 <= b <= 0xBF
  }

  // Length of the well-formed sequence that `s` begins with, or 0.
  function HeadLength(s: seq<byte>): (n: nat)
    ensures n <= 4 && n <= |s|
  {
    if |s| >= 1 && s[0] <= 0x7F then 1
    else if |s| >= 2 && 0xC2 <= s[0] <= 0xDF && Continuation(s[1]) then 2
    else if |s| >= 3 && 0xE0 <= s[0] <= 0xEF && Continuation(s[1]) && Continuation(s[2])
      && (s[0] == 0xE0 ==> s[1] >= 0xA0) && (s[0] == 0xED ==> s[1] <= 0x9F) then 3
    else if |s| >= 4 && 0xF0 <= s[0] <= 0xF4
      && Continuation(s[1]) && Continuation(s[2]) && Continuation(s[3])
      && (s[0] == 0xF0 ==> s[1] >= 0x90) && (s[0] == 0xF4 ==> s[1] <= 0x8F) then 4
    else 0
  }

  predicate Valid(s: seq<byte>)
    decreases |s|
  {
    s == [] || (HeadLength(s) > 0 && Valid(s[HeadLength(s)..]))
  }

  // ------------------------------------------------------------- the encoding of RFC 3629

  // A Unicode scalar value: a code point that is not a surrogate.
  predicate Scalar(c: nat) {
    c < 0xD800 || 0xE000 <= c < 0x110000
  }

  // Its bytes, by the table of section 3 of RFC 3629.
  function Encoded(c: nat): (s: seq<byte>)
    requires Scalar(c)
  {
    if c < 0x80 then [c]
    else if c < 0x800 then [0xC0 + c / 64, 0x80 + c % 64]
    else if c < 0x10000 then [0xE0 + c / 4096, 0x80 + c / 64 % 64, 0x80 + c % 64]
    else [0xF0 + c / 262144, 0x80 + c / 4096 % 64, 0x80 + c / 64 % 64, 0x80 + c % 64]
  }

  function EncodedAll(cs: seq<nat>): (s: seq<byte>)
    requires forall i :: 0 <= i < |cs| ==> Scalar(cs[i])
  {
    if cs == [] then [] else Encoded(cs[0]) + EncodedAll(cs[1..])
  }

  // Six bits at a time.
  lemma Sextets(a: nat, x: nat, y: nat, z: nat)
    requires x < 64 && y < 64 && z < 64
    ensures
      var c := a * 262144 + x * 4096 + y * 64 + z;
      c / 262144 == a && c / 4096 == a * 64 + x && c / 64 == a * 4096 + x * 64 + y && c % 64 == z
  {
  }

  lemma EncodedHead(c: nat)
    requires Scalar(c)
    ensures HeadLength(Encoded(c)) == |Encoded(c)| > 0
  {
    hide HeadLength;
    if c < 0x800 {
      EncodedShort(c);
    } else if c < 0x10000 {
      Parts(c);
      EncodedThree(c, c / 4096, c / 64 % 64, c % 64);
    } else {
      Parts(c);
      EncodedFour(c, c / 262144, c / 4096 % 64, c / 64 % 64, c % 64);
    }
  }

  lemma Parts(c: nat)
    ensures c == c / 4096 * 4096 + c / 64 % 64 * 64 + c % 64
    ensures c == c / 262144 * 262144 + c / 4096 % 64 * 4096 + c / 64 % 64 * 64 + c % 64
  {
    assert c / 4096 == c / 64 / 64 && c / 262144 == c / 4096 / 64;
  }

  lemma EncodedShort(c: nat)
    requires c < 0x800
    ensures HeadLength(Encoded(c)) == |Encoded(c)| > 0
  {
  }

  lemma EncodedThree(c: nat, x: nat, y: nat, z: nat)
    requires Scalar(c) && 0x800 <= c < 0x10000 && y < 64 && z < 64 && c == x * 4096 + y * 64 + z
    ensures x < 16 && HeadLength([0xE0 + x, 0x80 + y, 0x80 + z]) == 3
  {
  }

  lemma EncodedFour(c: nat, a: nat, x: nat, y: nat, z: nat)
    requires 0x10000 <= c < 0x110000 && x < 64 && y < 64 && z < 64 && c == a * 262144 + x * 4096 + y * 64 + z
    ensures a < 5 && HeadLength([0xF0 + a, 0x80 + x, 0x80 + y, 0x80 + z]) == 4
  {
  }

  lemma SameHead(s: seq<byte>, t: seq<byte>)
    requires s <= t && HeadLength(s) == |s| > 0
    ensures HeadLength(t) == |s|
  {
    assert forall i :: 0 <= i < |s| ==> t[i] == s[i];
  }

  lemma HeadIsEncoded(c: nat, rest: seq<byte>)
    requires Scalar(c)
    ensures HeadLength(Encoded(c) + rest) == |Encoded(c)|
  {
    hide HeadLength, Encoded;
    EncodedHead(c);
    SameHead(Encoded(c), Encoded(c) + rest);
  }

  // The scalar value whose encoding `s` begins with, by the length of that encoding.
  lemma HeadDecoded(s: seq<byte>) returns (c: nat)
    requires HeadLength(s) > 0
    ensures Scalar(c) && Encoded(c) == s[..HeadLength(s)]
  {
    if HeadLength(s) == 1 {
      c := s[0];
    } else if HeadLength(s) == 2 {
      c := TwoDecoded(s);
    } else if HeadLength(s) == 3 {
      c := ThreeDecoded(s);
    } else {
      c := FourDecoded(s);
    }
  }

  lemma TwoDecoded(s: seq<byte>) returns (c: nat)
    requires HeadLength(s) == 2
    ensures Scalar(c) && Encoded(c) == s[..2]
  {
    var b, z: nat := s[0] as int - 0xC0, s[1] as int - 0x80;
    c := b * 64 + z;
  }

  lemma ThreeDecoded(s: seq<byte>) returns (c: nat)
    requires HeadLength(s) == 3
    ensures Scalar(c) && Encoded(c) == s[..3]
  {
    var x, y, z: nat := s[0] as int - 0xE0, s[1] as int - 0x80, s[2] as int - 0x80;
    c := x * 4096 + y * 64 + z;
    Sextets(0, x, y, z);
  }

  lemma FourDecoded(s: seq<byte>) returns (c: nat)
    requires HeadLength(s) == 4
    ensures Scalar(c) && Encoded(c) == s[..4]
  {
    var a, x, y, z: nat := s[0] as int - 0xF0, s[1] as int - 0x80, s[2] as int - 0x80, s[3] as int - 0x80;
    c := a * 262144 + x * 4096 + y * 64 + z;
    Sextets(a, x, y, z);
  }

  /** Every encoding is accepted. */
  lemma {:induction false} EncodedIsValid(cs: seq<nat>)
    requires forall i :: 0 <= i < |cs| ==> Scalar(cs[i])
    ensures Valid(EncodedAll(cs))
  {
    if cs != [] {
      var rest := EncodedAll(cs[1..]);
      HeadIsEncoded(cs[0], rest);
      EncodedIsValid(cs[1..]);
      hide HeadLength, Encoded;
      assert (Encoded(cs[0]) + rest)[|Encoded(cs[0])|..] == rest;
    }
  }

  /** Whatever is accepted is the encoding of some scalar values. */
  lemma {:induction false} ValidIsEncoded(s: seq<byte>) returns (cs: seq<nat>)
    requires Valid(s)
    ensures forall i :: 0 <= i < |cs| ==> Scalar(cs[i])
    ensures EncodedAll(cs) == s
    decreases |s|
  {
    hide HeadLength, Encoded, Scalar;
    cs := [];
    if s != [] {
      var c := HeadDecoded(s);
      var rest := ValidIsEncoded(s[HeadLength(s)..]);
      cs := [c] + rest;
      assert cs[1..] == rest;
      assert s == s[..HeadLength(s)] + s[HeadLength(s)..];
    }
  }
}
