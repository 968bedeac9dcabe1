/** Well-formed UTF-8, which function names on the wire are required to be
    (`str::from_utf8`, called at crates/daphne-sc-core/src/rpu_wire.rs, line 429). */
module Utf8 {
  import opened Words

  predicate Continuation(b: u8) {
    0x80 <= b < 0xC0
  }

  /** Byte by byte, as in table 3-7 of the Unicode standard. */
  predicate ValidUtf8(s: seq<u8>) {
    if s == [] then true
    else if s[0] < 0x80 then ValidUtf8(s[1..])
    else if 0xC2 <= s[0] < 0xE0 then
      |s| >= 2 && Continuation(s[1]) && ValidUtf8(s[2..])
    else if 0xE0 <= s[0] < 0xF0 then
      && |s| >= 3 && Continuation(s[1]) && Continuation(s[2])
      && (s[0] == 0xE0 ==> 0xA0 <= s[1]) && (s[0] == 0xED ==> s[1] < 0xA0)
      && ValidUtf8(s[3..])
    else if 0xF0 <= s[0] < 0xF5 then
      && |s| >= 4 && Continuation(s[1]) && Continuation(s[2]) && Continuation(s[3])
      && (s[0] == 0xF0 ==> 0x90 <= s[1]) && (s[0] == 0xF4 ==> s[1] < 0x90)
      && ValidUtf8(s[4..])
    else false
  }

  /** Code points other than surrogates. */
  predicate Scalar(c: nat) {
    c < 0xD800 || 0xE000 <= c < 0x11_0000
  }

  /** Six bits a byte, behind a first byte that says how many follow. */
  function Encoded(c: nat): (s: seq<u8>)
    requires Scalar(c)
    ensures 1 <= |s| <= 4
  {
    if c < 0x80 then [c]
    else if c < 0x800 then [0xC0 + c / 64, 0x80 + c % 64]
    else if c < 0x1_0000 then [0xE0 + c / 64 / 64, 0x80 + c / 64 % 64, 0x80 + c % 64]
    else [0xF0 + c / 64 / 64 / 64, 0x80 + c / 64 / 64 % 64, 0x80 + c / 64 % 64, 0x80 + c % 64]
  }

  predicate Scalars(cs: seq<nat>) {
    forall i :: 0 <= i < |cs| ==> Scalar(cs[i])
  }

  function EncodedString(cs: seq<nat>): seq<u8>
    requires Scalars(cs)
  {
    if cs == [] then [] else Encoded(cs[0]) + EncodedString(cs[1..])
  }

  lemma CharacterFirst(c: nat, rest: seq<u8>)
    requires Scalar(c)
    ensures ValidUtf8(Encoded(c) + rest) <==> ValidUtf8(rest)
  {
    var s := Encoded(c) + rest;
    assert s[|Encoded(c)|..] == rest;
  }

  lemma FirstCharacter(s: seq<u8>) returns (c: nat)
    requires s != [] && ValidUtf8(s)
    ensures Scalar(c) && |Encoded(c)| <= |s| && s == Encoded(c) + s[|Encoded(c)|..]
    ensures ValidUtf8(s[|Encoded(c)|..])
  {
    if s[0] < 0x80 {
      c := s[0];
    } else if s[0] < 0xE0 {
      c := Joined(s[0] - 0xC0, s[1] - 0x80);
    } else if s[0] < 0xF0 {
      c := ThreeBytes(s);
    } else {
      c := FourBytes(s);
    }
    assert Encoded(c) == s[..|Encoded(c)|];
  }

  lemma ThreeBytes(s: seq<u8>) returns (c: nat)
    requires s != [] && ValidUtf8(s) && 0xE0 <= s[0] < 0xF0
    ensures |s| >= 3 && ValidUtf8(s[3..]) && Scalar(c) && Encoded(c) == s[..3]
  {
    c := Joined(s[0] - 0xE0, s[1] - 0x80);
    c := Joined(c, s[2] - 0x80);
  }

  lemma FourBytes(s: seq<u8>) returns (c: nat)
    requires s != [] && ValidUtf8(s) && 0xF0 <= s[0]
    ensures |s| >= 4 && ValidUtf8(s[4..]) && Scalar(c) && Encoded(c) == s[..4]
  {
    c := Joined(s[0] - 0xF0, s[1] - 0x80);
    c := Joined(c, s[2] - 0x80);
    c := Joined(c, s[3] - 0x80);
  }

  lemma Joined(high: nat, low: nat) returns (c: nat)
    requires low < 64
    ensures c == 64 * high + low && c / 64 == high && c % 64 == low
  {
    c := 64 * high + low;
  }

  /** A byte string is well-formed exactly if it encodes a list of scalar
      values. */
  lemma {:induction false} ValidExactly(s: seq<u8>)
    ensures ValidUtf8(s) <==> exists cs :: Scalars(cs) && EncodedString(cs) == s
    decreases |s|
  {
    hide ValidUtf8, Encoded;
    if s == [] {
      NothingEncoded();
    } else if ValidUtf8(s) {
      var c := FirstCharacter(s);
      var rest := s[|Encoded(c)|..];
      ValidExactly(rest);
      var cs :| Scalars(cs) && EncodedString(cs) == rest;
      assert EncodedString([c] + cs) == s by {
        assert ([c] + cs)[1..] == cs;
      }
    } else {
      forall cs | Scalars(cs) && EncodedString(cs) == s ensures false {
        EncodingValid(cs);
      }
    }
  }

  lemma NothingEncoded()
    ensures ValidUtf8([]) && Scalars([]) && EncodedString([]) == []
  {}

  lemma {:induction false} EncodingValid(cs: seq<nat>)
    requires Scalars(cs)
    ensures ValidUtf8(EncodedString(cs))
  {
    hide ValidUtf8, Encoded;
    if cs == [] {
      NothingEncoded();
    } else {
      EncodingValid(cs[1..]);
      CharacterFirst(cs[0], EncodedString(cs[1..]));
    }
  }
}
