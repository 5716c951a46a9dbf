/** Which byte sequences are strings: exactly the UTF-8 spellings of Unicode scalar values, as
    section 3 of RFC 3629 writes them. */
module UniffiUtf8 {
  import opened UniffiCodec

  /** Code points up to 10FFFF that are no surrogates. */
  predicate IsScalar(c: nat) { c <= 0x10_FFFF && !(0xD800 <= c <= 0xDFFF) }

  /** One to four bytes: the lead byte and six bits in each byte behind it. */
  function ScalarBytes(c: nat): seq<byte>
    requires IsScalar(c)
  {
    if c < 0x80 then [c]
    else if c < 0x800 then [0xC0 + c / 64, 0x80 + c % 64]
    else if c < 0x1_0000 then [0xE0 + c / 4096, 0x80 + c / 64 % 64, 0x80 + c % 64]
    else [0xF0 + c / 0x4_0000, 0x80 + c / 4096 % 64, 0x80 + c / 64 % 64, 0x80 + c % 64]
  }

  predicate AllScalars(cs: seq<nat>) { forall i :: 0 <= i < |cs| ==> IsScalar(cs[i]) }

  function Spelled(cs: seq<nat>): seq<byte>
    requires AllScalars(cs)
  {
    if cs == [] then [] else ScalarBytes(cs[0]) + Spelled(cs[1..])
  }

  lemma ShortScalarFirst(c: nat, rest: seq<byte>)
    requires IsScalar(c) && c < 0x800
    ensures ValidUtf8(ScalarBytes(c) + rest) <==> ValidUtf8(rest)
  {
    var s := ScalarBytes(c) + rest;
    if c < 0x80 {
      assert s[0] == c && s[1..] == rest;
    } else {
      assert s[0] == 0xC0 + c / 64 && s[1] == 0x80 + c % 64 && s[2..] == rest;
    }
  }

  lemma ThreeByteScalarFirst(c: nat, rest: seq<byte>)
    requires IsScalar(c) && 0x800 <= c < 0x1_0000
    ensures ValidUtf8(ScalarBytes(c) + rest) <==> ValidUtf8(rest)
  {
    var s := ScalarBytes(c) + rest;
    assert s[0] == 0xE0 + c / 4096 && s[1] == 0x80 + c / 64 % 64 && s[2] == 0x80 + c % 64 && s[3..] == rest;
  }

  lemma FourByteScalarFirst(c: nat, rest: seq<byte>)
    requires IsScalar(c) && 0x1_0000 <= c
    ensures ValidUtf8(ScalarBytes(c) + rest) <==> ValidUtf8(rest)
  {
    var s := ScalarBytes(c) + rest;
    assert s[0] == 0xF0 + c / 0x4_0000 && s[1] == 0x80 + c / 4096 % 64;
    assert s[2] == 0x80 + c / 64 % 64 && s[3] == 0x80 + c % 64 && s[4..] == rest;
  }

  lemma {:induction false} SpelledIsValid(cs: seq<nat>)
    requires AllScalars(cs)
    ensures ValidUtf8(Spelled(cs))
  {
    if cs != [] {
      var c, rest := cs[0], Spelled(cs[1..]);
      SpelledIsValid(cs[1..]);
      hide ValidUtf8, ScalarBytes;
      if c < 0x800 {
        ShortScalarFirst(c, rest);
      } else if c < 0x1_0000 {
        ThreeByteScalarFirst(c, rest);
      } else {
        FourByteScalarFirst(c, rest);
      }
    }
  }

  /** The scalar value the first bytes spell. */
  lemma FirstShort(s: seq<byte>) returns (c: nat, n: nat)
    requires s != [] && ValidUtf8(s) && s[0] < 0xE0
    ensures IsScalar(c) && 0 < n <= |s| && ScalarBytes(c) == s[..n] && ValidUtf8(s[n..])
  {
    if s[0] <= 0x7F {
      c, n := s[0], 1;
    } else {
      var a: nat, b: nat := s[0] - 0xC0, s[1] - 0x80;
      c, n := a * 64 + b, 2;
    }
  }

  lemma FirstOfThree(s: seq<byte>) returns (c: nat, n: nat)
    requires s != [] && ValidUtf8(s) && 0xE0 <= s[0] < 0xF0
    ensures IsScalar(c) && 0 < n <= |s| && ScalarBytes(c) == s[..n] && ValidUtf8(s[n..])
  {
    var a: nat, b: nat, d: nat := s[0] - 0xE0, s[1] - 0x80, s[2] - 0x80;
    c, n := a * 4096 + b * 64 + d, 3;
    assert c / 64 == a * 64 + b;
  }

  lemma FirstOfFour(s: seq<byte>) returns (c: nat, n: nat)
    requires s != [] && ValidUtf8(s) && 0xF0 <= s[0]
    ensures IsScalar(c) && 0 < n <= |s| && ScalarBytes(c) == s[..n] && ValidUtf8(s[n..])
  {
    var a: nat, b: nat, d: nat, e: nat := s[0] - 0xF0, s[1] - 0x80, s[2] - 0x80, s[3] - 0x80;
    c, n := a * 0x4_0000 + b * 4096 + d * 64 + e, 4;
    assert c / 64 == a * 4096 + b * 64 + d;
    assert c / 4096 == a * 64 + b;
  }

  lemma FirstScalar(s: seq<byte>) returns (c: nat, n: nat)
    requires s != [] && ValidUtf8(s)
    ensures IsScalar(c) && 0 < n <= |s| && ScalarBytes(c) == s[..n] && ValidUtf8(s[n..])
  {
    hide ValidUtf8, ScalarBytes;
    if s[0] < 0xE0 {
      c, n := FirstShort(s);
    } else if s[0] < 0xF0 {
      c, n := FirstOfThree(s);
    } else {
      c, n := FirstOfFour(s);
    }
  }

  lemma {:induction false} ValidIsSpelled(s: seq<byte>) returns (cs: seq<nat>)
    requires ValidUtf8(s)
    ensures AllScalars(cs) && Spelled(cs) == s
    decreases |s|
  {
    hide ValidUtf8, ScalarBytes, IsScalar;
    if s == [] {
      cs := [];
    } else {
      var c, n := FirstScalar(s);
      var rest := ValidIsSpelled(s[n..]);
      cs := [c] + rest;
      assert cs[1..] == rest && s == s[..n] + s[n..];
    }
  }

  /** A byte sequence is accepted as a string exactly when it spells some scalar values. */
  lemma StringsAreSpelled(s: seq<byte>)
    ensures ValidUtf8(s) <==> exists cs :: AllScalars(cs) && Spelled(cs) == s
  {
    if ValidUtf8(s) {
      var cs := ValidIsSpelled(s);
    }
    if cs :| AllScalars(cs) && Spelled(cs) == s {
      SpelledIsValid(cs);
    }
  }
}
