/** Bytes and the UTF-8 test of Rust's `std::str::from_utf8` (the well-formed sequences of section 4 of RFC 3629). */
module Bytes {
  type Byte = x: int | 0 <= x < 256

  predicate In(s: seq<Byte>, i: nat, low: Byte, high: Byte)
  {
    i < |s| && low <= s[i] <= high
  }

  /** The length of the well-formed UTF-8 sequence `s` starts with, or 0. */
  function CharLength(s: seq<Byte>): (n: nat)
    ensures n <= |s|
  {
    if In(s, 0, 0x00, 0x7F) then 1
    else if In(s, 0, 0xC2, 0xDF) && In(s, 1, 0x80, 0xBF) then 2
    else if (|| (In(s, 0, 0xE0, 0xE0) && In(s, 1, 0xA0, 0xBF))
             || (In(s, 0, 0xE1, 0xEC) && In(s, 1, 0x80, 0xBF))
             || (In(s, 0, 0xED, 0xED) && In(s, 1, 0x80, 0x9F))
             || (In(s, 0, 0xEE, 0xEF) && In(s, 1, 0x80, 0xBF)))
            && In(s, 2, 0x80, 0xBF) then 3
    else if (|| (In(s, 0, 0xF0, 0xF0) && In(s, 1, 0x90, 0xBF))
             || (In(s, 0, 0xF1, 0xF3) && In(s, 1, 0x80, 0xBF))
             || (In(s, 0, 0xF4, 0xF4) && In(s, 1, 0x80, 0x8F)))
            && In(s, 2, 0x80, 0xBF) && In(s, 3, 0x80, 0xBF) then 4
    else 0
  }

  predicate ValidUtf8(s: seq<Byte>)
  {
    s == [] || (CharLength(s) > 0 && ValidUtf8(s[CharLength(s)..]))
  }

  // ---------- The encoder of section 3 of RFC 3629 ----------

  predicate IsScalar(cp: nat)
  {
    cp < 0xD800 || 0xE000 <= cp < 0x11_0000
  }

  function Encode(cp: nat): (s: seq<Byte>)
    requires IsScalar(cp)
  {
    if cp < 0x80 then [cp]
    else if cp < 0x800 then [0xC0 + cp / 64, 0x80 + cp % 64]
    else if cp < 0x1_0000 then [0xE0 + cp / 4096, 0x80 + cp / 64 % 64, 0x80 + cp % 64]
    else [0xF0 + cp / 262144, 0x80 + cp / 4096 % 64, 0x80 + cp / 64 % 64, 0x80 + cp % 64]
  }

  predicate AllScalar(cps: seq<nat>)
  {
    forall i :: 0 <= i < |cps| ==> IsScalar(cps[i])
  }

  function EncodeAll(cps: seq<nat>): seq<Byte>
    requires AllScalar(cps)
  {
    if cps == [] then [] else Encode(cps[0]) + EncodeAll(cps[1..])
  }

  lemma EncodedLength(cp: nat, rest: seq<Byte>)
    requires IsScalar(cp)
    ensures CharLength(Encode(cp) + rest) == |Encode(cp)| > 0
  {
    var s := Encode(cp) + rest;
    assert forall i :: 0 <= i < |Encode(cp)| ==> s[i] == Encode(cp)[i];
  }

  lemma FirstScalar(s: seq<Byte>) returns (cp: nat)
    requires CharLength(s) > 0
    ensures IsScalar(cp) && Encode(cp) == s[..CharLength(s)]
  {
    match CharLength(s)
    case 1 => cp := s[0];
    case 2 => cp := TwoBytes(s[0], s[1]);
    case 3 => cp := ThreeBytes(s[0], s[1], s[2]);
    case _ => cp := FourBytes(s[0], s[1], s[2], s[3]);
    hide Encode;
    assert Encode(cp) == s[..CharLength(s)];
  }

  lemma TwoBytes(a: int, b: int) returns (cp: nat)
    requires 0xC2 <= a <= 0xDF && 0x80 <= b <= 0xBF
    ensures 0x80 <= cp < 0x800 && Encode(cp) == [a, b]
  {
    cp := (a - 0xC0) * 64 + (b - 0x80);
  }

  lemma ThreeBytes(a: int, b: int, c: int) returns (cp: nat)
    requires 0xE0 <= a <= 0xEF && 0x80 <= b <= 0xBF && 0x80 <= c <= 0xBF
    requires (a == 0xE0 ==> b >= 0xA0) && (a == 0xED ==> b <= 0x9F)
    ensures 0x800 <= cp < 0x1_0000 && IsScalar(cp) && Encode(cp) == [a, b, c]
  {
    cp := (a - 0xE0) * 4096 + (b - 0x80) * 64 + (c - 0x80);
    assert cp / 64 == (a - 0xE0) * 64 + (b - 0x80);
  }

  lemma FourBytes(a: int, b: int, c: int, d: int) returns (cp: nat)
    requires 0xF0 <= a <= 0xF4 && 0x80 <= b <= 0xBF && 0x80 <= c <= 0xBF && 0x80 <= d <= 0xBF
    requires (a == 0xF0 ==> b >= 0x90) && (a == 0xF4 ==> b <= 0x8F)
    ensures 0x1_0000 <= cp < 0x11_0000 && Encode(cp) == [a, b, c, d]
  {
    cp := (a - 0xF0) * 262144 + (b - 0x80) * 4096 + (c - 0x80) * 64 + (d - 0x80);
    assert cp / 64 == (a - 0xF0) * 4096 + (b - 0x80) * 64 + (c - 0x80);
    assert cp / 4096 == (a - 0xF0) * 64 + (b - 0x80);
  }

  lemma {:induction false} EncodedIsValid(cps: seq<nat>)
    requires AllScalar(cps)
    ensures ValidUtf8(EncodeAll(cps))
    decreases |cps|
  {
    if cps != [] {
      hide Encode, CharLength;
      EncodedLength(cps[0], EncodeAll(cps[1..]));
      EncodedIsValid(cps[1..]);
      assert EncodeAll(cps)[|Encode(cps[0])|..] == EncodeAll(cps[1..]);
    }
  }

  lemma {:induction false} ValidIsEncoded(s: seq<Byte>) returns (cps: seq<nat>)
    requires ValidUtf8(s)
    ensures AllScalar(cps) && EncodeAll(cps) == s
    decreases |s|
  {
    cps := [];
    if s != [] {
      hide Encode;
      var n := CharLength(s);
      hide CharLength;
      var cp := FirstScalar(s);
      var rest := ValidIsEncoded(s[n..]);
      cps := [cp] + rest;
      assert cps[1..] == rest && s == s[..n] + s[n..];
    }
  }

  /** The test accepts exactly the encodings of sequences of Unicode scalar values. */
  lemma ValidUtf8Iff(s: seq<Byte>)
    ensures ValidUtf8(s) <==> exists cps :: AllScalar(cps) && EncodeAll(cps) == s
  {
    if ValidUtf8(s) { var cps := ValidIsEncoded(s); }
    if cps :| AllScalar(cps) && EncodeAll(cps) == s { EncodedIsValid(cps); }
  }
}
