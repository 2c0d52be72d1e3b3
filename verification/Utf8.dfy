/** UTF-8: the octets accepted for a key id are exactly the encodings of Unicode text. */
module Utf8 {
  import opened Bytes
  import opened KeyFraming

  predicate IsScalar(c: nat) { c < 0xD800 || 0xE000 <= c < 0x11_0000 }

  /** The encoding of a scalar value by table 3-6 of the Unicode Standard. */
  function Octets(c: nat): (bs: seq<byte>)
    requires IsScalar(c)
    ensures 1 <= |bs| <= 4
  {
    if c < 0x80 then [c]
    else if c < 0x800 then [0xC0 + c / 64, 0x80 + c % 64]
    else if c < 0x1_0000 then [0xE0 + c / 4096, 0x80 + c / 64 % 64, 0x80 + c % 64]
    else [0xF0 + c / 262144, 0x80 + c / 4096 % 64, 0x80 + c / 64 % 64, 0x80 + c % 64]
  }

  ghost predicate AreScalars(cs: seq<nat>) { forall i | 0 <= i < |cs| :: IsScalar(cs[i]) }

  function Text(cs: seq<nat>): seq<byte>
    requires AreScalars(cs)
  {
    if cs == [] then [] else Octets(cs[0]) + Text(cs[1..])
  }

  lemma SizeOfScalar(c: nat)
    requires IsScalar(c)
    ensures Utf8Step(Octets(c)) == |Octets(c)|
  {
  }

  /** Only the octets that belong to the first scalar value decide. */
  lemma StepIsLocal(bs: seq<byte>, rest: seq<byte>)
    requires bs != [] && Utf8Step(bs) == |bs|
    ensures Utf8Step(bs + rest) == |bs|
  {
    var all := bs + rest;
    assert forall i | 0 <= i < |bs| :: all[i] == bs[i];
  }

  lemma {:induction false} TextIsValid(cs: seq<nat>)
    requires AreScalars(cs)
    ensures ValidUtf8(Text(cs))
  {
    if cs != [] {
      TextIsValid(cs[1..]);
      SizeOfScalar(cs[0]);
      StepIsLocal(Octets(cs[0]), Text(cs[1..]));
      assert Text(cs)[|Octets(cs[0])|..] == Text(cs[1..]);
    }
  }

  /** A number from its digits to the base 64, and back. */
  lemma Digits(h: nat, k: nat, m: nat, l: nat) returns (c: nat)
    requires k < 64 && m < 64 && l < 64
    ensures c == h * 262144 + k * 4096 + m * 64 + l
    ensures c % 64 == l && c / 64 == h * 4096 + k * 64 + m
    ensures c / 64 % 64 == m && c / 4096 == h * 64 + k
    ensures c / 4096 % 64 == k && c / 262144 == h
  {
    c := h * 262144 + k * 4096 + m * 64 + l;
    assert c == (h * 4096 + k * 64 + m) * 64 + l;
    assert c == (h * 64 + k) * 4096 + (m * 64 + l);
    assert c == h * 262144 + (k * 4096 + m * 64 + l);
  }

  /** An accepted first scalar value is the encoding of one. */
  lemma StepIsScalar(bs: seq<byte>) returns (c: nat)
    requires bs != [] && Utf8Step(bs) > 0
    ensures IsScalar(c) && bs[..Utf8Step(bs)] == Octets(c)
  {
    var n, a := Utf8Step(bs), bs[0] as int;
    if n == 1 {
      c := a;
    } else if n == 2 {
      c := Digits(0, 0, a - 0xC0, bs[1] as int - 0x80);
    } else if n == 3 {
      c := Digits(0, a - 0xE0, bs[1] as int - 0x80, bs[2] as int - 0x80);
    } else {
      c := Digits(a - 0xF0, bs[1] as int - 0x80, bs[2] as int - 0x80, bs[3] as int - 0x80);
    }
  }

  lemma TextOf(c: nat, rest: seq<nat>)
    requires IsScalar(c) && AreScalars(rest)
    ensures AreScalars([c] + rest) && Text([c] + rest) == Octets(c) + Text(rest)
  {
    assert ([c] + rest)[1..] == rest;
  }

  lemma {:induction false} ValidIsText(bs: seq<byte>) returns (cs: seq<nat>)
    requires ValidUtf8(bs)
    ensures AreScalars(cs) && bs == Text(cs)
  {
    if bs == [] {
      cs := [];
    } else {
      var n := Utf8Step(bs);
      var c := StepIsScalar(bs);
      var rest := ValidIsText(bs[n..]);
      cs := [c] + rest;
      TextOf(c, rest);
      assert bs == bs[..n] + bs[n..];
    }
  }

  /** Octets are accepted iff they encode some text. */
  lemma ValidIffText(bs: seq<byte>)
    ensures ValidUtf8(bs) <==> exists cs: seq<nat> :: AreScalars(cs) && bs == Text(cs)
  {
    if ValidUtf8(bs) {
      var cs := ValidIsText(bs);
    }
    if cs: seq<nat> :| AreScalars(cs) && bs == Text(cs) {
      TextIsValid(cs);
    }
  }
}
