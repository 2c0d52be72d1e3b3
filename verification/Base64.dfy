/** Section 4 of RFC 4648: three octets to four characters, padding required, unused bits zero. */
module Base64 {
  import opened Bytes
  import opened Wrappers

  type sextet = v: int | 0 <= v < 64

  function Digit(v: sextet): char {
    if v < 26 then (65 + v as int) as char
    else if v < 52 then (71 + v as int) as char
    else if v < 62 then (v as int - 4) as char
    else if v == 62 then '+'
    else '/'
  }

  function Value(c: char): Option<sextet> {
    if 'A' <= c <= 'Z' then Some(c as int - 65)
    else if 'a' <= c <= 'z' then Some(c as int - 71)
    else if '0' <= c <= '9' then Some(c as int + 4)
    else if c == '+' then Some(62)
    else if c == '/' then Some(63)
    else None
  }

  // The three octets a, b, c and the four sextets u, v, w, x hold the same 24 bits.

  function U(a: int): int { a / 4 }

  function V(a: int, b: int): int { a % 4 * 16 + b / 16 }

  function W(b: int, c: int): int { b % 16 * 4 + c / 64 }

  function X(c: int): int { c % 64 }

  function A(u: int, v: int): int { u * 4 + v / 16 }

  function B(v: int, w: int): int { v % 16 * 16 + w / 4 }

  function C(w: int, x: int): int { w % 4 * 64 + x }

  function Triple(a: byte, b: byte, c: byte): string {
    [Digit(U(a)), Digit(V(a, b)), Digit(W(b, c)), Digit(X(c))]
  }

  function Pair(a: byte, b: byte): string { [Digit(U(a)), Digit(V(a, b)), Digit(W(b, 0)), '='] }

  function Single(a: byte): string { [Digit(U(a)), Digit(V(a, 0)), '=', '='] }

  function Encode(bs: seq<byte>): string {
    if |bs| == 0 then []
    else if |bs| == 1 then Single(bs[0])
    else if |bs| == 2 then Pair(bs[0], bs[1])
    else Triple(bs[0], bs[1], bs[2]) + Encode(bs[3..])
  }

  function DecodeSingle(a: char, b: char): Option<seq<byte>> {
    var u, v := Value(a), Value(b);
    if u.Some? && v.Some? && v.value as int % 16 == 0 then Some([A(u.value, v.value)]) else None
  }

  function DecodePair(a: char, b: char, c: char): Option<seq<byte>> {
    var u, v, w := Value(a), Value(b), Value(c);
    if u.Some? && v.Some? && w.Some? && w.value as int % 4 == 0 then
      Some([A(u.value, v.value), B(v.value, w.value)])
    else None
  }

  function DecodeTriple(a: char, b: char, c: char, d: char): Option<seq<byte>> {
    var u, v, w, x := Value(a), Value(b), Value(c), Value(d);
    if u.Some? && v.Some? && w.Some? && x.Some? then
      Some([A(u.value, v.value), B(v.value, w.value), C(w.value, x.value)])
    else None
  }

  /** Only the last four characters may hold padding. */
  function DecodeLast(a: char, b: char, c: char, d: char): Option<seq<byte>> {
    if d == '=' then
      if c == '=' then DecodeSingle(a, b) else DecodePair(a, b, c)
    else DecodeTriple(a, b, c, d)
  }

  function Decode(s: string): Option<seq<byte>> {
    if |s| == 0 then Some([])
    else if |s| < 4 then None
    else if |s| == 4 then DecodeLast(s[0], s[1], s[2], s[3])
    else
      match (DecodeTriple(s[0], s[1], s[2], s[3]), Decode(s[4..]))
      case (Some(front), Some(rest)) => Some(front + rest)
      case _ => None
  }

  lemma ValueOfDigit(v: sextet)
    ensures Value(Digit(v)) == Some(v) && Digit(v) != '='
  {
  }

  lemma DigitOfValue(c: char)
    ensures Value(c).Some? ==> Digit(Value(c).value) == c && c != '='
  {
  }

  lemma OctetsReturn(a: byte, b: byte, c: byte)
    ensures A(U(a), V(a, b)) == a && B(V(a, b), W(b, c)) == b && C(W(b, c), X(c)) == c
  {
  }

  lemma SextetsReturn(u: sextet, v: sextet, w: sextet, x: sextet)
    ensures U(A(u, v)) == u && V(A(u, v), B(v, w)) == v && W(B(v, w), C(w, x)) == w && X(C(w, x)) == x
  {
  }

  /** The last octet alone: its low bits are the high bits of a sextet whose other bits are zero. */
  lemma LastOctet(a: byte, zero: byte)
    requires zero == 0
    ensures V(a, zero) % 16 == 0 && W(a, zero) % 4 == 0
  {
  }

  lemma LastSextet(v: sextet, zero: sextet)
    requires zero == 0
    ensures v as int % 16 == 0 ==> B(v, zero) == zero
    ensures v as int % 4 == 0 ==> C(v, zero) == zero
  {
  }

  lemma TripleOf(u: sextet, v: sextet, w: sextet, x: sextet)
    ensures DecodeTriple(Digit(u), Digit(v), Digit(w), Digit(x)) == Some([A(u, v), B(v, w), C(w, x)])
    ensures Digit(x) != '='
  {
    ValueOfDigit(u);
    ValueOfDigit(v);
    ValueOfDigit(w);
    ValueOfDigit(x);
  }

  lemma PairOf(u: sextet, v: sextet, w: sextet)
    requires w as int % 4 == 0
    ensures DecodePair(Digit(u), Digit(v), Digit(w)) == Some([A(u, v), B(v, w)]) && Digit(w) != '='
  {
    ValueOfDigit(u);
    ValueOfDigit(v);
    ValueOfDigit(w);
  }

  lemma SingleOf(u: sextet, v: sextet)
    requires v as int % 16 == 0
    ensures DecodeSingle(Digit(u), Digit(v)) == Some([A(u, v)])
  {
    ValueOfDigit(u);
    ValueOfDigit(v);
  }

  lemma TripleEncodes(u: sextet, v: sextet, w: sextet, x: sextet)
    ensures Triple(A(u, v), B(v, w), C(w, x)) == [Digit(u), Digit(v), Digit(w), Digit(x)]
  {
    SextetsReturn(u, v, w, x);
  }

  lemma PairEncodes(u: sextet, v: sextet, w: sextet)
    requires w as int % 4 == 0
    ensures Pair(A(u, v), B(v, w)) == [Digit(u), Digit(v), Digit(w), '=']
  {
    SextetsReturn(u, v, w, 0);
    LastSextet(w, 0);
  }

  lemma SingleEncodes(u: sextet, v: sextet)
    requires v as int % 16 == 0
    ensures Single(A(u, v)) == [Digit(u), Digit(v), '=', '=']
  {
    SextetsReturn(u, v, 0, 0);
    LastSextet(v, 0);
  }

  lemma GroupIsEncoded(a: char, b: char, c: char, d: char)
    requires DecodeTriple(a, b, c, d).Some?
    ensures var t := DecodeTriple(a, b, c, d).value;
      |t| == 3 && Triple(t[0], t[1], t[2]) == [a, b, c, d]
  {
    DigitOfValue(a);
    DigitOfValue(b);
    DigitOfValue(c);
    DigitOfValue(d);
    TripleEncodes(Value(a).value, Value(b).value, Value(c).value, Value(d).value);
  }

  lemma LastEncodes(a: char, b: char, c: char, d: char)
    requires DecodeLast(a, b, c, d).Some?
    ensures DecodeLast(a, b, c, d).value != []
    ensures Encode(DecodeLast(a, b, c, d).value) == [a, b, c, d]
  {
    DigitOfValue(a);
    DigitOfValue(b);
    DigitOfValue(c);
    if d != '=' {
      GroupIsEncoded(a, b, c, d);
      assert DecodeTriple(a, b, c, d).value[3..] == [];
    } else if c != '=' {
      PairEncodes(Value(a).value, Value(b).value, Value(c).value);
    } else {
      SingleEncodes(Value(a).value, Value(b).value);
    }
  }

  lemma PairSextets(a: byte, b: byte, zero: byte) returns (u: sextet, v: sextet, w: sextet)
    requires zero == 0
    ensures Pair(a, b) == [Digit(u), Digit(v), Digit(w), '=']
    ensures w as int % 4 == 0 && A(u, v) == a && B(v, w) == b
  {
    u, v, w := U(a), V(a, b), W(b, zero);
    LastOctet(b, zero);
    OctetsReturn(a, b, zero);
  }

  lemma SingleSextets(a: byte, zero: byte) returns (u: sextet, v: sextet)
    requires zero == 0
    ensures Single(a) == [Digit(u), Digit(v), '=', '=']
    ensures v as int % 16 == 0 && A(u, v) == a
  {
    u, v := U(a), V(a, zero);
    LastOctet(a, zero);
    OctetsReturn(a, zero, zero);
  }

  lemma ShortDecodes(bs: seq<byte>)
    requires 1 <= |bs| <= 2
    ensures |Encode(bs)| == 4 && Decode(Encode(bs)) == Some(bs)
  {
    if |bs| == 1 {
      var u, v := SingleSextets(bs[0], 0);
      SingleOf(u, v);
      assert bs == [bs[0]];
    } else {
      var u, v, w := PairSextets(bs[0], bs[1], 0);
      PairOf(u, v, w);
      assert bs == [bs[0], bs[1]];
    }
  }

  /** A full group before a text that decodes, if anything follows it. */
  lemma GroupDecodes(a: byte, b: byte, c: byte, text: string, rest: seq<byte>)
    requires Decode(text) == Some(rest)
    ensures Decode(Triple(a, b, c) + text) == Some([a, b, c] + rest)
  {
    var group := Triple(a, b, c);
    var s := group + text;
    TripleOf(U(a), V(a, b), W(b, c), X(c));
    OctetsReturn(a, b, c);
    assert s[0] == group[0] && s[1] == group[1] && s[2] == group[2] && s[3] == group[3];
    if text == [] {
      assert [a, b, c] + rest == [a, b, c];
    } else {
      assert s[4..] == text;
    }
  }

  /** Decoding inverts encoding. */
  lemma {:induction false} DecodeEncode(bs: seq<byte>)
    ensures Decode(Encode(bs)) == Some(bs)
  {
    if 1 <= |bs| <= 2 {
      ShortDecodes(bs);
    } else if |bs| > 2 {
      DecodeEncode(bs[3..]);
      GroupDecodes(bs[0], bs[1], bs[2], Encode(bs[3..]), bs[3..]);
      assert bs == [bs[0], bs[1], bs[2]] + bs[3..];
    }
  }

  lemma GroupEncodes(a: byte, b: byte, c: byte, rest: seq<byte>)
    ensures Encode([a, b, c] + rest) == Triple(a, b, c) + Encode(rest)
  {
    assert ([a, b, c] + rest)[3..] == rest;
  }

  /** Every text the decoder accepts is the one the encoder writes. */
  lemma {:induction false} EncodeDecode(s: string)
    requires Decode(s).Some?
    ensures Encode(Decode(s).value) == s
  {
    if |s| == 4 {
      LastEncodes(s[0], s[1], s[2], s[3]);
      assert s == [s[0], s[1], s[2], s[3]];
    } else if |s| > 4 {
      EncodeDecode(s[4..]);
      GroupIsEncoded(s[0], s[1], s[2], s[3]);
      var front, rest := DecodeTriple(s[0], s[1], s[2], s[3]).value, Decode(s[4..]).value;
      GroupEncodes(front[0], front[1], front[2], rest);
      assert front == [front[0], front[1], front[2]];
      assert s == [s[0], s[1], s[2], s[3]] + s[4..];
    }
  }
}
