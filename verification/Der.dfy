/** The DER writer used for certificate requests, against a decoder for the standard's length rules. */
module Der {
  import opened Bytes
  import opened Powers
  import opened Wrappers

  const SEQUENCE_TAG: byte := 0x30
  const SET_TAG: byte := 0x31
  const OID_TAG: byte := 0x06
  const INTEGER_TAG: byte := 0x02
  const UTF8_TAG: byte := 0x0C
  const BIT_STRING_TAG: byte := 0x03

  // ------------------------------------------------------------- the writer

  function LengthOctets(length: nat): seq<byte> {
    if length < 128 then [length]
    else if length < 256 then [0x81, length]
    else [0x82, (length / 256) % 256, length % 256]
  }

  function Wrap(tag: byte, content: seq<byte>): seq<byte> {
    [tag] + LengthOctets(|content|) + content
  }

  method DerTagLength(tag: byte, length: nat) returns (out: seq<byte>)
    ensures out == [tag] + LengthOctets(length)
  {
    out := [tag];
    if length < 128 {
      out := out + [length];
    } else if length < 256 {
      out := out + [0x81];
      out := out + [length];
    } else {
      out := out + [0x82];
      out := out + [(length / 256) % 256];
      out := out + [length % 256];
    }
  }

  method DerWrap(tag: byte, content: seq<byte>) returns (out: seq<byte>)
    ensures out == Wrap(tag, content)
  {
    out := DerTagLength(tag, |content|);
    out := out + content;
  }

  function Flatten(fields: seq<seq<byte>>): seq<byte> {
    if fields == [] then [] else fields[0] + Flatten(fields[1..])
  }

  function DerSequence(fields: seq<seq<byte>>): seq<byte> { Wrap(SEQUENCE_TAG, Flatten(fields)) }

  function DerSet(fields: seq<seq<byte>>): seq<byte> { Wrap(SET_TAG, Flatten(fields)) }

  function DerOid(bytes: seq<byte>): seq<byte> { Wrap(OID_TAG, bytes) }

  function DerInteger(bytes: seq<byte>): seq<byte> { Wrap(INTEGER_TAG, bytes) }

  function DerUtf8String(bytes: seq<byte>): seq<byte> { Wrap(UTF8_TAG, bytes) }

  /** The leading zero octet says that no bits are unused. */
  function DerBitString(bytes: seq<byte>): seq<byte> { Wrap(BIT_STRING_TAG, [0] + bytes) }

  /** What the encoders can be nested into. */
  datatype Tree =
    | Sequence(fields: seq<Tree>)
    | SetOf(members: seq<Tree>)
    | Oid(oid: seq<byte>)
    | Integer(octets: seq<byte>)
    | Utf8String(text: seq<byte>)
    | BitString(bits: seq<byte>)

  function Encode(t: Tree): seq<byte>
    decreases t, 1
  {
    match t
    case Sequence(fields) => DerSequence(EncodeEach(fields))
    case SetOf(members) => DerSet(EncodeEach(members))
    case Oid(b) => DerOid(b)
    case Integer(b) => DerInteger(b)
    case Utf8String(b) => DerUtf8String(b)
    case BitString(b) => DerBitString(b)
  }

  function EncodeEach(ts: seq<Tree>): seq<seq<byte>>
    decreases ts, 0
  {
    if ts == [] then [] else [Encode(ts[0])] + EncodeEach(ts[1..])
  }

  function Tag(t: Tree): byte {
    match t
    case Sequence(_) => SEQUENCE_TAG
    case SetOf(_) => SET_TAG
    case Oid(_) => OID_TAG
    case Integer(_) => INTEGER_TAG
    case Utf8String(_) => UTF8_TAG
    case BitString(_) => BIT_STRING_TAG
  }

  function Content(t: Tree): (c: seq<byte>)
    ensures Encode(t) == Wrap(Tag(t), c)
  {
    match t
    case Sequence(fields) => Flatten(EncodeEach(fields))
    case SetOf(members) => Flatten(EncodeEach(members))
    case Oid(b) => b
    case Integer(b) => b
    case Utf8String(b) => b
    case BitString(b) => [0] + b
  }

  // ---------------------------------------- a decoder, after ITU-T X.690

  /** Definite lengths by section 8.1.3, in the fewest octets as section 10.1 asks. */
  function ParseLength(bs: seq<byte>): (r: Option<(nat, seq<byte>)>)
    ensures r.Some? ==> |r.value.1| < |bs|
  {
    if bs == [] then None
    else if bs[0] < 128 then Some((bs[0], bs[1..]))
    else
      var n := bs[0] - 128;
      if n == 0 || n == 127 || |bs| < 1 + n || bs[1] == 0 then None
      else
        var length := BigEndian(bs[1..1 + n]);
        if length < 128 then None else Some((length, bs[1 + n..]))
  }

  /** Reads one value and returns it with the bytes behind it. */
  function Decode(bs: seq<byte>): (r: Option<(Tree, seq<byte>)>)
    ensures r.Some? ==> |r.value.1| < |bs|
    decreases |bs|, 0
  {
    if bs == [] then None
    else
      match ParseLength(bs[1..])
      case None => None
      case Some((n, rest)) =>
        if n > |rest| then None
        else
          match Value(bs[0], rest[..n])
          case None => None
          case Some(t) => Some((t, rest[n..]))
  }

  function Value(tag: byte, content: seq<byte>): Option<Tree>
    decreases |content|, 2
  {
    if tag == SEQUENCE_TAG || tag == SET_TAG then
      match DecodeAll(content)
      case None => None
      case Some(ts) => Some(if tag == SEQUENCE_TAG then Sequence(ts) else SetOf(ts))
    else if tag == OID_TAG then Some(Oid(content))
    else if tag == INTEGER_TAG then Some(Integer(content))
    else if tag == UTF8_TAG then Some(Utf8String(content))
    else if tag == BIT_STRING_TAG && content != [] && content[0] == 0 then Some(BitString(content[1..]))
    else None
  }

  function DecodeAll(bs: seq<byte>): Option<seq<Tree>>
    decreases |bs|, 1
  {
    if bs == [] then Some([])
    else
      match Decode(bs)
      case None => None
      case Some((t, rest)) =>
        match DecodeAll(rest)
        case None => None
        case Some(ts) => Some([t] + ts)
  }

  // ------------------------------------------------------------- round trips

  lemma BigEndianOfTwo(a: byte, b: byte)
    ensures BigEndian([a]) == a && BigEndian([a, b]) == a * 256 + b
  {
    assert [a, b][..1] == [a] && [a][..0] == [];
  }

  /** Below 65536 the length octets are read back, and nothing behind them is touched. */
  lemma LengthRoundTrip(n: nat, rest: seq<byte>)
    requires n < 65536
    ensures ParseLength(LengthOctets(n) + rest) == Some((n, rest))
  {
    var bs := LengthOctets(n) + rest;
    if n < 128 {
      assert bs[1..] == rest;
    } else if n < 256 {
      assert bs[1..2] == [n] && bs[2..] == rest;
      BigEndianOfTwo(n, 0);
    } else {
      assert bs[1..3] == [n / 256, n % 256] && bs[3..] == rest;
      BigEndianOfTwo(n / 256, n % 256);
    }
  }

  lemma DecodeWrapped(tag: byte, content: seq<byte>, rest: seq<byte>)
    requires |content| < 65536
    ensures Decode(Wrap(tag, content) + rest) ==
      match Value(tag, content) { case Some(t) => Some((t, rest)) case None => None }
  {
    var bs := Wrap(tag, content) + rest;
    assert bs[1..] == LengthOctets(|content|) + (content + rest);
    LengthRoundTrip(|content|, content + rest);
    assert (content + rest)[..|content|] == content && (content + rest)[|content|..] == rest;
  }

  /** Decoding inverts encoding for every tree that encodes to less than 64 KiB of content. */
  lemma {:induction false} DecodeEncode(t: Tree, rest: seq<byte>)
    requires |Content(t)| < 65536
    ensures Decode(Encode(t) + rest) == Some((t, rest))
    decreases t, 1
  {
    DecodeWrapped(Tag(t), Content(t), rest);
    match t
    case Sequence(fields) => DecodeEncodeAll(fields);
    case SetOf(members) => DecodeEncodeAll(members);
    case BitString(b) => assert ([0] + b)[1..] == b;
    case Oid(_) =>
    case Integer(_) =>
    case Utf8String(_) =>
  }

  lemma {:induction false} DecodeEncodeAll(ts: seq<Tree>)
    requires |Flatten(EncodeEach(ts))| < 65536
    ensures DecodeAll(Flatten(EncodeEach(ts))) == Some(ts)
    decreases ts, 0
  {
    if ts != [] {
      var tail := Flatten(EncodeEach(ts[1..]));
      assert EncodeEach(ts)[1..] == EncodeEach(ts[1..]);
      assert Flatten(EncodeEach(ts)) == Encode(ts[0]) + tail;
      assert Encode(ts[0]) == Wrap(Tag(ts[0]), Content(ts[0]));
      DecodeEncode(ts[0], tail);
      DecodeEncodeAll(ts[1..]);
      assert [ts[0]] + ts[1..] == ts;
    }
  }

  lemma ParsedLength(bs: seq<byte>)
    requires ParseLength(bs).Some? && ParseLength(bs).value.0 < 65536
    ensures var (n, rest) := ParseLength(bs).value; bs == LengthOctets(n) + rest
  {
    var (n, rest) := ParseLength(bs).value;
    if bs[0] >= 128 {
      var k := bs[0] - 128;
      BigEndianAtLeast(bs[1..1 + k]);
      if k == 1 {
        BigEndianOfTwo(bs[1], 0);
        assert bs[1..2] == [bs[1]];
      } else {
        assert k == 2;
        BigEndianOfTwo(bs[1], bs[2]);
        assert bs[1..3] == [bs[1], bs[2]];
      }
    }
  }

  lemma {:induction false} BigEndianAtLeast(bs: seq<byte>)
    requires bs != [] && bs[0] != 0
    ensures BigEndian(bs) >= Pow256(|bs| - 1)
    ensures |bs| > 2 ==> BigEndian(bs) >= 65536
  {
    if |bs| > 1 {
      BigEndianAtLeast(bs[..|bs| - 1]);
      if |bs| == 3 {
        assert Pow256(2) == 256 * Pow256(1) && Pow256(1) == 256 * Pow256(0);
      }
    }
  }

  /** Encoding inverts decoding: within 64 KiB the decoder accepts nothing but the writer's output. */
  lemma {:induction false} EncodeDecode(bs: seq<byte>)
    requires |bs| < 65536 && Decode(bs).Some?
    ensures var (t, rest) := Decode(bs).value; bs == Encode(t) + rest
    decreases |bs|, 0
  {
    var (n, rest) := ParseLength(bs[1..]).value;
    ParsedLength(bs[1..]);
    EncodeValue(bs[0], rest[..n]);
    WrapRegroups(bs[0], rest[..n], rest[n..]);
    assert rest == rest[..n] + rest[n..];
    assert bs == [bs[0]] + bs[1..];
  }

  lemma WrapRegroups(tag: byte, content: seq<byte>, after: seq<byte>)
    ensures [tag] + (LengthOctets(|content|) + (content + after)) == Wrap(tag, content) + after
  {
  }

  lemma {:induction false} EncodeValue(tag: byte, content: seq<byte>)
    requires |content| < 65536 && Value(tag, content).Some?
    ensures var t := Value(tag, content).value; Tag(t) == tag && Content(t) == content
    decreases |content|, 2
  {
    if tag == SEQUENCE_TAG || tag == SET_TAG {
      EncodeDecodeAll(content);
    } else if tag == BIT_STRING_TAG {
      assert [0] + content[1..] == content;
    }
  }

  lemma {:induction false} EncodeDecodeAll(bs: seq<byte>)
    requires |bs| < 65536 && DecodeAll(bs).Some?
    ensures Flatten(EncodeEach(DecodeAll(bs).value)) == bs
    decreases |bs|, 1
  {
    if bs != [] {
      EncodeDecode(bs);
      var (t, rest) := Decode(bs).value;
      EncodeDecodeAll(rest);
      var ts := DecodeAll(rest).value;
      assert ([t] + ts)[1..] == ts;
      assert EncodeEach([t] + ts) == [Encode(t)] + EncodeEach(ts);
      assert ([Encode(t)] + EncodeEach(ts))[1..] == EncodeEach(ts);
    }
  }

  /** From 65536 bytes of content on, the two length octets lose the high part of the length: whatever follows the
      encoding, decoding does not return the tree. */
  lemma LongContentIsLost(t: Tree, rest: seq<byte>)
    requires |Content(t)| >= 65536
    ensures var r := Decode(Encode(t) + rest); r.Some? ==> r.value.0 != t
  {
    var content := Content(t);
    var n, bs := |content|, Encode(t) + rest;
    var hi, lo := (n / 256) % 256, n % 256;
    assert bs[1..] == [0x82, hi, lo] + (content + rest);
    assert bs[1..][1..3] == [hi, lo] && bs[1..][3..] == content + rest;
    BigEndianOfTwo(hi, lo);
    if Decode(bs).Some? {
      var (length, after) := ParseLength(bs[1..]).value;
      EncodeValue(bs[0], after[..length]);
    }
  }

  /** The writer is read back, with any bytes behind it, exactly up to 65535 bytes of content. */
  lemma RoundTripIff(t: Tree)
    ensures (forall rest :: Decode(Encode(t) + rest) == Some((t, rest))) <==> |Content(t)| < 65536
  {
    if |Content(t)| < 65536 {
      forall rest ensures Decode(Encode(t) + rest) == Some((t, rest)) {
        DecodeEncode(t, rest);
      }
    } else {
      LongContentIsLost(t, []);
    }
  }

  /** No encoding is a prefix of another tree's. */
  lemma EncodingIsPrefixFree(s: Tree, t: Tree, x: seq<byte>, y: seq<byte>)
    requires |Content(s)| < 65536 && |Content(t)| < 65536
    requires Encode(s) + x == Encode(t) + y
    ensures s == t && x == y
  {
    DecodeEncode(s, x);
    DecodeEncode(t, y);
  }
}
