/** Known texts and octets of the codecs, written out. */
module CodecVectors {
  import Base64
  import opened Bytes
  import Der
  import KeyFraming
  import Pem
  import opened Wrappers

  // ------------------------------------------------------------------ DER

  /** A sequence of one of each, as section 8 of ITU-T X.690 has it. */
  lemma TreeOctets()
    ensures Der.Encode(Der.Integer([5])) == [0x02, 1, 5]
    ensures Der.Encode(Der.Oid([0x55, 4, 3])) == [0x06, 3, 0x55, 4, 3]
    ensures Der.Encode(Der.Utf8String([0x61])) == [0x0C, 1, 0x61]
    ensures Der.Encode(Der.BitString([0xFF])) == [0x03, 2, 0, 0xFF]
    ensures Der.Encode(Der.SetOf([])) == [0x31, 0]
    ensures Der.Encode(Der.Sequence([Der.Integer([5])])) == [0x30, 3, 0x02, 1, 5]
  {
    var one := [Der.Integer([5])];
    var octets: seq<seq<byte>> := [[0x02, 1, 5]];
    assert one[1..] == [] && Der.EncodeEach(one[1..]) == [];
    assert Der.Encode(one[0]) == octets[0];
    assert Der.EncodeEach(one) == [Der.Encode(one[0])] + Der.EncodeEach(one[1..]);
    assert [octets[0]] + [] == octets;
    assert octets[1..] == [] && Der.Flatten(octets[1..]) == [];
    assert Der.Flatten(octets) == octets[0] + Der.Flatten(octets[1..]);
  }

  /** Lengths take one octet below 128, two below 256 and three above. */
  lemma LengthOctetsByExample()
    ensures Der.LengthOctets(127) == [127] && Der.LengthOctets(128) == [0x81, 128]
    ensures Der.LengthOctets(255) == [0x81, 255] && Der.LengthOctets(256) == [0x82, 1, 0]
    ensures Der.LengthOctets(65535) == [0x82, 255, 255]
  {
  }

  // --------------------------------------------------------------- base64

  /** The alphabet of table 1 of RFC 4648. */
  lemma Alphabet(v: Base64.sextet)
    ensures v < 26 ==> Base64.Digit(v) as int == 'A' as int + v
    ensures 26 <= v < 52 ==> Base64.Digit(v) as int == 'a' as int + (v - 26)
    ensures 52 <= v < 62 ==> Base64.Digit(v) as int == '0' as int + (v - 52)
    ensures v == 62 ==> Base64.Digit(v) == '+'
    ensures v == 63 ==> Base64.Digit(v) == '/'
  {
  }

  /** The vectors of section 10 of RFC 4648 for "f", "fo", "foo" and "foob". */
  lemma KnownEncodings()
    ensures Base64.Encode([0x66]) == ['Z', 'g', '=', '=']
    ensures Base64.Encode([0x66, 0x6F]) == ['Z', 'm', '8', '=']
    ensures Base64.Encode([0x66, 0x6F, 0x6F]) == ['Z', 'm', '9', 'v']
    ensures Base64.Encode([0x66, 0x6F, 0x6F, 0x62]) == ['Z', 'm', '9', 'v', 'Y', 'g', '=', '=']
  {
    assert Base64.Triple(0x66, 0x6F, 0x6F) == ['Z', 'm', '9', 'v'];
    Base64.GroupEncodes(0x66, 0x6F, 0x6F, []);
    Base64.GroupEncodes(0x66, 0x6F, 0x6F, [0x62]);
    assert [0x66, 0x6F, 0x6F] + [] == [0x66, 0x6F, 0x6F];
    assert [0x66, 0x6F, 0x6F] + [0x62] == [0x66, 0x6F, 0x6F, 0x62];
  }

  // ----------------------------------------------------------------- keys

  /** A key with id "a", a nonce of one octet and a ciphertext of two: each behind its length in four octets. */
  lemma KnownFrame()
    ensures KeyFraming.Frame(KeyFraming.DataKey([8, 9], [7], [0x61])) ==
      [0, 0, 0, 1, 0x61, 0, 0, 0, 1, 7, 0, 0, 0, 2, 8, 9]
  {
    SmallLength(1);
    SmallLength(2);
  }

  /** Lengths have their high octet first. */
  lemma KnownLength()
    ensures KeyFraming.U32(0x0102_0304) == [1, 2, 3, 4]
  {
    assert KeyFraming.Octets(0x01, 1) == [1];
    assert KeyFraming.Octets(0x0102, 2) == [1, 2];
    assert KeyFraming.Octets(0x01_0203, 3) == [1, 2, 3];
  }

  lemma SmallLength(n: nat)
    requires n < 256
    ensures KeyFraming.U32(n) == [0, 0, 0, n]
  {
    assert KeyFraming.Octets(0, 1) == [0] && KeyFraming.Octets(0, 2) == [0, 0] && KeyFraming.Octets(0, 3) == [0, 0, 0];
  }

  /** Generated keys carry the id "local". */
  lemma LocalId()
    ensures |KeyFraming.LOCAL_KEY_ID| == |"local"|
    ensures forall i | 0 <= i < |"local"| :: KeyFraming.LOCAL_KEY_ID[i] as int == "local"[i] as int
  {
  }

  // --------------------------------------------------------- certificates

  function Certificate(body: string): string {
    "-----BEGIN CERTIFICATE-----" + body + ['\n'] + "-----END CERTIFICATE-----" + ['\n']
  }

  /** A body of lines without dashes that does not end in white space. */
  ghost predicate IsBody(body: string) {
    body != [] && '-' !in body && !Pem.IsSpace(body[|body| - 1])
  }

  lemma BodyIsNormal(body: string)
    requires IsBody(body)
    ensures Pem.NormalBlock("-----BEGIN CERTIFICATE-----" + body)
    ensures Certificate(body) == Pem.Rewrapped("-----BEGIN CERTIFICATE-----" + body)
  {
    var begin, end := "-----BEGIN CERTIFICATE-----", "-----END CERTIFICATE-----";
    var block := begin + body;
    assert |begin| == 27 && |end| == 25 && begin[5] == 'B' && end[4] == '-' && end[3] == '-' && end[5] == 'E';
    assert end[24] == '-' && begin[0] == '-';
    assert Pem.OccursAt(block, begin, 0);
    assert block[|block| - 1] == body[|body| - 1] && block[5] == 'B';
    forall j | 27 <= j < |block| ensures block[j] != '-' {
      assert block[j] == body[j - 27] && block[j] in body;
    }
    forall i: nat ensures !Pem.OccursAt(block, end, i) {
      if Pem.OccursAt(block, end, i) {
        Pem.OccurrenceReads(block, end, i, i + 24);
        Pem.OccurrenceReads(block, end, i, i + 5);
        Pem.OccurrenceReads(block, end, i, i + 4);
        assert false;
      }
    }
  }

  lemma LaidTwo(blocks: seq<string>, x: string, y: string, end: string)
    requires blocks == [x, y]
    ensures Pem.Laid(blocks, end) == Pem.Rewrapped(x) + ['\n'] + (Pem.Rewrapped(y) + end)
  {
    var second := blocks[1..];
    assert second == [y] && second[1..] == [];
    assert Pem.Laid(second, end) == Pem.Rewrapped(y) + Pem.Gap(second[1..]) + Pem.Laid(second[1..], end);
    assert Pem.Rewrapped(y) + [] + end == Pem.Rewrapped(y) + end;
  }

  lemma TwoBlocks(space: string, x: string, y: string, end: string)
    requires Pem.AllSpace(space) && Pem.AllSpace(end) && Pem.NormalBlock(x) && Pem.NormalBlock(y)
    ensures Pem.SplitCertChain(space + (Pem.Rewrapped(x) + ['\n'] + (Pem.Rewrapped(y) + end))) ==
      (Pem.Rewrapped(x), Pem.Rewrapped(y))
  {
    var blocks := [x, y];
    LaidTwo(blocks, x, y, end);
    Pem.BlocksOfText(space, blocks, end);
    ChainOfTwo(space + Pem.Laid(blocks, end), blocks);
  }

  lemma ChainOfTwo(pem: string, blocks: seq<string>)
    requires |blocks| == 2 && Pem.NormalBlocks(blocks)
    requires Pem.Blocks(Pem.Split(pem, Pem.END_MARK)) == blocks
    ensures Pem.SplitCertChain(pem) == (Pem.Rewrapped(blocks[0]), Pem.Rewrapped(blocks[1]))
  {
    var certs := Pem.Certificates(pem);
    Pem.JoinIsLaid(blocks);
    assert certs == Pem.RewrapAll(blocks) && |certs| == 2;
    assert certs[1..] == [Pem.Rewrapped(blocks[1])];
  }

  /** Two certificates one after the other, in any white space, come apart into leaf and chain. */
  lemma TwoCertificates(space: string, a: string, b: string, end: string)
    requires Pem.AllSpace(space) && Pem.AllSpace(end) && IsBody(a) && IsBody(b)
    ensures Pem.SplitCertChain(space + (Certificate(a) + ['\n'] + (Certificate(b) + end))) ==
      (Certificate(a), Certificate(b))
  {
    BodyIsNormal(a);
    BodyIsNormal(b);
    TwoBlocks(space, "-----BEGIN CERTIFICATE-----" + a, "-----BEGIN CERTIFICATE-----" + b, end);
  }

  /** What `trim` takes for white space: the 25 characters of the Unicode property. */
  lemma WhiteSpace(c: char)
    ensures Pem.IsSpace(c) <==> c as int in {
      9, 10, 11, 12, 13, 32, 0x85, 0xA0, 0x1680, 0x2000, 0x2001, 0x2002, 0x2003, 0x2004, 0x2005, 0x2006, 0x2007, 0x2008,
      0x2009, 0x200A, 0x2028, 0x2029, 0x202F, 0x205F, 0x3000}
  {
  }
}
