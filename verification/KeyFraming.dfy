/** Wrapped data keys: their framing, their text form and the wrapping itself. */
module KeyFraming {
  import opened Base64
  import opened Bytes
  import opened Powers
  import opened Wrappers

  const DEK_SIZE := 32
  const IV_SIZE := 12
  const HMAC_SIZE := 32
  const TWO_TO_THE_32 := 0x1_0000_0000

  /** `BadNonce` stands for the panic on a nonce that is not twelve octets long. */
  datatype EncryptionError = InvalidKey | AuthFailed | EncryptFailed | BadNonce

  /** The master key id is a string; the model holds its UTF-8 octets. */
  datatype DataKey = DataKey(ciphertext: seq<byte>, iv: seq<byte>, masterKeyId: seq<byte>)

  // ------------------------------------------------------------------ UTF-8

  predicate Follows(b: byte) { 0x80 <= b < 0xC0 }

  /** How many octets the first scalar value takes by table 3-7 of the Unicode Standard, 0 if ill-formed. */
  function Utf8Step(bs: seq<byte>): (n: nat)
    requires bs != []
    ensures n <= |bs|
  {
    var a := bs[0];
    if a < 0x80 then 1
    else if |bs| >= 2 && 0xC2 <= a < 0xE0 && Follows(bs[1]) then 2
    else if |bs| >= 3 && 0xE0 <= a < 0xF0 && Follows(bs[1]) && Follows(bs[2])
            && (a == 0xE0 ==> bs[1] >= 0xA0) && (a == 0xED ==> bs[1] < 0xA0) then 3
    else if |bs| >= 4 && 0xF0 <= a < 0xF5 && Follows(bs[1]) && Follows(bs[2]) && Follows(bs[3])
            && (a == 0xF0 ==> bs[1] >= 0x90) && (a == 0xF4 ==> bs[1] < 0x90) then 4
    else 0
  }

  predicate ValidUtf8(bs: seq<byte>) {
    bs == [] || (var n := Utf8Step(bs); n > 0 && ValidUtf8(bs[n..]))
  }

  // ---------------------------------------------------------------- framing

  /** A 32-bit number, most significant octet first; the cast drops higher bits. */
  function U32(n: nat): seq<byte> { Octets(n, 4) }

  function Octets(n: nat, count: nat): (bs: seq<byte>)
    ensures |bs| == count
  {
    if count == 0 then [] else Octets(n / 256, count - 1) + [n % 256]
  }

  function Field(bs: seq<byte>): seq<byte> { U32(|bs|) + bs }

  function Frame(k: DataKey): seq<byte> { Field(k.masterKeyId) + Field(k.iv) + Field(k.ciphertext) }

  method ToBase64(k: DataKey) returns (text: string)
    ensures text == Encode(Frame(k))
  {
    var combined := [];
    combined := combined + U32(|k.masterKeyId|);
    combined := combined + k.masterKeyId;
    combined := combined + U32(|k.iv|);
    combined := combined + k.iv;
    combined := combined + U32(|k.ciphertext|);
    combined := combined + k.ciphertext;
    assert combined == Frame(k);
    text := Encode(combined);
  }

  function Parse(combined: seq<byte>): Result<DataKey, EncryptionError> {
    if |combined| < 4 then Err(InvalidKey)
    else
      var idLen := BigEndian(combined[0..4]);
      if |combined| < 4 + idLen + 8 then Err(InvalidKey)
      else if !ValidUtf8(combined[4..4 + idLen]) then Err(InvalidKey)
      else ParseRest(combined[4..4 + idLen], combined[4 + idLen..])
  }

  function ParseRest(id: seq<byte>, rest: seq<byte>): Result<DataKey, EncryptionError>
    requires |rest| >= 8
  {
    var ivLen := BigEndian(rest[0..4]);
    if |rest| < 8 + ivLen then Err(InvalidKey)
    else
      var ciphertextLen := BigEndian(rest[4 + ivLen..8 + ivLen]);
      if |rest| != 8 + ivLen + ciphertextLen then Err(InvalidKey)
      else Ok(DataKey(rest[8 + ivLen..], rest[4..4 + ivLen], id))
  }

  function FromBase64(s: string): Result<DataKey, EncryptionError> {
    match Decode(s)
    case None => Err(InvalidKey)
    case Some(combined) => Parse(combined)
  }

  predicate Fits(k: DataKey) {
    |k.masterKeyId| < TWO_TO_THE_32 && |k.iv| < TWO_TO_THE_32 && |k.ciphertext| < TWO_TO_THE_32
  }

  lemma {:induction false} OctetsRead(n: nat, count: nat)
    ensures n < Pow256(count) ==> BigEndian(Octets(n, count)) == n
    ensures BigEndian(Octets(n, count)) < Pow256(count)
  {
    if count > 0 {
      OctetsRead(n / 256, count - 1);
      assert Octets(n, count)[..count - 1] == Octets(n / 256, count - 1);
    }
  }

  lemma {:induction false} OctetsWrite(bs: seq<byte>)
    ensures BigEndian(bs) < Pow256(|bs|) && Octets(BigEndian(bs), |bs|) == bs
  {
    if bs != [] {
      var front, last := bs[..|bs| - 1], bs[|bs| - 1] as int;
      OctetsWrite(front);
      assert (BigEndian(front) * 256 + last) / 256 == BigEndian(front);
      assert bs == front + [bs[|bs| - 1]];
    }
  }

  lemma FourOctets()
    ensures Pow256(4) == TWO_TO_THE_32
  {
    assert Pow256(1) == 256;
    assert Pow256(2) == 0x1_0000;
    assert Pow256(3) == 0x100_0000;
  }

  lemma U32Reads(n: nat)
    requires n < TWO_TO_THE_32
    ensures BigEndian(U32(n)) == n
  {
    FourOctets();
    OctetsRead(n, 4);
  }

  lemma U32Writes(bs: seq<byte>)
    requires |bs| == 4
    ensures BigEndian(bs) < TWO_TO_THE_32 && U32(BigEndian(bs)) == bs
  {
    FourOctets();
    OctetsWrite(bs);
  }

  lemma FieldSlices(bs: seq<byte>, rest: seq<byte>)
    requires |bs| < TWO_TO_THE_32
    ensures var s := Field(bs) + rest;
      BigEndian(s[0..4]) == |bs| && s[4..4 + |bs|] == bs && s[4 + |bs|..] == rest
  {
    U32Reads(|bs|);
    assert (Field(bs) + rest)[0..4] == U32(|bs|);
  }

  lemma RestOfFrame(k: DataKey)
    requires |k.iv| < TWO_TO_THE_32 && |k.ciphertext| < TWO_TO_THE_32
    ensures |Field(k.iv) + Field(k.ciphertext)| >= 8
    ensures ParseRest(k.masterKeyId, Field(k.iv) + Field(k.ciphertext)) == Ok(k)
  {
    var rest := Field(k.iv) + Field(k.ciphertext);
    FieldSlices(k.iv, Field(k.ciphertext));
    FieldSlices(k.ciphertext, []);
    assert Field(k.ciphertext) + [] == Field(k.ciphertext);
    var at := 4 + |k.iv|;
    assert rest[at..at + 4] == rest[at..][0..4];
    assert rest[at + 4..] == rest[at..][4..];
  }

  lemma ParseFrame(k: DataKey)
    requires Fits(k) && ValidUtf8(k.masterKeyId)
    ensures Parse(Frame(k)) == Ok(k)
  {
    var rest := Field(k.iv) + Field(k.ciphertext);
    FieldSlices(k.masterKeyId, rest);
    assert Frame(k) == Field(k.masterKeyId) + rest;
    RestOfFrame(k);
  }

  lemma FrameRest(id: seq<byte>, rest: seq<byte>)
    requires |rest| >= 8 && ParseRest(id, rest).Ok?
    ensures var k := ParseRest(id, rest).value;
      && k.masterKeyId == id && |k.iv| < TWO_TO_THE_32 && |k.ciphertext| < TWO_TO_THE_32
      && Field(k.iv) + Field(k.ciphertext) == rest
  {
    var ivLen := BigEndian(rest[0..4]);
    U32Writes(rest[0..4]);
    U32Writes(rest[4 + ivLen..8 + ivLen]);
  }

  /** Every accepted octet string is the frame of the key it parses to. */
  lemma {:induction false} FrameParse(combined: seq<byte>)
    requires Parse(combined).Ok?
    ensures var k := Parse(combined).value;
      Frame(k) == combined && Fits(k) && ValidUtf8(k.masterKeyId)
  {
    var idLen := BigEndian(combined[0..4]);
    var id, rest := combined[4..4 + idLen], combined[4 + idLen..];
    U32Writes(combined[0..4]);
    FrameRest(id, rest);
    assert Field(id) + rest == combined by { assert combined == combined[0..4] + id + rest; }
    var k := ParseRest(id, rest).value;
    assert Frame(k) == Field(id) + rest by { FrameAssociates(k); }
  }

  lemma FrameAssociates(k: DataKey)
    ensures Frame(k) == Field(k.masterKeyId) + (Field(k.iv) + Field(k.ciphertext))
  {
  }

  /** The framing round trip holds exactly for keys whose three lengths fit in 32 bits. */
  lemma FramingRoundTripIff(k: DataKey)
    requires ValidUtf8(k.masterKeyId)
    ensures Parse(Frame(k)) == Ok(k) <==> Fits(k)
    ensures FromBase64(Encode(Frame(k))) == Ok(k) <==> Fits(k)
  {
    DecodeEncode(Frame(k));
    if Fits(k) {
      ParseFrame(k);
    } else if Parse(Frame(k)) == Ok(k) {
      FrameParse(Frame(k));
    }
  }

  /** Parsing is a bijection from accepted texts onto keys that fit: each such key has one text, and it is the one
      `ToBase64` writes. */
  lemma TextsAndKeysCorrespond(s: string, k: DataKey)
    ensures FromBase64(s) == Ok(k) <==> ValidUtf8(k.masterKeyId) && Fits(k) && s == Encode(Frame(k))
  {
    if FromBase64(s) == Ok(k) {
      EncodeDecode(s);
      FrameParse(Decode(s).value);
    }
    if ValidUtf8(k.masterKeyId) && Fits(k) {
      FramingRoundTripIff(k);
    }
  }

  // --------------------------------------------------------------- wrapping

  /** The cipher and the keyed hash under one master key. */
  datatype Cipher = Cipher(
    encrypt: (seq<byte>, seq<byte>) -> Option<seq<byte>>,
    decrypt: (seq<byte>, seq<byte>) -> Option<seq<byte>>,
    mac: seq<byte> -> seq<byte>)

  /** What AES-256-GCM and HMAC-SHA-256 promise: decryption accepts exactly what encryption produced, which is sixteen
      octets longer, and a code is 32 octets long. */
  ghost predicate Lawful(c: Cipher) {
    && (forall iv, p, x :: c.encrypt(iv, p) == Some(x) <==> c.decrypt(iv, x) == Some(p))
    && (forall iv, p, x :: c.encrypt(iv, p) == Some(x) ==> |x| == |p| + 16)
    && (forall x :: |c.mac(x)| == 32)
  }

  function Wrapped(c: Cipher, iv: seq<byte>, dek: seq<byte>): Option<seq<byte>> {
    match c.encrypt(iv, dek)
    case None => None
    case Some(x) => Some(x + c.mac(x))
  }

  /** The nonce is random; here it is a parameter. */
  method WrapDek(c: Cipher, dek: seq<byte>, iv: seq<byte>) returns (r: Result<seq<byte>, EncryptionError>)
    requires |iv| == IV_SIZE
    ensures r == match Wrapped(c, iv, dek) case None => Err(EncryptFailed) case Some(x) => Ok(x)
  {
    var encrypted := c.encrypt(iv, dek);
    if encrypted.None? {
      return Err(EncryptFailed);
    }
    var wrapped := encrypted.value;
    var tag := c.mac(wrapped);
    wrapped := wrapped + tag;
    return Ok(wrapped);
  }

  function UnwrapDek(c: Cipher, wrapped: seq<byte>, iv: seq<byte>): Result<seq<byte>, EncryptionError> {
    if |wrapped| < HMAC_SIZE + DEK_SIZE then Err(InvalidKey)
    else
      var cut := |wrapped| - HMAC_SIZE;
      if c.mac(wrapped[..cut]) != wrapped[cut..] then Err(AuthFailed)
      else if |iv| != IV_SIZE then Err(BadNonce)
      else
        match c.decrypt(iv, wrapped[..cut])
        case None => Err(AuthFailed)
        case Some(dek) => Ok(dek)
  }

  /** Unwrapping accepts exactly what wrapping produced from a key of at least sixteen octets. */
  lemma UnwrapInvertsWrap(c: Cipher, wrapped: seq<byte>, iv: seq<byte>, dek: seq<byte>)
    requires Lawful(c)
    ensures UnwrapDek(c, wrapped, iv) == Ok(dek) <==>
      |iv| == 12 && |dek| >= 16 && Wrapped(c, iv, dek) == Some(wrapped)
  {
    if UnwrapDek(c, wrapped, iv) == Ok(dek) {
      var cut := |wrapped| - HMAC_SIZE;
      assert wrapped[..cut] + wrapped[cut..] == wrapped;
    }
    if Wrapped(c, iv, dek) == Some(wrapped) {
      var x := c.encrypt(iv, dek).value;
      assert |x| == |wrapped| - HMAC_SIZE;
      assert wrapped[..|x|] == x && wrapped[|x|..] == c.mac(x);
    }
  }

  /** A rightly coded key of at least sixteen octets stops the program iff its nonce is not twelve octets long. */
  lemma WrongNoncePanicsIff(c: Cipher, wrapped: seq<byte>, iv: seq<byte>, dek: seq<byte>, nonce: seq<byte>)
    requires Lawful(c) && |dek| >= 16 && Wrapped(c, iv, dek) == Some(wrapped)
    ensures UnwrapDek(c, wrapped, nonce) == Err(BadNonce) <==> |nonce| != 12
  {
    var x := c.encrypt(iv, dek).value;
    assert |x| == |wrapped| - HMAC_SIZE;
    assert wrapped[..|x|] == x && wrapped[|x|..] == c.mac(x);
  }

  const LOCAL_KEY_ID: seq<byte> := [0x6C, 0x6F, 0x63, 0x61, 0x6C]

  /** The octets `dek` and `iv` are random; here they are parameters. */
  method GenerateDek(c: Cipher, dek: seq<byte>, iv: seq<byte>) returns (r: Result<DataKey, EncryptionError>)
    requires |dek| == DEK_SIZE && |iv| == IV_SIZE
    ensures r == match Wrapped(c, iv, dek)
                 case None => Err(EncryptFailed)
                 case Some(x) => Ok(DataKey(x, iv, LOCAL_KEY_ID))
  {
    var wrapped := WrapDek(c, dek, iv);
    match wrapped {
      case Err(e) => return Err(e);
      case Ok(x) => return Ok(DataKey(x, iv, LOCAL_KEY_ID));
    }
  }

  /** A generated key written as text, read back and unwrapped gives the data key again. */
  lemma StoredKeyUnwraps(c: Cipher, dek: seq<byte>, iv: seq<byte>)
    requires Lawful(c) && |dek| == 32 && |iv| == 12 && Wrapped(c, iv, dek).Some?
    ensures var k := DataKey(Wrapped(c, iv, dek).value, iv, LOCAL_KEY_ID);
      && FromBase64(Encode(Frame(k))) == Ok(k)
      && UnwrapDek(c, k.ciphertext, k.iv) == Ok(dek)
  {
    var wrapped := Wrapped(c, iv, dek).value;
    UnwrapInvertsWrap(c, wrapped, iv, dek);
    assert |wrapped| == DEK_SIZE + 16 + HMAC_SIZE;
    LocalIdIsText();
    FramingRoundTripIff(DataKey(wrapped, iv, LOCAL_KEY_ID));
  }

  lemma LocalIdIsText()
    ensures ValidUtf8(LOCAL_KEY_ID)
  {
    var id := LOCAL_KEY_ID;
    assert id[1..][1..] == id[2..] && id[2..][1..] == id[3..] && id[3..][1..] == id[4..] && id[4..][1..] == [];
    assert ValidUtf8(id[4..]);
    assert ValidUtf8(id[3..]);
    assert ValidUtf8(id[2..]);
    assert ValidUtf8(id[1..]);
  }
}
