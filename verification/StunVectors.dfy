/** The sample IPv4 response of RFC 5769 section 2.2, and the replacement rules of the text decoder. */
module StunVectors {
  import opened Common
  import opened Net
  import opened StunCodec
  import opened StunRoundTrip
  import Crc32

  const HEAD: Bytes := [0x01, 0x01, 0x00, 0x3C, 0x21, 0x12, 0xA4, 0x42, 0xB7, 0xE7, 0xA7, 0x01, 0xBC, 0x34, 0xD6,
    0x86, 0xFA, 0x87, 0xDF, 0xAE]
  const PRODUCT: Bytes := [0x80, 0x22, 0x00, 0x0B, 0x74, 0x65, 0x73, 0x74, 0x20, 0x76, 0x65, 0x63, 0x74, 0x6F,
    0x72, 0x20]
  const MAPPED: Bytes := [0x00, 0x20, 0x00, 0x08, 0x00, 0x01, 0xA1, 0x47, 0xE1, 0x12, 0xA6, 0x43]
  const SEAL: Bytes := [0x00, 0x08, 0x00, 0x14, 0x2B, 0x91, 0xF5, 0x99, 0xFD, 0x9E, 0x90, 0xC3, 0x8C, 0x74, 0x89,
    0xF9, 0x2A, 0xF9, 0xBA, 0x53, 0xF0, 0x6B, 0xE7, 0xD7]
  const STAMP: Bytes := [0x80, 0x28, 0x00, 0x04, 0xC0, 0x7D, 0x4C, 0x96]

  lemma HeadSteps1()
    ensures Crc32.ByteStep(0xFFFF_FFFF, 0x01) == 0x5AFA_20E4 && Crc32.ByteStep(0x5AFA_20E4, 0x01) == 0xD03A_ECD7
    ensures Crc32.ByteStep(0xD03A_ECD7, 0x00) == 0x1867_7D9B && Crc32.ByteStep(0x1867_7D9B, 0x3C) == 0x48AA_5136
    ensures Crc32.ByteStep(0x48AA_5136, 0x21) == 0x839B_2F96 && Crc32.ByteStep(0x839B_2F96, 0x12) == 0xEA56_DC16
    ensures Crc32.ByteStep(0xEA56_DC16, 0xA4) == 0x2585_847C && Crc32.ByteStep(0x2585_847C, 0x42) == 0xC144_982F
    ensures Crc32.ByteStep(0xC144_982F, 0xB7) == 0xFE15_5FEE && Crc32.ByteStep(0xFE15_5FEE, 0xE7) == 0x7922_ADFB
  {}

  lemma HeadSteps2()
    ensures Crc32.ByteStep(0x7922_ADFB, 0xA7) == 0x62A4_3F72 && Crc32.ByteStep(0x62A4_3F72, 0x01) == 0xC96E_84B9
    ensures Crc32.ByteStep(0xC96E_84B9, 0xBC) == 0x70A3_9A0B && Crc32.ByteStep(0x70A3_9A0B, 0x34) == 0xB616_8EA7
    ensures Crc32.ByteStep(0xB616_8EA7, 0xD6) == 0x27B4_5724 && Crc32.ByteStep(0x27B4_5724, 0x86) == 0x38FF_7693
    ensures Crc32.ByteStep(0x38FF_7693, 0xFA) == 0x3456_268A && Crc32.ByteStep(0x3456_268A, 0x87) == 0x7E85_2A9B
    ensures Crc32.ByteStep(0x7E85_2A9B, 0xDF) == 0x71CF_00A3 && Crc32.ByteStep(0x71CF_00A3, 0xAE) == 0x7EC0_B3BD
  {}

  lemma HeadFolds()
    ensures Crc32.Fold(0xFFFF_FFFF, HEAD) == 0x7EC0_B3BD
  {
    hide Crc32.ByteStep, Crc32.Fold;
    HeadSteps1();
    HeadSteps2();
    var crcs := [0xFFFF_FFFF, 0x5AFA_20E4, 0xD03A_ECD7, 0x1867_7D9B, 0x48AA_5136, 0x839B_2F96, 0xEA56_DC16,
             0x2585_847C, 0xC144_982F, 0xFE15_5FEE, 0x7922_ADFB, 0x62A4_3F72, 0xC96E_84B9, 0x70A3_9A0B,
             0xB616_8EA7, 0x27B4_5724, 0x38FF_7693, 0x3456_268A, 0x7E85_2A9B, 0x71CF_00A3, 0x7EC0_B3BD];
    Crc32.FoldTo(0xFFFF_FFFF, HEAD, crcs);
  }

  lemma ProductSteps1()
    ensures Crc32.ByteStep(0x7EC0_B3BD, 0x80) == 0x5816_8CA2 && Crc32.ByteStep(0x5816_8CA2, 0x22) == 0xEDE0_95AC
    ensures Crc32.ByteStep(0xEDE0_95AC, 0x00) == 0xDF8D_0F56 && Crc32.ByteStep(0xDF8D_0F56, 0x0B) == 0x1505_A046
    ensures Crc32.ByteStep(0x1505_A046, 0x74) == 0xC8C2_5420 && Crc32.ByteStep(0xC8C2_5420, 0x65) == 0x067E_774B
    ensures Crc32.ByteStep(0x067E_774B, 0x73) == 0x2804_C6E9 && Crc32.ByteStep(0x2804_C6E9, 0x74) == 0x8E96_EB3F
  {}

  lemma ProductSteps2()
    ensures Crc32.ByteStep(0x8E96_EB3F, 0x20) == 0x8D86_9B1E && Crc32.ByteStep(0x8D86_9B1E, 0x76) == 0x43E4_6FF1
    ensures Crc32.ByteStep(0x43E4_6FF1, 0x65) == 0xF721_B332 && Crc32.ByteStep(0xF721_B332, 0x63) == 0x1C9B_40D1
    ensures Crc32.ByteStep(0x1C9B_40D1, 0x74) == 0xA6A0_CC27 && Crc32.ByteStep(0xA6A0_CC27, 0x6F) == 0x78A1_696E
    ensures Crc32.ByteStep(0x78A1_696E, 0x72) == 0x1479_FD26 && Crc32.ByteStep(0x1479_FD26, 0x20) == 0xE977_DCC8
  {}

  lemma ProductFolds()
    ensures Crc32.Fold(0x7EC0_B3BD, PRODUCT) == 0xE977_DCC8
  {
    hide Crc32.ByteStep, Crc32.Fold;
    ProductSteps1();
    ProductSteps2();
    var crcs := [0x7EC0_B3BD, 0x5816_8CA2, 0xEDE0_95AC, 0xDF8D_0F56, 0x1505_A046, 0xC8C2_5420, 0x067E_774B,
             0x2804_C6E9, 0x8E96_EB3F, 0x8D86_9B1E, 0x43E4_6FF1, 0xF721_B332, 0x1C9B_40D1, 0xA6A0_CC27,
             0x78A1_696E, 0x1479_FD26, 0xE977_DCC8];
    Crc32.FoldTo(0x7EC0_B3BD, PRODUCT, crcs);
  }

  lemma MappedSteps()
    ensures Crc32.ByteStep(0xE977_DCC8, 0x00) == 0x9556_3D5E && Crc32.ByteStep(0x9556_3D5E, 0x20) == 0xB728_0A06
    ensures Crc32.ByteStep(0xB728_0A06, 0x00) == 0xE9D4_8D3F && Crc32.ByteStep(0xE9D4_8D3F, 0x08) == 0xB854_7182
    ensures Crc32.ByteStep(0xB854_7182, 0x00) == 0x030E_B67D && Crc32.ByteStep(0x030E_B67D, 0x01) == 0x59B0_33A1
    ensures Crc32.ByteStep(0x59B0_33A1, 0xA1) == 0x0059_B033 && Crc32.ByteStep(0x0059_B033, 0x47) == 0x5768_EC95
    ensures Crc32.ByteStep(0x5768_EC95, 0xE1) == 0x573F_DDC9 && Crc32.ByteStep(0x573F_DDC9, 0x12) == 0x1156_3481
    ensures Crc32.ByteStep(0x1156_3481, 0xA6) == 0xA51B_E35F && Crc32.ByteStep(0xA51B_E35F, 0x43) == 0x14A4_47AC
  {}

  lemma MappedFolds()
    ensures Crc32.Fold(0xE977_DCC8, MAPPED) == 0x14A4_47AC
  {
    hide Crc32.ByteStep, Crc32.Fold;
    MappedSteps();
    var crcs := [0xE977_DCC8, 0x9556_3D5E, 0xB728_0A06, 0xE9D4_8D3F, 0xB854_7182, 0x030E_B67D, 0x59B0_33A1,
             0x0059_B033, 0x5768_EC95, 0x573F_DDC9, 0x1156_3481, 0xA51B_E35F, 0x14A4_47AC];
    Crc32.FoldTo(0xE977_DCC8, MAPPED, crcs);
  }

  lemma SealSteps1()
    ensures Crc32.ByteStep(0x14A4_47AC, 0x00) == 0xDF74_4B84 && Crc32.ByteStep(0xDF74_4B84, 0x08) == 0xE4D1_BB40
    ensures Crc32.ByteStep(0xE4D1_BB40, 0x00) == 0x7638_902B && Crc32.ByteStep(0x7638_902B, 0x14) == 0xB610_15AD
    ensures Crc32.ByteStep(0xB610_15AD, 0x2B) == 0x046D_3600 && Crc32.ByteStep(0x046D_3600, 0x91) == 0x870C_CEE4
    ensures Crc32.ByteStep(0x870C_CEE4, 0xF5) == 0x6A37_2C3C && Crc32.ByteStep(0x6A37_2C3C, 0x99) == 0xA6D6_604B
    ensures Crc32.ByteStep(0xA6D6_604B, 0xFD) == 0x22A4_C0D9 && Crc32.ByteStep(0x22A4_C0D9, 0x9E) == 0xE89A_70F3
    ensures Crc32.ByteStep(0xE89A_70F3, 0x90) == 0xD453_AA92 && Crc32.ByteStep(0xD453_AA92, 0xC3) == 0x1CB8_32C8
  {}

  lemma SealSteps2()
    ensures Crc32.ByteStep(0x1CB8_32C8, 0x8C) == 0x71AD_3DBB && Crc32.ByteStep(0x71AD_3DBB, 0x74) == 0x0BAA_721C
    ensures Crc32.ByteStep(0x0BAA_721C, 0x89) == 0x806E_CDB9 && Crc32.ByteStep(0x806E_CDB9, 0xF9) == 0x765C_2F5D
    ensures Crc32.ByteStep(0x765C_2F5D, 0x2A) == 0xCE17_B8B0 && Crc32.ByteStep(0xCE17_B8B0, 0xF9) == 0x0FCE_EE8C
    ensures Crc32.ByteStep(0x0FCE_EE8C, 0xBA) == 0xCFB5_5B77 && Crc32.ByteStep(0xCFB5_5B77, 0x53) == 0x3CCC_518A
    ensures Crc32.ByteStep(0x3CCC_518A, 0xF0) == 0xB0EC_5473 && Crc32.ByteStep(0xB0EC_5473, 0x6B) == 0x13DC_7402
    ensures Crc32.ByteStep(0x13DC_7402, 0xE7) == 0xD073_CA83 && Crc32.ByteStep(0xD073_CA83, 0xD7) == 0x6CD6_E627
  {}

  lemma SealFolds()
    ensures Crc32.Fold(0x14A4_47AC, SEAL) == 0x6CD6_E627
  {
    hide Crc32.ByteStep, Crc32.Fold;
    SealSteps1();
    SealSteps2();
    var crcs := [0x14A4_47AC, 0xDF74_4B84, 0xE4D1_BB40, 0x7638_902B, 0xB610_15AD, 0x046D_3600, 0x870C_CEE4,
             0x6A37_2C3C, 0xA6D6_604B, 0x22A4_C0D9, 0xE89A_70F3, 0xD453_AA92, 0x1CB8_32C8, 0x71AD_3DBB,
             0x0BAA_721C, 0x806E_CDB9, 0x765C_2F5D, 0xCE17_B8B0, 0x0FCE_EE8C, 0xCFB5_5B77, 0x3CCC_518A,
             0xB0EC_5473, 0x13DC_7402, 0xD073_CA83, 0x6CD6_E627];
    Crc32.FoldTo(0x14A4_47AC, SEAL, crcs);
  }

  lemma SampleChecksum()
    ensures Crc32.Checksum(HEAD + PRODUCT + MAPPED + SEAL) == 0x9329_19D8
  {
    hide Crc32.Fold;
    HeadFolds();
    ProductFolds();
    MappedFolds();
    SealFolds();
    Crc32.FoldSplit(0xFFFF_FFFF, HEAD, PRODUCT);
    Crc32.FoldSplit(0xFFFF_FFFF, HEAD + PRODUCT, MAPPED);
    Crc32.FoldSplit(0xFFFF_FFFF, HEAD + PRODUCT + MAPPED, SEAL);
  }

  // ------------------------------------------------------------ the walk

  /** The first TLV of `tlv + rest`, whatever its padding. */
  lemma WalkOne(covered: Bytes, tlv: Bytes, rest: Bytes, t: TransactionId)
    requires |tlv| >= 4 && Join(tlv[0], tlv[1]) != FINGERPRINT && TlvSize(tlv) == |tlv|
    ensures CheckFingerprint(covered, tlv + rest) == CheckFingerprint(covered + tlv, rest)
    ensures DecodeAttributes(tlv + rest, t)
         == Cons(DecodeAttribute(Join(tlv[0], tlv[1]), tlv[4..4 + LenOf(tlv[2], tlv[3])], t), DecodeAttributes(rest, t))
  {
    hide Join, LenOf, DecodeAttribute, Cons, Padding;
    var b := tlv + rest;
    assert TlvSize(b) == |tlv| && b[..|tlv|] == tlv && b[|tlv|..] == rest;
    assert b[4..4 + LenOf(b[2], b[3])] == tlv[4..4 + LenOf(tlv[2], tlv[3])];
  }

  lemma {:induction false} AsciiIsText(s: Bytes)
    requires forall i :: 0 <= i < |s| ==> s[i] < 0x80
    ensures ValidUtf8(s)
  {
    if s != [] {
      AsciiIsText(s[1..]);
    }
  }

  const ID: TransactionId := [0xB7, 0xE7, 0xA7, 0x01, 0xBC, 0x34, 0xD6, 0x86, 0xFA, 0x87, 0xDF, 0xAE]


  /** What the standard says the response holds. */
  ghost predicate Holds(m: Message, id: TransactionId, name: Bytes, addr: SocketAddr, seal: Bytes) {
    && m.class_ == Success && m.transaction == id && |m.attributes| == 3
    && m.attributes[0].Software? && m.attributes[0].text == name
    && m.attributes[1] == XorMappedAddress(addr)
    && m.attributes[2] == Unknown(0x0008, seal)
  }

  lemma AsciiDecodes(s: Bytes, t: TransactionId)
    requires forall i :: 0 <= i < |s| ==> s[i] < 0x80
    ensures var r := DecodeAttribute(SOFTWARE, s, t); r.Ok? && r.value.Software? && r.value.text == s
  {
    hide ValidUtf8, Lossy, DecodeAddress;
    AsciiIsText(s);
    LossyKeepsText(s);
  }

  /** `tlv` is one attribute, and it is read as `a`. */
  ghost predicate IsTlv(tlv: Bytes, t: TransactionId, a: Attribute) {
    && |tlv| >= 4 && Join(tlv[0], tlv[1]) != FINGERPRINT && TlvSize(tlv) == |tlv|
    && DecodeAttribute(Join(tlv[0], tlv[1]), tlv[4..4 + LenOf(tlv[2], tlv[3])], t) == Ok(a)
  }

  lemma ThreeDecode(covered: Bytes, x: Bytes, y: Bytes, z: Bytes, f: Bytes, t: TransactionId, a: Attribute,
                    b: Attribute, c: Attribute)
    requires IsTlv(x, t, a) && IsTlv(y, t, b) && IsTlv(z, t, c)
    requires CheckFingerprint(covered + x + y + z, f) == None && DecodeAttributes(f, t) == Ok([])
    ensures CheckFingerprint(covered, x + (y + (z + f))) == None
    ensures DecodeAttributes(x + (y + (z + f)), t) == Ok([a, b, c])
  {
    hide CheckFingerprint, DecodeAttributes, DecodeAttribute, Join, LenOf, TlvSize;
    WalkOne(covered, x, y + (z + f), t);
    WalkOne(covered + x, y, z + f, t);
    WalkOne(covered + x + y, z, f, t);
    assert [a] + ([b] + ([c] + [])) == [a, b, c];
  }

  lemma ProductDecodes() returns (a: Attribute)
    ensures IsTlv(PRODUCT, ID, a) && a.Software? && a.text == PRODUCT[4..15]
  {
    hide DecodeAttribute, ValidUtf8;
    assert TlvSize(PRODUCT) == 16 && Join(PRODUCT[0], PRODUCT[1]) == SOFTWARE && LenOf(PRODUCT[2], PRODUCT[3]) == 11;
    AsciiDecodes(PRODUCT[4..15], ID);
    a := DecodeAttribute(SOFTWARE, PRODUCT[4..15], ID).value;
  }

  lemma MappedDecodes()
    ensures IsTlv(MAPPED, ID, XorMappedAddress(V4([192, 0, 2, 1], 32853)))
  {
    var v := MAPPED[4..12];
    assert v == [0x00, 0x01, 0xA1, 0x47, 0xE1, 0x12, 0xA6, 0x43];
    WireValues(ID);
    AddressDecodes(V4([192, 0, 2, 1], 32853), true, ID);
    hide AddressValue, DecodeAddress;
  }

  lemma SealDecodes()
    ensures IsTlv(SEAL, ID, Unknown(0x0008, SEAL[4..]))
  {
    hide DecodeAddress;
    assert SEAL[4..24] == SEAL[4..];
  }

  lemma StampHolds(covered: Bytes)
    requires Crc32.Checksum(covered) == 0x9329_19D8
    ensures CheckFingerprint(covered, STAMP) == None && DecodeAttributes(STAMP, ID) == Ok([])
  {
    hide Crc32.Checksum, DecodeAttribute;
    assert STAMP[8..] == [];
  }

  lemma HeadDecodes(body: Bytes)
    requires |body| == 60
    ensures Decode(HEAD + body)
         == (if CheckFingerprint(HEAD, body).Some? then Err(CheckFingerprint(HEAD, body).value)
             else if DecodeAttributes(body, ID).Err? then Err(DecodeAttributes(body, ID).fault)
             else Ok(Message(Success, ID, DecodeAttributes(body, ID).value)))
  {
    hide CheckFingerprint, DecodeAttributes;
    var b := HEAD + body;
    assert b[..20] == HEAD && b[20..80] == body && b[4..8] == HEAD[4..8] && b[8..20] == HEAD[8..20];
    assert HEAD[4..8] == COOKIE && HEAD[8..20] == ID;
  }

  /** The standard's response, eighty bytes of it, decodes to the product name, the address and the
      integrity attribute it says it holds; its padding is a space, not a zero. */
  lemma SampleDecodes()
    ensures var r := Decode(HEAD + PRODUCT + MAPPED + SEAL + STAMP);
            r.Ok? && Holds(r.value, ID, PRODUCT[4..15], V4([192, 0, 2, 1], 32853), SEAL[4..])
  {
    hide *;
    Sizes();
    var product := ProductDecodes();
    MappedDecodes();
    SealDecodes();
    SampleChecksum();
    StampHolds(HEAD + PRODUCT + MAPPED + SEAL);
    var mapped, seal := XorMappedAddress(V4([192, 0, 2, 1], 32853)), Unknown(0x0008, SEAL[4..]);
    ThreeDecode(HEAD, PRODUCT, MAPPED, SEAL, STAMP, ID, product, mapped, seal);
    var body := PRODUCT + (MAPPED + (SEAL + STAMP));
    assert HEAD + PRODUCT + MAPPED + SEAL + STAMP == HEAD + body;
    HeadDecodes(body);
    HoldsThree(ID, product, mapped, seal);
  }

  lemma Sizes()
    ensures |PRODUCT| == 16 && |MAPPED| == 12 && |SEAL| == 24 && |STAMP| == 8
  {}

  lemma HoldsThree(id: TransactionId, a: Attribute, b: Attribute, c: Attribute)
    requires a.Software? && b.XorMappedAddress? && c.Unknown? && c.kind == 0x0008
    ensures Holds(Message(Success, id, [a, b, c]), id, a.text, b.addr, c.value)
  {}

  // ------------------------------------------------------------ ill-formed text

  /** One replacement for a lone byte, one for a character cut short, one for each byte of an overlong form. */
  lemma Replacements()
    ensures Lossy([0xFF]) == [0xEF, 0xBF, 0xBD]
    ensures Lossy([0xE2, 0x82]) == [0xEF, 0xBF, 0xBD]
    ensures Lossy([0xC0, 0x80]) == [0xEF, 0xBF, 0xBD, 0xEF, 0xBF, 0xBD]
    ensures Lossy([0xE2, 0x82, 0xAC]) == [0xE2, 0x82, 0xAC]
  {
  }
}
