/** The codec byte by byte, in the numbers the standard prints. */
module StunWire {
  import opened Common
  import opened Net
  import opened StunCodec
  import opened StunRoundTrip
  import Crc32

  function First(w: bv16): bv8 { (w >> 8) as bv8 }
  function Second(w: bv16): bv8 { (w & 0xFF) as bv8 }
  function BigEndian(a: bv8, b: bv8): nat { (a as nat) * 256 + b as nat }
  function Xor(a: bv8, b: bv8): bv8 { a ^ b }

  /** An address's value: a zero, the family, the port, the octets. */
  function PlainBytes(a: SocketAddr): Bytes {
    [0x00, if a.V4? then 0x01 else 0x02, First(a.port), Second(a.port)] + (if a.V4? then a.octets4 else a.octets6)
  }

  /** The mask over the octets: the cookie, then the transaction id. */
  function MaskAt(i: nat, t: TransactionId): bv8
    requires i < 16
  {
    if i == 0 then 0x21 else if i == 1 then 0x12 else if i == 2 then 0xA4 else if i == 3 then 0x42 else t[i - 4]
  }

  function MaskedOctets(o: Bytes, t: TransactionId): Bytes
    requires |o| <= 16
  {
    seq(|o|, i requires 0 <= i < |o| => Xor(o[i], MaskAt(i, t)))
  }

  /** Its masked form: port and octets under the mask. */
  function MaskedBytes(a: SocketAddr, t: TransactionId): Bytes {
    [0x00, if a.V4? then 0x01 else 0x02, Xor(First(a.port), 0x21), Xor(Second(a.port), 0x12)]
    + MaskedOctets(if a.V4? then a.octets4 else a.octets6, t)
  }

  lemma PlainIs(a: SocketAddr, t: TransactionId)
    ensures AddressValue(a, false, t) == PlainBytes(a)
  {}

  lemma PortMasked(p: bv16)
    ensures Hi(p ^ COOKIE_PORT) == Xor(First(p), 0x21) && Lo(p ^ COOKIE_PORT) == Xor(Second(p), 0x12)
  {}

  lemma XorAt(o: Bytes, mask: Bytes)
    requires |o| <= |mask|
    ensures |XorBytes(o, mask)| == |o| && forall i :: 0 <= i < |o| ==> XorBytes(o, mask)[i] == Xor(o[i], mask[i])
  {}

  lemma MaskIs(o: Bytes, mask: Bytes, t: TransactionId)
    requires (|o| == 4 <= |mask| && mask[..4] == COOKIE) || (|o| == 16 && mask == COOKIE + t)
    ensures XorBytes(o, mask) == MaskedOctets(o, t)
  {
    XorAt(o, mask);
    hide Xor, XorBytes;
    assert forall i :: 0 <= i < |o| ==> mask[i] == (if i < 4 then mask[..4][i] else t[i - 4]);
    assert forall i :: 0 <= i < |o| ==> mask[i] == MaskAt(i, t);
  }

  lemma MaskedIs(a: SocketAddr, t: TransactionId)
    ensures AddressValue(a, true, t) == MaskedBytes(a, t)
  {
    hide Hi, Lo, Xor, XorBytes, MaskedOctets, First, Second;
    PortMasked(a.port);
    assert Mask(a, t)[..4] == COOKIE;
    MaskIs(Octets(a), Mask(a, t), t);
  }

  /** Type, big-endian length, value, then zeros up to a multiple of four. */
  ghost predicate Framed(w: Bytes, hi: bv8, lo: bv8, value: Bytes) {
    && |w| % 4 == 0 && 4 + |value| <= |w| < 8 + |value|
    && w[0] == hi && w[1] == lo && BigEndian(w[2], w[3]) == |value| % 65536
    && w[4..4 + |value|] == value
    && forall i :: 4 + |value| <= i < |w| ==> w[i] == 0
  }

  lemma TlvFramed(kind: bv16, value: Bytes)
    ensures Framed(Tlv(kind, value), First(kind), Second(kind), value)
  {
    LenSplits(|value|);
    LenTwo(|value|);
    Aligned(|value|);
    hide LenBytes;
    var w, len, z := Tlv(kind, value), LenBytes(|value|), Zeros(Padding(|value|));
    assert w == [Hi(kind), Lo(kind), len[0], len[1]] + value + z;
    assert forall i :: 4 + |value| <= i < |w| ==> w[i] == z[i - 4 - |value|];
  }

  /** Every attribute on the wire. A fingerprint handed in is left out. */
  lemma AttributeBytes(a: Attribute, t: TransactionId)
    ensures var w := EncodeAttribute(a, t);
            match a
            case MappedAddress(x) => Framed(w, 0x00, 0x01, PlainBytes(x))
            case ChangeRequest(ip, port) =>
              Framed(w, 0x00, 0x03, [0, 0, 0, if ip && port then 6 else if ip then 4 else if port then 2 else 0])
            case XorMappedAddress(x) => Framed(w, 0x00, 0x20, MaskedBytes(x, t))
            case Software(text) => Framed(w, 0x80, 0x22, text)
            case ResponseOrigin(x) => Framed(w, 0x80, 0x2B, PlainBytes(x))
            case OtherAddress(x) => Framed(w, 0x80, 0x2C, PlainBytes(x))
            case Unknown(kind, value) =>
              if kind == 0x8028 then w == [] else Framed(w, First(kind), Second(kind), value)
  {
    hide Framed, Tlv, AddressValue, PlainBytes, MaskedBytes, ValidUtf8;
    TlvFramed(KindOf(a), ValueOf(a, t));
    match a
    case MappedAddress(x) => PlainIs(x, t);
    case XorMappedAddress(x) => MaskedIs(x, t);
    case ResponseOrigin(x) => PlainIs(x, t);
    case OtherAddress(x) => PlainIs(x, t);
    case _ =>
  }

  // ------------------------------------------------------------ reading

  /** `value` starts as `bytes` do, whatever its first byte. */
  ghost predicate Starts(bytes: Bytes, value: Bytes) {
    |bytes| <= |value| && forall i :: 1 <= i < |bytes| ==> value[i] == bytes[i]
  }

  /** An address is read exactly when the family is 1 or 2 and its octets are all there; it is the one whose
      bytes these are. */
  ghost predicate ReadAs(value: Bytes, t: TransactionId, r: Result<SocketAddr>, masked: bool) {
    if |value| >= 8 && value[1] == 1 then
      r.Ok? && r.value.V4? && Starts(if masked then MaskedBytes(r.value, t) else PlainBytes(r.value), value)
    else if |value| >= 20 && value[1] == 2 then
      && r.Ok? && r.value.V6? && r.value.flowinfo == 0 && r.value.scope == 0
      && Starts(if masked then MaskedBytes(r.value, t) else PlainBytes(r.value), value)
    else r == Err(BadAddress)
  }

  /** What each type number is read as. */
  lemma ReadsByNumber(kind: bv16, value: Bytes, t: TransactionId)
    ensures var r := DecodeAttribute(kind, value, t);
            && (kind == 0x0001 ==>
                  && (r.Ok? ==> r.value.MappedAddress?)
                  && ReadAs(value, t, if r.Ok? then Ok(r.value.addr) else Err(r.fault), false))
            && (kind == 0x0020 ==>
                  && (r.Ok? ==> r.value.XorMappedAddress?)
                  && ReadAs(value, t, if r.Ok? then Ok(r.value.addr) else Err(r.fault), true))
            && (kind == 0x802B ==>
                  && (r.Ok? ==> r.value.ResponseOrigin?)
                  && ReadAs(value, t, if r.Ok? then Ok(r.value.addr) else Err(r.fault), false))
            && (kind == 0x802C ==>
                  && (r.Ok? ==> r.value.OtherAddress?)
                  && ReadAs(value, t, if r.Ok? then Ok(r.value.addr) else Err(r.fault), false))
            && (kind == 0x0003 ==>
                  if |value| != 4 then r == Err(BadChangeRequest)
                  else r == Ok(ChangeRequest(value[3] & 0x04 == 0x04, value[3] & 0x02 == 0x02)))
            && (kind == 0x8022 ==> r.Ok? && r.value.Software? && r.value.text == Lossy(value))
            && (kind !in {0x0001, 0x0020, 0x802B, 0x802C, 0x0003, 0x8022} ==> r == Ok(Unknown(kind, value)))
  {
    hide DecodeAddress, ReadAs, Lossy, ValidUtf8;
    AddressRead(value, false, t);
    AddressRead(value, true, t);
    if |value| == 4 {
      FlagBits(value[3]);
    }
  }

  lemma FlagBits(b: bv8)
    ensures (b & 4 != 0) == (b & 0x04 == 0x04) && (b & 2 != 0) == (b & 0x02 == 0x02)
  {}

  lemma AddressRead(value: Bytes, masked: bool, t: TransactionId)
    ensures ReadAs(value, t, DecodeAddress(value, masked, t), masked)
  {
    hide Join, XorBytes, MaskedBytes, PlainBytes, Xor, First, Second, Starts;
    if |value| >= 8 && value[1] == 1 {
      ReadBack(value, 4, masked, t);
    } else if |value| >= 20 && value[1] == 2 {
      ReadBack(value, 16, masked, t);
    }
  }

  /** The address made of `value`'s port and first `n` octets has `value`'s bytes. */
  lemma ReadBack(value: Bytes, n: nat, masked: bool, t: TransactionId)
    requires (n == 4 && |value| >= 8 && value[1] == 1) || (n == 16 && |value| >= 20 && value[1] == 2)
    ensures var raw, o := Join(value[2], value[3]), value[4..][..n];
            var port := if masked then raw ^ COOKIE_PORT else raw;
            var octets := if masked then XorBytes(o, if n == 4 then COOKIE else COOKIE + t) else o;
            var a := if n == 4 then V4(octets, port) else V6(octets, port, 0, 0);
            Starts(if masked then MaskedBytes(a, t) else PlainBytes(a), value)
  {
    hide Join, Xor, XorBytes, First, Second, MaskedOctets, MaskedBytes, PlainBytes, Starts;
    PortBack(value[2], value[3]);
    var raw, o, mask := Join(value[2], value[3]), value[4..][..n], if n == 4 then COOKIE else COOKIE + t;
    if masked {
      assert COOKIE[..4] == COOKIE;
      MaskIs(o, mask, t);
      MaskedBack(value, n, o, raw ^ COOKIE_PORT, t);
    } else {
      PlainBack(value, n, o, raw);
    }
  }

  lemma PlainBack(value: Bytes, n: nat, o: Bytes, port: bv16)
    requires (n == 4 && |value| >= 8 && value[1] == 1) || (n == 16 && |value| >= 20 && value[1] == 2)
    requires o == value[4..][..n] && First(port) == value[2] && Second(port) == value[3]
    ensures Starts(PlainBytes(if n == 4 then V4(o, port) else V6(o, port, 0, 0)), value)
  {
    hide First, Second;
  }

  lemma MaskedBack(value: Bytes, n: nat, o: Bytes, port: bv16, t: TransactionId)
    requires (n == 4 && |value| >= 8 && value[1] == 1) || (n == 16 && |value| >= 20 && value[1] == 2)
    requires o == value[4..][..n] && Xor(First(port), 0x21) == value[2] && Xor(Second(port), 0x12) == value[3]
    ensures var m := MaskedOctets(o, t);
            Starts(MaskedBytes(if n == 4 then V4(m, port) else V6(m, port, 0, 0), t), value)
  {
    hide First, Second, Xor, MaskedOctets;
    MaskTwice(o, t);
  }

  lemma MaskTwice(o: Bytes, t: TransactionId)
    requires |o| <= 16
    ensures |MaskedOctets(o, t)| == |o| && MaskedOctets(MaskedOctets(o, t), t) == o
  {
    hide MaskAt;
    forall i | 0 <= i < |o|
      ensures Xor(Xor(o[i], MaskAt(i, t)), MaskAt(i, t)) == o[i]
    {
      XorByteTwice(o[i], MaskAt(i, t));
    }
    hide Xor;
  }

  lemma PortBack(a: bv8, b: bv8)
    ensures First(Join(a, b)) == a && Second(Join(a, b)) == b
    ensures Xor(First(Join(a, b) ^ COOKIE_PORT), 0x21) == a && Xor(Second(Join(a, b) ^ COOKIE_PORT), 0x12) == b
  {}

  // ------------------------------------------------------------ the message

  /** The only four message types. */
  ghost predicate Announced(w: Bytes, c: Class) {
    w == match c
         case Request => [0x00, 0x01]
         case Indication => [0x00, 0x11]
         case Success => [0x01, 0x01]
         case Error => [0x01, 0x11]
  }

  /** The type, the number of body bytes, the cookie and the transaction id. */
  ghost predicate Headed(h: Bytes, c: Class, n: nat, t: TransactionId) {
    && |h| == 20 && BigEndian(h[2], h[3]) == n && h[4..8] == [0x21, 0x12, 0xA4, 0x42] && h[8..] == t
    && Announced(h[..2], c)
  }

  /** The fingerprint attribute over `covered`. */
  ghost predicate Sealed(f: Bytes, covered: Bytes) {
    && |f| == 8 && f[..4] == [0x80, 0x28, 0x00, 0x04]
    && ((f[4] as bv32) << 24) | ((f[5] as bv32) << 16) | ((f[6] as bv32) << 8) | (f[7] as bv32)
       == Crc32.Checksum(covered) ^ 0x5354_554E
  }

  /** Every message on the wire: header, attributes one after the other, fingerprint over all of it. */
  lemma MessageBytes(m: Message)
    requires Fits(m)
    ensures var w, n := Encode(m), |Encode(m)| - 8;
            && n >= 20
            && Headed(w[..20], m.class_, |w| - 20, m.transaction)
            && w[20..n] == EncodeAttributes(m.attributes, m.transaction)
            && Sealed(w[n..], w[..n])
  {
    var xs := EncodeAttributes(m.attributes, m.transaction);
    assert |xs| + 8 < 65536;
    hide *;
    var h, f := Header(m.class_, |xs| + 8, m.transaction), FingerprintTlv(Covered(m));
    EncodeIs(m);
    CoveredIs(m);
    SealBytes(Covered(m));
    HeaderBytes(m.class_, |xs| + 8, m.transaction);
    Slices(h, xs, f);
  }

  lemma EncodeIs(m: Message)
    ensures Encode(m) == Covered(m) + FingerprintTlv(Covered(m))
  {}

  lemma Slices(h: Bytes, xs: Bytes, f: Bytes)
    requires |h| == 20 && |f| == 8
    ensures var w, n := h + xs + f, 20 + |xs|; w[..20] == h && w[20..n] == xs && w[..n] == h + xs && w[n..] == f
  {}

  lemma HeaderBytes(c: Class, n: nat, t: TransactionId)
    requires n < 65536
    ensures |Header(c, n, t)| == 20 && Headed(Header(c, n, t), c, n, t)
  {
    TypeBytes(c);
    HeaderShape(c, n, t);
    hide Header, Hi, Lo, TypeWord, ClassCode;
    var h, w := Header(c, n, t), TypeWord(METHOD_BINDING, ClassCode(c));
    assert h[..2] == [Hi(w), Lo(w)];
    assert h[8..] == h[8..20];
  }

  lemma SealBytes(covered: Bytes)
    ensures |FingerprintTlv(covered)| == 8 && Sealed(FingerprintTlv(covered), covered)
  {
    FingerprintShape(covered);
    hide Crc32.Checksum;
  }

  lemma TypeBytes(c: Class)
    ensures var w := TypeWord(METHOD_BINDING, ClassCode(c));
            Announced([Hi(w), Lo(w)], c)
  {}

  /** What the header alone refuses, first fault first; past it, only the body the length announces is read. */
  lemma HeaderRefusals(b: Bytes)
    ensures if |b| < 20 then Decode(b) == Err(ShortHeader)
            else
              var n := BigEndian(b[2], b[3]);
              if b[0] >= 0x40 then Decode(b) == Err(BadTypeBits)
              else if n % 4 != 0 then Decode(b) == Err(OddLength)
              else if 20 + n > |b| then Decode(b) == Err(ShortBody)
              else if b[4..8] != [0x21, 0x12, 0xA4, 0x42] then Decode(b) == Err(BadCookie)
              else Decode(b) == Decode(b[..20 + n]) && (Decode(b).Ok? ==> Announced(b[..2], Decode(b).value.class_))
  {
    hide CheckFingerprint, DecodeAttributes, MethodBits, ClassBits, ClassOf, Announced;
    if |b| >= 20 {
      TypeRead(b[0], b[1]);
      LenIs(b[2], b[3]);
      hide Join, LenOf, BigEndian;
      var n := LenOf(b[2], b[3]);
      assert b[..2] == [b[0], b[1]];
      if 20 + n <= |b| {
        TailIgnored(b, n);
      }
    }
  }

  lemma LenIs(a: bv8, b: bv8)
    ensures LenOf(a, b) == BigEndian(a, b)
  {}

  lemma TailIgnored(b: Bytes, n: nat)
    requires |b| >= 20 && n == LenOf(b[2], b[3]) && 20 + n <= |b|
    ensures Decode(b) == Decode(b[..20 + n])
  {
    hide CheckFingerprint, DecodeAttributes, MethodBits, ClassBits, ClassOf, Join, LenOf;
    var c := b[..20 + n];
    assert c[4..8] == b[4..8] && c[8..20] == b[8..20];
    assert c[..20] == b[..20] && c[20..20 + n] == b[20..20 + n];
  }

  lemma TypeRead(a: bv8, b: bv8)
    ensures Join(a, b) & 0xC000 != 0 <==> a >= 0x40
    ensures Join(a, b) & 0xC000 == 0 && MethodBits(Join(a, b)) == METHOD_BINDING ==>
              Announced([a, b], ClassOf(ClassBits(Join(a, b))))
  {}
}
