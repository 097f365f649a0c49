/** Decoding what was encoded gives the message back. */
module StunRoundTrip {
  import opened Common
  import opened Net
  import opened StunCodec

  // ------------------------------------------------------------ one TLV

  /** Where the parts of `head + value + pad + rest` are, for a head of four bytes. */
  lemma Layout(head: Bytes, value: Bytes, pad: Bytes, rest: Bytes)
    requires |head| == 4
    ensures var b := head + value + pad + rest;
            var n := 4 + |value| + |pad|;
            && b[0] == head[0] && b[1] == head[1] && b[2] == head[2] && b[3] == head[3]
            && b[4..4 + |value|] == value && b[..n] == head + value + pad && b[n..] == rest
  {}

  lemma TlvShape(kind: bv16, value: Bytes, rest: Bytes)
    requires |value| < 65536
    ensures var b := Tlv(kind, value) + rest;
            && |Tlv(kind, value)| == 4 + |value| + Padding(|value|)
            && Join(b[0], b[1]) == kind
            && LenOf(b[2], b[3]) == |value|
            && TlvSize(b) == |Tlv(kind, value)|
            && b[4..4 + |value|] == value
            && b[..TlvSize(b)] == Tlv(kind, value)
            && b[TlvSize(b)..] == rest
  {
    hide Hi, Lo, Join, LenBytes, LenOf, Padding, Zeros;
    JoinSplits(kind);
    LenSplits(|value|);
    LenTwo(|value|);
    ZerosLength(Padding(|value|));
    var head := [Hi(kind), Lo(kind)] + LenBytes(|value|);
    assert head[0] == Hi(kind) && head[1] == Lo(kind);
    assert head[2] == LenBytes(|value|)[0] && head[3] == LenBytes(|value|)[1];
    Layout(head, value, Zeros(Padding(|value|)), rest);
  }

  lemma LenTwo(n: nat)
    ensures |LenBytes(n)| == 2
  {}

  lemma ZerosLength(n: nat)
    ensures |Zeros(n)| == n
  {}

  lemma Aligned(n: nat)
    ensures (4 + n + Padding(n)) % 4 == 0
  {}

  lemma AlignedSum(a: nat, b: nat)
    requires a % 4 == 0 && b % 4 == 0
    ensures (a + b) % 4 == 0
  {}

  lemma TlvDecodes(kind: bv16, value: Bytes, rest: Bytes, t: TransactionId)
    requires |value| < 65536
    ensures DecodeAttributes(Tlv(kind, value) + rest, t)
         == if kind == FINGERPRINT then DecodeAttributes(rest, t)
            else Cons(DecodeAttribute(kind, value, t), DecodeAttributes(rest, t))
  {
    TlvShape(kind, value, rest);
    hide Tlv, TlvSize, DecodeAttribute, Cons, Join, LenOf;
  }

  lemma TlvWalks(covered: Bytes, kind: bv16, value: Bytes, rest: Bytes)
    requires |value| < 65536 && kind != FINGERPRINT
    ensures CheckFingerprint(covered, Tlv(kind, value) + rest) == CheckFingerprint(covered + Tlv(kind, value), rest)
  {
    TlvShape(kind, value, rest);
    hide Tlv, TlvSize, Join, LenOf;
  }

  // ------------------------------------------------------------ one attribute

  /** Attributes a decoder can tell apart from every other: IPv6 addresses without flow
      information or scope, and unknown attributes of kinds that are unknown. */
  predicate Plain(a: Attribute) {
    match a
    case MappedAddress(addr) => PlainAddress(addr)
    case XorMappedAddress(addr) => PlainAddress(addr)
    case ResponseOrigin(addr) => PlainAddress(addr)
    case OtherAddress(addr) => PlainAddress(addr)
    case Unknown(kind, _) => kind !in {MAPPED_ADDRESS, CHANGE_REQUEST, XOR_MAPPED_ADDRESS, SOFTWARE, RESPONSE_ORIGIN,
                                       OTHER_ADDRESS}
    case _ => true
  }

  predicate PlainAddress(a: SocketAddr) {
    a.V6? ==> a.flowinfo == 0 && a.scope == 0
  }

  lemma XorTwice(a: Bytes, mask: Bytes)
    requires |a| <= |mask|
    ensures XorBytes(XorBytes(a, mask), mask) == a
  {
    forall i | 0 <= i < |a| ensures XorBytes(XorBytes(a, mask), mask)[i] == a[i] {
      XorByteTwice(a[i], mask[i]);
    }
  }

  lemma XorByteTwice(a: bv8, m: bv8)
    ensures (a ^ m) ^ m == a
  {}

  lemma XorPortTwice(a: bv16, m: bv16)
    ensures (a ^ m) ^ m == a
  {}

  function Bare(a: SocketAddr): SocketAddr {
    if a.V4? then a else V6(a.octets6, a.port, 0, 0)
  }

  function Port(p: bv16, xor: bool): bv16 { if xor then p ^ COOKIE_PORT else p }

  lemma PortSurvives(p: bv16, xor: bool)
    ensures Port(Join(Hi(Port(p, xor)), Lo(Port(p, xor))), xor) == p
  {
    JoinSplits(Port(p, xor));
    hide Hi, Lo, Join;
    XorPortTwice(p, COOKIE_PORT);
  }

  function Raw(o: Bytes, xor: bool, mask: Bytes): Bytes
    requires |o| <= |mask|
  {
    if xor then XorBytes(o, mask) else o
  }

  lemma RawSurvives(o: Bytes, xor: bool, mask: Bytes)
    requires |o| <= |mask|
    ensures |Raw(o, xor, mask)| == |o| && Raw(Raw(o, xor, mask), xor, mask) == o
  {
    XorTwice(o, mask);
  }

  lemma AddressShape(addr: SocketAddr, xor: bool, t: TransactionId)
    ensures var mask := if addr.V4? then COOKIE else COOKIE + t;
            var v := AddressValue(addr, xor, t);
            && |v| == 4 + |Octets(addr)| && |Octets(addr)| == |mask|
            && v[1] == (if addr.V4? then 1 else 2)
            && v[2] == Hi(Port(addr.port, xor)) && v[3] == Lo(Port(addr.port, xor))
            && v[4..] == Raw(Octets(addr), xor, mask)
  {
    hide Hi, Lo;
    var mask := if addr.V4? then COOKIE else COOKIE + t;
    assert xor ==> XorBytes(Octets(addr), Mask(addr, t)) == XorBytes(Octets(addr), mask);
  }

  /** The address comes back, without the IPv6 flow information and scope that have no place in it. */
  lemma AddressDecodes(addr: SocketAddr, xor: bool, t: TransactionId)
    ensures DecodeAddress(AddressValue(addr, xor, t), xor, t) == Ok(Bare(addr))
  {
    var mask := if addr.V4? then COOKIE else COOKIE + t;
    var v := AddressValue(addr, xor, t);
    AddressShape(addr, xor, t);
    PortSurvives(addr.port, xor);
    RawSurvives(Octets(addr), xor, mask);
    DecodeAddressIs(v, xor, t);
    hide AddressValue, DecodeAddress, Hi, Lo, Join, Port, Raw;
    assert v[4..][..|mask|] == v[4..];
  }

  lemma DecodeAddressIs(v: Bytes, xor: bool, t: TransactionId)
    requires (|v| == 8 && v[1] == 1) || (|v| == 20 && v[1] == 2)
    ensures DecodeAddress(v, xor, t)
         == if v[1] == 1 then Ok(V4(Raw(v[4..][..4], xor, COOKIE), Port(Join(v[2], v[3]), xor)))
            else Ok(V6(Raw(v[4..][..16], xor, COOKIE + t), Port(Join(v[2], v[3]), xor), 0, 0))
  {
    hide Join, XorBytes;
  }

  lemma FlagsDecode(ip: bool, port: bool)
    ensures var f := ChangeFlags(ip, port)[3]; (f & 4 != 0) == ip && (f & 2 != 0) == port
  {}

  lemma ChangeRequestDecodes(ip: bool, port: bool, t: TransactionId)
    ensures DecodeAttribute(CHANGE_REQUEST, ChangeFlags(ip, port), t) == Ok(ChangeRequest(ip, port))
  {
    hide ChangeFlags, DecodeAddress, Lossy, ValidUtf8;
    FlagsDecode(ip, port);
    FourFlags(ip, port);
  }

  lemma SoftwareDecodes(text: Text, t: TransactionId)
    ensures DecodeAttribute(SOFTWARE, text, t) == Ok(Software(text))
  {
    hide DecodeAddress, Lossy, ValidUtf8;
    LossyKeepsText(text);
  }

  lemma UnknownDecodes(kind: bv16, value: Bytes, t: TransactionId)
    ensures DecodeAttribute(kind, value, t) == Ok(Unknown(kind, value)) <==> Plain(Unknown(kind, value))
  {
    hide DecodeAddress, Lossy, ValidUtf8;
  }

  lemma AddressAttributeDecodes(a: Attribute, t: TransactionId)
    requires a.MappedAddress? || a.XorMappedAddress? || a.ResponseOrigin? || a.OtherAddress?
    ensures DecodeAttribute(KindOf(a), ValueOf(a, t), t) == Ok(a) <==> Plain(a)
  {
    AddressDecodes(a.addr, a.XorMappedAddress?, t);
    hide AddressValue, DecodeAddress, Lossy, ValidUtf8;
  }

  /** An attribute survives exactly when it is plain. */
  lemma AttributeDecodes(a: Attribute, t: TransactionId)
    requires !Dropped(a)
    ensures DecodeAttribute(KindOf(a), ValueOf(a, t), t) == Ok(a) <==> Plain(a)
  {
    hide DecodeAttribute, AddressValue, ChangeFlags;
    match a
    case ChangeRequest(ip, port) => ChangeRequestDecodes(ip, port, t);
    case Software(text) => SoftwareDecodes(text, t);
    case Unknown(kind, value) => UnknownDecodes(kind, value, t);
    case _ => AddressAttributeDecodes(a, t);
  }

  // ------------------------------------------------------------ all attributes

  function Kept(xs: seq<Attribute>): seq<Attribute> {
    if xs == [] then [] else (if Dropped(xs[0]) then [] else [xs[0]]) + Kept(xs[1..])
  }

  ghost predicate AllPlain(xs: seq<Attribute>) {
    forall i :: 0 <= i < |xs| ==> Plain(xs[i])
  }

  /** Each attribute decoded on its own, in front of `rest`. */
  function EachDecoded(xs: seq<Attribute>, t: TransactionId, rest: Result<seq<Attribute>>): Result<seq<Attribute>> {
    if xs == [] then rest
    else if Dropped(xs[0]) then EachDecoded(xs[1..], t, rest)
    else Cons(DecodeAttribute(KindOf(xs[0]), ValueOf(xs[0], t), t), EachDecoded(xs[1..], t, rest))
  }

  lemma EncodedAttribute(a: Attribute, t: TransactionId)
    ensures Dropped(a) ==> EncodeAttribute(a, t) == []
    ensures !Dropped(a) ==>
              && KindOf(a) != FINGERPRINT
              && EncodeAttribute(a, t) == Tlv(KindOf(a), ValueOf(a, t))
              && |EncodeAttribute(a, t)| == 4 + |ValueOf(a, t)| + Padding(|ValueOf(a, t)|)
    ensures |EncodeAttribute(a, t)| % 4 == 0
  {
    hide ValueOf, LenBytes, Hi, Lo, Padding, Zeros;
    LenTwo(|ValueOf(a, t)|);
    ZerosLength(Padding(|ValueOf(a, t)|));
    Aligned(|ValueOf(a, t)|);
  }

  lemma {:induction false} AttributesDecode(xs: seq<Attribute>, t: TransactionId, tail: Bytes)
    requires |EncodeAttributes(xs, t)| < 65536
    ensures DecodeAttributes(EncodeAttributes(xs, t) + tail, t) == EachDecoded(xs, t, DecodeAttributes(tail, t))
  {
    hide Tlv, DecodeAttributes, DecodeAttribute, Cons, ValueOf, KindOf, Dropped, EncodeAttribute, Padding;
    if xs == [] {
      assert EncodeAttributes(xs, t) + tail == tail;
    } else {
      var head, rest := EncodeAttribute(xs[0], t), EncodeAttributes(xs[1..], t);
      EncodedAttribute(xs[0], t);
      AttributesDecode(xs[1..], t, tail);
      assert EncodeAttributes(xs, t) + tail == head + (rest + tail);
      if Dropped(xs[0]) {
        assert head + (rest + tail) == rest + tail;
      } else {
        TlvDecodes(KindOf(xs[0]), ValueOf(xs[0], t), rest + tail, t);
      }
    }
  }

  lemma {:induction false} AttributesWalk(covered: Bytes, xs: seq<Attribute>, t: TransactionId, tail: Bytes)
    requires |EncodeAttributes(xs, t)| < 65536
    ensures CheckFingerprint(covered, EncodeAttributes(xs, t) + tail)
      == CheckFingerprint(covered + EncodeAttributes(xs, t), tail)
    decreases |xs|
  {
    hide Tlv, CheckFingerprint, ValueOf, KindOf, Dropped, EncodeAttribute, Padding;
    if xs == [] {
      assert EncodeAttributes(xs, t) + tail == tail && covered + EncodeAttributes(xs, t) == covered;
    } else {
      var head, rest := EncodeAttribute(xs[0], t), EncodeAttributes(xs[1..], t);
      EncodedAttribute(xs[0], t);
      AttributesWalk(covered + head, xs[1..], t, tail);
      assert EncodeAttributes(xs, t) + tail == head + (rest + tail);
      assert covered + EncodeAttributes(xs, t) == covered + head + rest;
      if Dropped(xs[0]) {
        assert head + (rest + tail) == rest + tail && covered + head == covered;
      } else {
        TlvWalks(covered, KindOf(xs[0]), ValueOf(xs[0], t), rest + tail);
      }
    }
  }

  /** The list survives exactly when each kept attribute is plain. */
  lemma {:induction false} EachSurvives(xs: seq<Attribute>, t: TransactionId)
    ensures EachDecoded(xs, t, Ok([])) == Ok(Kept(xs)) <==> AllPlain(Kept(xs))
  {
    hide DecodeAttribute, Plain, KindOf, ValueOf, Dropped;
    if xs != [] {
      EachSurvives(xs[1..], t);
      var rest := Kept(xs[1..]);
      if Dropped(xs[0]) {
        assert Kept(xs) == rest;
      } else {
        AttributeDecodes(xs[0], t);
        assert Kept(xs) == [xs[0]] + rest;
        FirstAndRest(xs[0], rest);
        ConsEqual(DecodeAttribute(KindOf(xs[0]), ValueOf(xs[0], t), t), EachDecoded(xs[1..], t, Ok([])), xs[0], rest);
      }
    }
  }

  lemma FirstAndRest(x: Attribute, rest: seq<Attribute>)
    ensures AllPlain([x] + rest) <==> Plain(x) && AllPlain(rest)
  {
    hide Plain;
    assert ([x] + rest)[0] == x;
    assert forall i :: 0 <= i < |rest| ==> rest[i] == ([x] + rest)[i + 1];
  }

  lemma ConsEqual(r: Result<Attribute>, rs: Result<seq<Attribute>>, x: Attribute, rest: seq<Attribute>)
    ensures Cons(r, rs) == Ok([x] + rest) <==> r == Ok(x) && rs == Ok(rest)
  {
    if r.Ok? && rs.Ok? && [r.value] + rs.value == [x] + rest {
      assert r.value == ([r.value] + rs.value)[0] == x;
      assert rs.value == ([r.value] + rs.value)[1..] == rest;
    }
  }

  lemma {:induction false} AttributesAligned(xs: seq<Attribute>, t: TransactionId)
    ensures |EncodeAttributes(xs, t)| % 4 == 0
  {
    hide EncodeAttribute, Dropped, KindOf, ValueOf, Padding, Tlv;
    if xs != [] {
      AttributesAligned(xs[1..], t);
      EncodedAttribute(xs[0], t);
      AlignedSum(|EncodeAttribute(xs[0], t)|, |EncodeAttributes(xs[1..], t)|);
    }
  }

  // ------------------------------------------------------------ the fingerprint's own TLV

  lemma FingerprintShape(covered: Bytes)
    ensures var f := FingerprintTlv(covered);
            && |f| == 8 && Join(f[0], f[1]) == FINGERPRINT && LenOf(f[2], f[3]) == 4
            && WordOf(f[4], f[5], f[6], f[7]) == FingerprintOf(covered)
  {
    var w := FingerprintOf(covered);
    FingerprintParses(w);
    hide FingerprintOf, Join, LenOf, WordOf, WordBytes, Hi, Lo;
    var f := FingerprintTlv(covered);
    assert f[0] == Hi(FINGERPRINT) && f[1] == Lo(FINGERPRINT) && f[2] == 0 && f[3] == 4;
    assert f[4] == WordBytes(w)[0] && f[5] == WordBytes(w)[1] && f[6] == WordBytes(w)[2] && f[7] == WordBytes(w)[3];
  }

  lemma FingerprintParses(w: bv32)
    ensures |WordBytes(w)| == 4
    ensures Join(Hi(FINGERPRINT), Lo(FINGERPRINT)) == FINGERPRINT && LenOf(0, 4) == 4
    ensures WordOf(WordBytes(w)[0], WordBytes(w)[1], WordBytes(w)[2], WordBytes(w)[3]) == w
  {
    WordSplits(w);
    JoinSplits(FINGERPRINT);
    hide WordOf, WordBytes;
    WordFour(w);
  }

  lemma WordFour(w: bv32)
    ensures |WordBytes(w)| == 4
  {}

  lemma FingerprintAccepted(covered: Bytes)
    ensures CheckFingerprint(covered, FingerprintTlv(covered)) == None
  {
    FingerprintShape(covered);
    hide FingerprintTlv, FingerprintOf, Join, LenOf, WordOf;
  }

  lemma FingerprintSkipped(covered: Bytes, t: TransactionId)
    ensures DecodeAttributes(FingerprintTlv(covered), t) == Ok([])
  {
    FingerprintShape(covered);
    hide FingerprintTlv, FingerprintOf, Join, LenOf, WordOf, DecodeAttribute, Cons;
    var f := FingerprintTlv(covered);
    assert TlvSize(f) == 8;
    assert f[8..] == [];
  }

  // ------------------------------------------------------------ the header

  lemma TypeParses(c: Class)
    ensures var w := TypeWord(METHOD_BINDING, ClassCode(c));
            && Join(Hi(w), Lo(w)) == w && w & 0xC000 == 0
            && MethodBits(w) == METHOD_BINDING && ClassOf(ClassBits(w)) == c
  {
    JoinSplits(TypeWord(METHOD_BINDING, ClassCode(c)));
    match c { case Request => case Indication => case Success => case Error => }
  }

  /** The four binding types as the standard writes them, and its example of a masked address. */
  lemma WireValues(t: TransactionId)
    ensures TypeWord(METHOD_BINDING, ClassCode(Request)) == 0x0001
    ensures TypeWord(METHOD_BINDING, ClassCode(Indication)) == 0x0011
    ensures TypeWord(METHOD_BINDING, ClassCode(Success)) == 0x0101
    ensures TypeWord(METHOD_BINDING, ClassCode(Error)) == 0x0111
    ensures AddressValue(V4([192, 0, 2, 1], 32853), true, t) == [0, 1, 0xA1, 0x47, 0xE1, 0x12, 0xA6, 0x43]
  {
    var mask := COOKIE + Zeros(12);
    assert mask[..4] == COOKIE;
    assert XorBytes([192, 0, 2, 1], mask) == [192 ^ 0x21, 0 ^ 0x12, 2 ^ 0xA4, 1 ^ 0x42];
  }

  lemma HeaderShape(c: Class, n: nat, t: TransactionId)
    requires n < 65536
    ensures var h := Header(c, n, t);
            var w := TypeWord(METHOD_BINDING, ClassCode(c));
            && |h| == 20 && h[0] == Hi(w) && h[1] == Lo(w) && LenOf(h[2], h[3]) == n
            && h[4..8] == COOKIE && h[8..20] == t
  {
    LenSplits(n);
    LenTwo(n);
    hide LenBytes, LenOf, Hi, Lo, TypeWord, ClassCode;
    var h := Header(c, n, t);
    var w := TypeWord(METHOD_BINDING, ClassCode(c));
    assert h == [Hi(w), Lo(w)] + LenBytes(n) + COOKIE + t;
    assert h[2] == LenBytes(n)[0] && h[3] == LenBytes(n)[1];
  }

  // ------------------------------------------------------------ the message

  /** The body fits the header's 16-bit length. */
  predicate Fits(m: Message) {
    |EncodeAttributes(m.attributes, m.transaction)| + 8 < 65536
  }

  lemma CoveredIs(m: Message)
    ensures Covered(m) == Header(m.class_, |EncodeAttributes(m.attributes, m.transaction)| + 8, m.transaction)
                          + EncodeAttributes(m.attributes, m.transaction)
  {}

  /** What a decoder sees of a fitting message, whatever follows it. */
  lemma EncodedShape(m: Message, tail: Bytes)
    requires Fits(m)
    ensures var b := Encode(m) + tail;
            var h := Header(m.class_, |EncodeAttributes(m.attributes, m.transaction)| + 8, m.transaction);
            var n := LenOf(b[2], b[3]);
            && |b| >= 20 && b[..20] == h && b[0] == h[0] && b[1] == h[1]
            && b[4..8] == COOKIE && b[8..20] == m.transaction
            && n == |EncodeAttributes(m.attributes, m.transaction)| + 8 && n % 4 == 0 && 20 + n <= |b|
            && b[20..20 + n] == EncodeAttributes(m.attributes, m.transaction) + FingerprintTlv(Covered(m))
  {
    hide FingerprintTlv, FingerprintOf, Header, EncodeAttributes, LenOf, Join, WordOf, Covered, Hi, Lo, TypeWord,
      ClassCode;
    var xs := EncodeAttributes(m.attributes, m.transaction);
    var h := Header(m.class_, |xs| + 8, m.transaction);
    AttributesAligned(m.attributes, m.transaction);
    AlignedSum(|xs|, 8);
    HeaderShape(m.class_, |xs| + 8, m.transaction);
    FingerprintShape(Covered(m));
    CoveredIs(m);
    MessageLayout(h, xs, FingerprintTlv(Covered(m)), tail);
    assert h[2] == (Encode(m) + tail)[2] && h[3] == (Encode(m) + tail)[3];
  }

  lemma MessageLayout(h: Bytes, xs: Bytes, f: Bytes, tail: Bytes)
    requires |h| == 20 && |f| == 8
    ensures var b := h + xs + f + tail;
            var n := |xs| + 8;
            && b[..20] == h && b[4..8] == h[4..8] && b[8..20] == h[8..20] && b[20..20 + n] == xs + f && 20 + n <= |b|
            && b[0] == h[0] && b[1] == h[1] && b[2] == h[2] && b[3] == h[3]
  {}

  /** For every message whose body fits, and whatever bytes follow it: decoding gives the
      message back, hand-made fingerprints dropped, if and only if its attributes are plain. */
  lemma RoundTrip(m: Message, tail: Bytes)
    requires Fits(m)
    ensures Decode(Encode(m) + tail) == Ok(m.(attributes := Kept(m.attributes))) <==> AllPlain(Kept(m.attributes))
  {
    hide Encode, Join, LenOf, TypeWord, MethodBits, ClassBits, ClassOf, Hi, Lo, CheckFingerprint, DecodeAttributes,
      WordOf,
      EncodeAttributes, FingerprintTlv, FingerprintOf, Header, EachDecoded, Kept, AllPlain, ClassCode, Covered;
    var xs := EncodeAttributes(m.attributes, m.transaction);
    var h := Header(m.class_, |xs| + 8, m.transaction);
    var f := FingerprintTlv(Covered(m));
    EncodedShape(m, tail);
    TypeParses(m.class_);
    HeaderShape(m.class_, |xs| + 8, m.transaction);
    CoveredIs(m);
    AttributesWalk(h, m.attributes, m.transaction, f);
    FingerprintAccepted(Covered(m));
    AttributesDecode(m.attributes, m.transaction, f);
    FingerprintSkipped(Covered(m), m.transaction);
    EachSurvives(m.attributes, m.transaction);
  }
}
