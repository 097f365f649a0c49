/** The codec as the program runs it: growing buffers and cursors, each loop proved against the
    functions of `StunCodec`. */
module StunMethods {
  import opened Common
  import opened Net
  import opened StunCodec
  import Crc32

  method PushPadding(out: Bytes, len: nat) returns (r: Bytes)
    ensures r == out + Zeros(Padding(len))
  {
    r := out;
    var k := 0;
    while k < Padding(len)
      invariant k <= Padding(len) && r == out + Zeros(k)
    {
      assert Zeros(k + 1) == Zeros(k) + [0];
      r := r + [0];
      k := k + 1;
    }
  }

  method Masked(raw: Bytes, mask: Bytes) returns (r: Bytes)
    requires |raw| <= |mask|
    ensures r == XorBytes(raw, mask)
  {
    r := [];
    ghost var masked := XorBytes(raw, mask);
    var i := 0;
    while i < |raw|
      invariant i <= |raw| && r == masked[..i]
    {
      assert masked[i] == raw[i] ^ mask[i];
      r := r + [raw[i] ^ mask[i]];
      i := i + 1;
    }
  }

  /** Writing the four parts of a TLV one after the other. */
  lemma TlvAppended(out: Bytes, kind: bv16, value: Bytes)
    ensures out + [Hi(kind), Lo(kind)] + LenBytes(|value|) + value + Zeros(Padding(|value|)) == out + Tlv(kind, value)
  {
    hide Hi, Lo, LenBytes, Padding, Zeros;
  }

  method EncodeAddressAttribute(out: Bytes, kind: bv16, addr: SocketAddr, xor: bool, t: TransactionId)
    returns (r: Bytes)
    ensures r == out + Tlv(kind, AddressValue(addr, xor, t))
  {
    hide Hi, Lo, LenBytes, Padding, Zeros, Tlv, XorBytes;
    var raw := Octets(addr);
    var port := if xor then addr.port ^ COOKIE_PORT else addr.port;
    var value: Bytes := [0, if addr.V4? then 1 else 2, Hi(port), Lo(port)];
    if xor {
      raw := Masked(raw, Mask(addr, t));
    }
    value := value + raw;
    TlvAppended(out, kind, value);
    r := PushPadding(out + [Hi(kind), Lo(kind)] + LenBytes(|value|) + value, |value|);
  }

  method EncodeOne(out: Bytes, a: Attribute, t: TransactionId) returns (r: Bytes)
    ensures r == out + EncodeAttribute(a, t)
  {
    hide Hi, Lo, LenBytes, Padding, Zeros, AddressValue, Tlv, ChangeFlags;
    match a
    case MappedAddress(addr) => r := EncodeAddressAttribute(out, MAPPED_ADDRESS, addr, false, t);
    case XorMappedAddress(addr) => r := EncodeAddressAttribute(out, XOR_MAPPED_ADDRESS, addr, true, t);
    case ResponseOrigin(addr) => r := EncodeAddressAttribute(out, RESPONSE_ORIGIN, addr, false, t);
    case OtherAddress(addr) => r := EncodeAddressAttribute(out, OTHER_ADDRESS, addr, false, t);
    case ChangeRequest(ip, port) =>
      var flags := ChangeFlags(ip, port);
      r := out + [Hi(CHANGE_REQUEST), Lo(CHANGE_REQUEST)] + LenBytes(4) + flags;
      FourFlags(ip, port);
      NoPadding(r);
      TlvAppended(out, CHANGE_REQUEST, flags);
    case Software(text) =>
      TlvAppended(out, SOFTWARE, text);
      r := PushPadding(out + [Hi(SOFTWARE), Lo(SOFTWARE)] + LenBytes(|text|) + text, |text|);
    case Unknown(kind, value) =>
      if kind == FINGERPRINT { return out; }
      TlvAppended(out, kind, value);
      r := PushPadding(out + [Hi(kind), Lo(kind)] + LenBytes(|value|) + value, |value|);
  }

  lemma NoPadding(b: Bytes)
    ensures b + Zeros(Padding(4)) == b
  {}

  method EncodeMessage(m: Message) returns (out: Bytes)
    ensures out == Encode(m)
  {
    hide Crc32.Checksum, EncodeAttribute, WordBytes, Header, Hi, Lo;
    var attributes: Bytes := [];
    var i := 0;
    while i < |m.attributes|
      invariant i <= |m.attributes|
      invariant attributes + EncodeAttributes(m.attributes[i..], m.transaction)
        == EncodeAttributes(m.attributes, m.transaction)
    {
      assert m.attributes[i..][1..] == m.attributes[i + 1..];
      attributes := EncodeOne(attributes, m.attributes[i], m.transaction);
      i := i + 1;
    }
    assert m.attributes[i..] == [];
    out := Header(m.class_, |attributes| + 8, m.transaction) + attributes;
    assert out == Covered(m);
    var crc := Crc32.Crc32(out);
    out := out + ([Hi(FINGERPRINT), Lo(FINGERPRINT), 0, 4] + WordBytes(crc ^ FINGERPRINT_XOR));
  }

  /** The cursor may run past the end of the body: then there is no fingerprint to check. */
  method VerifyFingerprint(bytes: Bytes, n: nat) returns (r: Option<Fault>)
    requires 20 + n <= |bytes|
    ensures r == CheckFingerprint(bytes[..20], bytes[20..20 + n])
  {
    hide Crc32.Checksum, Join, LenOf, WordOf, CheckFingerprint, Padding;
    var end, cursor := 20 + n, 20;
    while cursor + 4 <= end
      invariant 20 <= cursor
      invariant cursor <= end ==>
                  CheckFingerprint(bytes[..cursor], bytes[cursor..end]) == CheckFingerprint(bytes[..20], bytes[20..end])
      invariant cursor > end ==> CheckFingerprint(bytes[..20], bytes[20..end]) == None
    {
      var kind := Join(bytes[cursor], bytes[cursor + 1]);
      var len := LenOf(bytes[cursor + 2], bytes[cursor + 3]);
      WalkOne(bytes, cursor, end);
      if kind == FINGERPRINT {
        if len != 4 { return Some(FingerprintLength); }
        if cursor + 8 != end { return Some(FingerprintNotLast); }
        var value := WordOf(bytes[cursor + 4], bytes[cursor + 5], bytes[cursor + 6], bytes[cursor + 7]);
        var crc := Crc32.Crc32(bytes[..cursor]);
        if value != crc ^ FINGERPRINT_XOR { return Some(FingerprintWrong); }
        return None;
      }
      cursor := cursor + 4 + (len + Padding(len));
    }
    if cursor <= end { WalkNone(bytes[..cursor], bytes[cursor..end]); }
    r := None;
  }

  lemma WalkNone(covered: Bytes, b: Bytes)
    requires |b| < 4
    ensures CheckFingerprint(covered, b) == None
  {}

  /** One turn of the loop is one unfolding of the walk. */
  lemma WalkOne(bytes: Bytes, c: nat, end: nat)
    requires c + 4 <= end <= |bytes|
    ensures var r := CheckFingerprint(bytes[..c], bytes[c..end]);
            var len := LenOf(bytes[c + 2], bytes[c + 3]);
            var next := c + 4 + (len + Padding(len));
            if Join(bytes[c], bytes[c + 1]) == FINGERPRINT then
              r == if len != 4 then Some(FingerprintLength)
                   else if c + 8 != end then Some(FingerprintNotLast)
                   else if WordOf(bytes[c + 4], bytes[c + 5], bytes[c + 6],
                                  bytes[c + 7]) != Crc32.Checksum(bytes[..c]) ^ FINGERPRINT_XOR
                   then Some(FingerprintWrong) else None
            else if next > end then r == None
            else r == CheckFingerprint(bytes[..next], bytes[next..end])
  {
    hide Crc32.Checksum, Join, LenOf, WordOf, Padding;
    var b := bytes[c..end];
    assert b[0] == bytes[c] && b[1] == bytes[c + 1] && b[2] == bytes[c + 2] && b[3] == bytes[c + 3];
    var size := TlvSize(b);
    if size <= |b| {
      assert b[size..] == bytes[c + size..end];
      assert bytes[..c] + b[..size] == bytes[..c + size];
    }
    if |b| == 8 {
      assert b[4] == bytes[c + 4] && b[5] == bytes[c + 5] && b[6] == bytes[c + 6] && b[7] == bytes[c + 7];
    }
  }

  /** What the loop still owes: the attributes read so far, then the rest. */
  ghost function After(read: seq<Attribute>, rest: Result<seq<Attribute>>): Result<seq<Attribute>> {
    if rest.Err? then rest else Ok(read + rest.value)
  }

  lemma AfterNothing(r: Result<seq<Attribute>>)
    ensures After([], r) == r
  {
    if r.Ok? { assert [] + r.value == r.value; }
  }

  lemma AfterOne(read: seq<Attribute>, a: Attribute, r: Result<seq<Attribute>>)
    ensures After(read + [a], r) == After(read, Cons(Ok(a), r))
  {
    if r.Ok? { assert read + [a] + r.value == read + ([a] + r.value); }
  }

  method ReadAttributes(body: Bytes, t: TransactionId) returns (r: Result<seq<Attribute>>)
    ensures r == DecodeAttributes(body, t)
  {
    hide Join, LenOf, DecodeAttribute, Padding, DecodeAttributes;
    var attributes: seq<Attribute>, cursor := [], 0;
    assert body[0..] == body;
    AfterNothing(DecodeAttributes(body, t));
    while cursor < |body|
      invariant cursor <= |body|
      invariant DecodeAttributes(body, t) == After(attributes, DecodeAttributes(body[cursor..], t))
    {
      ReadOne(body[cursor..], t);
      if cursor + 4 > |body| { return Err(ShortAttributeHeader); }
      var kind := Join(body[cursor], body[cursor + 1]);
      var len := LenOf(body[cursor + 2], body[cursor + 3]);
      var padded := len + Padding(len);
      if cursor + 4 + padded > |body| { return Err(AttributeOverrun); }
      var value := body[cursor + 4..cursor + 4 + len];
      assert body[cursor..][4..4 + len] == value;
      assert body[cursor..][4 + padded..] == body[cursor + 4 + padded..];
      cursor := cursor + 4 + padded;
      if kind != FINGERPRINT {
        var a := DecodeAttribute(kind, value, t);
        if a.Err? { return Err(a.fault); }
        AfterOne(attributes, a.value, DecodeAttributes(body[cursor..], t));
        attributes := attributes + [a.value];
      }
    }
    ReadNone(t);
    assert body[cursor..] == [] && attributes + [] == attributes;
    r := Ok(attributes);
  }

  lemma ReadNone(t: TransactionId)
    ensures DecodeAttributes([], t) == Ok([])
  {}

  lemma ReadOne(b: Bytes, t: TransactionId)
    requires b != []
    ensures var r := DecodeAttributes(b, t);
            if |b| < 4 then r == Err(ShortAttributeHeader)
            else
              var len := LenOf(b[2], b[3]);
              var next := 4 + (len + Padding(len));
              if next > |b| then r == Err(AttributeOverrun)
              else if Join(b[0], b[1]) == FINGERPRINT then r == DecodeAttributes(b[next..], t)
              else r == Cons(DecodeAttribute(Join(b[0], b[1]), b[4..4 + len], t), DecodeAttributes(b[next..], t))
  {
    hide Join, LenOf, Padding, DecodeAttribute;
  }

  method DecodeMessage(b: Bytes) returns (r: Result<Message>)
    ensures r == Decode(b)
  {
    hide CheckFingerprint, DecodeAttributes, LenOf, Join, ClassOf, ClassBits, MethodBits;
    if |b| < 20 { return Err(ShortHeader); }
    var w := Join(b[0], b[1]);
    if w & 0xC000 != 0 { return Err(BadTypeBits); }
    var n := LenOf(b[2], b[3]);
    if n % 4 != 0 { return Err(OddLength); }
    if 20 + n > |b| { return Err(ShortBody); }
    if b[4..8] != COOKIE { return Err(BadCookie); }
    var bad := VerifyFingerprint(b, n);
    if bad.Some? { return Err(bad.value); }
    if MethodBits(w) != METHOD_BINDING { return Err(UnsupportedMethod); }
    var xs := ReadAttributes(b[20..20 + n], b[8..20]);
    if xs.Err? { return Err(xs.fault); }
    r := Ok(Message(ClassOf(ClassBits(w)), b[8..20], xs.value));
  }
}
