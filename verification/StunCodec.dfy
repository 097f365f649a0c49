/** The STUN codec: RFC 5389 section 6 (messages), 15 (attributes), 15.2 (XOR-MAPPED-ADDRESS)
    and 15.5 (FINGERPRINT), with the RFC 5780 attributes the program uses. */
module StunCodec {
  import opened Common
  import opened Net
  import Crc32

  type Bytes = seq<bv8>
  type TransactionId = t: Bytes | |t| == 12 witness [0, 0, 0, 0, 0, 0, 0, 0, 0, 0, 0, 0]

  const COOKIE: Bytes := [0x21, 0x12, 0xA4, 0x42]
  const COOKIE_PORT: bv16 := 0x2112
  const METHOD_BINDING: bv16 := 0x0001
  const MAPPED_ADDRESS: bv16 := 0x0001
  const CHANGE_REQUEST: bv16 := 0x0003
  const XOR_MAPPED_ADDRESS: bv16 := 0x0020
  const SOFTWARE: bv16 := 0x8022
  const FINGERPRINT: bv16 := 0x8028
  const RESPONSE_ORIGIN: bv16 := 0x802b
  const OTHER_ADDRESS: bv16 := 0x802c
  const FINGERPRINT_XOR: bv32 := 0x5354_554E

  datatype Class = Request | Indication | Success | Error

  datatype Attribute =
    | MappedAddress(addr: SocketAddr)
    | ChangeRequest(ip: bool, port: bool)
    | XorMappedAddress(addr: SocketAddr)
    | ResponseOrigin(addr: SocketAddr)
    | OtherAddress(addr: SocketAddr)
    | Software(text: Text)
    | Unknown(kind: bv16, value: Bytes)

  /** Binding is the only method. */
  datatype Message = Message(class_: Class, transaction: TransactionId, attributes: seq<Attribute>)

  datatype Fault =
    | ShortHeader | BadTypeBits | OddLength | ShortBody | BadCookie
    | FingerprintLength | FingerprintNotLast | FingerprintWrong
    | UnsupportedMethod | ShortAttributeHeader | AttributeOverrun | BadAddress | BadChangeRequest

  datatype Result<+T> = Ok(value: T) | Err(fault: Fault)

  // ---------------------------------------------------------------- UTF-8

  predicate Cont(b: bv8) { 0x80 <= b <= 0xBF }

  /** The first character of `s`, or how many bytes a lossy decoder replaces. */
  function Utf8Head(s: Bytes): (r: (bool, nat))
    requires s != []
    ensures 1 <= r.1 <= |s|
  {
    var b := s[0];
    if b < 0x80 then (true, 1)
    else if 0xC2 <= b <= 0xDF then (if |s| >= 2 && Cont(s[1]) then (true, 2) else (false, 1))
    else if 0xE0 <= b <= 0xEF then
      if |s| < 2 || !SecondOfThree(b, s[1]) then (false, 1)
      else if |s| < 3 || !Cont(s[2]) then (false, 2) else (true, 3)
    else if 0xF0 <= b <= 0xF4 then
      if |s| < 2 || !SecondOfFour(b, s[1]) then (false, 1)
      else if |s| < 3 || !Cont(s[2]) then (false, 2)
      else if |s| < 4 || !Cont(s[3]) then (false, 3) else (true, 4)
    else (false, 1)
  }

  predicate SecondOfThree(b: bv8, c: bv8) {
    if b == 0xE0 then 0xA0 <= c <= 0xBF else if b == 0xED then 0x80 <= c <= 0x9F else Cont(c)
  }

  predicate SecondOfFour(b: bv8, c: bv8) {
    if b == 0xF0 then 0x90 <= c <= 0xBF else if b == 0xF4 then 0x80 <= c <= 0x8F else Cont(c)
  }

  predicate ValidUtf8(s: Bytes) {
    s == [] || (Utf8Head(s).0 && ValidUtf8(s[Utf8Head(s).1..]))
  }

  /** A program string: its UTF-8 bytes. */
  type Text = s: Bytes | ValidUtf8(s) witness []

  /** `String::from_utf8_lossy`: each ill-formed run becomes U+FFFD. */
  function Lossy(s: Bytes): Bytes {
    if s == [] then []
    else (if Utf8Head(s).0 then s[..Utf8Head(s).1] else [0xEF, 0xBF, 0xBD]) + Lossy(s[Utf8Head(s).1..])
  }

  lemma {:induction false} LossyKeepsText(s: Bytes)
    requires ValidUtf8(s)
    ensures Lossy(s) == s
  {
    if s != [] {
      LossyKeepsText(s[Utf8Head(s).1..]);
    }
  }

  lemma {:induction false} LossyIsText(s: Bytes)
    ensures ValidUtf8(Lossy(s))
  {
    if s != [] {
      var n := Utf8Head(s).1;
      LossyIsText(s[n..]);
      var rest := Lossy(s[n..]);
      var head := if Utf8Head(s).0 then s[..n] else [0xEF, 0xBF, 0xBD];
      assert Utf8Head(head + rest) == (true, |head|);
      assert (head + rest)[|head|..] == rest;
    }
  }

  // ---------------------------------------------------------------- numbers

  function Hi(w: bv16): bv8 { (w >> 8) as bv8 }
  function Lo(w: bv16): bv8 { (w & 0xFF) as bv8 }
  function Join(a: bv8, b: bv8): bv16 { ((a as bv16) << 8) | (b as bv16) }

  /** A length field, truncated to 16 bits as the cast does. */
  function LenBytes(n: nat): Bytes { [((n / 256) % 256) as bv8, (n % 256) as bv8] }
  function LenOf(a: bv8, b: bv8): nat { (a as nat) * 256 + (b as nat) }

  function Padding(n: nat): nat { (4 - n % 4) % 4 }
  function Zeros(n: nat): Bytes { seq(n, _ => 0) }

  function WordBytes(w: bv32): Bytes {
    [(w >> 24) as bv8, ((w >> 16) & 0xFF) as bv8, ((w >> 8) & 0xFF) as bv8, (w & 0xFF) as bv8]
  }

  function WordOf(a: bv8, b: bv8, c: bv8, d: bv8): bv32 {
    ((a as bv32) << 24) | ((b as bv32) << 16) | ((c as bv32) << 8) | (d as bv32)
  }

  lemma JoinSplits(w: bv16)
    ensures Join(Hi(w), Lo(w)) == w
  {}

  lemma WordSplits(w: bv32)
    ensures WordOf(WordBytes(w)[0], WordBytes(w)[1], WordBytes(w)[2], WordBytes(w)[3]) == w
  {}

  lemma NextByte(b: bv8)
    requires b != 255
    ensures (b + 1) as nat == b as nat + 1
  {}

  lemma ByteOf(b: bv8, n: nat)
    requires b as nat == n < 256
    ensures n as bv8 == b
  {}

  lemma {:induction false} ByteRange(n: nat)
    requires n < 256
    ensures (n as bv8) as nat == n
  {
    if n > 0 {
      ByteRange(n - 1);
      var b := (n - 1) as bv8;
      NextByte(b);
      ByteOf(b + 1, n);
    }
  }

  lemma LenSplits(n: nat)
    ensures LenOf(LenBytes(n)[0], LenBytes(n)[1]) == n % 65536
  {
    ByteRange((n / 256) % 256);
    ByteRange(n % 256);
  }

  // ---------------------------------------------------------------- attributes

  function XorBytes(a: Bytes, mask: Bytes): Bytes
    requires |a| <= |mask|
  {
    seq(|a|, i requires 0 <= i < |a| => a[i] ^ mask[i])
  }

  function Mask(addr: SocketAddr, t: TransactionId): Bytes {
    if addr.V4? then COOKIE + Zeros(12) else COOKIE + t
  }

  function Octets(addr: SocketAddr): Bytes {
    if addr.V4? then addr.octets4 else addr.octets6
  }

  function AddressValue(addr: SocketAddr, xor: bool, t: TransactionId): Bytes {
    var family: bv8 := if addr.V4? then 1 else 2;
    var port := if xor then addr.port ^ COOKIE_PORT else addr.port;
    var raw := if xor then XorBytes(Octets(addr), Mask(addr, t)) else Octets(addr);
    [0, family, Hi(port), Lo(port)] + raw
  }

  function ChangeFlags(ip: bool, port: bool): Bytes {
    [0, 0, 0, (if ip then 4 else 0) | (if port then 2 else 0)]
  }

  lemma FourFlags(ip: bool, port: bool)
    ensures |ChangeFlags(ip, port)| == 4
  {}

  function KindOf(a: Attribute): bv16 {
    match a
    case MappedAddress(_) => MAPPED_ADDRESS
    case ChangeRequest(_, _) => CHANGE_REQUEST
    case XorMappedAddress(_) => XOR_MAPPED_ADDRESS
    case ResponseOrigin(_) => RESPONSE_ORIGIN
    case OtherAddress(_) => OTHER_ADDRESS
    case Software(_) => SOFTWARE
    case Unknown(kind, _) => kind
  }

  function ValueOf(a: Attribute, t: TransactionId): Bytes {
    match a
    case MappedAddress(addr) => AddressValue(addr, false, t)
    case ChangeRequest(ip, port) => ChangeFlags(ip, port)
    case XorMappedAddress(addr) => AddressValue(addr, true, t)
    case ResponseOrigin(addr) => AddressValue(addr, false, t)
    case OtherAddress(addr) => AddressValue(addr, false, t)
    case Software(text) => text
    case Unknown(_, value) => value
  }

  /** One TLV: type, unpadded length, value, zeros up to a multiple of four. */
  function Tlv(kind: bv16, value: Bytes): Bytes {
    [Hi(kind), Lo(kind)] + LenBytes(|value|) + value + Zeros(Padding(|value|))
  }

  /** A fingerprint handed in as an unknown attribute is dropped: the encoder makes its own. */
  predicate Dropped(a: Attribute) { a.Unknown? && a.kind == FINGERPRINT }

  function EncodeAttribute(a: Attribute, t: TransactionId): Bytes {
    if Dropped(a) then [] else Tlv(KindOf(a), ValueOf(a, t))
  }

  function EncodeAttributes(xs: seq<Attribute>, t: TransactionId): Bytes {
    if xs == [] then [] else EncodeAttribute(xs[0], t) + EncodeAttributes(xs[1..], t)
  }

  function DecodeAddress(value: Bytes, xor: bool, t: TransactionId): Result<SocketAddr> {
    if |value| < 4 then Err(BadAddress)
    else
      var raw := Join(value[2], value[3]);
      var port := if xor then raw ^ COOKIE_PORT else raw;
      var body := value[4..];
      if value[1] == 1 then
        if |body| < 4 then Err(BadAddress)
        else Ok(V4(if xor then XorBytes(body[..4], COOKIE) else body[..4], port))
      else if value[1] == 2 then
        if |body| < 16 then Err(BadAddress)
        else Ok(V6(if xor then XorBytes(body[..16], COOKIE + t) else body[..16], port, 0, 0))
      else Err(BadAddress)
  }

  function MapAddress(r: Result<SocketAddr>, f: SocketAddr -> Attribute): Result<Attribute> {
    if r.Ok? then Ok(f(r.value)) else Err(r.fault)
  }

  function DecodeAttribute(kind: bv16, value: Bytes, t: TransactionId): Result<Attribute> {
    if kind == MAPPED_ADDRESS then MapAddress(DecodeAddress(value, false, t), a => MappedAddress(a))
    else if kind == XOR_MAPPED_ADDRESS then MapAddress(DecodeAddress(value, true, t), a => XorMappedAddress(a))
    else if kind == RESPONSE_ORIGIN then MapAddress(DecodeAddress(value, false, t), a => ResponseOrigin(a))
    else if kind == OTHER_ADDRESS then MapAddress(DecodeAddress(value, false, t), a => OtherAddress(a))
    else if kind == SOFTWARE then LossyIsText(value); Ok(Software(Lossy(value)))
    else if kind == CHANGE_REQUEST then
      if |value| != 4 then Err(BadChangeRequest) else Ok(ChangeRequest(value[3] & 4 != 0, value[3] & 2 != 0))
    else Ok(Unknown(kind, value))
  }

  function Cons(r: Result<Attribute>, rest: Result<seq<Attribute>>): Result<seq<Attribute>> {
    if r.Err? then Err(r.fault) else if rest.Err? then rest else Ok([r.value] + rest.value)
  }

  /** The size of the TLV at the head of `b`. */
  function TlvSize(b: Bytes): nat
    requires |b| >= 4
  {
    var n := LenOf(b[2], b[3]); 4 + n + Padding(n)
  }

  function DecodeAttributes(b: Bytes, t: TransactionId): Result<seq<Attribute>>
    decreases |b|
  {
    if b == [] then Ok([])
    else if |b| < 4 then Err(ShortAttributeHeader)
    else if TlvSize(b) > |b| then Err(AttributeOverrun)
    else
      var rest := b[TlvSize(b)..];
      if Join(b[0], b[1]) == FINGERPRINT then DecodeAttributes(rest, t)
      else Cons(DecodeAttribute(Join(b[0], b[1]), b[4..4 + LenOf(b[2], b[3])], t), DecodeAttributes(rest, t))
  }

  // ---------------------------------------------------------------- fingerprint

  function FingerprintOf(covered: Bytes): bv32 { Crc32.Checksum(covered) ^ FINGERPRINT_XOR }

  function FingerprintTlv(covered: Bytes): Bytes {
    [Hi(FINGERPRINT), Lo(FINGERPRINT), 0, 4] + WordBytes(FingerprintOf(covered))
  }

  /** The walk over the attributes `b` that follow `covered`; `None` is success. */
  function CheckFingerprint(covered: Bytes, b: Bytes): Option<Fault>
    decreases |b|
  {
    if |b| < 4 then None
    else if Join(b[0], b[1]) == FINGERPRINT then
      if LenOf(b[2], b[3]) != 4 then Some(FingerprintLength)
      else if |b| != 8 then Some(FingerprintNotLast)
      else if WordOf(b[4], b[5], b[6], b[7]) != FingerprintOf(covered) then Some(FingerprintWrong)
      else None
    else if TlvSize(b) > |b| then None
    else CheckFingerprint(covered + b[..TlvSize(b)], b[TlvSize(b)..])
  }

  // ---------------------------------------------------------------- messages

  function ClassCode(c: Class): bv16 {
    match c case Request => 0 case Indication => 1 case Success => 2 case Error => 3
  }

  function ClassOf(code: bv16): Class {
    if code & 3 == 0 then Request else if code & 3 == 1 then Indication else if code & 3 == 2 then Success else Error
  }

  /** Method and class bits interleaved. */
  function TypeWord(method_: bv16, class_: bv16): bv16 {
    (method_ & 0x000F) | ((method_ & 0x0070) << 1) | ((method_ & 0x0F80) << 2)
    | ((class_ & 0x0002) << 7) | ((class_ & 0x0001) << 4)
  }

  function MethodBits(w: bv16): bv16 { (w & 0x000F) | ((w & 0x00E0) >> 1) | ((w & 0x3E00) >> 2) }
  function ClassBits(w: bv16): bv16 { ((w >> 7) & 0x2) | ((w >> 4) & 0x1) }

  function Header(c: Class, bodyLen: nat, t: TransactionId): Bytes {
    var w := TypeWord(METHOD_BINDING, ClassCode(c));
    [Hi(w), Lo(w)] + LenBytes(bodyLen) + COOKIE + t
  }

  /** Everything the fingerprint covers. */
  function Covered(m: Message): Bytes {
    var xs := EncodeAttributes(m.attributes, m.transaction);
    Header(m.class_, |xs| + 8, m.transaction) + xs
  }

  function Encode(m: Message): Bytes {
    Covered(m) + FingerprintTlv(Covered(m))
  }

  function Decode(b: Bytes): Result<Message> {
    if |b| < 20 then Err(ShortHeader)
    else
      var w := Join(b[0], b[1]);
      var n := LenOf(b[2], b[3]);
      if w & 0xC000 != 0 then Err(BadTypeBits)
      else if n % 4 != 0 then Err(OddLength)
      else if 20 + n > |b| then Err(ShortBody)
      else if b[4..8] != COOKIE then Err(BadCookie)
      else if CheckFingerprint(b[..20], b[20..20 + n]).Some? then Err(CheckFingerprint(b[..20], b[20..20 + n]).value)
      else if MethodBits(w) != METHOD_BINDING then Err(UnsupportedMethod)
      else
        var xs := DecodeAttributes(b[20..20 + n], b[8..20]);
        if xs.Err? then Err(xs.fault) else Ok(Message(ClassOf(ClassBits(w)), b[8..20], xs.value))
  }
}
