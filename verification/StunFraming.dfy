/** What happens when the fields the fingerprint does not protect are altered: the header's length,
    an attribute's length, and the kind of the fingerprint attribute itself. */
module StunFraming {
  import opened Common
  import opened StunCodec
  import opened StunRoundTrip
  import Crc32
  import StunFingerprint

  /** The last steps of decoding, once header and body are known. */
  function Finish(c: Class, t: TransactionId, bad: Option<Fault>, xs: Result<seq<Attribute>>): Result<Message> {
    if bad.Some? then Err(bad.value) else if xs.Err? then Err(xs.fault) else Ok(Message(c, t, xs.value))
  }

  /** A binding header that announces exactly `body`, and whatever follows. */
  lemma BodyDecodes(c: Class, t: TransactionId, body: Bytes, more: Bytes)
    requires |body| < 65536
    ensures var h := Header(c, |body|, t);
            Decode(h + body + more)
            == if |body| % 4 != 0 then Err(OddLength)
               else Finish(c, t, CheckFingerprint(h, body), DecodeAttributes(body, t))
  {
    hide Hi, Lo, Join, LenOf, TypeWord, ClassCode, ClassOf, MethodBits, ClassBits, Header, CheckFingerprint,
      DecodeAttributes;
    HeaderShape(c, |body|, t);
    TypeParses(c);
    BodyLayout(Header(c, |body|, t), body, more);
  }

  lemma BodyLayout(h: Bytes, body: Bytes, more: Bytes)
    requires |h| == 20
    ensures var b := h + body + more;
            && b[..20] == h && b[4..8] == h[4..8] && b[8..20] == h[8..20] && b[20..20 + |body|] == body
            && b[0] == h[0] && b[1] == h[1] && b[2] == h[2] && b[3] == h[3]
  {}

  /** A header that announces more than there is. */
  lemma MissingBodyFails(c: Class, n: nat, t: TransactionId, rest: Bytes)
    requires |rest| < n < 65536
    ensures Decode(Header(c, n, t) + rest).Err?
  {
    hide Hi, Lo, Join, LenOf, TypeWord, ClassCode, Header, CheckFingerprint, DecodeAttributes;
    HeaderShape(c, n, t);
    BodyLayout(Header(c, n, t), rest, []);
    assert Header(c, n, t) + rest + [] == Header(c, n, t) + rest;
  }

  // ------------------------------------------------------------ what an attribute decoder accepts

  const ADDRESS_KINDS: set<bv16> := {MAPPED_ADDRESS, XOR_MAPPED_ADDRESS, RESPONSE_ORIGIN, OTHER_ADDRESS}

  /** An address needs a known family and all its octets, a change request four bytes; the rest is free. */
  predicate Decodable(kind: bv16, value: Bytes) {
    && (kind in ADDRESS_KINDS ==> (|value| >= 8 && value[1] == 1) || (|value| >= 20 && value[1] == 2))
    && (kind == CHANGE_REQUEST ==> |value| == 4)
  }

  lemma DecodableIs(kind: bv16, value: Bytes, t: TransactionId)
    ensures DecodeAttribute(kind, value, t).Ok? <==> Decodable(kind, value)
  {
    hide Join, Lossy, ValidUtf8, XorBytes;
  }

  ghost predicate AllDecodable(xs: seq<Attribute>, t: TransactionId) {
    forall i :: 0 <= i < |xs| && !Dropped(xs[i]) ==> Decodable(KindOf(xs[i]), ValueOf(xs[i], t))
  }

  lemma {:induction false} EachOk(xs: seq<Attribute>, t: TransactionId, rest: Result<seq<Attribute>>)
    ensures EachDecoded(xs, t, rest).Ok? <==> AllDecodable(xs, t) && rest.Ok?
  {
    hide DecodeAttribute, KindOf, ValueOf, Dropped, Decodable;
    if xs != [] {
      EachOk(xs[1..], t, rest);
      DecodableIs(KindOf(xs[0]), ValueOf(xs[0], t), t);
      assert AllDecodable(xs, t)
        <==> (!Dropped(xs[0]) ==> Decodable(KindOf(xs[0]), ValueOf(xs[0], t))) && AllDecodable(xs[1..], t) by {
        assert forall i :: 1 <= i < |xs| ==> xs[i] == xs[1..][i - 1];
      }
    }
  }

  /** TLVs from end to end, each a fingerprint or decodable. */
  predicate Readable(b: Bytes)
    decreases |b|
  {
    b == [] ||
    (&& |b| >= 4 && TlvSize(b) <= |b|
     && (Join(b[0], b[1]) == FINGERPRINT || Decodable(Join(b[0], b[1]), b[4..4 + LenOf(b[2], b[3])]))
     && Readable(b[TlvSize(b)..]))
  }

  lemma {:induction false} ReadableIs(b: Bytes, t: TransactionId)
    ensures DecodeAttributes(b, t).Ok? <==> Readable(b)
    decreases |b|
  {
    hide Join, LenOf, DecodeAttribute, Decodable, Padding;
    if |b| >= 4 && TlvSize(b) <= |b| {
      DecodableIs(Join(b[0], b[1]), b[4..4 + LenOf(b[2], b[3])], t);
      ReadableIs(b[TlvSize(b)..], t);
    }
  }

  // ------------------------------------------------------------ the header's length

  /** `n` bytes of attributes end exactly where the `k`-th does. */
  predicate EndsAt(m: Message, k: nat, n: nat) {
    k <= |m.attributes| && n == |EncodeAttributes(m.attributes[..k], m.transaction)|
  }

  /** The first `k` attributes, as a decoder reads them, and nothing else of the message. */
  function CutTo(m: Message, k: nat): Result<Message>
    requires k <= |m.attributes|
  {
    Finish(m.class_, m.transaction, None, EachDecoded(m.attributes[..k], m.transaction, Ok([])))
  }

  lemma {:induction false} EncodedParts(xs: seq<Attribute>, ys: seq<Attribute>, t: TransactionId)
    ensures EncodeAttributes(xs + ys, t) == EncodeAttributes(xs, t) + EncodeAttributes(ys, t)
  {
    hide EncodeAttribute;
    if xs == [] {
      assert xs + ys == ys;
    } else {
      EncodedParts(xs[1..], ys, t);
      assert (xs + ys)[1..] == xs[1..] + ys;
      var head, rest := EncodeAttribute(xs[0], t), EncodeAttributes(xs[1..], t);
      assert head + (rest + EncodeAttributes(ys, t)) == head + rest + EncodeAttributes(ys, t);
    }
  }

  lemma Parted(xs: seq<Attribute>, k: nat, t: TransactionId)
    requires k <= |xs|
    ensures EncodeAttributes(xs, t) == EncodeAttributes(xs[..k], t) + EncodeAttributes(xs[k..], t)
  {
    hide EncodeAttributes;
    EncodedParts(xs[..k], xs[k..], t);
    assert xs == xs[..k] + xs[k..];
  }

  /** The body ends with an attribute: it decodes to those it holds. */
  lemma CutDecodes(m: Message, k: nat, more: Bytes)
    requires Fits(m) && k <= |m.attributes|
    ensures var body := EncodeAttributes(m.attributes[..k], m.transaction);
            |body| < 65536 && Decode(Header(m.class_, |body|, m.transaction) + body + more) == CutTo(m, k)
  {
    hide Decode, EncodeAttributes, Header, CheckFingerprint, DecodeAttributes, EachDecoded;
    var t, xs := m.transaction, m.attributes[..k];
    var body := EncodeAttributes(xs, t);
    Parted(m.attributes, k, t);
    AttributesAligned(xs, t);
    BodyDecodes(m.class_, t, body, more);
    AttributesWalk(Header(m.class_, |body|, t), xs, t, []);
    AttributesDecode(xs, t, []);
    assert body + [] == body;
    EmptyRegion(Header(m.class_, |body|, t) + body, t);
  }

  lemma CutOk(m: Message, k: nat)
    requires k <= |m.attributes|
    ensures CutTo(m, k).Ok? <==> AllDecodable(m.attributes[..k], m.transaction)
  {
    hide EachDecoded, AllDecodable;
    EachOk(m.attributes[..k], m.transaction, Ok([]));
  }

  lemma EmptyRegion(covered: Bytes, t: TransactionId)
    ensures CheckFingerprint(covered, []) == None && DecodeAttributes([], t) == Ok([])
  {}

  /** A region that ends inside an attribute does not decode. */
  lemma {:induction false} CutInside(xs: seq<Attribute>, t: TransactionId, n: nat)
    requires n <= |EncodeAttributes(xs, t)| < 65536
    requires forall k :: 0 <= k <= |xs| ==> n != |EncodeAttributes(xs[..k], t)|
    ensures DecodeAttributes(EncodeAttributes(xs, t)[..n], t).Err?
  {
    hide Tlv, DecodeAttributes, DecodeAttribute, ValueOf, KindOf, Dropped, EncodeAttribute, Padding;
    assert xs[..0] == [] && n != |EncodeAttributes(xs[..0], t)|;
    if xs != [] {
      var head, rest := EncodeAttribute(xs[0], t), EncodeAttributes(xs[1..], t);
      EncodedAttribute(xs[0], t);
      if n < |head| {
        assert (head + rest)[..n] == head[..n];
        PartOfTlv(KindOf(xs[0]), ValueOf(xs[0], t), n, t);
      } else {
        forall k | 0 <= k <= |xs[1..]| ensures n - |head| != |EncodeAttributes(xs[1..][..k], t)| {
          assert xs[..k + 1][1..] == xs[1..][..k] && xs[..k + 1][0] == xs[0];
          assert n != |EncodeAttributes(xs[..k + 1], t)|;
        }
        CutInside(xs[1..], t, n - |head|);
        assert (head + rest)[..n] == head + rest[..n - |head|];
        if Dropped(xs[0]) {
          assert head + rest[..n - |head|] == rest[..n];
        } else {
          TlvDecodes(KindOf(xs[0]), ValueOf(xs[0], t), rest[..n - |head|], t);
        }
      }
    }
  }

  lemma PartOfTlv(kind: bv16, value: Bytes, n: nat, t: TransactionId)
    requires |value| < 65536 && 0 < n < |Tlv(kind, value)|
    ensures DecodeAttributes(Tlv(kind, value)[..n], t).Err?
  {
    TlvShape(kind, value, []);
    hide Tlv, DecodeAttribute, Join, LenOf;
    var b := Tlv(kind, value) + [];
    assert b == Tlv(kind, value);
    var p := b[..n];
    assert n >= 4 ==> p[2] == b[2] && p[3] == b[3];
  }

  /** A fingerprint that is not the end of the body is refused, whole or in part. */
  lemma MisplacedFingerprint(covered: Bytes, g: Bytes)
    requires |g| >= 4 && |g| != 8 && g[..4] == FingerprintTlv(covered)[..4]
    ensures forall c :: CheckFingerprint(c, g).Some?
  {
    FingerprintShape(covered);
    var f := FingerprintTlv(covered);
    hide FingerprintTlv, FingerprintOf, Join, LenOf, WordOf;
    assert g[0] == g[..4][0] && g[1] == g[..4][1] && g[2] == g[..4][2] && g[3] == g[..4][3];
    assert f[0] == f[..4][0] && f[1] == f[..4][1] && f[2] == f[..4][2] && f[3] == f[..4][3];
  }

  /** Attributes, then a fingerprint that the body's end does not meet. */
  lemma UnendedFails(m: Message, g: Bytes, more: Bytes)
    requires Fits(m) && |g| >= 4 && |g| != 8 && g[..4] == FingerprintTlv(Covered(m))[..4]
    requires |EncodeAttributes(m.attributes, m.transaction)| + |g| < 65536
    ensures var body := EncodeAttributes(m.attributes, m.transaction) + g;
            Decode(Header(m.class_, |body|, m.transaction) + body + more).Err?
  {
    hide Decode, EncodeAttributes, Header, CheckFingerprint, DecodeAttributes, FingerprintTlv, Covered;
    var xs := EncodeAttributes(m.attributes, m.transaction);
    var body := xs + g;
    BodyDecodes(m.class_, m.transaction, body, more);
    AttributesWalk(Header(m.class_, |body|, m.transaction), m.attributes, m.transaction, g);
    MisplacedFingerprint(Covered(m), g);
  }

  /** The bytes of an encoding under another length. */
  ghost function Relabelled(m: Message, n: nat, tail: Bytes): Bytes {
    var xs := EncodeAttributes(m.attributes, m.transaction);
    Header(m.class_, n, m.transaction) + (xs + FingerprintTlv(Covered(m)) + tail)
  }

  /** No boundary: nothing decodes. */
  lemma OffBoundaryFails(m: Message, n: nat, tail: Bytes)
    requires Fits(m) && n < 65536 && n != |EncodeAttributes(m.attributes, m.transaction)| + 8
    requires forall k :: !EndsAt(m, k, n)
    ensures Decode(Relabelled(m, n, tail)).Err?
  {
    hide Decode, EncodeAttributes, Header, CheckFingerprint, DecodeAttributes, FingerprintTlv, Covered;
    var t := m.transaction;
    var xs, f := EncodeAttributes(m.attributes, t), FingerprintTlv(Covered(m));
    var h, all := Header(m.class_, n, t), xs + f + tail;
    FingerprintSize(Covered(m));
    AttributesAligned(m.attributes, t);
    if n > |all| {
      MissingBodyFails(m.class_, n, t, all);
    } else {
      var body := all[..n];
      assert all == body + all[n..];
      assert h + all == h + body + all[n..];
      BodyDecodes(m.class_, t, body, all[n..]);
      if n < |xs| {
        forall k | 0 <= k <= |m.attributes| ensures n != |EncodeAttributes(m.attributes[..k], t)| {
          assert !EndsAt(m, k, n);
        }
        CutInside(m.attributes, t, n);
        FrontOf(xs, f, tail, n);
      } else if n % 4 == 0 {
        assert m.attributes[..|m.attributes|] == m.attributes && !EndsAt(m, |m.attributes|, n);
        assert n >= |xs| + 4;
        var g := all[|xs|..n];
        FrontBeyond(xs, f, tail, n);
        UnendedFails(m, g, all[n..]);
      }
    }
  }

  lemma FrontOf(xs: Bytes, f: Bytes, tail: Bytes, n: nat)
    requires n <= |xs|
    ensures (xs + f + tail)[..n] == xs[..n]
  {}

  lemma FrontBeyond(xs: Bytes, f: Bytes, tail: Bytes, n: nat)
    requires |xs| + 4 <= n <= |xs + f + tail| && |f| >= 4
    ensures (xs + f + tail)[..n] == xs + (xs + f + tail)[|xs|..n]
    ensures (xs + f + tail)[|xs|..n][..4] == f[..4]
  {}

  lemma FingerprintSize(covered: Bytes)
    ensures |FingerprintTlv(covered)| == 8
  {
    FingerprintShape(covered);
  }

  /** Another header length is accepted exactly when it ends with an attribute and those before it
      decode; what comes out is then the message cut to them. Every other one is refused. */
  lemma HeaderLengthExactly(m: Message, n: nat, tail: Bytes)
    requires Fits(m) && n < 65536 && n != |EncodeAttributes(m.attributes, m.transaction)| + 8
    ensures forall k :: EndsAt(m, k, n) ==> Decode(Relabelled(m, n, tail)) == CutTo(m, k)
    ensures Decode(Relabelled(m, n, tail)).Ok?
       <==> exists k: nat :: EndsAt(m, k, n) && AllDecodable(m.attributes[..k], m.transaction)
  {
    hide Decode, EncodeAttributes, Header, FingerprintTlv, Covered, AllDecodable, CutTo;
    var t := m.transaction;
    var f := FingerprintTlv(Covered(m));
    forall k: nat | EndsAt(m, k, n)
      ensures Decode(Relabelled(m, n, tail)) == CutTo(m, k)
      ensures CutTo(m, k).Ok? <==> AllDecodable(m.attributes[..k], t)
    {
      Parted(m.attributes, k, t);
      var body, post := EncodeAttributes(m.attributes[..k], t), EncodeAttributes(m.attributes[k..], t);
      CutDecodes(m, k, post + f + tail);
      CutOk(m, k);
      assert body + post + f + tail == body + (post + f + tail);
      assert Header(m.class_, n, t) + (body + (post + f + tail)) == Header(m.class_, n, t) + body + (post + f + tail);
    }
    if forall k :: !EndsAt(m, k, n) {
      OffBoundaryFails(m, n, tail);
    }
  }

  /** The relabelled bytes are the encoding with its two length bytes replaced. */
  lemma RelabelledIs(m: Message, hi: bv8, lo: bv8, tail: Bytes)
    requires Fits(m)
    ensures |Encode(m)| >= 20 && LenOf(hi, lo) < 65536
    ensures (Encode(m) + tail)[2 := hi][3 := lo] == Relabelled(m, LenOf(hi, lo), tail)
  {
    var t := m.transaction;
    var xs, f := EncodeAttributes(m.attributes, t), FingerprintTlv(Covered(m));
    LenBounded(hi, lo);
    LenRestored(hi, lo);
    CoveredIs(m);
    hide EncodeAttributes, FingerprintTlv, Covered, LenOf, Hi, Lo, TypeWord, ClassCode;
    HeaderLengthBytes(m.class_, |xs| + 8, LenOf(hi, lo), t, hi, lo);
    hide Header;
    var h := Header(m.class_, |xs| + 8, t);
    assert Encode(m) + tail == h + (xs + f + tail);
  }

  lemma HeaderLengthBytes(c: Class, n: nat, n': nat, t: TransactionId, hi: bv8, lo: bv8)
    requires LenBytes(n') == [hi, lo]
    ensures |Header(c, n, t)| == 20 && Header(c, n, t)[2 := hi][3 := lo] == Header(c, n', t)
  {
    hide Hi, Lo, TypeWord, ClassCode, LenBytes;
    LenTwo(n);
  }

  lemma LenBounded(a: bv8, b: bv8)
    ensures LenOf(a, b) < 65536
  {
    StunFingerprint.ByteAsNat(a);
    StunFingerprint.ByteAsNat(b);
  }

  lemma LenRestored(a: bv8, b: bv8)
    ensures LenBytes(LenOf(a, b)) == [a, b]
  {
    var n := LenOf(a, b);
    LenBounded(a, b);
    LenSplits(n);
    LenTwo(n);
    hide LenOf, LenBytes;
    StunFingerprint.LenInjective(LenBytes(n)[0], LenBytes(n)[1], a, b);
  }

  /** So a message of plain attributes can be cut after any of them: the length field alone decides. */
  lemma TruncationSlipsThrough(m: Message, k: nat, tail: Bytes)
    requires Fits(m) && k <= |m.attributes| && AllPlain(Kept(m.attributes[..k]))
    ensures var n := |EncodeAttributes(m.attributes[..k], m.transaction)|;
            n < 65536 && Decode(Relabelled(m, n, tail)) == Ok(m.(attributes := Kept(m.attributes[..k])))
  {
    hide Decode, EncodeAttributes, EachDecoded, Relabelled, Kept, AllPlain;
    var n := |EncodeAttributes(m.attributes[..k], m.transaction)|;
    Parted(m.attributes, k, m.transaction);
    assert EndsAt(m, k, n);
    HeaderLengthExactly(m, n, tail);
    EachSurvives(m.attributes[..k], m.transaction);
  }

  // ------------------------------------------------------------ the fingerprint's kind

  /** Under any other kind the fingerprint is one attribute more. Its four bytes can be anything but
      an address, so that and the message's own attributes decide. */
  lemma RenamedFingerprint(m: Message, a: bv8, b: bv8, tail: Bytes)
    requires Fits(m) && Join(a, b) != FINGERPRINT
    ensures var f := FingerprintTlv(Covered(m));
            var r := Decode(Covered(m) + ([a, b] + f[2..]) + tail);
            && |f| == 8
            && r == Finish(m.class_, m.transaction, None,
                           EachDecoded(m.attributes, m.transaction,
                                       Cons(DecodeAttribute(Join(a, b), f[4..], m.transaction), Ok([]))))
            && (r.Ok? <==> Join(a, b) !in ADDRESS_KINDS && AllDecodable(m.attributes, m.transaction))
  {
    hide Decode, EncodeAttributes, Header, CheckFingerprint, DecodeAttributes, EachDecoded, FingerprintTlv, Covered,
      DecodeAttribute, Join, AllDecodable;
    var t := m.transaction;
    var xs, f := EncodeAttributes(m.attributes, t), FingerprintTlv(Covered(m));
    FingerprintSize(Covered(m));
    var g := [a, b] + f[2..];
    var h, body := Header(m.class_, |xs| + 8, t), xs + g;
    CoveredIs(m);
    AttributesAligned(m.attributes, t);
    assert Covered(m) + g + tail == h + body + tail;
    BodyDecodes(m.class_, t, body, tail);
    AttributesWalk(h, m.attributes, t, g);
    AttributesDecode(m.attributes, t, g);
    RenamedTlv(Covered(m), a, b, h + xs, t);
    DecodableIs(Join(a, b), f[4..], t);
    EachOk(m.attributes, t, Cons(DecodeAttribute(Join(a, b), f[4..], t), Ok([])));
  }

  lemma RenamedTlv(covered: Bytes, a: bv8, b: bv8, c: Bytes, t: TransactionId)
    requires Join(a, b) != FINGERPRINT
    ensures var f := FingerprintTlv(covered);
            && |f| == 8 && CheckFingerprint(c, [a, b] + f[2..]) == None
            && DecodeAttributes([a, b] + f[2..], t) == Cons(DecodeAttribute(Join(a, b), f[4..], t), Ok([]))
  {
    FingerprintShape(covered);
    var f := FingerprintTlv(covered);
    hide FingerprintTlv, FingerprintOf, Join, LenOf, WordOf, DecodeAttribute, Cons;
    var g := [a, b] + f[2..];
    assert g[0] == a && g[1] == b && g[2] == f[2] && g[3] == f[3];
    assert TlvSize(g) == 8 && g[8..] == [] && g[4..8] == f[4..];
  }

  /** So a message of plain attributes decodes under every kind that is no address, with the checksum
      as a stray attribute: software text, a change request, or unknown. */
  lemma RenamingSlipsThrough(m: Message, a: bv8, b: bv8, tail: Bytes)
    requires Fits(m) && AllPlain(Kept(m.attributes)) && Join(a, b) != FINGERPRINT && Join(a, b) !in ADDRESS_KINDS
    ensures var f := FingerprintTlv(Covered(m));
            && |f| == 8
            && var x := DecodeAttribute(Join(a, b), f[4..], m.transaction);
            && x.Ok? && (Join(a, b) !in {SOFTWARE, CHANGE_REQUEST} ==> x.value == Unknown(Join(a, b), f[4..]))
            && Decode(Covered(m) + ([a, b] + f[2..]) + tail) == Ok(m.(attributes := Kept(m.attributes) + [x.value]))
  {
    hide Decode, EncodeAttributes, EachDecoded, Kept, AllPlain, FingerprintTlv, Covered, DecodeAttribute, Join,
      AllDecodable;
    RenamedFingerprint(m, a, b, tail);
    var v := FingerprintTlv(Covered(m))[4..];
    DecodableIs(Join(a, b), v, m.transaction);
    UnknownDecodes(Join(a, b), v, m.transaction);
    var x := DecodeAttribute(Join(a, b), v, m.transaction).value;
    assert [x] + [] == [x];
    SurvivesBefore(m.attributes, m.transaction, [x]);
  }

  lemma {:induction false} SurvivesBefore(xs: seq<Attribute>, t: TransactionId, ys: seq<Attribute>)
    requires AllPlain(Kept(xs))
    ensures EachDecoded(xs, t, Ok(ys)) == Ok(Kept(xs) + ys)
  {
    hide DecodeAttribute, Plain, KindOf, ValueOf, Dropped, AllPlain;
    if xs == [] {
      assert Kept(xs) + ys == ys;
    } else {
      var rest := Kept(xs[1..]);
      if Dropped(xs[0]) {
        assert Kept(xs) == rest;
      } else {
        assert Kept(xs) == [xs[0]] + rest;
        FirstAndRest(xs[0], rest);
        AttributeDecodes(xs[0], t);
        assert [xs[0]] + (rest + ys) == Kept(xs) + ys;
      }
      SurvivesBefore(xs[1..], t, ys);
    }
  }

  // ------------------------------------------------------------ an attribute's length

  /** From attribute `k` to the end of the body, under another length for that attribute. */
  ghost function Reframed(m: Message, k: nat, hi: bv8, lo: bv8): Bytes
    requires k < |m.attributes|
  {
    var rest := EncodeAttributes(m.attributes[k..], m.transaction) + FingerprintTlv(Covered(m));
    if |rest| < 4 then rest else rest[2 := hi][3 := lo]
  }

  lemma ReframedDecodes(m: Message, k: nat, hi: bv8, lo: bv8, tail: Bytes)
    requires Fits(m) && k < |m.attributes| && !Dropped(m.attributes[k])
    ensures var t, y := m.transaction, Reframed(m, k, hi, lo);
            var pre := EncodeAttributes(m.attributes[..k], t);
            var covered := Header(m.class_, |pre| + |y|, t) + pre;
            Decode(covered + y + tail)
            == Finish(m.class_, t, CheckFingerprint(covered, y),
                      EachDecoded(m.attributes[..k], t, DecodeAttributes(y, t)))
  {
    hide Decode, EncodeAttributes, Header, CheckFingerprint, DecodeAttributes, EachDecoded, LenOf, Dropped, KindOf,
      Reframed, Join;
    var t, y := m.transaction, Reframed(m, k, hi, lo);
    var pre := EncodeAttributes(m.attributes[..k], t);
    ReframedShape(m, k, hi, lo);
    var h := Header(m.class_, |pre| + |y|, t);
    assert h + pre + y + tail == h + (pre + y) + tail;
    BodyDecodes(m.class_, t, pre + y, tail);
    AttributesWalk(h, m.attributes[..k], t, y);
    AttributesDecode(m.attributes[..k], t, y);
  }

  /** The walk over `b` comes to an attribute of the fingerprint's kind. */
  predicate Meets(b: Bytes)
    decreases |b|
  {
    |b| >= 4 && (Join(b[0], b[1]) == FINGERPRINT || (TlvSize(b) <= |b| && Meets(b[TlvSize(b)..])))
  }

  lemma {:induction false} UnmetPasses(covered: Bytes, b: Bytes)
    requires !Meets(b)
    ensures CheckFingerprint(covered, b) == None
    decreases |b|
  {
    hide Join, LenOf, WordOf, FingerprintOf, Padding;
    if |b| >= 4 && TlvSize(b) <= |b| {
      UnmetPasses(covered + b[..TlvSize(b)], b[TlvSize(b)..]);
    }
  }

  /** Met anywhere but at the end a fingerprint is misplaced; at the end it is `f`. */
  lemma {:induction false} MetFails(c: Bytes, f: Bytes, covered: Bytes, b: Bytes)
    requires |f| == 8 && covered + b == c + f && CheckFingerprint(c, f).Some? && Meets(b)
    ensures CheckFingerprint(covered, b).Some?
    decreases |b|
  {
    hide Join, LenOf, WordOf, FingerprintOf, Padding;
    if Join(b[0], b[1]) == FINGERPRINT {
      if |b| == 8 {
        assert covered == (covered + b)[..|c|] == c && b == (covered + b)[|c|..] == f;
      }
    } else {
      var n := TlvSize(b);
      assert covered + b[..n] + b[n..] == covered + b by { assert b[..n] + b[n..] == b; }
      MetFails(c, f, covered + b[..n], b[n..]);
    }
  }

  /** The altered bytes, ending with the fingerprint of the unaltered ones. */
  lemma ReframedSeal(m: Message, k: nat, hi: bv8, lo: bv8)
    requires Fits(m) && k < |m.attributes| && !Dropped(m.attributes[k])
    requires Reframed(m, k, hi, lo) != EncodeAttributes(m.attributes[k..], m.transaction) + FingerprintTlv(Covered(m))
    ensures var t, y, f := m.transaction, Reframed(m, k, hi, lo), FingerprintTlv(Covered(m));
            var pre := EncodeAttributes(m.attributes[..k], t);
            var covered := Header(m.class_, |pre| + |y|, t) + pre;
            && |f| == 8 && |y| >= 8
            && var c := covered + y[..|y| - 8];
            && covered + y == c + f && CheckFingerprint(c, f).Some?
  {
    hide EncodeAttributes, Header, FingerprintTlv, Covered, CheckFingerprint, Join, LenOf, KindOf, Dropped, TlvSize;
    var t, f := m.transaction, FingerprintTlv(Covered(m));
    var pre, post := EncodeAttributes(m.attributes[..k], t), EncodeAttributes(m.attributes[k..], t);
    ReframedShape(m, k, hi, lo);
    Parted(m.attributes, k, t);
    CoveredIs(m);
    FingerprintSize(Covered(m));
    PostSize(m, k);
    var h := Header(m.class_, |pre + post| + 8, t);
    var post' := post[2 := hi][3 := lo];
    var y := Reframed(m, k, hi, lo);
    assert y == post' + f && y[..|y| - 8] == post';
    assert h + pre + y == h + pre + post' + f;
    assert Covered(m) == h + pre + post by { assert h + (pre + post) == h + pre + post; }
    OtherSeal(h + pre, post, hi, lo);
    StunFingerprint.WrongCover(h + pre + post, h + pre + post');
  }

  lemma PostSize(m: Message, k: nat)
    requires k < |m.attributes| && !Dropped(m.attributes[k])
    ensures |EncodeAttributes(m.attributes[k..], m.transaction)| >= 4
  {
    hide EncodeAttribute, Dropped, Tlv, KindOf, ValueOf, Padding;
    FirstOf(m.attributes[k..], m.transaction);
    EncodedAttribute(m.attributes[k], m.transaction);
  }

  lemma OtherSeal(a: Bytes, b: Bytes, hi: bv8, lo: bv8)
    requires |b| >= 4 && b[2 := hi][3 := lo] != b
    ensures Crc32.Checksum(a + b) != Crc32.Checksum(a + b[2 := hi][3 := lo])
  {
    hide Crc32.Checksum;
    var b' := b[2 := hi][3 := lo];
    assert (a + b)[|a|..] == b && (a + b')[|a|..] == b';
    Crc32.BurstChangesChecksum(a + b, a + b', |a|);
  }

  /** Another attribute length is accepted exactly when from there on the walk meets no attribute of
      the fingerprint's kind and finds readable attributes to the end, those before being decodable;
      what comes out are the attributes so framed. Every other one is refused. */
  lemma AttributeLengthExactly(m: Message, k: nat, hi: bv8, lo: bv8, tail: Bytes)
    requires Fits(m) && k < |m.attributes| && !Dropped(m.attributes[k])
    requires Reframed(m, k, hi, lo) != EncodeAttributes(m.attributes[k..], m.transaction) + FingerprintTlv(Covered(m))
    ensures var t, y := m.transaction, Reframed(m, k, hi, lo);
            var pre := EncodeAttributes(m.attributes[..k], t);
            var r := Decode(Header(m.class_, |pre| + |y|, t) + pre + y + tail);
            && (r.Ok? <==> AllDecodable(m.attributes[..k], t) && !Meets(y) && Readable(y))
            && (r.Ok? ==>
                  r == Finish(m.class_, t, None, EachDecoded(m.attributes[..k], t, DecodeAttributes(y, t))))
  {
    hide Decode, EncodeAttributes, Header, CheckFingerprint, DecodeAttributes, EachDecoded, FingerprintTlv, Covered,
      Dropped, Reframed, AllDecodable, Meets, Readable;
    var t, y := m.transaction, Reframed(m, k, hi, lo);
    var pre := EncodeAttributes(m.attributes[..k], t);
    var covered := Header(m.class_, |pre| + |y|, t) + pre;
    ReframedDecodes(m, k, hi, lo, tail);
    ReadableIs(y, t);
    EachOk(m.attributes[..k], t, DecodeAttributes(y, t));
    if Meets(y) {
      ReframedSeal(m, k, hi, lo);
      MetFails(covered + y[..|y| - 8], FingerprintTlv(Covered(m)), covered, y);
    } else {
      UnmetPasses(covered, y);
    }
  }

  lemma {:induction false} MeetsAfter(xs: seq<Attribute>, t: TransactionId, covered: Bytes)
    requires |EncodeAttributes(xs, t)| < 65536
    ensures Meets(EncodeAttributes(xs, t) + FingerprintTlv(covered))
  {
    hide Tlv, ValueOf, KindOf, Dropped, EncodeAttribute, Padding, FingerprintTlv, Join, LenOf, TlvSize;
    var f := FingerprintTlv(covered);
    if xs == [] {
      FingerprintShape(covered);
      assert EncodeAttributes(xs, t) + f == f;
    } else {
      var head, rest := EncodeAttribute(xs[0], t), EncodeAttributes(xs[1..], t);
      EncodedAttribute(xs[0], t);
      MeetsAfter(xs[1..], t, covered);
      assert head + rest + f == head + (rest + f);
      if Dropped(xs[0]) {
        assert head + (rest + f) == rest + f;
      } else {
        TlvShape(KindOf(xs[0]), ValueOf(xs[0], t), rest + f);
      }
    }
  }

  /** In particular a length that resumes at any later attribute, or at the next with its own padded
      size unchanged, is always detected. */
  lemma LaterBoundaryIsDetected(m: Message, k: nat, j: nat, hi: bv8, lo: bv8, tail: Bytes)
    requires Fits(m) && k < j <= |m.attributes| && !Dropped(m.attributes[k])
    requires Reframed(m, k, hi, lo) != EncodeAttributes(m.attributes[k..], m.transaction) + FingerprintTlv(Covered(m))
    requires |Reframed(m, k, hi, lo)| >= 4
    requires TlvSize(Reframed(m, k, hi, lo)) == |EncodeAttributes(m.attributes[k..][..j - k], m.transaction)|
    ensures var t, y := m.transaction, Reframed(m, k, hi, lo);
            var pre := EncodeAttributes(m.attributes[..k], t);
            Decode(Header(m.class_, |pre| + |y|, t) + pre + y + tail).Err?
  {
    hide Decode, EncodeAttributes, Header, FingerprintTlv, Covered, Join, LenOf, KindOf, Dropped, AllDecodable,
      Readable, DecodeAttributes, EachDecoded, TlvSize;
    var t, y, f := m.transaction, Reframed(m, k, hi, lo), FingerprintTlv(Covered(m));
    AttributeLengthExactly(m, k, hi, lo, tail);
    ReframedShape(m, k, hi, lo);
    var post := EncodeAttributes(m.attributes[k..], t);
    Parted(m.attributes[k..], j - k, t);
    assert m.attributes[k..][j - k..] == m.attributes[j..];
    var skipped, rest := EncodeAttributes(m.attributes[k..][..j - k], t), EncodeAttributes(m.attributes[j..], t);
    TlvIsFour(y);
    PatchBefore(skipped, rest + f, hi, lo);
    assert post + f == skipped + (rest + f);
    Parted(m.attributes, j, t);
    MeetsAfter(m.attributes[j..], t, Covered(m));
  }

  lemma TlvIsFour(b: Bytes)
    requires |b| >= 4
    ensures TlvSize(b) >= 4
  {}

  lemma PatchBefore(a: Bytes, b: Bytes, hi: bv8, lo: bv8)
    requires |a| >= 4
    ensures (a + b)[2 := hi][3 := lo][|a|..] == b
  {}

  lemma ReframedShape(m: Message, k: nat, hi: bv8, lo: bv8)
    requires Fits(m) && k < |m.attributes| && !Dropped(m.attributes[k])
    ensures var t, y := m.transaction, Reframed(m, k, hi, lo);
            var pre := EncodeAttributes(m.attributes[..k], t);
            && |y| >= 4 && Join(y[0], y[1]) == KindOf(m.attributes[k]) != FINGERPRINT && y[2] == hi && y[3] == lo
            && |pre| + |y| < 65536 && (|pre| + |y|) % 4 == 0
            && |Header(m.class_, |pre| + |y|, t)| == 20 && 20 + |pre| + |y| == |Encode(m)|
  {
    hide EncodeAttributes, Header, FingerprintTlv, Covered, EncodeAttribute, Tlv, KindOf, ValueOf, Dropped, Padding,
      Join, LenOf, TlvSize;
    var t, x := m.transaction, m.attributes[k];
    var xs := EncodeAttributes(m.attributes, t);
    Parted(m.attributes, k, t);
    FingerprintSize(Covered(m));
    FirstOf(m.attributes[k..], t);
    assert m.attributes[k..][0] == x;
    EncodedAttribute(x, t);
    var rest := EncodeAttributes(m.attributes[k..], t) + FingerprintTlv(Covered(m));
    var more := EncodeAttributes(m.attributes[k..][1..], t) + FingerprintTlv(Covered(m));
    assert rest == EncodeAttribute(x, t) + more;
    TlvShape(KindOf(x), ValueOf(x, t), more);
    AttributesAligned(m.attributes, t);
    CoveredIs(m);
    StunFingerprint.HeaderSize(m.class_, |xs| + 8, t);
  }

  /** Those bytes are the encoding with the attribute's two length bytes replaced. */
  lemma ReframedIs(m: Message, k: nat, hi: bv8, lo: bv8, tail: Bytes)
    requires Fits(m) && k < |m.attributes| && !Dropped(m.attributes[k])
    ensures var t, y := m.transaction, Reframed(m, k, hi, lo);
            var pre := EncodeAttributes(m.attributes[..k], t);
            var p := 20 + |pre|;
            && p + 4 <= |Encode(m)|
            && (Encode(m) + tail)[p + 2 := hi][p + 3 := lo] == Header(m.class_, |pre| + |y|, t) + pre + y + tail
  {
    hide EncodeAttributes, Header, FingerprintTlv, Covered, Join, KindOf, Dropped;
    var t := m.transaction;
    var pre, post, f := EncodeAttributes(m.attributes[..k], t), EncodeAttributes(m.attributes[k..], t),
      FingerprintTlv(Covered(m));
    var h := Header(m.class_, |pre + post| + 8, t);
    ReframedShape(m, k, hi, lo);
    CoveredIs(m);
    Parted(m.attributes, k, t);
    FingerprintSize(Covered(m));
    EncodeIs(m);
    assert h + (pre + post) + f == h + pre + (post + f);
    PatchInside(h + pre, post + f, tail, hi, lo);
  }

  lemma EncodeIs(m: Message)
    ensures Encode(m) == Covered(m) + FingerprintTlv(Covered(m))
  {}

  lemma PatchInside(a: Bytes, b: Bytes, tail: Bytes, hi: bv8, lo: bv8)
    requires |b| >= 4
    ensures (a + b + tail)[|a| + 2 := hi][|a| + 3 := lo] == a + b[2 := hi][3 := lo] + tail
  {}

  lemma FirstOf(xs: seq<Attribute>, t: TransactionId)
    requires xs != []
    ensures EncodeAttributes(xs, t) == EncodeAttribute(xs[0], t) + EncodeAttributes(xs[1..], t)
  {}

  /** A length that reaches exactly to the end of the body swallows the fingerprint: nothing is
      checked, and the attributes before and the swollen one decide. */
  lemma SwallowedFingerprint(m: Message, k: nat, hi: bv8, lo: bv8, tail: Bytes)
    requires Fits(m) && k < |m.attributes| && !Dropped(m.attributes[k])
    requires |Reframed(m, k, hi, lo)| >= 4 && TlvSize(Reframed(m, k, hi, lo)) == |Reframed(m, k, hi, lo)|
    ensures var t, y := m.transaction, Reframed(m, k, hi, lo);
            var pre := EncodeAttributes(m.attributes[..k], t);
            var r := Decode(Header(m.class_, |pre| + |y|, t) + pre + y + tail);
            && 4 + LenOf(hi, lo) <= |y|
            && var value := y[4..4 + LenOf(hi, lo)];
            && r == Finish(m.class_, t, None,
                           EachDecoded(m.attributes[..k], t,
                                       Cons(DecodeAttribute(KindOf(m.attributes[k]), value, t), Ok([]))))
            && (r.Ok? <==> AllDecodable(m.attributes[..k], t) && Decodable(KindOf(m.attributes[k]), value))
  {
    hide Decode, EncodeAttributes, Header, CheckFingerprint, DecodeAttributes, EachDecoded, DecodeAttribute,
      FingerprintTlv, Covered, LenOf, Dropped, KindOf, Reframed, AllDecodable, Decodable, Join;
    var t, y := m.transaction, Reframed(m, k, hi, lo);
    var pre := EncodeAttributes(m.attributes[..k], t);
    ReframedShape(m, k, hi, lo);
    ReframedDecodes(m, k, hi, lo, tail);
    LoneTlv(Header(m.class_, |pre| + |y|, t) + pre, y, t);
    var x := DecodeAttribute(KindOf(m.attributes[k]), y[4..4 + LenOf(hi, lo)], t);
    DecodableIs(KindOf(m.attributes[k]), y[4..4 + LenOf(hi, lo)], t);
    EachOk(m.attributes[..k], t, Cons(x, Ok([])));
  }

  lemma LoneTlv(covered: Bytes, y: Bytes, t: TransactionId)
    requires |y| >= 4 && TlvSize(y) == |y| && Join(y[0], y[1]) != FINGERPRINT
    ensures CheckFingerprint(covered, y) == None
    ensures 4 + LenOf(y[2], y[3]) <= |y|
    ensures DecodeAttributes(y, t) == Cons(DecodeAttribute(Join(y[0], y[1]), y[4..4 + LenOf(y[2], y[3])], t), Ok([]))
  {
    hide Join, LenOf, DecodeAttribute, Cons, WordOf, FingerprintOf;
    assert y[|y|..] == [];
  }

  /** So an unknown attribute after plain ones can take in the rest of any message: it decodes, with
      the later attributes and the fingerprint as the unknown one's value. */
  lemma SwallowingSlipsThrough(m: Message, k: nat, hi: bv8, lo: bv8, tail: Bytes)
    requires Fits(m) && k < |m.attributes| && m.attributes[k].Unknown? && !Dropped(m.attributes[k])
    requires Plain(m.attributes[k]) && AllPlain(Kept(m.attributes[..k]))
    requires LenOf(hi, lo) == |Reframed(m, k, hi, lo)| - 4
    ensures var t, y := m.transaction, Reframed(m, k, hi, lo);
            var pre := EncodeAttributes(m.attributes[..k], t);
            && |y| >= 4
            && Decode(Header(m.class_, |pre| + |y|, t) + pre + y + tail)
               == Ok(m.(attributes := Kept(m.attributes[..k]) + [Unknown(m.attributes[k].kind, y[4..])]))
  {
    hide Decode, EncodeAttributes, Header, EachDecoded, DecodeAttribute, FingerprintTlv, Covered, LenOf, Dropped,
      Reframed, AllDecodable, Decodable, Join, Kept, AllPlain;
    var t, y := m.transaction, Reframed(m, k, hi, lo);
    ReframedShape(m, k, hi, lo);
    AttributesAligned(m.attributes[..k], t);
    assert |y| % 4 == 0;
    assert TlvSize(y) == |y|;
    SwallowedFingerprint(m, k, hi, lo, tail);
    var x := Unknown(m.attributes[k].kind, y[4..]);
    assert y[4..4 + LenOf(hi, lo)] == y[4..];
    UnknownDecodes(x.kind, x.value, t);
    assert [x] + [] == [x];
    SurvivesBefore(m.attributes[..k], t, [x]);
  }
}
