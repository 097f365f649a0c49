/** What the FINGERPRINT of an encoded message detects. */
module StunFingerprint {
  import opened Common
  import opened StunCodec
  import opened StunRoundTrip
  import Crc32

  /** Offsets, in a region of TLVs, of the 16-bit length fields the walk steps by. */
  predicate InLengthField(b: Bytes, p: nat)
    decreases |b|
  {
    && |b| >= 4
    && (p == 2 || p == 3 || (TlvSize(b) <= |b| && p >= TlvSize(b) && InLengthField(b[TlvSize(b)..], p - TlvSize(b))))
  }

  /** Offsets of the length fields of a whole message: the header's and each attribute's. */
  predicate IsFraming(m: Message, i: nat) {
    i == 2 || i == 3 || (i >= 20 && InLengthField(EncodeAttributes(m.attributes, m.transaction), i - 20))
  }

  ghost predicate SameLengths(x: Bytes, x': Bytes) {
    |x'| == |x| && forall i :: 0 <= i < |x| && InLengthField(x, i) ==> x'[i] == x[i]
  }

  /** The first TLV of an altered region is as long as the original's, and so is what follows it. */
  lemma SameFirst(x: Bytes, x': Bytes)
    requires SameLengths(x, x') && |x| >= 4 && TlvSize(x) <= |x|
    ensures LenOf(x'[2], x'[3]) == LenOf(x[2], x[3]) && TlvSize(x') == TlvSize(x)
    ensures SameLengths(x[TlvSize(x)..], x'[TlvSize(x)..])
  {
    hide LenOf, Padding;
    assert InLengthField(x, 2) && InLengthField(x, 3);
    var n := TlvSize(x);
    forall i | 0 <= i < |x[n..]| && InLengthField(x[n..], i) ensures x'[n..][i] == x[n..][i] {
      assert InLengthField(x, i + n);
    }
  }

  /** The walk over an altered region either stops with a fault or reaches what follows the region. */
  lemma {:induction false} AlteredWalk(covered: Bytes, xs: seq<Attribute>, t: TransactionId, x': Bytes, f: Bytes)
    requires |EncodeAttributes(xs, t)| < 65536 && SameLengths(EncodeAttributes(xs, t), x') && |f| == 8
    ensures || CheckFingerprint(covered, x' + f).Some?
            || CheckFingerprint(covered, x' + f) == CheckFingerprint(covered + x', f)
    decreases |xs|
  {
    hide Tlv, CheckFingerprint, ValueOf, KindOf, Dropped, EncodeAttribute, Padding, SameLengths, TlvSize, Join, LenOf,
      WordOf, FingerprintOf;
    if xs == [] {
      SameSize(EncodeAttributes(xs, t), x');
      assert x' + f == f && covered + x' == covered;
    } else {
      var x := EncodeAttributes(xs, t);
      var head, rest := EncodeAttribute(xs[0], t), EncodeAttributes(xs[1..], t);
      EncodedAttribute(xs[0], t);
      assert x == head + rest;
      if Dropped(xs[0]) {
        assert x == rest;
        AlteredWalk(covered, xs[1..], t, x', f);
      } else {
        TlvShape(KindOf(xs[0]), ValueOf(xs[0], t), rest);
        SameSize(x, x');
        SameFirst(x, x');
        var n := TlvSize(x);
        AlteredWalk(covered + x'[..n], xs[1..], t, x'[n..], f);
        OneStep(covered, x', n, f);
      }
    }
  }

  lemma SameSize(x: Bytes, x': Bytes)
    requires SameLengths(x, x')
    ensures |x'| == |x|
  {}

  lemma OneStep(covered: Bytes, x': Bytes, n: nat, f: Bytes)
    requires |x'| >= 4 && n == TlvSize(x') <= |x'| && |f| == 8
    ensures || CheckFingerprint(covered, x' + f).Some?
            || CheckFingerprint(covered, x' + f) == CheckFingerprint(covered + x'[..n], x'[n..] + f)
    ensures covered + x'[..n] + x'[n..] == covered + x'
  {
    hide Join, LenOf, WordOf, FingerprintOf, Padding;
    var b := x' + f;
    assert b[0] == x'[0] && b[1] == x'[1] && b[2] == x'[2] && b[3] == x'[3];
    assert b[..n] == x'[..n] && b[n..] == x'[n..] + f;
    assert covered + x'[..n] + x'[n..] == covered + x' by { assert x'[..n] + x'[n..] == x'; }
  }

  /** A fingerprint over other bytes is refused. */
  lemma WrongCover(covered: Bytes, covered': Bytes)
    requires Crc32.Checksum(covered) != Crc32.Checksum(covered')
    ensures CheckFingerprint(covered', FingerprintTlv(covered)).Some?
  {
    DifferentSeals(covered, covered');
    FingerprintShape(covered);
    hide Crc32.Checksum, FingerprintOf, FingerprintTlv, Join, LenOf, WordOf;
  }

  lemma DifferentSeals(a: Bytes, b: Bytes)
    requires Crc32.Checksum(a) != Crc32.Checksum(b)
    ensures FingerprintOf(a) != FingerprintOf(b)
  {
    hide Crc32.Checksum;
    XorKeepsApart(Crc32.Checksum(a), Crc32.Checksum(b), FINGERPRINT_XOR);
  }

  lemma XorKeepsApart(a: bv32, b: bv32, m: bv32)
    requires a != b
    ensures a ^ m != b ^ m
  {}

  /** Any alteration within four consecutive bytes of what the fingerprint covers, other than of
      a length field, makes decoding fail: type, cookie, transaction id, kinds, values, padding. */
  lemma AlterationIsDetected(m: Message, c': Bytes, p: nat, tail: Bytes)
    requires Fits(m) && |c'| == |Covered(m)| && c' != Covered(m)
    requires forall i :: 0 <= i < |c'| && c'[i] != Covered(m)[i] ==> p <= i < p + 4 && !IsFraming(m, i)
    ensures Decode(c' + FingerprintTlv(Covered(m)) + tail).Err?
  {
    hide Crc32.Checksum, FingerprintOf, FingerprintTlv, Join, LenOf, WordOf, EncodeAttributes, Header, Covered,
      CheckFingerprint,
      DecodeAttributes, MethodBits, ClassBits, ClassOf, InLengthField, SameLengths, Hi, Lo, TypeWord, ClassCode;
    var xs := EncodeAttributes(m.attributes, m.transaction);
    var h := Header(m.class_, |xs| + 8, m.transaction);
    var f := FingerprintTlv(Covered(m));
    CoveredIs(m);
    HeaderShape(m.class_, |xs| + 8, m.transaction);
    FingerprintShape(Covered(m));
    AttributesAligned(m.attributes, m.transaction);
    var h', x' := c'[..20], c'[20..];
    assert c' == h' + x';
    AlteredRegion(m, c');
    AlteredWalk(h', m.attributes, m.transaction, x', f);
    var q := if p + 4 <= |c'| then p else |c'| - 4;
    Crc32.BurstChangesChecksum(Covered(m), c', q);
    WrongCover(Covered(m), c');
    MessageLayout(h', x', f, tail);
    AlteredLength(m, c');
  }

  lemma AlteredRegion(m: Message, c': Bytes)
    requires |c'| == |Covered(m)| >= 20
    requires forall i :: 0 <= i < |c'| && c'[i] != Covered(m)[i] ==> !IsFraming(m, i)
    ensures SameLengths(EncodeAttributes(m.attributes, m.transaction), c'[20..])
  {
    hide EncodeAttributes, Header, InLengthField, Covered;
    var xs := EncodeAttributes(m.attributes, m.transaction);
    CoveredIs(m);
    HeaderSize(m.class_, |xs| + 8, m.transaction);
    forall i | 0 <= i < |xs| && InLengthField(xs, i) ensures c'[20..][i] == xs[i] {
      assert IsFraming(m, i + 20);
      assert Covered(m)[i + 20] == xs[i];
    }
  }

  lemma HeaderSize(c: Class, n: nat, t: TransactionId)
    ensures |Header(c, n, t)| == 20
  {}

  lemma AlteredLength(m: Message, c': Bytes)
    requires |c'| == |Covered(m)| >= 20
    requires forall i :: 0 <= i < |c'| && c'[i] != Covered(m)[i] ==> !IsFraming(m, i)
    ensures c'[2] == Covered(m)[2] && c'[3] == Covered(m)[3]
  {
    hide Covered, EncodeAttributes, InLengthField;
    assert IsFraming(m, 2) && IsFraming(m, 3);
  }

  /** Nor can the fingerprint's own length or value be altered. */
  lemma FingerprintIsGuarded(m: Message, f': Bytes, tail: Bytes)
    requires Fits(m) && |f'| == 8 && f' != FingerprintTlv(Covered(m))
    requires f'[..2] == FingerprintTlv(Covered(m))[..2]
    ensures Decode(Covered(m) + f' + tail).Err?
  {
    hide Crc32.Checksum, FingerprintOf, FingerprintTlv, Join, LenOf, WordOf, EncodeAttributes, Header, Covered,
      CheckFingerprint,
      DecodeAttributes, MethodBits, ClassBits, ClassOf, Hi, Lo, TypeWord, ClassCode;
    var xs := EncodeAttributes(m.attributes, m.transaction);
    var h := Header(m.class_, |xs| + 8, m.transaction);
    CoveredIs(m);
    HeaderShape(m.class_, |xs| + 8, m.transaction);
    AttributesAligned(m.attributes, m.transaction);
    AttributesWalk(h, m.attributes, m.transaction, f');
    WrongValue(Covered(m), f');
    MessageLayout(h, xs, f', tail);
  }

  lemma WrongValue(covered: Bytes, f': Bytes)
    requires |f'| == 8 && f' != FingerprintTlv(covered) && f'[..2] == FingerprintTlv(covered)[..2]
    ensures CheckFingerprint(covered, f').Some?
  {
    FingerprintShape(covered);
    var f := FingerprintTlv(covered);
    hide Join, LenOf, WordOf, FingerprintOf, FingerprintTlv;
    assert f'[0] == f'[..2][0] == f[..2][0] == f[0] && f'[1] == f'[..2][1] == f[..2][1] == f[1];
    if LenOf(f'[2], f'[3]) == 4 {
      LenInjective(f[2], f[3], f'[2], f'[3]);
      assert f' == f'[..2] + [f'[2], f'[3], f'[4], f'[5], f'[6], f'[7]];
      assert f == f[..2] + [f[2], f[3], f[4], f[5], f[6], f[7]];
      if WordOf(f'[4], f'[5], f'[6], f'[7]) == WordOf(f[4], f[5], f[6], f[7]) {
        WordInjective(f[4], f[5], f[6], f[7], f'[4], f'[5], f'[6], f'[7]);
      }
    }
  }

  lemma LenInjective(a: bv8, b: bv8, c: bv8, d: bv8)
    requires LenOf(a, b) == LenOf(c, d)
    ensures a == c && b == d
  {
    ByteAsNat(b);
    ByteAsNat(d);
    assert (a as nat) == (c as nat) && (b as nat) == (d as nat);
    NatInjective(a, c);
    NatInjective(b, d);
  }

  lemma ByteAsNat(a: bv8)
    ensures (a as nat) < 256
  {}

  lemma NatInjective(a: bv8, b: bv8)
    requires (a as nat) == (b as nat)
    ensures a == b
  {}

  lemma WordInjective(a: bv8, b: bv8, c: bv8, d: bv8, a': bv8, b': bv8, c': bv8, d': bv8)
    requires WordOf(a, b, c, d) == WordOf(a', b', c', d')
    ensures a == a' && b == b' && c == c' && d == d'
  {}
}
