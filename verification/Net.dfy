/** Socket addresses and address families, as `std::net` and `net::family` have them. */
module Net {

  type Octets4 = o: seq<bv8> | |o| == 4 witness [0, 0, 0, 0]
  type Octets16 = o: seq<bv8> | |o| == 16 witness [0, 0, 0, 0, 0, 0, 0, 0, 0, 0, 0, 0, 0, 0, 0, 0]

  datatype IpAddr = Ip4(v4: Octets4) | Ip6(v6: Octets16)

  datatype SocketAddr =
    | V4(octets4: Octets4, port: bv16)
    | V6(octets6: Octets16, port: bv16, flowinfo: bv32, scope: bv32)
  {
    function Ip(): IpAddr {
      if V4? then Ip4(octets4) else Ip6(octets6)
    }
  }

  datatype Family = Ipv6 | Ipv4

  function FamilyOf(a: SocketAddr): Family {
    if a.V4? then Ipv4 else Ipv6
  }

  /** No scoped link-local, IPv4-mapped, unspecified, multicast, broadcast or zero-port address. */
  predicate Usable(a: SocketAddr) {
    && a.port != 0
    && match a
       case V4(o, _) =>
         && o != [0, 0, 0, 0]
         && o[0] & 0xf0 != 0xe0
         && o != [255, 255, 255, 255]
       case V6(o, _, flowinfo, scope) =>
         && o != [0, 0, 0, 0, 0, 0, 0, 0, 0, 0, 0, 0, 0, 0, 0, 0]
         && o[0] != 0xff
         && scope == 0
         && flowinfo == 0
         && !(o[0] == 0xfe && o[1] & 0xc0 == 0x80)
         && o[..12] != [0, 0, 0, 0, 0, 0, 0, 0, 0, 0, 0xff, 0xff]
  }

  predicate Accepts(f: Family, a: SocketAddr) {
    FamilyOf(a) == f && Usable(a)
  }

  /** In numbers: no port 0, 0.0.0.0, 224 to 239, 255.255.255.255; no ::, ff00::/8, fe80::/10, ::ffff:0:0/96,
      scope or flow information. */
  lemma UsableInNumbers(a: SocketAddr)
    ensures a.V4? ==>
              (Usable(a) <==>
                && a.port != 0 && !(224 <= a.octets4[0] <= 239)
                && (exists i :: 0 <= i < 4 && a.octets4[i] != 0) && (exists i :: 0 <= i < 4 && a.octets4[i] != 255))
    ensures a.V6? ==>
              (Usable(a) <==>
                && a.port != 0 && a.scope == 0 && a.flowinfo == 0
                && a.octets6[0] != 255 && !(a.octets6[0] == 254 && 128 <= a.octets6[1] <= 191)
                && (exists i :: 0 <= i < 16 && a.octets6[i] != 0)
                && !(a.octets6[10] == 255 && a.octets6[11] == 255 && forall i :: 0 <= i < 10 ==> a.octets6[i] == 0))
  {
    if a.V4? {
      Multicast(a.octets4[0]);
      AllAre(a.octets4, 4, 0);
      AllAre(a.octets4, 4, 255);
      assert [0, 0, 0, 0] == Repeated(4, 0) && [255, 255, 255, 255] == Repeated(4, 255);
    } else {
      LinkLocal(a.octets6[1]);
      AllAre(a.octets6, 16, 0);
      AllAre(a.octets6[..10], 10, 0);
      assert [0, 0, 0, 0, 0, 0, 0, 0, 0, 0, 0, 0, 0, 0, 0, 0] == Repeated(16, 0);
      assert [0, 0, 0, 0, 0, 0, 0, 0, 0, 0, 0xff, 0xff] == Repeated(10, 0) + [0xff, 0xff];
      assert a.octets6[..12] == a.octets6[..10] + [a.octets6[10], a.octets6[11]];
      Parts(a.octets6[..10], [a.octets6[10], a.octets6[11]], Repeated(10, 0), [0xff, 0xff]);
    }
  }

  function Repeated(n: nat, b: bv8): seq<bv8> { seq(n, _ => b) }

  lemma AllAre(o: seq<bv8>, n: nat, b: bv8)
    requires |o| == n
    ensures o == Repeated(n, b) <==> forall i :: 0 <= i < n ==> o[i] == b
  {}

  lemma Parts(a: seq<bv8>, b: seq<bv8>, c: seq<bv8>, d: seq<bv8>)
    requires |a| == |c| && |b| == |d| == 2
    ensures a + b == c + d <==> a == c && b[0] == d[0] && b[1] == d[1]
  {
    assert (a + b)[..|a|] == a && (c + d)[..|c|] == c;
    assert (a + b)[|a|] == b[0] && (c + d)[|c|] == d[0] && (a + b)[|a| + 1] == b[1] && (c + d)[|c| + 1] == d[1];
  }

  lemma Multicast(b: bv8)
    ensures b & 0xf0 == 0xe0 <==> 224 <= b <= 239
  {}

  lemma LinkLocal(b: bv8)
    ensures b & 0xc0 == 0x80 <==> 128 <= b <= 191
  {}
}
