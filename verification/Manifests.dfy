/** File manifests: how a file is cut into chunks, and what the root hash covers. */
module Manifests {
  import opened Common
  import opened LittleEndian

  const U32_MAX: nat := 0xFFFF_FFFF
  const U64_MAX: nat := 0xFFFF_FFFF_FFFF_FFFF
  const MIN_CHUNK_SIZE: nat := 16 * 1024
  const MAX_CHUNK_SIZE: nat := 16 * 1024 * 1024

  type U32 = n: nat | n <= U32_MAX
  type U64 = n: nat | n <= U64_MAX

  /** A 32-byte digest. */
  type Hash = b: Bytes | |b| == 32 witness seq(32, _ => 0)

  /** The hash function is a parameter: nothing but determinism is used of it. */
  type Hasher = Bytes -> Hash

  /** The domain label p2p_file/manifest/v1. */
  const DOMAIN: Bytes := [112, 50, 112, 95, 102, 105, 108, 101, 47, 109, 97, 110, 105, 102, 101, 115, 116, 47, 118, 49]

  /** A file name is its UTF-8 bytes; no string or vector is longer than memory can be. */
  type Name = b: Bytes | |b| <= U64_MAX witness []
  type Chunks = c: seq<Hash> | |c| <= U64_MAX witness []

  datatype Manifest = Manifest(name: Name, totalLen: U64, chunkSize: U32, chunks: Chunks, root: Hash)

  datatype Fault = ChunkSize | TooManyChunks | WrongCount | WrongRoot

  // ---------------------------------------------------------------- chunk arithmetic

  function DivCeil(a: nat, b: nat): nat
    requires b > 0
  {
    a / b + if a % b > 0 then 1 else 0
  }

  function ChunkCount(totalLen: U64, chunkSize: U32): nat {
    if totalLen == 0 || chunkSize == 0 then 0 else DivCeil(totalLen, chunkSize)
  }

  function CheckedMul(a: nat, b: nat): Option<U64> { if a * b <= U64_MAX then Some(a * b) else None }
  function CheckedSub(a: nat, b: nat): Option<U64> { if b <= a <= U64_MAX then Some(a - b) else None }

  function ChunkLenAt(index: U32, totalLen: U64, chunkSize: U32): Option<U32> {
    if index >= ChunkCount(totalLen, chunkSize) then None
    else
      var offset := CheckedMul(index, chunkSize);
      if offset.None? then None
      else
        var remaining := CheckedSub(totalLen, offset.value);
        if remaining.None? then None
        else Some(if remaining.value < chunkSize then remaining.value else chunkSize)
  }

  /** The number of chunks is cast to 32 bits before the comparison. */
  function ChunkOffset(m: Manifest, index: U32): Option<U64> {
    if index >= |m.chunks| % 0x1_0000_0000 then None else CheckedMul(index, m.chunkSize)
  }

  function ChunkRange(m: Manifest, index: U32): Option<(U64, U32)> {
    var offset, len := ChunkOffset(m, index), ChunkLenAt(index, m.totalLen, m.chunkSize);
    if offset.None? || len.None? then None else Some((offset.value, len.value))
  }

  // ---------------------------------------------------------------- validation

  function Preimage(name: Name, totalLen: U64, chunkSize: U32, chunks: Chunks): Bytes {
    DOMAIN + ToLe(|name|, 8) + name + ToLe(totalLen, 8) + ToLe(chunkSize, 4) + ToLe(|chunks|, 8) + Joined(chunks)
  }

  function Joined(chunks: seq<Hash>): Bytes {
    if chunks == [] then [] else chunks[0] + Joined(chunks[1..])
  }

  function RootHashOf(h: Hasher, name: Name, totalLen: U64, chunkSize: U32, chunks: Chunks): Hash {
    h(Preimage(name, totalLen, chunkSize, chunks))
  }

  predicate ValidChunkSize(n: nat) { MIN_CHUNK_SIZE <= n <= MAX_CHUNK_SIZE }

  function Validate(h: Hasher, m: Manifest): Option<Fault> {
    if !ValidChunkSize(m.chunkSize) then Some(ChunkSize)
    else if |m.chunks| > U32_MAX then Some(TooManyChunks)
    else if |m.chunks| != ChunkCount(m.totalLen, m.chunkSize) then Some(WrongCount)
    else if m.root != RootHashOf(h, m.name, m.totalLen, m.chunkSize, m.chunks) then Some(WrongRoot)
    else None
  }

  /** Feeding the hasher field by field and chunk by chunk. */
  method ComputeRoot(h: Hasher, name: Name, totalLen: U64, chunkSize: U32, chunks: Chunks) returns (r: Hash)
    ensures r == RootHashOf(h, name, totalLen, chunkSize, chunks)
  {
    hide ToLe;
    var fed := DOMAIN;
    fed := fed + ToLe(|name|, 8);
    fed := fed + name;
    fed := fed + ToLe(totalLen, 8);
    fed := fed + ToLe(chunkSize, 4);
    fed := fed + ToLe(|chunks|, 8);
    ghost var head := fed;
    var i := 0;
    while i < |chunks|
      invariant i <= |chunks| && fed + Joined(chunks[i..]) == head + Joined(chunks)
    {
      assert chunks[i..][1..] == chunks[i + 1..];
      assert fed + (chunks[i] + Joined(chunks[i + 1..])) == fed + chunks[i] + Joined(chunks[i + 1..]);
      fed := fed + chunks[i];
      i := i + 1;
    }
    assert chunks[i..] == [] && fed + [] == fed;
    r := h(fed);
  }

  // ---------------------------------------------------------------- tiling

  /** Where chunk `i` starts; past the last chunk, the end of the file. */
  ghost function Start(m: Manifest, i: nat): nat {
    if i < |m.chunks| then i * m.chunkSize else m.totalLen
  }

  lemma Below(i: nat, count: nat, size: nat)
    requires i < count
    ensures i * size + size <= count * size
  {
    assert (i + 1) * size <= count * size;
  }

  /** A positive length lies in exactly `DivCeil` chunks. */
  lemma CountCovers(totalLen: nat, size: nat)
    requires totalLen > 0 && size > 0
    ensures var n := DivCeil(totalLen, size);
            n > 0 && (n - 1) * size < totalLen <= n * size
  {
    var q, r := totalLen / size, totalLen % size;
    assert totalLen == q * size + r;
    assert (q + 1) * size == q * size + size;
    assert (q - 1) * size == q * size - size;
  }

  /** Chunk `i` of a file of `totalLen` bytes: it starts at `i * size`, inside the file. */
  lemma ChunkAt(i: nat, totalLen: U64, size: U32)
    requires totalLen > 0 && size > 0 && i < DivCeil(totalLen, size) && i <= U32_MAX
    ensures i * size < totalLen
    ensures ChunkLenAt(i, totalLen, size) == Some(if totalLen - i * size < size then totalLen - i * size else size)
    ensures i + 1 < DivCeil(totalLen, size) ==> totalLen - i * size >= size
    ensures i + 1 == DivCeil(totalLen, size) ==> totalLen - i * size <= size
  {
    var n := DivCeil(totalLen, size);
    CountCovers(totalLen, size);
    if i < n - 1 { Below(i, n - 1, size); }
    assert i * size <= (n - 1) * size;
    assert n * size == (n - 1) * size + size;
  }

  /** In numbers: 16 KiB to 16 MiB a chunk, as many chunks as the file fills, the last maybe in part, at most
      2^32 - 1, and the root that the rest hashes to. */
  lemma ValidatesExactly(h: Hasher, m: Manifest)
    ensures Validate(h, m).None? <==>
              && 16384 <= m.chunkSize <= 16777216 && |m.chunks| <= 4294967295
              && (if m.totalLen == 0 then m.chunks == []
                  else (|m.chunks| - 1) * m.chunkSize < m.totalLen <= |m.chunks| * m.chunkSize)
              && m.root == h(Preimage(m.name, m.totalLen, m.chunkSize, m.chunks))
  {
    if m.chunkSize > 0 && m.totalLen > 0 {
      CountUnique(m.totalLen, m.chunkSize, |m.chunks|);
    }
  }

  lemma CountUnique(totalLen: nat, size: nat, n: nat)
    requires totalLen > 0 && size > 0
    ensures n == DivCeil(totalLen, size) <==> (n - 1) * size < totalLen <= n * size
  {
    hide DivCeil;
    var k := DivCeil(totalLen, size);
    CountCovers(totalLen, size);
    assert (k - 1) * size == k * size - size && (n - 1) * size == n * size - size;
    if n < k { Below(n, k, size); } else if k < n { Below(k, n, size); }
  }

  /** What the root covers, byte by byte. */
  lemma PreimageLayout(name: Name, totalLen: U64, chunkSize: U32, chunks: Chunks)
    ensures var p, n := Preimage(name, totalLen, chunkSize, chunks), |name|;
            && |p| == 48 + n + 32 * |chunks|
            && (forall i :: 0 <= i < 20 ==> p[i] == "p2p_file/manifest/v1"[i] as int)
            && p[20..28] == ToLe(n, 8) && p[28..28 + n] == name
            && p[28 + n..36 + n] == ToLe(totalLen, 8) && p[36 + n..40 + n] == ToLe(chunkSize, 4)
            && p[40 + n..48 + n] == ToLe(|chunks|, 8)
            && forall i :: 0 <= i < |chunks| ==> p[48 + n + 32 * i..80 + n + 32 * i] == chunks[i]
  {
    hide ToLe, Joined;
    DomainLabel();
    hide DOMAIN;
    JoinedSize(chunks);
    var p, j, n := Preimage(name, totalLen, chunkSize, chunks), Joined(chunks), |name|;
    assert p[48 + n..] == j;
    forall i | 0 <= i < |chunks|
      ensures p[48 + n + 32 * i..80 + n + 32 * i] == chunks[i]
    {
      JoinedAt(chunks, i);
      assert p[48 + n + 32 * i..80 + n + 32 * i] == p[48 + n..][32 * i..32 * i + 32];
    }
  }

  lemma DomainLabel()
    ensures |DOMAIN| == 20 && forall i :: 0 <= i < 20 ==> DOMAIN[i] == "p2p_file/manifest/v1"[i] as int
  {}

  lemma {:induction false} JoinedSize(chunks: seq<Hash>)
    ensures |Joined(chunks)| == 32 * |chunks|
  {
    if chunks != [] {
      JoinedSize(chunks[1..]);
    }
  }

  lemma {:induction false} JoinedAt(chunks: seq<Hash>, i: nat)
    requires i < |chunks|
    ensures 32 * i + 32 <= |Joined(chunks)| && Joined(chunks)[32 * i..32 * i + 32] == chunks[i]
  {
    JoinedSize(chunks);
    var rest := Joined(chunks[1..]);
    if i > 0 {
      JoinedAt(chunks[1..], i - 1);
      assert Joined(chunks)[32 * i..32 * i + 32] == rest[32 * (i - 1)..32 * (i - 1) + 32];
    }
  }

  /** In a validated manifest every chunk has a range, each begins where the one before ends, the
      last ends with the file, and all but the last are full. */
  lemma ChunksTile(h: Hasher, m: Manifest, i: U32)
    requires Validate(h, m).None?
    ensures ChunkRange(m, i).Some? <==> i < |m.chunks|
    ensures i < |m.chunks| ==>
              var (offset, len) := ChunkRange(m, i).value;
              && offset == Start(m, i) && offset + len == Start(m, i + 1) <= m.totalLen
              && 0 < len <= m.chunkSize && (i + 1 < |m.chunks| ==> len == m.chunkSize)
    ensures Start(m, 0) == 0 && Start(m, |m.chunks|) == m.totalLen
  {
    if i < |m.chunks| {
      ChunkAt(i, m.totalLen, m.chunkSize);
      assert (i + 1) * m.chunkSize == i * m.chunkSize + m.chunkSize;
    }
  }

  ghost predicate Within(m: Manifest, i: U32, p: nat) {
    ChunkRange(m, i).Some? && ChunkRange(m, i).value.0 <= p < ChunkRange(m, i).value.0 + ChunkRange(m, i).value.1
  }

  lemma ChunkBounds(h: Hasher, m: Manifest, i: nat)
    requires Validate(h, m).None? && i <= |m.chunks|
    ensures |m.chunks| <= U32_MAX
    ensures i == |m.chunks| ==> Start(m, i) == m.totalLen
    ensures i < |m.chunks| ==> ChunkRange(m, i).Some? && Start(m, i) <= Start(m, i + 1) <= m.totalLen
    ensures i < |m.chunks| ==>
              && ChunkRange(m, i).value.0 == Start(m, i)
              && ChunkRange(m, i).value.0 + ChunkRange(m, i).value.1 == Start(m, i + 1)
  {
    if i < |m.chunks| { ChunksTile(h, m, i); }
  }

  lemma QuotientIs(p: nat, s: nat, i: nat)
    requires s > 0
    ensures i == p / s <==> i * s <= p < i * s + s
  {
    var q := p / s;
    assert p == q * s + p % s;
    if i < q { Below(i, q, s); } else if q < i { Below(q, i, s); }
  }

  lemma Past(i: nat, totalLen: nat, size: nat)
    requires size > 0 && i >= DivCeil(totalLen, size)
    ensures totalLen <= i * size
  {
    if totalLen > 0 {
      var n := DivCeil(totalLen, size);
      CountCovers(totalLen, size);
      if n < i { Below(n, i, size); }
    }
  }

  /** No gap and no overlap: a position lies in one chunk exactly, the one division names. */
  lemma EveryByteOnce(h: Hasher, m: Manifest, i: U32, p: nat)
    requires Validate(h, m).None?
    ensures m.chunkSize > 0 && (Within(m, i, p) <==> p < m.totalLen && i == p / m.chunkSize)
  {
    ChunksTile(h, m, i);
    QuotientIs(p, m.chunkSize, i);
    if i >= |m.chunks| { Past(i, m.totalLen, m.chunkSize); }
    hide Validate, ChunkRange;
  }

  /** The pieces a receiver writes, in order, are the file. */
  ghost function Reassembled(m: Manifest, data: Bytes, i: nat): Bytes
    requires |m.chunks| <= U32_MAX && i <= |m.chunks|
    decreases |m.chunks| - i
  {
    if i == |m.chunks| then [] else Piece(m, data, i) + Reassembled(m, data, i + 1)
  }

  ghost function Piece(m: Manifest, data: Bytes, i: U32): Bytes {
    var r := ChunkRange(m, i);
    if r.Some? && r.value.0 + r.value.1 <= |data| then data[r.value.0..r.value.0 + r.value.1] else []
  }

  lemma {:induction false} ChunksReassemble(h: Hasher, m: Manifest, data: Bytes, i: nat)
    requires Validate(h, m).None? && |data| == m.totalLen && i <= |m.chunks|
    ensures Start(m, i) <= |data| && Reassembled(m, data, i) == data[Start(m, i)..]
    decreases |m.chunks| - i
  {
    hide ChunkRange, Validate, Start;
    ChunkBounds(h, m, i);
    if i < |m.chunks| {
      ChunksReassemble(h, m, data, i + 1);
      assert data[Start(m, i)..] == data[Start(m, i)..Start(m, i + 1)] + data[Start(m, i + 1)..];
    }
  }

  // ---------------------------------------------------------------- checking one chunk

  /** Indexing past the end of the chunk list would stop the program. */
  datatype Check = Answer(ok: bool) | OutOfBounds

  function VerifyChunk(h: Hasher, m: Manifest, index: U32, data: Bytes): Check {
    var expected := ChunkLenAt(index, m.totalLen, m.chunkSize);
    if expected.None? then Answer(false)
    else if |data| != expected.value then Answer(false)
    else if index >= |m.chunks| then OutOfBounds
    else Answer(m.chunks[index] == h(data))
  }

  /** With a validated manifest the answer is always given, and it is yes exactly for bytes of
      the right length and digest. */
  lemma VerifyChunkIsSafe(h: Hasher, m: Manifest, index: U32, data: Bytes)
    requires Validate(h, m).None?
    ensures VerifyChunk(h, m, index, data).Answer?
    ensures VerifyChunk(h, m, index, data).ok <==>
              index < |m.chunks| && |data| == Start(m, index + 1) - Start(m, index) && h(data) == m.chunks[index]
  {
    ChunksTile(h, m, index);
  }

  ghost predicate NeverOutOfBounds(h: Hasher, m: Manifest) {
    forall index: U32, data: Bytes :: VerifyChunk(h, m, index, data).Answer?
  }

  /** Without validation it is not so: the length is checked against the claimed file, not against
      the chunk list. No call goes out of bounds if and only if the list is as long as the claim
      (or as long as an index can be). */
  lemma SafeExactlyWhen(h: Hasher, m: Manifest)
    ensures NeverOutOfBounds(h, m) <==> |m.chunks| >= ChunkCount(m.totalLen, m.chunkSize) || |m.chunks| > U32_MAX
  {
    if |m.chunks| < ChunkCount(m.totalLen, m.chunkSize) && |m.chunks| <= U32_MAX {
      var index: U32 := |m.chunks|;
      ChunkAt(index, m.totalLen, m.chunkSize);
      var len := ChunkLenAt(index, m.totalLen, m.chunkSize).value;
      var data: Bytes := seq(len, _ => 0);
      assert VerifyChunk(h, m, index, data) == OutOfBounds;
    }
  }

  /** For instance: one byte claimed, no chunk listed. */
  lemma UnvalidatedMayStop(h: Hasher, root: Hash)
    ensures VerifyChunk(h, Manifest([], 1, MIN_CHUNK_SIZE, [], root), 0, [7]) == OutOfBounds
  {}

  // ---------------------------------------------------------------- the root hash

  /** Equal lengths in front let two concatenations be compared part by part. */
  lemma SplitEqual(a: Bytes, x: Bytes, b: Bytes, y: Bytes)
    requires a + x == b + y && |a| == |b|
    ensures a == b && x == y
  {
    assert a == (a + x)[..|a|] && b == (b + y)[..|b|];
    assert x == (a + x)[|a|..] && y == (b + y)[|b|..];
  }

  lemma LeInjective(n: nat, k: nat, m: nat)
    requires n < Pow256(k) && m < Pow256(k) && ToLe(n, k) == ToLe(m, k)
    ensures n == m
  {
    LeRoundTrip(n, k);
    LeRoundTrip(m, k);
  }

  lemma {:induction false} JoinedInjective(a: seq<Hash>, b: seq<Hash>)
    requires |a| == |b| && Joined(a) == Joined(b)
    ensures a == b
  {
    if a != [] {
      SplitEqual(a[0], Joined(a[1..]), b[0], Joined(b[1..]));
      JoinedInjective(a[1..], b[1..]);
      assert a == [a[0]] + a[1..] && b == [b[0]] + b[1..];
    }
  }

  lemma Regrouped(a: Bytes, b: Bytes, c: Bytes, d: Bytes, e: Bytes, f: Bytes, g: Bytes)
    ensures a + b + c + d + e + f + g == a + (b + (c + (d + (e + (f + g)))))
  {}

  /** No two different manifests feed the hasher the same bytes. */
  lemma PreimageInjective(n1: Name, t1: U64, s1: U32, c1: Chunks, n2: Name, t2: U64, s2: U32, c2: Chunks)
    requires Preimage(n1, t1, s1, c1) == Preimage(n2, t2, s2, c2)
    ensures n1 == n2 && t1 == t2 && s1 == s2 && c1 == c2
  {
    hide ToLe, Joined, Pow256;
    Regrouped(DOMAIN, ToLe(|n1|, 8), n1, ToLe(t1, 8), ToLe(s1, 4), ToLe(|c1|, 8), Joined(c1));
    Regrouped(DOMAIN, ToLe(|n2|, 8), n2, ToLe(t2, 8), ToLe(s2, 4), ToLe(|c2|, 8), Joined(c2));
    Widths();
    var f1, f2 := ToLe(|c1|, 8) + Joined(c1), ToLe(|c2|, 8) + Joined(c2);
    var e1, e2 := ToLe(s1, 4) + f1, ToLe(s2, 4) + f2;
    var d1, d2 := ToLe(t1, 8) + e1, ToLe(t2, 8) + e2;
    SplitEqual(DOMAIN, ToLe(|n1|, 8) + (n1 + d1), DOMAIN, ToLe(|n2|, 8) + (n2 + d2));
    SplitEqual(ToLe(|n1|, 8), n1 + d1, ToLe(|n2|, 8), n2 + d2);
    LeInjective(|n1|, 8, |n2|);
    SplitEqual(n1, d1, n2, d2);
    SplitEqual(ToLe(t1, 8), e1, ToLe(t2, 8), e2);
    LeInjective(t1, 8, t2);
    SplitEqual(ToLe(s1, 4), f1, ToLe(s2, 4), f2);
    LeInjective(s1, 4, s2);
    SplitEqual(ToLe(|c1|, 8), Joined(c1), ToLe(|c2|, 8), Joined(c2));
    LeInjective(|c1|, 8, |c2|);
    JoinedInjective(c1, c2);
  }

  /** Two validated manifests with one root hash are the same, or the hash function collides. */
  lemma SameRootSameManifest(h: Hasher, a: Manifest, b: Manifest)
    requires Validate(h, a).None? && Validate(h, b).None? && a.root == b.root
    ensures a == b || exists x, y :: x != y && h(x) == h(y)
  {
    var x := Preimage(a.name, a.totalLen, a.chunkSize, a.chunks);
    var y := Preimage(b.name, b.totalLen, b.chunkSize, b.chunks);
    if x == y {
      PreimageInjective(a.name, a.totalLen, a.chunkSize, a.chunks, b.name, b.totalLen, b.chunkSize, b.chunks);
    } else {
      assert h(x) == h(y);
    }
  }
}
