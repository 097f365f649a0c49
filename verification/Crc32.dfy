/** IEEE CRC-32 (reflected, polynomial 0xEDB88320), bit by bit as the source computes it. */
module Crc32 {

  function BitStep(crc: bv32): bv32 {
    (crc >> 1) ^ (if crc & 1 == 1 then 0xEDB8_8320 else 0)
  }

  function BitSteps(crc: bv32, n: nat): bv32
    decreases n
  {
    if n == 0 then crc else BitSteps(BitStep(crc), n - 1)
  }

  function Xor(a: bv32, b: bv32): bv32 { a ^ b }

  function ByteStep(crc: bv32, b: bv8): bv32 {
    BitSteps(Xor(crc, b as bv32), 8)
  }

  function Fold(crc: bv32, data: seq<bv8>): bv32
    decreases |data|
  {
    if data == [] then crc else Fold(ByteStep(crc, data[0]), data[1..])
  }

  function Checksum(data: seq<bv8>): bv32 {
    !Fold(0xFFFF_FFFF, data)
  }

  /** The source's two nested loops, with its branch-free mask. */
  method Crc32(data: seq<bv8>) returns (sum: bv32)
    ensures sum == Checksum(data)
  {
    hide BitStep;
    var crc: bv32 := 0xFFFF_FFFF;
    for i := 0 to |data|
      invariant Fold(0xFFFF_FFFF, data) == Fold(crc, data[i..])
    {
      ghost var before := crc;
      crc := crc ^ (data[i] as bv32);
      for k := 0 to 8
        invariant BitSteps(Xor(before, data[i] as bv32), 8) == BitSteps(crc, 8 - k)
      {
        MaskIsBranch(crc);
        crc := (crc >> 1) ^ (0xEDB8_8320 & (0 - (crc & 1)));
      }
      assert data[i..][1..] == data[i + 1..];
    }
    sum := !crc;
  }

  lemma MaskIsBranch(crc: bv32)
    ensures (crc >> 1) ^ (0xEDB8_8320 & (0 - (crc & 1))) == BitStep(crc)
  {
    LowBit(crc);
    Masks(crc & 1);
  }

  /** The mask is all ones or all zeros. */
  lemma Masks(low: bv32)
    requires low == 0 || low == 1
    ensures 0xEDB8_8320 & (0 - low) == if low == 1 then 0xEDB8_8320 else 0
  {
    if low == 1 {
      assert (0 as bv32) - 1 == 0xFFFF_FFFF;
    }
  }

  lemma LowBit(a: bv32)
    ensures a & 1 == 0 || a & 1 == 1
  {}

  // ------------------------------------------------------------ the standard check value

  lemma NineSteps()
    ensures ByteStep(0xFFFF_FFFF, 0x31) == 0x7C23_1048 && ByteStep(0x7C23_1048, 0x32) == 0xB0AC_BB32
    ensures ByteStep(0xB0AC_BB32, 0x33) == 0x77B7_9C2D && ByteStep(0x77B7_9C2D, 0x34) == 0x641C_1F5C
    ensures ByteStep(0x641C_1F5C, 0x35) == 0x340A_C5E3 && ByteStep(0x340A_C5E3, 0x36) == 0xF68D_2C9E
    ensures ByteStep(0xF68D_2C9E, 0x37) == 0xAFFC_9660 && ByteStep(0xAFFC_9660, 0x38) == 0x651F_2550
    ensures ByteStep(0x651F_2550, 0x39) == 0x340B_C6D9
  {}

  lemma FoldFirst(crc: bv32, b: bv8, rest: seq<bv8>)
    ensures Fold(crc, [b] + rest) == Fold(ByteStep(crc, b), rest)
  {
    hide ByteStep;
    assert ([b] + rest)[1..] == rest;
  }

  lemma {:induction false} FoldTo(crc: bv32, data: seq<bv8>, crcs: seq<bv32>)
    requires |crcs| == |data| + 1 && crcs[0] == crc
    requires forall i :: 0 <= i < |data| ==> ByteStep(crcs[i], data[i]) == crcs[i + 1]
    ensures Fold(crc, data) == crcs[|data|]
    decreases |data|
  {
    hide ByteStep;
    if data != [] {
      FoldFirst(crc, data[0], data[1..]);
      assert data == [data[0]] + data[1..];
      FoldTo(crcs[1], data[1..], crcs[1..]);
    }
  }

  /** The check value every IEEE CRC-32 gives for the digits 1 to 9. */
  lemma StandardCheckValue()
    ensures Checksum([0x31, 0x32, 0x33, 0x34, 0x35, 0x36, 0x37, 0x38, 0x39]) == 0xCBF4_3926
  {
    hide ByteStep, Fold;
    NineSteps();
    FoldTo(0xFFFF_FFFF, [0x31, 0x32, 0x33, 0x34, 0x35, 0x36, 0x37, 0x38, 0x39],
           [0xFFFF_FFFF, 0x7C23_1048, 0xB0AC_BB32, 0x77B7_9C2D, 0x641C_1F5C, 0x340A_C5E3, 0xF68D_2C9E, 0xAFFC_9660,
            0x651F_2550, 0x340B_C6D9]);
  }

  // ------------------------------------------------------------ no two states merge

  lemma BitStepInjective(a: bv32, b: bv32)
    requires BitStep(a) == BitStep(b)
    ensures a == b
  {}

  lemma {:induction false} BitStepsInjective(a: bv32, b: bv32, n: nat)
    requires BitSteps(a, n) == BitSteps(b, n)
    ensures a == b
    decreases n
  {
    hide BitStep;
    if n > 0 {
      BitStepsInjective(BitStep(a), BitStep(b), n - 1);
      BitStepInjective(a, b);
    }
  }

  lemma ByteStepInjective(a: bv32, b: bv32, x: bv8)
    requires ByteStep(a, x) == ByteStep(b, x)
    ensures a == b
  {
    hide BitSteps, Xor;
    BitStepsInjective(Xor(a, x as bv32), Xor(b, x as bv32), 8);
    XorCancels(a, b, x as bv32);
  }

  lemma XorCancels(a: bv32, b: bv32, m: bv32)
    requires Xor(a, m) == Xor(b, m)
    ensures a == b
  {}

  lemma {:induction false} FoldInjective(a: bv32, b: bv32, data: seq<bv8>)
    requires Fold(a, data) == Fold(b, data)
    ensures a == b
    decreases |data|
  {
    hide ByteStep;
    if data != [] {
      FoldInjective(ByteStep(a, data[0]), ByteStep(b, data[0]), data[1..]);
      ByteStepInjective(a, b, data[0]);
    }
  }

  lemma {:induction false} FoldSplit(crc: bv32, x: seq<bv8>, y: seq<bv8>)
    ensures Fold(crc, x + y) == Fold(Fold(crc, x), y)
    decreases |x|
  {
    hide ByteStep;
    if x == [] {
      assert x + y == y;
    } else {
      assert (x + y)[1..] == x[1..] + y;
      FoldSplit(ByteStep(crc, x[0]), x[1..], y);
    }
  }

  // ------------------------------------------------------------ bursts of up to 32 bits

  lemma LinearEvenEven(a: bv32, b: bv32)
    requires a & 1 == 0 && b & 1 == 0
    ensures BitStep(a ^ b) == BitStep(a) ^ BitStep(b)
  {}

  lemma LinearOddEven(a: bv32, b: bv32)
    requires a & 1 == 1 && b & 1 == 0
    ensures BitStep(a ^ b) == BitStep(a) ^ BitStep(b)
  {}

  lemma LinearEvenOdd(a: bv32, b: bv32)
    requires a & 1 == 0 && b & 1 == 1
    ensures BitStep(a ^ b) == BitStep(a) ^ BitStep(b)
  {}

  lemma LinearOddOdd(a: bv32, b: bv32)
    requires a & 1 == 1 && b & 1 == 1
    ensures BitStep(a ^ b) == BitStep(a) ^ BitStep(b)
  {}

  /** The bit step is linear over exclusive or. */
  lemma BitStepLinear(a: bv32, b: bv32)
    ensures BitStep(Xor(a, b)) == Xor(BitStep(a), BitStep(b))
  {
    hide BitStep;
    LowBit(a);
    LowBit(b);
    if a & 1 == 0 {
      if b & 1 == 0 { LinearEvenEven(a, b); } else { LinearEvenOdd(a, b); }
    } else {
      if b & 1 == 0 { LinearOddEven(a, b); } else { LinearOddOdd(a, b); }
    }
  }

  lemma {:induction false} BitStepsLinear(a: bv32, b: bv32, n: nat)
    ensures BitSteps(Xor(a, b), n) == Xor(BitSteps(a, n), BitSteps(b, n))
    decreases n
  {
    hide BitStep, Xor;
    if n > 0 {
      BitStepLinear(a, b);
      BitStepsLinear(BitStep(a), BitStep(b), n - 1);
    }
  }

  lemma {:induction false} BitStepsAdd(a: bv32, m: nat, n: nat)
    ensures BitSteps(a, m + n) == BitSteps(BitSteps(a, m), n)
    decreases m
  {
    hide BitStep;
    if m > 0 {
      BitStepsAdd(BitStep(a), m - 1, n);
    }
  }

  /** Eight zero bits are shifted out unchanged. */
  lemma ShiftOut(a: bv32)
    requires a & 0xFF == 0
    ensures BitSteps(a, 8) == a >> 8
  {
    EightSteps(a);
    EightZeroBits(a);
    hide BitStep, BitSteps;
  }

  lemma EightZeroBits(a: bv32)
    requires a & 0xFF == 0
    ensures BitStep(BitStep(BitStep(BitStep(BitStep(BitStep(BitStep(BitStep(a)))))))) == a >> 8
  {}

  lemma EightSteps(a: bv32)
    ensures BitSteps(a, 8) == BitStep(BitStep(BitStep(BitStep(BitStep(BitStep(BitStep(BitStep(a))))))))
  {
    hide BitStep;
    var b := BitStep(BitStep(BitStep(BitStep(a))));
    BitStepsAdd(a, 4, 4);
    assert BitSteps(a, 4) == BitSteps(BitStep(BitStep(a)), 2) == b;
    assert BitSteps(b, 4) == BitSteps(BitStep(BitStep(b)), 2);
  }

  /** A byte fed in after `8 * k` bit steps might as well have been there from the start. */
  lemma FedLater(u: bv32, b: bv8, k: nat)
    requires k < 4
    ensures ByteStep(BitSteps(u, 8 * k), b) == BitSteps(Xor(u, Lane(b, k)), 8 * k + 8)
  {
    hide Lane, Xor, BitStep;
    LaneArrives(b, k);
    BitStepsLinear(u, Lane(b, k), 8 * k);
    BitStepsAdd(Xor(u, Lane(b, k)), 8 * k, 8);
  }

  function Lane(b: bv8, k: nat): bv32
    requires k < 4
  {
    if k == 0 then b as bv32
    else if k == 1 then (b as bv32) << 8
    else if k == 2 then (b as bv32) << 16
    else (b as bv32) << 24
  }

  lemma {:induction false} LaneArrives(b: bv8, k: nat)
    requires k < 4
    ensures BitSteps(Lane(b, k), 8 * k) == b as bv32
    decreases k
  {
    hide Lane, BitStep;
    if k == 0 {
      LaneZero(b);
    } else {
      LaneShifts(b, k);
      ShiftOut(Lane(b, k));
      BitStepsAdd(Lane(b, k), 8, 8 * k - 8);
      LaneArrives(b, k - 1);
    }
  }

  lemma LaneZero(b: bv8)
    ensures Lane(b, 0) == b as bv32
  {}

  lemma LaneShifts(b: bv8, k: nat)
    requires 0 < k < 4
    ensures Lane(b, k) & 0xFF == 0 && Lane(b, k) >> 8 == Lane(b, k - 1)
  {
    if k == 1 { LaneShifts1(b); } else if k == 2 { LaneShifts2(b); } else { LaneShifts3(b); }
  }

  lemma LaneShifts1(b: bv8)
    ensures ((b as bv32) << 8) & 0xFF == 0 && ((b as bv32) << 8) >> 8 == b as bv32
  {}

  lemma LaneShifts2(b: bv8)
    ensures ((b as bv32) << 16) & 0xFF == 0 && ((b as bv32) << 16) >> 8 == (b as bv32) << 8
  {}

  lemma LaneShifts3(b: bv8)
    ensures ((b as bv32) << 24) & 0xFF == 0 && ((b as bv32) << 24) >> 8 == (b as bv32) << 16
  {}

  function Spread(s: bv32, x: seq<bv8>): bv32
    requires |x| == 4
  {
    Xor(Xor(Xor(Xor(s, Lane(x[0], 0)), Lane(x[1], 1)), Lane(x[2], 2)), Lane(x[3], 3))
  }

  /** Four bytes are absorbed as one 32-bit word. */
  lemma FourBytes(s: bv32, x: seq<bv8>)
    requires |x| == 4
    ensures Fold(s, x) == BitSteps(Spread(s, x), 32)
  {
    hide Xor, Lane, BitStep;
    var u1 := Xor(s, Lane(x[0], 0));
    var u2 := Xor(u1, Lane(x[1], 1));
    var u3 := Xor(u2, Lane(x[2], 2));
    FedLater(s, x[0], 0);
    FedLater(u1, x[1], 1);
    FedLater(u2, x[2], 2);
    FedLater(u3, x[3], 3);
    assert BitSteps(s, 0) == s;
    hide ByteStep, BitSteps;
    FoldFour(s, x[0], x[1], x[2], x[3]);
    assert x == [x[0], x[1], x[2], x[3]];
  }

  lemma FoldFour(s: bv32, a: bv8, b: bv8, c: bv8, d: bv8)
    ensures Fold(s, [a, b, c, d]) == ByteStep(ByteStep(ByteStep(ByteStep(s, a), b), c), d)
  {
    hide ByteStep;
    FoldSplit(s, [a, b], [c, d]);
    assert [a, b] + [c, d] == [a, b, c, d];
    FoldTwo(s, a, b);
    FoldTwo(ByteStep(ByteStep(s, a), b), c, d);
  }

  lemma FoldTwo(s: bv32, a: bv8, b: bv8)
    ensures Fold(s, [a, b]) == ByteStep(ByteStep(s, a), b)
  {
    hide ByteStep;
    FoldSplit(s, [a], [b]);
    assert [a] + [b] == [a, b];
  }

  lemma SpreadInjective(s: bv32, x: seq<bv8>, y: seq<bv8>)
    requires |x| == |y| == 4 && Spread(s, x) == Spread(s, y)
    ensures x == y
  {
    SpreadIs(s, x);
    SpreadIs(s, y);
    hide Spread;
    LanesApart(s, x[0], x[1], x[2], x[3], y[0], y[1], y[2], y[3]);
    hide Mixed;
  }

  lemma SpreadIs(s: bv32, x: seq<bv8>)
    requires |x| == 4
    ensures Spread(s, x) == Mixed(s, x[0], x[1], x[2], x[3])
  {
    assert Lane(x[0], 0) == x[0] as bv32 && Lane(x[1], 1) == (x[1] as bv32) << 8;
    assert Lane(x[2], 2) == (x[2] as bv32) << 16 && Lane(x[3], 3) == (x[3] as bv32) << 24;
    hide Lane;
  }

  function Mixed(s: bv32, a: bv8, b: bv8, c: bv8, d: bv8): bv32 {
    (((s ^ (a as bv32)) ^ ((b as bv32) << 8)) ^ ((c as bv32) << 16)) ^ ((d as bv32) << 24)
  }

  lemma LanesApart(s: bv32, a: bv8, b: bv8, c: bv8, d: bv8, a': bv8, b': bv8, c': bv8, d': bv8)
    requires Mixed(s, a, b, c, d) == Mixed(s, a', b', c', d')
    ensures a == a' && b == b' && c == c' && d == d'
  {}

  /** Any alteration confined to four consecutive bytes changes the checksum. */
  lemma BurstChangesChecksum(x: seq<bv8>, y: seq<bv8>, p: nat)
    requires |x| == |y| && p + 4 <= |x| && x != y
    requires forall i :: 0 <= i < |x| && x[i] != y[i] ==> p <= i < p + 4
    ensures Checksum(x) != Checksum(y)
  {
    hide ByteStep, Spread;
    var pre, post := x[..p], x[p + 4..];
    assert x == pre + (x[p..p + 4] + post);
    assert y == pre + (y[p..p + 4] + post);
    var s := Fold(0xFFFF_FFFF, pre);
    FoldSplit(0xFFFF_FFFF, pre, x[p..p + 4] + post);
    FoldSplit(0xFFFF_FFFF, pre, y[p..p + 4] + post);
    FoldSplit(s, x[p..p + 4], post);
    FoldSplit(s, y[p..p + 4], post);
    if Fold(0xFFFF_FFFF, x) == Fold(0xFFFF_FFFF, y) {
      FoldInjective(Fold(s, x[p..p + 4]), Fold(s, y[p..p + 4]), post);
      FourBytes(s, x[p..p + 4]);
      FourBytes(s, y[p..p + 4]);
      BitStepsInjective(Spread(s, x[p..p + 4]), Spread(s, y[p..p + 4]), 32);
      SpreadInjective(s, x[p..p + 4], y[p..p + 4]);
    }
    ComplementInjective(Fold(0xFFFF_FFFF, x), Fold(0xFFFF_FFFF, y));
  }

  lemma ComplementInjective(a: bv32, b: bv32)
    ensures !a == !b ==> a == b
  {}
}
