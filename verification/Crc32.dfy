/** The 32-bit register seen as a polynomial: one shift/xor step multiplies by x and
    reduces by the generator. */
module Crc32Register {
  import opened Crc32Table
  import opened Gf2

  /** x^32+x^26+x^23+x^22+x^16+x^12+x^11+x^10+x^8+x^7+x^5+x^4+x^2+x+1 */
  const GENERATOR: Poly := {32, 26, 23, 22, 16, 12, 11, 10, 8, 7, 5, 4, 2, 1, 0}

  function Bit(r: bv32, i: nat): bool
    decreases i
  {
    if i == 0 then Low(r) else Bit(Shr(r), i - 1)
  }

  /** The register as a polynomial. It is bit-reflected: bit 31 is the constant term. */
  function PolyOf(r: bv32): (p: Poly)
    ensures forall e: nat :: e in p <==> e < 32 && Bit(r, 31 - e)
  {
    set e: nat {:trigger 31 - e} | e < 32 && Bit(r, 31 - e)
  }

  lemma XorLow(a: bv32, b: bv32)
    ensures Low(Xor(a, b)) <==> Low(a) != Low(b)
  {}

  lemma XorShr(a: bv32, b: bv32)
    ensures Shr(Xor(a, b)) == Xor(Shr(a), Shr(b))
  {}

  lemma {:induction false} BitXor(a: bv32, b: bv32, i: nat)
    ensures Bit(Xor(a, b), i) <==> Bit(a, i) != Bit(b, i)
    decreases i
  {
    hide Low, Shr, Xor;
    if i == 0 {
      XorLow(a, b);
    } else {
      XorShr(a, b);
      BitXor(Shr(a), Shr(b), i - 1);
    }
  }

  function Shr8(r: bv32): bv32 {
    Shr(Shr(Shr(Shr(Shr(Shr(Shr(Shr(r))))))))
  }

  lemma BitShift8(r: bv32, i: nat)
    ensures Bit(r, i + 8) == Bit(Shr8(r), i)
  {
    hide Low, Shr;
    var r2 := Shr(Shr(r));
    var r4 := Shr(Shr(r2));
    var r6 := Shr(Shr(r4));
    assert Bit(r, i + 8) == Bit(Shr(r), i + 7) == Bit(r2, i + 6);
    assert Bit(r2, i + 6) == Bit(Shr(r2), i + 5) == Bit(r4, i + 4);
    assert Bit(r4, i + 4) == Bit(Shr(r4), i + 3) == Bit(r6, i + 2);
    assert Bit(r6, i + 2) == Bit(Shr(r6), i + 1) == Bit(Shr8(r), i);
  }

  lemma Shr8IsShift(r: bv32)
    ensures Shr8(r) == r >> 8
  {}

  lemma ShiftedOut(r: bv32)
    ensures Shr8(Shr8(Shr8(Shr8(r)))) == 0
  {
    var a := Shr8(r);
    assert a <= 0x00ff_ffff by { Shr8IsShift(r); }
    var b := Shr8(a);
    assert b <= 0xffff by { Shr8IsShift(a); }
    var c := Shr8(b);
    assert c <= 0xff by { Shr8IsShift(b); }
    assert Shr8(c) == 0 by { Shr8IsShift(c); }
  }

  lemma {:induction false} BitZero(i: nat)
    ensures !Bit(0, i)
    decreases i
  {
    if i > 0 {
      assert Shr(0) == 0;
      BitZero(i - 1);
    }
  }

  lemma NoBit32(r: bv32)
    ensures !Bit(r, 32)
  {
    ShiftedOut(r);
    hide Shr8;
    BitShift8(r, 24);
    BitShift8(Shr8(r), 16);
    BitShift8(Shr8(Shr8(r)), 8);
    BitShift8(Shr8(Shr8(Shr8(r))), 0);
    BitZero(0);
  }

  lemma BitInByte(r: bv32, i: nat)
    requires i < 8
    ensures Bit(r, i) == match i
                         case 0 => Low(r)
                         case 1 => Low(Shr(r))
                         case 2 => Low(Shr(Shr(r)))
                         case 3 => Low(Shr(Shr(Shr(r))))
                         case 4 => Low(Shr(Shr(Shr(Shr(r)))))
                         case 5 => Low(Shr(Shr(Shr(Shr(Shr(r))))))
                         case 6 => Low(Shr(Shr(Shr(Shr(Shr(Shr(r)))))))
                         case _ => Low(Shr(Shr(Shr(Shr(Shr(Shr(Shr(r))))))))
  {
    hide Low, Shr;
    if i >= 4 {
      var r4 := Shr(Shr(Shr(Shr(r))));
      assert Bit(r, i) == Bit(Shr(r), i - 1) == Bit(Shr(Shr(r)), i - 2);
      assert Bit(Shr(Shr(r)), i - 2) == Bit(Shr(Shr(Shr(r))), i - 3) == Bit(r4, i - 4);
    }
  }

  lemma GeneratorBit(i: nat)
    requires i < 32
    ensures Bit(POLY, i) <==> 31 - i in GENERATOR
  {
    if i < 8 {
      BitInByte(POLY, i);
    } else {
      BitShift8(POLY, i - 8);
      if i < 16 {
        BitInByte(0xedb883, i - 8);
      } else {
        BitShift8(0xedb883, i - 16);
        if i < 24 {
          BitInByte(0xedb8, i - 16);
        } else {
          BitShift8(0xedb8, i - 24);
          BitInByte(0xed, i - 24);
        }
      }
    }
  }

  lemma StepBit(r: bv32, i: nat)
    requires i < 32
    ensures Bit(Step(r), i) <==> Bit(r, i + 1) != (Low(r) && 31 - i in GENERATOR)
  {
    hide Low, Shr, Xor;
    BitXor(Shr(r), if Low(r) then POLY else 0, i);
    GeneratorBit(i);
    BitZero(i);
    assert Bit(Shr(r), i) == Bit(r, i + 1);
    hide GENERATOR;
  }

  /** A step multiplies by x, and takes the generator away when the product has degree 32. */
  lemma {:induction false} StepIsTimesX(r: bv32)
    ensures PolyOf(Step(r)) == Add(Shift(PolyOf(r), 1), Scale(Low(r), GENERATOR))
  {
    assert DegreeBelow(GENERATOR, 33) && 32 in GENERATOR;
    assert Low(r) == Bit(r, 0);
    hide Low, Shr, Xor, Step, GENERATOR, Bit;
    forall e: nat ensures e in PolyOf(Step(r)) <==> e in Add(Shift(PolyOf(r), 1), Scale(Low(r), GENERATOR)) {
      if e < 32 {
        StepBit(r, 31 - e);
        if e == 0 { NoBit32(r); }
      }
    }
  }

  /** Feeds one message bit to the register. */
  function BitStep(r: bv32, b: bool): bv32 {
    Step(Xor(r, if b then 1 else 0))
  }

  lemma OneBit(i: nat)
    ensures Bit(1, i) <==> i == 0
  {
    assert Low(1);
    assert Shr(1) == 0;
    if i > 0 { BitZero(i - 1); }
  }

  /** One message bit: multiply the register by x, add the bit at x^32, reduce. */
  lemma {:induction false} BitStepIsDivision(r: bv32, b: bool)
    ensures PolyOf(BitStep(r, b)) ==
            Add(Add(Shift(PolyOf(r), 1), Scale(b, {32})), Scale(Low(r) != b, GENERATOR))
  {
    var m: bv32 := if b then 1 else 0;
    assert Low(m) == b;
    XorLow(r, m);
    hide Low, Shr, Xor, Step;
    var x := Xor(r, m);
    StepIsTimesX(x);
    forall e: nat ensures e in Shift(PolyOf(x), 1) <==> e in Add(Shift(PolyOf(r), 1), Scale(b, {32})) {
      if 0 < e <= 32 {
        BitXor(r, m, 32 - e);
        OneBit(32 - e);
        BitZero(32 - e);
      }
    }
    assert Shift(PolyOf(x), 1) == Add(Shift(PolyOf(r), 1), Scale(b, {32}));
  }

  function Top(r: bv32): bool {
    r & 0x8000_0000 != 0
  }

  function Shl(r: bv32, low: bool): bv32 {
    if low then (r << 1) | 1 else r << 1
  }

  /** Undoes a step: bit 31 tells whether the generator was taken away. */
  function Unstep(r: bv32): bv32 {
    if Top(r) then Shl(Xor(r, POLY), true) else Shl(r, false)
  }

  lemma ShlShr(r: bv32)
    ensures Shl(Shr(r), Low(r)) == r && !Top(Shr(r))
  {}

  lemma ShrShl(r: bv32, low: bool)
    ensures Low(Shl(r, low)) == low && (!Top(r) ==> Shr(Shl(r, low)) == r)
  {}

  lemma XorPoly(r: bv32)
    ensures Xor(Xor(r, POLY), POLY) == r && Top(Xor(r, POLY)) == !Top(r)
  {}

  lemma XorNothing(r: bv32)
    ensures Xor(r, 0) == r
  {}

  /** A register step is a bijection. */
  lemma {:induction false} StepInverse(r: bv32)
    ensures Unstep(Step(r)) == r && Step(Unstep(r)) == r
  {
    hide Xor, Shr, Low, Top, Shl;
    ShlShr(r);
    XorPoly(Shr(r));
    XorNothing(Shr(r));
    XorPoly(r);
    ShrShl(Xor(r, POLY), true);
    ShrShl(r, false);
    XorNothing(r);
  }

  // The polynomial determines the register

  function ShrBy(r: bv32, n: nat): bv32
    decreases n
  {
    if n == 0 then r else ShrBy(Shr(r), n - 1)
  }

  lemma ShrByEight(r: bv32, n: nat)
    ensures ShrBy(r, n + 8) == ShrBy(Shr8(r), n)
  {
    hide Shr;
    var r2 := Shr(Shr(r));
    var r4 := Shr(Shr(r2));
    var r6 := Shr(Shr(r4));
    assert ShrBy(r, n + 8) == ShrBy(Shr(r), n + 7) == ShrBy(r2, n + 6);
    assert ShrBy(r2, n + 6) == ShrBy(Shr(r2), n + 5) == ShrBy(r4, n + 4);
    assert ShrBy(r4, n + 4) == ShrBy(Shr(r4), n + 3) == ShrBy(r6, n + 2);
    assert ShrBy(r6, n + 2) == ShrBy(Shr(r6), n + 1) == ShrBy(Shr8(r), n);
  }

  lemma NothingAbove(r: bv32)
    ensures ShrBy(r, 32) == 0
  {
    ShiftedOut(r);
    hide Shr8;
    ShrByEight(r, 24);
    ShrByEight(Shr8(r), 16);
    ShrByEight(Shr8(Shr8(r)), 8);
    ShrByEight(Shr8(Shr8(Shr8(r))), 0);
  }

  lemma {:induction false} SameBits(a: bv32, b: bv32, n: nat)
    requires ShrBy(a, n) == 0 && ShrBy(b, n) == 0 && forall i: nat | i < n :: Bit(a, i) == Bit(b, i)
    ensures a == b
    decreases n
  {
    hide Low, Shr, Shl;
    if n > 0 {
      forall i: nat | i < n - 1 ensures Bit(Shr(a), i) == Bit(Shr(b), i) {
        assert Bit(a, i + 1) == Bit(b, i + 1);
      }
      SameBits(Shr(a), Shr(b), n - 1);
      assert Bit(a, 0) == Bit(b, 0);
      ShlShr(a);
      ShlShr(b);
    }
  }

  lemma PolyOfInjective(a: bv32, b: bv32)
    requires PolyOf(a) == PolyOf(b)
    ensures a == b
  {
    hide Bit, ShrBy;
    NothingAbove(a);
    NothingAbove(b);
    forall i: nat | i < 32 ensures Bit(a, i) == Bit(b, i) {
      assert 31 - i in PolyOf(a) <==> 31 - i in PolyOf(b);
      assert 31 - (31 - i) == i;
    }
    SameBits(a, b, 32);
  }

  function RunBits(r: bv32, bits: seq<bool>): bv32
    decreases |bits|
  {
    if |bits| == 0 then r else RunBits(BitStep(r, bits[0]), bits[1..])
  }

  lemma {:induction false} RunBitsConcat(r: bv32, a: seq<bool>, b: seq<bool>)
    ensures RunBits(r, a + b) == RunBits(RunBits(r, a), b)
    decreases |a|
  {
    hide Step, Xor;
    if |a| == 0 {
      assert a + b == b;
    } else {
      assert (a + b)[1..] == a[1..] + b;
      RunBitsConcat(BitStep(r, a[0]), a[1..], b);
    }
  }

  /** No two registers become the same by the same input. */
  lemma {:induction false} RunBitsInjective(r: bv32, s: bv32, bits: seq<bool>)
    requires RunBits(r, bits) == RunBits(s, bits)
    ensures r == s
    decreases |bits|
  {
    hide Step, Unstep, Xor;
    if |bits| > 0 {
      var m: bv32 := if bits[0] then 1 else 0;
      RunBitsInjective(BitStep(r, bits[0]), BitStep(s, bits[0]), bits[1..]);
      StepInverse(Xor(r, m));
      StepInverse(Xor(s, m));
      XorCancels(r, s, m);
    }
  }

  lemma XorCancels(r: bv32, s: bv32, m: bv32)
    ensures Xor(r, m) == Xor(s, m) ==> r == s
  {}

  /** Bit-serial division: what was fed in equals a multiple of the generator plus the
      polynomial left in the register. */
  lemma {:induction false} Division(r: bv32, bits: seq<bool>) returns (q: seq<bool>)
    ensures |q| == |bits|
    ensures Add(Shift(OfBits(bits), 32), Shift(PolyOf(r), |bits|)) ==
            Add(Mul(q, GENERATOR), PolyOf(RunBits(r, bits)))
    decreases |bits|
  {
    hide Step, Xor, Low, GENERATOR;
    if |bits| == 0 {
      q := [];
    } else {
      var n := |bits| - 1;
      var t, b := bits[..n], bits[n];
      assert bits == t + [b];
      var q' := Division(r, t);
      var r' := RunBits(r, t);
      RunBitsConcat(r, t, [b]);
      assert RunBits(r, bits) == BitStep(r', b);
      BitStepIsDivision(r', b);
      q := q' + [Low(r') != b];
      MulSnoc(q', Low(r') != b, GENERATOR);
      MulSnoc(t, b, ONE);
      DivisionStep(OfBits(t), PolyOf(r), n, Mul(q', GENERATOR), PolyOf(r'), b, Scale(Low(r') != b, GENERATOR));
    }
  }

  lemma DivisionStep(m: Poly, i: Poly, n: nat, k: Poly, p: Poly, b: bool, g: Poly)
    requires Add(Shift(m, 32), Shift(i, n)) == Add(k, p)
    ensures Add(Shift(Add(Shift(m, 1), Scale(b, ONE)), 32), Shift(i, n + 1)) ==
            Add(Add(Shift(k, 1), g), Add(Add(Shift(p, 1), Scale(b, {32})), g))
  {
    forall e: nat ensures e in Add(Shift(Add(Shift(m, 1), Scale(b, ONE)), 32), Shift(i, n + 1)) <==>
      e in Add(Add(Shift(k, 1), g), Add(Add(Shift(p, 1), Scale(b, {32})), g))
    {
      if e > 0 {
        assert e - 1 in Add(Shift(m, 32), Shift(i, n)) <==> e - 1 in Add(k, p);
      }
    }
  }
}

/** tools/crc32.c: the table-driven CRC-32 over whole messages. */
module Crc32 {
  import opened Crc32Table
  import opened Crc32Register
  import opened Gf2

  type byte = bv8

  /** The bits of a byte in transmission order, least significant first. */
  function BitsOfByte(b: byte): (s: seq<bool>)
    ensures |s| == 8
  {
    [Has(b, 0x01), Has(b, 0x02), Has(b, 0x04), Has(b, 0x08),
     Has(b, 0x10), Has(b, 0x20), Has(b, 0x40), Has(b, 0x80)]
  }

  function Has(b: byte, m: byte): bool {
    b & m != 0
  }

  function BitsOf(msg: seq<byte>): (s: seq<bool>)
    ensures |s| == 8 * |msg|
  {
    if |msg| == 0 then [] else BitsOfByte(msg[0]) + BitsOf(msg[1..])
  }

  /** The CRC-32 of msg continued from the value crc, by bit-serial division. */
  function Checksum(crc: bv32, msg: seq<byte>): bv32 {
    Complement(RunBits(Complement(crc), BitsOf(msg)))
  }

  /** crc ^ ~0U */
  function Complement(r: bv32): bv32 {
    Xor(r, 0xffff_ffff)
  }

  lemma ComplementTwice(r: bv32)
    ensures Complement(Complement(r)) == r
  {}

  lemma {:induction false} BitsOfConcat(a: seq<byte>, b: seq<byte>)
    ensures BitsOf(a + b) == BitsOf(a) + BitsOf(b)
  {
    hide BitsOfByte;
    if |a| == 0 {
      assert a + b == b;
    } else {
      assert (a + b)[1..] == a[1..] + b;
      BitsOfConcat(a[1..], b);
    }
  }

  // ---------------------------------------------------------------------------
  // The loop of crc32()
  // ---------------------------------------------------------------------------

  /** The body of the loop at line 101. */
  function TableStep(r: bv32, b: byte): bv32 {
    Xor(Crc32Tab(LowByte(Xor(r, Widen(b)))), HighBytes(r))
  }

  function Widen(b: byte): bv32 {
    b as bv32
  }

  function LowByte(r: bv32): bv8 {
    (r & 0xff) as bv8
  }

  function HighBytes(r: bv32): bv32 {
    r >> 8
  }

  lemma XorAssoc(a: bv32, b: bv32, c: bv32)
    ensures Xor(Xor(a, b), c) == Xor(a, Xor(b, c))
  {}

  lemma XorSwap(a: bv32, b: bv32, c: bv32)
    ensures Xor(Xor(a, b), c) == Xor(Xor(a, c), b)
  {
    XorAssoc(a, b, c);
    XorAssoc(a, c, b);
    assert Xor(b, c) == Xor(c, b);
    hide Xor;
  }

  /** Message bits may be added to the register ahead of their turn: the lowest one acts
      in this step, the others move down with the register. */
  lemma AddedAhead(y: bv32, c: bv32)
    ensures Step(Xor(y, c)) == Xor(BitStep(y, Low(c)), Shr(c))
  {
    var m: bv32 := if Low(c) then 1 else 0;
    var g: bv32 := if Low(Xor(y, c)) then POLY else 0;
    assert Shr(Xor(y, m)) == Shr(y);
    assert Low(Xor(y, m)) == Low(Xor(y, c));
    XorShr(y, c);
    XorSwap(Shr(y), Shr(c), g);
  }

  /** The lowest eight bits of c, lowest first. */
  function LowBits(c: bv32): seq<bool> {
    [Low(c), Low(Shr(c)), Low(Shr(Shr(c))), Low(Shr(Shr(Shr(c)))),
     Low(Shr(Shr(Shr(Shr(c))))), Low(Shr(Shr(Shr(Shr(Shr(c)))))),
     Low(Shr(Shr(Shr(Shr(Shr(Shr(c))))))), Low(Shr(Shr(Shr(Shr(Shr(Shr(Shr(c))))))))]
  }

  lemma Peel(r: bv32, s: seq<bool>, k: nat)
    requires k < |s|
    ensures RunBits(r, s[k..]) == RunBits(BitStep(r, s[k]), s[k + 1..])
  {
    hide BitStep;
    assert s[k..][1..] == s[k + 1..];
  }

  lemma RunEight(r: bv32, s: seq<bool>)
    requires |s| == 8
    ensures RunBits(r, s) ==
            BitStep(BitStep(BitStep(BitStep(BitStep(BitStep(BitStep(BitStep(r,
              s[0]), s[1]), s[2]), s[3]), s[4]), s[5]), s[6]), s[7])
  {
    hide BitStep, RunBits;
    var r1 := BitStep(r, s[0]);
    var r2 := BitStep(r1, s[1]);
    var r3 := BitStep(r2, s[2]);
    var r4 := BitStep(r3, s[3]);
    var r5 := BitStep(r4, s[4]);
    var r6 := BitStep(r5, s[5]);
    var r7 := BitStep(r6, s[6]);
    assert s[0..] == s;
    Peel(r, s, 0); Peel(r1, s, 1); Peel(r2, s, 2); Peel(r3, s, 3);
    Peel(r4, s, 4); Peel(r5, s, 5); Peel(r6, s, 6); Peel(r7, s, 7);
    RunNone(BitStep(r7, s[7]), s[8..]);
  }

  lemma RunNone(r: bv32, s: seq<bool>)
    requires |s| == 0
    ensures RunBits(r, s) == r
  {}

  lemma EightAddedAhead(y: bv32, c: bv32)
    ensures Step8(Xor(y, c)) == Xor(RunBits(y, LowBits(c)), Shr8(c))
  {
    hide Step, BitStep, Xor, Shr, Low;
    RunEight(y, LowBits(c));
    var y1, c1 := BitStep(y, Low(c)), Shr(c);
    var y2, c2 := BitStep(y1, Low(c1)), Shr(c1);
    var y3, c3 := BitStep(y2, Low(c2)), Shr(c2);
    var y4, c4 := BitStep(y3, Low(c3)), Shr(c3);
    var y5, c5 := BitStep(y4, Low(c4)), Shr(c4);
    var y6, c6 := BitStep(y5, Low(c5)), Shr(c5);
    var y7, c7 := BitStep(y6, Low(c6)), Shr(c6);
    AddedAhead(y, c); AddedAhead(y1, c1); AddedAhead(y2, c2); AddedAhead(y3, c3);
    AddedAhead(y4, c4); AddedAhead(y5, c5); AddedAhead(y6, c6); AddedAhead(y7, c7);
  }

  lemma ByteBits(b: byte)
    ensures LowBits(Widen(b)) == BitsOfByte(b) && Shr8(Widen(b)) == 0
  {}

  lemma HighHalf(x: bv32)
    ensures Xor(x & 0xff, x & 0xffff_ff00) == x
    ensures LowBits(x & 0xffff_ff00) == [false, false, false, false, false, false, false, false]
    ensures Shr8(x & 0xffff_ff00) == x >> 8
  {}

  lemma NoBitStep(r: bv32)
    ensures BitStep(r, false) == Step(r)
  {
    assert Xor(r, 0) == r;
    hide Step;
  }

  lemma RunZeros(r: bv32, s: seq<bool>)
    requires s == [false, false, false, false, false, false, false, false]
    ensures RunBits(r, s) == Step8(r)
  {
    hide Step, BitStep, RunBits;
    RunEight(r, s);
    var r1 := Step(r);
    var r2 := Step(r1);
    var r3 := Step(r2);
    var r4 := Step(r3);
    var r5 := Step(r4);
    var r6 := Step(r5);
    var r7 := Step(r6);
    NoBitStep(r); NoBitStep(r1); NoBitStep(r2); NoBitStep(r3);
    NoBitStep(r4); NoBitStep(r5); NoBitStep(r6); NoBitStep(r7);
  }

  /** The bits of the register above the low byte ride along for eight steps. */
  lemma Step8Split(x: bv32)
    ensures Step8(x) == Xor(Step8(Widen(LowByte(x))), HighBytes(x))
  {
    HighHalf(x);
    assert Widen(LowByte(x)) == x & 0xff;
    hide Step8, Xor, LowBits, Shr8, RunBits;
    EightAddedAhead(x & 0xff, x & 0xffff_ff00);
    RunZeros(x & 0xff, LowBits(x & 0xffff_ff00));
  }

  lemma HighBytesUntouched(r: bv32, b: byte)
    ensures HighBytes(Xor(r, Widen(b))) == HighBytes(r)
  {}

  lemma TableStepIsStep8(r: bv32, b: byte)
    ensures TableStep(r, b) == Step8(Xor(r, Widen(b)))
  {
    hide Step8, Crc32Tab, Xor, LowByte, HighBytes;
    var x := Xor(r, Widen(b));
    Step8Split(x);
    TableIsEightSteps(LowByte(x));
    HighBytesUntouched(r, b);
  }

  /** One pass of the loop, through the table, feeds the eight bits of the byte. */
  lemma {:induction false} TableStepIsEightBits(r: bv32, b: byte)
    ensures TableStep(r, b) == RunBits(r, BitsOfByte(b))
  {
    TableStepIsStep8(r, b);
    ByteBits(b);
    EightAddedAhead(r, Widen(b));
    assert Xor(RunBits(r, LowBits(Widen(b))), 0) == RunBits(r, LowBits(Widen(b)));
    hide *;
  }

  /** crc32() of the source: the loop over the buffer with the table. */
  method Crc32(seed: bv32, buf: array<byte>, size: nat) returns (crc: bv32)
    requires size <= buf.Length
    ensures crc == Checksum(seed, buf[..size])
  {
    hide RunBits, BitsOfByte, TableStep, Complement;
    ghost var msg := buf[..size];
    crc := Complement(seed);
    var p, left := 0, size;
    assert msg[0..] == msg;
    while left != 0
      invariant p + left == size
      invariant RunBits(crc, BitsOf(msg[p..])) == RunBits(Complement(seed), BitsOf(msg))
    {
      assert msg[p..][1..] == msg[p + 1..];
      TableStepIsEightBits(crc, buf[p]);
      RunBitsConcat(crc, BitsOfByte(buf[p]), BitsOf(msg[p + 1..]));
      left := left - 1;
      crc := TableStep(crc, buf[p]);
      p := p + 1;
    }
    assert msg[p..] == [];
    RunNone(crc, BitsOf([]));
    crc := Complement(crc);
  }

  // ---------------------------------------------------------------------------
  // Chaining, division, burst detection, linearity
  // ---------------------------------------------------------------------------

  /** A message may be summed in pieces. */
  lemma {:induction false} ChecksumChains(crc: bv32, a: seq<byte>, b: seq<byte>)
    ensures Checksum(Checksum(crc, a), b) == Checksum(crc, a + b)
  {
    hide RunBits, Complement;
    BitsOfConcat(a, b);
    RunBitsConcat(Complement(crc), BitsOf(a), BitsOf(b));
    ComplementTwice(RunBits(Complement(crc), BitsOf(a)));
  }

  /** Different seeds give every message different checksums. */
  lemma {:induction false} SeedsStayApart(crc: bv32, other: bv32, msg: seq<byte>)
    requires Checksum(crc, msg) == Checksum(other, msg)
    ensures crc == other
  {
    hide RunBits, Complement;
    ComplementTwice(RunBits(Complement(crc), BitsOf(msg)));
    ComplementTwice(RunBits(Complement(other), BitsOf(msg)));
    RunBitsInjective(Complement(crc), Complement(other), BitsOf(msg));
    ComplementTwice(crc);
    ComplementTwice(other);
  }

  /** The polynomial of ~0U: every power below x^32. */
  const ONES: Poly := set e: nat | e < 32

  lemma AllOnes(i: nat)
    requires i < 32
    ensures Bit(0xffff_ffff, i)
  {
    if i < 8 {
      BitInByte(0xffff_ffff, i);
    } else {
      BitShift8(0xffff_ffff, i - 8);
      if i < 16 {
        BitInByte(0xff_ffff, i - 8);
      } else {
        BitShift8(0xff_ffff, i - 16);
        if i < 24 {
          BitInByte(0xffff, i - 16);
        } else {
          BitShift8(0xffff, i - 24);
          BitInByte(0xff, i - 24);
        }
      }
    }
  }

  /** The complement adds 1 to every coefficient. */
  lemma {:induction false} ComplementAddsOnes(r: bv32)
    ensures PolyOf(Complement(r)) == Add(PolyOf(r), ONES)
  {
    hide Xor, Bit;
    forall e: nat ensures e in PolyOf(Complement(r)) <==> e in Add(PolyOf(r), ONES) {
      if e < 32 {
        BitXor(r, 0xffff_ffff, 31 - e);
        AllOnes(31 - e);
      }
    }
  }

  /** The checksum, bit-reflected and with all coefficients inverted, is the remainder of
      msg(x) * x^32 + (seed(x) + x^31 + ... + 1) * x^(8 * length) by the generator. */
  lemma {:induction false} ChecksumIsRemainder(crc: bv32, msg: seq<byte>)
    ensures IsRemainder(
              Add(Shift(OfBits(BitsOf(msg)), 32), Shift(Add(PolyOf(crc), ONES), 8 * |msg|)),
              GENERATOR, 32, Add(PolyOf(Checksum(crc, msg)), ONES))
  {
    hide RunBits, OfBits, GENERATOR, Shift, Complement, Add, ONES;
    ComplementAddsOnes(crc);
    ComplementAddsOnes(Checksum(crc, msg));
    ComplementTwice(RunBits(Complement(crc), BitsOf(msg)));
    var q := OwnRemainder(Complement(crc), BitsOf(msg));
  }

  /** There is one remainder, so this determines the checksum. */
  lemma {:induction false} ChecksumIsTheRemainder(crc: bv32, msg: seq<byte>, r: Poly)
    ensures r == Add(PolyOf(Checksum(crc, msg)), ONES) <==>
            IsRemainder(
              Add(Shift(OfBits(BitsOf(msg)), 32), Shift(Add(PolyOf(crc), ONES), 8 * |msg|)), GENERATOR, 32, r)
  {
    ChecksumIsRemainder(crc, msg);
    GeneratorDegree();
    hide Checksum, OfBits, GENERATOR, Shift, Add, ONES;
    var p := Add(Shift(OfBits(BitsOf(msg)), 32), Shift(Add(PolyOf(crc), ONES), 8 * |msg|));
    if IsRemainder(p, GENERATOR, 32, r) {
      RemainderUnique(p, GENERATOR, 32, r, Add(PolyOf(Checksum(crc, msg)), ONES));
    }
  }

  lemma FeedThree(r: bv32, a: byte, b: byte, c: byte)
    ensures RunBits(r, BitsOf([a, b, c])) == TableStep(TableStep(TableStep(r, a), b), c)
  {
    hide RunBits, BitsOfByte, TableStep;
    assert BitsOf([a, b, c]) == BitsOfByte(a) + BitsOf([b, c]) by { assert [a, b, c][1..] == [b, c]; }
    assert BitsOf([b, c]) == BitsOfByte(b) + BitsOfByte(c) by { assert [b, c][1..] == [c] && BitsOf([c][1..]) == []; }
    TableStepIsEightBits(r, a);
    TableStepIsEightBits(TableStep(r, a), b);
    TableStepIsEightBits(TableStep(TableStep(r, a), b), c);
    RunBitsConcat(r, BitsOfByte(a), BitsOfByte(b) + BitsOfByte(c));
    RunBitsConcat(TableStep(r, a), BitsOfByte(b), BitsOfByte(c));
  }

  lemma Digits1To3()
    ensures TableStep(TableStep(TableStep(0xffff_ffff, 0x31), 0x32), 0x33) == 0x77b7_9c2d
  {
    assert TableStep(0xffff_ffff, 0x31) == 0x7c23_1048;
    assert TableStep(0x7c23_1048, 0x32) == 0xb0ac_bb32;
  }

  lemma Digits4To6()
    ensures TableStep(TableStep(TableStep(0x77b7_9c2d, 0x34), 0x35), 0x36) == 0xf68d_2c9e
  {
    assert TableStep(0x77b7_9c2d, 0x34) == 0x641c_1f5c;
    assert TableStep(0x641c_1f5c, 0x35) == 0x340a_c5e3;
  }

  lemma Digits7To9()
    ensures TableStep(TableStep(TableStep(0xf68d_2c9e, 0x37), 0x38), 0x39) == 0x340b_c6d9
  {
    assert TableStep(0xf68d_2c9e, 0x37) == 0xaffc_9660;
    assert TableStep(0xaffc_9660, 0x38) == 0x651f_2550;
  }

  lemma ThreeParts(r: bv32, u: seq<byte>, v: seq<byte>, w: seq<byte>)
    ensures RunBits(r, BitsOf(u + (v + w))) == RunBits(RunBits(RunBits(r, BitsOf(u)), BitsOf(v)), BitsOf(w))
  {
    hide RunBits, BitsOf;
    BitsOfConcat(u, v + w);
    BitsOfConcat(v, w);
    RunBitsConcat(r, BitsOf(u), BitsOf(v) + BitsOf(w));
    RunBitsConcat(RunBits(r, BitsOf(u)), BitsOf(v), BitsOf(w));
  }

  lemma ComplementsUsed()
    ensures Complement(0) == 0xffff_ffff && Complement(0x340b_c6d9) == 0xcbf4_3926
  {}

  /** The check value of this CRC: the digits 1 to 9 give 0xcbf43926. */
  lemma {:induction false} CheckValue()
    ensures Checksum(0, [0x31, 0x32, 0x33] + ([0x34, 0x35, 0x36] + [0x37, 0x38, 0x39])) == 0xcbf4_3926
  {
    hide RunBits, BitsOf, TableStep, Complement;
    ThreeParts(0xffff_ffff, [0x31, 0x32, 0x33], [0x34, 0x35, 0x36], [0x37, 0x38, 0x39]);
    FeedThree(0xffff_ffff, 0x31, 0x32, 0x33);
    FeedThree(0x77b7_9c2d, 0x34, 0x35, 0x36);
    FeedThree(0xf68d_2c9e, 0x37, 0x38, 0x39);
    Digits1To3();
    Digits4To6();
    Digits7To9();
    ComplementsUsed();
  }

  lemma ByteBitsInjective(a: byte, b: byte)
    requires BitsOfByte(a) == BitsOfByte(b)
    ensures a == b
  {
    var s, t := BitsOfByte(a), BitsOfByte(b);
    assert s[0] == t[0] && s[1] == t[1] && s[2] == t[2] && s[3] == t[3];
    assert s[4] == t[4] && s[5] == t[5] && s[6] == t[6] && s[7] == t[7];
  }

  lemma {:induction false} BitsOfInjective(a: seq<byte>, b: seq<byte>)
    requires |a| == |b| && BitsOf(a) == BitsOf(b)
    ensures a == b
  {
    hide BitsOfByte;
    if |a| > 0 {
      var s, t := BitsOf(a), BitsOf(b);
      assert s[..8] == BitsOfByte(a[0]) && t[..8] == BitsOfByte(b[0]);
      assert s[8..] == BitsOf(a[1..]) && t[8..] == BitsOf(b[1..]);
      ByteBitsInjective(a[0], b[0]);
      BitsOfInjective(a[1..], b[1..]);
      assert a == [a[0]] + a[1..] && b == [b[0]] + b[1..];
    }
  }

  lemma {:induction false} TrailingZeros(h: seq<bool>, n: nat)
    requires n <= |h| && forall i | n <= i < |h| :: !h[i]
    ensures OfBits(h) == Shift(OfBits(h[..n]), |h| - n)
    decreases |h|
  {
    if n < |h| {
      var t := h[..|h| - 1];
      TrailingZeros(t, n);
      assert t[..n] == h[..n];
      ShiftShift(OfBits(h[..n]), |h| - 1 - n, 1);
    } else {
      assert h[..n] == h;
    }
  }

  /** x is no factor of the generator, so it divides a multiple only through the cofactor. */
  lemma {:induction false} DivideByX(q: seq<bool>, p: Poly, k: nat) returns (c: seq<bool>)
    requires Mul(q, GENERATOR) == Shift(p, k)
    ensures Mul(c, GENERATOR) == p
    decreases k
  {
    if k == 0 {
      assert Shift(p, 0) == p;
      c := q;
    } else if |q| == 0 {
      assert p == ZERO by {
        forall e: nat ensures e !in p {
          assert e + k !in Shift(p, k);
        }
      }
      c := [];
    } else {
      var t := q[..|q| - 1];
      assert 0 !in Shift(p, k);
      assert !q[|q| - 1];
      ShiftShift(p, k - 1, 1);
      forall e: nat ensures e in Mul(t, GENERATOR) <==> e in Shift(p, k - 1) {
        assert e + 1 in Shift(Mul(t, GENERATOR), 1) <==> e + 1 in Shift(p, k);
      }
      assert Mul(t, GENERATOR) == Shift(p, k - 1);
      c := DivideByX(t, p, k - 1);
    }
  }

  /** Two inputs that leave the same register differ by a multiple of the generator. */
  lemma SameRegister(r: bv32, u: seq<bool>, v: seq<bool>) returns (q: seq<bool>)
    requires |u| == |v| && RunBits(r, u) == RunBits(r, v)
    ensures Mul(q, GENERATOR) == Shift(OfBits(AddBits(u, v)), 32)
  {
    hide GENERATOR;
    var a := Division(r, u);
    var b := Division(r, v);
    q := AddBits(a, b);
    MulXor(a, b, GENERATOR);
    MulXor(u, v, ONE);
    var x, y := OfBits(u), OfBits(v);
    hide Mul, RunBits;
    ShiftAdd(x, y, 32);
    Cancel(Shift(x, 32), Shift(y, 32), Shift(PolyOf(r), |u|), Mul(a, GENERATOR), Mul(b, GENERATOR),
           PolyOf(RunBits(r, u)));
  }

  lemma Cancel(x: Poly, y: Poly, i: Poly, a: Poly, b: Poly, r: Poly)
    requires Add(x, i) == Add(a, r) && Add(y, i) == Add(b, r)
    ensures Add(a, b) == Add(x, y)
  {
    forall e: nat ensures e in Add(a, b) <==> e in Add(x, y) {
      assert e in Add(x, i) <==> e in Add(a, r);
      assert e in Add(y, i) <==> e in Add(b, r);
    }
  }

  lemma Unshifted(p: Poly)
    ensures Shift(p, 0) == p
  {}

  lemma NothingAdded(p: Poly, q: Poly)
    ensures Add(p, Scale(false, q)) == p
  {}

  lemma {:induction false} MulZeros(q: seq<bool>, p: Poly, k: nat) returns (c: seq<bool>)
    ensures Mul(c, p) == Shift(Mul(q, p), k)
  {
    hide *;
    if k == 0 {
      c := q;
      Unshifted(Mul(q, p));
    } else {
      var t := MulZeros(q, p, k - 1);
      c := t + [false];
      MulSnoc(t, false, p);
      ShiftShift(Mul(q, p), k - 1, 1);
      NothingAdded(Shift(Mul(t, p), 1), p);
    }
  }

  lemma ShiftedDifference(u: seq<bool>, v: seq<bool>, q: seq<bool>) returns (m: seq<bool>)
    requires |u| == |v| && Mul(q, GENERATOR) == OfBits(AddBits(u, v))
    ensures Mul(m, GENERATOR) == Add(Shift(OfBits(u), 32), Shift(OfBits(v), 32))
  {
    hide GENERATOR;
    m := MulZeros(q, GENERATOR, 32);
    MulXor(u, v, ONE);
    ShiftAdd(OfBits(u), OfBits(v), 32);
  }

  /** Two dividends that differ by a multiple of the generator have the same remainders. */
  lemma SameRemainder(x: Poly, y: Poly, i: Poly, b: seq<bool>, m: seq<bool>, r: Poly)
    requires Add(y, i) == Add(Mul(b, GENERATOR), r) && Mul(m, GENERATOR) == Add(x, y) && DegreeBelow(r, 32)
    ensures IsRemainder(Add(x, i), GENERATOR, 32, r)
  {
    hide GENERATOR, Mul, Add;
    var c := DifferenceOfMultiples(b, m, GENERATOR);
    Exchange(x, y, i, Mul(b, GENERATOR), Mul(m, GENERATOR), r);
    assert Add(x, i) == Add(Mul(c, GENERATOR), r);
  }

  lemma Exchange(x: Poly, y: Poly, i: Poly, b: Poly, m: Poly, r: Poly)
    requires Add(y, i) == Add(b, r) && m == Add(x, y)
    ensures Add(x, i) == Add(Add(b, m), r)
  {
    forall e: nat ensures e in Add(x, i) <==> e in Add(Add(b, m), r) {
      assert e in Add(y, i) <==> e in Add(b, r);
    }
  }

  lemma OwnRemainder(r: bv32, u: seq<bool>) returns (q: seq<bool>)
    ensures Add(Shift(OfBits(u), 32), Shift(PolyOf(r), |u|)) == Add(Mul(q, GENERATOR), PolyOf(RunBits(r, u)))
    ensures IsRemainder(Add(Shift(OfBits(u), 32), Shift(PolyOf(r), |u|)), GENERATOR, 32, PolyOf(RunBits(r, u)))
    ensures DegreeBelow(PolyOf(RunBits(r, u)), 32)
  {
    hide GENERATOR, RunBits, Mul, Add;
    q := Division(r, u);
  }

  lemma GeneratorDegree()
    ensures DegreeBelow(GENERATOR, 33) && 32 in GENERATOR
  {}

  /** An input that differs by a multiple of the generator leaves the same register. */
  lemma MultipleUnseen(r: bv32, u: seq<bool>, v: seq<bool>, q: seq<bool>)
    requires |u| == |v| && Mul(q, GENERATOR) == OfBits(AddBits(u, v))
    ensures RunBits(r, u) == RunBits(r, v)
  {
    hide *;
    var a := OwnRemainder(r, u);
    var b := OwnRemainder(r, v);
    var m := ShiftedDifference(u, v, q);
    var x, y, i := Shift(OfBits(u), 32), Shift(OfBits(v), 32), Shift(PolyOf(r), |u|);
    SameRemainder(x, y, i, b, m, PolyOf(RunBits(r, v)));
    GeneratorDegree();
    RemainderUnique(Add(x, i), GENERATOR, 32, PolyOf(RunBits(r, u)), PolyOf(RunBits(r, v)));
    PolyOfInjective(RunBits(r, u), RunBits(r, v));
  }

  /** Two messages of one length have the same checksum if and only if the generator divides their
      difference. */
  lemma {:induction false} CollideIff(crc: bv32, a: seq<byte>, b: seq<byte>)
    requires |a| == |b|
    ensures Checksum(crc, a) == Checksum(crc, b) <==>
            exists q: seq<bool> :: Mul(q, GENERATOR) == OfBits(AddBits(BitsOf(a), BitsOf(b)))
  {
    hide GENERATOR, RunBits, OfBits, Complement, Mul;
    var r, u, v := Complement(crc), BitsOf(a), BitsOf(b);
    ComplementTwice(RunBits(r, u));
    ComplementTwice(RunBits(r, v));
    if RunBits(r, u) == RunBits(r, v) {
      var q := SameRegister(r, u, v);
      var c := DivideByX(q, OfBits(AddBits(u, v)), 32);
    }
    forall q: seq<bool> | Mul(q, GENERATOR) == OfBits(AddBits(u, v)) ensures RunBits(r, u) == RunBits(r, v) {
      MultipleUnseen(r, u, v, q);
    }
  }

  lemma ShortBits(h: seq<bool>, k: nat)
    requires |h| <= k + 32 && forall i | 0 <= i < |h| && i < k :: !h[i]
    ensures DegreeBelow(OfBits(h), 32)
    ensures OfBits(h) == ZERO ==> forall i | 0 <= i < |h| :: !h[i]
  {
    forall e: nat ensures e in OfBits(h) ==> e < 32 {
      OfBitsExponents(h, e);
    }
    forall i | 0 <= i < |h| ensures OfBits(h) == ZERO ==> !h[i] {
      OfBitsExponents(h, |h| - 1 - i);
    }
  }

  /** A multiple of the generator is not a nonzero polynomial of degree below 32 times a
      power of x. */
  lemma NoShortMultiple(q: seq<bool>, d: seq<bool>, k: nat)
    requires Mul(q, GENERATOR) == OfBits(d)
    requires forall i | 0 <= i < |d| && !(k <= i < k + 32) :: !d[i]
    ensures forall i | 0 <= i < |d| :: !d[i]
  {
    var n := if k + 32 <= |d| then k + 32 else |d|;
    var h := d[..n];
    ShortBits(h, k);
    TrailingZeros(d, n);
    NoShortFactor(q, OfBits(h), |d| - n);
    forall i | 0 <= i < |d| ensures !d[i] {
      if i < n { assert !h[i]; }
    }
  }

  lemma NoShortFactor(q: seq<bool>, w: Poly, k: nat)
    requires Mul(q, GENERATOR) == Shift(w, k) && DegreeBelow(w, 32)
    ensures w == ZERO
  {
    GeneratorDegree();
    hide GENERATOR, Mul;
    var c := DivideByX(q, w, k);
    var top := MultipleDegree(c, GENERATOR, 32);
  }

  /** crc32() tells apart any two messages of one length whose bits differ only inside a
      window of 32, wherever it lies: all burst errors up to 32 bits are detected. */
  lemma {:induction false} BurstDetected(crc: bv32, a: seq<byte>, b: seq<byte>, k: nat)
    requires |a| == |b| && a != b
    requires forall i | 0 <= i < 8 * |a| && !(k <= i < k + 32) :: BitsOf(a)[i] == BitsOf(b)[i]
    ensures Checksum(crc, a) != Checksum(crc, b)
  {
    hide Checksum, GENERATOR, OfBits, Mul;
    if Checksum(crc, a) == Checksum(crc, b) {
      CollideIff(crc, a, b);
      var u, v := BitsOf(a), BitsOf(b);
      var q: seq<bool> :| Mul(q, GENERATOR) == OfBits(AddBits(u, v));
      NoShortMultiple(q, AddBits(u, v), k);
      forall i | 0 <= i < |u| ensures u[i] == v[i] { assert !AddBits(u, v)[i]; }
      BitsOfInjective(a, b);
      assert false;
    }
  }

  lemma {:induction false} BitsOfAt(msg: seq<byte>, i: nat)
    requires i < 8 * |msg|
    ensures BitsOf(msg)[i] == BitsOfByte(msg[i / 8])[i % 8]
  {
    hide BitsOfByte;
    if i >= 8 {
      BitsOfAt(msg[1..], i - 8);
      assert msg[1..][(i - 8) / 8] == msg[i / 8];
    }
  }

  /** In particular every change of up to four consecutive bytes is detected. */
  lemma {:induction false} FourByteBurstDetected(crc: bv32, a: seq<byte>, b: seq<byte>, k: nat)
    requires |a| == |b| && a != b
    requires forall i | 0 <= i < |a| && !(k <= i < k + 4) :: a[i] == b[i]
    ensures Checksum(crc, a) != Checksum(crc, b)
  {
    hide BitsOfByte, Checksum;
    forall i | 0 <= i < 8 * |a| && !(8 * k <= i < 8 * k + 32) ensures BitsOf(a)[i] == BitsOf(b)[i] {
      BitsOfAt(a, i);
      BitsOfAt(b, i);
    }
    BurstDetected(crc, a, b, 8 * k);
  }

  lemma StepXor(a: bv32, b: bv32)
    ensures Step(Xor(a, b)) == Xor(Step(a), Step(b))
  {
    var p: bv32 := if Low(a) then POLY else 0;
    var q: bv32 := if Low(b) then POLY else 0;
    XorLow(a, b);
    XorShr(a, b);
    assert (if Low(a) != Low(b) then POLY else 0) == Xor(p, q);
    hide Low;
    XorPairs(Shr(a), Shr(b), p, q);
    hide Xor, Shr;
  }

  lemma XorPairs(a: bv32, b: bv32, c: bv32, d: bv32)
    ensures Xor(Xor(a, b), Xor(c, d)) == Xor(Xor(a, c), Xor(b, d))
  {
    XorAssoc(a, b, Xor(c, d));
    XorAssoc(a, c, Xor(b, d));
    XorAssoc(b, c, d);
    XorAssoc(c, b, d);
    assert Xor(b, c) == Xor(c, b);
    hide Xor;
  }

  /** Bytewise xor of two messages of one length. */
  function XorBytes(a: seq<byte>, b: seq<byte>): seq<byte>
    requires |a| == |b|
  {
    seq(|a|, i requires 0 <= i < |a| => a[i] ^ b[i])
  }

  lemma Step8Xor(a: bv32, b: bv32)
    ensures Step8(Xor(a, b)) == Xor(Step8(a), Step8(b))
  {
    hide Step, Xor;
    var a1, b1 := Step(a), Step(b);
    var a2, b2 := Step(a1), Step(b1);
    var a3, b3 := Step(a2), Step(b2);
    var a4, b4 := Step(a3), Step(b3);
    var a5, b5 := Step(a4), Step(b4);
    var a6, b6 := Step(a5), Step(b5);
    var a7, b7 := Step(a6), Step(b6);
    StepXor(a, b); StepXor(a1, b1); StepXor(a2, b2); StepXor(a3, b3);
    StepXor(a4, b4); StepXor(a5, b5); StepXor(a6, b6); StepXor(a7, b7);
  }

  lemma WidenXor(a: byte, b: byte)
    ensures Xor(Widen(a), Widen(b)) == Widen(a ^ b)
  {}

  lemma ByteStepXor(r: bv32, s: bv32, a: byte, b: byte)
    ensures RunBits(Xor(r, s), BitsOfByte(a ^ b)) == Xor(RunBits(r, BitsOfByte(a)), RunBits(s, BitsOfByte(b)))
  {
    hide Xor, Widen, Step8, BitsOfByte, TableStep, RunBits;
    TableStepIsEightBits(r, a);
    TableStepIsEightBits(s, b);
    TableStepIsEightBits(Xor(r, s), a ^ b);
    TableStepIsStep8(r, a);
    TableStepIsStep8(s, b);
    TableStepIsStep8(Xor(r, s), a ^ b);
    XorPairs(r, s, Widen(a), Widen(b));
    WidenXor(a, b);
    Step8Xor(Xor(r, Widen(a)), Xor(s, Widen(b)));
  }

  lemma {:induction false} RegisterXor(r: bv32, s: bv32, a: seq<byte>, b: seq<byte>)
    requires |a| == |b|
    ensures RunBits(Xor(r, s), BitsOf(XorBytes(a, b))) == Xor(RunBits(r, BitsOf(a)), RunBits(s, BitsOf(b)))
    decreases |a|
  {
    hide Xor, RunBits, BitsOfByte;
    if |a| == 0 {
      RunNone(r, BitsOf(a));
      RunNone(s, BitsOf(b));
      RunNone(Xor(r, s), BitsOf(XorBytes(a, b)));
    } else {
      var c := XorBytes(a, b);
      assert c[1..] == XorBytes(a[1..], b[1..]);
      RunBitsConcat(r, BitsOfByte(a[0]), BitsOf(a[1..]));
      RunBitsConcat(s, BitsOfByte(b[0]), BitsOf(b[1..]));
      RunBitsConcat(Xor(r, s), BitsOfByte(c[0]), BitsOf(c[1..]));
      ByteStepXor(r, s, a[0], b[0]);
      RegisterXor(RunBits(r, BitsOfByte(a[0])), RunBits(s, BitsOfByte(b[0])), a[1..], b[1..]);
    }
  }

  /** crc32() is affine: the sum of three checksums of one seed is the checksum of the sum. */
  lemma {:induction false} ChecksumAffine(crc: bv32, a: seq<byte>, b: seq<byte>, d: seq<byte>)
    requires |a| == |b| == |d|
    ensures Xor(Xor(Checksum(crc, a), Checksum(crc, b)), Checksum(crc, d)) ==
            Checksum(crc, XorBytes(XorBytes(a, b), d))
  {
    var s := Complement(crc);
    assert Xor(Xor(s, s), s) == s;
    AffineComplement(RunBits(s, BitsOf(a)), RunBits(s, BitsOf(b)), RunBits(s, BitsOf(d)));
    hide Xor, RunBits, BitsOf, Complement;
    RegisterXor(s, s, a, b);
    RegisterXor(Xor(s, s), s, XorBytes(a, b), d);
  }

  lemma AffineComplement(x: bv32, y: bv32, z: bv32)
    ensures Xor(Xor(Complement(x), Complement(y)), Complement(z)) == Complement(Xor(Xor(x, y), z))
  {}
}
