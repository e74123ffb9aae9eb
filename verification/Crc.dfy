/** The CRC of the Modbus frames: two byte tables against the bitwise CRC-16 (polynomial 0xA001, start 0xFFFF). */
module Crc {
  import opened Words

  // ---------------------------------------------------------------- the specification

  /** One bit leaves the register. */
  function Shift(c: bv16): bv16 {
    if Odd(c) then Xor(Half(c), 0xA001) else Half(c)
  }

  /** Eight bits leave the register. */
  function Shift8(c: bv16): bv16 {
    Shift(Shift(Shift(Shift(Shift(Shift(Shift(Shift(c))))))))
  }

  /** One byte enters the register. */
  function Step(c: bv16, b: bv8): bv16 {
    Shift8(Xor(c, Wide(b)))
  }

  /** The register after `msg`, if it was `c` before. */
  function Register(c: bv16, msg: seq<bv8>): bv16 {
    if msg == [] then c else Step(Register(c, msg[..|msg| - 1]), msg[|msg| - 1])
  }

  /** The CRC of section 6.2.2 of the MODBUS over Serial Line Specification and Implementation Guide V1.02. */
  function Crc(msg: seq<bv8>): bv16 {
    Register(0xFFFF, msg)
  }

  /** Both are linear. */
  lemma ShiftXor(x: bv16, y: bv16)
    ensures Shift(Xor(x, y)) == Xor(Shift(x), Shift(y))
  {
    OddXor(x, y);
    HalfXor(x, y);
    hide Odd, Half, Xor;
    var h, k, p := Half(x), Half(y), 0xA001;
    if Odd(x) && Odd(y) {
      XorPairs(h, k, p);
    } else if Odd(x) {
      XorAssoc(h, k, p);
      XorComm(k, p);
      XorAssoc(h, p, k);
    } else if Odd(y) {
      XorAssoc(h, k, p);
    }
  }

  lemma XorPairs(h: bv16, k: bv16, p: bv16)
    ensures Xor(Xor(h, p), Xor(k, p)) == Xor(h, k)
  {
    hide Xor;
    XorComm(k, p);
    XorAssoc(Xor(h, p), p, k);
    XorAssoc(h, p, p);
    XorSelf(p);
    XorZero(h);
  }

  lemma Shift8Xor(x: bv16, y: bv16)
    ensures Shift8(Xor(x, y)) == Xor(Shift8(x), Shift8(y))
  {
    Shift4Xor(x, y);
    Shift4Xor(Shift(Shift(Shift(Shift(x)))), Shift(Shift(Shift(Shift(y)))));
    hide Shift, Xor;
  }

  lemma Shift4Xor(x: bv16, y: bv16)
    ensures Shift(Shift(Shift(Shift(Xor(x, y))))) == Xor(Shift(Shift(Shift(Shift(x)))), Shift(Shift(Shift(Shift(y)))))
  {
    hide Shift, Xor;
    ShiftXor(x, y);
    ShiftXor(Shift(x), Shift(y));
    ShiftXor(Shift(Shift(x)), Shift(Shift(y)));
    ShiftXor(Shift(Shift(Shift(x))), Shift(Shift(Shift(y))));
  }

  /** The high byte only moves down. */
  lemma Shift8High(y: bv8)
    ensures Shift8(Joined(0, y)) == Wide(y)
  {
  }

  // ---------------------------------------------------------------- the tables

  /** Entry `k` of a row of sixteen. */
  function Pick(k: bv8, v0: bv8, v1: bv8, v2: bv8, v3: bv8, v4: bv8, v5: bv8, v6: bv8, v7: bv8,
                v8: bv8, v9: bv8, v10: bv8, v11: bv8, v12: bv8, v13: bv8, v14: bv8, v15: bv8): bv8 {
    match k
    case 0 => v0
    case 1 => v1
    case 2 => v2
    case 3 => v3
    case 4 => v4
    case 5 => v5
    case 6 => v6
    case 7 => v7
    case 8 => v8
    case 9 => v9
    case 10 => v10
    case 11 => v11
    case 12 => v12
    case 13 => v13
    case 14 => v14
    case _ => v15
  }

  /** `auchCRCHi`. */
  function HiTable(x: bv8): bv8 {
    var k := x & 15;
    match x >> 4
    case 0 => Pick(k, 0x00, 0xC1, 0x81, 0x40, 0x01, 0xC0, 0x80, 0x41,
                      0x01, 0xC0, 0x80, 0x41, 0x00, 0xC1, 0x81, 0x40)
    case 1 => Pick(k, 0x01, 0xC0, 0x80, 0x41, 0x00, 0xC1, 0x81, 0x40,
                      0x00, 0xC1, 0x81, 0x40, 0x01, 0xC0, 0x80, 0x41)
    case 2 => Pick(k, 0x01, 0xC0, 0x80, 0x41, 0x00, 0xC1, 0x81, 0x40,
                      0x00, 0xC1, 0x81, 0x40, 0x01, 0xC0, 0x80, 0x41)
    case 3 => Pick(k, 0x00, 0xC1, 0x81, 0x40, 0x01, 0xC0, 0x80, 0x41,
                      0x01, 0xC0, 0x80, 0x41, 0x00, 0xC1, 0x81, 0x40)
    case 4 => Pick(k, 0x01, 0xC0, 0x80, 0x41, 0x00, 0xC1, 0x81, 0x40,
                      0x00, 0xC1, 0x81, 0x40, 0x01, 0xC0, 0x80, 0x41)
    case 5 => Pick(k, 0x00, 0xC1, 0x81, 0x40, 0x01, 0xC0, 0x80, 0x41,
                      0x01, 0xC0, 0x80, 0x41, 0x00, 0xC1, 0x81, 0x40)
    case 6 => Pick(k, 0x00, 0xC1, 0x81, 0x40, 0x01, 0xC0, 0x80, 0x41,
                      0x01, 0xC0, 0x80, 0x41, 0x00, 0xC1, 0x81, 0x40)
    case 7 => Pick(k, 0x01, 0xC0, 0x80, 0x41, 0x00, 0xC1, 0x81, 0x40,
                      0x00, 0xC1, 0x81, 0x40, 0x01, 0xC0, 0x80, 0x41)
    case 8 => Pick(k, 0x01, 0xC0, 0x80, 0x41, 0x00, 0xC1, 0x81, 0x40,
                      0x00, 0xC1, 0x81, 0x40, 0x01, 0xC0, 0x80, 0x41)
    case 9 => Pick(k, 0x00, 0xC1, 0x81, 0x40, 0x01, 0xC0, 0x80, 0x41,
                      0x01, 0xC0, 0x80, 0x41, 0x00, 0xC1, 0x81, 0x40)
    case 10 => Pick(k, 0x00, 0xC1, 0x81, 0x40, 0x01, 0xC0, 0x80, 0x41,
                       0x01, 0xC0, 0x80, 0x41, 0x00, 0xC1, 0x81, 0x40)
    case 11 => Pick(k, 0x01, 0xC0, 0x80, 0x41, 0x00, 0xC1, 0x81, 0x40,
                       0x00, 0xC1, 0x81, 0x40, 0x01, 0xC0, 0x80, 0x41)
    case 12 => Pick(k, 0x00, 0xC1, 0x81, 0x40, 0x01, 0xC0, 0x80, 0x41,
                       0x01, 0xC0, 0x80, 0x41, 0x00, 0xC1, 0x81, 0x40)
    case 13 => Pick(k, 0x01, 0xC0, 0x80, 0x41, 0x00, 0xC1, 0x81, 0x40,
                       0x00, 0xC1, 0x81, 0x40, 0x01, 0xC0, 0x80, 0x41)
    case 14 => Pick(k, 0x01, 0xC0, 0x80, 0x41, 0x00, 0xC1, 0x81, 0x40,
                       0x00, 0xC1, 0x81, 0x40, 0x01, 0xC0, 0x80, 0x41)
    case _ => Pick(k, 0x00, 0xC1, 0x81, 0x40, 0x01, 0xC0, 0x80, 0x41,
                      0x01, 0xC0, 0x80, 0x41, 0x00, 0xC1, 0x81, 0x40)
  }

  /** `auchCRCLo`. */
  function LoTable(x: bv8): bv8 {
    var k := x & 15;
    match x >> 4
    case 0 => Pick(k, 0x00, 0xC0, 0xC1, 0x01, 0xC3, 0x03, 0x02, 0xC2,
                      0xC6, 0x06, 0x07, 0xC7, 0x05, 0xC5, 0xC4, 0x04)
    case 1 => Pick(k, 0xCC, 0x0C, 0x0D, 0xCD, 0x0F, 0xCF, 0xCE, 0x0E,
                      0x0A, 0xCA, 0xCB, 0x0B, 0xC9, 0x09, 0x08, 0xC8)
    case 2 => Pick(k, 0xD8, 0x18, 0x19, 0xD9, 0x1B, 0xDB, 0xDA, 0x1A,
                      0x1E, 0xDE, 0xDF, 0x1F, 0xDD, 0x1D, 0x1C, 0xDC)
    case 3 => Pick(k, 0x14, 0xD4, 0xD5, 0x15, 0xD7, 0x17, 0x16, 0xD6,
                      0xD2, 0x12, 0x13, 0xD3, 0x11, 0xD1, 0xD0, 0x10)
    case 4 => Pick(k, 0xF0, 0x30, 0x31, 0xF1, 0x33, 0xF3, 0xF2, 0x32,
                      0x36, 0xF6, 0xF7, 0x37, 0xF5, 0x35, 0x34, 0xF4)
    case 5 => Pick(k, 0x3C, 0xFC, 0xFD, 0x3D, 0xFF, 0x3F, 0x3E, 0xFE,
                      0xFA, 0x3A, 0x3B, 0xFB, 0x39, 0xF9, 0xF8, 0x38)
    case 6 => Pick(k, 0x28, 0xE8, 0xE9, 0x29, 0xEB, 0x2B, 0x2A, 0xEA,
                      0xEE, 0x2E, 0x2F, 0xEF, 0x2D, 0xED, 0xEC, 0x2C)
    case 7 => Pick(k, 0xE4, 0x24, 0x25, 0xE5, 0x27, 0xE7, 0xE6, 0x26,
                      0x22, 0xE2, 0xE3, 0x23, 0xE1, 0x21, 0x20, 0xE0)
    case 8 => Pick(k, 0xA0, 0x60, 0x61, 0xA1, 0x63, 0xA3, 0xA2, 0x62,
                      0x66, 0xA6, 0xA7, 0x67, 0xA5, 0x65, 0x64, 0xA4)
    case 9 => Pick(k, 0x6C, 0xAC, 0xAD, 0x6D, 0xAF, 0x6F, 0x6E, 0xAE,
                      0xAA, 0x6A, 0x6B, 0xAB, 0x69, 0xA9, 0xA8, 0x68)
    case 10 => Pick(k, 0x78, 0xB8, 0xB9, 0x79, 0xBB, 0x7B, 0x7A, 0xBA,
                       0xBE, 0x7E, 0x7F, 0xBF, 0x7D, 0xBD, 0xBC, 0x7C)
    case 11 => Pick(k, 0xB4, 0x74, 0x75, 0xB5, 0x77, 0xB7, 0xB6, 0x76,
                       0x72, 0xB2, 0xB3, 0x73, 0xB1, 0x71, 0x70, 0xB0)
    case 12 => Pick(k, 0x50, 0x90, 0x91, 0x51, 0x93, 0x53, 0x52, 0x92,
                       0x96, 0x56, 0x57, 0x97, 0x55, 0x95, 0x94, 0x54)
    case 13 => Pick(k, 0x9C, 0x5C, 0x5D, 0x9D, 0x5F, 0x9F, 0x9E, 0x5E,
                       0x5A, 0x9A, 0x9B, 0x5B, 0x99, 0x59, 0x58, 0x98)
    case 14 => Pick(k, 0x88, 0x48, 0x49, 0x89, 0x4B, 0x8B, 0x8A, 0x4A,
                       0x4E, 0x8E, 0x8F, 0x4F, 0x8D, 0x4D, 0x4C, 0x8C)
    case _ => Pick(k, 0x44, 0x84, 0x85, 0x45, 0x87, 0x47, 0x46, 0x86,
                      0x82, 0x42, 0x43, 0x83, 0x41, 0x81, 0x80, 0x40)
  }

  /** The two tables hold the two bytes of what eight shifts make of a byte. */
  predicate Entry(x: bv8) {
    Joined(HiTable(x), LoTable(x)) == Shift8(Wide(x))
  }

  lemma Row0(x: bv8)
    requires x >> 4 == 0
    ensures Entry(x)
  {
  }

  lemma Row1(x: bv8)
    requires x >> 4 == 1
    ensures Entry(x)
  {
  }

  lemma Row2(x: bv8)
    requires x >> 4 == 2
    ensures Entry(x)
  {
  }

  lemma Row3(x: bv8)
    requires x >> 4 == 3
    ensures Entry(x)
  {
  }

  lemma Row4(x: bv8)
    requires x >> 4 == 4
    ensures Entry(x)
  {
  }

  lemma Row5(x: bv8)
    requires x >> 4 == 5
    ensures Entry(x)
  {
  }

  lemma Row6(x: bv8)
    requires x >> 4 == 6
    ensures Entry(x)
  {
  }

  lemma Row7(x: bv8)
    requires x >> 4 == 7
    ensures Entry(x)
  {
  }

  lemma Row8(x: bv8)
    requires x >> 4 == 8
    ensures Entry(x)
  {
  }

  lemma Row9(x: bv8)
    requires x >> 4 == 9
    ensures Entry(x)
  {
  }

  lemma Row10(x: bv8)
    requires x >> 4 == 10
    ensures Entry(x)
  {
  }

  lemma Row11(x: bv8)
    requires x >> 4 == 11
    ensures Entry(x)
  {
  }

  lemma Row12(x: bv8)
    requires x >> 4 == 12
    ensures Entry(x)
  {
  }

  lemma Row13(x: bv8)
    requires x >> 4 == 13
    ensures Entry(x)
  {
  }

  lemma Row14(x: bv8)
    requires x >> 4 == 14
    ensures Entry(x)
  {
  }

  lemma Row15(x: bv8)
    requires x >> 4 == 15
    ensures Entry(x)
  {
  }

  /** All 256 entries. */
  lemma Tables(x: bv8)
    ensures Joined(HiTable(x), LoTable(x)) == Shift8(Wide(x))
  {
    hide HiTable, LoTable, Shift8, Joined, Wide;
    TableRows(x);
  }

  lemma TableRows(x: bv8)
    ensures Entry(x)
  {
    hide Entry;
    match x >> 4 {
      case 0 => Row0(x);
      case 1 => Row1(x);
      case 2 => Row2(x);
      case 3 => Row3(x);
      case 4 => Row4(x);
      case 5 => Row5(x);
      case 6 => Row6(x);
      case 7 => Row7(x);
      case 8 => Row8(x);
      case 9 => Row9(x);
      case 10 => Row10(x);
      case 11 => Row11(x);
      case 12 => Row12(x);
      case 13 => Row13(x);
      case 14 => Row14(x);
      case _ => Row15(x);
    }
  }

  // ---------------------------------------------------------------- the routine

  /** Into a register the byte enters below; then its low byte goes through the tables and its high byte moves down. */
  lemma JoinedStep(hi: bv8, lo: bv8, b: bv8)
    ensures Step(Joined(hi, lo), b) == Xor(Wide(lo), Shift8(Wide(XorBytes(hi, b))))
  {
    hide Shift8, Joined, Wide, XorBytes, Xor, Low, High;
    var x := XorBytes(hi, b);
    assert Xor(Joined(hi, lo), Wide(b)) == Xor(Joined(0, lo), Wide(x)) by {
      EntersBelow(hi, lo, b);
    }
    Shift8Xor(Joined(0, lo), Wide(x));
    Shift8High(lo);
  }

  lemma EntersBelow(hi: bv8, lo: bv8, b: bv8)
    ensures Xor(Joined(hi, lo), Wide(b)) == Xor(Joined(0, lo), Wide(XorBytes(hi, b)))
  {
    hide Joined, Wide, Low, High, Xor;
    var x := XorBytes(hi, b);
    var l, r := Xor(Joined(hi, lo), Wide(b)), Xor(Joined(0, lo), Wide(x));
    LowXor(Joined(hi, lo), Wide(b));
    LowXor(Joined(0, lo), Wide(x));
    JoinedParts(hi, lo);
    JoinedParts(0, lo);
    WideParts(b);
    WideParts(x);
    assert XorBytes(0, x) == x;
    JoinedWhole(l);
    JoinedWhole(r);
  }

  lemma JoinedXor(lo: bv8, t: bv8, u: bv8)
    ensures Joined(XorBytes(lo, t), u) == Xor(Wide(lo), Joined(t, u))
  {
    hide Joined, Wide, Low, High, Xor;
    var r := Xor(Wide(lo), Joined(t, u));
    LowXor(Wide(lo), Joined(t, u));
    JoinedParts(t, u);
    WideParts(lo);
    assert XorBytes(0, u) == u;
    JoinedWhole(r);
  }

  /** One turn of the loop is one step of the specification. */
  lemma TableStep(hi: bv8, lo: bv8, b: bv8)
    ensures var x := XorBytes(hi, b);
            Joined(XorBytes(lo, HiTable(x)), LoTable(x)) == Step(Joined(hi, lo), b)
  {
    hide HiTable, LoTable, Shift8, Joined, XorBytes, Wide, Xor, Step;
    var x := XorBytes(hi, b);
    JoinedXor(lo, HiTable(x), LoTable(x));
    Tables(x);
    JoinedStep(hi, lo, b);
  }

  /** The two bytes of the register the other way round, as the routine returns them. */
  function Swapped(c: bv16): bv16 {
    Joined(High(c), Low(c))
  }

  /** The example of section 6.2.2 of the MODBUS over Serial Line guide: the frame 02 07 has the checksum 41 12, the low
      byte first. */
  lemma CheckValue()
    ensures Crc([2, 7]) == 0x1241 && Swapped(Crc([2, 7])) == 0x4112
  {
    var one: seq<bv8>, two: seq<bv8> := [2], [2, 7];
    FirstStep();
    hide Step;
    assert two[..1] == one && one[..0] == [];
    assert Register(0xFFFF, one[..0]) == 0xFFFF;
    assert Register(0xFFFF, one) == Step(0xFFFF, 2);
    assert Register(0xFFFF, two) == Step(Register(0xFFFF, one), 7);
  }

  lemma FirstStep()
    ensures Step(0xFFFF, 2) == 0x813E && Step(0x813E, 7) == 0x1241
  {
  }

  lemma JoinedStart()
    ensures Joined(0xFF, 0xFF) == 0xFFFF
  {
  }

  /** `CRC16`; the length is an unsigned short. */
  method CRC16(msg: seq<bv8>) returns (crc: bv16)
    requires |msg| < 0x10000
    ensures crc == Swapped(Crc(msg))
  {
    hide HiTable, LoTable, Joined, Step, XorBytes, Low, High;
    var crcHi: bv8, crcLo: bv8 := 0xFF, 0xFF;
    JoinedStart();
    var i := 0;
    assert msg[..0] == [];
    while i < |msg|
      invariant i <= |msg| && Joined(crcHi, crcLo) == Register(0xFFFF, msg[..i])
    {
      TableStep(crcHi, crcLo, msg[i]);
      assert msg[..i + 1][..i] == msg[..i];
      var index := XorBytes(crcHi, msg[i]);
      crcHi := XorBytes(crcLo, HiTable(index));
      crcLo := LoTable(index);
      i := i + 1;
    }
    assert msg[..i] == msg;
    JoinedParts(crcHi, crcLo);
    return Joined(crcLo, crcHi);
  }

  // ---------------------------------------------------------------- messages as bits

  /** One bit enters the register, and one leaves it. */
  function In(c: bv16, b: bool): bv16 {
    Shift(Xor(c, Bit(b)))
  }

  /** The register after the bits `w`, if it was `c` before. */
  function Fold(c: bv16, w: seq<bool>): bv16
    decreases |w|
  {
    if w == [] then c else Fold(In(c, w[0]), w[1..])
  }

  /** `n` bits leave the register. */
  function Shifts(c: bv16, n: nat): bv16
    decreases n
  {
    if n == 0 then c else Shifts(Shift(c), n - 1)
  }

  /** A bit below a word. */
  function Below(b: bool, p: bv16): bv16 {
    Xor(Bit(b), Up(p))
  }

  /** Up to sixteen bits as a word, the first bit lowest. */
  function Pack(w: seq<bool>): bv16
    decreases |w|
  {
    if w == [] then 0 else Below(w[0], Pack(w[1..]))
  }

  lemma ShiftInjective(x: bv16, y: bv16)
    requires Shift(x) == Shift(y)
    ensures x == y
  {
    TopBit(Half(x), Half(y));
    if Odd(x) <==> Odd(y) {
      if Odd(x) {
        XorCancelRight(Half(x), Half(y), 0xA001);
      }
    }
  }

  /** The polynomial has the top bit, a half has not. */
  lemma TopBit(h: bv16, k: bv16)
    requires h < 32768 && k < 32768
    ensures Xor(h, 0xA001) != k && Xor(k, 0xA001) != h
  {
  }

  lemma InInjective(x: bv16, y: bv16, b: bool)
    requires In(x, b) == In(y, b)
    ensures x == y
  {
    hide Shift, Xor, Bit;
    ShiftInjective(Xor(x, Bit(b)), Xor(y, Bit(b)));
    XorCancelRight(x, y, Bit(b));
  }

  lemma {:induction false} ShiftsInjective(x: bv16, y: bv16, n: nat)
    requires Shifts(x, n) == Shifts(y, n)
    ensures x == y
    decreases n
  {
    hide Shift;
    if n > 0 {
      ShiftsInjective(Shift(x), Shift(y), n - 1);
      ShiftInjective(x, y);
    }
  }

  /** The word is smaller than 2 to the power of `n`. */
  predicate Small(p: bv16, n: nat) {
    match n
    case 0 => p == 0
    case 1 => p < 2
    case 2 => p < 4
    case 3 => p < 8
    case 4 => p < 16
    case 5 => p < 32
    case 6 => p < 64
    case 7 => p < 128
    case 8 => p < 256
    case 9 => p < 512
    case 10 => p < 1024
    case 11 => p < 2048
    case 12 => p < 4096
    case 13 => p < 8192
    case 14 => p < 16384
    case 15 => p < 32768
    case _ => true
  }

  lemma BelowSmall(b: bool, p: bv16, n: nat)
    requires Small(p, n)
    ensures Small(Below(b, p), n + 1)
  {
  }

  lemma SmallTop(p: bv16, n: nat)
    requires Small(p, n) && n <= 15
    ensures p < 32768
  {
  }

  lemma NothingSmall()
    ensures Small(0, 0)
  {
  }

  lemma {:induction false} PackSmall(w: seq<bool>)
    requires |w| <= 16
    ensures Small(Pack(w), |w|)
    decreases |w|
  {
    hide Below, Small;
    if w != [] {
      PackSmall(w[1..]);
      BelowSmall(w[0], Pack(w[1..]), |w| - 1);
    } else {
      NothingSmall();
    }
  }

  lemma PackTop(w: seq<bool>)
    requires |w| <= 15
    ensures Pack(w) < 32768
  {
    hide Small, Pack;
    PackSmall(w);
    SmallTop(Pack(w), |w|);
  }

  /** A bit that enters later can as well enter now, higher up. */
  lemma InLater(c: bv16, b: bool, p: bv16)
    requires p < 32768
    ensures Shift(Xor(c, Below(b, p))) == Xor(In(c, b), p)
  {
    hide Odd, Half, Xor, Up, Bit;
    XorAssoc(c, Bit(b), Up(p));
    ShiftXor(Xor(c, Bit(b)), Up(p));
    UpParts(p);
  }

  /** Up to sixteen bits enter the register one by one as they would enter it at once. */
  lemma {:induction false} FoldPacked(c: bv16, w: seq<bool>)
    requires |w| <= 16
    ensures Fold(c, w) == Shifts(Xor(c, Pack(w)), |w|)
    decreases |w|
  {
    hide Shift, In, Below, Xor;
    if w != [] {
      PackTop(w[1..]);
      InLater(c, w[0], Pack(w[1..]));
      FoldPacked(In(c, w[0]), w[1..]);
    } else {
      XorZero(c);
    }
  }

  lemma BelowParts(b: bool, p: bv16)
    requires p < 32768
    ensures (Odd(Below(b, p)) <==> b) && Half(Below(b, p)) == p
  {
    hide Odd, Half, Xor, Up, Bit;
    OddXor(Bit(b), Up(p));
    HalfXor(Bit(b), Up(p));
    UpParts(p);
    BitParts(b);
    XorZero(p);
  }

  lemma {:induction false} PackInjective(w: seq<bool>, v: seq<bool>)
    requires |w| == |v| <= 16 && Pack(w) == Pack(v)
    ensures w == v
    decreases |w|
  {
    hide Below, Odd, Half;
    if w != [] {
      PackTop(w[1..]);
      PackTop(v[1..]);
      BelowParts(w[0], Pack(w[1..]));
      BelowParts(v[0], Pack(v[1..]));
      PackInjective(w[1..], v[1..]);
      assert w == [w[0]] + w[1..] && v == [v[0]] + v[1..];
    }
  }

  lemma {:induction false} FoldConcat(c: bv16, a: seq<bool>, b: seq<bool>)
    ensures Fold(c, a + b) == Fold(Fold(c, a), b)
    decreases |a|
  {
    hide In;
    if a == [] {
      assert a + b == b;
    } else {
      assert (a + b)[1..] == a[1..] + b;
      FoldConcat(In(c, a[0]), a[1..], b);
    }
  }

  /** The same bits never bring two registers together. */
  lemma {:induction false} FoldKeepsApart(x: bv16, y: bv16, w: seq<bool>)
    requires Fold(x, w) == Fold(y, w)
    ensures x == y
    decreases |w|
  {
    hide In;
    if w != [] {
      FoldKeepsApart(In(x, w[0]), In(y, w[0]), w[1..]);
      InInjective(x, y, w[0]);
    }
  }

  /** Every burst is noticed: two strings of bits of the same length, of any length, that differ only inside sixteen
      adjacent bits leave different registers. */
  lemma BurstDetected(c: bv16, a: seq<bool>, w: seq<bool>, v: seq<bool>, b: seq<bool>)
    requires |w| == |v| <= 16
    ensures Fold(c, a + w + b) == Fold(c, a + v + b) <==> w == v
  {
    hide Fold, Pack, Shifts, Xor;
    if Fold(c, a + w + b) == Fold(c, a + v + b) {
      FoldConcat(c, a + w, b);
      FoldConcat(c, a + v, b);
      FoldConcat(c, a, w);
      FoldConcat(c, a, v);
      var x := Fold(c, a);
      FoldKeepsApart(Fold(x, w), Fold(x, v), b);
      FoldPacked(x, w);
      FoldPacked(x, v);
      ShiftsInjective(Xor(x, Pack(w)), Xor(x, Pack(v)), |w|);
      XorCancel(x, Pack(w), Pack(v));
      PackInjective(w, v);
    }
  }

  // ---------------------------------------------------------------- bytes as bits

  /** The bits of a byte, the lowest first: the order in which they are sent. */
  function Bits(b: bv8): (w: seq<bool>)
    ensures |w| == 8
  {
    [b & 1 != 0, b & 2 != 0, b & 4 != 0, b & 8 != 0, b & 16 != 0, b & 32 != 0, b & 64 != 0, b & 128 != 0]
  }

  lemma BitsInjective(a: bv8, b: bv8)
    requires Bits(a) == Bits(b)
    ensures a == b
  {
    hide Bits, Wide, Low;
    BitsPacked(a);
    BitsPacked(b);
    WideParts(a);
    WideParts(b);
  }

  lemma BitsPacked(b: bv8)
    ensures Pack(Bits(b)) == Wide(b)
  {
    hide Below, Wide, Pack;
    var w := Bits(b);
    PackFour(w[..4], w[4..]);
    PackFour(w[4..], []);
    assert w[..4] + w[4..] == w && w[4..] + [] == w[4..];
    assert Pack([]) == 0 by {
      PackNothing();
    }
    EightBelow(b);
  }

  lemma PackNothing()
    ensures Pack([]) == 0
  {
  }

  lemma PackOne(b: bool, v: seq<bool>)
    ensures Pack([b] + v) == Below(b, Pack(v))
  {
    hide Below;
    assert ([b] + v)[1..] == v;
  }

  lemma PackFour(w: seq<bool>, v: seq<bool>)
    requires |w| == 4
    ensures Pack(w + v) == Below(w[0], Below(w[1], Below(w[2], Below(w[3], Pack(v)))))
  {
    hide Below, Pack;
    PackOne(w[3], v);
    PackOne(w[2], [w[3]] + v);
    PackOne(w[1], [w[2]] + ([w[3]] + v));
    PackOne(w[0], [w[1]] + ([w[2]] + ([w[3]] + v)));
    assert w + v == [w[0]] + ([w[1]] + ([w[2]] + ([w[3]] + v)));
  }

  lemma EightBelow(b: bv8)
    ensures Below(b & 1 != 0, Below(b & 2 != 0, Below(b & 4 != 0, Below(b & 8 != 0,
            Below(b & 16 != 0, Below(b & 32 != 0, Below(b & 64 != 0, Below(b & 128 != 0, 0)))))))) == Wide(b)
  {
  }

  lemma EightShifts(c: bv16)
    ensures Shifts(c, 8) == Shift8(c)
  {
    hide Shift;
    var c4 := Shift(Shift(Shift(Shift(c))));
    assert Shifts(c, 8) == Shifts(Shift(c), 7) == Shifts(Shift(Shift(c)), 6);
    assert Shifts(Shift(Shift(c)), 6) == Shifts(Shift(Shift(Shift(c))), 5) == Shifts(c4, 4);
    assert Shifts(c4, 4) == Shifts(Shift(c4), 3) == Shifts(Shift(Shift(c4)), 2);
    assert Shifts(Shift(Shift(c4)), 2) == Shifts(Shift(Shift(Shift(c4))), 1);
    assert Shifts(Shift(Shift(Shift(c4))), 1) == Shifts(Shift(Shift(Shift(Shift(c4)))), 0);
  }

  /** A byte enters the register as its bits do. */
  lemma StepBits(c: bv16, b: bv8)
    ensures Step(c, b) == Fold(c, Bits(b))
  {
    hide Fold, Bits, Shifts, Pack, Shift8, Xor, Wide;
    FoldPacked(c, Bits(b));
    BitsPacked(b);
    EightShifts(Xor(c, Wide(b)));
  }

  function MessageBits(msg: seq<bv8>): (w: seq<bool>)
    ensures |w| == 8 * |msg|
  {
    if msg == [] then [] else MessageBits(msg[..|msg| - 1]) + Bits(msg[|msg| - 1])
  }

  lemma {:induction false} RegisterBits(c: bv16, msg: seq<bv8>)
    ensures Register(c, msg) == Fold(c, MessageBits(msg))
  {
    hide Step, Fold, Bits;
    if msg != [] {
      var n := |msg| - 1;
      RegisterBits(c, msg[..n]);
      StepBits(Register(c, msg[..n]), msg[n]);
      FoldConcat(c, MessageBits(msg[..n]), Bits(msg[n]));
    } else {
      FoldNothing(c);
    }
  }

  lemma FoldNothing(c: bv16)
    ensures Fold(c, []) == c
  {
  }

  lemma {:induction false} BitsConcat(a: seq<bv8>, b: seq<bv8>)
    ensures MessageBits(a + b) == MessageBits(a) + MessageBits(b)
    decreases |b|
  {
    hide Bits;
    if b == [] {
      assert a + b == a;
    } else {
      assert (a + b)[..|a + b| - 1] == a + b[..|b| - 1];
      BitsConcat(a, b[..|b| - 1]);
    }
  }

  lemma PairBits(b0: bv8, b1: bv8)
    ensures MessageBits([b0, b1]) == Bits(b0) + Bits(b1)
  {
    hide Bits;
    assert [b0, b1][..1] == [b0] && [b0][..0] == [];
    assert MessageBits([b0]) == MessageBits([]) + Bits(b0);
  }

  lemma PairBitsInjective(a0: bv8, a1: bv8, b0: bv8, b1: bv8)
    requires Bits(a0) + Bits(a1) == Bits(b0) + Bits(b1)
    ensures a0 == b0 && a1 == b1
  {
    hide Bits;
    assert (Bits(a0) + Bits(a1))[..8] == Bits(a0) && (Bits(b0) + Bits(b1))[..8] == Bits(b0);
    assert (Bits(a0) + Bits(a1))[8..] == Bits(a1) && (Bits(b0) + Bits(b1))[8..] == Bits(b1);
    BitsInjective(a0, b0);
    BitsInjective(a1, b1);
  }

  /** Two messages of the same length, of any length, that differ only inside two adjacent bytes never have the
      same CRC, whatever the register was before. */
  lemma AdjacentBytesDetected(c: bv16, a: seq<bv8>, a0: bv8, a1: bv8, b0: bv8, b1: bv8, b: seq<bv8>)
    ensures Register(c, a + [a0, a1] + b) == Register(c, a + [b0, b1] + b) <==> a0 == b0 && a1 == b1
  {
    hide Register, Fold, MessageBits, Bits;
    if Register(c, a + [a0, a1] + b) == Register(c, a + [b0, b1] + b) {
      BitsAround(a, a0, a1, b);
      BitsAround(a, b0, b1, b);
      RegisterBits(c, a + [a0, a1] + b);
      RegisterBits(c, a + [b0, b1] + b);
      BurstDetected(c, MessageBits(a), Bits(a0) + Bits(a1), Bits(b0) + Bits(b1), MessageBits(b));
      PairBitsInjective(a0, a1, b0, b1);
    }
  }

  lemma BitsAround(a: seq<bv8>, b0: bv8, b1: bv8, b: seq<bv8>)
    ensures MessageBits(a + [b0, b1] + b) == MessageBits(a) + (Bits(b0) + Bits(b1)) + MessageBits(b)
  {
    hide MessageBits, Bits;
    BitsConcat(a + [b0, b1], b);
    BitsConcat(a, [b0, b1]);
    PairBits(b0, b1);
  }

  // ---------------------------------------------------------------- frames

  /** A message and its checksum, the low byte of the register first. */
  function Frame(msg: seq<bv8>): seq<bv8> {
    msg + [Low(Crc(msg)), High(Crc(msg))]
  }

  /** The end of `create_send_data`: the checksum is appended, its upper byte first. */
  method AppendChecksum(res: array<bv8>, cc: nat) returns (len: nat)
    requires cc + 2 <= res.Length && cc < 0x10000
    modifies res
    ensures len == cc + 2 && res[..len] == Frame(old(res[..cc]))
  {
    hide Joined, Low, High;
    ghost var msg := res[..cc];
    var checksum := CRC16(res[..cc]);
    JoinedParts(High(Crc(msg)), Low(Crc(msg)));
    len := cc;
    res[len] := High(checksum);
    len := len + 1;
    res[len] := Low(checksum);
    len := len + 1;
    assert res[..len] == msg + [High(checksum), Low(checksum)];
  }

  /** The register swallows its own two bytes. */
  lemma OwnBytes(c: bv16)
    ensures Step(Step(c, Low(c)), High(c)) == 0
  {
    hide Shift8, Joined, Wide, Low, High, Xor, XorBytes;
    var lo, hi := Low(c), High(c);
    JoinedWhole(c);
    JoinedStep(lo, hi, lo);
    XorBytesZero(lo);
    NothingShifts();
    XorZero(Wide(hi));
    XorSelf(Wide(hi));
  }

  lemma NothingShifts()
    ensures Shift8(0) == 0 && Wide(0) == 0
  {
  }

  lemma {:induction false} RegisterConcat(c: bv16, a: seq<bv8>, b: seq<bv8>)
    ensures Register(c, a + b) == Register(Register(c, a), b)
    decreases |b|
  {
    hide Step;
    if b == [] {
      assert a + b == a;
    } else {
      assert (a + b)[..|a + b| - 1] == a + b[..|b| - 1];
      RegisterConcat(c, a, b[..|b| - 1]);
    }
  }

  lemma TwoBytes(c: bv16, lo: bv8, hi: bv8)
    ensures Register(c, [lo, hi]) == Step(Step(c, lo), hi)
  {
    hide Step;
    assert [lo, hi][..1] == [lo] && [lo][..0] == [];
    assert Register(c, [lo]) == Step(Register(c, []), lo);
  }

  /** A frame is recognised by its checksum: two bytes behind a message bring the register to 0 exactly if they are
      the ones that are appended to it. */
  lemma FrameChecks(msg: seq<bv8>, lo: bv8, hi: bv8)
    ensures Crc(msg + [lo, hi]) == 0 <==> msg + [lo, hi] == Frame(msg)
  {
    hide Step, Register, Low, High;
    var c := Crc(msg);
    RegisterConcat(0xFFFF, msg, [lo, hi]);
    RegisterConcat(0xFFFF, msg, [Low(c), High(c)]);
    TwoBytes(c, Low(c), High(c));
    OwnBytes(c);
    if Crc(msg + [lo, hi]) == 0 {
      assert msg + [lo, hi] + [] == msg + [lo, hi] && Frame(msg) + [] == Frame(msg);
      AdjacentBytesDetected(0xFFFF, msg, lo, hi, Low(c), High(c), []);
    }
    assert (msg + [lo, hi])[|msg|] == lo && (msg + [lo, hi])[|msg| + 1] == hi;
    assert Frame(msg)[|msg|] == Low(c) && Frame(msg)[|msg| + 1] == High(c);
  }
}
