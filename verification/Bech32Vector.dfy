/**
 * The shortest valid string of BIP 173: what the constants of the checksum and the charset
 * come to, worked out on one input.
 */
module Bech32Vector {
  import opened Words
  import opened Wrappers
  import opened Strings
  import opened Bech32Bits
  import opened Bech32Checksum
  import opened Bech32Codec

  function BinaryDigit(c: char): nat {
    if c == '1' then 1 else 0
  }

  /** Five binary digits. */
  function FiveDigits(b: string): nat
    requires |b| == 5
  {
    16 * BinaryDigit(b[0]) + 8 * BinaryDigit(b[1]) + 4 * BinaryDigit(b[2]) + 2 * BinaryDigit(b[3]) + BinaryDigit(b[4])
  }

  lemma XorLow(x: nat, y: nat, z: nat, a: char, b: char, c: char)
    requires Xor(x, y) == z && ((a == '1') != (b == '1') <==> c == '1')
    ensures Xor(2 * x + BinaryDigit(a), 2 * y + BinaryDigit(b)) == 2 * z + BinaryDigit(c)
  {
    hide Xor;
    var u, v := 2 * x + BinaryDigit(a), 2 * y + BinaryDigit(b);
    assert u / 2 == x && v / 2 == y;
    XorBit(u, v);
  }

  /** Five bits more, written out. */
  lemma XorFive(x: nat, y: nat, z: nat, a: string, b: string, c: string)
    requires Xor(x, y) == z && |a| == |b| == |c| == 5
    requires forall i :: 0 <= i < 5 ==> ((a[i] == '1') != (b[i] == '1') <==> c[i] == '1')
    ensures Xor(32 * x + FiveDigits(a), 32 * y + FiveDigits(b)) == 32 * z + FiveDigits(c)
  {
    hide Xor, BinaryDigit;
    var d := (s: string, i: nat) requires i < |s| => BinaryDigit(s[i]);
    XorLow(x, y, z, a[0], b[0], c[0]);
    var x1, y1, z1 := 2 * x + d(a, 0), 2 * y + d(b, 0), 2 * z + d(c, 0);
    XorLow(x1, y1, z1, a[1], b[1], c[1]);
    var x2, y2, z2 := 2 * x1 + d(a, 1), 2 * y1 + d(b, 1), 2 * z1 + d(c, 1);
    XorLow(x2, y2, z2, a[2], b[2], c[2]);
    var x3, y3, z3 := 2 * x2 + d(a, 2), 2 * y2 + d(b, 2), 2 * z2 + d(c, 2);
    XorLow(x3, y3, z3, a[3], b[3], c[3]);
    var x4, y4, z4 := 2 * x3 + d(a, 3), 2 * y3 + d(b, 3), 2 * z3 + d(c, 3);
    XorLow(x4, y4, z4, a[4], b[4], c[4]);
  }

  lemma Sum1()
    ensures Xor(0x600_8000, 0x3b6a_57b2) == 0x3d6a_d7b2
  {
    hide Xor;
    XorZero(0);
    XorFive(0, 0, 0, "00011", "11101", "11110");
    XorFive(3, 29, 30, "00000", "10110", "10110");
    XorFive(96, 950, 982, "00001", "10100", "10101");
    XorFive(0xc01, 0x76d4, 0x7ad5, "00000", "10101", "10101");
    XorFive(0x1_8020, 0xe_da95, 0xf_5ab5, "00000", "11101", "11101");
    XorFive(0x30_0400, 0x1db_52bd, 0x1eb_56bd, "00000", "10010", "10010");
  }

  lemma Sum2()
    ensures Xor(0x2d5a_f640, 0x2650_8e6d) == 0xb0a_782d
  {
    hide Xor;
    XorZero(0);
    XorFive(0, 0, 0, "10110", "10011", "00101");
    XorFive(22, 19, 5, "10101", "00101", "10000");
    XorFive(725, 613, 176, "10101", "00001", "10100");
    XorFive(0x5ab5, 0x4ca1, 0x1614, "11101", "00011", "11110");
    XorFive(0xb_56bd, 0x9_9423, 0x2_c29e, "10010", "10011", "00001");
    XorFive(0x16a_d7b2, 0x132_8473, 0x58_53c1, "00000", "01101", "01101");
  }

  lemma Sum3()
    ensures Xor(0xb0a_782d, 0x1ea1_19fa) == 0x15ab_61d7
  {
    hide Xor;
    XorZero(0);
    XorFive(0, 0, 0, "00101", "01111", "01010");
    XorFive(5, 15, 10, "10000", "01010", "11010");
    XorFive(176, 490, 346, "10100", "00010", "10110");
    XorFive(0x1614, 0x3d42, 0x2b56, "11110", "00110", "11000");
    XorFive(0x2_c29e, 0x7_a846, 0x5_6ad8, "00001", "01111", "01110");
    XorFive(0x58_53c1, 0xf5_08cf, 0xad_5b0e, "01101", "11010", "10111");
  }

  lemma Sum4()
    ensures Xor(0x15ab_61d7, 0x3d42_33dd) == 0x28e9_520a
  {
    hide Xor;
    XorZero(0);
    XorFive(0, 0, 0, "01010", "11110", "10100");
    XorFive(10, 30, 20, "11010", "10100", "01110");
    XorFive(346, 980, 654, "10110", "00100", "10010");
    XorFive(0x2b56, 0x7a84, 0x51d2, "11000", "01100", "10100");
    XorFive(0x5_6ad8, 0xf_508c, 0xa_3a54, "01110", "11110", "10000");
    XorFive(0xad_5b0e, 0x1ea_119e, 0x147_4a90, "10111", "11101", "01010");
  }

  lemma Sum5()
    ensures Xor(0x28e9_520a, 0x2a14_62b3) == 0x2fd_30b9
  {
    hide Xor;
    XorZero(0);
    XorFive(0, 0, 0, "10100", "10101", "00001");
    XorFive(20, 21, 1, "01110", "00001", "01111");
    XorFive(654, 673, 47, "10010", "01000", "11010");
    XorFive(0x51d2, 0x5428, 0x5fa, "10100", "11000", "01100");
    XorFive(0xa_3a54, 0xa_8518, 0xbf4c, "10000", "10101", "00101");
    XorFive(0x147_4a90, 0x150_a315, 0x17_e985, "01010", "10011", "11001");
  }

  lemma Sum6()
    ensures Xor(0x1fa6_1720, 0x3b6a_57b2) == 0x24cc_4092
  {
    hide Xor;
    XorZero(0);
    XorFive(0, 0, 0, "01111", "11101", "10010");
    XorFive(15, 29, 18, "11010", "10110", "01100");
    XorFive(506, 950, 588, "01100", "10100", "11000");
    XorFive(0x3f4c, 0x76d4, 0x4998, "00101", "10101", "10000");
    XorFive(0x7_e985, 0xe_da95, 0x9_3310, "11001", "11101", "00100");
    XorFive(0xfd_30b9, 0x1db_52bd, 0x126_6204, "00000", "10010", "10010");
  }

  lemma Sum7()
    ensures Xor(0x1988_1240, 0x2650_8e6d) == 0x3fd8_9c2d
  {
    hide Xor;
    XorZero(0);
    XorFive(0, 0, 0, "01100", "10011", "11111");
    XorFive(12, 19, 31, "11000", "00101", "11101");
    XorFive(408, 613, 0x3fd, "10000", "00001", "10001");
    XorFive(0x3310, 0x4ca1, 0x7fb1, "00100", "00011", "00111");
    XorFive(0x6_6204, 0x9_9423, 0xf_f627, "10010", "10011", "00001");
    XorFive(0xcc_4092, 0x132_8473, 0x1fe_c4e1, "00000", "01101", "01101");
  }

  lemma Sum8()
    ensures Xor(0x3fd8_9c2d, 0x2a14_62b3) == 0x15cc_fe9e
  {
    hide Xor;
    XorZero(0);
    XorFive(0, 0, 0, "11111", "10101", "01010");
    XorFive(31, 21, 10, "11101", "00001", "11100");
    XorFive(0x3fd, 673, 348, "10001", "01000", "11001");
    XorFive(0x7fb1, 0x5428, 0x2b99, "00111", "11000", "11111");
    XorFive(0xf_f627, 0xa_8518, 0x5_733f, "00001", "10101", "10100");
    XorFive(0x1fe_c4e1, 0x150_a315, 0xae_67f4, "01101", "10011", "11110");
  }

  lemma TopBits()
    ensures Bit(1, 0) && !Bit(1, 1) && !Bit(1, 2) && !Bit(1, 3) && !Bit(1, 4)
    ensures !Bit(30, 0) && Bit(30, 1) && Bit(30, 2) && Bit(30, 3) && Bit(30, 4)
    ensures !Bit(18, 0) && Bit(18, 1) && !Bit(18, 2) && !Bit(18, 3) && Bit(18, 4)
  {
  }

  /** The inner loop in full. */
  lemma Unrolled(chk: nat, top: nat)
    ensures var c0 := if Bit(top, 0) then Xor(chk, 0x3b6a_57b2) else chk;
            var c1 := if Bit(top, 1) then Xor(c0, 0x2650_8e6d) else c0;
            var c2 := if Bit(top, 2) then Xor(c1, 0x1ea1_19fa) else c1;
            var c3 := if Bit(top, 3) then Xor(c2, 0x3d42_33dd) else c2;
            var c4 := if Bit(top, 4) then Xor(c3, 0x2a14_62b3) else c3;
            Reduce(chk, top, 5) == c4
  {
    hide Xor, Bit;
    assert Reduce(chk, top, 0) == chk;
    assert Reduce(chk, top, 1) == if Bit(top, 0) then Xor(chk, 0x3b6a_57b2) else chk;
    assert Reduce(chk, top, 2) == var c := Reduce(chk, top, 1); if Bit(top, 1) then Xor(c, 0x2650_8e6d) else c;
    assert Reduce(chk, top, 3) == var c := Reduce(chk, top, 2); if Bit(top, 2) then Xor(c, 0x1ea1_19fa) else c;
    assert Reduce(chk, top, 4) == var c := Reduce(chk, top, 3); if Bit(top, 3) then Xor(c, 0x3d42_33dd) else c;
  }

  /** Small registers take symbols in unreduced. */
  lemma Early(r: nat, v: Byte)
    requires r < TOP && v < 32
    ensures Step(r, v) == 32 * r + v
  {
    hide Xor;
    var x := 32 * r;
    assert r / TOP == 0 && r % TOP == r;
    Xor32(r, 0, 0, v);
    XorZero(r);
    XorComm(0, v);
    XorZero(v);
    NoTaps(Xor(x, v), 5);
  }

  lemma {:induction false} NoTaps(chk: nat, n: nat)
    requires n <= 5
    ensures Reduce(chk, 0, n) == chk
  {
    if n > 0 {
      NoTaps(chk, n - 1);
      ShrZero(n - 1);
    }
  }

  lemma SixthStep()
    ensures Step(0x230_0400, 0) == 0x3d6a_d7b2
  {
    hide Xor, Bit;
    XorZero(0x600_8000);
    Sum1();
    assert Bit(1, 0) && !Bit(1, 1) && !Bit(1, 2) && !Bit(1, 3) && !Bit(1, 4) by { TopBits(); }
    Unrolled(0x600_8000, 1);
  }

  lemma SeventhStep()
    ensures Step(0x3d6a_d7b2, 0) == 0x2fd_30b9
  {
    hide Xor, Bit;
    XorZero(0x2d5a_f640);
    Sum2();
    Sum3();
    Sum4();
    Sum5();
    assert !Bit(30, 0) && Bit(30, 1) && Bit(30, 2) && Bit(30, 3) && Bit(30, 4) by { TopBits(); }
    Unrolled(0x2d5a_f640, 30);
  }

  lemma EighthStep()
    ensures Step(0x2fd_30b9, 0) == 0x24cc_4092
  {
    hide Xor, Bit;
    XorZero(0x1fa6_1720);
    Sum6();
    assert Bit(1, 0) && !Bit(1, 1) && !Bit(1, 2) && !Bit(1, 3) && !Bit(1, 4) by { TopBits(); }
    Unrolled(0x1fa6_1720, 1);
  }

  lemma NinthStep()
    ensures Step(0x24cc_4092, 0) == 0x15cc_fe9e
  {
    hide Xor, Bit;
    XorZero(0x1988_1240);
    Sum7();
    Sum8();
    assert !Bit(18, 0) && Bit(18, 1) && !Bit(18, 2) && !Bit(18, 3) && Bit(18, 4) by { TopBits(); }
    Unrolled(0x1988_1240, 18);
  }

  lemma FoldOne(chk: nat, values: seq<Byte>, v: Byte)
    ensures Fold(chk, values + [v]) == Step(Fold(chk, values), v)
  {
    hide Step;
    assert (values + [v])[..|values|] == values;
  }

  lemma FoldNone(chk: nat)
    ensures Fold(chk, []) == chk
  {
  }

  /** The register after the expansion of "a". */
  lemma AfterHrp()
    ensures Fold(1, [3, 0, 1]) == 0x8c01
  {
    Early(1, 3);
    Early(0x23, 0);
    Early(0x460, 1);
    hide Step, Fold;
    FoldNone(1);
    FoldOne(1, [], 3);
    FoldOne(1, [3], 0);
    FoldOne(1, [3, 0], 1);
    assert [] + [3] == [3] && [3] + [0] == [3, 0] && [3, 0] + [1] == [3, 0, 1];
  }

  lemma AfterZeros()
    ensures Fold(0x8c01, ZEROS) == 0x15cc_fe9e
  {
    hide Step, Fold;
    Early(0x8c01, 0);
    Early(0x11_8020, 0);
    SixthStep();
    SeventhStep();
    EighthStep();
    NinthStep();
    FoldNone(0x8c01);
    forall n: nat | n < 6
      ensures Fold(0x8c01, ZEROS[..n + 1]) == Step(Fold(0x8c01, ZEROS[..n]), 0)
    {
      assert ZEROS[..n + 1] == ZEROS[..n] + [0];
      FoldOne(0x8c01, ZEROS[..n], 0);
    }
    assert ZEROS[..0] == [] && ZEROS[..0 + 1] == ZEROS[..1] && ZEROS[..1 + 1] == ZEROS[..2];
    assert ZEROS[..2 + 1] == ZEROS[..3] && ZEROS[..3 + 1] == ZEROS[..4] && ZEROS[..4 + 1] == ZEROS[..5];
    assert ZEROS[..5 + 1] == ZEROS;
  }

  lemma ExpandedA()
    ensures HrpExpand("a") == [3, 0, 1]
  {
  }

  lemma ChecksumOfA()
    ensures Checksum("a", []) == [10, 28, 25, 31, 20, 31]
  {
    ExpandedA();
    hide Xor, Fold, HrpExpand;
    var e := HrpExpand("a");
    assert e + [] + ZEROS == e + ZEROS;
    FoldConcat(1, e, ZEROS);
    AfterHrp();
    AfterZeros();
    XorLast(0xae6_7f4f);
  }

  lemma XorLast(half: nat)
    ensures Xor(2 * half, 1) == 2 * half + 1
  {
    hide Xor;
    XorBit(2 * half, 1);
    XorZero(half);
  }

  lemma PartsOfA()
    ensures Regroup([], 8, 5, true) == Ok([])
    ensures ToLower("a") == "a" && ToUpper("a") == "A" && FirstBad("a", HrpChar).None?
    ensures Chars([10, 28, 25, 31, 20, 31]) == "2uel5l"
  {
    assert TooWide([], 8) == None && Bits([], 8) == [] && [] + Zeros(0) == [] && Chunks([], 5) == [];
  }

  /** `Encode("a", [])` is the shortest valid string of BIP 173. */
  lemma EncodesEmpty()
    ensures Encoded("a", []) == Ok("a12uel5l")
  {
    hide Regroup, ToLower, ToUpper, FirstBad, Chars, Checksum;
    PartsOfA();
    ChecksumOfA();
    SymbolsFit([], []);
    assert [] + [10, 28, 25, 31, 20, 31] == [10, 28, 25, 31, 20, 31];
    assert Assemble("a", []) == "a" + "1" + "2uel5l" == "a12uel5l";
  }
}
