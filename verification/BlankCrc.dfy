/**
 * What CRC-32 makes of erased flash. The register of a run of 0xFF bytes returns to zero
 * after exactly four of them and then stays away from zero for far longer than the
 * largest record, so no erased record slot of 12 to 256 bytes passes its checksum,
 * although an 8-byte one would.
 */
module BlankCrc {
  import opened Bytes
  import opened Fold
  import opened Crc

  /** `Step32(c, 0xFF)` with its eight bit steps written out two by two, so that it evaluates on constants. */
  function BlankStep(c: bv32): bv32 {
    Pair(Pair(Pair(Pair(c ^ 0xFF))))
  }

  function Pair(c0: bv32): bv32 {
    var c1 := (c0 >> 1) ^ (0xEDB88320 & (0 - (c0 & 1)));
    (c1 >> 1) ^ (0xEDB88320 & (0 - (c1 & 1)))
  }

  lemma PairIsTwoBits(c: bv32)
    ensures Pair(c) == Bit32(Bit32(c))
  {
  }

  lemma BlankStepIsStep(c: bv32)
    ensures BlankStep(c) == Step32(c, 0xFF)
  {
    var x := Xor32(c, 0xFF);
    PairIsTwoBits(x);
    PairIsTwoBits(Pair(x));
    PairIsTwoBits(Pair(Pair(x)));
    PairIsTwoBits(Pair(Pair(Pair(x))));
    Iterate8(Bit32, x);
  }

  /** The register after `n` bytes 0xFF, and whether it stayed away from zero on the way. */
  function After(c: bv32, n: nat): bv32
    decreases n
  {
    if n == 0 then c else After(BlankStep(c), n - 1)
  }

  predicate NeverZero(c: bv32, n: nat)
    decreases n
  {
    n == 0 || (BlankStep(c) != 0 && NeverZero(BlankStep(c), n - 1))
  }

  lemma {:induction false} AfterIsRun(c: bv32, n: nat)
    ensures After(c, n) == Run(Step32, c, Blank(n))
    decreases n
  {
    if n != 0 {
      BlankStepIsStep(c);
      AfterIsRun(BlankStep(c), n - 1);
      assert Blank(n) == [0xFF] + Blank(n - 1);
      RunConcat(Step32, c, [0xFF], Blank(n - 1));
      RunOne(c);
    }
  }

  lemma RunOne(c: bv32)
    ensures Run(Step32, c, [0xFF]) == Step32(c, 0xFF)
  {
    assert [0xFF as byte][..0] == [];
  }

  lemma {:induction false} AfterSum(c: bv32, m: nat, n: nat)
    ensures After(c, m + n) == After(After(c, m), n)
    ensures NeverZero(c, m) && NeverZero(After(c, m), n) ==> NeverZero(c, m + n)
    decreases m
  {
    if m != 0 {
      AfterSum(BlankStep(c), m - 1, n);
    }
  }

  lemma {:induction false} NeverZeroAt(c: bv32, n: nat, k: nat)
    requires NeverZero(c, n) && 0 < k <= n
    ensures After(c, k) != 0
    decreases k
  {
    if k != 1 {
      NeverZeroAt(BlankStep(c), n - 1, k - 1);
    }
  }

  /** Eight consecutive registers of the orbit, none of them zero. */
  predicate Eight(a: bv32, b: bv32, c: bv32, d: bv32, e: bv32, f: bv32, g: bv32, h: bv32, i: bv32) {
    && BlankStep(a) == b && BlankStep(b) == c && BlankStep(c) == d && BlankStep(d) == e
    && BlankStep(e) == f && BlankStep(f) == g && BlankStep(g) == h && BlankStep(h) == i
    && b != 0 && c != 0 && d != 0 && e != 0 && f != 0 && g != 0 && h != 0 && i != 0
  }

  /** Extend a zero-free stretch of the orbit of zero by eight registers. */
  lemma Extend(n: nat, a: bv32, b: bv32, c: bv32, d: bv32, e: bv32, f: bv32, g: bv32, h: bv32, i: bv32)
    requires NeverZero(0, n) && After(0, n) == a
    requires Eight(a, b, c, d, e, f, g, h, i)
    ensures NeverZero(0, n + 8) && After(0, n + 8) == i
  {
    assert NeverZero(e, 4) && After(e, 4) == i;
    assert NeverZero(a, 4) && After(a, 4) == e;
    AfterSum(a, 4, 4);
    AfterSum(0, n, 8);
  }

  lemma Orbit0()
    ensures NeverZero(0, 32) && After(0, 32) == 0xE666FEA6
  {
    Extend(0, 0x00000000, 0x2D02EF8D, 0xBE2612FF, 0x00BE2612,
           0xDEBB20E3, 0x14DFE76F, 0xF01B4CA3, 0x622D0693, 0x44660075);
    Extend(8, 0x44660075, 0x0D290C3E, 0xEC6EDB2A, 0xF6554880,
           0xC04C39E5, 0xFDA2B543, 0xC22A5D12, 0xDE79B498, 0xD3088D4F);
    Extend(16, 0xD3088D4F, 0xCBB2BB01, 0x5ACE6DA0, 0xFB8E8208,
           0x2322E93D, 0x75498175, 0x0D1823BF, 0x76D159B3, 0x7F1CDCE2);
    Extend(24, 0x7F1CDCE2, 0x63797005, 0x5D0B6272, 0x9354F4FF,
           0x009354F4, 0x97D24ADC, 0xA2F0A338, 0x05A2A7B0, 0xE666FEA6);
  }

  lemma Orbit1()
    ensures NeverZero(0, 64) && After(0, 64) == 0x7AECE48C
  {
    Orbit0();
    Extend(32, 0xE666FEA6, 0x12518FAE, 0x1C7E30ED, 0xF3A50F78,
           0x732FB38C, 0xC97F0F35, 0x7B7854A1, 0x8CA804A7, 0x653C71C2);
    Extend(40, 0x653C71C2, 0x580D7060, 0x60E883A5, 0x8BDE5069,
           0x19E7E821, 0x6172183B, 0x9C6874B1, 0x91F804E3, 0x1490A44B);
    Extend(48, 0x1490A44B, 0xCC18E731, 0x7C10F750, 0x4615AE8E,
           0x27445404, 0x2A486FC0, 0xB64C6552, 0xA8D19330, 0x0B730EB2);
    Extend(56, 0x0B730EB2, 0x08664E23, 0x8F6DF8B1, 0x91EB016F,
           0xF09E7845, 0x2B44C4EA, 0x6DF6A02F, 0x86BE2474, 0x7AECE48C);
  }

  lemma Orbit2()
    ensures NeverZero(0, 96) && After(0, 96) == 0xFC2D797E
  {
    Orbit1();
    Extend(64, 0x7AECE48C, 0xC976CC62, 0x8E779935, 0x7B3F5C37,
           0x95C475DE, 0x4CFCD42B, 0x81F2EA19, 0x49E8B5A7, 0x65F93173);
    Extend(72, 0x65F93173, 0xE46B363A, 0xEBEA5D09, 0x5435BD74,
           0x7A3E6F15, 0x40A53509, 0x549EF21C, 0x39572D30, 0x0BE2880C);
    Extend(80, 0x0BE2880C, 0x24BF412E, 0xF1F05D03, 0xB4FA4E6A,
           0x80D19D85, 0xB05049BF, 0x766C11D9, 0xD27BE9EC, 0x846C3A37);
    Extend(88, 0x846C3A37, 0x953B26B8, 0xE82DEF15, 0x40372689,
           0xB926E32F, 0x866AF437, 0x95392076, 0x94F102A4, 0xFC2D797E);
  }

  lemma Orbit3()
    ensures NeverZero(0, 128) && After(0, 128) == 0xA785AED1
  {
    Orbit2();
    Extend(96, 0xFC2D797E, 0x9A439ECF, 0x26437332, 0xE5F3FD7E,
           0x9A5A404B, 0xCC962DD5, 0xDB775FFB, 0x07B6B346, 0xB2BABD9B);
    Extend(104, 0xB2BABD9B, 0x4A6D1FFC, 0x99433CA5, 0x8B27FBD6,
           0x4239BF97, 0x432BD0D5, 0xDBF8E206, 0xC4BAB25A, 0xA678EDD5);
    Extend(112, 0xA678EDD5, 0xDB1DB13B, 0x9CD21B18, 0x3EF2A5C0,
           0xB658DF98, 0xD360AC24, 0x11D26BF0, 0x90AECFFA, 0x70FA5A40);
    Extend(120, 0x70FA5A40, 0x5BAE5447, 0xC5E195EA, 0x6D18057E,
           0x9AD2ABB3, 0x7FF0DF10, 0x30CA0F36, 0xE288B01B, 0xA785AED1);
  }

  lemma Orbit4()
    ensures NeverZero(0, 160) && After(0, 160) == 0xE81CEB60
  {
    Orbit3();
    Extend(128, 0xA785AED1, 0xDC718861, 0x176BCFCB, 0x21A39F7A,
           0x9DF3D430, 0x0B462CF5, 0xE0DEAF32, 0xE53560A2, 0x153F1829);
    Extend(136, 0x153F1829, 0x6FA548F9, 0xE90C007D, 0x035FEE0C,
           0x24B7FC48, 0x552191D3, 0x328D4D72, 0x933B72D0, 0xAB42062B);
    Extend(144, 0xAB42062B, 0x811554CB, 0x2135E1E1, 0xFA2E0882,
           0x2E4E2389, 0xB9489A2A, 0xF6006EC1, 0xC1971DC5, 0xC6CD4EAF);
    Extend(152, 0xC6CD4EAF, 0x6BAD9CBA, 0x06DD1883, 0x59B5E00F,
           0xBDE447FC, 0x99B4B5FD, 0xEE97D599, 0xA43F53B8, 0xE81CEB60);
  }

  lemma Orbit5()
    ensures NeverZero(0, 192) && After(0, 192) == 0x81F486BF
  {
    Orbit4();
    Extend(160, 0xE81CEB60, 0x6058923E, 0xEC03AAB4, 0xE1E29BB2,
           0x088CDFB6, 0x0F0875EB, 0x1AD5DC08, 0x23C3B263, 0xF99A1CDD);
    Extend(168, 0xF99A1CDD, 0xD599DBF8, 0x9EB10C78, 0x7342A78F,
           0x5076339B, 0x4A8FD372, 0x9343704E, 0xBCF5C06A, 0x80D9920B);
    Extend(176, 0x80D9920B, 0xBA50EF97, 0x43D3B985, 0xB0934B9B,
           0x4A6F360A, 0xCD9D69A5, 0x8B732583, 0x59384E32, 0xE58C8643);
    Extend(184, 0xE58C8643, 0xC2327321, 0x61A9CDA0, 0xFBB5E5A8,
           0xF5F471B2, 0x0898C95C, 0x4FD76A9B, 0x4A90722B, 0x81F486BF);
  }

  lemma Orbit6()
    ensures NeverZero(0, 224) && After(0, 224) == 0x8F376901
  {
    Orbit5();
    Extend(192, 0x81F486BF, 0x765DB516, 0xD9A00769, 0x19B59676,
           0x947D8E12, 0xDE2FE34B, 0xCCD25876, 0x94A8E9DC, 0xA2F3D99B);
    Extend(200, 0xA2F3D99B, 0x4A7D5698, 0xD39C89AD, 0x85B6AC51,
           0x31EB3843, 0xC2E6149F, 0x4D70874C, 0x522592B1, 0x91364905);
    Extend(208, 0x91364905, 0x5DF92D4B, 0xCC518EB8, 0xE87485BD,
           0x983A5439, 0x729F5DD1, 0xDCA49292, 0x33DFB977, 0xE350D4AB);
    Extend(216, 0xE350D4AB, 0x6CE5C539, 0x726B8240, 0x5BACC59F,
           0x4DE9CD9D, 0xA3F1E9B9, 0x9F1C154C, 0x52F7FE23, 0x8F376901);
  }

  lemma Orbit7()
    ensures NeverZero(0, 248) && After(0, 248) == 0x58CBF1D0
  {
    Orbit6();
    Extend(224, 0x8F376901, 0x5A8AE872, 0x93537575, 0x0DFE394B,
           0xCC0189AC, 0xF2AE01C7, 0x28F0169F, 0x4D9A914E, 0xBC2B198B);
    Extend(232, 0xBC2B198B, 0x57D49E3C, 0x023A4794, 0xDA628297,
           0x43B38BE8, 0x8390364C, 0x52EB7200, 0x2D5004FF, 0x002D5004);
    Extend(240, 0x002D5004, 0x2A6F06C4, 0xB1218622, 0xF8D38FEF,
           0x1D4FC3EB, 0x1AC79BBE, 0x01C1B69D, 0xA3BDC1C2, 0x58CBF1D0);
  }

  lemma FourOnesReachZero()
    ensures Run(Step32, SEED32, Blank(4)) == 0
  {
    AfterIsRun(SEED32, 4);
    assert After(0xFFFFFFFF, 4) == 0;
  }

  lemma LongerOnesStayAway(n: nat)
    requires 8 <= n <= 252
    ensures Run(Step32, SEED32, Blank(n)) != 0
  {
    FourOnesReachZero();
    assert Blank(n) == Blank(4) + Blank(n - 4);
    RunConcat(Step32, SEED32, Blank(4), Blank(n - 4));
    AfterIsRun(0, n - 4);
    Orbit7();
    NeverZeroAt(0, 248, n - 4);
  }

  lemma NotOfZero(x: bv32)
    ensures Not32(x) == 0xFFFFFFFF <==> x == 0
  {
  }

  /** Four 0xFF bytes check as 0xFFFFFFFF; eight to 252 of them never do. */
  lemma BlankChecksum(n: nat)
    requires n == 4 || 8 <= n <= 252
    ensures Crc32(Blank(n)) == 0xFFFFFFFF <==> n == 4
  {
    if n == 4 {
      FourOnesReachZero();
    } else {
      LongerOnesStayAway(n);
    }
    NotOfZero(Run(Step32, SEED32, Blank(n)));
  }
}
