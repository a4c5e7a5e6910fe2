/**
 * Under CRC-16 no stamped event record is all 0xFF: the checksum of thirty bytes 0xFF is
 * 0x5FBD.
 */
module BlankRecord {
  import opened Bytes
  import opened Fold
  import opened Crc
  import EventRing

  /** `Step16(c, 0xFF)` with its eight bit steps written out, so that it evaluates on constants. */
  function BlankStep(c: bv16): bv16 {
    FourBits(FourBits(Xor16(c, 0xFF00)))
  }

  function FourBits(c: bv16): bv16 {
    Bit16(Bit16(Bit16(Bit16(c))))
  }

  lemma BlankStepIsStep(c: bv16)
    ensures BlankStep(c) == Step16(c, 0xFF)
  {
    Iterate8(Bit16, Xor16(c, 0xFF00));
  }

  lemma RunLonger(n: nat)
    ensures Run(Step16, SEED16, Blank(n + 1)) == BlankStep(Run(Step16, SEED16, Blank(n)))
  {
    assert Blank(n + 1)[..n] == Blank(n);
    BlankStepIsStep(Run(Step16, SEED16, Blank(n)));
  }

  /** Five consecutive registers of the orbit. */
  lemma Extend(n: nat, a: bv16, b: bv16, c: bv16, d: bv16, e: bv16, f: bv16)
    requires Run(Step16, SEED16, Blank(n)) == a
    requires BlankStep(a) == b && BlankStep(b) == c && BlankStep(c) == d && BlankStep(d) == e && BlankStep(e) == f
    ensures Run(Step16, SEED16, Blank(n + 5)) == f
  {
    RunLonger(n);
    RunLonger(n + 1);
    RunLonger(n + 2);
    RunLonger(n + 3);
    RunLonger(n + 4);
  }

  lemma Crc16NeverBlank()
    ensures EventRing.Format(Crc16).NeverBlank()
  {
    assert Blank(0) == [];
    Extend(0, 0xFFFF, 0xFF00, 0x0000, 0x1EF0, 0x1D0F, 0xD26C);
    Extend(5, 0xD26C, 0x99CF, 0xC360, 0x97DF, 0x32AE, 0xA6E1);
    Extend(10, 0xA6E1, 0x2ADC, 0x47D8, 0xFED3, 0xC321, 0xD6DF);
    Extend(15, 0xD6DF, 0x6A4B, 0x981C, 0x0041, 0x5FF0, 0x45EA);
    Extend(20, 0x45EA, 0xEC91, 0xB352, 0xDB48, 0x2CE6, 0x1D1E);
    Extend(25, 0x1D1E, 0xC36C, 0x9BDF, 0xF322, 0xE38C, 0x5FBD);
  }
}
