/** Register tables with literal values: the bytes of an entry of each kind (xUSL/CCX/Common/AmdTable.h) and
    the effect of entries on a given platform (xUSL/CCX/Common/AmdTable.c). */
module AmdTableExample {
  import opened AmdTableFormat
  import opened AmdTableEffects
  import opened SmnRange

  const MSR := MsrData(0x0403_0201, 0x1817_1615_1413_1211, 0x2827_2625_2423_2221)
  const PCI := PciData(0x3433_3231, 0x4443_4241, 0x5453_5251)
  const ID := LogicalId(0x6463_6261, 0x7271)
  const FEATS: bv32 := 0x8483_8281

  const MSR_BYTES: seq<byte> :=
    [0x01, 0x02, 0x03, 0x04, 0x11, 0x12, 0x13, 0x14, 0x15, 0x16, 0x17, 0x18,
     0x21, 0x22, 0x23, 0x24, 0x25, 0x26, 0x27, 0x28]
  const PCI_BYTES: seq<byte> := [0x31, 0x32, 0x33, 0x34, 0x41, 0x42, 0x43, 0x44, 0x51, 0x52, 0x53, 0x54]
  const ID_BYTES: seq<byte> := [0x61, 0x62, 0x63, 0x64, 0x71, 0x72]
  const FEATS_BYTES: seq<byte> := [0x81, 0x82, 0x83, 0x84]

  lemma MsrBytes()
    ensures EncodeMsr(MSR) == MSR_BYTES
  {
  }

  lemma PciBytes()
    ensures EncodePci(PCI) == PCI_BYTES
  {
  }

  lemma CriteriaBytes()
    ensures EncodeId(ID) == ID_BYTES && Bsu32(FEATS) == FEATS_BYTES
  {
  }

  lemma TypeBytes()
    ensures Bsu16(0) == [0, 0] && Bsu16(1) == [1, 0] && Bsu16(2) == [2, 0] && Bsu16(3) == [3, 0] && Bsu16(4) == [4, 0]
    ensures Bsu16(5) == [5, 0] && Bsu16(6) == [6, 0] && Bsu16(7) == [7, 0] && Bsu16(8) == [8, 0] && Bsu16(9) == [9, 0]
  {
  }

  /** The address comes first, then the data, then the mask; matching criteria come before them. */
  lemma EntryBytes()
    ensures EncodeEntry(Pci(PCI)) == [0, 0] + PCI_BYTES
    ensures EncodeEntry(PciProfileFixup(FEATS, PCI)) == [1, 0] + (FEATS_BYTES + PCI_BYTES)
    ensures EncodeEntry(PciCpuRev(ID, PCI)) == [2, 0] + (ID_BYTES + PCI_BYTES)
    ensures EncodeEntry(Msr(MSR)) == [3, 0] + MSR_BYTES
    ensures EncodeEntry(MsrCpuRev(ID, MSR)) == [4, 0] + (ID_BYTES + MSR_BYTES)
    ensures EncodeEntry(MsrCoreRev(ID, MSR)) == [5, 0] + (ID_BYTES + MSR_BYTES)
    ensures EncodeEntry(MsrPlatformFeat(FEATS, MSR)) == [6, 0] + (FEATS_BYTES + MSR_BYTES)
    ensures EncodeEntry(MsrCpuRevPlatformFeat(ID, FEATS, MSR)) == [7, 0] + (ID_BYTES + (FEATS_BYTES + MSR_BYTES))
  {
    TypeBytes();
    MsrBytes();
    PciBytes();
    CriteriaBytes();
    hide Bsu16, Bsu32, EncodeMsr, EncodePci, EncodeId;
  }

  /** SMN entries: instance, index or index range and step, data, mask. */
  lemma SmnBytes()
    ensures EncodeEntry(Smn(1, 2, 3, 4))
            == [8, 0] + (([1, 0, 0, 0] + [2, 0, 0, 0]) + ([3, 0, 0, 0] + [4, 0, 0, 0]))
    ensures EncodeEntry(SmnMulti(1, 2, 3, 4, 5, 6))
            == [9, 0] + (([1, 0, 0, 0] + [2, 0, 0, 0])
                         + (([3, 0, 0, 0] + [4, 0, 0, 0]) + ([5, 0, 0, 0] + [6, 0, 0, 0])))
    ensures EncodeTable([]) == [0xFF, 0xFF]
  {
    TypeBytes();
    SmallWords();
    hide Bsu16, Bsu32;
  }

  lemma SmallWords()
    ensures Bsu32(1) == [1, 0, 0, 0] && Bsu32(2) == [2, 0, 0, 0] && Bsu32(3) == [3, 0, 0, 0]
    ensures Bsu32(4) == [4, 0, 0, 0] && Bsu32(5) == [5, 0, 0, 0] && Bsu32(6) == [6, 0, 0, 0]
    ensures EncodeTable([]) == [0xFF, 0xFF]
  {
  }

  // ----- Effects -----

  const X2APIC := MsrPlatformFeat(0x10, MsrData(0x1B, 0x400, 0x400))

  /** The entry that enables x2APIC mode (xUSL/CCX/Zen4/CcxResetTablesZen4.c:28-29) does so on a platform
      with that feature, whatever else it has, and on no other. */
  lemma X2ApicExample(p: Platform, bsp: bool)
    ensures p.features == 0x10 || p.features == 0x30 ==>
              Updates(p, X2APIC, bsp) == [Update(MsrReg(0x1B), 0x400, 0x400)]
    ensures p.features == 0 || p.features == 0x20 ==> Updates(p, X2APIC, bsp) == []
  {
    X2ApicMatches(p.features);
    hide FeaturesMatch;
  }

  lemma X2ApicMatches(features: bv32)
    ensures features == 0x10 || features == 0x30 ==> FeaturesMatch(features, 0x10)
    ensures features == 0 || features == 0x20 ==> !FeaturesMatch(features, 0x10)
  {
  }

  const START: Regs := map[MsrReg(0x10) := 0xFF, PciReg(0x20) := 0xABCD]
  const TABLE := [Msr(MsrData(0x10, 0x50, 0xF0)), Pci(PciData(0x20, 0x3, 0xFF))]

  /** The mask says which bits are cleared and the data which are set; other bits and registers stay. */
  lemma RunExample(p: Platform)
    ensures var after := Execute(p, TABLE, START);
            Read(after, MsrReg(0x10)) == 0x5F && Read(after, PciReg(0x20)) == 0xAB03 && Read(after, MsrReg(0x20)) == 0
  {
    var m, c := Update(MsrReg(0x10), 0xF0, 0x50), Update(PciReg(0x20), 0xFF, 0x3);
    assert Updates(p, TABLE[0], IsBsp(START)) == [m];
    ApplyOne(m, START);
    var mid := Apply(m, START);
    assert TABLE[..1] == [TABLE[0]] && TABLE[..1][..0] == [];
    assert Execute(p, TABLE[..1], START) == mid;
    assert Updates(p, TABLE[1], IsBsp(mid)) == [c];
    ApplyOne(c, mid);
  }

  lemma ApplyOne(u: Update, regs: Regs)
    ensures ApplyAll([u], regs) == Apply(u, regs)
  {
    hide Apply;
    assert [u][..0] == [] && ApplyAll([], regs) == regs;
  }

  const RANGE := SmnMulti(0xFF, 0x10, 0x14, 4, 0x5, 0x7)

  /** A range of two indices on all of two dies: die by die at the first index, then at the second. */
  lemma RangeExample(p: Platform)
    requires p.smuInstalled && p.dies == 2
    ensures Updates(p, RANGE, true)
            == [Update(SmnReg(0, 0x10), 0x7, 0x5), Update(SmnReg(1, 0x10), 0x7, 0x5),
                Update(SmnReg(0, 0x14), 0x7, 0x5), Update(SmnReg(1, 0x14), 0x7, 0x5)]
    ensures Updates(p, RANGE, false) == []
  {
    RangeSteps();
    assert Past(Nth(0x10, 4, 2), 0x14);
    hide Past, Next, SmnUpdates;
    var n := MultiStart(p, RANGE);
    MultiUpdatesUnique(p, RANGE, 0x10, n, 2);
    MultiStep(p, RANGE, 0x10, 2);
    MultiStep(p, RANGE, 0x14, 1);
    MultiStep(p, RANGE, 0x18, 0);
    OnTwoDies(p, 0x10);
    OnTwoDies(p, 0x14);
  }

  lemma RangeSteps()
    ensures !Past(0x10, 0x14) && !Past(0x14, 0x14) && Past(0x18, 0x14)
    ensures Next(0x10, 4) == 0x14 && Next(0x14, 4) == 0x18
    ensures Nth(0x10, 4, 2) == 0x18 && Nth(0x14, 4, 1) == 0x18
  {
  }

  lemma OnTwoDies(p: Platform, index: bv32)
    requires p.smuInstalled && p.dies == 2
    ensures SmnUpdates(p, 0xFF, index, 0x7, 0x5)
            == [Update(SmnReg(0, index), 0x7, 0x5), Update(SmnReg(1, index), 0x7, 0x5)]
  {
    assert OnDies(1, index, 0x7, 0x5) == [Update(SmnReg(0, index), 0x7, 0x5)];
  }
}
