/** What a register table does to the registers (xUSL/CCX/Common/AmdTable.c).

    Every handler is a read-modify-write that clears the bits of a mask and then sets the bits of
    a data word, on a register that the entry names, if the entry matches the platform. This module
    gives the meaning of an entry and of a table, reduces a whole run to a list of such updates,
    and shows what the run does to each bit. */
module AmdTableEffects {
  import opened Options
  import opened AmdTableFormat
  import opened SmnRange

  /** A register. PCI and SMN registers are 32 bits wide and use the low half of their value. */
  datatype Reg = MsrReg(address: bv32) | PciReg(address: bv32) | SmnReg(instance: bv32, index: bv32)

  type Regs = map<Reg, bv64>

  /** Clear the bits of the mask, then set the bits of the data. */
  datatype Update = Update(reg: Reg, mask: bv64, data: bv64)

  type uint32 = n: nat | n < 0x1_0000_0000

  /** ENTRY_CRITERIA, the number of dies the data fabric reports and whether the SMU
      interface is installed. */
  datatype Platform = Platform(soc: LogicalId, core: LogicalId, profile: bv32, features: bv32,
                               dies: uint32, smuInstalled: bool)

  const SMN_ON_ALL_DIES: bv32 := 0xFF
  const APIC_BAR := MsrReg(0x1B)
  const BSC_BIT: bv64 := 0x100

  function Read(regs: Regs, r: Reg): (v: bv64) {
    if r in regs then regs[r] else 0
  }

  /** xUslIsBsp: bit 8 of the APIC base register, read anew each time. */
  predicate IsBsp(regs: Regs) {
    Bit(Read(regs, APIC_BAR), BSC_BIT)
  }

  // ----- Matching -----

  function Common(x: bv32, y: bv32): (d: bv32) {
    x & y
  }

  function Wide(x: bv16): (y: bv32) {
    x as bv32
  }

  /** The 16-bit revisions are widened before they are compared. */
  predicate IdMatches(platform: LogicalId, entry: LogicalId) {
    && Common(platform.family, entry.family) != 0
    && Common(Wide(platform.revision), Wide(entry.revision)) != 0
  }

  /** DoesEntryTypeSpecificInfoMatch */
  predicate FeaturesMatch(platform: bv32, entry: bv32) {
    if entry & 0x8000_0000 == 0 then entry & platform != 0
    else entry & 0x7FFF_FFFF == entry & platform
  }

  // ----- The updates of one entry -----

  function MsrUpdate(m: MsrData): (u: Update) {
    Update(MsrReg(m.address), m.mask, m.data)
  }

  function PciUpdate(p: PciData): (u: Update) {
    Update(PciReg(p.address), p.mask as bv64, p.data as bv64)
  }

  function SmnUpdate(instance: bv32, index: bv32, mask: bv32, data: bv32): (u: Update) {
    Update(SmnReg(instance, index), mask as bv64, data as bv64)
  }

  function DieInstance(die: uint32): (instance: bv32) {
    die as bv32
  }

  function OnDies(dies: uint32, index: bv32, mask: bv32, data: bv32): (us: seq<Update>) {
    if dies == 0 then []
    else OnDies(dies - 1, index, mask, data) + [SmnUpdate(DieInstance(dies - 1), index, mask, data)]
  }

  /** SetSmnTableEntry */
  function SmnUpdates(p: Platform, instance: bv32, index: bv32, mask: bv32, data: bv32): (us: seq<Update>) {
    if !p.smuInstalled then []
    else if instance == SMN_ON_ALL_DIES then OnDies(p.dies, index, mask, data)
    else [SmnUpdate(instance, index, mask, data)]
  }

  ghost function MultiUpdatesIn(p: Platform, e: Entry, i: bv32, n: nat): (us: seq<Update>)
    requires e.SmnMulti? && Past(Nth(i, e.step, n), e.last)
    decreases n
  {
    if Past(i, e.last) then []
    else SmnUpdates(p, e.instance, i, e.smnMask, e.smnData) + MultiUpdatesIn(p, e, Next(i, e.step), n - 1)
  }

  ghost function MultiUpdates(p: Platform, e: Entry): (us: seq<Update>)
    requires e.SmnMulti?
  {
    if Leaves(e.first, e.last, e.step) then
      var n: nat :| Past(Nth(e.first, e.step, n), e.last);
      MultiUpdatesIn(p, e, e.first, n)
    else []
  }

  lemma MultiStart(p: Platform, e: Entry) returns (n: nat)
    requires e.SmnMulti? && Leaves(e.first, e.last, e.step)
    ensures Past(Nth(e.first, e.step, n), e.last) && MultiUpdates(p, e) == MultiUpdatesIn(p, e, e.first, n)
  {
    hide Past, Next;
    n :| Past(Nth(e.first, e.step, n), e.last) && MultiUpdates(p, e) == MultiUpdatesIn(p, e, e.first, n);
  }

  lemma MultiStep(p: Platform, e: Entry, i: bv32, n: nat)
    requires e.SmnMulti? && Past(Nth(i, e.step, n), e.last)
    ensures Past(i, e.last) ==> MultiUpdatesIn(p, e, i, n) == []
    ensures !Past(i, e.last) ==>
              && n > 0 && Past(Nth(Next(i, e.step), e.step, n - 1), e.last)
              && MultiUpdatesIn(p, e, i, n) == SmnUpdates(p, e.instance, i, e.smnMask, e.smnData)
                                               + MultiUpdatesIn(p, e, Next(i, e.step), n - 1)
  {
    hide Past, Next, SmnUpdates;
  }

  /** The entry is applied on this platform; the SMN entries only by the boot core. */
  predicate Matches(p: Platform, e: Entry, bsp: bool) {
    match e
    case Pci(_) => true
    case PciProfileFixup(feats, _) => FeaturesMatch(p.profile, feats)
    case PciCpuRev(id, _) => IdMatches(p.soc, id)
    case Msr(_) => true
    case MsrCpuRev(id, _) => IdMatches(p.soc, id)
    case MsrCoreRev(id, _) => IdMatches(p.core, id)
    case MsrPlatformFeat(feats, _) => FeaturesMatch(p.features, feats)
    case MsrCpuRevPlatformFeat(id, feats, _) => IdMatches(p.soc, id) && FeaturesMatch(p.features, feats)
    case Smn(_, _, _, _) => bsp
    case SmnMulti(_, _, _, _, _, _) => bsp
  }

  // ----- Matching, bit by bit -----

  /** A 32-bit word with a single one bit. */
  predicate IsBit32(w: bv32) {
    w != 0 && w & (w - 1) == 0
  }

  predicate Bit32(v: bv32, w: bv32) {
    v & w != 0
  }

  /** Some bit is set in both words. */
  ghost predicate ShareBit(x: bv32, y: bv32) {
    exists w :: IsBit32(w) && Bit32(x, w) && Bit32(y, w)
  }

  lemma LowestBit32(d: bv32) returns (w: bv32)
    requires d != 0
    ensures IsBit32(w) && Bit32(d, w)
  {
    w := d & (0 - d);
  }

  lemma BitOfBoth(x: bv32, y: bv32, w: bv32)
    requires Bit32(Common(x, y), w)
    ensures Bit32(x, w) && Bit32(y, w)
  {
  }

  lemma BothHaveBit(x: bv32, y: bv32, w: bv32)
    requires IsBit32(w) && Bit32(x, w) && Bit32(y, w)
    ensures Common(x, y) != 0
  {
    assert x & w == w && y & w == w;
  }

  lemma ShareBitIff(x: bv32, y: bv32)
    ensures ShareBit(x, y) <==> Common(x, y) != 0
  {
    hide IsBit32, Bit32, Common;
    if Common(x, y) != 0 {
      var w := LowestBit32(Common(x, y));
      BitOfBoth(x, y, w);
    }
    if ShareBit(x, y) {
      var w :| IsBit32(w) && Bit32(x, w) && Bit32(y, w);
      BothHaveBit(x, y, w);
    }
  }

  /** Bit 31 of the entry asks for all of its other bits, and for a platform word without bit 31;
      without bit 31 any bit of the entry will do. */
  ghost predicate FeaturesWanted(platform: bv32, entry: bv32) {
    if !Bit32(entry, 0x8000_0000) then exists w :: IsBit32(w) && Bit32(entry, w) && Bit32(platform, w)
    else
      && !Bit32(platform, 0x8000_0000)
      && forall w :: IsBit32(w) && w != 0x8000_0000 && Bit32(entry, w) ==> Bit32(platform, w)
  }

  /** The bits below bit 31 that the entry has and the platform has not. */
  function Missing(platform: bv32, entry: bv32): (d: bv32) {
    entry & 0x7FFF_FFFF & !platform
  }

  lemma MissingBit(platform: bv32, entry: bv32, w: bv32)
    requires IsBit32(w) && Bit32(Missing(platform, entry), w)
    ensures w != 0x8000_0000 && Bit32(entry, w) && !Bit32(platform, w)
  {
  }

  lemma LowBitKept(platform: bv32, entry: bv32, w: bv32)
    requires Missing(platform, entry) == 0 && IsBit32(w) && w != 0x8000_0000 && Bit32(entry, w)
    ensures Bit32(platform, w)
  {
  }

  lemma AllFound(platform: bv32, entry: bv32)
    requires Bit32(entry, 0x8000_0000) && FeaturesMatch(platform, entry)
    ensures !Bit32(platform, 0x8000_0000) && Missing(platform, entry) == 0
  {
    NoneMissing(platform, entry, entry & 0x7FFF_FFFF, entry & platform, Missing(platform, entry));
  }

  lemma NoneMissing(platform: bv32, entry: bv32, low: bv32, both: bv32, d: bv32)
    requires low == entry & 0x7FFF_FFFF && both == entry & platform && d == low & !platform
    requires Bit32(entry, 0x8000_0000) && low == both
    ensures !Bit32(platform, 0x8000_0000) && d == 0
  {
    assert low & 0x8000_0000 == 0;
    assert both & 0x8000_0000 == platform & 0x8000_0000;
    assert both & !platform == 0;
  }

  lemma AllNeeded(platform: bv32, entry: bv32)
    requires Bit32(entry, 0x8000_0000) && !Bit32(platform, 0x8000_0000) && Missing(platform, entry) == 0
    ensures FeaturesMatch(platform, entry)
  {
    assert entry & 0x7FFF_FFFF & platform == entry & 0x7FFF_FFFF;
  }

  lemma AnyFound(platform: bv32, entry: bv32)
    requires !Bit32(entry, 0x8000_0000)
    ensures FeaturesMatch(platform, entry) <==> Common(entry, platform) != 0
  {
  }

  lemma FeaturesMatchIff(platform: bv32, entry: bv32)
    ensures FeaturesMatch(platform, entry) <==> FeaturesWanted(platform, entry)
  {
    hide IsBit32, Bit32, FeaturesMatch, Common, Missing;
    if !Bit32(entry, 0x8000_0000) {
      AnyFound(platform, entry);
      ShareBitIff(entry, platform);
    } else if !Bit32(platform, 0x8000_0000) && Missing(platform, entry) == 0 {
      AllNeeded(platform, entry);
      forall w | IsBit32(w) && w != 0x8000_0000 && Bit32(entry, w)
        ensures Bit32(platform, w)
      {
        LowBitKept(platform, entry, w);
      }
    } else {
      if FeaturesMatch(platform, entry) {
        AllFound(platform, entry);
      }
      if Missing(platform, entry) != 0 {
        var w := LowestBit32(Missing(platform, entry));
        MissingBit(platform, entry, w);
      }
    }
  }

  /** A common family and a common revision. */
  ghost predicate IdWanted(platform: LogicalId, entry: LogicalId) {
    ShareBit(platform.family, entry.family) && ShareBit(Wide(platform.revision), Wide(entry.revision))
  }

  lemma IdMatchesIff(platform: LogicalId, entry: LogicalId)
    ensures IdMatches(platform, entry) <==> IdWanted(platform, entry)
  {
    hide ShareBit, Common, Wide;
    ShareBitIff(platform.family, entry.family);
    ShareBitIff(Wide(platform.revision), Wide(entry.revision));
  }

  /** Which word of the platform each kind of entry is compared with: profile fixups with the profile,
      core revisions with the core, all other revisions with the SoC, features with the features. */
  lemma MatchesIff(p: Platform, e: Entry, bsp: bool)
    ensures e.Pci? || e.Msr? ==> Matches(p, e, bsp)
    ensures e.PciProfileFixup? ==> (Matches(p, e, bsp) <==> FeaturesWanted(p.profile, e.feats))
    ensures e.PciCpuRev? || e.MsrCpuRev? ==> (Matches(p, e, bsp) <==> IdWanted(p.soc, e.id))
    ensures e.MsrCoreRev? ==> (Matches(p, e, bsp) <==> IdWanted(p.core, e.id))
    ensures e.MsrPlatformFeat? ==> (Matches(p, e, bsp) <==> FeaturesWanted(p.features, e.feats))
    ensures e.MsrCpuRevPlatformFeat? ==>
              (Matches(p, e, bsp) <==> IdWanted(p.soc, e.id) && FeaturesWanted(p.features, e.feats))
    ensures e.Smn? || e.SmnMulti? ==> (Matches(p, e, bsp) <==> bsp)
  {
    hide FeaturesMatch, IdMatches, FeaturesWanted, IdWanted;
    if e.PciProfileFixup? {
      FeaturesMatchIff(p.profile, e.feats);
    }
    if e.MsrPlatformFeat? || e.MsrCpuRevPlatformFeat? {
      FeaturesMatchIff(p.features, e.feats);
    }
    if e.PciCpuRev? || e.MsrCpuRev? || e.MsrCpuRevPlatformFeat? {
      IdMatchesIff(p.soc, e.id);
    }
    if e.MsrCoreRev? {
      IdMatchesIff(p.core, e.id);
    }
  }

  predicate IsMsr(e: Entry) {
    e.Msr? || e.MsrCpuRev? || e.MsrCoreRev? || e.MsrPlatformFeat? || e.MsrCpuRevPlatformFeat?
  }

  predicate IsSmn(e: Entry) {
    e.Smn? || e.SmnMulti?
  }

  /** The updates an entry performs when bit 8 of the APIC base register is `bsp`. */
  ghost function Updates(p: Platform, e: Entry, bsp: bool): (us: seq<Update>) {
    if !Matches(p, e, bsp) then []
    else if IsMsr(e) then [MsrUpdate(e.msr)]
    else if e.Smn? then SmnUpdates(p, e.instance, e.index, e.smnMask, e.smnData)
    else if e.SmnMulti? then MultiUpdates(p, e)
    else [PciUpdate(e.pci)]
  }

  // ----- Running updates and entries -----

  /** The read-modify-write of every handler. */
  function Modify(v: bv64, mask: bv64, data: bv64): (v': bv64) {
    (v & !mask) | data
  }

  function Apply(u: Update, regs: Regs): (regs': Regs) {
    regs[u.reg := Modify(Read(regs, u.reg), u.mask, u.data)]
  }

  function ApplyAll(us: seq<Update>, regs: Regs): (regs': Regs) {
    if us == [] then regs else Apply(us[|us| - 1], ApplyAll(us[..|us| - 1], regs))
  }

  /** The run of a table: each entry in turn, with the boot-core test made in the state it finds. */
  ghost function Execute(p: Platform, es: seq<Entry>, regs: Regs): (regs': Regs) {
    if es == [] then regs
    else
      var before := Execute(p, es[..|es| - 1], regs);
      ApplyAll(Updates(p, es[|es| - 1], IsBsp(before)), before)
  }

  lemma {:induction false} ApplyAllAppend(us: seq<Update>, vs: seq<Update>, regs: Regs)
    ensures ApplyAll(us + vs, regs) == ApplyAll(vs, ApplyAll(us, regs))
    decreases |vs|
  {
    if vs == [] {
      assert us + vs == us;
    } else {
      var n := |vs| - 1;
      assert (us + vs)[..|us + vs| - 1] == us + vs[..n];
      ApplyAllAppend(us, vs[..n], regs);
    }
  }

  lemma {:induction false} ExecuteAppend(p: Platform, es: seq<Entry>, fs: seq<Entry>, regs: Regs)
    ensures Execute(p, es + fs, regs) == Execute(p, fs, Execute(p, es, regs))
    decreases |fs|
  {
    if fs == [] {
      assert es + fs == es;
    } else {
      var n := |fs| - 1;
      assert (es + fs)[..|es + fs| - 1] == es + fs[..n];
      ExecuteAppend(p, es, fs[..n], regs);
    }
  }

  lemma {:induction false} MultiUpdatesUnique(p: Platform, e: Entry, i: bv32, n: nat, m: nat)
    requires e.SmnMulti? && Past(Nth(i, e.step, n), e.last) && Past(Nth(i, e.step, m), e.last)
    ensures MultiUpdatesIn(p, e, i, n) == MultiUpdatesIn(p, e, i, m)
    decreases n
  {
    hide Next, Past, SmnUpdates;
    if !Past(i, e.last) {
      MultiUpdatesUnique(p, e, Next(i, e.step), n - 1, m - 1);
    }
  }

  // ----- One word per register: (v & A) | O -----

  /** The bits of register r that survive the updates, and the bits they set. */
  function KeptBits(us: seq<Update>, r: Reg): (a: bv64) {
    if us == [] then 0xFFFF_FFFF_FFFF_FFFF
    else
      var u := us[|us| - 1];
      if u.reg == r then Modify(KeptBits(us[..|us| - 1], r), u.mask, 0) else KeptBits(us[..|us| - 1], r)
  }

  function SetBits(us: seq<Update>, r: Reg): (o: bv64) {
    if us == [] then 0
    else
      var u := us[|us| - 1];
      if u.reg == r then Modify(SetBits(us[..|us| - 1], r), u.mask, u.data) else SetBits(us[..|us| - 1], r)
  }

  function AndOr(v: bv64, a: bv64, o: bv64): (v': bv64) {
    (v & a) | o
  }

  lemma ModifyAndOr(v: bv64, a: bv64, o: bv64, mask: bv64, data: bv64, x: bv64, a': bv64, o': bv64)
    requires x == AndOr(v, a, o) && a' == Modify(a, mask, 0) && o' == Modify(o, mask, data)
    ensures Modify(x, mask, data) == AndOr(v, a', o')
  {
  }

  lemma AndOrUnit(v: bv64)
    ensures AndOr(v, 0xFFFF_FFFF_FFFF_FFFF, 0) == v
  {
  }

  /** Any list of updates acts on each register as one AND and one OR that do not depend on the
      value the register holds. */
  lemma {:induction false} NormalForm(us: seq<Update>, regs: Regs, r: Reg)
    ensures Read(ApplyAll(us, regs), r) == AndOr(Read(regs, r), KeptBits(us, r), SetBits(us, r))
  {
    hide Modify, AndOr;
    if us == [] {
      AndOrUnit(Read(regs, r));
    } else {
      var u := us[|us| - 1];
      var init := us[..|us| - 1];
      NormalForm(init, regs, r);
      if u.reg == r {
        ModifyAndOr(Read(regs, r), KeptBits(init, r), SetBits(init, r), u.mask, u.data,
                    Read(ApplyAll(init, regs), r), KeptBits(us, r), SetBits(us, r));
      }
    }
  }

  // ----- Last writer wins, bit by bit -----

  /** A word with a single one bit: the name of a bit. */
  predicate IsBit(w: bv64) {
    w != 0 && w & (w - 1) == 0
  }

  predicate Bit(v: bv64, w: bv64) {
    v & w != 0
  }

  predicate Writes(u: Update, r: Reg, w: bv64) {
    u.reg == r && (Bit(u.mask, w) || Bit(u.data, w))
  }

  /** The value that the last update to write bit w of register r leaves there. */
  function LastWrite(us: seq<Update>, r: Reg, w: bv64): (b: Option<bool>) {
    if us == [] then None
    else
      var u := us[|us| - 1];
      if Writes(u, r, w) then Some(Bit(u.data, w)) else LastWrite(us[..|us| - 1], r, w)
  }

  function OrElse(b: Option<bool>, otherwise: bool): (r: bool) {
    if b.Some? then b.value else otherwise
  }

  lemma MaskedBit(v: bv64, mask: bv64, data: bv64, m: bv64, w: bv64)
    requires IsBit(w) && m == (v & !mask) | data
    ensures Bit(m, w) == if Bit(mask, w) || Bit(data, w) then Bit(data, w) else Bit(v, w)
  {
  }

  lemma ModifyBit(v: bv64, mask: bv64, data: bv64, w: bv64)
    requires IsBit(w)
    ensures Bit(Modify(v, mask, data), w) == if Bit(mask, w) || Bit(data, w) then Bit(data, w) else Bit(v, w)
  {
    hide Bit, IsBit;
    MaskedBit(v, mask, data, Modify(v, mask, data), w);
  }

  lemma {:induction false} BitAfter(us: seq<Update>, regs: Regs, r: Reg, w: bv64)
    requires IsBit(w)
    ensures Bit(Read(ApplyAll(us, regs), r), w) == OrElse(LastWrite(us, r, w), Bit(Read(regs, r), w))
  {
    hide Bit, Modify, IsBit;
    if us != [] {
      var u := us[|us| - 1];
      var init := us[..|us| - 1];
      BitAfter(init, regs, r, w);
      ModifyBit(Read(ApplyAll(init, regs), r), u.mask, u.data, w);
    }
  }

  lemma {:induction false} LastWriteAppend(us: seq<Update>, vs: seq<Update>, r: Reg, w: bv64)
    ensures LastWrite(us + vs, r, w) == if LastWrite(vs, r, w).Some? then LastWrite(vs, r, w) else LastWrite(us, r, w)
    decreases |vs|
  {
    hide Writes, Bit;
    if vs == [] {
      assert us + vs == us;
    } else {
      var n := |vs| - 1;
      assert (us + vs)[..|us + vs| - 1] == us + vs[..n];
      LastWriteAppend(us, vs[..n], r, w);
    }
  }

  lemma DifferingBit(x: bv64, y: bv64) returns (w: bv64)
    requires x != y
    ensures IsBit(w) && Bit(x, w) != Bit(y, w)
  {
    var d := x ^ y;
    w := d & (0 - d);
    LowestBit(d, w);
    BitOfXor(x, y, d, w);
  }

  lemma LowestBit(d: bv64, w: bv64)
    requires d != 0 && w == d & (0 - d)
    ensures IsBit(w) && Bit(d, w)
  {
  }

  lemma BitOfXor(x: bv64, y: bv64, d: bv64, w: bv64)
    requires d == x ^ y && IsBit(w) && Bit(d, w)
    ensures Bit(x, w) != Bit(y, w)
  {
  }

  lemma WordsAgree(x: bv64, y: bv64)
    requires forall w :: IsBit(w) ==> Bit(x, w) == Bit(y, w)
    ensures x == y
  {
    hide IsBit, Bit;
    if x != y {
      var w := DifferingBit(x, y);
      assert false;
    }
  }

  // ----- A table as one list of updates -----

  /** Bit 8 of the APIC base register after the updates, if it was b before them. */
  function BspAfter(us: seq<Update>, b: bool): (b': bool) {
    OrElse(LastWrite(us, APIC_BAR, BSC_BIT), b)
  }

  /** All updates of a run that starts with boot-core bit b, in order. */
  ghost function Effects(p: Platform, es: seq<Entry>, b: bool): (us: seq<Update>) {
    if es == [] then []
    else
      var before := Effects(p, es[..|es| - 1], b);
      before + Updates(p, es[|es| - 1], BspAfter(before, b))
  }

  lemma {:induction false} ExecuteIsEffects(p: Platform, es: seq<Entry>, regs: Regs)
    ensures Execute(p, es, regs) == ApplyAll(Effects(p, es, IsBsp(regs)), regs)
    ensures IsBsp(Execute(p, es, regs)) == BspAfter(Effects(p, es, IsBsp(regs)), IsBsp(regs))
  {
    hide Updates, Apply, Bit, Writes;
    if es != [] {
      var init := es[..|es| - 1];
      ExecuteIsEffects(p, init, regs);
      var before := Effects(p, init, IsBsp(regs));
      ApplyAllAppend(before, Updates(p, es[|es| - 1], BspAfter(before, IsBsp(regs))), regs);
    }
    assert IsBit(BSC_BIT);
    BitAfter(Effects(p, es, IsBsp(regs)), regs, APIC_BAR, BSC_BIT);
  }

  /** The entry does not match, or does not write the boot-core bit. */
  predicate KeepsBscBit(p: Platform, e: Entry) {
    IsMsr(e) && Matches(p, e, true) ==> !Writes(MsrUpdate(e.msr), APIC_BAR, BSC_BIT)
  }

  lemma {:induction false} BscBitKept(p: Platform, es: seq<Entry>, b: bool)
    requires forall e :: e in es ==> KeepsBscBit(p, e)
    ensures LastWrite(Effects(p, es, b), APIC_BAR, BSC_BIT) == None
    ensures BspAfter(Effects(p, es, b), b) == b
  {
    hide Bit, KeepsBscBit;
    if es != [] {
      var init, e := es[..|es| - 1], es[|es| - 1];
      BscBitKept(p, init, b);
      BscBitNotWritten(p, e, b);
      LastWriteAppend(Effects(p, init, b), Updates(p, e, b), APIC_BAR, BSC_BIT);
    }
  }

  lemma BscBitNotWritten(p: Platform, e: Entry, b: bool)
    requires KeepsBscBit(p, e)
    ensures LastWrite(Updates(p, e, b), APIC_BAR, BSC_BIT) == None
  {
    hide Bit, Matches;
    UpdatesByKind(p, e, APIC_BAR, BSC_BIT);
    if IsMsr(e) && Updates(p, e, true) != [] {
      assert Updates(p, e, true) == [MsrUpdate(e.msr)];
    }
  }

  // ----- When a run ends -----

  /** The index loops of the SMN entries that this run performs come to an end. */
  ghost predicate Runnable(p: Platform, es: seq<Entry>, regs: Regs) {
    es == [] ||
    var init, e := es[..|es| - 1], es[|es| - 1];
    && Runnable(p, init, regs)
    && (e.SmnMulti? && IsBsp(Execute(p, init, regs)) ==> Stops(e.first, e.last, e.step))
  }

  lemma {:induction false} RunnableAppend(p: Platform, es: seq<Entry>, fs: seq<Entry>, regs: Regs)
    ensures Runnable(p, es + fs, regs) <==> Runnable(p, es, regs) && Runnable(p, fs, Execute(p, es, regs))
    decreases |fs|
  {
    hide IsBsp, Stops, Execute;
    if fs == [] {
      assert es + fs == es;
    } else {
      var init := fs[..|fs| - 1];
      assert (es + fs)[..|es + fs| - 1] == es + init;
      RunnableAppend(p, es, init, regs);
      ExecuteAppend(p, es, init, regs);
    }
  }

  /** The same, from the start value b of the boot-core bit alone. */
  ghost predicate Ends(p: Platform, es: seq<Entry>, b: bool) {
    es == [] ||
    var init, e := es[..|es| - 1], es[|es| - 1];
    && Ends(p, init, b)
    && (e.SmnMulti? && BspAfter(Effects(p, init, b), b) ==> Stops(e.first, e.last, e.step))
  }

  lemma {:induction false} RunnableIff(p: Platform, es: seq<Entry>, regs: Regs)
    ensures Runnable(p, es, regs) <==> Ends(p, es, IsBsp(regs))
  {
    hide IsBsp, Stops, Execute, Effects, BspAfter;
    if es != [] {
      var init := es[..|es| - 1];
      RunnableIff(p, init, regs);
      ExecuteIsEffects(p, init, regs);
    }
  }

  /** Last writer wins over a whole run: a bit that update i writes and no later update writes
      ends as the data bit of update i; a bit that none writes keeps its old value. */
  lemma LastWriterWins(p: Platform, es: seq<Entry>, regs: Regs, r: Reg, w: bv64)
    requires IsBit(w)
    ensures var us := Effects(p, es, IsBsp(regs));
            var after := Bit(Read(Execute(p, es, regs), r), w);
            && (forall i :: 0 <= i < |us| && LastWriter(us, r, w, i) ==> after == Bit(us[i].data, w))
            && ((forall i :: 0 <= i < |us| ==> !Writes(us[i], r, w)) ==> after == Bit(Read(regs, r), w))
  {
    hide Bit, Writes, IsBit, Updates, Execute, ApplyAll;
    var us := Effects(p, es, IsBsp(regs));
    ExecuteIsEffects(p, es, regs);
    BitAfter(us, regs, r, w);
    forall i | 0 <= i < |us| && LastWriter(us, r, w, i)
      ensures LastWrite(us, r, w) == Some(Bit(us[i].data, w))
    {
      LastWriteAt(us, r, w, i);
    }
    if forall i :: 0 <= i < |us| ==> !Writes(us[i], r, w) {
      NoWrite(us, r, w);
    }
  }

  ghost predicate LastWriter(us: seq<Update>, r: Reg, w: bv64, i: nat)
    requires i < |us|
  {
    Writes(us[i], r, w) && forall j :: i < j < |us| ==> !Writes(us[j], r, w)
  }

  lemma {:induction false} LastWriteAt(us: seq<Update>, r: Reg, w: bv64, i: nat)
    requires i < |us| && LastWriter(us, r, w, i)
    ensures LastWrite(us, r, w) == Some(Bit(us[i].data, w))
  {
    hide Bit, Writes;
    if i < |us| - 1 {
      LastWriteAt(us[..|us| - 1], r, w, i);
    }
  }

  lemma {:induction false} NoWrite(us: seq<Update>, r: Reg, w: bv64)
    requires forall i :: 0 <= i < |us| ==> !Writes(us[i], r, w)
    ensures LastWrite(us, r, w) == None
  {
    hide Bit, Writes;
    if us != [] {
      NoWrite(us[..|us| - 1], r, w);
    }
  }

  // ----- What each kind of entry writes -----

  function DataOf(e: Entry): (d: bv64) {
    if IsMsr(e) then e.msr.data else if IsSmn(e) then e.smnData as bv64 else e.pci.data as bv64
  }

  function MaskOf(e: Entry): (m: bv64) {
    if IsMsr(e) then e.msr.mask else if IsSmn(e) then e.smnMask as bv64 else e.pci.mask as bv64
  }

  /** Register r lies on an instance that the SMN entry addresses. */
  predicate OnInstance(p: Platform, instance: bv32, r: Reg) {
    && r.SmnReg? && p.smuInstalled
    && if instance == SMN_ON_ALL_DIES then IsDie(p.dies, r.instance) else r.instance == instance
  }

  predicate IsDie(dies: uint32, instance: bv32) {
    exists d :: 0 <= d < dies && DieInstance(d) == instance
  }

  /** The entry names register r. */
  ghost predicate Addresses(p: Platform, e: Entry, r: Reg) {
    if IsMsr(e) then r == MsrReg(e.msr.address)
    else if e.Smn? then OnInstance(p, e.instance, r) && r.index == e.index
    else if e.SmnMulti? then
      && OnInstance(p, e.instance, r)
      && Leaves(e.first, e.last, e.step) && Visits(e.first, e.last, e.step, r.index)
    else r == PciReg(e.pci.address)
  }

  predicate Touches(e: Entry, w: bv64) {
    Bit(MaskOf(e), w) || Bit(DataOf(e), w)
  }

  /** The entry is applied, given the boot-core bit it finds, and writes bit w of register r. */
  ghost predicate EntryWrites(p: Platform, e: Entry, bsp: bool, r: Reg, w: bv64) {
    Matches(p, e, bsp) && Addresses(p, e, r) && Touches(e, w)
  }

  function Written(e: Entry, writes: bool, w: bv64): (b: Option<bool>) {
    if writes then Some(Bit(DataOf(e), w)) else None
  }

  lemma OneUpdate(u: Update, e: Entry, r: Reg, w: bv64)
    requires u.data == DataOf(e) && u.mask == MaskOf(e)
    ensures LastWrite([u], r, w) == Written(e, r == u.reg && Touches(e, w), w)
  {
    hide Bit, DataOf, MaskOf;
    assert [u][..0] == [];
  }

  lemma SmnUpdateOf(e: Entry, instance: bv32, index: bv32)
    requires IsSmn(e)
    ensures SmnUpdate(instance, index, e.smnMask, e.smnData) == Update(SmnReg(instance, index), MaskOf(e), DataOf(e))
  {
  }

  lemma {:induction false} OnDiesWrite(dies: uint32, e: Entry, index: bv32, r: Reg, w: bv64)
    requires IsSmn(e)
    ensures LastWrite(OnDies(dies, index, e.smnMask, e.smnData), r, w)
            == Written(e, r.SmnReg? && IsDie(dies, r.instance) && r.index == index && Touches(e, w), w)
  {
    hide Bit, DieInstance, LastWrite, DataOf, MaskOf, Touches, SmnUpdate;
    if dies == 0 {
      NoWrite([], r, w);
    } else {
      var d := DieInstance(dies - 1);
      OnDiesWrite(dies - 1, e, index, r, w);
      SmnUpdateOf(e, d, index);
      OneUpdate(SmnUpdate(d, index, e.smnMask, e.smnData), e, r, w);
      LastWriteAppend(OnDies(dies - 1, index, e.smnMask, e.smnData), [SmnUpdate(d, index, e.smnMask, e.smnData)], r, w);
      if r.SmnReg? {
        LastDie(dies, r.instance);
      }
    }
  }

  lemma LastDie(dies: uint32, instance: bv32)
    requires dies > 0
    ensures IsDie(dies, instance) <==> IsDie(dies - 1, instance) || instance == DieInstance(dies - 1)
  {
    hide DieInstance;
  }

  lemma SmnUpdatesWrite(p: Platform, e: Entry, index: bv32, r: Reg, w: bv64)
    requires IsSmn(e)
    ensures LastWrite(SmnUpdates(p, e.instance, index, e.smnMask, e.smnData), r, w)
            == Written(e, OnInstance(p, e.instance, r) && r.index == index && Touches(e, w), w)
  {
    hide Bit, LastWrite, OnDies, IsDie, DataOf, MaskOf, Touches, SmnUpdate;
    NoWrite([], r, w);
    OnDiesWrite(p.dies, e, index, r, w);
    SmnUpdateOf(e, e.instance, index);
    OneUpdate(SmnUpdate(e.instance, index, e.smnMask, e.smnData), e, r, w);
  }

  lemma {:induction false} MultiUpdatesWrite(p: Platform, e: Entry, i: bv32, n: nat, r: Reg, w: bv64)
    requires e.SmnMulti? && Past(Nth(i, e.step, n), e.last)
    ensures LastWrite(MultiUpdatesIn(p, e, i, n), r, w)
            == Written(e, OnInstance(p, e.instance, r) && Visits(i, e.last, e.step, r.index) && Touches(e, w), w)
    decreases n
  {
    hide Bit, Past, Next, SmnUpdates, LastWrite, OnInstance, Visits, Touches;
    if r.SmnReg? {
      VisitsStep(i, e.last, e.step, r.index);
    }
    NotOnInstance(p, e.instance, r);
    if Past(i, e.last) {
      NoWrite([], r, w);
    } else {
      var us := SmnUpdates(p, e.instance, i, e.smnMask, e.smnData);
      SmnUpdatesWrite(p, e, i, r, w);
      MultiUpdatesWrite(p, e, Next(i, e.step), n - 1, r, w);
      LastWriteAppend(us, MultiUpdatesIn(p, e, Next(i, e.step), n - 1), r, w);
    }
  }

  lemma NotOnInstance(p: Platform, instance: bv32, r: Reg)
    ensures OnInstance(p, instance, r) ==> r.SmnReg?
  {
  }

  /** An entry's updates write exactly the bits that the table says, with the table's data. */
  lemma UpdatesWrite(p: Platform, e: Entry, bsp: bool, r: Reg, w: bv64)
    ensures LastWrite(Updates(p, e, bsp), r, w) == Written(e, EntryWrites(p, e, bsp, r, w), w)
  {
    hide Bit, Matches, LastWrite, SmnUpdates, MultiUpdates, OnInstance, DataOf, MaskOf, Touches, MsrUpdate, PciUpdate;
    if !Matches(p, e, bsp) {
      NoWrite([], r, w);
    } else if e.Smn? {
      NotOnInstance(p, e.instance, r);
      SmnUpdatesWrite(p, e, e.index, r, w);
    } else if e.SmnMulti? {
      MultiWrites(p, e, r, w);
    } else {
      PlainUpdateOf(e);
      OneUpdate(if IsMsr(e) then MsrUpdate(e.msr) else PciUpdate(e.pci), e, r, w);
    }
  }

  lemma PlainUpdateOf(e: Entry)
    requires !IsSmn(e)
    ensures if IsMsr(e) then MsrUpdate(e.msr) == Update(MsrReg(e.msr.address), MaskOf(e), DataOf(e))
            else PciUpdate(e.pci) == Update(PciReg(e.pci.address), MaskOf(e), DataOf(e))
  {
  }

  lemma MultiWrites(p: Platform, e: Entry, r: Reg, w: bv64)
    requires e.SmnMulti?
    ensures LastWrite(MultiUpdates(p, e), r, w) == Written(e, Addresses(p, e, r) && Touches(e, w), w)
  {
    hide Bit, LastWrite, OnInstance, Visits, Touches, Past;
    NotOnInstance(p, e.instance, r);
    NoWrite([], r, w);
    if Leaves(e.first, e.last, e.step) {
      var n: nat :| Past(Nth(e.first, e.step, n), e.last)
                    && MultiUpdates(p, e) == MultiUpdatesIn(p, e, e.first, n);
      MultiUpdatesWrite(p, e, e.first, n, r, w);
    }
  }

  /** An SMN entry writes only SMN registers; any other entry does the same on every core and
      writes no SMN register. */
  lemma UpdatesByKind(p: Platform, e: Entry, r: Reg, w: bv64)
    ensures IsSmn(e) && !r.SmnReg? ==> LastWrite(Updates(p, e, true), r, w) == None
    ensures IsSmn(e) ==> Updates(p, e, false) == []
    ensures !IsSmn(e) ==> Updates(p, e, true) == Updates(p, e, false)
    ensures !IsSmn(e) && r.SmnReg? ==> LastWrite(Updates(p, e, true), r, w) == None
  {
    hide Bit, IdMatches, FeaturesMatch, LastWrite, SmnUpdates, MultiUpdates;
    UpdatesWrite(p, e, true, r, w);
  }

  // ----- A run in table terms -----

  /** Entry i is applied, given the boot-core bit the run has by then, and writes bit w of register r. */
  ghost predicate WritesAt(p: Platform, es: seq<Entry>, b: bool, r: Reg, w: bv64, i: nat)
    requires i < |es|
  {
    EntryWrites(p, es[i], BspAfter(Effects(p, es[..i], b), b), r, w)
  }

  ghost predicate LastEntry(p: Platform, es: seq<Entry>, b: bool, r: Reg, w: bv64, i: nat)
    requires i < |es|
  {
    WritesAt(p, es, b, r, w, i) && forall j :: i < j < |es| ==> !WritesAt(p, es, b, r, w, j)
  }

  lemma EffectsStep(p: Platform, es: seq<Entry>, b: bool, r: Reg, w: bv64)
    requires es != []
    ensures var n := |es| - 1;
            LastWrite(Effects(p, es, b), r, w)
            == if WritesAt(p, es, b, r, w, n) then Some(Bit(DataOf(es[n]), w))
               else LastWrite(Effects(p, es[..n], b), r, w)
  {
    hide Bit, Updates, EntryWrites, LastWrite, DataOf, BspAfter;
    var before := Effects(p, es[..|es| - 1], b);
    UpdatesWrite(p, es[|es| - 1], BspAfter(before, b), r, w);
    LastWriteAppend(before, Updates(p, es[|es| - 1], BspAfter(before, b)), r, w);
  }

  lemma WritesInFront(p: Platform, es: seq<Entry>, b: bool, r: Reg, w: bv64, i: nat)
    requires i < |es| - 1
    ensures WritesAt(p, es[..|es| - 1], b, r, w, i) == WritesAt(p, es, b, r, w, i)
  {
    hide EntryWrites, Effects, BspAfter;
    assert es[..|es| - 1][..i] == es[..i];
  }

  lemma {:induction false} EntryLastWrite(p: Platform, es: seq<Entry>, b: bool, r: Reg, w: bv64, i: nat)
    requires i < |es| && LastEntry(p, es, b, r, w, i)
    ensures LastWrite(Effects(p, es, b), r, w) == Some(Bit(DataOf(es[i]), w))
  {
    hide Bit, WritesAt, LastWrite, Effects, DataOf;
    EffectsStep(p, es, b, r, w);
    if i < |es| - 1 {
      var init := es[..|es| - 1];
      forall j | i <= j < |init|
        ensures WritesAt(p, init, b, r, w, j) == WritesAt(p, es, b, r, w, j)
      {
        WritesInFront(p, es, b, r, w, j);
      }
      EntryLastWrite(p, init, b, r, w, i);
    }
  }

  lemma {:induction false} EntryNoWrite(p: Platform, es: seq<Entry>, b: bool, r: Reg, w: bv64)
    requires forall i :: 0 <= i < |es| ==> !WritesAt(p, es, b, r, w, i)
    ensures LastWrite(Effects(p, es, b), r, w) == None
  {
    hide Bit, WritesAt, LastWrite, DataOf;
    if es == [] {
      NoWrite([], r, w);
    } else {
      EffectsStep(p, es, b, r, w);
      var init := es[..|es| - 1];
      forall j | 0 <= j < |init|
        ensures !WritesAt(p, init, b, r, w, j)
      {
        WritesInFront(p, es, b, r, w, j);
      }
      EntryNoWrite(p, init, b, r, w);
    }
  }

  /** In table terms: after a run, each bit of each register holds the data bit of the last entry
      that is applied and writes it, and its old value if no such entry does. */
  lemma LastMatchingEntryWins(p: Platform, es: seq<Entry>, regs: Regs, r: Reg, w: bv64)
    requires IsBit(w)
    ensures var b := IsBsp(regs);
            var after := Bit(Read(Execute(p, es, regs), r), w);
            && (forall i :: 0 <= i < |es| && LastEntry(p, es, b, r, w, i) ==> after == Bit(DataOf(es[i]), w))
            && ((forall i :: 0 <= i < |es| ==> !WritesAt(p, es, b, r, w, i)) ==> after == Bit(Read(regs, r), w))
  {
    hide Bit, IsBit, Execute, Effects, LastWrite, WritesAt, DataOf, IsBsp, LastEntry;
    var b := IsBsp(regs);
    ExecuteIsEffects(p, es, regs);
    BitAfter(Effects(p, es, b), regs, r, w);
    forall i | 0 <= i < |es| && LastEntry(p, es, b, r, w, i)
      ensures LastWrite(Effects(p, es, b), r, w) == Some(Bit(DataOf(es[i]), w))
    {
      EntryLastWrite(p, es, b, r, w, i);
    }
    if forall i :: 0 <= i < |es| ==> !WritesAt(p, es, b, r, w, i) {
      EntryNoWrite(p, es, b, r, w);
    }
  }
}
