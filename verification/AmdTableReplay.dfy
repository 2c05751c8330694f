/** Processing the same table again (xUSL/CCX/Common/AmdTable.h:69-73: every core may process
    every setting, it is only slower).

    Replaying a table changes nothing except in one situation. The SMN handlers read bit 8 of the
    APIC base register each time, and an MSR entry of the same table may write that bit. A core
    that starts as not the boot core and is made one by the table performs, on the second pass,
    SMN entries it skipped on the first, and their index loops may not end. */
module AmdTableReplay {
  import opened Options
  import opened AmdTableFormat
  import opened SmnRange
  import opened AmdTableEffects

  ghost predicate SameRegs(a: Regs, b: Regs) {
    forall r :: Read(a, r) == Read(b, r)
  }

  /** A run that starts without the boot-core bit ends and turns it on, and a run that starts with it
      writes a bit the first does not write, or does not end. */
  ghost predicate ReplayHazard(p: Platform, es: seq<Entry>) {
    && Ends(p, es, false)
    && BspAfter(Effects(p, es, false), false)
    && (!Ends(p, es, true) || exists r, w :: IsBit(w) && WrittenOnlyOnBsp(p, es, r, w))
  }

  ghost predicate WrittenOnlyOnBsp(p: Platform, es: seq<Entry>, r: Reg, w: bv64) {
    LastWrite(Effects(p, es, true), r, w).Some? && LastWrite(Effects(p, es, false), r, w).None?
  }

  /** While the boot-core bit stays unwritten, a core that is not the boot core writes no SMN
      register; and whatever it writes, the boot core writes with the same last value. */
  lemma {:induction false} BspOnlyAdds(p: Platform, es: seq<Entry>, r: Reg, w: bv64)
    ensures LastWrite(Effects(p, es, false), APIC_BAR, BSC_BIT).None? && r.SmnReg?
            ==> LastWrite(Effects(p, es, false), r, w).None?
    ensures LastWrite(Effects(p, es, false), r, w).Some?
            ==> LastWrite(Effects(p, es, true), r, w) == LastWrite(Effects(p, es, false), r, w)
  {
    hide Bit, Updates, LastWrite;
    if es == [] {
      NoWrite([], r, w);
    } else {
      var init, e := es[..|es| - 1], es[|es| - 1];
      var on, off := Effects(p, init, true), Effects(p, init, false);
      BspOnlyAdds(p, init, r, w);
      BspOnlyAdds(p, init, APIC_BAR, BSC_BIT);
      UpdatesByKind(p, e, r, w);
      UpdatesByKind(p, e, APIC_BAR, BSC_BIT);
      LastWriteAppend(on, Updates(p, e, BspAfter(on, true)), r, w);
      LastWriteAppend(off, Updates(p, e, BspAfter(off, false)), r, w);
      LastWriteAppend(off, Updates(p, e, BspAfter(off, false)), APIC_BAR, BSC_BIT);
      NoWrite([], r, w);
    }
  }

  lemma ReplayBit(p: Platform, es: seq<Entry>, regs: Regs, r: Reg, w: bv64)
    requires IsBit(w)
    requires IsBsp(regs) || !BspAfter(Effects(p, es, false), false) || !WrittenOnlyOnBsp(p, es, r, w)
    ensures var once := Execute(p, es, regs);
            Bit(Read(Execute(p, es, once), r), w) == Bit(Read(once, r), w)
  {
    hide Bit, IsBit, Execute, Effects, LastWrite, IsBsp;
    var once := Execute(p, es, regs);
    ExecuteIsEffects(p, es, regs);
    ExecuteIsEffects(p, es, once);
    BitAfter(Effects(p, es, IsBsp(regs)), regs, r, w);
    BitAfter(Effects(p, es, IsBsp(once)), once, r, w);
    BspOnlyAdds(p, es, r, w);
  }

  /** A run that ends with the boot-core bit on at the start also ends with it off. */
  lemma {:induction false} EndsWithout(p: Platform, es: seq<Entry>)
    requires Ends(p, es, true)
    ensures Ends(p, es, false)
  {
    hide Stops, Effects, LastWrite;
    if es != [] {
      var init := es[..|es| - 1];
      EndsWithout(p, init);
      BspOnlyAdds(p, init, APIC_BAR, BSC_BIT);
    }
  }

  /** The second pass ends, and leaves every register as the first did. */
  ghost predicate Replays(p: Platform, es: seq<Entry>, regs: Regs) {
    var once := Execute(p, es, regs);
    Runnable(p, es, once) && SameRegs(Execute(p, es, once), once)
  }

  /** From every start state from which the first pass ends, the second pass ends and changes no
      register, if and only if the table has no replay hazard. */
  lemma ReplayIffNoHazard(p: Platform, es: seq<Entry>)
    ensures (forall regs :: Runnable(p, es, regs) ==> Replays(p, es, regs)) <==> !ReplayHazard(p, es)
  {
    hide Bit, IsBit, Execute, Effects, LastWrite, IsBsp, Read, Ends, Runnable;
    if ReplayHazard(p, es) {
      var regs := HazardState(p, es);
      assert Runnable(p, es, regs) && !Replays(p, es, regs);
    } else {
      forall regs | Runnable(p, es, regs)
        ensures Replays(p, es, regs)
      {
        ReplaySame(p, es, regs);
      }
    }
  }

  lemma ReplaySame(p: Platform, es: seq<Entry>, regs: Regs)
    requires Runnable(p, es, regs) && (IsBsp(regs) || !ReplayHazard(p, es))
    ensures Replays(p, es, regs)
  {
    hide Bit, IsBit, Execute, Effects, LastWrite, IsBsp, Read, Ends, Runnable;
    var once := Execute(p, es, regs);
    SecondPassEnds(p, es, regs);
    RunnableIff(p, es, regs);
    forall r
      ensures Read(Execute(p, es, once), r) == Read(once, r)
    {
      forall w | IsBit(w)
        ensures Bit(Read(Execute(p, es, once), r), w) == Bit(Read(once, r), w)
      {
        ReplayBit(p, es, regs, r, w);
      }
      WordsAgree(Read(Execute(p, es, once), r), Read(once, r));
    }
  }

  lemma SecondPassEnds(p: Platform, es: seq<Entry>, regs: Regs)
    requires Runnable(p, es, regs) && (IsBsp(regs) || !ReplayHazard(p, es))
    ensures Runnable(p, es, Execute(p, es, regs))
  {
    hide Bit, IsBit, Execute, Effects, LastWrite, IsBsp, Read, Ends, Runnable;
    var once := Execute(p, es, regs);
    RunnableIff(p, es, regs);
    RunnableIff(p, es, once);
    ExecuteIsEffects(p, es, regs);
    if Ends(p, es, true) {
      EndsWithout(p, es);
    }
  }

  /** A state from which the first pass ends and the second does not, or changes a register. */
  lemma HazardState(p: Platform, es: seq<Entry>) returns (regs: Regs)
    requires ReplayHazard(p, es)
    ensures Runnable(p, es, regs) && !Replays(p, es, regs)
  {
    hide Bit, IsBit, Execute, Effects, LastWrite, IsBsp, Read, Ends, Runnable;
    if Ends(p, es, true) {
      var r, w :| IsBit(w) && WrittenOnlyOnBsp(p, es, r, w);
      regs := HazardWitness(p, es, r, w);
      RunnableIff(p, es, regs);
    } else {
      regs := map[];
      NotBsp();
      RunnableIff(p, es, regs);
      ExecuteIsEffects(p, es, regs);
      RunnableIff(p, es, Execute(p, es, regs));
    }
  }

  lemma NotBsp()
    ensures !IsBsp(map[])
  {
  }

  lemma DistinctBits(w: bv64)
    requires IsBit(w) && w != BSC_BIT
    ensures !Bit(w, BSC_BIT) && !Bit(0, BSC_BIT)
  {
  }

  lemma BitOfItself(w: bv64)
    requires IsBit(w)
    ensures Bit(w, w) && !Bit(0, w)
  {
  }

  lemma BscBitIsBit()
    ensures IsBit(BSC_BIT)
  {
  }

  /** A start state on which the second pass changes bit w of register r. */
  lemma HazardWitness(p: Platform, es: seq<Entry>, r: Reg, w: bv64) returns (regs: Regs)
    requires IsBit(w) && BspAfter(Effects(p, es, false), false) && WrittenOnlyOnBsp(p, es, r, w)
    ensures !IsBsp(regs)
    ensures var once := Execute(p, es, regs);
            Read(Execute(p, es, once), r) != Read(once, r)
  {
    hide Bit, IsBit, Execute, Effects, LastWrite;
    var b := LastWrite(Effects(p, es, true), r, w).value;
    regs := map[r := if b then 0 else w];
    BitOfItself(w);
    if r == APIC_BAR {
      assert w != BSC_BIT;
    }
    if w != BSC_BIT {
      DistinctBits(w);
    }
    assert !IsBsp(regs) by {
      BscBitIsBit();
      BitOfItself(BSC_BIT);
    }
    var once := Execute(p, es, regs);
    ExecuteIsEffects(p, es, regs);
    ExecuteIsEffects(p, es, once);
    BitAfter(Effects(p, es, false), regs, r, w);
    BitAfter(Effects(p, es, true), once, r, w);
  }

  /** A table without SMN entries acts alike on every core, so it never has the hazard: every MSR
      and PCI table may be replayed. */
  lemma {:induction false} NoHazardWithoutSmn(p: Platform, es: seq<Entry>)
    requires forall e :: e in es ==> !IsSmn(e)
    ensures forall b, c :: Effects(p, es, b) == Effects(p, es, c)
    ensures !ReplayHazard(p, es)
  {
    hide Bit, Updates, LastWrite, IsBit;
    if es != [] {
      var init, e := es[..|es| - 1], es[|es| - 1];
      NoHazardWithoutSmn(p, init);
      UpdatesByKind(p, e, APIC_BAR, BSC_BIT);
    }
    EndsWithoutSmn(p, es, true);
    assert Effects(p, es, true) == Effects(p, es, false);
  }

  lemma {:induction false} EndsWithoutSmn(p: Platform, es: seq<Entry>, b: bool)
    requires forall e :: e in es ==> !IsSmn(e)
    ensures Ends(p, es, b)
  {
    hide Effects, BspAfter;
    if es != [] {
      EndsWithoutSmn(p, es[..|es| - 1], b);
      assert es[|es| - 1] in es;
    }
  }

  /** Nor does a table none of whose matching entries writes the boot-core bit. */
  lemma NoHazardIfBscBitKept(p: Platform, es: seq<Entry>)
    requires forall e :: e in es ==> KeepsBscBit(p, e)
    ensures !ReplayHazard(p, es)
  {
    hide KeepsBscBit, Effects, LastWrite, Ends;
    BscBitKept(p, es, false);
  }

  const SET_BSC := Msr(MsrData(0x1B, 0x100, 0x100))

  /** An SMN entry followed by an MSR entry that sets the boot-core bit: without the bit, only that
      bit is written; with it, the SMN entry is performed first. */
  lemma ThenSetBsc(p: Platform, smn: Entry)
    requires IsSmn(smn)
    ensures var es, set8 := [smn, SET_BSC], Update(APIC_BAR, 0x100, 0x100);
            && Effects(p, es, false) == [set8] && Ends(p, es, false) && BspAfter([set8], false)
            && Effects(p, es, true) == Updates(p, smn, true) + [set8]
            && (Ends(p, es, true) <==> (smn.SmnMulti? ==> Stops(smn.first, smn.last, smn.step)))
  {
    var es, set8 := [smn, SET_BSC], Update(APIC_BAR, 0x100, 0x100);
    assert Updates(p, SET_BSC, true) == [set8] == Updates(p, SET_BSC, false) && BspAfter([set8], false);
    hide Updates, Stops, BspAfter;
    UpdatesByKind(p, smn, APIC_BAR, BSC_BIT);
    StartFlag(true);
    StartFlag(false);
    assert es[..1] == [smn] && es[..1][..0] == [];
    assert Effects(p, [smn], false) == [] + Updates(p, smn, false) == [];
    assert Effects(p, [smn], true) == [] + Updates(p, smn, true) == Updates(p, smn, true);
    assert Ends(p, [smn], false);
    assert Ends(p, [smn], true) <==> (smn.SmnMulti? ==> Stops(smn.first, smn.last, smn.step));
    assert Effects(p, es, false) == [] + [set8] == [set8];
  }

  lemma StartFlag(b: bool)
    ensures BspAfter([], b) == b
  {
  }

  /** The hazard is real: a bit written only by the boot core. */
  lemma HazardExample(p: Platform)
    requires p.smuInstalled
    ensures ReplayHazard(p, [Smn(0, 0x10, 1, 1), SET_BSC])
  {
    var smn, set8 := Smn(0, 0x10, 1, 1), Update(APIC_BAR, 0x100, 0x100);
    var set0 := Update(SmnReg(0, 0x10), 1, 1);
    ThenSetBsc(p, smn);
    assert Updates(p, smn, true) == [set0];
    assert IsBit(1) && Bit(1, 1);
    hide Effects, Ends, LastWrite, Updates, Bit, IsBit;
    var r := SmnReg(0, 0x10);
    NoWrite([set8], r, 1);
    LastWriteAt([set0], r, 1, 0);
    LastWriteAppend([set0], [set8], r, 1);
    assert WrittenOnlyOnBsp(p, [smn, SET_BSC], SmnReg(0, 0x10), 1);
  }

  /** So is its other half: the first pass skips an index loop that the second, made boot core by the
      first, never leaves. */
  lemma HangExample(p: Platform)
    ensures var es := [SmnMulti(0, 0, 0xFFFF_FFFF, 1, 1, 1), SET_BSC];
            && Runnable(p, es, map[]) && !Runnable(p, es, Execute(p, es, map[]))
            && ReplayHazard(p, es)
  {
    var smn := SmnMulti(0, 0, 0xFFFF_FFFF, 1, 1, 1);
    var es := [smn, SET_BSC];
    assert !Stops(0, 0xFFFF_FFFF, 1);
    ThenSetBsc(p, smn);
    NotBsp();
    hide Effects, Ends, Runnable, Execute, IsBsp, Stops;
    RunnableIff(p, es, map[]);
    ExecuteIsEffects(p, es, map[]);
    RunnableIff(p, es, Execute(p, es, map[]));
  }
}
