/** The register-table interpreter (xUSL/CCX/Common/AmdTable.c): a cursor that walks the bytes of a
    table, one handler per entry type, and the scan of a list of tables by core selector. */
module AmdTable {
  import opened Options
  import opened AmdTableFormat
  import opened SmnRange
  import opened AmdTableEffects
  import opened CcxRoles

  /** REGISTER_TABLE */
  datatype RegisterTable = RegisterTable(selector: bv32, bytes: seq<byte>)

  /** The registers of the machine and the cached die count. */
  class Machine {
    const platform: Platform
    var regs: Regs
    var systemDieNumber: uint32

    constructor (platform: Platform, regs: Regs)
      ensures this.platform == platform && this.regs == regs && Valid()
    {
      this.platform := platform;
      this.regs := regs;
      systemDieNumber := 0xFF;
    }

    /** The static SystemDieNumber holds the sentinel 0xFF or the answer of the data fabric. */
    ghost predicate Valid()
      reads this`systemDieNumber
    {
      systemDieNumber == 0xFF || systemDieNumber == platform.dies
    }

    method Rmw(u: Update)
      modifies this`regs
      ensures regs == Apply(u, old(regs))
    {
      regs := regs[u.reg := Modify(Read(regs, u.reg), u.mask, u.data)];
    }

    /** SetSmnTableEntry */
    method SetSmnTableEntry(instance: bv32, index: bv32, mask: bv32, data: bv32)
      requires Valid()
      modifies this
      ensures Valid()
      ensures regs == ApplyAll(SmnUpdates(platform, instance, index, mask, data), old(regs))
    {
      hide Modify, DieInstance;
      if !platform.smuInstalled {
        return;
      }
      if instance == SMN_ON_ALL_DIES {
        if systemDieNumber == 0xFF {
          systemDieNumber := platform.dies;
        }
        for die := 0 to systemDieNumber
          invariant systemDieNumber == platform.dies
          invariant regs == ApplyAll(OnDies(die, index, mask, data), old(regs))
        {
          Rmw(SmnUpdate(DieInstance(die), index, mask, data));
        }
      } else {
        Rmw(SmnUpdate(instance, index, mask, data));
      }
    }

    // ----- The handlers. Each reads its entry at the cursor and returns the cursor past it. -----

    method SetPciEntry(table: seq<byte>, entry: nat) returns (next: nat)
      requires entry + 12 <= |table|
      modifies this`regs
      ensures next == entry + 12
      ensures regs == Apply(PciUpdate(DecodePci(table[entry..entry + 12])), old(regs))
    {
      Rmw(PciUpdate(DecodePci(table[entry..entry + 12])));
      next := entry + 12;
    }

    method SetMsrEntry(table: seq<byte>, entry: nat) returns (next: nat)
      requires entry + 20 <= |table|
      modifies this`regs
      ensures next == entry + 20
      ensures regs == Apply(MsrUpdate(DecodeMsr(table[entry..entry + 20])), old(regs))
    {
      Rmw(MsrUpdate(DecodeMsr(table[entry..entry + 20])));
      next := entry + 20;
    }

    method SetPciProfileFixupEntry(table: seq<byte>, entry: nat) returns (next: nat)
      requires entry + 16 <= |table|
      modifies this`regs
      ensures next == entry + 16
      ensures regs == ApplyAll(Updates(platform, DecodeData(1, table[entry..entry + 16]), IsBsp(old(regs))), old(regs))
    {
      hide Apply, FeaturesMatch, Le32, DecodePci, IsBsp;
      var d := table[entry..entry + 16];
      if FeaturesMatch(platform.profile, Le32(d[..4])) {
        assert d[4..] == table[entry + 4..entry + 4 + 12];
        var _ := SetPciEntry(table, entry + 4);
      }
      next := entry + 16;
    }

    method SetPciCpuRevEntry(table: seq<byte>, entry: nat) returns (next: nat)
      requires entry + 18 <= |table|
      modifies this`regs
      ensures next == entry + 18
      ensures regs == ApplyAll(Updates(platform, DecodeData(2, table[entry..entry + 18]), IsBsp(old(regs))), old(regs))
    {
      hide Apply, IdMatches, Le32, DecodePci, DecodeId, IsBsp;
      var d := table[entry..entry + 18];
      if IdMatches(platform.soc, DecodeId(d[..6])) {
        Rmw(PciUpdate(DecodePci(d[6..])));
      }
      next := entry + 18;
    }

    method SetMsrCpuRevEntry(table: seq<byte>, entry: nat) returns (next: nat)
      requires entry + 26 <= |table|
      modifies this`regs
      ensures next == entry + 26
      ensures regs == ApplyAll(Updates(platform, DecodeData(4, table[entry..entry + 26]), IsBsp(old(regs))), old(regs))
    {
      hide Apply, IdMatches, DecodeMsr, DecodeId, IsBsp;
      var d := table[entry..entry + 26];
      if IdMatches(platform.soc, DecodeId(d[..6])) {
        assert d[6..] == table[entry + 6..entry + 6 + 20];
        var _ := SetMsrEntry(table, entry + 6);
      }
      next := entry + 26;
    }

    method SetMsrCoreRevEntry(table: seq<byte>, entry: nat) returns (next: nat)
      requires entry + 26 <= |table|
      modifies this`regs
      ensures next == entry + 26
      ensures regs == ApplyAll(Updates(platform, DecodeData(5, table[entry..entry + 26]), IsBsp(old(regs))), old(regs))
    {
      hide Apply, IdMatches, DecodeMsr, DecodeId, IsBsp;
      var d := table[entry..entry + 26];
      if IdMatches(platform.core, DecodeId(d[..6])) {
        assert d[6..] == table[entry + 6..entry + 6 + 20];
        var _ := SetMsrEntry(table, entry + 6);
      }
      next := entry + 26;
    }

    method SetMsrPlatformFeatEntry(table: seq<byte>, entry: nat) returns (next: nat)
      requires entry + 24 <= |table|
      modifies this`regs
      ensures next == entry + 24
      ensures regs == ApplyAll(Updates(platform, DecodeData(6, table[entry..entry + 24]), IsBsp(old(regs))), old(regs))
    {
      hide Apply, FeaturesMatch, DecodeMsr, Le32, IsBsp;
      var d := table[entry..entry + 24];
      if FeaturesMatch(platform.features, Le32(d[..4])) {
        assert d[4..] == table[entry + 4..entry + 4 + 20];
        var _ := SetMsrEntry(table, entry + 4);
      }
      next := entry + 24;
    }

    method SetMsrCpuRevPlatformFeatEntry(table: seq<byte>, entry: nat) returns (next: nat)
      requires entry + 30 <= |table|
      modifies this`regs
      ensures next == entry + 30
      ensures regs == ApplyAll(Updates(platform, DecodeData(7, table[entry..entry + 30]), IsBsp(old(regs))), old(regs))
    {
      hide Apply, IdMatches, FeaturesMatch, DecodeMsr, DecodeId, Le32, IsBsp;
      var d := table[entry..entry + 30];
      if IdMatches(platform.soc, DecodeId(d[..6])) {
        if FeaturesMatch(platform.features, Le32(d[6..10])) {
          assert d[10..] == table[entry + 10..entry + 10 + 20];
          var _ := SetMsrEntry(table, entry + 10);
        }
      }
      next := entry + 30;
    }

    method SetSmnEntry(table: seq<byte>, entry: nat) returns (next: nat)
      requires Valid() && entry + 16 <= |table|
      modifies this
      ensures Valid() && next == entry + 16
      ensures regs == ApplyAll(Updates(platform, DecodeData(8, table[entry..entry + 16]), IsBsp(old(regs))), old(regs))
    {
      hide Apply, Le32, IsBsp, SmnUpdates;
      if IsBsp(regs) {
        var d := table[entry..entry + 16];
        SetSmnTableEntry(Le32(d[..4]), Le32(d[4..8]), Le32(d[12..]), Le32(d[8..12]));
      }
      next := entry + 16;
    }

    method SetSmnMultiEntry(table: seq<byte>, entry: nat) returns (next: nat)
      requires Valid() && entry + 24 <= |table|
      requires IsBsp(regs) ==>
                 var e := DecodeData(9, table[entry..entry + 24]);
                 Stops(e.first, e.last, e.step)
      modifies this
      ensures Valid() && next == entry + 24
      ensures regs == ApplyAll(Updates(platform, DecodeData(9, table[entry..entry + 24]), IsBsp(old(regs))), old(regs))
    {
      hide Apply, Le32, IsBsp, SmnUpdates;
      if IsBsp(regs) {
        SetSmnRange(DecodeData(9, table[entry..entry + 24]));
      }
      next := entry + 24;
    }

    /** The index loop of SetSmnMultiEntry. */
    method SetSmnRange(e: Entry)
      requires Valid() && e.SmnMulti? && Stops(e.first, e.last, e.step)
      modifies this
      ensures Valid()
      ensures regs == ApplyAll(MultiUpdates(platform, e), old(regs))
    {
      hide Apply, SmnUpdates, Next, Past, ApplyAll, Stops, Leaves, MultiUpdates, MultiUpdatesIn, Nth;
      StopsIff(e.first, e.last, e.step);
      ghost var n := MultiStart(platform, e);
      ghost var done: seq<Update> := [];
      var index := e.first;
      ApplyNone(regs);
      while !Past(index, e.last)
        invariant Valid()
        invariant n >= 0 && Past(Nth(index, e.step, n), e.last)
        invariant MultiUpdates(platform, e) == done + MultiUpdatesIn(platform, e, index, n)
        invariant regs == ApplyAll(done, old(regs))
        decreases n
      {
        ghost var us := SmnUpdates(platform, e.instance, index, e.smnMask, e.smnData);
        MultiStep(platform, e, index, n);
        SetSmnTableEntry(e.instance, index, e.smnMask, e.smnData);
        ApplyAllAppend(done, us, old(regs));
        index := Next(index, e.step);
        n := n - 1;
        assert done + (us + MultiUpdatesIn(platform, e, index, n))
            == (done + us) + MultiUpdatesIn(platform, e, index, n);
        done := done + us;
      }
      MultiStep(platform, e, index, n);
      assert done + [] == done;
    }

    // ----- The interpreter -----

    /** DoTableEntry[EntryType]: the handler of entry types 0 to 9. */
    method DoTableEntry(t: bv16, table: seq<byte>, entry: nat) returns (next: nat)
      requires Valid() && t <= LAST_ENTRY_TYPE && entry + DataSize(t) <= |table|
      requires var e := DecodeData(t, table[entry..entry + DataSize(t)]);
               e.SmnMulti? && IsBsp(regs) ==> Stops(e.first, e.last, e.step)
      modifies this
      ensures Valid() && next == entry + DataSize(t)
      ensures regs == ApplyAll(Updates(platform, DecodeData(t, table[entry..next]), IsBsp(old(regs))), old(regs))
    {
      if t == 0 {
        next := SetPciEntry(table, entry);
      } else if t == 1 {
        next := SetPciProfileFixupEntry(table, entry);
      } else if t == 2 {
        next := SetPciCpuRevEntry(table, entry);
      } else if t == 3 {
        next := SetMsrEntry(table, entry);
      } else if t == 4 {
        next := SetMsrCpuRevEntry(table, entry);
      } else if t == 5 {
        next := SetMsrCoreRevEntry(table, entry);
      } else if t == 6 {
        next := SetMsrPlatformFeatEntry(table, entry);
      } else if t == 7 {
        next := SetMsrCpuRevPlatformFeatEntry(table, entry);
      } else if t == 8 {
        next := SetSmnEntry(table, entry);
      } else {
        next := SetSmnMultiEntry(table, entry);
      }
    }

    /** One turn of the loop of SetRegistersFromTable, at entry k of the table es. */
    method DoEntryAtCursor(t: bv16, table: seq<byte>, entry: nat, ghost es: seq<Entry>, ghost k: nat, ghost start: Regs)
      returns (next: nat)
      requires Valid() && 2 <= entry <= |table| && Cursor(table, entry - 2, es, k) && Runnable(platform, es, start)
      requires t == TypeAt(table, entry - 2) && t != TABLE_TERMINATOR
      requires regs == Execute(platform, es[..k], start)
      modifies this
      ensures Valid() && entry <= next && Cursor(table, next, es, k + 1)
      ensures regs == Execute(platform, es[..k + 1], start)
    {
      hide Le16, DecodeData, Updates, IsBsp, Stops, ApplyAll, Parse, Execute, Runnable, DataSize, Cursor;
      CursorStep(table, entry - 2, es, k);
      ExecuteStep(platform, es, k, start);
      next := DoTableEntry(t, table, entry);
    }

    /** SetRegistersFromTable. The table must parse: no type word outside 0..9 before the terminator. */
    method SetRegistersFromTable(table: seq<byte>)
      requires Valid() && Parse(table, 0).Some? && Runnable(platform, Parse(table, 0).value.0, regs)
      modifies this
      ensures Valid()
      ensures regs == Execute(platform, Parse(table, 0).value.0, old(regs))
    {
      hide *;
      ghost var es := Parse(table, 0).value.0;
      ghost var k := 0;
      CursorStart(table, 0);
      ExecuteNone(platform, es, regs);
      var entryType := TypeAt(table, 0);
      var entryData := 2;
      while entryType != TABLE_TERMINATOR
        invariant Valid() && 2 <= entryData <= |table| && Cursor(table, entryData - 2, es, k)
        invariant entryType == TypeAt(table, entryData - 2)
        invariant regs == Execute(platform, es[..k], old(regs))
        decreases |table| - entryData
      {
        entryData := DoEntryAtCursor(entryType, table, entryData, es, k, old(regs));
        entryType := TypeAt(table, entryData);
        entryData := entryData + 2;
        k := k + 1;
      }
      CursorStep(table, entryData - 2, es, k);
    }

    /** SetRegistersFromTableList */
    method SetRegistersFromTableList(core: Core, list: seq<RegisterTable>)
      requires Valid() && AllParse(list)
      requires Runnable(platform, Plan(list, Scanned(platform, core, list, IsBsp(regs))), regs)
      modifies this
      ensures Valid()
      ensures regs == Execute(platform, Plan(list, Scanned(platform, core, list, IsBsp(old(regs)))), old(regs))
    {
      hide IsCoreSelector, Chosen, IsBsp, Scanned, Execute, Runnable;
      ghost var n := Scanned(platform, core, list, IsBsp(regs));
      ExecuteNothing(platform, regs);
      for s := 0 to |SELECTORS|
        invariant Valid() && s <= n
        invariant regs == Execute(platform, Plan(list, s), old(regs))
      {
        ScannedNext(platform, core, list, old(regs), s);
        if IsCoreSelector(core, IsBsp(regs), SELECTORS[s]) {
          PlanRunnable(platform, list, s + 1, n, old(regs));
          RunnableAppend(platform, Plan(list, s), Chosen(list, SELECTORS[s], |list|), old(regs));
          ExecuteAppend(platform, Plan(list, s), Chosen(list, SELECTORS[s], |list|), old(regs));
          RunSelected(SELECTORS[s], list);
        } else {
          break;
        }
      }
    }

    /** The inner loop of SetRegistersFromTableList: every table of one selector, by the iterator. */
    method RunSelected(s: Selector, list: seq<RegisterTable>)
      requires Valid() && AllParse(list) && Runnable(platform, Chosen(list, s, |list|), regs)
      modifies this
      ensures Valid()
      ensures regs == Execute(platform, Chosen(list, s, |list|), old(regs))
    {
      hide Parse, Execute, Runnable, Code;
      var next, handle := GetNextRegisterTable(s, list, None);
      NoneChosen(list, s, 0, next);
      ExecuteNone(platform, [], regs);
      while next < |list|
        invariant Valid() && next <= |list| && handle == (if next == |list| then None else Some(next))
        invariant next < |list| ==> list[next].selector == Code(s)
        invariant regs == Execute(platform, Chosen(list, s, next), old(regs))
        decreases |list| - next
      {
        var es := Parse(list[next].bytes, 0).value.0;
        ChosenMonotone(list, s, next + 1, |list|, platform, old(regs));
        RunnableAppend(platform, Chosen(list, s, next), es, old(regs));
        ExecuteAppend(platform, Chosen(list, s, next), es, old(regs));
        SetRegistersFromTable(list[next].bytes);
        var found := next;
        next, handle := GetNextRegisterTable(s, list, handle);
        NoneChosen(list, s, found + 1, next);
      }
    }
  }

  /** The cursor stands on the type word of entry k of es, or on the terminator if k == |es|. */
  ghost predicate Cursor(b: seq<byte>, pos: nat, es: seq<Entry>, k: nat)
    ensures Cursor(b, pos, es, k) ==> pos + 2 <= |b| && k <= |es|
  {
    k <= |es| && Parse(b, pos).Some? && Parse(b, pos).value.0 == es[k..]
  }

  /** The type word at pos. */
  function TypeAt(b: seq<byte>, pos: nat): bv16
    requires pos + 2 <= |b|
  {
    Le16(b[pos..pos + 2])
  }

  lemma CursorStart(b: seq<byte>, pos: nat)
    requires Parse(b, pos).Some?
    ensures Cursor(b, pos, Parse(b, pos).value.0, 0)
  {
  }

  /** One turn: the terminator ends the entries, any other type word starts the next one. */
  lemma CursorStep(b: seq<byte>, pos: nat, es: seq<Entry>, k: nat)
    requires Cursor(b, pos, es, k)
    ensures var t := TypeAt(b, pos);
            if t == TABLE_TERMINATOR then k == |es| && es[..k] == es
            else && t <= LAST_ENTRY_TYPE && pos + 2 + DataSize(t) <= |b| && k < |es|
                 && es[k] == DecodeData(t, b[pos + 2..pos + 2 + DataSize(t)])
                 && Cursor(b, pos + 2 + DataSize(t), es, k + 1)
  {
    hide Le16, DecodeData, DataSize;
    var t := Le16(b[pos..pos + 2]);
    if t != TABLE_TERMINATOR {
      assert es[k..][0] == es[k] && es[k..][1..] == es[k + 1..];
    }
  }

  lemma ExecuteNone(p: Platform, es: seq<Entry>, regs: Regs)
    ensures Execute(p, es[..0], regs) == regs && es[0..] == es
  {
  }

  lemma ExecuteStep(p: Platform, es: seq<Entry>, k: nat, regs: Regs)
    requires k < |es| && Runnable(p, es, regs)
    ensures var before := Execute(p, es[..k], regs);
            && (es[k].SmnMulti? && IsBsp(before) ==> Stops(es[k].first, es[k].last, es[k].step))
            && Execute(p, es[..k + 1], regs) == ApplyAll(Updates(p, es[k], IsBsp(before)), before)
  {
    hide Updates, IsBsp, Stops, ApplyAll;
    assert es == es[..k + 1] + es[k + 1..] && es[..k + 1][..k] == es[..k];
    RunnableAppend(p, es[..k + 1], es[k + 1..], regs);
  }

  // ----- Table lists -----

  function Code(s: Selector): (c: bv32) {
    match s
    case AllCores => 0
    case ComputeUnitPrimary => 1
    case ComplexPrimary => 2
    case DiePrimary => 3
    case PrimaryCores => 4
    case BscCore => 5
  }

  ghost predicate AllParse(list: seq<RegisterTable>) {
    forall t :: t in list ==> Parse(t.bytes, 0).Some?
  }

  /** The entries of the tables among the first k that carry selector s, in list order. */
  ghost function Chosen(list: seq<RegisterTable>, s: Selector, k: nat): (es: seq<Entry>)
    requires k <= |list| && AllParse(list)
  {
    if k == 0 then []
    else if list[k - 1].selector == Code(s) then Chosen(list, s, k - 1) + Parse(list[k - 1].bytes, 0).value.0
    else Chosen(list, s, k - 1)
  }

  /** The list filtered by the first n selectors in turn. */
  ghost function Plan(list: seq<RegisterTable>, n: nat): (es: seq<Entry>)
    requires n <= |SELECTORS| && AllParse(list)
  {
    if n == 0 then [] else Plan(list, n - 1) + Chosen(list, SELECTORS[n - 1], |list|)
  }

  /** The entries of the tables among the first k whose selector word is w, in list order. */
  ghost function WithSelector(list: seq<RegisterTable>, w: bv32, k: nat): (es: seq<Entry>)
    requires k <= |list| && AllParse(list)
  {
    if k == 0 then []
    else WithSelector(list, w, k - 1) + if list[k - 1].selector == w then Parse(list[k - 1].bytes, 0).value.0 else []
  }

  lemma {:induction false} ChosenByWord(list: seq<RegisterTable>, s: Selector, k: nat)
    requires k <= |list| && AllParse(list)
    ensures Chosen(list, s, k) == WithSelector(list, Code(s), k)
  {
    hide Parse, Code;
    if k > 0 {
      ChosenByWord(list, s, k - 1);
    }
  }

  /** The scan runs the tables with selector word 0 first, then those with 1, and so on up to 5. */
  lemma PlanByWord(list: seq<RegisterTable>, i: nat)
    requires AllParse(list) && i < 6
    ensures Plan(list, 0) == []
    ensures Plan(list, i + 1) == Plan(list, i) + WithSelector(list, [0, 1, 2, 3, 4, 5][i], |list|)
  {
    hide Chosen, WithSelector;
    ChosenByWord(list, SELECTORS[i], |list|);
  }

  /** The boot-core bit after the tables of the first n selectors, if it was b before them. */
  ghost predicate BspAt(p: Platform, list: seq<RegisterTable>, n: nat, b: bool)
    requires n <= |SELECTORS| && AllParse(list)
  {
    BspAfter(Effects(p, Plan(list, n), b), b)
  }

  /** How many selectors the scan gets through: the leading roles of the core, and the boot-core
      selector if it has all roles and is the boot core by then. */
  ghost function Scanned(p: Platform, c: Core, list: seq<RegisterTable>, b: bool): (n: nat)
    requires AllParse(list)
    ensures n <= |SELECTORS|
  {
    if LeadingRoles(c) == 5 && BspAt(p, list, 5, b) then 6 else LeadingRoles(c)
  }

  /** While the scan is under way, the core satisfies the next selector if and only if the scan
      gets through it. */
  lemma ScannedNext(p: Platform, c: Core, list: seq<RegisterTable>, regs: Regs, s: nat)
    requires AllParse(list) && s < |SELECTORS| && s <= Scanned(p, c, list, IsBsp(regs))
    ensures IsCoreSelector(c, IsBsp(Execute(p, Plan(list, s), regs)), SELECTORS[s])
            <==> s < Scanned(p, c, list, IsBsp(regs))
  {
    hide IsBsp, Execute, Effects, BspAfter, Plan, IsCoreSelector, LeadingRoles;
    var bsp := IsBsp(Execute(p, Plan(list, s), regs));
    ExecuteIsEffects(p, Plan(list, s), regs);
    BscSelector(c, bsp);
  }

  lemma {:induction false} PlanRunnable(p: Platform, list: seq<RegisterTable>, n: nat, m: nat, regs: Regs)
    requires n <= m <= |SELECTORS| && AllParse(list) && Runnable(p, Plan(list, m), regs)
    ensures Runnable(p, Plan(list, n), regs)
    decreases m
  {
    hide Runnable, Chosen;
    if n < m {
      RunnableAppend(p, Plan(list, m - 1), Chosen(list, SELECTORS[m - 1], |list|), regs);
      PlanRunnable(p, list, n, m - 1, regs);
    }
  }

  lemma PlanStep(list: seq<RegisterTable>, n: nat)
    requires n <= |SELECTORS| && AllParse(list)
    ensures Plan(list, n) == if n == 0 then [] else Plan(list, n - 1) + Chosen(list, SELECTORS[n - 1], |list|)
  {
  }

  lemma ExecuteNothing(p: Platform, regs: Regs)
    ensures Execute(p, [], regs) == regs
  {
  }

  /** GetNextRegisterTable: the first table after the handle with the selector; the end of the
      list resets the handle. */
  method GetNextRegisterTable(s: Selector, list: seq<RegisterTable>, handle: Option<nat>)
    returns (next: nat, handle': Option<nat>)
    requires handle.Some? ==> handle.value < |list|
    ensures var start := if handle.Some? then handle.value + 1 else 0;
            start <= next <= |list| && forall i :: start <= i < next ==> list[i].selector != Code(s)
    ensures next < |list| ==> list[next].selector == Code(s)
    ensures handle' == if next == |list| then None else Some(next)
  {
    var start := if handle.Some? then handle.value + 1 else 0;
    next := start;
    while next < |list| && list[next].selector != Code(s)
      invariant start <= next <= |list|
      invariant forall i :: start <= i < next ==> list[i].selector != Code(s)
    {
      next := next + 1;
    }
    handle' := if next == |list| then None else Some(next);
  }

  lemma {:induction false} NoneChosen(list: seq<RegisterTable>, s: Selector, i: nat, j: nat)
    requires i <= j <= |list| && AllParse(list)
    requires forall k :: i <= k < j ==> list[k].selector != Code(s)
    ensures Chosen(list, s, j) == Chosen(list, s, i)
    decreases j
  {
    hide Code, Parse;
    if i < j {
      NoneChosen(list, s, i, j - 1);
    }
  }

  lemma {:induction false} ChosenMonotone(list: seq<RegisterTable>, s: Selector, i: nat, j: nat, p: Platform,
                                          regs: Regs)
    requires i <= j <= |list| && AllParse(list) && Runnable(p, Chosen(list, s, j), regs)
    ensures Runnable(p, Chosen(list, s, i), regs)
    decreases j
  {
    hide Code, Parse, Runnable, Execute;
    if i < j {
      if list[j - 1].selector == Code(s) {
        RunnableAppend(p, Chosen(list, s, j - 1), Parse(list[j - 1].bytes, 0).value.0, regs);
      }
      ChosenMonotone(list, s, i, j - 1, p, regs);
    }
  }

  // ----- The early exit -----

  /** The scan without the early exit: every selector is tried. */
  ghost function Exhaustive(p: Platform, c: Core, list: seq<RegisterTable>, n: nat, regs: Regs): (regs': Regs)
    requires n <= |SELECTORS| && AllParse(list)
  {
    if n == 0 then regs
    else
      var before := Exhaustive(p, c, list, n - 1, regs);
      if IsCoreSelector(c, IsBsp(before), SELECTORS[n - 1])
      then Execute(p, Chosen(list, SELECTORS[n - 1], |list|), before)
      else before
  }

  lemma {:induction false} ExhaustiveLeads(p: Platform, c: Core, list: seq<RegisterTable>, n: nat, regs: Regs)
    requires AllParse(list) && n <= Scanned(p, c, list, IsBsp(regs))
    ensures Exhaustive(p, c, list, n, regs) == Execute(p, Plan(list, n), regs)
  {
    hide IsCoreSelector, Chosen, IsBsp, Scanned, Execute, Plan;
    PlanStep(list, n);
    if n == 0 {
      ExecuteNothing(p, regs);
    } else {
      ExhaustiveLeads(p, c, list, n - 1, regs);
      ScannedNext(p, c, list, regs, n - 1);
      ExecuteAppend(p, Plan(list, n - 1), Chosen(list, SELECTORS[n - 1], |list|), regs);
    }
  }

  /** The selectors from n on that the break leaves untried are all unsatisfied. */
  ghost predicate SkipsNone(p: Platform, c: Core, list: seq<RegisterTable>, b: bool)
    requires AllParse(list)
  {
    var n := Scanned(p, c, list, b);
    forall m :: n <= m < |SELECTORS| ==> !IsCoreSelector(c, BspAt(p, list, n, b), SELECTORS[m])
  }

  /** The break skips no selector the core satisfies, if and only if the roles of the core nest and it is
      socket primary or is not the boot core after the tables of its leading roles. */
  lemma EarlyExitIff(p: Platform, c: Core, list: seq<RegisterTable>, b: bool)
    requires AllParse(list)
    ensures SkipsNone(p, c, list, b) <==>
            RolesNest(c) && (IsSocketPrimary(c) || !BspAt(p, list, LeadingRoles(c), b))
  {
    hide IsComputeUnitPrimary, IsCoreComplexPrimary, IsSocketPrimary, IsCoreSelector, RolesNest, BspAt, LeadingRoles;
    var n := Scanned(p, c, list, b);
    var bsp := BspAt(p, list, n, b);
    BscSelector(c, bsp);
    if !RolesNest(c) {
      NoNest(c, bsp);
      assert n <= 2 && IsCoreSelector(c, bsp, SELECTORS[2]);
    } else if n < |SELECTORS| {
      SkippedSelectors(c, bsp, n);
    } else {
      RolesBehind(c, bsp, 5);
    }
  }

  /** What it skips: for a core whose roles nest, the scan without the break runs the boot-core tables in
      addition exactly when the condition fails. */
  lemma SkippedTables(p: Platform, c: Core, list: seq<RegisterTable>, regs: Regs)
    requires AllParse(list) && RolesNest(c)
    ensures var b := IsBsp(regs);
            var n := Scanned(p, c, list, b);
            Exhaustive(p, c, list, |SELECTORS|, regs)
            == Execute(p, Plan(list, n) + if SkipsNone(p, c, list, b) then [] else Chosen(list, BscCore, |list|), regs)
  {
    hide IsComputeUnitPrimary, IsCoreComplexPrimary, IsSocketPrimary, IsBsp, Execute, Chosen, Plan, Effects, BspAfter;
    var b := IsBsp(regs);
    var n := Scanned(p, c, list, b);
    ExhaustiveLeads(p, c, list, n, regs);
    ExecuteIsEffects(p, Plan(list, n), regs);
    assert Plan(list, n) + [] == Plan(list, n);
    if n < |SELECTORS| {
      SkippedSelectors(c, BspAt(p, list, n, b), n);
      ExhaustiveStays(p, c, list, n, 5, regs);
      if BspAt(p, list, n, b) {
        ExecuteAppend(p, Plan(list, n), Chosen(list, BscCore, |list|), regs);
      }
    }
  }

  /** For lists that leave the boot-core bit alone the condition is on the start state. */
  lemma EarlyExitIffBootCore(p: Platform, c: Core, list: seq<RegisterTable>, regs: Regs)
    requires AllParse(list)
    requires forall t, e :: t in list && e in Parse(t.bytes, 0).value.0 ==> KeepsBscBit(p, e)
    ensures SkipsNone(p, c, list, IsBsp(regs)) <==> RolesNest(c) && (IsSocketPrimary(c) || !IsBsp(regs))
  {
    hide *;
    EarlyExitIff(p, c, list, IsBsp(regs));
    BscSelector(c, true);
    BspAtKept(p, list, LeadingRoles(c), IsBsp(regs));
  }

  /** Tables are lost for a boot core that is not socket primary, and for a core with three threads. */
  lemma EarlyExitExample(p: Platform)
    ensures !SkipsNone(p, Core(1, 1), [], true)
    ensures !SkipsNone(p, Core(16, 3), [], false)
  {
    RoleExamples();
    hide *;
    assert AllParse([]) by { NoTables(); }
    BscSelector(Core(1, 1), true);
    EarlyExitIff(p, Core(1, 1), [], true);
    BspAtKept(p, [], LeadingRoles(Core(1, 1)), true);
    EarlyExitIff(p, Core(16, 3), [], false);
  }

  lemma NoTables()
    ensures AllParse([])
  {
  }

  lemma BspAtKept(p: Platform, list: seq<RegisterTable>, n: nat, b: bool)
    requires AllParse(list) && n <= |SELECTORS|
    requires forall t, e :: t in list && e in Parse(t.bytes, 0).value.0 ==> KeepsBscBit(p, e)
    ensures BspAt(p, list, n, b) == b
  {
    hide Plan, Effects, BspAfter, KeepsBscBit, Parse;
    PlanKeeps(p, list, n);
    BscBitKept(p, Plan(list, n), b);
  }

  lemma {:induction false} PlanKeeps(p: Platform, list: seq<RegisterTable>, n: nat)
    requires AllParse(list) && n <= |SELECTORS|
    requires forall t, e :: t in list && e in Parse(t.bytes, 0).value.0 ==> KeepsBscBit(p, e)
    ensures forall e :: e in Plan(list, n) ==> KeepsBscBit(p, e)
  {
    hide KeepsBscBit, Chosen;
    if n > 0 {
      PlanKeeps(p, list, n - 1);
      ChosenKeeps(p, list, SELECTORS[n - 1], |list|);
    }
  }

  lemma {:induction false} ChosenKeeps(p: Platform, list: seq<RegisterTable>, s: Selector, k: nat)
    requires AllParse(list) && k <= |list|
    requires forall t, e :: t in list && e in Parse(t.bytes, 0).value.0 ==> KeepsBscBit(p, e)
    ensures forall e :: e in Chosen(list, s, k) ==> KeepsBscBit(p, e)
  {
    hide KeepsBscBit, Parse, Code;
    if k > 0 {
      ChosenKeeps(p, list, s, k - 1);
      assert list[k - 1] in list;
    }
  }

  lemma SkippedSelectors(c: Core, bsp: bool, n: nat)
    requires RolesNest(c) && n == LeadingRoles(c) && (n == 5 ==> !bsp)
    ensures forall i :: n <= i < |SELECTORS| ==> (IsCoreSelector(c, bsp, SELECTORS[i]) <==> i == 5 && bsp)
    ensures IsSocketPrimary(c) <==> n == 5
    ensures |SELECTORS| == 6 && SELECTORS[5] == BscCore
  {
    hide IsComputeUnitPrimary, IsCoreComplexPrimary, IsSocketPrimary, IsCoreSelector;
    forall i | n <= i < |SELECTORS|
      ensures IsCoreSelector(c, bsp, SELECTORS[i]) <==> i == 5 && bsp
    {
      RolesBehind(c, bsp, i);
    }
    RolesBehind(c, bsp, n);
  }

  lemma {:induction false} ExhaustiveStays(p: Platform, c: Core, list: seq<RegisterTable>, n: nat, m: nat, regs: Regs)
    requires n <= m <= |SELECTORS| && AllParse(list)
    requires var after := Exhaustive(p, c, list, n, regs);
             forall i :: n <= i < m ==> !IsCoreSelector(c, IsBsp(after), SELECTORS[i])
    ensures Exhaustive(p, c, list, m, regs) == Exhaustive(p, c, list, n, regs)
    decreases m
  {
    hide IsCoreSelector, IsBsp, Execute, Chosen;
    if n < m {
      ExhaustiveStays(p, c, list, n, m - 1, regs);
    }
  }

  lemma ApplyNone(regs: Regs)
    ensures ApplyAll([], regs) == regs
  {
  }
}
