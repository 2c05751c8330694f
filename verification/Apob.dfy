/** The APOB record store (xUSL/Apob.c): a header followed by records of varying size, found by
    group, type and instance. */
module Apob {
  import opened Options
  import opened Bytes
  import opened SilStatus

  const APOB_SIGNATURE := 0x424F_5041
  const ENTRY_INSTANCE_MAX := 0xFF

  /** The fields of APOB_TYPE_HEADER that the walk reads, and where the record lies. */
  datatype Record = Record(addr: nat, group: uint32, typeId: uint32, instance: uint32)

  /** The memory the APOB lies in. */
  datatype Memory = Memory(bytes: seq<uint8>) {

    predicate Readable(addr: nat, n: nat) {
      addr + n <= |bytes|
    }

    function Word(addr: nat): (v: uint32)
      requires Readable(addr, 4)
    {
      U32(bytes, addr)
    }
  }

  function Signature(m: Memory, base: nat): (v: uint32)
    requires m.Readable(base, 16)
  {
    m.Word(base)
  }

  function Version(m: Memory, base: nat): (v: uint32)
    requires m.Readable(base, 16)
  {
    m.Word(base + 4)
  }

  function Size(m: Memory, base: nat): (v: uint32)
    requires m.Readable(base, 16)
  {
    m.Word(base + 8)
  }

  function FirstEntry(m: Memory, base: nat): (v: uint32)
    requires m.Readable(base, 16)
  {
    m.Word(base + 12)
  }

  function RecordAt(m: Memory, addr: nat): (r: Record)
    requires m.Readable(addr, 16)
  {
    Record(addr, m.Word(addr), m.Word(addr + 4), m.Word(addr + 8))
  }

  function TypeSize(m: Memory, addr: nat): (v: uint32)
    requires m.Readable(addr, 16)
  {
    m.Word(addr + 12)
  }

  /** A walk from addr can read every header on its way and always moves on. */
  predicate Walkable(m: Memory, addr: nat, end: nat)
    decreases end - addr
  {
    addr >= end ||
    (m.Readable(addr, 16) && TypeSize(m, addr) > 0 && Walkable(m, addr + TypeSize(m, addr), end))
  }

  /** The records of the walk, in order. */
  function Records(m: Memory, addr: nat, end: nat): (rs: seq<Record>)
    requires Walkable(m, addr, end)
    decreases end - addr
  {
    if addr >= end then [] else [RecordAt(m, addr)] + Records(m, addr + TypeSize(m, addr), end)
  }

  predicate WellFormed(m: Memory, base: nat) {
    m.Readable(base, 16) && Walkable(m, base + FirstEntry(m, base), base + Size(m, base))
  }

  /** All records of an APOB. */
  function AllRecords(m: Memory, base: nat): (rs: seq<Record>)
    requires WellFormed(m, base)
  {
    Records(m, base + FirstEntry(m, base), base + Size(m, base))
  }

  predicate OfType(r: Record, group: uint32, typeId: uint32) {
    r.group == group && r.typeId == typeId
  }

  /** The records of a group and type: what the walk stores in the caller's array. */
  function OfTypeIn(rs: seq<Record>, group: uint32, typeId: uint32): (ms: seq<Record>) {
    if rs == [] then []
    else (if OfType(rs[0], group, typeId) then [rs[0]] else []) + OfTypeIn(rs[1..], group, typeId)
  }

  // ----- What a lookup should answer -----

  datatype Answer = Answer(status: Status, entry: Option<nat>)

  predicate IsRecord(r: Record, group: uint32, typeId: uint32, instance: uint32) {
    r.group == group && r.typeId == typeId && r.instance == instance
  }

  /** The answer by definition: pass with the record if it is the only one, not found if there is
      none, unsupported if there are several. */
  ghost predicate IsAnswer(rs: seq<Record>, group: uint32, typeId: uint32, instance: uint32, a: Answer) {
    match a.status
    case SilPass =>
      exists k :: 0 <= k < |rs| && Only(rs, group, typeId, instance, k) && a.entry == Some(rs[k].addr)
    case SilNotFound =>
      a.entry == None && forall k :: 0 <= k < |rs| ==> !IsRecord(rs[k], group, typeId, instance)
    case SilUnsupported =>
      && a.entry == None
      && exists j, k :: 0 <= j < k < |rs|
           && IsRecord(rs[j], group, typeId, instance) && IsRecord(rs[k], group, typeId, instance)
    case _ => false
  }

  ghost predicate Only(rs: seq<Record>, group: uint32, typeId: uint32, instance: uint32, k: nat)
    requires k < |rs|
  {
    && IsRecord(rs[k], group, typeId, instance)
    && forall j :: 0 <= j < |rs| && IsRecord(rs[j], group, typeId, instance) ==> j == k
  }

  /** Exactly one status fits, and with it one entry. */
  lemma AnswerIsUnique(rs: seq<Record>, group: uint32, typeId: uint32, instance: uint32, a: Answer, a': Answer)
    requires IsAnswer(rs, group, typeId, instance, a) && IsAnswer(rs, group, typeId, instance, a')
    ensures a == a'
  {
    hide IsRecord;
    if a.status == SilPass {
      var k :| 0 <= k < |rs| && Only(rs, group, typeId, instance, k) && a.entry == Some(rs[k].addr);
      if a'.status == SilPass {
        var k' :| 0 <= k' < |rs| && Only(rs, group, typeId, instance, k') && a'.entry == Some(rs[k'].addr);
      }
    }
  }

  // ----- The two passes -----

  function InstancesIn(ms: seq<Record>, instance: uint32): (found: seq<nat>) {
    if ms == [] then []
    else (if ms[0].instance == instance then [ms[0].addr] else []) + InstancesIn(ms[1..], instance)
  }

  /** The second pass of AmdGetApobEntryInstance over what the first one found. */
  function Decide(found: seq<nat>): (a: Answer) {
    if |found| == 0 then Answer(SilNotFound, None)
    else if |found| == 1 then Answer(SilPass, Some(found[0]))
    else Answer(SilUnsupported, None)
  }

  function Found(rs: seq<Record>, group: uint32, typeId: uint32, instance: uint32): (found: seq<nat>) {
    InstancesIn(OfTypeIn(rs, group, typeId), instance)
  }

  /** places are ascending positions of rs, and found the addresses there. */
  ghost predicate Places(rs: seq<Record>, places: seq<nat>, found: seq<nat>) {
    && |places| == |found|
    && (forall i :: 0 <= i < |places| ==> places[i] < |rs| && found[i] == rs[places[i]].addr)
    && (forall i, j :: 0 <= i < j < |places| ==> places[i] < places[j])
  }

  lemma PlacesShift(rs: seq<Record>, rest: seq<nat>, shifted: seq<nat>, found: seq<nat>, first: bool)
    requires rs != [] && Places(rs[1..], rest, found)
    requires |shifted| == |rest| && forall i :: 0 <= i < |rest| ==> shifted[i] == rest[i] + 1
    ensures Places(rs, (if first then [0] else []) + shifted, (if first then [rs[0].addr] else []) + found)
  {
  }

  /** What both passes let through are the wanted records, in walk order. */
  lemma {:induction false} FoundPlaces(rs: seq<Record>, group: uint32, typeId: uint32, instance: uint32)
    returns (places: seq<nat>)
    ensures Places(rs, places, Found(rs, group, typeId, instance))
    ensures forall k :: 0 <= k < |rs| ==> (IsRecord(rs[k], group, typeId, instance) <==> k in places)
  {
    hide IsRecord, Found;
    if rs == [] {
      places := [];
      FoundNone(group, typeId, instance);
    } else {
      hide Places;
      var rest := FoundPlaces(rs[1..], group, typeId, instance);
      var shifted := seq(|rest|, i requires 0 <= i < |rest| => rest[i] + 1);
      FoundStep(rs, group, typeId, instance);
      var first := IsRecord(rs[0], group, typeId, instance);
      PlacesShift(rs, rest, shifted, Found(rs[1..], group, typeId, instance), first);
      places := (if first then [0] else []) + shifted;
      forall k | 0 <= k < |rs|
        ensures IsRecord(rs[k], group, typeId, instance) <==> k in places
      {
        ShiftedIn(rest, shifted, first, k);
        if k > 0 {
          assert rs[1..][k - 1] == rs[k];
        }
      }
    }
  }

  lemma FoundNone(group: uint32, typeId: uint32, instance: uint32)
    ensures Found([], group, typeId, instance) == []
  {
  }

  lemma ShiftedIn(s: seq<nat>, t: seq<nat>, first: bool, k: nat)
    requires |t| == |s| && forall i :: 0 <= i < |s| ==> t[i] == s[i] + 1
    ensures k in (if first then [0] else []) + t <==> if k == 0 then first else k - 1 in s
  {
    if k > 0 && k - 1 in s {
      var i :| 0 <= i < |s| && s[i] == k - 1;
      assert t[i] == k;
    }
  }

  lemma FoundStep(rs: seq<Record>, group: uint32, typeId: uint32, instance: uint32)
    requires rs != []
    ensures Found(rs, group, typeId, instance)
            == (if IsRecord(rs[0], group, typeId, instance) then [rs[0].addr] else [])
               + Found(rs[1..], group, typeId, instance)
  {
    var ms := OfTypeIn(rs[1..], group, typeId);
    if OfType(rs[0], group, typeId) {
      assert ([rs[0]] + ms)[1..] == ms;
    } else {
      assert OfTypeIn(rs, group, typeId) == ms;
    }
  }

  /** Collecting the records of the type and then counting the instance gives the answer that one
      look at all records gives. */
  lemma TwoPassesAnswer(rs: seq<Record>, group: uint32, typeId: uint32, instance: uint32)
    ensures IsAnswer(rs, group, typeId, instance, Decide(Found(rs, group, typeId, instance)))
  {
    hide IsRecord, Found;
    var found := Found(rs, group, typeId, instance);
    var places := FoundPlaces(rs, group, typeId, instance);
    if |places| == 1 {
      assert places[0] in places;
      assert Only(rs, group, typeId, instance, places[0]);
    } else if |places| >= 2 {
      assert places[0] in places && places[1] in places;
    }
  }

  /** One record of the walk. */
  lemma WalkStep(m: Memory, addr: nat, end: nat, group: uint32, typeId: uint32)
    requires Walkable(m, addr, end) && addr < end
    ensures m.Readable(addr, 16) && TypeSize(m, addr) > 0 && Walkable(m, addr + TypeSize(m, addr), end)
    ensures OfTypeIn(Records(m, addr, end), group, typeId)
            == (if OfType(RecordAt(m, addr), group, typeId) then [RecordAt(m, addr)] else [])
               + OfTypeIn(Records(m, addr + TypeSize(m, addr), end), group, typeId)
  {
    hide RecordAt, TypeSize, OfType;
    assert Records(m, addr, end)[1..] == Records(m, addr + TypeSize(m, addr), end);
  }

  lemma WalkEnd(m: Memory, addr: nat, end: nat, group: uint32, typeId: uint32)
    requires Walkable(m, addr, end) && addr >= end
    ensures OfTypeIn(Records(m, addr, end), group, typeId) == []
  {
  }

  // ----- Writing an APOB -----

  /** A record as it is written: the header fields and what follows them, its HMAC first. */
  datatype Item = Item(group: uint32, typeId: uint32, instance: uint32, rest: seq<uint8>)

  function ItemBytes(x: Item): (b: seq<uint8>)
    requires 16 + |x.rest| < 0x1_0000_0000
  {
    Enc32(x.group) + Enc32(x.typeId) + Enc32(x.instance) + Enc32(16 + |x.rest|) + x.rest
  }

  function ItemsBytes(xs: seq<Item>): (b: seq<uint8>)
    requires forall x :: x in xs ==> 16 + |x.rest| < 0x1_0000_0000
  {
    if xs == [] then [] else ItemBytes(xs[0]) + ItemsBytes(xs[1..])
  }

  /** The letters APOB, the version, the size of the whole and the offset of the first record. */
  function ApobBytes(version: uint32, xs: seq<Item>): (b: seq<uint8>)
    requires forall x :: x in xs ==> 16 + |x.rest| < 0x1_0000_0000
    requires 16 + |ItemsBytes(xs)| < 0x1_0000_0000
  {
    [0x41, 0x50, 0x4F, 0x42] + Enc32(version) + Enc32(16 + |ItemsBytes(xs)|) + Enc32(16) + ItemsBytes(xs)
  }

  /** The records that lie at addr and behind it. */
  function ItemRecords(xs: seq<Item>, addr: nat): (rs: seq<Record>) {
    if xs == [] then []
    else
      [Record(addr, xs[0].group, xs[0].typeId, xs[0].instance)] + ItemRecords(xs[1..], addr + 16 + |xs[0].rest|)
  }

  lemma Field(m: Memory, addr: nat, b: seq<uint8>, o: nat, v: uint32)
    requires addr + |b| <= |m.bytes| && m.bytes[addr..addr + |b|] == b && o + 4 <= |b| && b[o..o + 4] == Enc32(v)
    ensures m.Readable(addr + o, 4) && m.Word(addr + o) == v
  {
    hide U32, Enc32;
    assert m.bytes[addr + o..addr + o + 4] == m.bytes[addr..addr + |b|][o..o + 4];
    ReadBack32(m.bytes, addr + o, v);
  }

  lemma ItemRead(m: Memory, addr: nat, x: Item)
    requires 16 + |x.rest| < 0x1_0000_0000 && addr + 16 + |x.rest| <= |m.bytes|
    requires m.bytes[addr..addr + 16 + |x.rest|] == ItemBytes(x)
    ensures m.Readable(addr, 16) && RecordAt(m, addr) == Record(addr, x.group, x.typeId, x.instance)
    ensures TypeSize(m, addr) == 16 + |x.rest|
  {
    hide Enc32, U32;
    var b := ItemBytes(x);
    assert b[0..4] == Enc32(x.group) && b[4..8] == Enc32(x.typeId);
    assert b[8..12] == Enc32(x.instance) && b[12..16] == Enc32(16 + |x.rest|);
    Field(m, addr, b, 0, x.group);
    Field(m, addr, b, 4, x.typeId);
    Field(m, addr, b, 8, x.instance);
    Field(m, addr, b, 12, 16 + |x.rest|);
  }

  lemma {:induction false} ItemsRead(m: Memory, addr: nat, xs: seq<Item>)
    requires forall x :: x in xs ==> 16 + |x.rest| < 0x1_0000_0000
    requires addr + |ItemsBytes(xs)| <= |m.bytes| && m.bytes[addr..addr + |ItemsBytes(xs)|] == ItemsBytes(xs)
    ensures var end := addr + |ItemsBytes(xs)|;
            Walkable(m, addr, end) && Records(m, addr, end) == ItemRecords(xs, addr)
    decreases |xs|
  {
    hide RecordAt, TypeSize, Walkable, Records, ItemBytes;
    if xs == [] {
      WalkedAll(m, addr);
    } else {
      var x, rest := xs[0], xs[1..];
      var b, c := ItemBytes(x), ItemsBytes(rest);
      ItemLength(x);
      SplitBytes(m, addr, b, c);
      ItemRead(m, addr, x);
      ItemsRead(m, addr + |b|, rest);
      OneMoreRecord(m, addr, addr + |b + c|);
    }
  }

  lemma WalkedAll(m: Memory, addr: nat)
    ensures Walkable(m, addr, addr) && Records(m, addr, addr) == []
  {
  }

  lemma OneMoreRecord(m: Memory, addr: nat, end: nat)
    requires addr < end && m.Readable(addr, 16) && TypeSize(m, addr) > 0
    requires Walkable(m, addr + TypeSize(m, addr), end)
    ensures Walkable(m, addr, end)
    ensures Records(m, addr, end) == [RecordAt(m, addr)] + Records(m, addr + TypeSize(m, addr), end)
  {
    hide RecordAt, TypeSize;
  }

  lemma SplitBytes(m: Memory, addr: nat, b: seq<uint8>, c: seq<uint8>)
    requires addr + |b + c| <= |m.bytes| && m.bytes[addr..addr + |b + c|] == b + c
    ensures m.bytes[addr..addr + |b|] == b && m.bytes[addr + |b|..addr + |b + c|] == c
  {
    var s := m.bytes[addr..addr + |b + c|];
    assert m.bytes[addr..addr + |b|] == s[..|b|];
    assert m.bytes[addr + |b|..addr + |b + c|] == s[|b|..];
  }

  lemma ItemLength(x: Item)
    requires 16 + |x.rest| < 0x1_0000_0000
    ensures |ItemBytes(x)| == 16 + |x.rest|
  {
  }

  /** Round trip: an APOB written anywhere in memory is accepted, and the walk finds exactly the records
      written, in order and at their addresses. */
  lemma WrittenIsRead(m: Memory, base: nat, version: uint32, xs: seq<Item>)
    requires forall x :: x in xs ==> 16 + |x.rest| < 0x1_0000_0000
    requires 16 + |ItemsBytes(xs)| < 0x1_0000_0000
    requires base + 16 + |ItemsBytes(xs)| <= |m.bytes|
    requires m.bytes[base..base + 16 + |ItemsBytes(xs)|] == ApobBytes(version, xs)
    ensures WellFormed(m, base) && Signature(m, base) == APOB_SIGNATURE && Version(m, base) == version
    ensures AllRecords(m, base) == ItemRecords(xs, base + 16)
  {
    hide Enc32, U32, ItemsBytes, Walkable, Records, ItemRecords;
    var b, c := ApobBytes(version, xs), ItemsBytes(xs);
    SignatureBytes();
    assert b[0..4] == Enc32(APOB_SIGNATURE) && b[4..8] == Enc32(version);
    assert b[8..12] == Enc32(16 + |c|) && b[12..16] == Enc32(16);
    Field(m, base, b, 0, APOB_SIGNATURE);
    Field(m, base, b, 4, version);
    Field(m, base, b, 8, 16 + |c|);
    Field(m, base, b, 12, 16);
    assert m.bytes[base + 16..base + 16 + |c|] == b[16..] == c;
    ItemsRead(m, base + 16, xs);
  }

  lemma SignatureBytes()
    ensures Enc32(APOB_SIGNATURE) == [0x41, 0x50, 0x4F, 0x42]
  {
  }

  // ----- The library -----

  class Library {
    const memory: Memory
    /** CONFIG_PLAT_APOB_ADDRESS */
    const defaultBase: nat
    var supported: bool
    var apobAddr: nat

    constructor (memory: Memory, defaultBase: nat)
      ensures this.memory == memory && this.defaultBase == defaultBase && !supported
    {
      this.memory := memory;
      this.defaultBase := defaultBase;
      supported := false;
      apobAddr := 0;
    }

    /** The address an initialisation would look at. */
    function Candidate(base: nat): (addr: nat) {
      if base != 0 then base else defaultBase
    }

    predicate Accepts(addr: nat) {
      && memory.Readable(addr, 16) && Signature(memory, addr) == APOB_SIGNATURE
      && Size(memory, addr) != 0 && Size(memory, addr) != 0xFFFF_FFFF
    }

    /** A cached address was accepted when it was cached. */
    ghost predicate Valid()
      reads this
    {
      supported ==> Accepts(apobAddr)
    }

    /** ApobInit: the address is taken once and never changed again. */
    method Init(base: nat) returns (status: Status)
      requires Valid() && (!supported ==> memory.Readable(Candidate(base), 16))
      modifies this
      ensures Valid() && (old(supported) ==> supported && apobAddr == old(apobAddr) && status == SilPass)
      ensures !old(supported) ==>
                && (status == SilPass <==> Accepts(Candidate(base)))
                && supported == (status == SilPass)
                && apobAddr == (if supported then Candidate(base) else old(apobAddr))
                && (status != SilPass ==>
                      status == if Signature(memory, Candidate(base)) != APOB_SIGNATURE then SilUnsupported
                                else SilOutOfResources)
    {
      if !supported {
        var addr := Candidate(base);
        if Signature(memory, addr) != APOB_SIGNATURE {
          return SilUnsupported;
        }
        if Size(memory, addr) == 0 || Size(memory, addr) == 0xFFFF_FFFF {
          return SilOutOfResources;
        }
        supported := true;
        apobAddr := addr;
      }
      status := SilPass;
    }

    /** The base whose records a lookup uses, if there is one. */
    ghost function BaseFor(base: nat): (b: Option<nat>)
      reads this
    {
      if supported then Some(apobAddr) else if Accepts(Candidate(base)) then Some(Candidate(base)) else None
    }

    /** What the code relies on: the APOB it will walk is well formed, and no type has more records
        than the array of the caller holds. */
    ghost predicate Usable(base: nat, group: uint32, typeId: uint32)
      reads this
    {
      && (!supported ==> memory.Readable(Candidate(base), 16))
      && (BaseFor(base).Some? ==>
            WellFormed(memory, BaseFor(base).value)
            && |OfTypeIn(AllRecords(memory, BaseFor(base).value), group, typeId)| <= 255)
    }

    /** AmdGetApobEntry: the records of a group and type. */
    method GetEntries(group: uint32, typeId: uint32, base: nat, entries: array<Record>) returns (status: Status, n: nat)
      requires Valid() && Usable(base, group, typeId) && entries.Length == ENTRY_INSTANCE_MAX
      modifies this, entries
      ensures Valid() && n <= entries.Length
      ensures var b := old(BaseFor(base));
              && (b.Some? ==> supported && apobAddr == b.value) && (b.None? ==> !supported)
              && (b.None? ==> n == 0 && status == SilOutOfResources)
              && (b.Some? && Version(memory, b.value) < 5 ==> n == 0 && status == SilUnsupported)
              && (b.Some? && Version(memory, b.value) >= 5 ==>
                    entries[..n] == OfTypeIn(AllRecords(memory, b.value), group, typeId)
                    && status == if n == 0 then SilNotFound else SilPass)
    {
      n := 0;
      ghost var b := BaseFor(base);
      status := Init(base);
      if status != SilPass {
        return SilOutOfResources, 0;
      }
      assert b == Some(apobAddr);
      if Version(memory, apobAddr) < 5 {
        return SilUnsupported, 0;
      }
      n := Walk(apobAddr, group, typeId, entries);
      status := if n == 0 then SilNotFound else SilPass;
    }

    /** The loop of AmdGetApobEntry. */
    method Walk(b: nat, group: uint32, typeId: uint32, entries: array<Record>) returns (n: nat)
      requires WellFormed(memory, b) && entries.Length == ENTRY_INSTANCE_MAX
      requires |OfTypeIn(AllRecords(memory, b), group, typeId)| <= ENTRY_INSTANCE_MAX
      modifies entries
      ensures n <= entries.Length && entries[..n] == OfTypeIn(AllRecords(memory, b), group, typeId)
    {
      hide RecordAt, TypeSize, Walkable, Records, OfTypeIn, OfType;
      ghost var all := OfTypeIn(AllRecords(memory, b), group, typeId);
      var addr, end := b + FirstEntry(memory, b), b + Size(memory, b);
      n := 0;
      while addr < end
        invariant n <= entries.Length && Walkable(memory, addr, end)
        invariant all == entries[..n] + OfTypeIn(Records(memory, addr, end), group, typeId)
        decreases end - addr
      {
        WalkStep(memory, addr, end, group, typeId);
        var r, next := RecordAt(memory, addr), addr + TypeSize(memory, addr);
        if OfType(r, group, typeId) {
          ghost var rest := OfTypeIn(Records(memory, next, end), group, typeId);
          assert entries[..n] + ([r] + rest) == (entries[..n] + [r]) + rest;
          entries[n] := r;
          n := n + 1;
        }
        addr := next;
      }
      WalkEnd(memory, addr, end, group, typeId);
    }

    /** AmdGetApobEntryInstance. Failures to set up the APOB also read as not found. */
    method GetEntryInstance(group: uint32, typeId: uint32, instance: uint32, base: nat) returns (a: Answer)
      requires Valid() && Usable(base, group, typeId)
      modifies this
      ensures Valid()
      ensures var b := old(BaseFor(base));
              && (b.Some? ==> supported && apobAddr == b.value) && (b.None? ==> !supported)
              && (b.None? || Version(memory, b.value) < 5 ==> a == Answer(SilNotFound, None))
              && (b.Some? && Version(memory, b.value) >= 5 ==>
                    IsAnswer(AllRecords(memory, b.value), group, typeId, instance, a))
    {
      hide IsAnswer, AllRecords, WellFormed;
      var entries := new Record[ENTRY_INSTANCE_MAX](_ => Record(0, 0, 0, 0));
      ghost var b := BaseFor(base);
      var status, n := GetEntries(group, typeId, base, entries);
      if n == 0 {
        a := Answer(SilNotFound, None);
      } else {
        a := Scan(entries[..n], instance);
      }
      if b.Some? && Version(memory, b.value) >= 5 {
        TwoPassesAnswer(AllRecords(memory, b.value), group, typeId, instance);
      }
    }
  }

  lemma InstancesEnds(ms: seq<Record>, instance: uint32)
    ensures ms[0..] == ms && InstancesIn(ms[|ms|..], instance) == []
  {
  }

  lemma InstancesStep(ms: seq<Record>, instance: uint32, i: nat)
    requires i < |ms|
    ensures InstancesIn(ms[i..], instance)
            == (if ms[i].instance == instance then [ms[i].addr] else []) + InstancesIn(ms[i + 1..], instance)
  {
    assert ms[i..][1..] == ms[i + 1..];
  }

  /** The second loop of AmdGetApobEntryInstance. */
  method Scan(ms: seq<Record>, instance: uint32) returns (a: Answer)
    ensures a == Decide(InstancesIn(ms, instance))
  {
    hide InstancesIn;
    InstancesEnds(ms, instance);
    var count := 0;
    var last := 0;
    ghost var all := InstancesIn(ms, instance);
    ghost var seen: seq<nat> := [];
    for i := 0 to |ms|
      invariant all == seen + InstancesIn(ms[i..], instance)
      invariant count == |seen| && (seen != [] ==> last == seen[|seen| - 1])
    {
      InstancesStep(ms, instance, i);
      ghost var rest := InstancesIn(ms[i + 1..], instance);
      if ms[i].instance == instance {
        count := count + 1;
        last := ms[i].addr;
        assert seen + ([last] + rest) == (seen + [last]) + rest;
        seen := seen + [last];
      } else {
        assert [] + rest == rest;
      }
    }
    a := if count == 0 then Answer(SilNotFound, None)
         else if count == 1 then Answer(SilPass, Some(last))
         else Answer(SilUnsupported, None);
  }
}
