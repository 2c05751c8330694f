/** The operations on the host block (xSIM/xSIM.c, xUSL/CommonLib/SilServices.c). The memory base is
    the reference to the host's byte array; positions in it are offsets from the base. */
module SilHeap {
  import opened Options
  import opened Bytes
  import opened SilStatus
  import opened InfoBlocks
  import opened Sizing

  /** memset and memcpy into the host block. */
  method Store(mem: array<uint8>, o: nat, s: seq<uint8>)
    requires o + |s| <= mem.Length
    modifies mem
    ensures mem[..] == Put(old(mem[..]), o, s)
  {
    for i := 0 to |s|
      invariant mem[..] == Put(old(mem[..]), o, s[..i])
    {
      mem[o + i] := s[i];
    }
    assert s[..|s|] == s;
  }

  /** SilCreateInfoBlock on the bytes of the host block, which hold the allocator a. */
  method CreateIn(mem: array<uint8>, ghost a: Alloc, r: Request) returns (data: Option<nat>)
    requires Represents(mem[..], a) && r.dataSize < TWO_64 - 16
    modifies mem
    ensures mem[..] == CreateBytes(old(mem[..]), r)
    ensures data == if a.left <= RequestSize(r.dataSize) then None else Some(a.free + HEADER_SIZE)
  {
    hide U32, Enc32, RequestSize, Tiles, Put, BlockImage;
    RequestSizeFits(r.dataSize);
    var size := RequestSize(r.dataSize);
    var off, left := U32(mem[..], FREE_SPACE_OFFSET), U32(mem[..], FREE_SPACE_LEFT);
    if left <= size {
      return None;
    }
    Store(mem, FREE_SPACE_OFFSET, Enc32(off + size));
    Store(mem, FREE_SPACE_LEFT, Enc32(left - size));
    StoreImage(mem, off, r, size);
    data := Some(off + HEADER_SIZE);
  }

  class Heap {
    var base: array?<uint8>
    ghost var alloc: Alloc

    constructor ()
      ensures base == null
    {
      base := null;
    }

    ghost predicate Valid()
      reads this, base
    {
      base != null && Represents(base[..], alloc)
    }

    /** SilCreateInfoBlock: the data offset of the new block, or None for the null pointer. */
    method CreateInfoBlock(r: Request) returns (data: Option<nat>)
      requires (base == null || Valid()) && r.dataSize < TWO_64 - 16
      modifies this`alloc, base
      ensures old(base) == null ==> data == None
      ensures old(base) != null ==>
                && Valid() && alloc == Create(old(alloc), r) && base[..] == CreateBytes(old(base[..]), r)
                && data == if old(alloc.left) <= RequestSize(r.dataSize) then None
                           else Some(old(alloc.free) + HEADER_SIZE)
      ensures data.Some? ==> forall i :: data.value <= i < alloc.free ==> base[i] == 0
    {
      if base == null {
        return None;
      }
      CreateRepresents(base[..], alloc, r);
      hide *;
      data := CreateIn(base, alloc, r);
      alloc := Create(alloc, r);
    }

    function ReadWord(o: nat): (v: uint32)
      requires base != null && o + 4 <= base.Length
      reads this, base
    {
      U32(base[..], o)
    }

    /** xUslFindStructure */
    method FindStructure(id: uint32, instance: uint16) returns (data: Option<nat>)
      requires Valid()
      ensures data == Lookup(alloc.blocks, id, instance)
    {
      hide U32, U16, Represents;
      assert Represents(base[..], alloc);
      RepresentsFacts(base[..], alloc);
      var pos := VARS_SIZE;
      var freeSpaceBase := ReadWord(FREE_SPACE_OFFSET);
      ghost var k := 0;
      assert alloc.blocks[0..] == alloc.blocks;
      while pos < freeSpaceBase
        invariant 0 <= k <= |alloc.blocks| && pos == Start(alloc.blocks, k) && freeSpaceBase == alloc.free
        invariant Lookup(alloc.blocks, id, instance) == Lookup(alloc.blocks[k..], id, instance)
        decreases |alloc.blocks| - k
      {
        ChainPosition(base[..], alloc, k);
        var header := HeaderAt(base[..], pos);
        if header.id == id && header.instance == instance {
          return Some(pos + HEADER_SIZE);
        }
        assert alloc.blocks[k..][1..] == alloc.blocks[k + 1..];
        pos := pos + header.size;
        k := k + 1;
      }
      ChainPosition(base[..], alloc, k);
      data := None;
    }

    /** SilInitIp2IpApi and SilInitCommon2RevXferTable */
    method RegisterApi(xferTable: bool, id: nat, api: uint64) returns (status: Status)
      requires Valid()
      modifies base
      ensures Valid() && alloc == old(alloc)
      ensures status == if id >= ID_LIST_END then SilInvalidParameter else SilPass
      ensures base[..] == StepBytes(old(base[..]), InfoBlocks.RegisterApi(xferTable, id, api))
      ensures forall i :: VARS_SIZE <= i < base.Length ==> base[i] == old(base[i])
    {
      hide U32, Enc64, Tiles, HeaderAt;
      StepRepresents(base[..], alloc, InfoBlocks.RegisterApi(xferTable, id, api));
      if id >= ID_LIST_END {
        return SilInvalidParameter;
      }
      Store(base, ApiSlot(xferTable, id), Enc64(api));
      status := SilPass;
    }

    /** SilGetIp2IpApi and SilGetCommon2RevXferTable: 0 is the null pointer. Whatever run led here, the
        answer is the interface registered last. */
    method GetApi(xferTable: bool, id: nat) returns (status: Status, api: uint64)
      requires Valid() && id < ID_LIST_END
      ensures api == Api(base[..], xferTable, id)
      ensures status == if api == 0 then SilNotFound else SilPass
      ensures forall b, a, ops :: Represents(b, a) && Legal(a, ops) && base[..] == RunBytes(b, a, ops) ==>
                api == LastApi(ops, xferTable, id, Api(b, xferTable, id))
    {
      api := U64(base[..], ApiSlot(xferTable, id));
      status := if api == 0 then SilNotFound else SilPass;
      hide U64, U32, Tiles, RunBytes, Legal, LastApi;
      forall b, a, ops | Represents(b, a) && Legal(a, ops) && base[..] == RunBytes(b, a, ops)
        ensures api == LastApi(ops, xferTable, id, Api(b, xferTable, id))
      {
        ApiIsLastRegistered(b, a, ops, xferTable, id);
      }
    }

    /** The calls an IP's ApiInit function makes. */
    method RegisterAll(apis: seq<Registration>)
      requires Valid()
      modifies base
      ensures Valid() && alloc == old(alloc)
      ensures forall x, id :: 0 <= id < ID_LIST_END ==>
                Api(base[..], x, id) == LastApi(Ops(apis), x, id, Api(old(base[..]), x, id))
      ensures forall i :: VARS_SIZE <= i < base.Length ==> base[i] == old(base[i])
    {
      hide Tiles, U32, Api, LastApi, Ops, StepBytes;
      assert apis[0..] == apis;
      for j := 0 to |apis|
        invariant Valid() && base == old(base) && alloc == old(alloc)
        invariant forall i :: VARS_SIZE <= i < base.Length ==> base[i] == old(base[i])
        invariant forall x, id :: 0 <= id < ID_LIST_END ==>
                    LastApi(Ops(apis[j..]), x, id, Api(base[..], x, id))
                    == LastApi(Ops(apis), x, id, Api(old(base[..]), x, id))
      {
        ghost var b := base[..];
        var r := apis[j];
        ghost var op := InfoBlocks.RegisterApi(r.xferTable, r.id, r.api);
        forall x, id | 0 <= id < ID_LIST_END
          ensures |StepBytes(b, op)| == |b|
          ensures LastApi(Ops(apis[j..]), x, id, Api(b, x, id))
                  == LastApi(Ops(apis[j + 1..]), x, id, Api(StepBytes(b, op), x, id))
        {
          ApiStep(b, alloc, op, x, id);
          OpsStep(apis, j, x, id, Api(b, x, id));
        }
        var _ := RegisterApi(r.xferTable, r.id, r.api);
      }
      assert apis[|apis|..] == [];
      NoOps();
    }

    /** xSimInitializeIpApis */
    method InitializeIpApis(rs: seq<IpRecord>) returns (status: Status)
      requires Valid()
      modifies base
      ensures Valid() && alloc == old(alloc) && status == ApiStatus(rs)
      ensures forall x, id :: 0 <= id < ID_LIST_END ==>
                Api(base[..], x, id) == ApiAfter(rs, x, id, Api(old(base[..]), x, id))
      ensures forall i :: VARS_SIZE <= i < base.Length ==> base[i] == old(base[i])
    {
      hide Tiles, U32, Api, LastApi, Ops;
      assert rs[0..] == rs;
      for i := 0 to |rs|
        invariant Valid() && base == old(base) && alloc == old(alloc)
        invariant forall i :: VARS_SIZE <= i < base.Length ==> base[i] == old(base[i])
        invariant ApiStatus(rs) == ApiStatus(rs[i..])
        invariant forall x, id :: 0 <= id < ID_LIST_END ==>
                    ApiAfter(rs[i..], x, id, Api(base[..], x, id)) == ApiAfter(rs, x, id, Api(old(base[..]), x, id))
      {
        assert rs[i..][1..] == rs[i + 1..];
        if rs[i].apiInit.Some? {
          RegisterAll(rs[i].apiInit.value.apis);
          if rs[i].apiInit.value.status != SilPass {
            return rs[i].apiInit.value.status;
          }
        }
      }
      status := SilPass;
    }

    /** xSimAssignMemoryTp1 */
    method AssignMemoryTp1(mem: array<uint8>, memorySize: uint64, rs: seq<IpRecord>) returns (status: Status)
      requires VARS_SIZE <= memorySize <= mem.Length && VARS_SIZE <= memorySize % TWO_32
      requires forall r :: r in rs && r.setInput.Some? ==> SizesFit(r.setInput.value.creates)
      modifies this, mem
      ensures base == mem && Valid()
      ensures var a := Alloc([], VARS_SIZE, memorySize % TWO_32 - VARS_SIZE);
              (alloc, status) == if ApiStatus(rs) != SilPass then (a, ApiStatus(rs)) else SetInputs(a, rs)
      ensures forall x, id :: 0 <= id < ID_LIST_END ==>
                Api(mem[..], x, id) == ApiAfter(rs, x, id, Api(old(mem[..]), x, id))
    {
      hide Represents, Api, ApiAfter, ApiStatus, SetInputs;
      SetUpVariables(mem, memorySize);
      status := InitializeIpApis(rs);
      if status == SilPass {
        status := RunSetInputs(rs);
      }
    }

    /** The block variables of an empty heap. */
    method SetUpVariables(mem: array<uint8>, memorySize: uint64)
      requires VARS_SIZE <= memorySize <= mem.Length && VARS_SIZE <= memorySize % TWO_32
      modifies this, mem
      ensures base == mem && Valid() && alloc == Alloc([], VARS_SIZE, memorySize % TWO_32 - VARS_SIZE)
      ensures SameApis(old(mem[..]), mem[..])
      ensures IsLe32(mem[..], 0, memorySize % TWO_32) && IsLe32(mem[..], 4, 392)
      ensures IsLe32(mem[..], 8, memorySize % TWO_32 - 392)
      ensures forall i :: 12 <= i < mem.Length ==> mem[i] == old(mem[i])
    {
      hide Represents, U32, Enc32, IsLe32, Put, SameApis;
      base := mem;
      Store(mem, HOST_BLOCK_SIZE, Enc32(memorySize % TWO_32));
      Store(mem, FREE_SPACE_OFFSET, Enc32(VARS_SIZE));
      Store(mem, FREE_SPACE_LEFT, Enc32((memorySize - VARS_SIZE) % TWO_32));
      alloc := Alloc([], VARS_SIZE, memorySize % TWO_32 - VARS_SIZE);
      Tp1Accounting(memorySize);
      VariablesSet(old(mem[..]), memorySize % TWO_32);
      assert forall i :: 12 <= i < mem.Length ==> mem[i] == mem[..][i] == old(mem[..])[i];
    }

    /** The record loop of xSimAssignMemoryTp1. */
    method RunSetInputs(rs: seq<IpRecord>) returns (status: Status)
      requires Valid() && forall r :: r in rs && r.setInput.Some? ==> SizesFit(r.setInput.value.creates)
      modifies this`alloc, base
      ensures Valid() && (alloc, status) == SetInputs(old(alloc), rs)
      ensures SameApis(old(base[..]), base[..])
    {
      hide Represents, U32, Api, DoSetInput;
      NoStep(base[..], alloc);
      assert rs[0..] == rs;
      for i := 0 to |rs|
        invariant base == old(base) && Valid() && SameApis(old(base[..]), base[..])
        invariant SetInputs(old(alloc), rs) == SetInputs(alloc, rs[i..])
      {
        assert rs[i..][1..] == rs[i + 1..];
        if rs[i].blkRequestSize == 0 {
          continue;
        }
        RepresentsFacts(base[..], alloc);
        if rs[i].blkRequestSize > ReadWord(FREE_SPACE_LEFT) {
          return SilOutOfResources;
        }
        if rs[i].setInput.Some? {
          assert rs[i] in rs;
          status := RunSetInput(rs[i].setInput.value);
          if status != SilPass {
            return;
          }
        }
      }
      status := SilPass;
    }

    /** The calls an IP's SetInput function makes. */
    method RunSetInput(s: SetInput) returns (status: Status)
      requires Valid() && SizesFit(s.creates)
      modifies this`alloc, base
      ensures Valid() && (alloc, status) == DoSetInput(old(alloc), s)
      ensures SameApis(old(base[..]), base[..])
    {
      hide Represents, RequestSize, SameApis, CreateBytes;
      assert s.creates[0..] == s.creates;
      NoStep(base[..], alloc);
      for i := 0 to |s.creates|
        invariant Valid() && base == old(base) && SameApis(old(base[..]), base[..])
        invariant DoSetInput(old(alloc), s) == DoSetInput(alloc, SetInput(s.creates[i..], s.status))
      {
        assert s.creates[i] in s.creates;
        assert s.creates[i..][1..] == s.creates[i + 1..];
        CreateKeepsApis(old(base[..]), base[..], alloc, s.creates[i]);
        var data := CreateInfoBlock(s.creates[i]);
        if data.None? {
          return SilAborted;
        }
      }
      status := s.status;
    }

    /** xSimAssignMemoryTp2 and xSimAssignMemoryTp3: the host has copied the block to mem. The
        allocator, and with it every lookup relative to the new base, is the one of the old base. */
    method AssignMemoryAgain(mem: array<uint8>, rs: seq<IpRecord>) returns (status: Status)
      requires Valid()
      requires var n := alloc.free + alloc.left; n <= mem.Length && n <= base.Length && mem[..n] == base[..n]
      modifies this`base, mem
      ensures base == mem && Valid() && alloc == old(alloc) && status == ApiStatus(rs)
      ensures forall x, id :: 0 <= id < ID_LIST_END ==>
                Api(mem[..], x, id) == ApiAfter(rs, x, id, Api(old(mem[..]), x, id))
      ensures forall i :: VARS_SIZE <= i < mem.Length ==> mem[i] == old(mem[i])
    {
      hide Represents, Api, ApiAfter;
      Relocate(base[..], mem[..], alloc) by {
        var n := alloc.free + alloc.left;
        assert mem[..][..n] == mem[..n] && base[..][..n] == base[..n];
      }
      base := mem;
      status := InitializeIpApis(rs);
    }
  }

  /** The API tables agree. */
  ghost predicate SameApis(b: seq<uint8>, b': seq<uint8>) {
    && VARS_SIZE <= |b| && VARS_SIZE <= |b'|
    && forall x, id :: 0 <= id < ID_LIST_END ==> Api(b', x, id) == Api(b, x, id)
  }

  lemma NoStep(b: seq<uint8>, a: Alloc)
    requires Represents(b, a)
    ensures SameApis(b, b)
  {
  }

  /** The bytes after the three assignments to the block variables. */
  lemma VariablesSet(m: seq<uint8>, n: uint32)
    requires VARS_SIZE <= n && VARS_SIZE <= |m| && n <= |m|
    ensures var b := Put(Put(Put(m, 0, Enc32(n)), 4, Enc32(VARS_SIZE)), 8, Enc32(n - VARS_SIZE));
            && Represents(b, Alloc([], VARS_SIZE, n - VARS_SIZE)) && SameApis(m, b)
            && IsLe32(b, 0, n) && IsLe32(b, 4, 392) && IsLe32(b, 8, n - 392)
            && forall i :: 12 <= i < |m| ==> b[i] == m[i]
  {
    hide Represents, U32, Enc32, IsLe32, SameApis;
    var b := Put(Put(Put(m, 0, Enc32(n)), 4, Enc32(VARS_SIZE)), 8, Enc32(n - VARS_SIZE));
    assert b[0..4] == Enc32(n);
    assert b[4..8] == Enc32(VARS_SIZE);
    assert b[8..12] == Enc32(n - VARS_SIZE);
    EmptyHeap(b, n);
    ApisAfterVariables(m, b);
    Enc32IsLe(b, 0, n);
    Enc32IsLe(b, 4, VARS_SIZE);
    Enc32IsLe(b, 8, n - VARS_SIZE);
  }

  lemma ApisAfterVariables(b: seq<uint8>, b': seq<uint8>)
    requires VARS_SIZE <= |b| == |b'| && forall i :: IP2IP_API <= i < VARS_SIZE ==> b'[i] == b[i]
    ensures SameApis(b, b')
  {
    hide U64;
    forall x, id | 0 <= id < ID_LIST_END
      ensures Api(b', x, id) == Api(b, x, id)
    {
      SameWord(b, b', ApiSlot(x, id));
    }
  }

  lemma CreateKeepsApis(b: seq<uint8>, b': seq<uint8>, a: Alloc, r: Request)
    requires SameApis(b, b') && Represents(b', a) && r.dataSize < TWO_64 - 16
    ensures SameApis(b, CreateBytes(b', r))
  {
    hide Api, CreateBytes, Tiles, U32;
    CreateRepresents(b', a, r);
    forall x, id | 0 <= id < ID_LIST_END
      ensures Api(CreateBytes(b', r), x, id) == Api(b, x, id)
    {
      ApiStep(b', a, CreateBlock(r), x, id);
    }
  }

  lemma NoOps()
    ensures Ops([]) == [] && forall x, id, v :: LastApi([], x, id, v) == v
  {
  }

  /** The memset and the header assignments of SilCreateInfoBlock. */
  method StoreImage(mem: array<uint8>, off: nat, r: Request, size: uint32)
    requires HEADER_SIZE < size && off + size <= mem.Length
    modifies mem
    ensures |BlockImage(r, size)| == size
    ensures mem[..] == Put(old(mem[..]), off, BlockImage(r, size))
  {
    hide Enc32, Enc16, Put, BlockImage;
    ghost var m := mem[..];
    var z := Zeros(size);
    Store(mem, off, z);
    Store(mem, off, Enc32(r.id));
    Store(mem, off + 8, Enc32(size));
    Store(mem, off + 4, Enc16(r.instance));
    Store(mem, off + 6, [r.major]);
    Store(mem, off + 7, [r.minor]);
    ghost var z1 := Put(z, 0, Enc32(r.id));
    ghost var z2 := Put(z1, 8, Enc32(size));
    ghost var z3 := Put(z2, 4, Enc16(r.instance));
    ghost var z4 := Put(z3, 6, [r.major]);
    PutPut(m, off, z, 0, Enc32(r.id));
    PutPut(m, off, z1, 8, Enc32(size));
    PutPut(m, off, z2, 4, Enc16(r.instance));
    PutPut(m, off, z3, 6, [r.major]);
    PutPut(m, off, z4, 7, [r.minor]);
    ImageByParts(r, size);
  }

  lemma PutPut(m: seq<uint8>, o: nat, s: seq<uint8>, i: nat, t: seq<uint8>)
    requires o + |s| <= |m| && i + |t| <= |s|
    ensures Put(Put(m, o, s), o + i, t) == Put(m, o, Put(s, i, t))
  {
  }

  lemma ImageByParts(r: Request, size: uint32)
    requires HEADER_SIZE < size
    ensures var z := Put(Put(Put(Zeros(size), 0, Enc32(r.id)), 8, Enc32(size)), 4, Enc16(r.instance));
            Put(Put(z, 6, [r.major]), 7, [r.minor]) == BlockImage(r, size)
  {
    hide Enc32, Enc16;
  }

  lemma EmptyHeap(b: seq<uint8>, n: uint32)
    requires VARS_SIZE <= n <= |b|
    requires b[0..4] == Enc32(n) && b[4..8] == Enc32(VARS_SIZE) && b[8..12] == Enc32(n - VARS_SIZE)
    ensures Represents(b, Alloc([], VARS_SIZE, n - VARS_SIZE))
  {
    hide U32, Enc32;
    ReadBack32(b, HOST_BLOCK_SIZE, n);
    ReadBack32(b, FREE_SPACE_OFFSET, VARS_SIZE);
    ReadBack32(b, FREE_SPACE_LEFT, n - VARS_SIZE);
  }

  /** A heap depends on the bytes up to the end of its free space only. */
  lemma Relocate(b: seq<uint8>, b': seq<uint8>, a: Alloc)
    requires Represents(b, a)
    requires var n := a.free + a.left; n <= |b| && n <= |b'| && b'[..n] == b[..n]
    ensures Represents(b', a)
  {
    hide HeaderAt, U32;
    var n := a.free + a.left;
    WordsBelow(b, b', n);
    forall k | 0 <= k < |a.blocks|
      ensures InPlace(b', a.free, a.blocks, k)
    {
      assert InPlace(b, a.free, a.blocks, k);
      HeaderBelow(b, b', n, a.blocks[k].off);
    }
  }

  lemma WordsBelow(b: seq<uint8>, b': seq<uint8>, n: nat)
    requires VARS_SIZE <= n <= |b| && n <= |b'| && b'[..n] == b[..n]
    ensures HostBlockSize(b') == HostBlockSize(b)
    ensures FreeSpaceOffset(b') == FreeSpaceOffset(b) && FreeSpaceLeft(b') == FreeSpaceLeft(b)
  {
    assert forall i :: 0 <= i < n ==> b'[i] == b'[..n][i] && b[i] == b[..n][i];
  }

  lemma HeaderBelow(b: seq<uint8>, b': seq<uint8>, n: nat, off: nat)
    requires off + HEADER_SIZE <= n <= |b| && n <= |b'| && b'[..n] == b[..n]
    ensures HeaderAt(b', off) == HeaderAt(b, off)
  {
    assert forall i :: 0 <= i < n ==> b'[i] == b'[..n][i] && b[i] == b[..n][i];
  }

  lemma RepresentsFacts(b: seq<uint8>, a: Alloc)
    requires Represents(b, a)
    ensures VARS_SIZE <= |b| && U32(b, FREE_SPACE_OFFSET) == a.free <= |b| && U32(b, FREE_SPACE_LEFT) == a.left
  {
  }

  /** The walk is at a header exactly while blocks remain, and reads that block from it. */
  lemma ChainPosition(b: seq<uint8>, a: Alloc, k: nat)
    requires Represents(b, a) && k <= |a.blocks|
    ensures Start(a.blocks, k) < a.free <==> k < |a.blocks|
    ensures k < |a.blocks| ==>
              && a.blocks[k].off == Start(a.blocks, k) && a.blocks[k].off + HEADER_SIZE <= |b|
              && HeaderAt(b, a.blocks[k].off) == a.blocks[k]
  {
    hide HeaderAt;
    if k < |a.blocks| {
      assert InPlace(b, a.free, a.blocks, k);
    }
  }
}
