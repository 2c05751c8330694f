/** The info-block heap that openSIL keeps inside the block of memory it gets from the host
    (xSIM/xSIM.c, xUSL/CommonLib/SilServices.c).

    The block starts with SIL_BLOCK_VARIABLES. Info blocks follow it, each a SIL_INFO_BLOCK_HEADER
    and its data; a header holds the size of its block, which leads to the next header. All offsets
    are relative to the base of the host block. */
module InfoBlocks {
  import opened Options
  import opened Bytes

  /** SilId_ListEnd: the number of data-block identifiers. */
  const ID_LIST_END := 23

  /** Offsets in SIL_BLOCK_VARIABLES, and its size. */
  const HOST_BLOCK_SIZE := 0
  const FREE_SPACE_OFFSET := 4
  const FREE_SPACE_LEFT := 8
  const IP2IP_API := 24
  const XFER_TABLE := IP2IP_API + 8 * ID_LIST_END
  const VARS_SIZE := XFER_TABLE + 8 * ID_LIST_END

  /** The size of SIL_INFO_BLOCK_HEADER. */
  const HEADER_SIZE := 12

  /** What a header says, and where it lies. */
  datatype Block = Block(off: nat, id: uint32, instance: uint16, major: uint8, minor: uint8, size: nat)

  /** The arguments of SilCreateInfoBlock. */
  datatype Request = Request(id: uint32, dataSize: uint64, instance: uint16, major: uint8, minor: uint8)

  // ----- Sizes -----

  /** RoundUp over size_t: always a step up, by the whole unit if the data is already aligned. */
  function RoundUp(data: nat, unit: nat): (r: nat)
    requires unit > 0
  {
    data + unit - data % unit
  }

  /** The size of a block for dataSize bytes of data, computed in 64-bit size_t. */
  function RequestSize(dataSize: uint64): (r: nat) {
    RoundUp((HEADER_SIZE + dataSize) % TWO_64, 4) % TWO_64
  }

  lemma RoundUpBounds(data: nat, unit: nat)
    requires unit == 4 || unit == 2048
    ensures data < RoundUp(data, unit) <= data + unit
    ensures RoundUp(data, unit) % unit == 0
  {
  }

  /** The computed size holds the header and the data, and is a multiple of 4, exactly when the
      64-bit arithmetic does not wrap. */
  lemma RequestSizeFits(dataSize: uint64)
    ensures RequestSize(dataSize) % 4 == 0
    ensures RequestSize(dataSize) > HEADER_SIZE + dataSize <==> dataSize < TWO_64 - 16
    ensures dataSize < TWO_64 - 16 ==> RequestSize(dataSize) == RoundUp(HEADER_SIZE + dataSize, 4)
    ensures dataSize < TWO_64 - 16 ==> dataSize + 12 < RequestSize(dataSize) <= dataSize + 16
  {
    hide RoundUp;
    var t := HEADER_SIZE + dataSize;
    WrapOnce(t);
    var u := t % TWO_64;
    RoundUpBounds(u, 4);
    WrapOnce(RoundUp(u, 4));
  }

  lemma WrapOnce(x: nat)
    requires x < 2 * TWO_64
    ensures x % TWO_64 == if x < TWO_64 then x else x - TWO_64
  {
  }

  // ----- The block variables and headers in memory -----

  function HostBlockSize(b: seq<uint8>): (n: uint32)
    requires VARS_SIZE <= |b|
  {
    U32(b, HOST_BLOCK_SIZE)
  }

  function FreeSpaceOffset(b: seq<uint8>): (n: uint32)
    requires VARS_SIZE <= |b|
  {
    U32(b, FREE_SPACE_OFFSET)
  }

  function FreeSpaceLeft(b: seq<uint8>): (n: uint32)
    requires VARS_SIZE <= |b|
  {
    U32(b, FREE_SPACE_LEFT)
  }

  function HeaderAt(b: seq<uint8>, off: nat): (h: Block)
    requires off + HEADER_SIZE <= |b|
  {
    Block(off, U32(b, off), U16(b, off + 4), b[off + 6], b[off + 7], U32(b, off + 8))
  }

  function Zeros(n: nat): (z: seq<uint8>) {
    seq(n, _ => 0)
  }

  /** The bytes of a fresh block: its header and zeroed data. */
  function BlockImage(r: Request, size: uint32): (s: seq<uint8>)
    requires HEADER_SIZE <= size
  {
    Enc32(r.id) + Enc16(r.instance) + [r.major, r.minor] + Enc32(size) + Zeros(size - HEADER_SIZE)
  }

  /** The memory after SilCreateInfoBlock. */
  function CreateBytes(b: seq<uint8>, r: Request): (b': seq<uint8>)
    requires VARS_SIZE <= |b| && FreeSpaceOffset(b) + FreeSpaceLeft(b) <= |b|
    requires FreeSpaceOffset(b) + FreeSpaceLeft(b) < TWO_32
    requires r.dataSize < TWO_64 - 16
  {
    RequestSizeFits(r.dataSize);
    var size := RequestSize(r.dataSize);
    var off, left := FreeSpaceOffset(b), FreeSpaceLeft(b);
    if left <= size then b
    else
      var b1 := Put(Put(b, FREE_SPACE_OFFSET, Enc32(off + size)), FREE_SPACE_LEFT, Enc32(left - size));
      Put(b1, off, BlockImage(r, size))
  }

  // ----- The abstract allocator -----

  /** The blocks in creation order and the free space behind them. */
  datatype Alloc = Alloc(blocks: seq<Block>, free: nat, left: nat)

  function Create(a: Alloc, r: Request): (a': Alloc) {
    var size := RequestSize(r.dataSize);
    if a.left <= size then a
    else Alloc(a.blocks + [Block(a.free, r.id, r.instance, r.major, r.minor, size)], a.free + size, a.left - size)
  }

  /** Where block k has to start if the blocks lie end to end from the block variables on. */
  function Start(bs: seq<Block>, k: nat): (off: nat)
    requires k <= |bs|
  {
    if k == 0 then VARS_SIZE else bs[k - 1].off + bs[k - 1].size
  }

  ghost predicate BlockInMemory(b: seq<uint8>, k: Block, end: nat) {
    && k.size % 4 == 0 && HEADER_SIZE < k.size && VARS_SIZE <= k.off && k.off + k.size <= end <= |b|
    && HeaderAt(b, k.off) == k
  }

  /** Block k starts where the blocks before it end. */
  ghost predicate InPlace(b: seq<uint8>, end: nat, bs: seq<Block>, k: nat)
    requires k < |bs|
  {
    BlockInMemory(b, bs[k], end) && bs[k].off == Start(bs, k)
  }

  /** The headers in memory tile [VARS_SIZE, end) without gap or overlap, as the blocks say. */
  ghost predicate Tiles(b: seq<uint8>, end: nat, bs: seq<Block>) {
    && (forall k :: 0 <= k < |bs| ==> InPlace(b, end, bs, k))
    && end == Start(bs, |bs|)
  }

  /** The memory b represents the allocator a. */
  ghost predicate Represents(b: seq<uint8>, a: Alloc) {
    && VARS_SIZE <= |b| && FreeSpaceOffset(b) == a.free && FreeSpaceLeft(b) == a.left
    && VARS_SIZE <= a.free && a.free + a.left == HostBlockSize(b) <= |b|
    && Tiles(b, a.free, a.blocks)
  }

  // ----- What each operation keeps -----

  ghost predicate HeaderKept(b: seq<uint8>, b': seq<uint8>, off: nat) {
    off + HEADER_SIZE <= |b| == |b'| && forall i :: off <= i < off + HEADER_SIZE ==> b'[i] == b[i]
  }

  lemma HeaderFrame(b: seq<uint8>, b': seq<uint8>, off: nat)
    requires HeaderKept(b, b', off)
    ensures HeaderAt(b', off) == HeaderAt(b, off)
  {
  }

  lemma TilesFrame(b: seq<uint8>, b': seq<uint8>, end: nat, bs: seq<Block>)
    requires Tiles(b, end, bs) && |b| == |b'|
    requires forall k :: 0 <= k < |bs| ==> HeaderKept(b, b', bs[k].off)
    ensures Tiles(b', end, bs)
  {
    hide HeaderAt, HeaderKept;
    forall k | 0 <= k < |bs|
      ensures InPlace(b', end, bs, k)
    {
      assert InPlace(b, end, bs, k);
      HeaderFrame(b, b', bs[k].off);
    }
  }

  lemma SubSlice(b: seq<uint8>, off: nat, n: nat, i: nat, j: nat)
    requires off + n <= |b| && i <= j <= n
    ensures b[off..off + n][i..j] == b[off + i..off + j]
  {
    var s, t := b[off..off + n][i..j], b[off + i..off + j];
    assert |s| == |t| == j - i;
    forall k | 0 <= k < j - i
      ensures s[k] == t[k]
    {
      assert s[k] == b[off..off + n][i + k] == b[off + (i + k)];
      assert t[k] == b[(off + i) + k];
    }
  }

  lemma ImageIsHeader(b: seq<uint8>, off: nat, r: Request, size: uint32)
    requires HEADER_SIZE < size && off + size <= |b|
    requires b[off..off + size] == BlockImage(r, size)
    ensures HeaderAt(b, off) == Block(off, r.id, r.instance, r.major, r.minor, size)
  {
    hide U32, U16, Enc32, Enc16;
    var s := BlockImage(r, size);
    var t := b[off..off + size];
    SubSlice(b, off, size, 0, 4);
    SubSlice(b, off, size, 4, 6);
    SubSlice(b, off, size, 8, 12);
    assert t[0..4] == Enc32(r.id) && t[4..6] == Enc16(r.instance) && t[8..12] == Enc32(size);
    assert b[off + 6] == t[6] == r.major && b[off + 7] == t[7] == r.minor;
    ReadBack32(b, off, r.id);
    ReadBack16(b, off + 4, r.instance);
    ReadBack32(b, off + 8, size);
  }

  /** A create, granted or refused, does to memory what it does to the abstract allocator; it
      leaves the data of the existing blocks alone, and a refused one changes nothing. */
  lemma CreateRepresents(b: seq<uint8>, a: Alloc, r: Request)
    requires Represents(b, a) && r.dataSize < TWO_64 - 16
    ensures Represents(CreateBytes(b, r), Create(a, r))
    ensures a.left <= RequestSize(r.dataSize) ==> CreateBytes(b, r) == b
    ensures |CreateBytes(b, r)| == |b| && CreateBytes(b, r)[VARS_SIZE..a.free] == b[VARS_SIZE..a.free]
    ensures a.left > RequestSize(r.dataSize) ==>
              forall i :: a.free + 12 <= i < a.free + RequestSize(r.dataSize) ==> CreateBytes(b, r)[i] == 0
  {
    hide Tiles, U32, RequestSize, CreateBytes, Create, FreshBlock, IsLe32;
    RequestSizeFits(r.dataSize);
    CreateOnBytes(b, a, r);
    if a.left > RequestSize(r.dataSize) {
      CreatedBytes(b, a, r);
      FreshIsZero(CreateBytes(b, r), a.free, r, RequestSize(r.dataSize));
    }
  }

  lemma CreateOnBytes(b: seq<uint8>, a: Alloc, r: Request)
    requires Represents(b, a) && r.dataSize < TWO_64 - 16
    ensures Represents(CreateBytes(b, r), Create(a, r))
    ensures a.left <= RequestSize(r.dataSize) ==> CreateBytes(b, r) == b
    ensures |CreateBytes(b, r)| == |b| && CreateBytes(b, r)[VARS_SIZE..a.free] == b[VARS_SIZE..a.free]
  {
    hide U32, Enc32, HeaderAt, RequestSize, BlockImage, Tiles;
    RequestSizeFits(r.dataSize);
    var size := RequestSize(r.dataSize);
    if a.left > size {
      var b1 := Put(b, FREE_SPACE_OFFSET, Enc32(a.free + size));
      var b2 := Put(b1, FREE_SPACE_LEFT, Enc32(a.left - size));
      ImageSize(r, size);
      var b3 := Put(b2, a.free, BlockImage(r, size));
      ReadBack32(b3, FREE_SPACE_OFFSET, a.free + size) by {
        assert b3[4..8] == Enc32(a.free + size);
      }
      ReadBack32(b3, FREE_SPACE_LEFT, a.left - size) by {
        assert b3[8..12] == Enc32(a.left - size);
      }
      HostBlockSizeFrame(b, b3);
      TilesAppend(b, b3, a, r, size) by {
        assert b3[a.free..a.free + size] == BlockImage(r, size);
      }
      assert CreateBytes(b, r) == b3;
    }
  }

  lemma ImageSize(r: Request, size: uint32)
    requires HEADER_SIZE <= size
    ensures |BlockImage(r, size)| == size
  {
  }

  /** s is a fresh block of n bytes: identifier, instance, revision and size, then zeros. */
  ghost predicate FreshBlock(s: seq<uint8>, r: Request, n: uint32) {
    && 12 <= n == |s| && IsLe32(s, 0, r.id) && s[4] == r.instance % 0x100 && s[5] == r.instance / 0x100
    && s[6] == r.major && s[7] == r.minor && IsLe32(s, 8, n)
    && forall i :: 12 <= i < n ==> s[i] == 0
  }

  lemma ImageIsFresh(r: Request, size: uint32)
    requires HEADER_SIZE <= size
    ensures FreshBlock(BlockImage(r, size), r, size)
  {
    hide Enc32;
    var s := BlockImage(r, size);
    ImageSize(r, size);
    assert s[0..4] == Enc32(r.id) && s[8..12] == Enc32(size);
    Enc32IsLe(s, 0, r.id);
    Enc32IsLe(s, 8, size);
  }

  /** Every byte of the memory after a granted create: the two counters, the fresh block, and nothing else
      is written. */
  lemma CreatedBytes(b: seq<uint8>, a: Alloc, r: Request)
    requires Represents(b, a) && r.dataSize < TWO_64 - 16 && a.left > RequestSize(r.dataSize)
    ensures var b', n := CreateBytes(b, r), RequestSize(r.dataSize);
            && |b'| == |b| && 392 <= a.free && a.free + n <= |b|
            && IsLe32(b', 4, a.free + n) && IsLe32(b', 8, a.left - n)
            && FreshBlock(b'[a.free..a.free + n], r, n)
            && (forall i :: 0 <= i < |b| && !(4 <= i < 12) && !(a.free <= i < a.free + n) ==> b'[i] == b[i])
  {
    hide U32, Enc32, RequestSize, BlockImage, Tiles, IsLe32, FreshBlock;
    RequestSizeFits(r.dataSize);
    var n := RequestSize(r.dataSize);
    ImageSize(r, n);
    ImageIsFresh(r, n);
    var b' := CreateBytes(b, r);
    assert b'[a.free..a.free + n] == BlockImage(r, n);
    Enc32IsLe(b', 4, a.free + n) by {
      assert b'[4..8] == Enc32(a.free + n);
    }
    Enc32IsLe(b', 8, a.left - n) by {
      assert b'[8..12] == Enc32(a.left - n);
    }
  }

  lemma FreshIsZero(b: seq<uint8>, o: nat, r: Request, n: uint32)
    requires o + n <= |b| && FreshBlock(b[o..o + n], r, n)
    ensures forall i :: o + 12 <= i < o + n ==> b[i] == 0
  {
    assert forall i :: o + 12 <= i < o + n ==> b[i] == b[o..o + n][i - o];
  }

  lemma HostBlockSizeFrame(b: seq<uint8>, b': seq<uint8>)
    requires VARS_SIZE <= |b| == |b'| && forall i :: 0 <= i < 4 ==> b'[i] == b[i]
    ensures HostBlockSize(b') == HostBlockSize(b)
  {
  }

  lemma TilesAppend(b: seq<uint8>, b': seq<uint8>, a: Alloc, r: Request, size: uint32)
    requires Tiles(b, a.free, a.blocks) && |b| == |b'|
    requires HEADER_SIZE < size && size % 4 == 0 && VARS_SIZE <= a.free && a.free + size <= |b|
    requires forall i :: VARS_SIZE <= i < a.free ==> b'[i] == b[i]
    requires b'[a.free..a.free + size] == BlockImage(r, size)
    ensures Tiles(b', a.free + size, a.blocks + [Block(a.free, r.id, r.instance, r.major, r.minor, size)])
  {
    hide HeaderAt, BlockImage;
    assert Tiles(b', a.free, a.blocks) by {
      forall k | 0 <= k < |a.blocks|
        ensures HeaderKept(b, b', a.blocks[k].off)
      {
        assert InPlace(b, a.free, a.blocks, k);
      }
      TilesFrame(b, b', a.free, a.blocks);
    }
    var x := Block(a.free, r.id, r.instance, r.major, r.minor, size);
    assert BlockInMemory(b', x, a.free + size) by {
      ImageIsHeader(b', a.free, r, size);
    }
    TilesExtend(b', a.free, a.blocks, x);
  }

  lemma TilesExtend(b: seq<uint8>, end: nat, bs: seq<Block>, x: Block)
    requires Tiles(b, end, bs) && x.off == end && BlockInMemory(b, x, end + x.size)
    ensures Tiles(b, end + x.size, bs + [x])
  {
    hide HeaderAt;
    var bs', end' := bs + [x], end + x.size;
    forall k | 0 <= k < |bs'|
      ensures InPlace(b, end', bs', k)
    {
      if k < |bs| {
        assert InPlace(b, end, bs, k);
      }
    }
  }

  /** Writing the data of a block, or the block variables from the API tables on, keeps the heap. */
  lemma PutRepresents(b: seq<uint8>, a: Alloc, o: nat, s: seq<uint8>)
    requires Represents(b, a) && o + |s| <= |b|
    requires (IP2IP_API <= o && o + |s| <= VARS_SIZE) || InData(a, o, |s|)
    ensures Represents(Put(b, o, s), a)
  {
    hide HeaderAt, U32;
    var b' := Put(b, o, s);
    PutFrame(b, o, s, HOST_BLOCK_SIZE);
    PutFrame(b, o, s, FREE_SPACE_OFFSET);
    PutFrame(b, o, s, FREE_SPACE_LEFT);
    forall k | 0 <= k < |a.blocks|
      ensures HeaderKept(b, b', a.blocks[k].off)
    {
      assert InPlace(b, a.free, a.blocks, k);
      if InData(a, o, |s|) {
        var j :| 0 <= j < |a.blocks| && a.blocks[j].off + HEADER_SIZE <= o
                 && o + |s| <= a.blocks[j].off + a.blocks[j].size;
        if k < j {
          BlocksInOrder(b, a, k, j);
        } else if j < k {
          BlocksInOrder(b, a, j, k);
        }
      }
    }
    TilesFrame(b, b', a.free, a.blocks);
  }

  /** The n bytes from o on lie in the data of one block. */
  ghost predicate InData(a: Alloc, o: nat, n: nat) {
    exists j :: 0 <= j < |a.blocks| && a.blocks[j].off + HEADER_SIZE <= o
                && o + n <= a.blocks[j].off + a.blocks[j].size
  }

  lemma {:induction false} BlocksInOrder(b: seq<uint8>, a: Alloc, k: nat, j: nat)
    requires Tiles(b, a.free, a.blocks) && k < j < |a.blocks|
    ensures a.blocks[k].off + a.blocks[k].size <= a.blocks[j].off
    decreases j
  {
    hide BlockInMemory;
    assert InPlace(b, a.free, a.blocks, j);
    if k < j - 1 {
      assert InPlace(b, a.free, a.blocks, j - 1);
      BlocksInOrder(b, a, k, j - 1);
    }
  }

  // ----- Lookup -----

  predicate Is(k: Block, id: uint32, instance: uint16) {
    k.id == id && k.instance == instance
  }

  /** The data offset of the earliest created block with the identifier and instance. */
  function Lookup(bs: seq<Block>, id: uint32, instance: uint16): (r: Option<nat>) {
    if bs == [] then None
    else if Is(bs[0], id, instance) then Some(bs[0].off + HEADER_SIZE)
    else Lookup(bs[1..], id, instance)
  }

  lemma {:induction false} LookupAppend(bs: seq<Block>, cs: seq<Block>, id: uint32, instance: uint16)
    ensures Lookup(bs + cs, id, instance)
            == if Lookup(bs, id, instance).Some? then Lookup(bs, id, instance) else Lookup(cs, id, instance)
  {
    if bs == [] {
      assert bs + cs == cs;
    } else {
      assert (bs + cs)[1..] == bs[1..] + cs;
      LookupAppend(bs[1..], cs, id, instance);
    }
  }

  /** The answer is the data of the block at index k exactly when that block has the identifier
      and instance and no block created before it does; and none exactly when no block does. */
  lemma {:induction false} LookupIsEarliest(bs: seq<Block>, id: uint32, instance: uint16)
    ensures forall k :: 0 <= k < |bs| && Earliest(bs, id, instance, k)
              ==> Lookup(bs, id, instance) == Some(bs[k].off + HEADER_SIZE)
    ensures Lookup(bs, id, instance).Some? ==> exists k :: 0 <= k < |bs| && Earliest(bs, id, instance, k)
    ensures Lookup(bs, id, instance).None? ==>
              forall k :: 0 <= k < |bs| ==> bs[k].id != id || bs[k].instance != instance
  {
    if bs != [] {
      var rest := bs[1..];
      LookupIsEarliest(rest, id, instance);
      assert forall k :: 0 <= k < |rest| ==> rest[k] == bs[k + 1];
      if Is(bs[0], id, instance) {
        assert Earliest(bs, id, instance, 0);
      } else {
        forall k | 0 <= k < |rest| && Earliest(rest, id, instance, k)
          ensures Earliest(bs, id, instance, k + 1)
        {
        }
        forall k | 0 <= k < |bs| && Earliest(bs, id, instance, k)
          ensures k > 0 && Earliest(rest, id, instance, k - 1)
        {
        }
      }
    }
  }

  ghost predicate Earliest(bs: seq<Block>, id: uint32, instance: uint16, k: nat)
    requires k < |bs|
  {
    && bs[k].id == id && bs[k].instance == instance
    && forall j :: 0 <= j < k ==> bs[j].id != id || bs[j].instance != instance
  }

  // ----- Whole runs -----

  /** What IP code does with the heap after it is set up. */
  datatype Op =
    | CreateBlock(request: Request)
    | WriteData(pos: nat, value: uint8)
    | RegisterApi(xferTable: bool, id: nat, api: uint64)

  /** The run writes only data of blocks that exist by then and asks for sizes that do not wrap. */
  ghost predicate Legal(a: Alloc, ops: seq<Op>)
    decreases |ops|
  {
    ops == [] || (LegalStep(a, ops[0]) && Legal(StepAlloc(a, ops[0]), ops[1..]))
  }

  ghost predicate LegalStep(a: Alloc, op: Op) {
    && (op.CreateBlock? ==> op.request.dataSize < TWO_64 - 16)
    && (op.WriteData? ==> InData(a, op.pos, 1))
  }

  function StepAlloc(a: Alloc, op: Op): (a': Alloc) {
    if op.CreateBlock? then Create(a, op.request) else a
  }

  function RunAlloc(a: Alloc, ops: seq<Op>): (a': Alloc)
    decreases |ops|
  {
    if ops == [] then a else RunAlloc(StepAlloc(a, ops[0]), ops[1..])
  }

  function ApiSlot(xferTable: bool, id: nat): (o: nat) {
    (if xferTable then XFER_TABLE else IP2IP_API) + 8 * id
  }

  function StepBytes(b: seq<uint8>, op: Op): (b': seq<uint8>)
    requires VARS_SIZE <= |b| && FreeSpaceOffset(b) + FreeSpaceLeft(b) <= |b|
    requires FreeSpaceOffset(b) + FreeSpaceLeft(b) < TWO_32
    requires op.CreateBlock? ==> op.request.dataSize < TWO_64 - 16
    requires op.WriteData? ==> op.pos < |b|
  {
    match op
    case CreateBlock(r) => CreateBytes(b, r)
    case WriteData(pos, value) => Put(b, pos, [value])
    case RegisterApi(xferTable, id, api) =>
      if id >= ID_LIST_END then b else Put(b, ApiSlot(xferTable, id), Enc64(api))
  }

  lemma InDataInMemory(b: seq<uint8>, a: Alloc, o: nat, n: nat)
    requires Represents(b, a) && InData(a, o, n)
    ensures VARS_SIZE <= o && o + n <= |b|
  {
    hide HeaderAt, U32;
    var j :| 0 <= j < |a.blocks| && a.blocks[j].off + HEADER_SIZE <= o
             && o + n <= a.blocks[j].off + a.blocks[j].size;
    assert InPlace(b, a.free, a.blocks, j);
  }

  lemma StepRepresents(b: seq<uint8>, a: Alloc, op: Op)
    requires Represents(b, a) && LegalStep(a, op)
    ensures op.WriteData? ==> op.pos < |b|
    ensures Represents(StepBytes(b, op), StepAlloc(a, op))
  {
    hide HeaderAt, Tiles, U32, Enc64;
    match op
    case CreateBlock(r) => CreateRepresents(b, a, r);
    case WriteData(pos, value) =>
      InDataInMemory(b, a, pos, 1);
      PutRepresents(b, a, pos, [value]);
    case RegisterApi(xferTable, id, api) =>
      if id < ID_LIST_END {
        PutRepresents(b, a, ApiSlot(xferTable, id), Enc64(api));
      }
  }

  /** Every run from a well-formed heap keeps it well formed: the accounting of free space, the
      tiling by headers and the sizes all follow the abstract allocator. */
  ghost function RunBytes(b: seq<uint8>, a: Alloc, ops: seq<Op>): (b': seq<uint8>)
    requires Represents(b, a) && Legal(a, ops)
    ensures Represents(b', RunAlloc(a, ops)) && HostBlockSize(b') == HostBlockSize(b)
    decreases |ops|
  {
    if ops == [] then b
    else
      StepRepresents(b, a, ops[0]);
      RunBytes(StepBytes(b, ops[0]), StepAlloc(a, ops[0]), ops[1..])
  }

  /** Blocks are only ever added behind the others, and the total of used and free space stays. */
  lemma {:induction false} RunOnlyAppends(a: Alloc, ops: seq<Op>)
    ensures var a' := RunAlloc(a, ops);
            a.blocks <= a'.blocks && a'.free + a'.left == a.free + a.left && a.free <= a'.free
    decreases |ops|
  {
    if ops != [] {
      RunOnlyAppends(StepAlloc(a, ops[0]), ops[1..]);
    }
  }

  /** An answer, once given, never changes, whatever is created, written or registered later. */
  lemma LookupStable(a: Alloc, ops: seq<Op>, id: uint32, instance: uint16)
    requires Lookup(a.blocks, id, instance).Some?
    ensures Lookup(RunAlloc(a, ops).blocks, id, instance) == Lookup(a.blocks, id, instance)
  {
    RunOnlyAppends(a, ops);
    var bs := RunAlloc(a, ops).blocks;
    assert bs == a.blocks + bs[|a.blocks|..];
    LookupAppend(a.blocks, bs[|a.blocks|..], id, instance);
  }

  // ----- The API tables over a run -----

  /** The two tables lie one after the other between the counters and the first block, and no two entries
      share a byte. */
  lemma ApiSlots(x: bool, i: nat, y: bool, j: nat)
    requires i < ID_LIST_END && j < ID_LIST_END
    ensures 24 <= ApiSlot(x, i) && ApiSlot(x, i) + 8 <= 392 == VARS_SIZE
    ensures ApiSlot(false, i) == 24 + 8 * i && ApiSlot(true, i) == 208 + 8 * i
    ensures (x, i) != (y, j) ==> ApiSlot(x, i) + 8 <= ApiSlot(y, j) || ApiSlot(y, j) + 8 <= ApiSlot(x, i)
  {
  }

  predicate Registers(op: Op, xferTable: bool, id: nat) {
    op.RegisterApi? && op.xferTable == xferTable && op.id == id
  }

  /** The interface registered last in a run, or v if none was. */
  function LastApi(ops: seq<Op>, xferTable: bool, id: nat, v: uint64): (api: uint64)
    decreases |ops|
  {
    if ops == [] then v
    else LastApi(ops[1..], xferTable, id, if Registers(ops[0], xferTable, id) then ops[0].api else v)
  }

  function Api(b: seq<uint8>, xferTable: bool, id: nat): (api: uint64)
    requires VARS_SIZE <= |b| && id < ID_LIST_END
  {
    U64(b, ApiSlot(xferTable, id))
  }

  lemma SameWord(b: seq<uint8>, b': seq<uint8>, o: nat)
    requires o + 8 <= |b| == |b'| && forall i :: o <= i < o + 8 ==> b'[i] == b[i]
    ensures U64(b', o) == U64(b, o)
  {
  }

  /** A step changes an entry of the API tables only by registering it. */
  lemma ApiStep(b: seq<uint8>, a: Alloc, op: Op, xferTable: bool, id: nat)
    requires Represents(b, a) && LegalStep(a, op) && id < ID_LIST_END
    ensures op.WriteData? ==> op.pos < |b|
    ensures |StepBytes(b, op)| == |b|
    ensures Api(StepBytes(b, op), xferTable, id)
            == if Registers(op, xferTable, id) then op.api else Api(b, xferTable, id)
  {
    hide HeaderAt, Tiles, U32, U64, Enc64, Enc32, BlockImage, RequestSize;
    StepRepresents(b, a, op);
    var o, b' := ApiSlot(xferTable, id), StepBytes(b, op);
    match op
    case CreateBlock(r) =>
      RequestSizeFits(r.dataSize);
      SameWord(b, b', o);
    case WriteData(pos, value) =>
      InDataInMemory(b, a, pos, 1);
      SameWord(b, b', o);
    case RegisterApi(x, i, api) =>
      if x == xferTable && i == id {
        assert b'[o..o + 8] == Enc64(api);
        ReadBack64(b', o, api);
      } else {
        SameWord(b, b', o);
      }
  }

  /** Over every run, each entry of the API tables holds what was registered there last. */
  lemma {:induction false} ApiIsLastRegistered(b: seq<uint8>, a: Alloc, ops: seq<Op>, xferTable: bool, id: nat)
    requires Represents(b, a) && Legal(a, ops) && id < ID_LIST_END
    ensures Api(RunBytes(b, a, ops), xferTable, id) == LastApi(ops, xferTable, id, Api(b, xferTable, id))
    decreases |ops|
  {
    hide Tiles, U32, U64, StepBytes;
    if ops != [] {
      StepRepresents(b, a, ops[0]);
      ApiStep(b, a, ops[0], xferTable, id);
      ApiIsLastRegistered(StepBytes(b, ops[0]), StepAlloc(a, ops[0]), ops[1..], xferTable, id);
    }
  }
}
