/** The top of usable DRAM below 4 GiB (xPRF/Mem/xPrfMem.c, xPrfGetLowUsableDramAddress). */
module LowDram {
  import opened Options
  import opened Bytes

  const FOUR_GIB := 0x1_0000_0000

  /** MEMORY_HOLE_DESCRIPTOR */
  datatype Hole = Hole(base: uint64, size: uint64)

  /** APOB_SYSTEM_MEMORY_MAP: the final DRAM address plus one, and the holes below it. */
  datatype SystemMap = SystemMap(top: uint64, holes: seq<Hole>)

  predicate Low(h: Hole) {
    h.base < FOUR_GIB && h.size > 0
  }

  /** An address of the hole. */
  predicate Covers(h: Hole, a: nat) {
    h.base <= a < h.base + h.size
  }

  /** v is the least of the top and the bases of the low holes. */
  ghost predicate IsLowTop(m: SystemMap, v: uint64) {
    && v <= m.top
    && (forall i :: 0 <= i < |m.holes| && Low(m.holes[i]) ==> v <= m.holes[i].base)
    && (v == m.top || exists i :: 0 <= i < |m.holes| && Low(m.holes[i]) && m.holes[i].base == v)
  }

  lemma LowTopUnique(m: SystemMap, v: uint64, w: uint64)
    requires IsLowTop(m, v) && IsLowTop(m, w)
    ensures v == w
  {
  }

  /** xPrfGetLowUsableDramAddress, on the memory map found in the APOB, if any. */
  method GetLowUsableDramAddress(found: Option<SystemMap>) returns (r: uint32)
    requires found.Some? ==> |found.value.holes| <= 255
    ensures found.None? || found.value.holes == [] ==> r == 0
    ensures found.Some? && found.value.holes != [] ==>
              exists top: uint64 :: IsLowTop(found.value, top) && r == top % FOUR_GIB
  {
    if found.None? || |found.value.holes| == 0 {
      return 0;
    }
    var m := found.value;
    var top := m.top;
    for i := 0 to |m.holes|
      invariant top <= m.top
      invariant forall j :: 0 <= j < i && Low(m.holes[j]) ==> top <= m.holes[j].base
      invariant top == m.top || exists j :: 0 <= j < i && Low(m.holes[j]) && m.holes[j].base == top
    {
      if m.holes[i].base < FOUR_GIB && m.holes[i].size > 0 {
        if m.holes[i].base < top {
          top := m.holes[i].base;
        }
      }
    }
    assert IsLowTop(m, top);
    return top % FOUR_GIB;
  }

  /** Cutting the address to 32 bits is safe exactly when DRAM ends below 4 GiB or a low hole exists. */
  lemma TruncationSafeIff(m: SystemMap, v: uint64)
    requires IsLowTop(m, v)
    ensures v % FOUR_GIB == v <==> m.top < FOUR_GIB || exists i :: 0 <= i < |m.holes| && Low(m.holes[i])
  {
  }

  /** Whatever the map, all addresses below the answer are DRAM: below the top and in no hole. */
  lemma BelowIsUsable(m: SystemMap, v: uint64, a: nat)
    requires IsLowTop(m, v) && a < v % FOUR_GIB
    ensures a < m.top
    ensures forall i :: 0 <= i < |m.holes| ==> !Covers(m.holes[i], a)
  {
    forall i | 0 <= i < |m.holes|
      ensures !Covers(m.holes[i], a)
    {
      assert Low(m.holes[i]) || m.holes[i].size == 0 || m.holes[i].base >= FOUR_GIB;
    }
  }

  /** And it cannot be raised: when it is not cut, the address itself is past the top or in a hole. */
  lemma AnswerIsTight(m: SystemMap, v: uint64)
    requires IsLowTop(m, v)
    ensures v == m.top || exists i :: 0 <= i < |m.holes| && Covers(m.holes[i], v)
  {
    if v != m.top {
      var i :| 0 <= i < |m.holes| && Low(m.holes[i]) && m.holes[i].base == v;
      assert Covers(m.holes[i], v);
    }
  }

  /** With the only hole at 4 GiB the cut address is wrong: 8 GiB of memory are reported as none. */
  lemma TruncationExample()
    ensures var m := SystemMap(0x2_0000_0000, [Hole(0x1_0000_0000, 1)]);
            IsLowTop(m, 0x2_0000_0000) && 0x2_0000_0000 % FOUR_GIB == 0
  {
  }

  /** 4 GiB of memory with the usual hole of 1 GiB below 4 GiB, behind an empty hole at 0 and before one
      just below 4 GiB: 3 GiB are usable. */
  lemma HoleExample()
    ensures var m := SystemMap(0x1_4000_0000, [Hole(0, 0), Hole(0xC000_0000, 0x4000_0000), Hole(0xFFFF_FFFF, 1)]);
            IsLowTop(m, 0xC000_0000) && 0xC000_0000 % FOUR_GIB == 0xC000_0000
  {
    var m := SystemMap(0x1_4000_0000, [Hole(0, 0), Hole(0xC000_0000, 0x4000_0000), Hole(0xFFFF_FFFF, 1)]);
    assert Low(m.holes[1]) && m.holes[1].base == 0xC000_0000;
  }
}
