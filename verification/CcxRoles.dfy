/** Which cores are primary (xUSL/CommonLib/xUslCcxRoles.c) and which table selectors they satisfy
    (IsCoreSelector in xUSL/CCX/Common/AmdTable.c). */
module CcxRoles {

  /** A core: its initial APIC id and the threads per core that CPUID reports. */
  datatype Core = Core(apicId: bv32, threadsPerCore: bv32)

  predicate IsMultiple(n: bv32, t: bv32)
    requires t != 0
  {
    n % t == 0
  }

  predicate IsComputeUnitPrimary(c: Core) {
    IsMultiple(c.apicId, if c.threadsPerCore == 0 then 1 else c.threadsPerCore)
  }

  /** The id has no bit of the mask. */
  predicate Clear(id: bv32, mask: bv32) {
    id & mask == 0
  }

  predicate IsCoreComplexPrimary(c: Core) {
    Clear(c.apicId, if c.threadsPerCore == 1 then 0x7 else 0xF)
  }

  predicate IsSocketPrimary(c: Core) {
    Clear(c.apicId, if c.threadsPerCore == 1 then 0x3F else 0x7F)
  }

  predicate IsDiePrimary(c: Core) {
    IsSocketPrimary(c)
  }

  datatype Selector = AllCores | ComputeUnitPrimary | ComplexPrimary | DiePrimary | PrimaryCores | BscCore

  /** The selectors in the order in which they are tried. */
  const SELECTORS := [AllCores, ComputeUnitPrimary, ComplexPrimary, DiePrimary, PrimaryCores, BscCore]

  predicate IsCoreSelector(c: Core, bsp: bool, s: Selector) {
    match s
    case AllCores => true
    case ComputeUnitPrimary => IsComputeUnitPrimary(c)
    case ComplexPrimary => IsCoreComplexPrimary(c)
    case DiePrimary => IsDiePrimary(c)
    case PrimaryCores => IsSocketPrimary(c)
    case BscCore => bsp
  }

  /** The primary roles by APIC id: the first of each 64 or 128 ids leads a socket and its die, the first
      of each 8 or 16 a complex, and the first thread of a core its compute unit. */
  lemma PrimaryIds(c: Core, bsp: bool)
    ensures var one, id := c.threadsPerCore == 1, c.apicId;
            && (IsCoreSelector(c, bsp, PrimaryCores) <==> if one then IsMultiple(id, 64) else IsMultiple(id, 128))
            && (IsCoreSelector(c, bsp, DiePrimary) <==> if one then IsMultiple(id, 64) else IsMultiple(id, 128))
            && (IsCoreSelector(c, bsp, ComplexPrimary) <==> if one then IsMultiple(id, 8) else IsMultiple(id, 16))
            && (IsCoreSelector(c, bsp, ComputeUnitPrimary) <==>
                  c.threadsPerCore == 0 || IsMultiple(id, c.threadsPerCore))
            && (IsCoreSelector(c, bsp, BscCore) <==> bsp) && IsCoreSelector(c, bsp, AllCores)
  {
    hide IsMultiple, Clear;
    MasksAreRemainders(c.apicId);
    MaskInclusion(c.apicId);
  }

  /** The masks of the roles take remainders. */
  lemma MasksAreRemainders(id: bv32)
    ensures Clear(id, 0x7) == IsMultiple(id, 8) && Clear(id, 0xF) == IsMultiple(id, 16)
    ensures Clear(id, 0x3F) == IsMultiple(id, 64) && Clear(id, 0x7F) == IsMultiple(id, 128)
  {
    hide IsMultiple, Clear;
    if Clear(id, 0x7) {
      MultipleOf8(id);
    } else if IsMultiple(id, 8) {
      ClearOf8(id);
    }
    if Clear(id, 0xF) {
      MultipleOf16(id);
    } else if IsMultiple(id, 16) {
      ClearOf16(id);
    }
    if Clear(id, 0x3F) {
      MultipleOf64(id);
    } else if IsMultiple(id, 64) {
      ClearOf64(id);
    }
    if Clear(id, 0x7F) {
      MultipleOf128(id);
    } else if IsMultiple(id, 128) {
      ClearOf128(id);
    }
  }

  lemma ClearOf8(id: bv32)
    requires IsMultiple(id, 8)
    ensures Clear(id, 0x7)
  {
  }

  lemma MultipleOf8(id: bv32)
    requires Clear(id, 0x7)
    ensures IsMultiple(id, 8)
  {
  }

  lemma ClearOf16(id: bv32)
    requires IsMultiple(id, 16)
    ensures Clear(id, 0xF)
  {
  }

  lemma MultipleOf16(id: bv32)
    requires Clear(id, 0xF)
    ensures IsMultiple(id, 16)
  {
  }

  lemma ClearOf64(id: bv32)
    requires IsMultiple(id, 64)
    ensures Clear(id, 0x3F)
  {
  }

  lemma MultipleOf64(id: bv32)
    requires Clear(id, 0x3F)
    ensures IsMultiple(id, 64)
  {
  }

  lemma ClearOf128(id: bv32)
    requires IsMultiple(id, 128)
    ensures Clear(id, 0x7F)
  {
  }

  lemma MultipleOf128(id: bv32)
    requires Clear(id, 0x7F)
    ensures IsMultiple(id, 128)
  {
  }

  /** The number of selectors before the first role the core does not have: 1, 2, 3 or 5. */
  function LeadingRoles(c: Core): (n: nat)
    ensures n == 1 || n == 2 || n == 3 || n == 5
    ensures forall bsp, i :: 0 <= i < n ==> IsCoreSelector(c, bsp, SELECTORS[i])
    ensures n < 5 ==> forall bsp :: !IsCoreSelector(c, bsp, SELECTORS[n])
  {
    if !IsComputeUnitPrimary(c) then 1
    else if !IsCoreComplexPrimary(c) then 2
    else if !IsSocketPrimary(c) then 3
    else 5
  }

  lemma BscSelector(c: Core, bsp: bool)
    ensures |SELECTORS| == 6 && SELECTORS[5] == BscCore && IsCoreSelector(c, bsp, SELECTORS[5]) == bsp
  {
  }

  /** Every role implies the wider ones, so a failed test rules out the later role tests. */
  ghost predicate RolesNest(c: Core) {
    && (IsSocketPrimary(c) ==> IsDiePrimary(c))
    && (IsDiePrimary(c) ==> IsCoreComplexPrimary(c))
    && (IsCoreComplexPrimary(c) ==> IsComputeUnitPrimary(c))
  }

  /** Of the selectors from the first missing role on, only the boot-core selector can be satisfied. */
  lemma RolesBehind(c: Core, bsp: bool, i: nat)
    requires RolesNest(c) && LeadingRoles(c) <= i < |SELECTORS|
    ensures IsCoreSelector(c, bsp, SELECTORS[i]) <==> i == 5 && bsp
    ensures IsSocketPrimary(c) <==> LeadingRoles(c) == 5
  {
    hide IsComputeUnitPrimary, IsCoreComplexPrimary, IsSocketPrimary;
  }

  /** A core whose roles do not nest is complex primary and not compute-unit primary. */
  lemma NoNest(c: Core, bsp: bool)
    requires !RolesNest(c)
    ensures LeadingRoles(c) == 1 && IsCoreSelector(c, bsp, SELECTORS[2])
  {
    SocketIsComplex(c);
    hide IsComputeUnitPrimary, IsCoreComplexPrimary, IsSocketPrimary;
  }

  lemma DivisorsOfSixteen(t: bv32)
    requires t != 0 && IsMultiple(16, t)
    ensures t == 1 || t == 2 || t == 4 || t == 8 || t == 16
  {
  }

  lemma MultiplesOfSixteen(id: bv32)
    requires Clear(id, 0xF)
    ensures IsMultiple(id, 2) && IsMultiple(id, 4) && IsMultiple(id, 8) && IsMultiple(id, 16)
  {
  }

  lemma MaskInclusion(id: bv32)
    ensures Clear(id, 0x7F) ==> Clear(id, 0xF)
    ensures Clear(id, 0x3F) ==> Clear(id, 0x7)
    ensures IsMultiple(id, 1)
  {
  }

  /** The roles nest for every APIC id exactly when the threads per core divide 16
      (0 stands for one thread). */
  lemma RolesNestIff(threads: bv32)
    ensures (forall id :: RolesNest(Core(id, threads))) <==> threads == 0 || IsMultiple(16, threads)
  {
    if threads == 0 || IsMultiple(16, threads) {
      forall id
        ensures RolesNest(Core(id, threads))
      {
        NestFor(id, threads);
      }
    } else {
      var c := Core(16, threads);
      assert IsCoreComplexPrimary(c) && !IsComputeUnitPrimary(c);
    }
  }

  lemma RoleExamples()
    ensures !IsSocketPrimary(Core(1, 1)) && !RolesNest(Core(16, 3))
  {
  }

  lemma SocketIsComplex(c: Core)
    ensures IsSocketPrimary(c) ==> IsCoreComplexPrimary(c)
  {
    MaskInclusion(c.apicId);
    hide Clear;
  }

  lemma ComplexIsUnit(id: bv32, threads: bv32)
    requires threads == 0 || IsMultiple(16, threads)
    ensures IsCoreComplexPrimary(Core(id, threads)) ==> IsComputeUnitPrimary(Core(id, threads))
  {
    hide IsMultiple, Clear;
    if threads == 0 || threads == 1 {
      MaskInclusion(id);
    } else if Clear(id, 0xF) {
      DivisorsOfSixteen(threads);
      MultiplesOfSixteen(id);
    }
  }

  lemma NestFor(id: bv32, threads: bv32)
    requires threads == 0 || IsMultiple(16, threads)
    ensures RolesNest(Core(id, threads))
  {
    hide IsMultiple, IsSocketPrimary, IsCoreComplexPrimary, IsComputeUnitPrimary;
    SocketIsComplex(Core(id, threads));
    ComplexIsUnit(id, threads);
  }
}
