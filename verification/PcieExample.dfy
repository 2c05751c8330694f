/** The builder can start: two complexes of one silicon, wrapper and engine each. */
module PcieExample {
  import opened Options
  import opened PcieBuild
  import opened PcieSilicons
  import opened PcieTopology

  const PLATFORM_HEADER := Descriptor(0x2800_0000, 0, 0, 16)
  const COMPLEX_HEADER := Descriptor(0x6400_0000, 0, 0, 16)
  const SILICON_HEADER := Descriptor(0x6200_0000, 0, 0, 16)
  const WRAPPER_HEADER := Descriptor(0x6100_0000, 16, 0, 16)
  const ENGINE_HEADER := Descriptor(0x6080_0000, 16, 0, 0)

  ghost predicate IsComplex(g: Arena, a: nat) {
    && a in g.at && g.at[a] == COMPLEX_HEADER
    && a + 16 in g.at && g.at[a + 16] == SILICON_HEADER
    && a + 32 in g.at && g.at[a + 32] == WRAPPER_HEADER
    && a + 48 in g.at && g.at[a + 48] == ENGINE_HEADER
  }

  function PartAt(a: nat): (q: Part) {
    Part(a, [a + 16], [a + 32], [[a + 32]], [[a + 48]])
  }

  predicate FlagsAre(flags: bv32, silicon: bool, wrapper: bool, engine: bool, ends: bool) {
    && Has(flags, SILICON) == silicon && Has(flags, ALL_WRAPPERS) == wrapper
    && Has(flags, ALL_ENGINES) == engine && Has(flags, PCIE_ENGINE) == engine
    && Has(flags, TERMINATE_GNB) == ends && Has(flags, TERMINATE_TOPOLOGY)
  }

  lemma HeaderFlags()
    ensures FlagsAre(PLATFORM_HEADER.flags, false, false, false, false)
    ensures FlagsAre(COMPLEX_HEADER.flags, false, false, false, true)
    ensures FlagsAre(SILICON_HEADER.flags, true, false, false, true)
    ensures FlagsAre(WRAPPER_HEADER.flags, false, true, false, true)
    ensures FlagsAre(ENGINE_HEADER.flags, false, false, true, true)
  {
  }

  lemma ComplexSearches(g: Arena, a: nat)
    requires Closed(g) && IsComplex(g, a)
    ensures GetChild(g, SILICON, a) == Some(a + 16) && GetChild(g, ALL_WRAPPERS, a) == Some(a + 32)
    ensures GetChild(g, PCIE_ENGINE, a) == Some(a + 48) && GetChild(g, ALL_ENGINES, a + 32) == Some(a + 48)
    ensures GetChild(g, ALL_WRAPPERS, a + 16) == Some(a + 32)
  {
    HeaderFlags();
    hide Has, Closed;
    assert GetChild(g, SILICON, a + 16) == Some(a + 16);
    assert GetChild(g, ALL_WRAPPERS, a + 32) == Some(a + 32);
    assert GetChild(g, ALL_WRAPPERS, a + 16) == Some(a + 32);
    assert GetChild(g, PCIE_ENGINE, a + 48) == Some(a + 48);
    assert GetChild(g, PCIE_ENGINE, a + 32) == Some(a + 48);
    assert GetChild(g, PCIE_ENGINE, a + 16) == Some(a + 48);
  }

  lemma ComplexParents(g: Arena, a: nat)
    requires IsComplex(g, a)
    ensures Under(g, ENGINES, a + 32, a + 48) && Under(g, WRAPPERS, a + 16, a + 32)
  {
    HeaderFlags();
    hide Has;
    StepUp(g, ALL_WRAPPERS, a + 48);
    StepUp(g, SILICON, a + 32);
  }

  /** A parent search that ends after one step. */
  lemma StepUp(g: Arena, mask: bv32, d: nat)
    requires d in g.at && g.at[d].parent == 16 <= d && d - 16 in g.at
    requires !Has(g.at[d].flags, mask) && Has(g.at[d - 16].flags, mask)
    ensures ParentsLead(g, mask, d) && GetParent(g, mask, d) == Some(d - 16)
  {
    hide Has;
    assert ParentsLead(g, mask, d - 16) && GetParent(g, mask, d - 16) == Some(d - 16);
  }

  lemma OneEach(a: nat)
    ensures ListOf(PartAt(a), 0) == [a] && ListOf(PartAt(a), 1) == [a + 16]
    ensures ListOf(PartAt(a), 2) == [a + 32] && ListOf(PartAt(a), 3) == [a + 48]
  {
    OneGroup(a + 48);
  }

  lemma OneGroup(d: nat)
    ensures Flatten([[d]]) == [d]
  {
    assert [[d]][..0] == [];
    assert Flatten([[d]]) == Flatten([]) + [d] == [d];
  }

  lemma OneInChain(g: Arena, d: nat)
    requires d in g.at && Has(g.at[d].flags, TERMINATE_TOPOLOGY) && Has(g.at[d].flags, TERMINATE_GNB)
    ensures Chain(g, [d]) && GnbAtEnd(g, [d])
  {
  }

  lemma ComplexOk(g: Arena, a: nat)
    requires Closed(g) && EnginesAreLeaves(g) && IsComplex(g, a)
    ensures PartOk(g, PartAt(a)) && forall t: Kind :: Chain(g, ListOf(PartAt(a), t))
  {
    HeaderFlags();
    ComplexSearches(g, a);
    ComplexParents(g, a);
    hide Has, Closed, GetChild, EnginesAreLeaves, Chain, GnbAtEnd, ListOf, Under, Flatten;
    OneEach(a);
    OneGroup(a + 32);
    OneInChain(g, a);
    OneInChain(g, a + 16);
    OneInChain(g, a + 32);
    OneInChain(g, a + 48);
    var q := PartAt(a);
    assert Tree(g, a, q.wrappers, q.groups) && SiliconsOk(g, q);
    forall t: Kind
      ensures LeadsTo(g, q, t) && Chain(g, ListOf(q, t))
    {
      assert t == 0 || t == 1 || t == 2 || t == 3;
    }
  }

  lemma TwoLaidOut(a: nat, b: nat)
    requires a + 64 <= b < a + 0x1_0000
    ensures LaidOut([PartAt(a), PartAt(b)])
  {
    hide ListOf;
    OneEach(a);
    OneEach(b);
    var parts := [PartAt(a), PartAt(b)];
    forall i, t: Kind, j, u: Kind | 0 <= i < 2 && 0 <= j < 2 && (i != j || t != u)
      ensures Disjoint(ListOf(parts[i], t), ListOf(parts[j], u))
    {
      OneOf(parts[i].header, t);
      OneOf(parts[j].header, u);
    }
    forall i, t: Kind | 0 < i < 2
      ensures InReach(parts, i, t)
    {
      OneOf(a, t);
      OneOf(b, t);
    }
  }

  lemma OneOf(a: nat, t: Kind)
    ensures ListOf(PartAt(a), t) == [a + 16 * t]
  {
    hide ListOf;
    OneEach(a);
    assert t == 0 || t == 1 || t == 2 || t == 3;
  }

  /** Two such complexes below a platform header are a state the builder starts from. */
  lemma TwoComplexes(g: Arena, root: nat, a: nat, b: nat)
    requires Closed(g) && EnginesAreLeaves(g) && IsComplex(g, a) && IsComplex(g, b) && a + 64 <= b < a + 0x1_0000
    requires root + 16 == a && root in g.at && g.at[root] == PLATFORM_HEADER
    ensures Building(g, root, [PartAt(a), PartAt(b)], 1, 0)
  {
    var parts := [PartAt(a), PartAt(b)];
    TwoLaidOut(a, b);
    ComplexOk(g, a);
    ComplexOk(g, b);
    RootTree(g, root, a);
    hide Has, Closed, EnginesAreLeaves, Chain, ListOf, LaidOut, PartOk, Tree, RootOk;
    forall t: Kind
      ensures KindJoined(g, parts, Count(1, t, 0), t)
    {
      assert parts[0] == PartAt(a) && parts[1] == PartAt(b);
      assert Merged(parts, 1, t) == [] + ListOf(parts[0], t) == ListOf(parts[0], t);
    }
  }

  lemma RootTree(g: Arena, root: nat, a: nat)
    requires Closed(g) && EnginesAreLeaves(g) && IsComplex(g, a)
    requires root + 16 == a && root in g.at && g.at[root] == PLATFORM_HEADER
    ensures Tree(g, root, [a + 32], [[a + 48]]) && RootOk(g, root, a + 16)
  {
    HeaderFlags();
    ComplexSearches(g, a);
    ComplexParents(g, a);
    hide Has, Closed, EnginesAreLeaves, Under;
    assert GetChild(g, ALL_WRAPPERS, root) == GetChild(g, ALL_WRAPPERS, a);
    assert GetChild(g, SILICON, root) == GetChild(g, SILICON, a);
    hide GetChild;
  }

  lemma TwoComplexesExist() returns (g: Arena)
    ensures Closed(g) && EnginesAreLeaves(g) && 0 in g.at && g.at[0] == PLATFORM_HEADER
    ensures IsComplex(g, 16) && IsComplex(g, 80)
  {
    g := Arena(144, map[0 := PLATFORM_HEADER,
                        16 := COMPLEX_HEADER, 32 := SILICON_HEADER, 48 := WRAPPER_HEADER, 64 := ENGINE_HEADER,
                        80 := COMPLEX_HEADER, 96 := SILICON_HEADER, 112 := WRAPPER_HEADER, 128 := ENGINE_HEADER]);
    HeaderFlags();
    hide Has;
  }
}
