/** The wrapper walks: over the whole topology and over one silicon at a time
    (xUSL/NBIO/NbioPcieTopologyHelper.c:236-292). */
module PcieSilicons {
  import opened Options
  import opened PcieTopology

  predicate WrapperSelected(flags: bv32, want: bv32) {
    want & ALL_WRAPPERS & flags != 0
  }

  /** There is one wrapper type, so the filter takes all wrappers or none. */
  lemma AllOrNone(flags: bv32, want: bv32)
    requires Has(flags, ALL_WRAPPERS)
    ensures WrapperSelected(flags, want) == Has(want, ALL_WRAPPERS)
  {
  }

  function Called(ds: seq<nat>, want: bv32): (calls: seq<nat>) {
    if Has(want, ALL_WRAPPERS) then ds else []
  }

  lemma CalledStep(ds: seq<nat>, es: seq<nat>, want: bv32)
    ensures Called(ds + es, want) == Called(ds, want) + Called(es, want)
    ensures Called([], want) == []
  {
  }

  ghost predicate AreWrappers(g: Arena, ds: seq<nat>) {
    forall i :: 0 <= i < |ds| ==> ds[i] in g.at && Has(g.at[ds[i]].flags, ALL_WRAPPERS)
  }

  /** The wrappers of the topology, grouped by the silicon they belong to. */
  ghost predicate SiliconsOver(g: Arena, root: nat, silicons: seq<nat>, groups: seq<seq<nat>>, wrappers: seq<nat>) {
    && Nested(g, WRAPPERS, silicons, groups) && Flatten(groups) == wrappers && AreWrappers(g, wrappers)
    && root in g.at && GetChild(g, SILICON, root) == Some(silicons[0])
  }

  /** PcieConfigRunProcForAllWrappers: the wrappers called back on, in order. */
  method AllWrappers(g: Arena, want: bv32, root: nat, ghost wrappers: seq<nat>, ghost engines: seq<seq<nat>>)
    returns (calls: seq<nat>)
    requires WellFormed(g, root, wrappers, engines) && AreWrappers(g, wrappers)
    ensures calls == Called(wrappers, want)
  {
    hide Has, Precedes, GetChild, Closed, WellFormed, Called, WrapperSelected;
    WrapperStart(g, root, wrappers, engines);
    CalledStep([], [], want);
    calls := [];
    var wrapper := FindChild(g, ALL_WRAPPERS, root);
    ghost var k := 0;
    while wrapper.Some?
      invariant 0 <= k <= |wrappers| && wrapper == (if k < |wrappers| then Some(wrappers[k]) else None)
      invariant calls == Called(wrappers[..k], want)
      decreases |wrappers| - k
    {
      var w := wrapper.value;
      CalledOne(g, wrappers, k, want);
      if WrapperSelected(g.at[w].flags, want) {
        calls := calls + [w];
      }
      wrapper := NextInTopology(g, w, TERMINATE_TOPOLOGY, wrappers, k);
      k := k + 1;
    }
    assert wrappers[..k] == wrappers;
  }

  lemma CalledOne(g: Arena, ds: seq<nat>, k: nat, want: bv32)
    requires k < |ds| && AreWrappers(g, ds)
    ensures Called(ds[..k + 1], want)
            == Called(ds[..k], want) + if WrapperSelected(g.at[ds[k]].flags, want) then [ds[k]] else []
  {
    hide Has, WrapperSelected;
    AllOrNone(g.at[ds[k]].flags, want);
    assert ds[..k + 1] == ds[..k] + [ds[k]];
  }

  /** PcieConfigRunProcForAllWrappersInNbio, for silicon k. */
  method WrappersInNbio(g: Arena, want: bv32, silicon: nat, ghost silicons: seq<nat>, ghost groups: seq<seq<nat>>,
                        ghost k: nat)
    returns (calls: seq<nat>)
    requires Nested(g, WRAPPERS, silicons, groups) && AreWrappers(g, Flatten(groups))
    requires k < |silicons| && silicon == silicons[k]
    ensures calls == Called(groups[k], want)
  {
    hide Has, WrapperSelected, Precedes, GetChild, GetParent, Closed, Flatten, Nested, Called;
    GroupStart(g, WRAPPERS, silicons, groups, k);
    CalledStep([], [], want);
    ghost var all, start := Flatten(groups), |Flatten(groups[..k])|;
    assert AreWrappers(g, groups[k]);
    calls := [];
    var wrapper := FindChild(g, ALL_WRAPPERS, silicon);
    ghost var i := 0;
    while wrapper.Some?
      invariant 0 <= i <= |groups[k]|
      invariant wrapper == (if start + i < |all| && groups[k] != [] then Some(all[start + i]) else None)
      invariant calls == Called(groups[k][..i], want)
      decreases |groups[k]| - i
    {
      var w := wrapper.value;
      ParentInGroup(g, WRAPPERS, silicons, groups, k, i);
      var parent := FindParent(g, SILICON, w);
      if parent != Some(silicon) {
        break;
      }
      CalledOne(g, groups[k], i, want);
      if WrapperSelected(g.at[w].flags, want) {
        calls := calls + [w];
      }
      wrapper := NextInTopology(g, w, TERMINATE_TOPOLOGY, all, start + i);
      i := i + 1;
    }
    assert i == |groups[k]| && groups[k][..i] == groups[k];
  }

  /** That walk over every silicon in turn calls back on exactly the wrappers of the whole topology, in
      the same order as the walk over all wrappers. */
  method WrappersOfAllSilicons(g: Arena, want: bv32, root: nat, ghost silicons: seq<nat>, ghost groups: seq<seq<nat>>,
                               ghost wrappers: seq<nat>)
    returns (calls: seq<nat>)
    requires SiliconsOver(g, root, silicons, groups, wrappers)
    ensures calls == Called(wrappers, want)
  {
    hide Has, Precedes, GetChild, Closed, Nested, Called, GroupOf, AreWrappers;
    SiliconStart(g, silicons, groups);
    CalledStep([], [], want);
    calls := [];
    var silicon := FindChild(g, SILICON, root);
    ghost var k := 0;
    while silicon.Some?
      invariant 0 <= k <= |silicons| && silicon == (if k < |silicons| then Some(silicons[k]) else None)
      invariant calls == Called(Flatten(groups[..k]), want)
      decreases |silicons| - k
    {
      var ofSilicon := WrappersInNbio(g, want, silicon.value, silicons, groups, k);
      FlattenStep(groups, k);
      CalledStep(Flatten(groups[..k]), groups[k], want);
      calls := calls + ofSilicon;
      silicon := NextInTopology(g, silicon.value, TERMINATE_TOPOLOGY, silicons, k);
      k := k + 1;
    }
    TakeAll(groups, k);
  }

  lemma SiliconStart(g: Arena, silicons: seq<nat>, groups: seq<seq<nat>>)
    requires Nested(g, WRAPPERS, silicons, groups)
    ensures Closed(g) && |groups| == |silicons| && Chain(g, silicons)
  {
  }
}
