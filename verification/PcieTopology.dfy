/** The PCIe topology: descriptors linked by relative offsets, and the walks over them
    (xUSL/NBIO/NbioPcieTopologyHelper.c, xUSL/NBIO/NbioCommon.h).

    A descriptor is named by its address in the arena. Child and Peer lead forward, Parent leads
    back; a zero Child or Parent is the end, and the flag DESCRIPTOR_TERMINATE_TOPOLOGY ends a list
    of peers. */
module PcieTopology {
  import opened Options
  import opened SilStatus
  import opened Bytes

  const TERMINATE_GNB: bv32 := 0x4000_0000
  const TERMINATE_TOPOLOGY: bv32 := 0x2000_0000
  const ALLOCATED: bv32 := 0x1000_0000
  const SILICON: bv32 := 0x0200_0000
  const ALL_WRAPPERS: bv32 := 0x0100_0000
  const ALL_ENGINES: bv32 := 0x00A0_0000
  const ALL_TYPES: bv32 := 0x0BA0_0000

  /** PCIe_DESCRIPTOR_HEADER */
  datatype Descriptor = Descriptor(flags: bv32, parent: uint16, peer: uint16, child: uint16)

  /** The descriptors by address, all below size. */
  datatype Arena = Arena(size: nat, at: map<nat, Descriptor>)

  predicate Has(flags: bv32, mask: bv32) {
    flags & mask != 0
  }

  /** The flags of xUSL/NBIO/GnbDxio.h are bits of their own; there are two engine types, and the types that
      a walk selects are those of engines, wrappers, silicons and the platform. */
  lemma FlagBits()
    ensures TERMINATE_GNB == 0x4000_0000 && TERMINATE_TOPOLOGY == 0x2000_0000 && ALLOCATED == 0x1000_0000
    ensures SILICON == 0x0200_0000 && ALL_WRAPPERS == 0x0100_0000 && ALL_ENGINES == 0x0080_0000 | 0x0020_0000
    ensures ALL_TYPES == ALL_ENGINES | ALL_WRAPPERS | SILICON | 0x0800_0000
    ensures (TERMINATE_GNB | TERMINATE_TOPOLOGY | ALLOCATED) & ALL_TYPES == 0
  {
  }

  /** Every child and peer link leads to a descriptor. */
  ghost predicate Closed(g: Arena) {
    forall d :: d in g.at ==> LinksLead(g, d)
  }

  ghost predicate LinksLead(g: Arena, d: nat)
    requires d in g.at
  {
    && d < g.size
    && (g.at[d].child != 0 ==> d + g.at[d].child in g.at)
    && (g.at[d].peer != 0 ==> d + g.at[d].peer in g.at)
  }

  /** So does every parent link on the way from d to a descriptor of the type. Other parent links need
      not: that of the platform header is a distance to the end of the data. */
  ghost predicate ParentsLead(g: Arena, mask: bv32, d: nat)
    requires d in g.at
    decreases d
  {
    || Has(g.at[d].flags, mask) || g.at[d].parent == 0
    || (g.at[d].parent <= d && var up: nat := d - g.at[d].parent; up in g.at && ParentsLead(g, mask, up))
  }

  // ----- Single searches -----

  /** The nearest descriptor of the type along the child links. */
  ghost function GetChild(g: Arena, mask: bv32, d: nat): (r: Option<nat>)
    requires Closed(g) && d in g.at
    ensures r.Some? ==> r.value in g.at && Has(g.at[r.value].flags, mask)
    decreases g.size - d
  {
    assert LinksLead(g, d);
    if Has(g.at[d].flags, mask) then Some(d)
    else if g.at[d].child != 0 then GetChild(g, mask, d + g.at[d].child)
    else None
  }

  ghost function GetPeer(g: Arena, mask: bv32, d: nat): (r: Option<nat>)
    requires Closed(g) && d in g.at
    ensures r.Some? ==> r.value in g.at && Has(g.at[r.value].flags, mask)
    decreases g.size - d
  {
    assert LinksLead(g, d);
    if Has(g.at[d].flags, mask) then Some(d)
    else if g.at[d].peer != 0 then GetPeer(g, mask, d + g.at[d].peer)
    else None
  }

  ghost function GetParent(g: Arena, mask: bv32, d: nat): (r: Option<nat>)
    requires d in g.at && ParentsLead(g, mask, d)
    ensures r.Some? ==> r.value in g.at && Has(g.at[r.value].flags, mask)
    decreases d
  {
    if Has(g.at[d].flags, mask) then Some(d)
    else if g.at[d].parent != 0 then GetParent(g, mask, d - g.at[d].parent)
    else None
  }

  /** PcieConfigGetChild */
  method FindChild(g: Arena, mask: bv32, d: nat) returns (r: Option<nat>)
    requires Closed(g) && d in g.at
    ensures r == GetChild(g, mask, d)
  {
    hide Has;
    var c := d;
    while !Has(g.at[c].flags, mask)
      invariant c in g.at && GetChild(g, mask, d) == GetChild(g, mask, c)
      decreases g.size - c
    {
      assert LinksLead(g, c);
      if g.at[c].child == 0 {
        return None;
      }
      c := c + g.at[c].child;
    }
    r := Some(c);
  }

  /** PcieConfigGetParent */
  method FindParent(g: Arena, mask: bv32, d: nat) returns (r: Option<nat>)
    requires d in g.at && ParentsLead(g, mask, d)
    ensures r == GetParent(g, mask, d)
  {
    hide Has;
    var c := d;
    while !Has(g.at[c].flags, mask)
      invariant c in g.at && ParentsLead(g, mask, c) && GetParent(g, mask, d) == GetParent(g, mask, c)
      decreases c
    {
      if g.at[c].parent == 0 {
        return None;
      }
      c := c - g.at[c].parent;
    }
    r := Some(c);
  }

  /** The child search looks at a path of descriptors, each the child of the one before, and stops at the
      first of the type or at the end of the links. */
  lemma {:induction false} ChildPath(g: Arena, mask: bv32, d: nat) returns (path: seq<nat>)
    requires Closed(g) && d in g.at
    ensures path != [] && path[0] == d && forall i :: 0 <= i < |path| ==> path[i] in g.at
    ensures forall i :: 0 <= i < |path| - 1 ==>
              && !Has(g.at[path[i]].flags, mask) && g.at[path[i]].child != 0
              && path[i + 1] == path[i] + g.at[path[i]].child
    ensures var last := path[|path| - 1];
            if Has(g.at[last].flags, mask) then GetChild(g, mask, d) == Some(last)
            else g.at[last].child == 0 && GetChild(g, mask, d) == None
    decreases g.size - d
  {
    hide Has;
    if Has(g.at[d].flags, mask) || g.at[d].child == 0 {
      path := [d];
    } else {
      assert LinksLead(g, d);
      var rest := ChildPath(g, mask, d + g.at[d].child);
      path := [d] + rest;
    }
  }

  /** The peer search looks at a path of descriptors, each the peer of the one before, and stops at the
      first of the type or at the end of the links. */
  lemma {:induction false} PeerPath(g: Arena, mask: bv32, d: nat) returns (path: seq<nat>)
    requires Closed(g) && d in g.at
    ensures path != [] && path[0] == d && forall i :: 0 <= i < |path| ==> path[i] in g.at
    ensures forall i :: 0 <= i < |path| - 1 ==>
              && !Has(g.at[path[i]].flags, mask) && g.at[path[i]].peer != 0
              && path[i + 1] == path[i] + g.at[path[i]].peer
    ensures var last := path[|path| - 1];
            if Has(g.at[last].flags, mask) then GetPeer(g, mask, d) == Some(last)
            else g.at[last].peer == 0 && GetPeer(g, mask, d) == None
    decreases g.size - d
  {
    hide Has;
    if Has(g.at[d].flags, mask) || g.at[d].peer == 0 {
      path := [d];
    } else {
      assert LinksLead(g, d);
      var rest := PeerPath(g, mask, d + g.at[d].peer);
      path := [d] + rest;
    }
  }

  /** The parent search looks at a path of descriptors, each the parent of the one before, and stops at the
      first of the type or at the end of the links. */
  lemma {:induction false} ParentPath(g: Arena, mask: bv32, d: nat) returns (path: seq<nat>)
    requires d in g.at && ParentsLead(g, mask, d)
    ensures path != [] && path[0] == d && forall i :: 0 <= i < |path| ==> path[i] in g.at
    ensures forall i :: 0 <= i < |path| - 1 ==>
              && !Has(g.at[path[i]].flags, mask) && g.at[path[i]].parent != 0
              && path[i + 1] == path[i] - g.at[path[i]].parent
    ensures var last := path[|path| - 1];
            if Has(g.at[last].flags, mask) then GetParent(g, mask, d) == Some(last)
            else g.at[last].parent == 0 && GetParent(g, mask, d) == None
    decreases d
  {
    hide Has;
    if Has(g.at[d].flags, mask) || g.at[d].parent == 0 {
      path := [d];
    } else {
      var rest := ParentPath(g, mask, d - g.at[d].parent);
      path := [d] + rest;
    }
  }

  // ----- Peer lists -----

  /** ds are the descriptors from ds[0] along the peer links to the first with the stop flag. */
  ghost predicate ChainTo(g: Arena, ds: seq<nat>, stop: bv32) {
    && ds != []
    && (forall i :: 0 <= i < |ds| ==> ds[i] in g.at)
    && (forall i :: 0 <= i < |ds| - 1 ==> Precedes(g, ds, stop, i))
    && Has(g.at[ds[|ds| - 1]].flags, stop)
  }

  /** To the end of the topology. */
  ghost predicate Chain(g: Arena, ds: seq<nat>) {
    ChainTo(g, ds, TERMINATE_TOPOLOGY)
  }

  ghost predicate Precedes(g: Arena, ds: seq<nat>, stop: bv32, i: nat)
    requires i + 1 < |ds| && ds[i] in g.at
  {
    !Has(g.at[ds[i]].flags, stop) && g.at[ds[i]].peer != 0 && ds[i + 1] == ds[i] + g.at[ds[i]].peer
  }

  /** PcieConfigGetNextTopologyDescriptor */
  method NextInTopology(g: Arena, d: nat, stop: bv32, ghost ds: seq<nat>, ghost i: nat) returns (r: Option<nat>)
    requires ChainTo(g, ds, stop) && i < |ds| && d == ds[i]
    ensures r == if i + 1 < |ds| then Some(ds[i + 1]) else None
  {
    hide Has;
    if i + 1 < |ds| {
      assert Precedes(g, ds, stop, i);
    }
    r := if Has(g.at[d].flags, stop) then None else Some(d + g.at[d].peer);
  }

  /** Addresses grow along a chain, so no descriptor is met twice. */
  lemma {:induction false} ChainAscends(g: Arena, ds: seq<nat>, i: nat, j: nat)
    requires Chain(g, ds) && i < j < |ds|
    ensures ds[i] < ds[j]
    decreases j
  {
    hide Has;
    assert Precedes(g, ds, TERMINATE_TOPOLOGY, j - 1);
    if i < j - 1 {
      ChainAscends(g, ds, i, j - 1);
    }
  }

  // ----- Which descriptors the walks call back on -----

  /** The engine filter: allocated if that is asked for, and of a wanted engine type. */
  predicate EngineSelected(flags: bv32, want: bv32) {
    !(Has(want, ALLOCATED) && !Has(flags, ALLOCATED)) && Has(flags & ALL_ENGINES, want)
  }

  /** The engines of ds on which a callback is made, in order. */
  function Picked(g: Arena, ds: seq<nat>, want: bv32): (r: seq<nat>)
    requires forall i :: 0 <= i < |ds| ==> ds[i] in g.at
    ensures forall i :: 0 <= i < |r| ==> r[i] in g.at
  {
    if ds == [] then []
    else
      var d := ds[|ds| - 1];
      Picked(g, ds[..|ds| - 1], want) + if EngineSelected(g.at[d].flags, want) then [d] else []
  }

  lemma PickedStep(g: Arena, ds: seq<nat>, d: nat, want: bv32)
    requires d in g.at && forall i :: 0 <= i < |ds| ==> ds[i] in g.at
    ensures Picked(g, ds + [d], want) == Picked(g, ds, want) + if EngineSelected(g.at[d].flags, want) then [d] else []
  {
    hide EngineSelected;
    assert (ds + [d])[..|ds|] == ds;
  }

  lemma {:induction false} PickedAppend(g: Arena, ds: seq<nat>, es: seq<nat>, want: bv32)
    requires forall i :: 0 <= i < |ds| ==> ds[i] in g.at
    requires forall i :: 0 <= i < |es| ==> es[i] in g.at
    ensures forall i :: 0 <= i < |ds + es| ==> (ds + es)[i] in g.at
    ensures Picked(g, ds + es, want) == Picked(g, ds, want) + Picked(g, es, want)
    decreases |es|
  {
    hide EngineSelected, Picked;
    if es == [] {
      PickedNone(g, want);
      assert ds + es == ds;
    } else {
      var front, d := es[..|es| - 1], es[|es| - 1];
      PickedAppend(g, ds, front, want);
      PickedStep(g, front, d, want);
      PickedStep(g, ds + front, d, want);
      assert front + [d] == es && (ds + front) + [d] == ds + es;
    }
  }

  // ----- The shape of a topology -----

  function Flatten(groups: seq<seq<nat>>): (es: seq<nat>) {
    if groups == [] then [] else Flatten(groups[..|groups| - 1]) + groups[|groups| - 1]
  }

  /** A well-formed topology under root: the wrappers form one peer list, so do all engines, and the
      engines of each wrapper are consecutive in that list, in wrapper order. A wrapper may have no
      engine. */
  ghost predicate WellFormed(g: Arena, root: nat, wrappers: seq<nat>, groups: seq<seq<nat>>) {
    && Tree(g, root, wrappers, groups) && Chain(g, wrappers)
    && (Flatten(groups) != [] ==> Chain(g, Flatten(groups)))
  }

  /** The part of it that lies in child and parent links. */
  ghost predicate Tree(g: Arena, root: nat, wrappers: seq<nat>, groups: seq<seq<nat>>) {
    && Closed(g) && root in g.at && |groups| == |wrappers| && wrappers != [] && EnginesAreLeaves(g)
    && GetChild(g, ALL_WRAPPERS, root) == Some(wrappers[0])
    && (forall i :: 0 <= i < |wrappers| ==> GroupOf(g, ENGINES, wrappers[i], groups[i]))
  }

  ghost predicate EnginesAreLeaves(g: Arena) {
    forall d :: d in g.at && Has(g.at[d].flags, ALL_ENGINES) ==>
                  g.at[d].child == 0 && !Has(g.at[d].flags, ALL_WRAPPERS)
  }

  /** Two neighbouring levels of the tree, by the types of their descriptors. */
  datatype Level = Level(inner: bv32, outer: bv32)

  const ENGINES := Level(ALL_ENGINES, ALL_WRAPPERS)
  const WRAPPERS := Level(ALL_WRAPPERS, SILICON)

  /** es are the inner descriptors of w: its child search leads to the first, each one's parent is w. */
  ghost predicate GroupOf(g: Arena, l: Level, w: nat, es: seq<nat>)
    requires Closed(g)
  {
    && w in g.at && GetChild(g, l.inner, w) == (if es == [] then None else Some(es[0]))
    && (forall i :: 0 <= i < |es| ==> Under(g, l, w, es[i]))
  }

  ghost predicate Under(g: Arena, l: Level, w: nat, e: nat) {
    e in g.at && ParentsLead(g, l.outer, e) && GetParent(g, l.outer, e) == Some(w)
  }

  /** Two levels as the walks need them: both are peer lists, and the inner descriptors of each outer one
      are consecutive, in the order of the outer list. */
  ghost predicate Nested(g: Arena, l: Level, ws: seq<nat>, gs: seq<seq<nat>>) {
    && Closed(g) && |gs| == |ws| && Chain(g, ws) && (Flatten(gs) != [] ==> Chain(g, Flatten(gs)))
    && (forall i :: 0 <= i < |ws| ==> GroupOf(g, l, ws[i], gs[i]))
  }

  lemma WellFormedNested(g: Arena, root: nat, wrappers: seq<nat>, groups: seq<seq<nat>>)
    requires WellFormed(g, root, wrappers, groups)
    ensures Nested(g, ENGINES, wrappers, groups)
  {
    hide Closed, Chain, Flatten, GroupOf, GetChild;
  }

  lemma {:induction false} FlattenIn(g: Arena, groups: seq<seq<nat>>)
    requires forall i, j :: 0 <= i < |groups| && 0 <= j < |groups[i]| ==> groups[i][j] in g.at
    ensures forall i :: 0 <= i < |Flatten(groups)| ==> Flatten(groups)[i] in g.at
  {
    if groups != [] {
      FlattenIn(g, groups[..|groups| - 1]);
    }
  }

  /** An engine search that passes the first wrapper ends where a search from that wrapper ends. */
  lemma {:induction false} EnginesViaWrapper(g: Arena, d: nat, w: nat)
    requires Closed(g) && d in g.at && GetChild(g, ALL_WRAPPERS, d) == Some(w)
    requires EnginesAreLeaves(g)
    ensures GetChild(g, ALL_ENGINES, d) == GetChild(g, ALL_ENGINES, w)
    decreases g.size - d
  {
    hide Has;
    assert LinksLead(g, d);
    if !Has(g.at[d].flags, ALL_WRAPPERS) {
      EnginesViaWrapper(g, d + g.at[d].child, w);
    }
  }

  // ----- The engine walks -----

  /** PcieConfigRunProcForAllEngines: the engines called back on, in order. */
  method AllEngines(g: Arena, want: bv32, root: nat, ghost wrappers: seq<nat>, ghost groups: seq<seq<nat>>)
    returns (calls: seq<nat>)
    requires WellFormed(g, root, wrappers, groups)
    ensures calls == Flat(g, groups, want)
  {
    hide *;
    FlatStart(g, root, wrappers, groups);
    calls := [];
    var engine := FindChild(g, ALL_ENGINES, root);
    if engine.Some? {
      calls := WalkEngines(g, want, engine.value, Flatten(groups));
    }
  }

  /** The loop of PcieConfigRunProcForAllEngines. */
  method WalkEngines(g: Arena, want: bv32, first: nat, ghost es: seq<nat>) returns (calls: seq<nat>)
    requires Chain(g, es) && first == es[0]
    ensures calls == Picked(g, es, want)
  {
    hide Has, EngineSelected, Precedes;
    calls := [];
    var engine := Some(first);
    ghost var i := 0;
    while engine.Some?
      invariant 0 <= i <= |es| && engine == (if i < |es| then Some(es[i]) else None)
      invariant calls == Picked(g, es[..i], want)
      decreases |es| - i
    {
      var e := engine.value;
      assert es[..i + 1][..i] == es[..i];
      if EngineSelected(g.at[e].flags, want) {
        calls := calls + [e];
      }
      engine := NextInTopology(g, e, TERMINATE_TOPOLOGY, es, i);
      i := i + 1;
    }
    assert es[..i] == es;
  }

  lemma FlatStart(g: Arena, root: nat, wrappers: seq<nat>, groups: seq<seq<nat>>)
    requires WellFormed(g, root, wrappers, groups)
    ensures Closed(g) && root in g.at && groups != []
    ensures forall i :: 0 <= i < |Flatten(groups)| ==> Flatten(groups)[i] in g.at
    ensures var first := GetChild(g, ALL_ENGINES, root);
            if groups[0] == [] then first == None
            else Flatten(groups) != [] && Chain(g, Flatten(groups)) && first == Some(Flatten(groups)[0])
    ensures forall want :: Flat(g, groups, want) == if groups[0] == [] then [] else Picked(g, Flatten(groups), want)
  {
    hide Has, Precedes;
    EnginesViaWrapper(g, root, wrappers[0]);
    assert GroupOf(g, ENGINES, wrappers[0], groups[0]);
    if groups[0] != [] {
      FirstOfFlatten(groups);
    }
  }

  /** What the flat walk calls back on: every selected engine, but only if the first wrapper leads to one. */
  ghost function Flat(g: Arena, groups: seq<seq<nat>>, want: bv32): (r: seq<nat>)
    requires groups != [] && forall i :: 0 <= i < |Flatten(groups)| ==> Flatten(groups)[i] in g.at
  {
    if groups[0] == [] then [] else Picked(g, Flatten(groups), want)
  }

  lemma {:induction false} FirstOfFlatten(groups: seq<seq<nat>>)
    requires groups != [] && groups[0] != []
    ensures Flatten(groups) != [] && Flatten(groups)[0] == groups[0][0]
  {
    if |groups| > 1 {
      FirstOfFlatten(groups[..|groups| - 1]);
    } else {
      assert groups[..0] == [];
    }
  }

  /** PcieConfigRunProcForAllEnginesInWrapper, for wrapper k. */
  method EnginesInWrapper(g: Arena, want: bv32, w: nat, ghost root: nat, ghost wrappers: seq<nat>,
                          ghost groups: seq<seq<nat>>, ghost k: nat)
    returns (calls: seq<nat>)
    requires WellFormed(g, root, wrappers, groups) && k < |wrappers| && w == wrappers[k]
    ensures forall i :: 0 <= i < |groups[k]| ==> groups[k][i] in g.at
    ensures calls == Picked(g, groups[k], want)
  {
    hide Has, EngineSelected, Precedes, WellFormed, GetChild, GetParent, Closed, Flatten, Nested;
    WellFormedNested(g, root, wrappers, groups);
    GroupStart(g, ENGINES, wrappers, groups, k);
    ghost var es, start := Flatten(groups), |Flatten(groups[..k])|;
    calls := [];
    var engine := FindChild(g, ALL_ENGINES, w);
    ghost var i := 0;
    while engine.Some?
      invariant 0 <= i <= |groups[k]|
      invariant engine == (if start + i < |es| && groups[k] != [] then Some(es[start + i]) else None)
      invariant calls == Picked(g, groups[k][..i], want)
      decreases |groups[k]| - i
    {
      var e := engine.value;
      ParentInGroup(g, ENGINES, wrappers, groups, k, i);
      var parent := FindParent(g, ALL_WRAPPERS, e);
      if parent != Some(w) {
        break;
      }
      assert groups[k][..i + 1][..i] == groups[k][..i];
      if EngineSelected(g.at[e].flags, want) {
        calls := calls + [e];
      }
      engine := NextInTopology(g, e, TERMINATE_TOPOLOGY, es, start + i);
      i := i + 1;
    }
    assert i == |groups[k]| && groups[k][..i] == groups[k];
  }

  lemma FlattenStep(groups: seq<seq<nat>>, k: nat)
    requires k < |groups|
    ensures Flatten(groups[..k + 1]) == Flatten(groups[..k]) + groups[k]
  {
    assert groups[..k + 1][..k] == groups[..k];
  }

  lemma {:induction false} FlattenPrefix(groups: seq<seq<nat>>, k: nat)
    requires k <= |groups|
    ensures Flatten(groups[..k]) <= Flatten(groups)
  {
    if k < |groups| {
      FlattenPrefix(groups[..|groups| - 1], k);
      assert groups[..|groups| - 1][..k] == groups[..k];
    } else {
      assert groups[..k] == groups;
    }
  }

  lemma TakeAll<T>(s: seq<T>, n: nat)
    requires n <= |s|
    ensures n == |s| ==> s[..n] == s
  {
  }

  /** A position of the engine list behind the engines of group k belongs to a later group. */
  lemma {:induction false} InLaterGroup(groups: seq<seq<nat>>, k: nat, p: nat) returns (m: nat, j: nat)
    requires k < |groups| && |Flatten(groups[..k + 1])| <= p < |Flatten(groups)|
    ensures k < m < |groups| && j < |groups[m]| && Flatten(groups)[p] == groups[m][j]
    decreases |groups|
  {
    var init := groups[..|groups| - 1];
    TakeAll(groups, k + 1);
    if p >= |Flatten(init)| {
      m, j := |groups| - 1, p - |Flatten(init)|;
    } else {
      assert init[..k + 1] == groups[..k + 1];
      m, j := InLaterGroup(init, k, p);
    }
  }

  lemma GroupStart(g: Arena, l: Level, ws: seq<nat>, gs: seq<seq<nat>>, k: nat)
    requires Nested(g, l, ws, gs) && k < |ws|
    ensures Closed(g) && |gs| == |ws| && ws[k] in g.at
    ensures forall i :: 0 <= i < |gs[k]| ==> gs[k][i] in g.at
    ensures |Flatten(gs[..k])| + |gs[k]| <= |Flatten(gs)|
    ensures Flatten(gs) != [] ==> Chain(g, Flatten(gs))
    ensures forall i :: 0 <= i < |gs[k]| ==> gs[k][i] == Flatten(gs)[|Flatten(gs[..k])| + i]
    ensures GetChild(g, l.inner, ws[k]) == if gs[k] == [] then None else Some(gs[k][0])
  {
    hide Has, Precedes, GetChild, GetParent;
    assert GroupOf(g, l, ws[k], gs[k]);
    hide Closed, Chain, Flatten;
    GroupInFlatten(gs, k);
  }

  lemma GroupInFlatten(groups: seq<seq<nat>>, k: nat)
    requires k < |groups|
    ensures |Flatten(groups[..k])| + |groups[k]| <= |Flatten(groups)|
    ensures forall i :: 0 <= i < |groups[k]| ==> groups[k][i] == Flatten(groups)[|Flatten(groups[..k])| + i]
  {
    FlattenStep(groups, k);
    FlattenPrefix(groups, k + 1);
    hide Flatten;
    PartOfPrefix(Flatten(groups[..k]), groups[k], Flatten(groups));
  }

  lemma PartOfPrefix(a: seq<nat>, b: seq<nat>, all: seq<nat>)
    requires a + b <= all
    ensures |a| + |b| <= |all|
    ensures forall i :: 0 <= i < |b| ==> b[i] == all[|a| + i]
  {
    forall i | 0 <= i < |b|
      ensures b[i] == all[|a| + i]
    {
      assert (a + b)[|a| + i] == b[i];
    }
  }

  /** Of the inner descriptors from the start of group k on, exactly those of the group have outer
      descriptor k as parent. */
  lemma ParentInGroup(g: Arena, l: Level, ws: seq<nat>, gs: seq<seq<nat>>, k: nat, i: nat)
    requires Nested(g, l, ws, gs) && k < |ws| && i <= |gs[k]|
    requires |Flatten(gs[..k])| + i < |Flatten(gs)|
    ensures var e := Flatten(gs)[|Flatten(gs[..k])| + i];
            && e in g.at && ParentsLead(g, l.outer, e)
            && (GetParent(g, l.outer, e) == Some(ws[k]) <==> i < |gs[k]|)
  {
    hide GetChild, GetParent, Nested, Flatten, Chain, Closed;
    GroupStart(g, l, ws, gs, k);
    if i < |gs[k]| {
      GroupAt(g, l, ws, gs, k);
      assert gs[k][i] == Flatten(gs)[|Flatten(gs[..k])| + i];
    } else {
      FlattenStep(gs, k);
      var m, j := InLaterGroup(gs, k, |Flatten(gs[..k])| + i);
      GroupAt(g, l, ws, gs, m);
      ChainAscends(g, ws, k, m);
    }
  }

  lemma GroupAt(g: Arena, l: Level, ws: seq<nat>, gs: seq<seq<nat>>, m: nat)
    requires Nested(g, l, ws, gs) && m < |ws|
    ensures Closed(g) && Chain(g, ws) && |gs| == |ws| && GroupOf(g, l, ws[m], gs[m])
  {
  }

  /** PcieConfigRunProcForAllWrappers with a callback that runs the engine walk of the wrapper. */
  method EnginesOfAllWrappers(g: Arena, want: bv32, root: nat, ghost wrappers: seq<nat>, ghost groups: seq<seq<nat>>)
    returns (calls: seq<nat>)
    requires WellFormed(g, root, wrappers, groups)
    ensures forall i :: 0 <= i < |Flatten(groups)| ==> Flatten(groups)[i] in g.at
    ensures calls == Picked(g, Flatten(groups), want)
  {
    hide Has, Precedes, GetChild, GetParent, Closed, EngineSelected, WellFormed, Picked;
    WrapperStart(g, root, wrappers, groups);
    FlatStart(g, root, wrappers, groups);
    PickedNone(g, want);
    calls := [];
    var wrapper := FindChild(g, ALL_WRAPPERS, root);
    ghost var k := 0;
    while wrapper.Some?
      invariant 0 <= k <= |wrappers| && wrapper == (if k < |wrappers| then Some(wrappers[k]) else None)
      invariant forall i :: 0 <= i < |Flatten(groups[..k])| ==> Flatten(groups[..k])[i] in g.at
      invariant calls == Picked(g, Flatten(groups[..k]), want)
      decreases |wrappers| - k
    {
      var ofWrapper := EnginesInWrapper(g, want, wrapper.value, root, wrappers, groups, k);
      FlattenStep(groups, k);
      PickedAppend(g, Flatten(groups[..k]), groups[k], want);
      calls := calls + ofWrapper;
      wrapper := NextInTopology(g, wrapper.value, TERMINATE_TOPOLOGY, wrappers, k);
      k := k + 1;
    }
    TakeAll(groups, k);
  }

  lemma WrapperStart(g: Arena, root: nat, wrappers: seq<nat>, groups: seq<seq<nat>>)
    requires WellFormed(g, root, wrappers, groups)
    ensures Closed(g) && root in g.at && Chain(g, wrappers) && |groups| == |wrappers|
    ensures GetChild(g, ALL_WRAPPERS, root) == Some(wrappers[0])
  {
  }

  lemma PickedNone(g: Arena, want: bv32)
    ensures Picked(g, [], want) == []
  {
  }

  // ----- The walks agree -----

  /** Flat and nested walk call back on the same engines in the same order, for every filter,
      exactly when the first wrapper has an engine or no wrapper has. */
  lemma WalksAgreeIff(g: Arena, root: nat, wrappers: seq<nat>, groups: seq<seq<nat>>)
    requires WellFormed(g, root, wrappers, groups)
    ensures groups != [] && forall i :: 0 <= i < |Flatten(groups)| ==> Flatten(groups)[i] in g.at
    ensures (forall want :: Flat(g, groups, want) == Picked(g, Flatten(groups), want))
            <==> groups[0] != [] || Flatten(groups) == []
  {
    hide Has, Precedes, GetChild, GetParent, Closed, WellFormed, Picked;
    FlatStart(g, root, wrappers, groups);
    if groups[0] == [] {
      if Flatten(groups) == [] {
        forall want
          ensures Picked(g, Flatten(groups), want) == []
        {
          PickedNone(g, want);
        }
      } else {
        AllPicked(g, root, wrappers, groups);
        assert Flat(g, groups, ALL_ENGINES) != Picked(g, Flatten(groups), ALL_ENGINES);
      }
    }
  }

  /** The first wrapper has no engine, the second has one: the flat walk calls back on none. */
  lemma WalksDifferExample() returns (g: Arena)
    ensures WellFormed(g, 0, [16, 32], [[], [48]]) && Flatten([[], [48]]) == [48] && 48 in g.at
    ensures Flat(g, [[], [48]], ALL_ENGINES) == [] && Picked(g, [48], ALL_ENGINES) == [48]
  {
    var root := Descriptor(0x0800_0000, 0, 0, 16);
    var wrapper, last := Descriptor(0x0100_0000, 0, 16, 0), Descriptor(0x2100_0000, 0, 0, 16);
    var engine := Descriptor(0x2080_0000, 16, 0, 0);
    g := Arena(64, map[0 := root, 16 := wrapper, 32 := last, 48 := engine]);
    ExampleFlags(root.flags, wrapper.flags, last.flags, engine.flags);
    EveryTypeSelects(engine.flags);
    hide Has, EngineSelected;
    var none: seq<nat> := [];
    assert [none, [48]][..1] == [none] && [none][..0] == [];
    assert Flatten([none]) == none + none == none && Flatten([none, [48]]) == none + [48] == [48];
    assert GetChild(g, ALL_WRAPPERS, 0) == GetChild(g, ALL_WRAPPERS, 16) == Some(16);
    assert GetChild(g, ALL_ENGINES, 16) == None;
    assert GetChild(g, ALL_ENGINES, 32) == GetChild(g, ALL_ENGINES, 48) == Some(48);
    assert ParentsLead(g, ALL_WRAPPERS, 32) && GetParent(g, ALL_WRAPPERS, 32) == Some(32);
    assert ParentsLead(g, ALL_WRAPPERS, 48) && GetParent(g, ALL_WRAPPERS, 48) == Some(32);
    hide GetChild, GetParent, ParentsLead;
    assert Under(g, ENGINES, 32, 48);
    assert Precedes(g, [16, 32], TERMINATE_TOPOLOGY, 0);
    assert [48][..0] == [];
  }

  lemma ExampleFlags(root: bv32, wrapper: bv32, last: bv32, engine: bv32)
    requires root == 0x0800_0000 && wrapper == 0x0100_0000 && last == 0x2100_0000 && engine == 0x2080_0000
    ensures !Has(root, ALL_WRAPPERS) && !Has(root, ALL_ENGINES)
    ensures Has(wrapper, ALL_WRAPPERS) && !Has(wrapper, ALL_ENGINES) && !Has(wrapper, TERMINATE_TOPOLOGY)
    ensures Has(last, ALL_WRAPPERS) && !Has(last, ALL_ENGINES) && Has(last, TERMINATE_TOPOLOGY)
    ensures !Has(engine, ALL_WRAPPERS) && Has(engine, ALL_ENGINES) && Has(engine, TERMINATE_TOPOLOGY)
  {
  }

  /** Asking for every engine type selects some engine if there is one. */
  lemma AllPicked(g: Arena, root: nat, wrappers: seq<nat>, groups: seq<seq<nat>>)
    requires WellFormed(g, root, wrappers, groups) && Flatten(groups) != []
    ensures forall i :: 0 <= i < |Flatten(groups)| ==> Flatten(groups)[i] in g.at
    ensures Picked(g, Flatten(groups), ALL_ENGINES) != []
  {
    hide Has, GetParent, WellFormed, Chain, Closed, Picked, Wanted, FlagAllocated;
    FlatStart(g, root, wrappers, groups);
    var k := NonemptyGroup(groups);
    WrapperStart(g, root, wrappers, groups);
    WellFormedNested(g, root, wrappers, groups);
    GroupStart(g, ENGINES, wrappers, groups, k);
    var e := GetChild(g, ALL_ENGINES, wrappers[k]).value;
    assert e == groups[k][0] == Flatten(groups)[|Flatten(groups[..k])| + 0];
    EveryTypeSelects(g.at[e].flags);
    PickedIffSelected(g, Flatten(groups), ALL_ENGINES, e);
  }

  lemma EveryTypeSelects(flags: bv32)
    requires Has(flags, ALL_ENGINES)
    ensures EngineSelected(flags, ALL_ENGINES)
    ensures Wanted(flags, ALL_ENGINES) && !FlagAllocated(ALL_ENGINES)
  {
  }

  lemma {:induction false} NonemptyGroup(groups: seq<seq<nat>>) returns (k: nat)
    requires Flatten(groups) != []
    ensures k < |groups| && groups[k] != []
  {
    k := |groups| - 1;
    if groups[k] == [] {
      k := NonemptyGroup(groups[..k]);
    }
  }

  /** The filter in terms of the flag bits: a wanted engine type, and allocated if that is asked for. */
  predicate Wanted(flags: bv32, want: bv32) {
    flags & want & 0x00A0_0000 != 0
  }

  predicate FlagAllocated(flags: bv32) {
    flags & 0x1000_0000 != 0
  }

  lemma AndRegroups(a: bv32, b: bv32, c: bv32, x: bv32, y: bv32)
    requires x == a & c && y == a & b
    ensures x & b == y & c
  {
  }

  lemma SelectedIff(flags: bv32, want: bv32)
    ensures EngineSelected(flags, want) <==> Wanted(flags, want) && (FlagAllocated(want) ==> FlagAllocated(flags))
  {
    AndRegroups(flags, want, 0x00A0_0000, flags & 0x00A0_0000, flags & want);
  }

  /** A callback is made on a descriptor exactly if it is in the list, is an engine of a wanted type, and
      is allocated if allocated ones are asked for. */
  lemma {:induction false} PickedIffSelected(g: Arena, ds: seq<nat>, want: bv32, d: nat)
    requires forall i :: 0 <= i < |ds| ==> ds[i] in g.at
    ensures d in Picked(g, ds, want) <==>
            && d in ds && Wanted(g.at[d].flags, want)
            && (FlagAllocated(want) ==> FlagAllocated(g.at[d].flags))
  {
    hide EngineSelected, Wanted, FlagAllocated;
    if d in ds {
      SelectedIff(g.at[d].flags, want);
    }
    if ds != [] {
      PickedIffSelected(g, ds[..|ds| - 1], want, d);
      assert ds == ds[..|ds| - 1] + [ds[|ds| - 1]];
    }
  }

  function Allocated(g: Arena, ds: seq<nat>): (r: seq<nat>)
    requires forall i :: 0 <= i < |ds| ==> ds[i] in g.at
  {
    if ds == [] then []
    else
      var d := ds[|ds| - 1];
      Allocated(g, ds[..|ds| - 1]) + if FlagAllocated(g.at[d].flags) then [d] else []
  }

  lemma SameType(flags: bv32, want: bv32, with: bv32, without: bv32, x: bv32)
    requires with == want | 0x1000_0000 && without == want & 0xEFFF_FFFF && x == flags & 0x00A0_0000
    ensures x & with == x & without
  {
  }

  lemma FlagGiven(want: bv32, with: bv32, without: bv32)
    requires with == want | 0x1000_0000 && without == want & 0xEFFF_FFFF
    ensures FlagAllocated(with) && !FlagAllocated(without)
  {
  }

  lemma SelectedWithFlag(flags: bv32, want: bv32, with: bv32, without: bv32)
    requires with == want | 0x1000_0000 && without == want & 0xEFFF_FFFF
    ensures EngineSelected(flags, with) <==> EngineSelected(flags, without) && FlagAllocated(flags)
  {
    hide EngineSelected, FlagAllocated;
    SelectedIff(flags, with);
    SelectedIff(flags, without);
    FlagGiven(want, with, without);
    SameType(flags, want, with, without, flags & 0x00A0_0000);
    AndRegroups(flags, with, 0x00A0_0000, flags & 0x00A0_0000, flags & with);
    AndRegroups(flags, without, 0x00A0_0000, flags & 0x00A0_0000, flags & without);
  }

  /** Asking for allocated engines keeps, of the callbacks made otherwise, those on allocated engines. */
  lemma {:induction false} AllocatedOnly(g: Arena, ds: seq<nat>, want: bv32, with: bv32, without: bv32)
    requires with == want | 0x1000_0000 && without == want & 0xEFFF_FFFF
    requires forall i :: 0 <= i < |ds| ==> ds[i] in g.at
    ensures Picked(g, ds, with) == Allocated(g, Picked(g, ds, without))
  {
    hide EngineSelected, FlagAllocated;
    if ds != [] {
      var init, d := ds[..|ds| - 1], ds[|ds| - 1];
      SelectedWithFlag(g.at[d].flags, want, with, without);
      AllocatedOnly(g, init, want, with, without);
      var r := Picked(g, init, without);
      assert (r + [d])[..|r|] == r && r + [] == r;
    }
  }

  predicate Ascends(r: seq<nat>) {
    forall i, j :: 0 <= i < j < |r| ==> r[i] < r[j]
  }

  lemma AscendsFurther(r: seq<nat>, d: nat)
    requires Ascends(r) && forall i :: 0 <= i < |r| ==> r[i] < d
    ensures Ascends(r + [d])
  {
  }

  /** No engine is called back on twice. */
  lemma {:induction false} PickedAscends(g: Arena, ds: seq<nat>, want: bv32)
    requires forall i :: 0 <= i < |ds| ==> ds[i] in g.at
    requires Ascends(ds)
    ensures Ascends(Picked(g, ds, want))
  {
    hide EngineSelected, Picked;
    if ds == [] {
      PickedNone(g, want);
    } else {
      var init, d := ds[..|ds| - 1], ds[|ds| - 1];
      assert init + [d] == ds;
      PickedAscends(g, init, want);
      PickedStep(g, init, d, want);
      var p := Picked(g, init, want);
      forall i | 0 <= i < |p|
        ensures p[i] < d
      {
        PickedIffSelected(g, init, want, p[i]);
      }
      AscendsFurther(p, d);
      assert p + [] == p;
    }
  }

  // ----- All descriptors, and the exclude flags -----

  /** The test as written: the exclude flags are combined with && and not with &. */
  predicate Included(flags: bv32, inFlags: bv32, outFlags: bv32) {
    Has(inFlags, flags) && !(outFlags != 0 && flags != 0)
  }

  /** The test the parameter description asks for. */
  predicate IncludedAsDescribed(flags: bv32, inFlags: bv32, outFlags: bv32) {
    Has(inFlags, flags) && !Has(outFlags, flags)
  }

  function Visited(g: Arena, ds: seq<nat>, inFlags: bv32, outFlags: bv32): (r: seq<nat>)
    requires forall i :: 0 <= i < |ds| ==> ds[i] in g.at
  {
    if ds == [] then []
    else
      var d := ds[|ds| - 1];
      Visited(g, ds[..|ds| - 1], inFlags, outFlags) + if Included(g.at[d].flags, inFlags, outFlags) then [d] else []
  }

  function VisitedAsDescribed(g: Arena, ds: seq<nat>, inFlags: bv32, outFlags: bv32): (r: seq<nat>)
    requires forall i :: 0 <= i < |ds| ==> ds[i] in g.at
  {
    if ds == [] then []
    else
      var d := ds[|ds| - 1];
      VisitedAsDescribed(g, ds[..|ds| - 1], inFlags, outFlags)
      + if IncludedAsDescribed(g.at[d].flags, inFlags, outFlags) then [d] else []
  }

  lemma TestsAgreeIff(flags: bv32, inFlags: bv32, outFlags: bv32)
    ensures Included(flags, inFlags, outFlags) == IncludedAsDescribed(flags, inFlags, outFlags)
            <==> outFlags == 0 || (Has(inFlags, flags) ==> Has(outFlags, flags))
    ensures Included(flags, inFlags, outFlags) ==> IncludedAsDescribed(flags, inFlags, outFlags)
  {
  }

  /** The code calls back on what the description says exactly when no exclude flag is given, or
      every descriptor with an include flag has an exclude flag. */
  lemma {:induction false} ExcludeFlagsIff(g: Arena, ds: seq<nat>, inFlags: bv32, outFlags: bv32)
    requires forall i :: 0 <= i < |ds| ==> ds[i] in g.at
    ensures Visited(g, ds, inFlags, outFlags) == VisitedAsDescribed(g, ds, inFlags, outFlags)
            <==> outFlags == 0
                 || forall i :: 0 <= i < |ds| && Has(inFlags, g.at[ds[i]].flags) ==> Has(outFlags, g.at[ds[i]].flags)
    ensures |Visited(g, ds, inFlags, outFlags)| <= |VisitedAsDescribed(g, ds, inFlags, outFlags)|
  {
    hide Has, Included, IncludedAsDescribed;
    if ds != [] {
      var init, d := ds[..|ds| - 1], ds[|ds| - 1];
      ExcludeFlagsIff(g, init, inFlags, outFlags);
      TestsAgreeIff(g.at[d].flags, inFlags, outFlags);
      var v, v' := Visited(g, init, inFlags, outFlags), VisitedAsDescribed(g, init, inFlags, outFlags);
      assert Visited(g, ds, inFlags, outFlags)[..|v|] == v;
      assert VisitedAsDescribed(g, ds, inFlags, outFlags)[..|v'|] == v';
    }
  }

  /** A wrapper that should be called back on is not, as soon as some exclude flag is given. */
  lemma ExcludeExample()
    ensures var g := Arena(1, map[0 := Descriptor(ALL_WRAPPERS, 0, 0, 0)]);
            Visited(g, [0], ALL_WRAPPERS, ALLOCATED) == [] && VisitedAsDescribed(g, [0], ALL_WRAPPERS, ALLOCATED) == [0]
  {
    assert Has(ALL_WRAPPERS, ALL_WRAPPERS) && !Has(ALLOCATED, ALL_WRAPPERS);
    assert [0][..0] == [];
  }

  /** SIL_STATUS_UPDATE over a list of callbacks: the status with the highest value. */
  function Worst(callback: nat -> Status, calls: seq<nat>): (s: Status)
    ensures forall i :: 0 <= i < |calls| ==> Code(callback(calls[i])) <= Code(s)
    ensures s == SilPass || exists i :: 0 <= i < |calls| && s == callback(calls[i])
  {
    if calls == [] then SilPass
    else
      var n := |calls| - 1;
      var s := Worst(callback, calls[..n]);
      if Code(callback(calls[n])) > Code(s) then callback(calls[n]) else s
  }

  lemma WorstStep(callback: nat -> Status, calls: seq<nat>, d: nat)
    ensures Worst(callback, calls + [d])
            == if Code(callback(d)) > Code(Worst(callback, calls)) then callback(d) else Worst(callback, calls)
    ensures Worst(callback, []) == SilPass
  {
    hide Code;
    assert (calls + [d])[..|calls|] == calls;
  }

  lemma VisitedStep(g: Arena, ds: seq<nat>, i: nat, inFlags: bv32, outFlags: bv32)
    requires i < |ds| && forall j :: 0 <= j < |ds| ==> ds[j] in g.at
    ensures Visited(g, ds[..i + 1], inFlags, outFlags)
            == Visited(g, ds[..i], inFlags, outFlags)
               + if Included(g.at[ds[i]].flags, inFlags, outFlags) then [ds[i]] else []
  {
    hide Included;
    assert ds[..i + 1][..i] == ds[..i];
  }

  lemma VisitedNone(g: Arena, inFlags: bv32, outFlags: bv32)
    ensures Visited(g, [], inFlags, outFlags) == []
  {
  }

  /** PcieConfigRunProcForAllDescriptors */
  method AllDescriptors(g: Arena, inFlags: bv32, outFlags: bv32, stop: bv32, root: nat, callback: nat -> Status,
                        ghost ds: seq<nat>)
    returns (calls: seq<nat>, status: Status)
    requires Closed(g) && root in g.at
    requires var first := GetChild(g, inFlags & ALL_TYPES, root);
             first.Some? ==> ChainTo(g, ds, stop) && first.value == ds[0]
    ensures GetChild(g, inFlags & ALL_TYPES, root).None? ==> calls == []
    ensures GetChild(g, inFlags & ALL_TYPES, root).Some? ==> calls == Visited(g, ds, inFlags, outFlags)
    ensures status == Worst(callback, calls)
  {
    hide Has, Included, Precedes, GetChild, Closed, Visited, Worst, Code;
    calls, status := [], SilPass;
    VisitedNone(g, inFlags, outFlags);
    WorstStep(callback, [], 0);
    var descriptor := FindChild(g, inFlags & ALL_TYPES, root);
    ghost var some, i := descriptor.Some?, 0;
    while descriptor.Some?
      invariant some ==> 0 <= i <= |ds| && descriptor == (if i < |ds| then Some(ds[i]) else None)
      invariant some ==> calls == Visited(g, ds[..i], inFlags, outFlags)
      invariant !some ==> descriptor.None? && calls == []
      invariant status == Worst(callback, calls)
      decreases if some then |ds| - i else 0
    {
      var d := descriptor.value;
      VisitedStep(g, ds, i, inFlags, outFlags);
      if Included(g.at[d].flags, inFlags, outFlags) {
        var s := callback(d);
        WorstStep(callback, calls, d);
        if Code(s) > Code(status) {
          status := s;
        }
        calls := calls + [d];
      }
      descriptor := NextInTopology(g, d, stop, ds, i);
      i := i + 1;
    }
    assert some ==> ds[..i] == ds;
  }
}
