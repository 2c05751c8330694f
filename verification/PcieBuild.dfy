/** How the topology is linked together from the complexes of the root bridges
    (xUSL/NBIO/IOD/NbioPcie.c:37-79 and 215-304). */
module PcieBuild {
  import opened Options
  import opened Bytes
  import opened PcieSilicons
  import opened PcieTopology

  const PCIE_ENGINE: bv32 := 0x0080_0000

  /** Left->Peer = Right - Left, cut to 16 bits; the end flag of Left is cleared. */
  function Linked(d: Descriptor, left: nat, right: nat): (d': Descriptor) {
    d.(peer := (right - left) % 0x1_0000, flags := Without(d.flags, TERMINATE_TOPOLOGY))
  }

  function Without(flags: bv32, mask: bv32): (f: bv32) {
    flags & !mask
  }

  ghost function Link(g: Arena, left: nat, right: nat): (g': Arena)
    requires left in g.at
  {
    g.(at := g.at[left := Linked(g.at[left], left, right)])
  }

  /** The arena after PcieConfigAttachDescriptors. */
  ghost function Attach(g: Arena, mask: bv32, base: nat, next: nat): (g': Arena)
    requires Closed(g) && base in g.at && next in g.at
  {
    var child, right := GetChild(g, mask, base), GetChild(g, mask, next);
    var left := if child.Some? then GetPeer(g, TERMINATE_GNB, child.value) else None;
    if left.Some? && right.Some? then Link(g, left.value, right.value) else g
  }

  class Topology {
    var arena: Arena

    constructor (arena: Arena)
      ensures this.arena == arena
    {
      this.arena := arena;
    }

    /** PcieConfigAttachDescriptors */
    method AttachDescriptors(mask: bv32, base: nat, next: nat)
      requires Closed(arena) && base in arena.at && next in arena.at
      modifies this
      ensures arena == Attach(old(arena), mask, base, next) && SameTree(old(arena), arena)
    {
      AttachKeepsTree(arena, mask, base, next);
      hide Has, GetChild, GetPeer, Without;
      var left: Option<nat> := None;
      var child := FindChild(arena, mask, base);
      if child.Some? {
        left := FindPeer(arena, TERMINATE_GNB, child.value);
      }
      var right := FindChild(arena, mask, next);
      if left.Some? && right.Some? {
        var l, r := left.value, right.value;
        arena := arena.(at := arena.at[l := Linked(arena.at[l], l, r)]);
      }
    }

    /** PcieConfigAttachComplexes, for the complexes of parts k - 1 and k. */
    method AttachComplexes(base: nat, next: nat, ghost root: nat, ghost parts: seq<Part>, ghost k: nat)
      requires k < |parts| && Building(arena, root, parts, k, 0)
      requires base == parts[k - 1].header && next == parts[k].header
      modifies this
      ensures Building(arena, root, parts, k + 1, 0) && SameTree(old(arena), arena)
    {
      hide Building, Attach, Closed, Linked, SameTree;
      BuildStep(arena, root, parts, k, 0);
      LinkKeepsTypes(arena, base, next);
      arena := arena.(at := arena.at[base := Linked(arena.at[base], base, next)]);
      BuildStep(arena, root, parts, k, 1);
      ghost var g1 := arena;
      AttachDescriptors(SILICON, base, next);
      SameTreeTrans(old(arena), g1, arena);
      BuildStep(arena, root, parts, k, 2);
      ghost var g2 := arena;
      AttachDescriptors(ALL_WRAPPERS, base, next);
      SameTreeTrans(old(arena), g2, arena);
      BuildStep(arena, root, parts, k, 3);
      ghost var g3 := arena;
      AttachDescriptors(PCIE_ENGINE, base, next);
      SameTreeTrans(old(arena), g3, arena);
      NextPart(arena, root, parts, k);
    }

    /** The attachments of the builder and its last assignment, the distance from the platform header to
        the end of the data. The walks find all wrappers and engines of all complexes. */
    method Build(root: nat, end: nat, headers: seq<nat>, ghost parts: seq<Part>)
      requires Building(arena, root, parts, 1, 0)
      requires |headers| == |parts| && forall i :: 0 <= i < |parts| ==> headers[i] == parts[i].header
      modifies this
      ensures WellFormed(arena, root, Merged(parts, |parts|, 2), MergedGroups(parts, |parts|))
      ensures SiliconsOver(arena, root, Merged(parts, |parts|, 1), MergedOfSilicons(parts, |parts|),
                           Merged(parts, |parts|, 2))
      ensures root in old(arena.at) && SameTree(WithParent(old(arena), root, (end - root) % 0x1_0000), arena)
    {
      hide Building, Has, Linked, WellFormed, SiliconsOver, RootOk, Merged, MergedGroups, MergedOfSilicons, SameTree;
      SomePart(arena, root, parts);
      SameTreeRefl(arena);
      for k := 1 to |headers|
        invariant Building(arena, root, parts, k, 0) && SameTree(old(arena), arena)
      {
        ghost var g := arena;
        AttachComplexes(headers[k - 1], headers[k], root, parts, k);
        SameTreeTrans(old(arena), g, arena);
      }
      ghost var n := |parts|;
      BuiltWellFormed(arena, root, parts);
      RootParentKeeps(arena, root, (end - root) % 0x1_0000, Merged(parts, n, 2), MergedGroups(parts, n),
                      Merged(parts, n, 1), MergedOfSilicons(parts, n));
      SameWithParent(old(arena), arena, root, (end - root) % 0x1_0000);
      arena := arena.(at := arena.at[root := arena.at[root].(parent := (end - root) % 0x1_0000)]);
    }
  }

  /** PcieConfigGetPeer */
  method FindPeer(g: Arena, mask: bv32, d: nat) returns (r: Option<nat>)
    requires Closed(g) && d in g.at
    ensures r == GetPeer(g, mask, d)
  {
    hide Has;
    var c := d;
    while !Has(g.at[c].flags, mask)
      invariant c in g.at && GetPeer(g, mask, d) == GetPeer(g, mask, c)
      decreases g.size - c
    {
      assert LinksLead(g, c);
      if g.at[c].peer == 0 {
        return None;
      }
      c := c + g.at[c].peer;
    }
    r := Some(c);
  }

  lemma FlagCleared(flags: bv32)
    ensures !Has(Without(flags, TERMINATE_TOPOLOGY), TERMINATE_TOPOLOGY)
    ensures Without(Without(flags, TERMINATE_TOPOLOGY), TERMINATE_TOPOLOGY) == Without(flags, TERMINATE_TOPOLOGY)
  {
  }

  lemma TypeMasks()
    ensures !Has(ALL_WRAPPERS, TERMINATE_TOPOLOGY) && !Has(ALL_ENGINES, TERMINATE_TOPOLOGY)
    ensures !Has(PCIE_ENGINE, TERMINATE_TOPOLOGY) && !Has(TERMINATE_GNB, TERMINATE_TOPOLOGY)
    ensures !Has(SILICON, TERMINATE_TOPOLOGY) && PCIE_ENGINE | 0x0020_0000 == ALL_ENGINES
  {
  }

  /** Flags that differ in the end flag only agree on every mask without it. */
  lemma SameFlags(f: bv32, f': bv32, mask: bv32)
    requires Without(f, TERMINATE_TOPOLOGY) == Without(f', TERMINATE_TOPOLOGY) && !Has(mask, TERMINATE_TOPOLOGY)
    ensures Has(f', mask) == Has(f, mask)
  {
    hide Has, Without;
    MaskedAlike(f, mask);
    MaskedAlike(f', mask);
  }

  lemma MaskedAlike(f: bv32, mask: bv32)
    requires !Has(mask, TERMINATE_TOPOLOGY)
    ensures Has(f, mask) == Has(Without(f, TERMINATE_TOPOLOGY), mask)
  {
  }

  /** Linking the last descriptor of one list to the first of another joins the lists exactly when
      the second starts less than 64 KiB behind it: the offset field has 16 bits. */
  lemma LinkJoinsIff(g: Arena, xs: seq<nat>, ys: seq<nat>)
    requires Chain(g, xs) && Chain(g, ys) && xs[|xs| - 1] !in ys
    ensures var left, right := xs[|xs| - 1], ys[0];
            Chain(Link(g, left, right), xs + ys) <==> left < right < left + 0x1_0000
  {
    hide Has, Without;
    var left, right := xs[|xs| - 1], ys[0];
    var g', zs, n := Link(g, left, right), xs + ys, |xs| - 1;
    FlagCleared(g.at[left].flags);
    if Chain(g', zs) {
      assert Precedes(g', zs, TERMINATE_TOPOLOGY, n);
    }
    if left < right < left + 0x1_0000 {
      forall i | 0 <= i < |zs| - 1
        ensures Precedes(g', zs, TERMINATE_TOPOLOGY, i)
      {
        if i < n {
          assert Precedes(g, xs, TERMINATE_TOPOLOGY, i);
          ChainAscends(g, xs, i, n);
        } else if i > n {
          assert Precedes(g, ys, TERMINATE_TOPOLOGY, i - |xs|);
        }
      }
    }
  }

  /** Lists that do not hold the linked descriptor stay as they are. */
  lemma LinkKeepsChain(g: Arena, left: nat, right: nat, zs: seq<nat>)
    requires Chain(g, zs) && left in g.at && left !in zs
    ensures Chain(Link(g, left, right), zs)
  {
    hide Has, Without;
    var g' := Link(g, left, right);
    forall i | 0 <= i < |zs| - 1
      ensures Precedes(g', zs, TERMINATE_TOPOLOGY, i)
    {
      assert Precedes(g, zs, TERMINATE_TOPOLOGY, i);
    }
  }

  /** The arenas have the same descriptors, with the same types, children and parents. */
  ghost predicate SameTree(g: Arena, g': Arena) {
    g'.size == g.size && g'.at.Keys == g.at.Keys && forall d :: d in g.at ==> SameInTree(g.at[d], g'.at[d])
  }

  predicate SameInTree(d: Descriptor, d': Descriptor) {
    && d'.child == d.child && d'.parent == d.parent
    && Without(d.flags, TERMINATE_TOPOLOGY) == Without(d'.flags, TERMINATE_TOPOLOGY)
  }

  lemma LinkKeepsTypes(g: Arena, left: nat, right: nat)
    requires left in g.at
    ensures SameTree(g, Link(g, left, right))
  {
    hide Has, Without;
    FlagCleared(g.at[left].flags);
  }

  lemma SameTreeRefl(g: Arena)
    ensures SameTree(g, g)
  {
    hide Without;
  }

  lemma SameTreeTrans(g: Arena, h: Arena, k: Arena)
    requires SameTree(g, h) && SameTree(h, k)
    ensures SameTree(g, k)
  {
    hide Without;
  }

  /** An attachment changes peer links and end flags only. */
  lemma AttachKeepsTree(g: Arena, mask: bv32, base: nat, next: nat)
    requires Closed(g) && base in g.at && next in g.at
    ensures SameTree(g, Attach(g, mask, base, next))
  {
    hide Has, GetChild, GetPeer, Closed, Linked, Link, SameTree;
    SameTreeRefl(g);
    var child, right := GetChild(g, mask, base), GetChild(g, mask, next);
    var left := if child.Some? then GetPeer(g, TERMINATE_GNB, child.value) else None;
    if left.Some? && right.Some? {
      LinkKeepsTypes(g, left.value, right.value);
    }
  }

  lemma LinkKeepsClosed(g: Arena, left: nat, right: nat)
    requires Closed(g) && left in g.at && right in g.at && left < right < left + 0x1_0000
    ensures Closed(Link(g, left, right))
  {
    hide Without;
    var g' := Link(g, left, right);
    forall d | d in g'.at
      ensures LinksLead(g', d)
    {
      assert LinksLead(g, d);
    }
  }

  /** Searches along children and parents depend on the tree only. */
  lemma {:induction false} ChildSearchSame(g: Arena, g': Arena, mask: bv32, d: nat)
    requires Closed(g) && Closed(g') && SameTree(g, g') && d in g.at && !Has(mask, TERMINATE_TOPOLOGY)
    ensures GetChild(g', mask, d) == GetChild(g, mask, d)
    decreases g.size - d
  {
    hide Has, Without;
    assert LinksLead(g, d) && SameInTree(g.at[d], g'.at[d]);
    SameFlags(g.at[d].flags, g'.at[d].flags, mask);
    if g.at[d].child != 0 {
      ChildSearchSame(g, g', mask, d + g.at[d].child);
    }
  }

  lemma {:induction false} ParentSearchSame(g: Arena, g': Arena, mask: bv32, d: nat)
    requires SameTree(g, g') && d in g.at && ParentsLead(g, mask, d) && !Has(mask, TERMINATE_TOPOLOGY)
    ensures ParentsLead(g', mask, d) && GetParent(g', mask, d) == GetParent(g, mask, d)
    decreases d
  {
    hide Has, Without;
    assert SameInTree(g.at[d], g'.at[d]);
    SameFlags(g.at[d].flags, g'.at[d].flags, mask);
    if !Has(g.at[d].flags, mask) && g.at[d].parent != 0 {
      ParentSearchSame(g, g', mask, d - g.at[d].parent);
    }
  }

  lemma GroupSame(g: Arena, g': Arena, l: Level, w: nat, es: seq<nat>)
    requires Closed(g) && Closed(g') && SameTree(g, g') && GroupOf(g, l, w, es)
    requires !Has(l.inner, TERMINATE_TOPOLOGY) && !Has(l.outer, TERMINATE_TOPOLOGY)
    ensures GroupOf(g', l, w, es)
  {
    hide GetChild, GetParent, Closed, SameInTree, Has, ParentsLead;
    ChildSearchSame(g, g', l.inner, w);
    forall i | 0 <= i < |es|
      ensures Under(g', l, w, es[i])
    {
      ParentSearchSame(g, g', l.outer, es[i]);
    }
  }

  lemma LeavesSame(g: Arena, g': Arena)
    requires EnginesAreLeaves(g) && SameTree(g, g')
    ensures EnginesAreLeaves(g')
  {
    TypeMasks();
    hide Has, Without;
    forall d | d in g'.at && Has(g'.at[d].flags, ALL_ENGINES)
      ensures g'.at[d].child == 0 && !Has(g'.at[d].flags, ALL_WRAPPERS)
    {
      assert SameInTree(g.at[d], g'.at[d]);
      SameFlags(g.at[d].flags, g'.at[d].flags, ALL_ENGINES);
      SameFlags(g.at[d].flags, g'.at[d].flags, ALL_WRAPPERS);
    }
  }

  lemma TreeSame(g: Arena, g': Arena, root: nat, ws: seq<nat>, gs: seq<seq<nat>>)
    requires Tree(g, root, ws, gs) && Closed(g') && SameTree(g, g')
    ensures Tree(g', root, ws, gs)
  {
    TypeMasks();
    hide GetChild, GetParent, EnginesAreLeaves, Closed, SameInTree, Has;
    LeavesSame(g, g');
    ChildSearchSame(g, g', ALL_WRAPPERS, root);
    forall i | 0 <= i < |ws|
      ensures GroupOf(g', ENGINES, ws[i], gs[i])
    {
      GroupSame(g, g', ENGINES, ws[i], gs[i]);
    }
  }

  lemma TreeAppend(g: Arena, root: nat, ws: seq<nat>, gs: seq<seq<nat>>, next: nat, ws': seq<nat>, gs': seq<seq<nat>>)
    requires Tree(g, root, ws, gs) && Tree(g, next, ws', gs')
    ensures Tree(g, root, ws + ws', gs + gs')
  {
    hide GetChild, GetParent, EnginesAreLeaves, Closed;
  }

  lemma FlattenSnoc(gs: seq<seq<nat>>, h: seq<nat>)
    ensures Flatten(gs + [h]) == Flatten(gs) + h
  {
    assert (gs + [h])[..|gs|] == gs;
  }

  lemma FlattenNone()
    ensures Flatten([]) == []
  {
  }

  lemma {:induction false} FlattenAppend(gs: seq<seq<nat>>, hs: seq<seq<nat>>)
    ensures Flatten(gs + hs) == Flatten(gs) + Flatten(hs)
    decreases |hs|
  {
    hide Flatten;
    if hs == [] {
      FlattenNone();
      assert gs + hs == gs;
    } else {
      var front, h := hs[..|hs| - 1], hs[|hs| - 1];
      assert front + [h] == hs && (gs + front) + [h] == gs + hs;
      FlattenAppend(gs, front);
      FlattenSnoc(front, h);
      FlattenSnoc(gs + front, h);
      Associative(Flatten(gs), Flatten(front), h);
    }
  }

  lemma Associative(a: seq<nat>, b: seq<nat>, c: seq<nat>)
    ensures (a + b) + c == a + (b + c)
  {
  }

  /** The list ys starts behind the end of xs, within reach of a 16-bit offset. */
  ghost predicate Reachable(xs: seq<nat>, ys: seq<nat>) {
    xs != [] && ys != [] && xs[|xs| - 1] < ys[0] < xs[|xs| - 1] + 0x1_0000
  }

  lemma EndsInArena(g: Arena, xs: seq<nat>, ys: seq<nat>)
    requires Chain(g, xs) && Chain(g, ys)
    ensures xs[|xs| - 1] in g.at && ys[0] in g.at
  {
  }

  /** Linking reachable lists joins them. */
  lemma LinkReachable(g: Arena, xs: seq<nat>, ys: seq<nat>)
    requires Chain(g, xs) && Chain(g, ys) && Reachable(xs, ys)
    ensures xs[|xs| - 1] in g.at && ys[0] in g.at && Chain(Link(g, xs[|xs| - 1], ys[0]), xs + ys)
  {
    hide Chain, Linked;
    EndsInArena(g, xs, ys);
    forall i | 0 <= i < |ys|
      ensures ys[i] != xs[|xs| - 1]
    {
      if i > 0 {
        ChainAscends(g, ys, 0, i);
      }
    }
    LinkJoinsIff(g, xs, ys);
  }

  /** The peer search of PcieConfigAttachDescriptors ends at the last descriptor of the list, if no
      earlier one from the starting point on carries the flag it looks for. */
  lemma {:induction false} PeerSearchEnds(g: Arena, xs: seq<nat>, s: nat)
    requires Closed(g) && Chain(g, xs) && s < |xs|
    requires forall i :: s <= i < |xs| ==> (Has(g.at[xs[i]].flags, TERMINATE_GNB) <==> i == |xs| - 1)
    ensures GetPeer(g, TERMINATE_GNB, xs[s]) == Some(xs[|xs| - 1])
    decreases |xs| - s
  {
    hide Has, LinksLead;
    if s < |xs| - 1 {
      assert Precedes(g, xs, TERMINATE_TOPOLOGY, s);
      PeerSearchEnds(g, xs, s + 1);
    }
  }

  // ----- The parts of the topology -----

  /** What the builder finds below one complex header. */
  datatype Part = Part(header: nat, silicons: seq<nat>, wrappers: seq<nat>, ofSilicons: seq<seq<nat>>,
                       groups: seq<seq<nat>>)

  /** The four kinds of lists that PcieConfigAttachComplexes links, in its order. */
  type Kind = t: nat | t < 4

  function ListOf(q: Part, t: Kind): (ds: seq<nat>) {
    if t == 0 then [q.header] else if t == 1 then q.silicons else if t == 2 then q.wrappers else Flatten(q.groups)
  }

  function MaskOf(t: Kind): (m: bv32) {
    if t == 1 then SILICON else if t == 2 then ALL_WRAPPERS else PCIE_ENGINE
  }

  lemma KindMask(t: Kind)
    ensures !Has(MaskOf(t), TERMINATE_TOPOLOGY)
  {
    TypeMasks();
  }

  /** Only the last of the list has the GNB end flag. */
  ghost predicate GnbAtEnd(g: Arena, ds: seq<nat>) {
    forall i :: 0 <= i < |ds| ==> ds[i] in g.at && (Has(g.at[ds[i]].flags, TERMINATE_GNB) <==> i == |ds| - 1)
  }

  /** The header leads to the first of its list of this kind. */
  ghost predicate LeadsTo(g: Arena, q: Part, t: Kind)
    requires Closed(g) && q.header in g.at
  {
    && ListOf(q, t) != [] && GnbAtEnd(g, ListOf(q, t))
    && (t > 0 ==> GetChild(g, MaskOf(t), q.header) == Some(ListOf(q, t)[0]))
  }

  /** The wrappers are those of the silicons, in order. */
  ghost predicate SiliconsOk(g: Arena, q: Part)
    requires Closed(g)
  {
    && |q.ofSilicons| == |q.silicons| && Flatten(q.ofSilicons) == q.wrappers && AreWrappers(g, q.wrappers)
    && (forall i :: 0 <= i < |q.silicons| ==> GroupOf(g, WRAPPERS, q.silicons[i], q.ofSilicons[i]))
  }

  ghost predicate PartOk(g: Arena, q: Part) {
    && Tree(g, q.header, q.wrappers, q.groups)
    && SiliconsOk(g, q)
    && (forall t: Kind :: LeadsTo(g, q, t))
  }

  predicate Disjoint(xs: seq<nat>, ys: seq<nat>) {
    forall x :: x in xs ==> x !in ys
  }

  /** No descriptor is in two lists, and each list starts behind the one before, in reach of 16 bits. */
  ghost predicate LaidOut(parts: seq<Part>) {
    && (forall i, t: Kind, j, u: Kind :: 0 <= i < |parts| && 0 <= j < |parts| && (i != j || t != u) ==>
          Disjoint(ListOf(parts[i], t), ListOf(parts[j], u)))
    && (forall i, t: Kind :: 0 < i < |parts| ==> InReach(parts, i, t))
  }

  ghost predicate InReach(parts: seq<Part>, i: nat, t: Kind)
    requires 0 < i < |parts|
  {
    Reachable(ListOf(parts[i - 1], t), ListOf(parts[i], t))
  }

  /** The lists of one kind of the first k parts, one behind the other. */
  function Merged(parts: seq<Part>, k: nat, t: Kind): (ds: seq<nat>)
    requires k <= |parts|
  {
    if k == 0 then [] else Merged(parts, k - 1, t) + ListOf(parts[k - 1], t)
  }

  function MergedGroups(parts: seq<Part>, k: nat): (gs: seq<seq<nat>>)
    requires k <= |parts|
  {
    if k == 0 then [] else MergedGroups(parts, k - 1) + parts[k - 1].groups
  }

  function MergedOfSilicons(parts: seq<Part>, k: nat): (ws: seq<seq<nat>>)
    requires k <= |parts|
  {
    if k == 0 then [] else MergedOfSilicons(parts, k - 1) + parts[k - 1].ofSilicons
  }

  lemma {:induction false} NotMerged(parts: seq<Part>, k: nat, t: Kind, x: nat)
    requires k <= |parts| && forall i :: 0 <= i < k ==> x !in ListOf(parts[i], t)
    ensures x !in Merged(parts, k, t)
  {
    hide ListOf;
    if k > 0 {
      NotMerged(parts, k - 1, t, x);
    }
  }

  // ----- The lists while complexes are attached -----

  /** How many parts' lists of kind t are joined when k parts are, and of the next part t0 kinds. */
  function Count(k: nat, t: Kind, t0: nat): (n: nat) {
    if t < t0 then k + 1 else k
  }

  ghost predicate KindJoined(g: Arena, parts: seq<Part>, k: nat, t: Kind)
    requires k <= |parts|
  {
    Chain(g, Merged(parts, k, t)) && forall j :: k <= j < |parts| ==> Chain(g, ListOf(parts[j], t))
  }

  ghost predicate Joined(g: Arena, parts: seq<Part>, k: nat, t0: nat) {
    && 0 < k <= |parts| && (t0 > 0 ==> k < |parts|)
    && forall t: Kind :: KindJoined(g, parts, Count(k, t, t0), t)
  }

  function Left(parts: seq<Part>, k: nat, t: Kind): (d: nat)
    requires 0 < k < |parts| && ListOf(parts[k - 1], t) != []
  {
    var xs := ListOf(parts[k - 1], t);
    xs[|xs| - 1]
  }

  lemma LeftApart(parts: seq<Part>, k: nat, t: Kind, j: nat, u: Kind)
    requires LaidOut(parts) && 0 < k < |parts| && ListOf(parts[k - 1], t) != [] && j < |parts| && (j != k - 1 || u != t)
    ensures Left(parts, k, t) !in ListOf(parts[j], u)
  {
    hide ListOf;
    assert Disjoint(ListOf(parts[k - 1], t), ListOf(parts[j], u));
    assert Left(parts, k, t) in ListOf(parts[k - 1], t);
  }

  /** Lists of another kind are not touched by the link. */
  lemma OtherKind(g: Arena, parts: seq<Part>, k: nat, t: Kind, right: nat, n: nat, u: Kind)
    requires LaidOut(parts) && 0 < k < |parts| && ListOf(parts[k - 1], t) != [] && u != t && n <= |parts|
    requires KindJoined(g, parts, n, u) && Left(parts, k, t) in g.at
    ensures KindJoined(Link(g, Left(parts, k, t), right), parts, n, u)
  {
    hide ListOf, Chain, Link, LaidOut;
    var left := Left(parts, k, t);
    forall i | 0 <= i < |parts|
      ensures left !in ListOf(parts[i], u)
    {
      LeftApart(parts, k, t, i, u);
    }
    NotMerged(parts, n, u, left);
    LinkKeepsChain(g, left, right, Merged(parts, n, u));
    forall j | n <= j < |parts|
      ensures Chain(Link(g, left, right), ListOf(parts[j], u))
    {
      LinkKeepsChain(g, left, right, ListOf(parts[j], u));
    }
  }

  /** The lists of the linked kind are joined. */
  lemma SameKind(g: Arena, parts: seq<Part>, k: nat, t: Kind)
    requires LaidOut(parts) && 0 < k < |parts| && KindJoined(g, parts, k, t) && ListOf(parts[k - 1], t) != []
    ensures var left, ys := Left(parts, k, t), ListOf(parts[k], t);
            && left in g.at && ys != [] && ys[0] in g.at && left < ys[0] < left + 0x1_0000
            && KindJoined(Link(g, left, ys[0]), parts, k + 1, t)
  {
    hide ListOf, Chain, Linked;
    var left, xs, ys := Left(parts, k, t), Merged(parts, k, t), ListOf(parts[k], t);
    assert InReach(parts, k, t);
    assert xs[|xs| - 1] == left;
    LinkReachable(g, xs, ys);
    forall j | k + 1 <= j < |parts|
      ensures Chain(Link(g, left, ys[0]), ListOf(parts[j], t))
    {
      LeftApart(parts, k, t, j, t);
      LinkKeepsChain(g, left, ys[0], ListOf(parts[j], t));
    }
  }

  lemma LinkStep(g: Arena, parts: seq<Part>, k: nat, t: Kind)
    requires LaidOut(parts) && k < |parts| && Joined(g, parts, k, t)
    requires ListOf(parts[k - 1], t) != []
    ensures var left, ys := Left(parts, k, t), ListOf(parts[k], t);
            && left in g.at && ys != [] && ys[0] in g.at && left < ys[0] < left + 0x1_0000
            && Joined(Link(g, left, ys[0]), parts, k, t + 1)
  {
    hide ListOf, KindJoined, LaidOut, Link;
    assert KindJoined(g, parts, Count(k, t, t), t);
    SameKind(g, parts, k, t);
    var left, right := Left(parts, k, t), ListOf(parts[k], t)[0];
    var g', t1 := Link(g, left, right), t + 1;
    forall u: Kind
      ensures KindJoined(g', parts, Count(k, u, t1), u)
    {
      if u != t {
        assert KindJoined(g, parts, Count(k, u, t), u);
        OtherKind(g, parts, k, t, right, Count(k, u, t), u);
      }
    }
  }

  // ----- The builder's state -----

  lemma GnbKept(g: Arena, g': Arena, ds: seq<nat>)
    requires SameTree(g, g') && GnbAtEnd(g, ds)
    ensures GnbAtEnd(g', ds)
  {
    TypeMasks();
    hide Has, Without;
    forall i | 0 <= i < |ds|
      ensures ds[i] in g'.at && (Has(g'.at[ds[i]].flags, TERMINATE_GNB) <==> i == |ds| - 1)
    {
      assert SameInTree(g.at[ds[i]], g'.at[ds[i]]);
      SameFlags(g.at[ds[i]].flags, g'.at[ds[i]].flags, TERMINATE_GNB);
    }
  }

  lemma SiliconsKept(g: Arena, g': Arena, q: Part)
    requires Closed(g) && Closed(g') && SameTree(g, g') && SiliconsOk(g, q)
    ensures SiliconsOk(g', q)
  {
    TypeMasks();
    hide GetChild, GetParent, Closed, Has, Without, Flatten, GroupOf;
    forall i | 0 <= i < |q.silicons|
      ensures GroupOf(g', WRAPPERS, q.silicons[i], q.ofSilicons[i])
    {
      GroupSame(g, g', WRAPPERS, q.silicons[i], q.ofSilicons[i]);
    }
    forall i | 0 <= i < |q.wrappers|
      ensures q.wrappers[i] in g'.at && Has(g'.at[q.wrappers[i]].flags, ALL_WRAPPERS)
    {
      var w := q.wrappers[i];
      assert SameInTree(g.at[w], g'.at[w]);
      SameFlags(g.at[w].flags, g'.at[w].flags, ALL_WRAPPERS);
    }
  }

  lemma PartKept(g: Arena, g': Arena, q: Part)
    requires PartOk(g, q) && Closed(g') && SameTree(g, g')
    ensures PartOk(g', q)
  {
    hide GetChild, Closed, SameInTree, Has, ListOf, MaskOf, Tree, SiliconsOk;
    PartClosed(g, q);
    SiliconsKept(g, g', q);
    TreeSame(g, g', q.header, q.wrappers, q.groups);
    forall t: Kind
      ensures LeadsTo(g', q, t)
    {
      assert LeadsTo(g, q, t);
      GnbKept(g, g', ListOf(q, t));
      KindMask(t);
      ChildSearchSame(g, g', MaskOf(t), q.header);
    }
  }

  lemma PartClosed(g: Arena, q: Part)
    requires PartOk(g, q)
    ensures Closed(g) && q.header in g.at
  {
  }

  /** k complexes are attached to each other, and of the next one t0 kinds of lists. */
  ghost predicate Building(g: Arena, root: nat, parts: seq<Part>, k: nat, t0: nat) {
    && 0 < k <= |parts| && LaidOut(parts) && Joined(g, parts, k, t0)
    && Tree(g, root, parts[0].wrappers, parts[0].groups)
    && parts[0].silicons != [] && RootOk(g, root, parts[0].silicons[0])
    && (forall i :: 0 <= i < |parts| ==> PartOk(g, parts[i]))
  }

  /** The platform header is neither wrapper nor silicon and leads to the first silicon. */
  ghost predicate RootOk(g: Arena, root: nat, silicon: nat) {
    && Closed(g) && root in g.at && !Has(g.at[root].flags, ALL_WRAPPERS) && !Has(g.at[root].flags, SILICON)
    && GetChild(g, SILICON, root) == Some(silicon)
  }

  lemma RootKept(g: Arena, g': Arena, root: nat, silicon: nat)
    requires SameTree(g, g') && Closed(g') && RootOk(g, root, silicon)
    ensures RootOk(g', root, silicon)
  {
    TypeMasks();
    hide Has, Without, GetChild, Closed;
    assert SameInTree(g.at[root], g'.at[root]);
    SameFlags(g.at[root].flags, g'.at[root].flags, ALL_WRAPPERS);
    SameFlags(g.at[root].flags, g'.at[root].flags, SILICON);
    ChildSearchSame(g, g', SILICON, root);
  }

  lemma SomePart(g: Arena, root: nat, parts: seq<Part>)
    requires Building(g, root, parts, 1, 0)
    ensures 0 < |parts|
  {
  }

  /** The arena after one of the four steps of PcieConfigAttachComplexes. */
  ghost function StepOf(g: Arena, t: Kind, base: nat, next: nat): (g': Arena)
    requires Closed(g) && base in g.at && next in g.at
  {
    if t == 0 then Link(g, base, next) else Attach(g, MaskOf(t), base, next)
  }

  /** The search of the attachment finds the end of the joined list and the start of the next. */
  lemma StepFinds(g: Arena, parts: seq<Part>, k: nat, t: Kind)
    requires 0 < k < |parts| && PartOk(g, parts[k - 1]) && PartOk(g, parts[k]) && KindJoined(g, parts, k, t)
    ensures Closed(g) && parts[k - 1].header in g.at && parts[k].header in g.at
    ensures ListOf(parts[k - 1], t) != [] && ListOf(parts[k], t) != [] && Left(parts, k, t) in g.at
    ensures StepOf(g, t, parts[k - 1].header, parts[k].header) == Link(g, Left(parts, k, t), ListOf(parts[k], t)[0])
  {
    hide GetChild, GetPeer, Closed, Has, Chain, Tree, Linked, MaskOf, Flatten;
    var base, next := parts[k - 1], parts[k];
    PartClosed(g, base);
    PartClosed(g, next);
    assert LeadsTo(g, base, t) && LeadsTo(g, next, t);
    if t > 0 {
      var xs, s := Merged(parts, k, t), |Merged(parts, k - 1, t)|;
      var own := ListOf(base, t);
      hide ListOf;
      forall i | s <= i < |xs|
        ensures xs[i] in g.at && (Has(g.at[xs[i]].flags, TERMINATE_GNB) <==> i == |xs| - 1)
      {
        assert xs[i] == own[i - s];
      }
      PeerSearchEnds(g, xs, s);
    }
  }

  /** One step of one attachment. */
  lemma BuildStep(g: Arena, root: nat, parts: seq<Part>, k: nat, t: Kind)
    requires Building(g, root, parts, k, t) && k < |parts|
    ensures Closed(g) && parts[k - 1].header in g.at && parts[k].header in g.at
    ensures Building(StepOf(g, t, parts[k - 1].header, parts[k].header), root, parts, k, t + 1)
  {
    hide GetChild, GetParent, Closed, Has, Chain, Tree, Linked, ListOf;
    hide LaidOut, PartOk, StepOf, KindJoined, SameTree, RootOk;
    assert KindJoined(g, parts, Count(k, t, t), t);
    StepFinds(g, parts, k, t);
    LinkStep(g, parts, k, t);
    var left, right := Left(parts, k, t), ListOf(parts[k], t)[0];
    var g' := Link(g, left, right);
    LinkKeepsClosed(g, left, right);
    LinkKeepsTypes(g, left, right);
    TreeSame(g, g', root, parts[0].wrappers, parts[0].groups);
    RootKept(g, g', root, parts[0].silicons[0]);
    forall i | 0 <= i < |parts|
      ensures PartOk(g', parts[i])
    {
      PartKept(g, g', parts[i]);
    }
  }

  lemma NextPart(g: Arena, root: nat, parts: seq<Part>, k: nat)
    requires k < |parts| && Building(g, root, parts, k, 4)
    ensures Building(g, root, parts, k + 1, 0)
  {
    hide KindJoined, LaidOut, Tree, PartOk;
    var k1 := k + 1;
    forall t: Kind
      ensures KindJoined(g, parts, Count(k1, t, 0), t)
    {
      assert KindJoined(g, parts, Count(k, t, 4), t);
    }
  }

  // ----- The finished topology -----

  lemma {:induction false} MergedTree(g: Arena, root: nat, parts: seq<Part>, k: nat)
    requires 0 < k <= |parts| && Tree(g, root, parts[0].wrappers, parts[0].groups)
    requires forall i :: 0 <= i < |parts| ==> PartOk(g, parts[i])
    ensures Tree(g, root, Merged(parts, k, 2), MergedGroups(parts, k))
    ensures Flatten(MergedGroups(parts, k)) == Merged(parts, k, 3)
  {
    hide Tree, LeadsTo, Flatten;
    var q := parts[k - 1];
    FlattenAppend(MergedGroups(parts, k - 1), q.groups);
    assert PartOk(g, q);
    if k == 1 {
      NothingMerged(parts);
      FlattenNone();
      assert [] + q.wrappers == q.wrappers && [] + q.groups == q.groups;
    } else {
      MergedTree(g, root, parts, k - 1);
      TreeAppend(g, root, Merged(parts, k - 1, 2), MergedGroups(parts, k - 1), q.header, q.wrappers, q.groups);
    }
  }

  lemma NothingMerged(parts: seq<Part>)
    ensures Merged(parts, 0, 2) == [] && Merged(parts, 0, 3) == [] && MergedGroups(parts, 0) == []
  {
  }

  lemma {:induction false} MergedSilicons(g: Arena, parts: seq<Part>, k: nat)
    requires k <= |parts| && Closed(g) && forall i :: 0 <= i < |parts| ==> SiliconsOk(g, parts[i])
    ensures |MergedOfSilicons(parts, k)| == |Merged(parts, k, 1)|
    ensures Flatten(MergedOfSilicons(parts, k)) == Merged(parts, k, 2) && AreWrappers(g, Merged(parts, k, 2))
    ensures forall i :: 0 <= i < |Merged(parts, k, 1)| ==>
              GroupOf(g, WRAPPERS, Merged(parts, k, 1)[i], MergedOfSilicons(parts, k)[i])
  {
    hide Flatten, GroupOf, Closed, Has;
    if k == 0 {
      FlattenNone();
    } else {
      MergedSilicons(g, parts, k - 1);
      assert SiliconsOk(g, parts[k - 1]);
      FlattenAppend(MergedOfSilicons(parts, k - 1), parts[k - 1].ofSilicons);
    }
  }

  /** When all complexes are attached, the silicons, wrappers and engines of all of them, in order, form a
      well-formed topology. */
  lemma BuiltWellFormed(g: Arena, root: nat, parts: seq<Part>)
    requires Building(g, root, parts, |parts|, 0)
    ensures WellFormed(g, root, Merged(parts, |parts|, 2), MergedGroups(parts, |parts|))
    ensures SiliconsOver(g, root, Merged(parts, |parts|, 1), MergedOfSilicons(parts, |parts|),
                         Merged(parts, |parts|, 2))
    ensures Merged(parts, |parts|, 1) != [] && root in g.at && RootOk(g, root, Merged(parts, |parts|, 1)[0])
  {
    hide Tree, Chain, LaidOut, Flatten, LeadsTo, Closed, Has, GroupOf, GetChild;
    var n := |parts|;
    MergedTree(g, root, parts, n);
    forall i | 0 <= i < n
      ensures SiliconsOk(g, parts[i])
    {
      assert PartOk(g, parts[i]);
    }
    MergedSilicons(g, parts, n);
    FirstMerged(parts, n);
    assert KindJoined(g, parts, Count(n, 1, 0), 1);
    assert KindJoined(g, parts, Count(n, 2, 0), 2);
    assert KindJoined(g, parts, Count(n, 3, 0), 3);
  }

  lemma {:induction false} FirstMerged(parts: seq<Part>, k: nat)
    requires 0 < k <= |parts| && parts[0].silicons != []
    ensures Merged(parts, k, 1) != [] && Merged(parts, k, 1)[0] == parts[0].silicons[0]
  {
    if k > 1 {
      FirstMerged(parts, k - 1);
    } else {
      assert Merged(parts, 0, 1) == [];
    }
  }

  // ----- The parent field of the platform header -----

  ghost function WithParent(g: Arena, root: nat, v: uint16): (g': Arena)
    requires root in g.at
  {
    g.(at := g.at[root := g.at[root].(parent := v)])
  }

  lemma SameWithParent(g: Arena, h: Arena, root: nat, v: uint16)
    requires SameTree(g, h) && root in h.at
    ensures root in g.at && SameTree(WithParent(g, root, v), WithParent(h, root, v))
  {
    hide Without;
    assert SameInTree(g.at[root], h.at[root]);
  }

  /** Children and peers are as before. */
  lemma {:induction false} ChildWithParent(g: Arena, root: nat, v: uint16, mask: bv32, d: nat)
    requires Closed(g) && root in g.at && d in g.at
    ensures Closed(WithParent(g, root, v)) && GetChild(WithParent(g, root, v), mask, d) == GetChild(g, mask, d)
    decreases g.size - d
  {
    hide Has;
    var g' := WithParent(g, root, v);
    ClosedWithParent(g, root, v);
    assert LinksLead(g, d);
    if g.at[d].child != 0 {
      ChildWithParent(g, root, v, mask, d + g.at[d].child);
    }
  }

  lemma ClosedWithParent(g: Arena, root: nat, v: uint16)
    requires Closed(g) && root in g.at
    ensures Closed(WithParent(g, root, v))
  {
    var g' := WithParent(g, root, v);
    forall d | d in g'.at
      ensures LinksLead(g', d)
    {
      assert LinksLead(g, d);
    }
  }

  /** A parent search that ends above root never comes to it, since parents lie at lower addresses. */
  lemma {:induction false} ParentWithParent(g: Arena, root: nat, v: uint16, mask: bv32, d: nat, w: nat)
    requires root in g.at && d in g.at && ParentsLead(g, mask, d) && GetParent(g, mask, d) == Some(w) && root < w
    ensures ParentsLead(WithParent(g, root, v), mask, d) && GetParent(WithParent(g, root, v), mask, d) == Some(w)
    ensures w <= d
    decreases d
  {
    hide Has;
    if !Has(g.at[d].flags, mask) {
      ParentWithParent(g, root, v, mask, d - g.at[d].parent, w);
    }
  }

  lemma {:induction false} ChildBehind(g: Arena, mask: bv32, d: nat)
    requires Closed(g) && d in g.at
    ensures GetChild(g, mask, d).Some? ==> d <= GetChild(g, mask, d).value
    ensures GetChild(g, mask, d).Some? && !Has(g.at[d].flags, mask) ==> d < GetChild(g, mask, d).value
    decreases g.size - d
  {
    hide Has;
    assert LinksLead(g, d);
    if !Has(g.at[d].flags, mask) && g.at[d].child != 0 {
      ChildBehind(g, mask, d + g.at[d].child);
    }
  }

  lemma ChainWithParent(g: Arena, root: nat, v: uint16, ds: seq<nat>)
    requires root in g.at && Chain(g, ds)
    ensures Chain(WithParent(g, root, v), ds)
  {
    hide Has;
    var g' := WithParent(g, root, v);
    forall i | 0 <= i < |ds| - 1
      ensures Precedes(g', ds, TERMINATE_TOPOLOGY, i)
    {
      assert Precedes(g, ds, TERMINATE_TOPOLOGY, i);
    }
  }

  lemma GroupWithParent(g: Arena, root: nat, v: uint16, l: Level, w: nat, es: seq<nat>)
    requires Closed(g) && root in g.at && root < w && GroupOf(g, l, w, es)
    ensures Closed(WithParent(g, root, v)) && GroupOf(WithParent(g, root, v), l, w, es)
  {
    hide GetChild, GetParent, Closed, ParentsLead, Has;
    var g' := WithParent(g, root, v);
    ChildWithParent(g, root, v, l.inner, w);
    forall i | 0 <= i < |es|
      ensures Under(g', l, w, es[i])
    {
      assert Under(g, l, w, es[i]);
      ParentWithParent(g, root, v, l.outer, es[i], w);
    }
  }

  /** All outer descriptors lie behind root. */
  lemma GroupsWithParent(g: Arena, root: nat, v: uint16, l: Level, ws: seq<nat>, gs: seq<seq<nat>>)
    requires root in g.at && Nested(g, l, ws, gs) && root < ws[0]
    ensures Nested(WithParent(g, root, v), l, ws, gs)
  {
    hide GetChild, GetParent, Closed, Has, Chain, Flatten, GroupOf;
    var g' := WithParent(g, root, v);
    ClosedWithParent(g, root, v);
    ChainWithParent(g, root, v, ws);
    if Flatten(gs) != [] {
      ChainWithParent(g, root, v, Flatten(gs));
    }
    forall i | 0 <= i < |ws|
      ensures GroupOf(g', l, ws[i], gs[i])
    {
      if i > 0 {
        ChainAscends(g, ws, 0, i);
      }
      GroupWithParent(g, root, v, l, ws[i], gs[i]);
    }
  }

  lemma LeavesWithParent(g: Arena, root: nat, v: uint16)
    requires root in g.at && EnginesAreLeaves(g)
    ensures EnginesAreLeaves(WithParent(g, root, v))
  {
  }

  /** Whatever is stored in the parent field of the platform header, the topology stays well formed. */
  lemma RootParentKeeps(g: Arena, root: nat, v: uint16, ws: seq<nat>, gs: seq<seq<nat>>,
                        silicons: seq<nat>, groups: seq<seq<nat>>)
    requires WellFormed(g, root, ws, gs) && SiliconsOver(g, root, silicons, groups, ws)
    requires RootOk(g, root, silicons[0])
    ensures WellFormed(WithParent(g, root, v), root, ws, gs)
    ensures SiliconsOver(WithParent(g, root, v), root, silicons, groups, ws)
  {
    hide GetChild, GetParent, Closed, Has, Chain, Flatten, GroupOf, Nested, EnginesAreLeaves;
    WellFormedNested(g, root, ws, gs);
    ChildBehind(g, ALL_WRAPPERS, root);
    ChildBehind(g, SILICON, root);
    ChildWithParent(g, root, v, ALL_WRAPPERS, root);
    ChildWithParent(g, root, v, SILICON, root);
    GroupsWithParent(g, root, v, ENGINES, ws, gs);
    GroupsWithParent(g, root, v, WRAPPERS, silicons, groups);
    LeavesWithParent(g, root, v);
    NestedParts(WithParent(g, root, v), ENGINES, ws, gs);
  }

  lemma NestedParts(g: Arena, l: Level, ws: seq<nat>, gs: seq<seq<nat>>)
    requires Nested(g, l, ws, gs)
    ensures Closed(g) && |gs| == |ws| && Chain(g, ws) && (Flatten(gs) != [] ==> Chain(g, Flatten(gs)))
    ensures forall i :: 0 <= i < |ws| ==> GroupOf(g, l, ws[i], gs[i])
  {
  }
}
