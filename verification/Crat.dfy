/** The CRAT records of processing units (xPRF/CCX/xPrfCcx.c, xPrfGetCratHsaProcInfo): one pass over the
    dies of all sockets opens a record per proximity domain and adds up the threads of its dies. */
module Crat {
  import opened Options
  import opened Bytes
  import opened SilStatus

  const RECORD_SIZE := 12

  /** What GetCoreTopologyOnDie gives. */
  datatype Counts = Counts(ccds: uint32, complexes: uint32, cores: uint32, threads: uint32)

  /** A die as the fabric, the APIC formula and the APOB describe it; None where the topology query fails. */
  datatype Seen = Seen(domain: uint32, apic: uint32, counts: Option<Counts>)

  /** A die with the counts that are added for it. */
  datatype Die = Die(domain: uint32, apic: uint32, counts: Counts)

  /** SIL_CRAT_HSA_PROC_INFO */
  datatype Record = Record(node: uint32, low: uint32, cores: uint16)

  /** The dies of a socket; None where the translation to a domain fails. */
  type Socket = seq<Option<Seen>>

  function Threads(d: Die): nat {
    ThreadsOf(d.counts)
  }

  function ThreadsOf(c: Counts): nat {
    Times(Times(Times(c.ccds, c.complexes), c.cores), c.threads)
  }

  function Times(a: nat, b: nat): nat {
    a * b
  }

  /** What is added for a die is the product of the four counts. */
  lemma ThreadProduct(c: Counts)
    ensures ThreadsOf(c) == c.ccds * c.complexes * c.cores * c.threads
    ensures ThreadsOf(Counts(2, 3, 5, 7)) == 210
  {
  }

  // ----- The dies in the order of the loops -----

  function SocketVisits(s: Socket): (v: seq<Seen>)
    ensures |v| <= |s|
  {
    if s == [] then []
    else
      var front, last := SocketVisits(s[..|s| - 1]), s[|s| - 1];
      if last.Some? then front + [last.value] else front
  }

  /** None where the information about the processor is not available. */
  function Visits(sockets: seq<Option<Socket>>): (v: seq<Seen>)
    ensures |v| <= Dies(sockets)
  {
    if sockets == [] then []
    else
      var front, last := Visits(sockets[..|sockets| - 1]), sockets[|sockets| - 1];
      if last.Some? then front + SocketVisits(last.value) else front
  }

  function Dies(sockets: seq<Option<Socket>>): nat {
    if sockets == [] then 0
    else
      var last := sockets[|sockets| - 1];
      Dies(sockets[..|sockets| - 1]) + (if last.Some? then |last.value| else 0)
  }

  /** The counts the variables hold behind the dies, if they hold the initial ones at first: a query that
      fails leaves them alone. */
  function Carried(v: seq<Seen>, initial: Counts): Counts {
    if v == [] then initial
    else if v[|v| - 1].counts.Some? then v[|v| - 1].counts.value
    else Carried(v[..|v| - 1], initial)
  }

  /** The dies with the counts that are added, since the status of the query is not looked at. */
  function Filled(v: seq<Seen>, initial: Counts): (ds: seq<Die>)
    ensures |ds| == |v|
  {
    if v == [] then []
    else
      var d := v[|v| - 1];
      Filled(v[..|v| - 1], initial) + [Die(d.domain, d.apic, Carried(v, initial))]
  }

  lemma FilledStep(v: seq<Seen>, d: Seen, initial: Counts)
    ensures Carried(v + [d], initial) == if d.counts.Some? then d.counts.value else Carried(v, initial)
    ensures Filled(v + [d], initial) == Filled(v, initial) + [Die(d.domain, d.apic, Carried(v + [d], initial))]
  {
    assert (v + [d])[..|v|] == v;
  }

  // ----- The records -----

  predicate Opens(pre: uint32, d: Die) {
    d.domain != pre || d.domain == 0
  }

  function Previous(v: seq<Die>): uint32 {
    if v == [] then 0 else v[|v| - 1].domain
  }

  function AddCores(cores: uint16, d: Die): uint16 {
    (cores + Threads(d) % 0x1_0000) % 0x1_0000
  }

  function Records(v: seq<Die>): (r: seq<Record>)
    ensures |r| <= |v| && (v != [] ==> r != [])
  {
    if v == [] then []
    else
      var front, d := v[..|v| - 1], v[|v| - 1];
      var r := Records(front);
      if Opens(Previous(front), d) then r + [Record(d.domain, d.apic, AddCores(0, d))]
      else r[|r| - 1 := r[|r| - 1].(cores := AddCores(r[|r| - 1].cores, d))]
  }

  lemma RecordsStep(v: seq<Die>, d: Die)
    ensures var r := Records(v);
            Records(v + [d]) == if Opens(Previous(v), d) then r + [Record(d.domain, d.apic, AddCores(0, d))]
                                else r[|r| - 1 := r[|r| - 1].(cores := AddCores(r[|r| - 1].cores, d))]
  {
    assert (v + [d])[..|v|] == v;
  }

  // ----- The host's buffer -----

  class Output {
    const buffer: array<Record>
    var used: nat
    var pre: uint32
    var counts: Counts

    constructor (buffer: array<Record>, initial: Counts)
      ensures this.buffer == buffer && used == 0 && pre == 0 && counts == initial
    {
      this.buffer := buffer;
      used, pre, counts := 0, 0, initial;
    }

    /** The buffer holds the records of the dies seen, and is otherwise as it was. */
    ghost predicate Holds(v: seq<Seen>, initial: Counts, before: seq<Record>)
      reads this, buffer
    {
      var ds := Filled(v, initial);
      && used == |Records(ds)| <= buffer.Length == |before|
      && buffer[..used] == Records(ds)
      && buffer[used..] == before[used..]
      && pre == Previous(ds) && counts == Carried(v, initial)
    }

    method AddDie(d: Seen, ghost v: seq<Seen>, ghost initial: Counts, ghost before: seq<Record>)
      requires Holds(v, initial, before) && |Records(Filled(v + [d], initial))| <= buffer.Length
      modifies this, buffer
      ensures Holds(v + [d], initial, before)
    {
      hide Threads, Filled, Carried;
      FilledStep(v, d, initial);
      RecordsStep(Filled(v, initial), Die(d.domain, d.apic, Carried(v + [d], initial)));
      hide Records;
      if d.domain != pre || d.domain == 0 {
        buffer[used] := Record(d.domain, d.apic, 0);
        used := used + 1;
        pre := d.domain;
      }
      if d.counts.Some? {
        counts := d.counts.value;
      }
      var entry := buffer[used - 1];
      buffer[used - 1] := entry.(cores := AddCores(entry.cores, Die(d.domain, d.apic, counts)));
    }

    method AddSocket(s: Socket, ghost v: seq<Seen>, ghost initial: Counts, ghost before: seq<Record>)
      requires Holds(v, initial, before) && |Records(Filled(v + SocketVisits(s), initial))| <= buffer.Length
      modifies this, buffer
      ensures Holds(v + SocketVisits(s), initial, before)
    {
      hide Filled, Carried, Records;
      assert v + SocketVisits([]) == v;
      for i := 0 to |s|
        invariant Holds(v + SocketVisits(s[..i]), initial, before)
      {
        assert s[..i + 1][..i] == s[..i];
        if s[i].Some? {
          assert v + SocketVisits(s[..i + 1]) == v + SocketVisits(s[..i]) + [s[i].value];
          SocketPrefix(s, i + 1);
          assert v + SocketVisits(s[..i + 1]) <= v + SocketVisits(s);
          RecordsGrow(v + SocketVisits(s[..i + 1]), v + SocketVisits(s), initial);
          AddDie(s[i].value, v + SocketVisits(s[..i]), initial, before);
        }
      }
      assert s[..|s|] == s;
    }
  }

  lemma {:induction false} SocketPrefix(s: Socket, i: nat)
    requires i <= |s|
    ensures SocketVisits(s[..i]) <= SocketVisits(s)
    decreases |s| - i
  {
    if i == |s| {
      assert s[..i] == s;
    } else {
      assert s[..i + 1][..i] == s[..i];
      SocketPrefix(s, i + 1);
    }
  }

  lemma {:induction false} VisitsPrefix(sockets: seq<Option<Socket>>, i: nat)
    requires i <= |sockets|
    ensures Visits(sockets[..i]) <= Visits(sockets)
    decreases |sockets| - i
  {
    hide SocketVisits;
    if i == |sockets| {
      assert sockets[..i] == sockets;
    } else {
      assert sockets[..i + 1][..i] == sockets[..i];
      VisitsPrefix(sockets, i + 1);
    }
  }

  /** More dies never give fewer records. */
  lemma {:induction false} RecordsGrow(v: seq<Seen>, w: seq<Seen>, initial: Counts)
    requires v <= w
    ensures |Records(Filled(v, initial))| <= |Records(Filled(w, initial))|
    decreases |w|
  {
    if v == w {
    } else {
      var front, d := w[..|w| - 1], w[|w| - 1];
      assert w == front + [d] && v <= front;
      hide Filled, Carried, Threads, AddCores;
      RecordsGrow(v, front, initial);
      FilledStep(front, d, initial);
      RecordsStep(Filled(front, initial), Die(d.domain, d.apic, Carried(front + [d], initial)));
    }
  }

  /** The size check makes room for all records if the sockets have no more dies than the system. */
  lemma CheckSuffices(sockets: seq<Option<Socket>>, size: uint32, systemDies: uint32, initial: Counts)
    requires Dies(sockets) <= systemDies && 12 * systemDies <= size
    ensures |Records(Filled(Visits(sockets), initial))| <= size / 12
  {
  }

  /** xPrfGetCratHsaProcInfo. apis: the CCX and DF interfaces are registered; systemDies: the die count of
      the whole system; initial: what the count variables hold at first; the size is in bytes. */
  method GetCratHsaProcInfo(buffer: array<Record>, size: uint32, apis: bool, systemDies: uint32, initial: Counts,
                            sockets: seq<Option<Socket>>)
    returns (status: Status)
    requires buffer.Length == size / 12
    requires 12 * systemDies <= size ==> |Records(Filled(Visits(sockets), initial))| <= size / 12
    modifies buffer
    ensures status == if !apis then SilNotFound else if 12 * systemDies > size then SilOutOfBounds else SilPass
    ensures !status.SilPass? ==> buffer[..] == old(buffer[..])
    ensures status.SilPass? ==>
              var r := Records(Filled(Visits(sockets), initial));
              && |r| <= buffer.Length
              && buffer[..|r|] == r
              && buffer[|r|..] == old(buffer[|r|..])
  {
    if !apis {
      return SilNotFound;
    }
    if RECORD_SIZE * systemDies > size {
      return SilOutOfBounds;
    }
    hide SocketVisits;
    ghost var before := buffer[..];
    var out := new Output(buffer, initial);
    for i := 0 to |sockets|
      invariant out.buffer == buffer && fresh(out)
      invariant out.Holds(Visits(sockets[..i]), initial, before)
    {
      assert sockets[..i + 1][..i] == sockets[..i];
      if sockets[i].Some? {
        VisitsPrefix(sockets, i + 1);
        RecordsGrow(Visits(sockets[..i + 1]), Visits(sockets), initial);
        out.AddSocket(sockets[i].value, Visits(sockets[..i]), initial, before);
      }
    }
    assert sockets[..|sockets|] == sockets;
    return SilPass;
  }

  // ----- Records are runs of dies -----

  /** Die k starts a record: it is the first, of another domain than the one before, or of domain 0. */
  predicate StartsRun(v: seq<Die>, k: nat)
    requires k < |v|
  {
    k == 0 || v[k].domain != v[k - 1].domain || v[k].domain == 0
  }

  /** The threads of the dies from lo to hi. */
  function Span(v: seq<Die>, lo: nat, hi: nat): (n: nat)
    requires lo <= hi <= |v|
  {
    if lo == hi then 0 else Span(v, lo, hi - 1) + Threads(v[hi - 1])
  }

  /** Where the run of record i ends. */
  function RunEnd(starts: seq<nat>, i: nat, n: nat): (end: nat)
    requires i < |starts|
  {
    if i + 1 < |starts| then starts[i + 1] else n
  }

  ghost predicate AreStarts(v: seq<Die>, starts: seq<nat>) {
    && (forall i, j :: 0 <= i < j < |starts| ==> starts[i] < starts[j])
    && (forall i :: 0 <= i < |starts| ==> starts[i] < |v|)
    && (forall k :: 0 <= k < |v| ==> (StartsRun(v, k) <==> k in starts))
  }

  /** Record r is that of the dies from lo to hi: the domain and the APIC id of the first of them, and the
      threads of all of them. */
  ghost predicate IsRun(v: seq<Die>, r: Record, lo: nat, hi: nat)
    requires lo < hi <= |v|
  {
    r.node == v[lo].domain && r.low == v[lo].apic && r.cores == Span(v, lo, hi) % 0x1_0000
  }

  ghost predicate AreRuns(v: seq<Die>, rs: seq<Record>, starts: seq<nat>)
    requires AreStarts(v, starts)
  {
    |rs| == |starts| && forall i :: 0 <= i < |rs| ==> IsRun(v, rs[i], starts[i], RunEnd(starts, i, |v|))
  }

  /** The dies fall into runs, one record per run. */
  lemma {:induction false} RecordsAreRuns(v: seq<Die>) returns (starts: seq<nat>)
    ensures AreStarts(v, starts) && AreRuns(v, Records(v), starts)
  {
    hide Records, AreRuns, AreStarts, Opens, Previous, AddCores;
    if v == [] {
      starts := [];
      NoRuns();
    } else {
      var front, d := v[..|v| - 1], v[|v| - 1];
      assert v == front + [d];
      var before := RecordsAreRuns(front);
      RecordsStep(front, d);
      if Opens(Previous(front), d) {
        starts := before + [|front|];
        OpenRun(front, d, before);
      } else {
        starts := before;
        ExtendRun(front, d, before);
      }
    }
  }

  lemma NoRuns()
    ensures AreStarts([], []) && AreRuns([], Records([]), [])
  {
  }

  lemma OpensIff(v: seq<Die>, d: Die)
    ensures Opens(Previous(v), d) <==> StartsRun(v + [d], |v|)
  {
  }

  lemma {:induction false} SpanSame(v: seq<Die>, d: Die, lo: nat, hi: nat)
    requires lo <= hi <= |v|
    ensures Span(v + [d], lo, hi) == Span(v, lo, hi)
    decreases hi
  {
    hide Threads;
    if lo < hi {
      SpanSame(v, d, lo, hi - 1);
    }
  }

  lemma StartsStep(v: seq<Die>, d: Die, starts: seq<nat>)
    requires AreStarts(v, starts)
    ensures StartsRun(v + [d], |v|) ==> AreStarts(v + [d], starts + [|v|])
    ensures !StartsRun(v + [d], |v|) ==> AreStarts(v + [d], starts)
  {
    forall k | 0 <= k < |v|
      ensures StartsRun(v + [d], k) == StartsRun(v, k)
    {
    }
    assert forall k :: k in starts + [|v|] <==> k in starts || k == |v|;
  }

  /** The runs before the last one are closed. */
  lemma ClosedRun(v: seq<Die>, d: Die, r: Record, lo: nat, hi: nat)
    requires lo < hi <= |v| && IsRun(v, r, lo, hi)
    ensures IsRun(v + [d], r, lo, hi)
  {
    SpanSame(v, d, lo, hi);
  }

  lemma OpenRun(v: seq<Die>, d: Die, starts: seq<nat>)
    requires AreStarts(v, starts) && AreRuns(v, Records(v), starts) && Opens(Previous(v), d)
    ensures AreStarts(v + [d], starts + [|v|])
    ensures AreRuns(v + [d], Records(v) + [Record(d.domain, d.apic, AddCores(0, d))], starts + [|v|])
  {
    hide Records, Opens, Previous, StartsRun, IsRun, AddCores;
    OpensIff(v, d);
    StartsStep(v, d, starts);
    NewRun(v, d);
    var w, rs, next := v + [d], Records(v), starts + [|v|];
    var rs' := rs + [Record(d.domain, d.apic, AddCores(0, d))];
    forall i | 0 <= i < |rs'|
      ensures IsRun(w, rs'[i], next[i], RunEnd(next, i, |w|))
    {
      if i < |rs| {
        assert rs'[i] == rs[i] && next[i] == starts[i] && RunEnd(next, i, |w|) == RunEnd(starts, i, |v|);
        ClosedRun(v, d, rs[i], starts[i], RunEnd(starts, i, |v|));
      }
    }
  }

  lemma NewRun(v: seq<Die>, d: Die)
    ensures IsRun(v + [d], Record(d.domain, d.apic, AddCores(0, d)), |v|, |v| + 1)
  {
    hide Threads;
    assert Span(v + [d], |v|, |v|) == 0;
  }

  lemma ExtendRun(v: seq<Die>, d: Die, starts: seq<nat>)
    requires AreStarts(v, starts) && AreRuns(v, Records(v), starts) && !Opens(Previous(v), d)
    ensures v != [] && AreStarts(v + [d], starts)
    ensures var r := Records(v);
            AreRuns(v + [d], r[|r| - 1 := r[|r| - 1].(cores := AddCores(r[|r| - 1].cores, d))], starts)
  {
    if v == [] {
      FirstOpens(d);
    }
    hide Records, Opens, Previous, Threads, StartsRun;
    OpensIff(v, d);
    StartsStep(v, d, starts);
    var w, rs, n := v + [d], Records(v), |starts| - 1;
    forall i | 0 <= i < n
      ensures IsRun(w, rs[i], starts[i], RunEnd(starts, i, |w|))
    {
      ClosedRun(v, d, rs[i], starts[i], RunEnd(starts, i, |v|));
    }
    SpanSame(v, d, starts[n], |v|);
    assert IsRun(v, rs[n], starts[n], |v|);
    AddModulo(Span(v, starts[n], |v|), Threads(d));
  }

  // ----- Threads are conserved -----

  /** A new count, or more in the last one. */
  function Counted(e: seq<nat>, opens: bool, n: nat): (e': seq<nat>)
    requires !opens ==> e != []
    ensures |e'| == if opens then |e| + 1 else |e|
  {
    if opens then e + [n] else e[|e| - 1 := e[|e| - 1] + n]
  }

  /** The threads behind each record, without the 16-bit counter. */
  function Exact(v: seq<Die>): (e: seq<nat>)
    ensures |e| == |Records(v)|
  {
    if v == [] then []
    else
      var front, d := v[..|v| - 1], v[|v| - 1];
      Counted(Exact(front), Opens(Previous(front), d), Threads(d))
  }

  function Sum(s: seq<nat>): nat {
    if s == [] then 0 else Sum(s[..|s| - 1]) + s[|s| - 1]
  }

  function AllThreads(v: seq<Die>): nat {
    if v == [] then 0 else AllThreads(v[..|v| - 1]) + Threads(v[|v| - 1])
  }

  function AllCores(r: seq<Record>): nat {
    if r == [] then 0 else AllCores(r[..|r| - 1]) + r[|r| - 1].cores
  }

  lemma AddModulo(a: nat, b: nat)
    ensures (a % 0x1_0000 + b % 0x1_0000) % 0x1_0000 == (a + b) % 0x1_0000
  {
  }

  /** Each counter is its record's exact count, modulo 2^16. */
  lemma {:induction false} CoresWrap(v: seq<Die>, i: nat)
    requires i < |Records(v)|
    ensures Records(v)[i].cores == Exact(v)[i] % 0x1_0000
  {
    hide Threads, Opens, Records, Exact;
    var front, d := v[..|v| - 1], v[|v| - 1];
    assert v == front + [d];
    RecordsStep(front, d);
    ExactStep(front, d);
    if i < |Records(front)| {
      CoresWrap(front, i);
      AddModulo(Exact(front)[i], Threads(d));
    }
  }

  lemma ExactStep(v: seq<Die>, d: Die)
    ensures !Opens(Previous(v), d) ==> Exact(v) != []
    ensures Exact(v + [d]) == Counted(Exact(v), Opens(Previous(v), d), Threads(d))
  {
    if v == [] {
      FirstOpens(d);
    }
    RecordsOf(v);
    hide Threads, AddCores, Opens, Records, Previous, Counted;
    var w := v + [d];
    assert w[..|w| - 1] == v && w[|w| - 1] == d;
  }

  lemma RecordsOf(v: seq<Die>)
    ensures Records(v) == [] <==> v == []
  {
  }

  /** No die is lost or counted twice. */
  lemma {:induction false} ExactConserved(v: seq<Die>)
    ensures Sum(Exact(v)) == AllThreads(v)
  {
    hide Threads, Opens;
    if v != [] {
      var front, d := v[..|v| - 1], v[|v| - 1];
      ExactConserved(front);
      var e := Exact(front);
      if Opens(Previous(front), d) {
        assert (e + [Threads(d)])[..|e|] == e;
      } else {
        assert front != [] by { FirstOpens(d); }
        assert e[|e| - 1 := e[|e| - 1] + Threads(d)][..|e| - 1] == e[..|e| - 1];
      }
    }
  }

  lemma FirstOpens(d: Die)
    ensures Opens(Previous([]), d)
  {
  }

  lemma {:induction false} CoresAtMost(r: seq<Record>, e: seq<nat>)
    requires |r| == |e| && forall i :: 0 <= i < |r| ==> r[i].cores == e[i] % 0x1_0000
    ensures AllCores(r) <= Sum(e)
    ensures AllCores(r) == Sum(e) <==> forall i :: 0 <= i < |e| ==> e[i] < 0x1_0000
  {
    if r != [] {
      var n := |r| - 1;
      CoresAtMost(r[..n], e[..n]);
      assert (forall i :: 0 <= i < |e| ==> e[i] < 0x1_0000) <==>
             e[n] < 0x1_0000 && forall i :: 0 <= i < n ==> e[..n][i] < 0x1_0000;
    }
  }

  /** The records account for every thread exactly when no domain's run of dies overflows its counter. */
  lemma ConservedIff(v: seq<Die>)
    ensures AllCores(Records(v)) <= AllThreads(v)
    ensures AllCores(Records(v)) == AllThreads(v) <==> forall i :: 0 <= i < |Exact(v)| ==> Exact(v)[i] < 0x1_0000
  {
    forall i | 0 <= i < |Records(v)|
      ensures Records(v)[i].cores == Exact(v)[i] % 0x1_0000
    {
      CoresWrap(v, i);
    }
    CoresAtMost(Records(v), Exact(v));
    ExactConserved(v);
  }

  /** The threads of the dies whose topology is known. */
  function KnownThreads(v: seq<Seen>): nat {
    if v == [] then 0
    else
      var d := v[|v| - 1];
      KnownThreads(v[..|v| - 1]) + if d.counts.Some? then ThreadsOf(d.counts.value) else 0
  }

  /** Die i adds counts that are not its own. */
  predicate Stray(v: seq<Seen>, initial: Counts, i: nat)
    requires i < |v|
  {
    v[i].counts.None? && ThreadsOf(Carried(v[..i], initial)) > 0
  }

  ghost predicate NoneStray(v: seq<Seen>, initial: Counts) {
    forall i :: 0 <= i < |v| ==> !Stray(v, initial, i)
  }

  lemma StrayStep(v: seq<Seen>, d: Seen, initial: Counts)
    ensures NoneStray(v + [d], initial) <==>
            NoneStray(v, initial) && (d.counts.None? ==> ThreadsOf(Carried(v, initial)) == 0)
  {
    hide ThreadsOf, Carried;
    var w := v + [d];
    forall i | 0 <= i < |v|
      ensures Stray(w, initial, i) == Stray(v, initial, i)
    {
      assert w[..i] == v[..i];
    }
    assert w[..|v|] == v;
    if NoneStray(w, initial) {
      assert !Stray(w, initial, |v|);
      assert forall i :: 0 <= i < |v| ==> !Stray(w, initial, i);
    }
  }

  lemma ThreadsStep(ds: seq<Die>, d: Die, v: seq<Seen>, e: Seen)
    ensures AllThreads(ds + [d]) == AllThreads(ds) + Threads(d)
    ensures KnownThreads(v + [e]) == KnownThreads(v) + if e.counts.Some? then ThreadsOf(e.counts.value) else 0
  {
    hide ThreadsOf, Threads;
    assert (ds + [d])[..|ds|] == ds && (v + [e])[..|v|] == v;
  }

  /** What is added is what is known if and only if no failed query leaves counts of another die behind. */
  lemma {:induction false} NoStrayIff(v: seq<Seen>, initial: Counts)
    ensures KnownThreads(v) <= AllThreads(Filled(v, initial))
    ensures AllThreads(Filled(v, initial)) == KnownThreads(v) <==> NoneStray(v, initial)
  {
    if v != [] {
      hide ThreadsOf, Filled, Carried, AllThreads, KnownThreads, NoneStray;
      var front, d := v[..|v| - 1], v[|v| - 1];
      assert v == front + [d];
      NoStrayIff(front, initial);
      FilledStep(front, d, initial);
      ThreadsStep(Filled(front, initial), Die(d.domain, d.apic, Carried(v, initial)), front, d);
      StrayStep(front, d, initial);
    }
  }

  /** A die whose topology query fails is counted with the threads of the die before it. */
  lemma StrayExample()
    ensures var d := Seen(1, 0, Some(Counts(1, 1, 8, 2)));
            var v := [d, Seen(1, 16, None)];
            KnownThreads(v) == 16 && AllThreads(Filled(v, Counts(0, 0, 0, 0))) == 32
  {
    var d := Seen(1, 0, Some(Counts(1, 1, 8, 2)));
    var e := Seen(1, 16, None);
    var c, zero := Counts(1, 1, 8, 2), Counts(0, 0, 0, 0);
    assert ThreadsOf(c) == 16;
    assert [] + [d] == [d] && [d] + [e] == [d, e];
    FilledStep([], d, zero);
    FilledStep([d], e, zero);
    assert Filled([d, e], zero) == [Die(1, 0, c), Die(1, 16, c)];
    hide ThreadsOf, Filled;
    TwoThreads(Die(1, 0, c), Die(1, 16, c));
    assert [d, e][..1] == [d] && [d][..0] == [];
    assert KnownThreads([d]) == 16;
  }

  lemma TwoThreads(d: Die, e: Die)
    ensures AllThreads([d, e]) == Threads(d) + Threads(e)
  {
    hide Threads;
    assert [d, e][..1] == [d] && [d][..0] == [];
    assert AllThreads([d]) == Threads(d);
  }

  /** A domain of 2^16 threads is reported with none. */
  lemma OverflowExample()
    ensures var d := Die(1, 0, Counts(256, 256, 1, 1));
            AllThreads([d]) == 0x1_0000 && AllCores(Records([d])) == 0
  {
    var d := Die(1, 0, Counts(256, 256, 1, 1));
    assert Threads(d) == 0x1_0000 && AddCores(0, d) == 0;
    hide Threads, AddCores;
    RecordsStep([], d);
    assert [] + [d] == [d] && [d][..0] == [] && [Record(1, 0, 0)][..0] == [];
  }

  // ----- One record per domain -----

  ghost predicate Distinct(r: seq<Record>) {
    forall i, j :: 0 <= i < j < |r| ==> r[i].node != r[j].node
  }

  /** Two dies of one domain are in one run of that domain, which is not domain 0. */
  ghost predicate InRuns(v: seq<Die>) {
    forall i, j :: 0 <= i < j < |v| && v[i].domain == v[j].domain ==> SameRun(v, i, j)
  }

  ghost predicate SameRun(v: seq<Die>, i: nat, j: nat)
    requires i < j < |v|
  {
    v[i].domain != 0 && forall k :: i <= k <= j ==> v[k].domain == v[i].domain
  }

  ghost predicate HasNode(r: seq<Record>, x: uint32) {
    exists i :: 0 <= i < |r| && r[i].node == x
  }

  ghost predicate HasDomain(v: seq<Die>, x: uint32) {
    exists i :: 0 <= i < |v| && v[i].domain == x
  }

  lemma {:induction false} NodesAreDomains(v: seq<Die>, x: uint32)
    ensures HasNode(Records(v), x) <==> HasDomain(v, x)
    ensures v != [] ==> Records(v)[|Records(v)| - 1].node == Previous(v)
  {
    if v != [] {
      var front, d := v[..|v| - 1], v[|v| - 1];
      NodesAreDomains(front, x);
      var r, r' := Records(front), Records(v);
      assert forall i :: 0 <= i < |r| ==> r'[i].node == r[i].node;
      if d.domain == x {
        assert r'[|r'| - 1].node == x && v[|v| - 1].domain == x;
      } else {
        assert forall i :: 0 <= i < |front| ==> front[i] == v[i];
        assert forall i :: 0 <= i < |r'| && r'[i].node == x ==> i < |r|;
      }
    }
  }

  /** The new die joins the last run, or its domain has not been seen. */
  ghost predicate Continues(v: seq<Die>, d: Die) {
    Opens(Previous(v), d) ==> !HasDomain(v, d.domain)
  }

  lemma InRunsFront(v: seq<Die>, d: Die)
    requires InRuns(v + [d])
    ensures InRuns(v) && Continues(v, d)
  {
    var w, n := v + [d], |v|;
    forall i, j | 0 <= i < j < n && v[i].domain == v[j].domain
      ensures SameRun(v, i, j)
    {
      assert SameRun(w, i, j);
      assert forall k :: i <= k <= j ==> v[k] == w[k];
    }
    forall i | 0 <= i < n && v[i].domain == d.domain
      ensures !Opens(Previous(v), d)
    {
      assert SameRun(w, i, n);
      assert w[n - 1].domain == w[i].domain;
    }
  }

  lemma InRunsExtend(v: seq<Die>, d: Die)
    requires InRuns(v) && Continues(v, d)
    ensures InRuns(v + [d])
  {
    var w, n := v + [d], |v|;
    forall i, j | 0 <= i < j < |w| && w[i].domain == w[j].domain
      ensures SameRun(w, i, j)
    {
      var j' := if j < n then j else n - 1;
      assert i < j' ==> SameRun(v, i, j');
      assert forall k :: i <= k <= j' ==> v[k] == w[k];
    }
  }

  /** The table has one record per domain exactly when equal domains are adjacent and 0 occurs once. */
  lemma {:induction false} DistinctIff(v: seq<Die>)
    ensures Distinct(Records(v)) <==> InRuns(v)
  {
    if v == [] {
    } else {
      hide Records, InRuns, Distinct;
      var front, d := v[..|v| - 1], v[|v| - 1];
      assert v == front + [d];
      DistinctIff(front);
      DistinctSnoc(front, d);
    }
  }

  lemma DistinctSnoc(v: seq<Die>, d: Die)
    requires Distinct(Records(v)) <==> InRuns(v)
    ensures Distinct(Records(v + [d])) <==> InRuns(v + [d])
  {
    hide Records, InRuns, Distinct, Opens, AddCores, Previous, HasNode, HasDomain;
    NodesStep(v, d);
    NodesAreDomains(v, d.domain);
    DistinctStep(Records(v), Records(v + [d]), d.domain, Opens(Previous(v), d));
    assert Distinct(Records(v + [d])) <==> InRuns(v) && Continues(v, d);
    if InRuns(v + [d]) {
      InRunsFront(v, d);
    } else if InRuns(v) && Continues(v, d) {
      InRunsExtend(v, d);
    }
  }

  lemma NodesStep(v: seq<Die>, d: Die)
    ensures var r, r', opens := Records(v), Records(v + [d]), Opens(Previous(v), d);
            && (opens ==> |r'| == |r| + 1 && r'[|r|].node == d.domain) && (!opens ==> |r'| == |r|)
            && forall i :: 0 <= i < |r| ==> r'[i].node == r[i].node
  {
    hide AddCores;
    RecordsStep(v, d);
  }

  lemma DistinctStep(r: seq<Record>, r': seq<Record>, x: uint32, opens: bool)
    requires opens ==> |r'| == |r| + 1 && r'[|r|].node == x
    requires !opens ==> |r'| == |r|
    requires forall i :: 0 <= i < |r| ==> r'[i].node == r[i].node
    ensures Distinct(r') <==> Distinct(r) && (opens ==> !HasNode(r, x))
  {
  }

  /** Two dies in domain 0 give that domain two records. */
  lemma DomainZeroExample()
    ensures var d := Die(0, 0, Counts(1, 1, 1, 1));
            !Distinct(Records([d, d]))
  {
    var d := Die(0, 0, Counts(1, 1, 1, 1));
    DistinctIff([d, d]);
    assert !SameRun([d, d], 0, 1);
  }
}
