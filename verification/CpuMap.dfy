/** The CPU map for RAS (xPRF/RAS/xPrfRas.c) over the core topology of the APOB (xUSL/Apob.c). */
module CpuMap {
  import opened Bytes
  import opened SilStatus

  const MAX_CCDS_PER_DIE := 12
  const MAX_COMPLEXES_PER_CCD := 2
  const MAX_CORES_PER_COMPLEX := 8
  const MAX_THREADS_PER_CORE := 2
  const MAX_SOCKETS := 2
  const MAX_DIES_PER_SOCKET := 1
  const NOT_PRESENT: uint8 := 0xFF

  /** The size of SIL_CPU_INFO in bytes. */
  const CPU_INFO_SIZE := 16

  // ----- APOB_CCD_LOGICAL_TO_PHYSICAL_MAP_TYPE_STRUCT -----

  datatype CoreInfo = CoreInfo(phys: uint8, threads: seq<bool>)
  datatype Complex = Complex(phys: uint8, cores: seq<CoreInfo>)
  datatype Ccd = Ccd(phys: uint8, complexes: seq<Complex>)

  type Map = m: seq<Ccd> | IsMap(m) witness
    seq(12, _ => Ccd(0xFF, seq(2, _ => Complex(0xFF, seq(8, _ => CoreInfo(0xFF, [false, false]))))))

  predicate IsMap(m: seq<Ccd>) {
    |m| == MAX_CCDS_PER_DIE && forall i :: 0 <= i < |m| ==> IsCcd(m[i])
  }

  predicate IsCcd(d: Ccd) {
    |d.complexes| == MAX_COMPLEXES_PER_CCD && forall i :: 0 <= i < |d.complexes| ==> IsComplex(d.complexes[i])
  }

  predicate IsComplex(x: Complex) {
    && |x.cores| == MAX_CORES_PER_COMPLEX
    && forall i :: 0 <= i < |x.cores| ==> |x.cores[i].threads| == MAX_THREADS_PER_CORE
  }

  /** What ApobGetCoreTopologyOnDie counts. */
  datatype Counts = Counts(ccds: nat, complexes: nat, cores: nat, threads: nat)

  /** n is the length of the leading run of true. */
  ghost predicate LeadingRun(present: seq<bool>, n: nat) {
    n <= |present| && (forall i :: 0 <= i < n ==> present[i]) && (n < |present| ==> !present[n])
  }

  function CcdsPresent(m: Map): (p: seq<bool>)
    ensures |p| == MAX_CCDS_PER_DIE
  {
    seq(|m|, i requires 0 <= i < |m| => m[i].phys != NOT_PRESENT)
  }

  function ComplexesPresent(m: Map): (p: seq<bool>)
    ensures |p| == MAX_COMPLEXES_PER_CCD
  {
    assert IsCcd(m[0]);
    seq(2, i requires 0 <= i < 2 => m[0].complexes[i].phys != NOT_PRESENT)
  }

  function CoresPresent(m: Map): (p: seq<bool>)
    ensures |p| == MAX_CORES_PER_COMPLEX
  {
    assert IsCcd(m[0]) && IsComplex(m[0].complexes[0]);
    seq(8, i requires 0 <= i < 8 => m[0].complexes[0].cores[i].phys != NOT_PRESENT)
  }

  function ThreadsPresent(m: Map): (p: seq<bool>)
    ensures |p| == MAX_THREADS_PER_CORE
  {
    assert IsCcd(m[0]) && IsComplex(m[0].complexes[0]);
    m[0].complexes[0].cores[0].threads
  }

  function Leading(present: seq<bool>): (n: nat)
    ensures LeadingRun(present, n)
  {
    if present == [] || !present[0] then 0 else 1 + Leading(present[1..])
  }

  function TopologyOf(m: Map): (c: Counts)
    ensures InBounds(c)
  {
    Counts(Leading(CcdsPresent(m)), Leading(ComplexesPresent(m)), Leading(CoresPresent(m)), Leading(ThreadsPresent(m)))
  }

  predicate InBounds(c: Counts) {
    && c.ccds <= MAX_CCDS_PER_DIE && c.complexes <= MAX_COMPLEXES_PER_CCD
    && c.cores <= MAX_CORES_PER_COMPLEX && c.threads <= MAX_THREADS_PER_CORE
  }

  /** Each of the counting loops of ApobGetCoreTopologyOnDie. */
  method CountLeading(present: seq<bool>) returns (n: nat)
    ensures n == Leading(present)
  {
    n := 0;
    while n < |present|
      invariant n <= |present| && forall i :: 0 <= i < n ==> present[i]
    {
      if !present[n] {
        break;
      }
      n := n + 1;
    }
    assert LeadingRun(present, n);
  }

  /** Each count is the length of the leading run of present units: of the CCDs, of the complexes of the
      first CCD, of the cores of its first complex and of the threads of the first core there. */
  ghost predicate Counted(m: Map, c: Counts) {
    assert IsCcd(m[0]) && IsComplex(m[0].complexes[0]);
    var ccd, complex := m[0], m[0].complexes[0];
    && c.ccds <= 12 && (forall i :: 0 <= i < c.ccds ==> m[i].phys != 0xFF)
    && (c.ccds < 12 ==> m[c.ccds].phys == 0xFF)
    && c.complexes <= 2 && (forall i :: 0 <= i < c.complexes ==> ccd.complexes[i].phys != 0xFF)
    && (c.complexes < 2 ==> ccd.complexes[c.complexes].phys == 0xFF)
    && c.cores <= 8 && (forall i :: 0 <= i < c.cores ==> complex.cores[i].phys != 0xFF)
    && (c.cores < 8 ==> complex.cores[c.cores].phys == 0xFF)
    && c.threads <= 2 && (forall i :: 0 <= i < c.threads ==> complex.cores[0].threads[i])
    && (c.threads < 2 ==> !complex.cores[0].threads[c.threads])
  }

  lemma TopologyCounted(m: Map)
    ensures Counted(m, TopologyOf(m))
  {
    assert IsCcd(m[0]) && IsComplex(m[0].complexes[0]);
    var c := TopologyOf(m);
    RunOfCcds(m, c.ccds);
    RunOfComplexes(m, c.complexes);
    RunOfCores(m, c.cores);
    assert LeadingRun(ThreadsPresent(m), c.threads);
  }

  lemma RunOfCcds(m: Map, n: nat)
    requires LeadingRun(CcdsPresent(m), n)
    ensures n <= 12 && (forall i :: 0 <= i < n ==> m[i].phys != 0xFF) && (n < 12 ==> m[n].phys == 0xFF)
  {
    assert forall i :: 0 <= i < 12 ==> CcdsPresent(m)[i] == (m[i].phys != 0xFF);
  }

  lemma RunOfComplexes(m: Map, n: nat)
    requires LeadingRun(ComplexesPresent(m), n) && IsCcd(m[0])
    ensures var xs := m[0].complexes;
            n <= 2 && (forall i :: 0 <= i < n ==> xs[i].phys != 0xFF) && (n < 2 ==> xs[n].phys == 0xFF)
  {
    assert forall i :: 0 <= i < 2 ==> ComplexesPresent(m)[i] == (m[0].complexes[i].phys != 0xFF);
  }

  lemma RunOfCores(m: Map, n: nat)
    requires LeadingRun(CoresPresent(m), n) && IsCcd(m[0]) && IsComplex(m[0].complexes[0])
    ensures var ks := m[0].complexes[0].cores;
            n <= 8 && (forall i :: 0 <= i < n ==> ks[i].phys != 0xFF) && (n < 8 ==> ks[n].phys == 0xFF)
  {
    assert forall i :: 0 <= i < 8 ==> CoresPresent(m)[i] == (m[0].complexes[0].cores[i].phys != 0xFF);
  }

  /** ApobGetCoreTopologyOnDie, once the map has been found. */
  method GetCoreTopologyOnDie(m: Map) returns (c: Counts)
    ensures c == TopologyOf(m) && Counted(m, c)
  {
    TopologyCounted(m);
    hide Counted;
    var ccds := CountLeading(CcdsPresent(m));
    var complexes := CountLeading(ComplexesPresent(m));
    var cores := CountLeading(CoresPresent(m));
    var threads := CountLeading(ThreadsPresent(m));
    c := Counts(ccds, complexes, cores, threads);
  }

  // ----- The CPUs of the system -----

  /** An entry of the CPU map without its number. */
  datatype Cpu = Cpu(socket: nat, dieId: uint8, ccxId: uint8, coreId: uint8, thread: nat)

  /** SIL_CPU_INFO */
  datatype CpuInfo = CpuInfo(number: nat, cpu: Cpu)

  /** A die: the status of the topology query and, if it passed, the map. */
  datatype Die = Die(status: Status, map_: Map)

  /** A socket: the status of DfGetProcessorInfo and its dies. */
  datatype Socket = Socket(status: Status, dies: seq<Die>)

  /** The lists one after the other. */
  function Concat(parts: seq<seq<Cpu>>): (cpus: seq<Cpu>) {
    if parts == [] then [] else Concat(parts[..|parts| - 1]) + parts[|parts| - 1]
  }

  /** One entry per present core, and a second one if cores have two threads. */
  function OfCore(s: nat, d: Ccd, x: Complex, k: CoreInfo, threads: nat): (cpus: seq<Cpu>)
    ensures |cpus| == if k.phys == NOT_PRESENT then 0 else if threads > 1 then 2 else 1
  {
    if k.phys == NOT_PRESENT then []
    else
      [Cpu(s, d.phys, x.phys, k.phys, 0)] + if threads > 1 then [Cpu(s, d.phys, x.phys, k.phys, 1)] else []
  }

  function CoreParts(s: nat, d: Ccd, x: Complex, c: Counts): (parts: seq<seq<Cpu>>)
    requires IsComplex(x) && InBounds(c)
  {
    seq(c.cores, i requires 0 <= i < c.cores => OfCore(s, d, x, x.cores[i], c.threads))
  }

  function OfComplex(s: nat, d: Ccd, x: Complex, c: Counts): (cpus: seq<Cpu>)
    requires IsComplex(x) && InBounds(c)
  {
    if x.phys == NOT_PRESENT then [] else Concat(CoreParts(s, d, x, c))
  }

  function ComplexParts(s: nat, d: Ccd, c: Counts): (parts: seq<seq<Cpu>>)
    requires IsCcd(d) && InBounds(c)
  {
    seq(c.complexes, i requires 0 <= i < c.complexes => OfComplex(s, d, d.complexes[i], c))
  }

  function OfCcd(s: nat, d: Ccd, c: Counts): (cpus: seq<Cpu>)
    requires IsCcd(d) && InBounds(c)
  {
    if d.phys == NOT_PRESENT then [] else Concat(ComplexParts(s, d, c))
  }

  function CcdParts(s: nat, m: Map, c: Counts): (parts: seq<seq<Cpu>>)
    requires InBounds(c)
  {
    seq(c.ccds, i requires 0 <= i < c.ccds => OfCcd(s, m[i], c))
  }

  /** All CPUs of a die. */
  function OfDie(s: nat, m: Map): (cpus: seq<Cpu>) {
    Concat(CcdParts(s, m, TopologyOf(m)))
  }

  /** The CPUs met before the first failed query, and the status of that query. */
  datatype Collected = Collected(cpus: seq<Cpu>, status: Status)

  function OfDies(s: nat, dies: seq<Die>, n: nat): (r: Collected)
    requires n <= |dies|
  {
    if n == 0 then Collected([], SilPass)
    else
      var before, die := OfDies(s, dies, n - 1), dies[n - 1];
      if before.status != SilPass then before
      else if die.status != SilPass then before.(status := die.status)
      else Collected(before.cpus + OfDie(s, die.map_), SilPass)
  }

  function OfSockets(sockets: seq<Socket>, n: nat): (r: Collected)
    requires n <= |sockets|
  {
    if n == 0 then Collected([], SilPass)
    else
      var before, socket := OfSockets(sockets, n - 1), sockets[n - 1];
      if before.status != SilPass then before
      else if socket.status != SilPass then before.(status := socket.status)
      else
        var r := OfDies(n - 1, socket.dies, |socket.dies|);
        Collected(before.cpus + r.cpus, r.status)
  }

  // ----- Concatenation -----

  lemma ConcatStep(parts: seq<seq<Cpu>>, n: nat)
    requires n < |parts|
    ensures Concat(parts[..n + 1]) == Concat(parts[..n]) + parts[n]
  {
    assert parts[..n + 1][..n] == parts[..n];
  }

  lemma {:induction false} ConcatPrefix(parts: seq<seq<Cpu>>, n: nat)
    requires n <= |parts|
    ensures Concat(parts[..n]) <= Concat(parts)
  {
    if n < |parts| {
      ConcatPrefix(parts[..|parts| - 1], n);
      assert parts[..|parts| - 1][..n] == parts[..n];
    } else {
      assert parts[..n] == parts;
    }
  }

  lemma {:induction false} ConcatBound(parts: seq<seq<Cpu>>, k: nat)
    requires forall i :: 0 <= i < |parts| ==> |parts[i]| <= k
    ensures |Concat(parts)| <= |parts| * k
  {
    if parts != [] {
      ConcatBound(parts[..|parts| - 1], k);
      assert (|parts| - 1) * k + k == |parts| * k;
    }
  }

  // ----- One look at every unit -----

  // A unit is a thread of a die by number: 2 threads per core, 8 cores per complex, 2 complexes per CCD
  // and 12 CCDs give 384.

  /** Unit u of the die is a CPU: the leading CCDs, complexes and cores reach it, its own CCD, complex and
      core are present, and for a second thread the first core of the die has two. */
  ghost predicate IsCpu(m: Map, u: nat)
    requires u < 384
  {
    var i, j, k, t := u / 32, u / 16 % 2, u / 2 % 8, u % 2;
    assert IsCcd(m[0]) && IsComplex(m[0].complexes[0]) && IsCcd(m[i]) && IsComplex(m[i].complexes[j]);
    && (forall x :: 0 <= x <= i ==> m[x].phys != 0xFF)
    && (forall x :: 0 <= x <= j ==> m[0].complexes[x].phys != 0xFF)
    && (forall x :: 0 <= x <= k ==> m[0].complexes[0].cores[x].phys != 0xFF)
    && m[i].complexes[j].phys != 0xFF && m[i].complexes[j].cores[k].phys != 0xFF
    && (t == 1 ==> m[0].complexes[0].cores[0].threads == [true, true])
  }

  /** Its entry: the physical numbers of its CCD, complex and core, and the thread. */
  ghost function CpuAt(s: nat, m: Map, u: nat): (cpu: Cpu)
    requires u < 384
  {
    var i, j, k := u / 32, u / 16 % 2, u / 2 % 8;
    assert IsCcd(m[i]) && IsComplex(m[i].complexes[j]);
    var ccd, complex := m[i], m[i].complexes[j];
    Cpu(s, ccd.phys, complex.phys, complex.cores[k].phys, u % 2)
  }

  /** The entry of a unit, if it has one. */
  ghost function UnitEntry(s: nat, m: Map, u: nat): (cpus: seq<Cpu>)
    requires u < 384
  {
    if IsCpu(m, u) then [CpuAt(s, m, u)] else []
  }

  /** The CPUs among the first n units, in order. */
  ghost function FlatCpus(s: nat, m: Map, n: nat): (cpus: seq<Cpu>)
    requires n <= 384
  {
    if n == 0 then [] else FlatCpus(s, m, n - 1) + UnitEntry(s, m, n - 1)
  }

  lemma UnitNumber(i: nat, j: nat, k: nat, t: nat)
    requires i < 12 && j < 2 && k < 8 && t < 2
    ensures var u := 32 * i + 16 * j + 2 * k + t;
            u < 384 && u / 32 == i && u / 16 % 2 == j && u / 2 % 8 == k && u % 2 == t
  {
    var u := 32 * i + 16 * j + 2 * k + t;
    assert u / 16 == 2 * i + j && u / 2 == 16 * i + 8 * j + k;
  }

  function ComplexAt(m: Map, i: nat, j: nat): (x: Complex)
    requires i < 12 && j < 2
    ensures IsComplex(x)
  {
    assert IsCcd(m[i]) && IsComplex(m[i].complexes[j]);
    m[i].complexes[j]
  }

  lemma CpuAtUnit(s: nat, m: Map, i: nat, j: nat, k: nat, t: nat)
    requires i < 12 && j < 2 && k < 8 && t < 2
    ensures var u, x := 32 * i + 16 * j + 2 * k + t, ComplexAt(m, i, j);
            u < 384 && CpuAt(s, m, u) == Cpu(s, m[i].phys, x.phys, x.cores[k].phys, t)
  {
    UnitNumber(i, j, k, t);
  }

  /** The counts reach the core, and it is present. */
  predicate CoreCounts(m: Map, c: Counts, i: nat, j: nat, k: nat)
    requires i < 12 && j < 2 && k < 8
  {
    var x := ComplexAt(m, i, j);
    i < c.ccds && j < c.complexes && k < c.cores && x.phys != NOT_PRESENT && x.cores[k].phys != NOT_PRESENT
  }

  lemma IsCpuIff(m: Map, c: Counts, i: nat, j: nat, k: nat, t: nat)
    requires Counted(m, c) && i < 12 && j < 2 && k < 8 && t < 2
    ensures var u := 32 * i + 16 * j + 2 * k + t;
            u < 384 && (IsCpu(m, u) <==> CoreCounts(m, c, i, j, k) && (t == 0 || c.threads > 1))
  {
    UnitNumber(i, j, k, t);
    assert IsCcd(m[0]) && IsComplex(m[0].complexes[0]) && IsCcd(m[i]) && IsComplex(m[i].complexes[j]);
    var threads := m[0].complexes[0].cores[0].threads;
    assert threads == [threads[0], threads[1]];
  }

  lemma EntryOfUnit(s: nat, m: Map, c: Counts, i: nat, j: nat, k: nat, t: nat, u: nat)
    requires Counted(m, c) && i < 12 && j < 2 && k < 8 && t < 2 && u == 32 * i + 16 * j + 2 * k + t
    ensures u < 384
    ensures CoreCounts(m, c, i, j, k) && (t == 0 || c.threads > 1) ==>
              var x := ComplexAt(m, i, j);
              UnitEntry(s, m, u) == [Cpu(s, m[i].phys, x.phys, x.cores[k].phys, t)]
    ensures !(CoreCounts(m, c, i, j, k) && (t == 0 || c.threads > 1)) ==> UnitEntry(s, m, u) == []
  {
    hide IsCpu, CpuAt, ComplexAt, CoreCounts, Counted;
    CpuAtUnit(s, m, i, j, k, t);
    IsCpuIff(m, c, i, j, k, t);
  }

  ghost function Units(s: nat, m: Map, u: nat): (cpus: seq<Cpu>)
    requires u + 2 <= 384
  {
    UnitEntry(s, m, u) + UnitEntry(s, m, u + 1)
  }

  /** The two units of a core. */
  lemma UnitsOfCore(s: nat, m: Map, c: Counts, i: nat, j: nat, k: nat, u: nat)
    requires Counted(m, c) && i < 12 && j < 2 && k < 8 && u == 32 * i + 16 * j + 2 * k
    ensures var x := ComplexAt(m, i, j);
            u + 2 <= 384 && Units(s, m, u)
            == if CoreCounts(m, c, i, j, k) then OfCore(s, m[i], x, x.cores[k], c.threads) else []
  {
    hide UnitEntry, ComplexAt, Counted, OfCore;
    var x := ComplexAt(m, i, j);
    EntryOfUnit(s, m, c, i, j, k, 0, u);
    EntryOfUnit(s, m, c, i, j, k, 1, u + 1);
    if CoreCounts(m, c, i, j, k) {
      CoreEntries(s, m[i], x, x.cores[k], c.threads);
    }
  }

  lemma FlatUnits(s: nat, m: Map, u: nat)
    requires u + 2 <= 384
    ensures FlatCpus(s, m, u + 2) == FlatCpus(s, m, u) + Units(s, m, u)
  {
    hide UnitEntry;
    var v := u + 1;
    assert FlatCpus(s, m, v) == FlatCpus(s, m, u) + UnitEntry(s, m, u);
    assert FlatCpus(s, m, v + 1) == FlatCpus(s, m, v) + UnitEntry(s, m, v);
  }

  lemma CoreEntries(s: nat, d: Ccd, x: Complex, k: CoreInfo, threads: nat)
    requires k.phys != NOT_PRESENT
    ensures OfCore(s, d, x, k, threads)
            == [Cpu(s, d.phys, x.phys, k.phys, 0)] + if threads > 1 then [Cpu(s, d.phys, x.phys, k.phys, 1)] else []
  {
  }

  /** The first n parts one after the other, or all of them. */
  function UpTo(parts: seq<seq<Cpu>>, n: nat): (cpus: seq<Cpu>) {
    Concat(if n <= |parts| then parts[..n] else parts)
  }

  lemma UpToStep(parts: seq<seq<Cpu>>, n: nat)
    ensures UpTo(parts, 0) == []
    ensures UpTo(parts, n + 1) == UpTo(parts, n) + if n < |parts| then parts[n] else []
    ensures |parts| <= n ==> UpTo(parts, n) == Concat(parts)
  {
    if n < |parts| {
      ConcatStep(parts, n);
    } else {
      assert parts[..|parts|] == parts;
    }
  }

  /** The cores below k of complex j of CCD i, as the core loop meets them. */
  function CoresBelow(s: nat, m: Map, c: Counts, i: nat, j: nat, k: nat): (cpus: seq<Cpu>)
    requires InBounds(c) && i < 12 && j < 2
  {
    var x := ComplexAt(m, i, j);
    if i < c.ccds && j < c.complexes && x.phys != NOT_PRESENT then UpTo(CoreParts(s, m[i], x, c), k) else []
  }

  lemma CoresStep(s: nat, m: Map, c: Counts, i: nat, j: nat, k: nat)
    requires InBounds(c) && i < 12 && j < 2 && k < 8
    ensures var x := ComplexAt(m, i, j);
            CoresBelow(s, m, c, i, j, k + 1)
            == CoresBelow(s, m, c, i, j, k)
               + if CoreCounts(m, c, i, j, k) then OfCore(s, m[i], x, x.cores[k], c.threads) else []
    ensures CoresBelow(s, m, c, i, j, 0) == []
  {
    hide Concat, UpTo, ComplexAt;
    var x := ComplexAt(m, i, j);
    UpToStep(CoreParts(s, m[i], x, c), k);
  }

  lemma {:induction false} CoresFlat(s: nat, m: Map, c: Counts, i: nat, j: nat, k: nat)
    requires Counted(m, c) && InBounds(c) && i < 12 && j < 2 && k <= 8
    ensures 32 * i + 16 * j + 2 * k <= 384
    ensures FlatCpus(s, m, 32 * i + 16 * j + 2 * k)
            == FlatCpus(s, m, 32 * i + 16 * j) + CoresBelow(s, m, c, i, j, k)
    decreases k
  {
    hide FlatCpus, Units, Counted, CoreCounts, OfCore, CoresBelow, ComplexAt;
    if k == 0 {
      CoresStep(s, m, c, i, j, 0);
    } else {
      CoresFlat(s, m, c, i, j, k - 1);
      UnitsOfCore(s, m, c, i, j, k - 1, 32 * i + 16 * j + 2 * (k - 1));
      FlatUnits(s, m, 32 * i + 16 * j + 2 * (k - 1));
      CoresStep(s, m, c, i, j, k - 1);
    }
  }

  /** The complexes below j of CCD i, as the complex loop meets them. */
  function ComplexesBelow(s: nat, m: Map, c: Counts, i: nat, j: nat): (cpus: seq<Cpu>)
    requires InBounds(c) && i < 12
  {
    assert IsCcd(m[i]);
    if i < c.ccds then UpTo(ComplexParts(s, m[i], c), j) else []
  }

  lemma ComplexesStep(s: nat, m: Map, c: Counts, i: nat, j: nat)
    requires InBounds(c) && i < 12 && j < 2
    ensures ComplexesBelow(s, m, c, i, j + 1) == ComplexesBelow(s, m, c, i, j) + CoresBelow(s, m, c, i, j, 8)
    ensures ComplexesBelow(s, m, c, i, 0) == []
  {
    hide Concat, UpTo;
    assert IsCcd(m[i]);
    UpToStep(ComplexParts(s, m[i], c), j);
    UpToStep(CoreParts(s, m[i], ComplexAt(m, i, j), c), 8);
  }

  lemma {:induction false} ComplexesFlat(s: nat, m: Map, c: Counts, i: nat, j: nat)
    requires Counted(m, c) && InBounds(c) && i < 12 && j <= 2
    ensures 32 * i + 16 * j <= 384
    ensures FlatCpus(s, m, 32 * i + 16 * j) == FlatCpus(s, m, 32 * i) + ComplexesBelow(s, m, c, i, j)
    decreases j
  {
    hide FlatCpus, Counted, CoresBelow, ComplexesBelow;
    if j == 0 {
      ComplexesStep(s, m, c, i, 0);
    } else {
      ComplexesFlat(s, m, c, i, j - 1);
      CoresFlat(s, m, c, i, j - 1, 8);
      ComplexesStep(s, m, c, i, j - 1);
    }
  }

  lemma CcdsStep(s: nat, m: Map, c: Counts, i: nat)
    requires Counted(m, c) && InBounds(c) && i < 12
    ensures UpTo(CcdParts(s, m, c), i + 1) == UpTo(CcdParts(s, m, c), i) + ComplexesBelow(s, m, c, i, 2)
    ensures UpTo(CcdParts(s, m, c), 0) == []
  {
    hide Concat, UpTo;
    assert IsCcd(m[i]);
    UpToStep(CcdParts(s, m, c), i);
    UpToStep(ComplexParts(s, m[i], c), 2);
  }

  lemma {:induction false} CcdsFlat(s: nat, m: Map, c: Counts, i: nat)
    requires Counted(m, c) && InBounds(c) && i <= 12
    ensures FlatCpus(s, m, 32 * i) == UpTo(CcdParts(s, m, c), i)
  {
    hide FlatCpus, Counted, ComplexesBelow, UpTo;
    if i == 0 {
      CcdsStep(s, m, c, 0);
      NoUnits(s, m);
    } else {
      CcdsFlat(s, m, c, i - 1);
      ComplexesFlat(s, m, c, i - 1, 2);
      CcdsStep(s, m, c, i - 1);
    }
  }

  lemma NoUnits(s: nat, m: Map)
    ensures FlatCpus(s, m, 0) == []
  {
  }

  /** The nested loops with their counts meet exactly the units that are CPUs, in order. */
  lemma DieIsFlat(s: nat, m: Map)
    ensures OfDie(s, m) == FlatCpus(s, m, 384)
  {
    hide TopologyOf, Concat, UpTo, FlatCpus, Counted;
    var c := TopologyOf(m);
    TopologyCounted(m);
    CcdsFlat(s, m, c, 12);
    UpToStep(CcdParts(s, m, c), 12);
  }

  // ----- Sockets and failed queries -----

  /** The CPUs of the first n dies, whatever their queries say. */
  ghost function AllOfDies(s: nat, dies: seq<Die>, n: nat): (cpus: seq<Cpu>)
    requires n <= |dies|
  {
    if n == 0 then [] else AllOfDies(s, dies, n - 1) + FlatCpus(s, dies[n - 1].map_, 384)
  }

  /** The CPUs of the first n sockets, whatever their queries say. */
  ghost function AllOfSockets(sockets: seq<Socket>, n: nat): (cpus: seq<Cpu>)
    requires n <= |sockets|
  {
    if n == 0 then []
    else AllOfSockets(sockets, n - 1) + AllOfDies(n - 1, sockets[n - 1].dies, |sockets[n - 1].dies|)
  }

  ghost predicate DiesPass(dies: seq<Die>, n: nat)
    requires n <= |dies|
  {
    forall d :: 0 <= d < n ==> dies[d].status == SilPass
  }

  ghost predicate SocketsPass(sockets: seq<Socket>, n: nat)
    requires n <= |sockets|
  {
    forall s :: 0 <= s < n ==> sockets[s].status == SilPass && DiesPass(sockets[s].dies, |sockets[s].dies|)
  }

  lemma {:induction false} DiesCollected(s: nat, dies: seq<Die>, n: nat)
    requires n <= |dies| && DiesPass(dies, n)
    ensures OfDies(s, dies, n) == Collected(AllOfDies(s, dies, n), SilPass)
  {
    hide OfDie, FlatCpus;
    if n > 0 {
      DiesCollected(s, dies, n - 1);
      DieIsFlat(s, dies[n - 1].map_);
    }
  }

  /** If every query passes, all CPUs are collected. */
  lemma {:induction false} AllCollected(sockets: seq<Socket>, n: nat)
    requires n <= |sockets| && SocketsPass(sockets, n)
    ensures OfSockets(sockets, n) == Collected(AllOfSockets(sockets, n), SilPass)
  {
    hide OfDies, AllOfDies;
    if n > 0 {
      AllCollected(sockets, n - 1);
      DiesCollected(n - 1, sockets[n - 1].dies, |sockets[n - 1].dies|);
    }
  }

  /** If the query of socket s is the first to fail, its status is returned with the CPUs of the sockets
      before it. */
  lemma FailedSocket(sockets: seq<Socket>, s: nat)
    requires s < |sockets| && SocketsPass(sockets, s) && sockets[s].status != SilPass
    ensures OfSockets(sockets, |sockets|) == Collected(AllOfSockets(sockets, s), sockets[s].status)
  {
    hide OfDies, AllOfSockets;
    AllCollected(sockets, s);
    SocketsPrefix(sockets, s + 1, |sockets|);
  }

  /** If the query of die d of socket s is the first to fail, its status is returned with the CPUs of the
      sockets and dies before it. */
  lemma FailedDie(sockets: seq<Socket>, s: nat, d: nat)
    requires s < |sockets| && SocketsPass(sockets, s) && sockets[s].status == SilPass
    requires d < |sockets[s].dies| && DiesPass(sockets[s].dies, d) && sockets[s].dies[d].status != SilPass
    ensures OfSockets(sockets, |sockets|)
            == Collected(AllOfSockets(sockets, s) + AllOfDies(s, sockets[s].dies, d), sockets[s].dies[d].status)
  {
    hide AllOfSockets, OfDie;
    AllCollected(sockets, s);
    DiesCollected(s, sockets[s].dies, d);
    DiesPrefix(s, sockets[s].dies, d + 1, |sockets[s].dies|);
    SocketsPrefix(sockets, s + 1, |sockets|);
  }

  // ----- How many there can be -----

  lemma DieBound(s: nat, m: Map)
    ensures |OfDie(s, m)| <= 384
  {
    hide TopologyOf, Concat;
    var c := TopologyOf(m);
    forall i | 0 <= i < c.ccds
      ensures |OfCcd(s, m[i], c)| <= 32
    {
      forall j | 0 <= j < c.complexes
        ensures |OfComplex(s, m[i], m[i].complexes[j], c)| <= 16
      {
        ConcatBound(CoreParts(s, m[i], m[i].complexes[j], c), 2);
      }
      ConcatBound(ComplexParts(s, m[i], c), 16);
    }
    ConcatBound(CcdParts(s, m, c), 32);
  }

  lemma {:induction false} DiesBound(s: nat, dies: seq<Die>, n: nat)
    requires n <= |dies|
    ensures |OfDies(s, dies, n).cpus| <= 384 * n
  {
    hide OfDie;
    if n > 0 {
      DiesBound(s, dies, n - 1);
      DieBound(s, dies[n - 1].map_);
    }
  }

  /** xPrfGetMaxCpus */
  function GetMaxCpus(): (n: nat) {
    MAX_SOCKETS * MAX_DIES_PER_SOCKET * MAX_CCDS_PER_DIE
    * MAX_COMPLEXES_PER_CCD * MAX_CORES_PER_COMPLEX * MAX_THREADS_PER_CORE
  }

  /** No system with at most two sockets of one die has more CPUs than xPrfGetMaxCpus says. */
  lemma {:induction false} MaxCpusSuffices(sockets: seq<Socket>, n: nat)
    requires n <= |sockets| <= 2
    requires forall i :: 0 <= i < |sockets| ==> |sockets[i].dies| <= 1
    ensures |OfSockets(sockets, n).cpus| <= 384 * n <= GetMaxCpus() == 768
  {
    hide OfDies;
    if n > 0 {
      MaxCpusSuffices(sockets, n - 1);
      DiesBound(n - 1, sockets[n - 1].dies, |sockets[n - 1].dies|);
    }
  }

  // ----- Filling the buffer -----

  /** What a bounded append of xs to before leaves: everything if it fits in cap entries,
      otherwise as much as fits. */
  ghost predicate Appended(cap: nat, before: seq<Cpu>, after: seq<Cpu>, xs: seq<Cpu>, fits: bool) {
    fits == (|before| + |xs| <= cap) && after == if fits then before + xs else (before + xs)[..cap]
  }

  lemma AppendedThen(cap: nat, a: seq<Cpu>, b: seq<Cpu>, c: seq<Cpu>, xs: seq<Cpu>, ys: seq<Cpu>, fits: bool)
    requires Appended(cap, a, b, xs, true) && Appended(cap, b, c, ys, fits)
    ensures Appended(cap, a, c, xs + ys, fits)
  {
    assert a + (xs + ys) == (a + xs) + ys;
  }

  lemma AppendedFull(cap: nat, a: seq<Cpu>, b: seq<Cpu>, xs: seq<Cpu>, zs: seq<Cpu>)
    requires Appended(cap, a, b, xs, false) && xs <= zs
    ensures Appended(cap, a, b, zs, false)
  {
  }

  lemma AppendedNone(cap: nat, a: seq<Cpu>)
    requires |a| <= cap
    ensures Appended(cap, a, a, [], true)
  {
    assert a + [] == a;
  }

  /** One more part of a list of parts: either it fits, or the whole list does not. */
  lemma AppendedPart(cap: nat, a: seq<Cpu>, b: seq<Cpu>, c: seq<Cpu>, parts: seq<seq<Cpu>>, n: nat, fits: bool)
    requires n < |parts| && Appended(cap, a, b, Concat(parts[..n]), true) && Appended(cap, b, c, parts[n], fits)
    ensures Appended(cap, a, c, Concat(parts[..n + 1]), fits)
    ensures !fits ==> Appended(cap, a, c, Concat(parts), false)
  {
    hide Appended, Concat;
    ConcatStep(parts, n);
    AppendedThen(cap, a, b, c, Concat(parts[..n]), parts[n], fits);
    if !fits {
      ConcatPrefix(parts, n + 1);
      AppendedFull(cap, a, c, Concat(parts[..n + 1]), Concat(parts));
    }
  }

  lemma NoPart(cap: nat, a: seq<Cpu>, parts: seq<seq<Cpu>>)
    requires |a| <= cap
    ensures Appended(cap, a, a, Concat(parts[..0]), true) && parts[..|parts|] == parts
  {
    AppendedNone(cap, a);
  }

  class Collector {
    const buffer: array<CpuInfo>
    const size: nat
    var index: nat
    var remaining: nat
    ghost var cpus: seq<Cpu>
    ghost const before: seq<CpuInfo>

    ghost predicate Valid()
      reads this, buffer
    {
      && buffer.Length == size / CPU_INFO_SIZE && index == |cpus| <= buffer.Length
      && index * CPU_INFO_SIZE + remaining == size
      && (forall i :: 0 <= i < index ==> buffer[i] == CpuInfo(i, cpus[i]))
      && |before| == buffer.Length && (forall i :: index <= i < buffer.Length ==> buffer[i] == before[i])
    }

    constructor (buffer: array<CpuInfo>, size: nat)
      requires buffer.Length == size / CPU_INFO_SIZE
      ensures Valid() && cpus == [] && this.buffer == buffer && this.size == size && before == buffer[..]
    {
      before := buffer[..];
      this.buffer := buffer;
      this.size := size;
      index, remaining, cpus := 0, size, [];
    }

    /** One entry, if there is room for it. */
    method Add(cpu: Cpu) returns (fits: bool)
      requires Valid()
      modifies this, buffer
      ensures Valid() && Appended(buffer.Length, old(cpus), cpus, [cpu], fits)
    {
      if remaining < CPU_INFO_SIZE {
        assert index == buffer.Length;
        return false;
      }
      buffer[index] := CpuInfo(index, cpu);
      remaining := remaining - CPU_INFO_SIZE;
      index := index + 1;
      cpus := cpus + [cpu];
      fits := true;
    }

    /** Thread 0 and thread 1 of a core. */
    method AddCore(s: nat, d: Ccd, x: Complex, k: CoreInfo, threads: nat) returns (fits: bool)
      requires Valid()
      modifies this, buffer
      ensures Valid() && Appended(buffer.Length, old(cpus), cpus, OfCore(s, d, x, k, threads), fits)
    {
      hide Appended;
      if k.phys == NOT_PRESENT {
        AppendedNone(buffer.Length, cpus);
        return true;
      }
      ghost var before := cpus;
      var first, second := Cpu(s, d.phys, x.phys, k.phys, 0), Cpu(s, d.phys, x.phys, k.phys, 1);
      fits := Add(first);
      if threads > 1 {
        if !fits {
          AppendedFull(buffer.Length, before, cpus, [first], [first] + [second]);
          return;
        }
        ghost var mid := cpus;
        fits := Add(second);
        AppendedThen(buffer.Length, before, mid, cpus, [first], [second], fits);
      } else {
        assert [first] + [] == [first];
      }
    }

    /** The core loop. */
    method AddComplex(s: nat, d: Ccd, x: Complex, c: Counts) returns (fits: bool)
      requires Valid() && IsComplex(x) && InBounds(c)
      modifies this, buffer
      ensures Valid() && Appended(buffer.Length, old(cpus), cpus, OfComplex(s, d, x, c), fits)
    {
      hide Appended, OfCore, Concat;
      if x.phys == NOT_PRESENT {
        AppendedNone(buffer.Length, cpus);
        return true;
      }
      ghost var parts := CoreParts(s, d, x, c);
      NoPart(buffer.Length, cpus, parts);
      fits := true;
      for n := 0 to c.cores
        invariant Valid() && Appended(buffer.Length, old(cpus), cpus, Concat(parts[..n]), true)
      {
        ghost var mid := cpus;
        fits := AddCore(s, d, x, x.cores[n], c.threads);
        AppendedPart(buffer.Length, old(cpus), mid, cpus, parts, n, fits);
        if !fits {
          return;
        }
      }
      fits := true;
    }

    /** The complex loop. */
    method AddCcd(s: nat, d: Ccd, c: Counts) returns (fits: bool)
      requires Valid() && IsCcd(d) && InBounds(c)
      modifies this, buffer
      ensures Valid() && Appended(buffer.Length, old(cpus), cpus, OfCcd(s, d, c), fits)
    {
      hide Appended, OfComplex, Concat;
      if d.phys == NOT_PRESENT {
        AppendedNone(buffer.Length, cpus);
        return true;
      }
      ghost var parts := ComplexParts(s, d, c);
      NoPart(buffer.Length, cpus, parts);
      for n := 0 to c.complexes
        invariant Valid() && Appended(buffer.Length, old(cpus), cpus, Concat(parts[..n]), true)
      {
        ghost var mid := cpus;
        fits := AddComplex(s, d, d.complexes[n], c);
        AppendedPart(buffer.Length, old(cpus), mid, cpus, parts, n, fits);
        if !fits {
          return;
        }
      }
      fits := true;
    }

    /** The CCD loop. */
    method AddDie(s: nat, m: Map) returns (fits: bool)
      requires Valid()
      modifies this, buffer
      ensures Valid() && Appended(buffer.Length, old(cpus), cpus, OfDie(s, m), fits)
    {
      hide Appended, OfCcd, Concat, TopologyOf;
      var c := GetCoreTopologyOnDie(m);
      ghost var parts := CcdParts(s, m, c);
      NoPart(buffer.Length, cpus, parts);
      for n := 0 to c.ccds
        invariant Valid() && Appended(buffer.Length, old(cpus), cpus, Concat(parts[..n]), true)
      {
        ghost var mid := cpus;
        fits := AddCcd(s, m[n], c);
        AppendedPart(buffer.Length, old(cpus), mid, cpus, parts, n, fits);
        if !fits {
          return;
        }
      }
      fits := true;
    }

    /** The die loop. */
    method AddDies(s: nat, dies: seq<Die>) returns (status: Status)
      requires Valid()
      modifies this, buffer
      ensures var r := OfDies(s, dies, |dies|);
              var fits := |old(cpus)| + |r.cpus| <= buffer.Length;
              && Valid() && Appended(buffer.Length, old(cpus), cpus, r.cpus, fits)
              && status == if fits then r.status else SilOutOfBounds
    {
      hide OfDie;
      AppendedNone(buffer.Length, cpus);
      for n := 0 to |dies|
        invariant Valid() && OfDies(s, dies, n).status == SilPass
        invariant Appended(buffer.Length, old(cpus), cpus, OfDies(s, dies, n).cpus, true)
      {
        DiesPrefix(s, dies, n + 1, |dies|);
        if dies[n].status != SilPass {
          return dies[n].status;
        }
        ghost var mid, xs := cpus, OfDies(s, dies, n).cpus;
        var fits := AddDie(s, dies[n].map_);
        AppendedThen(buffer.Length, old(cpus), mid, cpus, xs, OfDie(s, dies[n].map_), fits);
        if !fits {
          AppendedFull(buffer.Length, old(cpus), cpus, OfDies(s, dies, n + 1).cpus, OfDies(s, dies, |dies|).cpus);
          return SilOutOfBounds;
        }
      }
      status := SilPass;
    }
  }

  lemma {:induction false} DiesPrefix(s: nat, dies: seq<Die>, n: nat, k: nat)
    requires n <= k <= |dies|
    ensures OfDies(s, dies, n).cpus <= OfDies(s, dies, k).cpus
    ensures OfDies(s, dies, n).status != SilPass ==> OfDies(s, dies, k) == OfDies(s, dies, n)
    decreases k
  {
    hide OfDie;
    if n < k {
      DiesPrefix(s, dies, n, k - 1);
    }
  }

  lemma {:induction false} SocketsPrefix(sockets: seq<Socket>, n: nat, k: nat)
    requires n <= k <= |sockets|
    ensures OfSockets(sockets, n).cpus <= OfSockets(sockets, k).cpus
    ensures OfSockets(sockets, n).status != SilPass ==> OfSockets(sockets, k) == OfSockets(sockets, n)
    decreases k
  {
    hide OfDies;
    if n < k {
      SocketsPrefix(sockets, n, k - 1);
    }
  }

  /** xPrfCollectCpuMap. With enough room the buffer holds every CPU met before the first failed
      query, numbered from 0 without gaps; without, the first CPUs that fit. */
  method CollectCpuMap(buffer: array<CpuInfo>, size: nat, sockets: seq<Socket>) returns (status: Status, totalCpus: nat)
    requires buffer.Length == size / 16 && |sockets| <= 0xFF
    modifies buffer
    ensures var r := OfSockets(sockets, |sockets|);
            var n := if |r.cpus| <= buffer.Length then |r.cpus| else buffer.Length;
            && status == (if 16 * |r.cpus| <= size then r.status else SilOutOfBounds)
            && (status == SilPass ==> totalCpus == |r.cpus|)
            && (forall i :: 0 <= i < n ==> buffer[i] == CpuInfo(i, r.cpus[i]))
            && (forall i :: n <= i < buffer.Length ==> buffer[i] == old(buffer[i]))
  {
    hide OfDies;
    var c := new Collector(buffer, size);
    totalCpus := 0;
    for s := 0 to |sockets|
      invariant c.buffer == buffer && c.size == size && c.Valid()
      invariant OfSockets(sockets, s).status == SilPass && c.cpus == OfSockets(sockets, s).cpus
    {
      SocketsPrefix(sockets, s + 1, |sockets|);
      if sockets[s].status != SilPass {
        return sockets[s].status, 0;
      }
      status := c.AddDies(s, sockets[s].dies);
      if status != SilPass {
        return;
      }
    }
    status := SilPass;
    totalCpus := c.index;
  }
}
