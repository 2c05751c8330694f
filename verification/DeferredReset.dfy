/** The silicon-initialisation loop and the reset request it keeps for the end (xSIM/xSIM.c).

    Initialize functions are not part of the model: a run is driven by the list of statuses that
    their successive calls return. The comment in the loop says that a deferred reset request
    continues with the next IP; the `continue` statement skips the increment, so the same IP is
    initialised again. The model follows the statement. */
module DeferredReset {
  import opened Options
  import opened SilStatus

  predicate IsDeferred(s: Status) {
    s == SilResetRequestColdDef || s == SilResetRequestWarmDef
  }

  /** SetDeferredResetType: cold stays; any other request than a deferred warm one makes it cold. */
  function SetDeferred(d: Status, request: Status): (d': Status) {
    if d == SilResetRequestColdDef then d
    else if request == SilResetRequestWarmDef then request
    else SilResetRequestColdDef
  }

  /** How a run stands when the given outcomes have been returned: over, with a status, the reset
      type kept and the number of calls made; or still going. */
  datatype Run = Ended(status: Status, deferred: Status, calls: nat) | Running(deferred: Status)

  /** xSimInitializeIps over records, of which some have an Initialize function. */
  function RunIps(hasInit: seq<bool>, outcomes: seq<Status>, d: Status): (r: Run)
    decreases |hasInit| + |outcomes|
  {
    if hasInit == [] then Ended(Returned(SilPass, d), d, 0)
    else if !hasInit[0] then RunIps(hasInit[1..], outcomes, d)
    else if outcomes == [] then Running(d)
    else if outcomes[0] == SilPass then OneMoreCall(RunIps(hasInit[1..], outcomes[1..], d))
    else if IsDeferred(outcomes[0]) then
      OneMoreCall(RunIps(hasInit, outcomes[1..], SetDeferred(d, outcomes[0])))
    else Ended(Returned(outcomes[0], d), d, 1)
  }

  function OneMoreCall(r: Run): (r': Run) {
    if r.Ended? then r.(calls := r.calls + 1) else r
  }

  /** A kept reset request takes the place of whatever status ended the loop. */
  function Returned(status: Status, d: Status): (s: Status) {
    if d != SilPass then d else status
  }

  // ----- The join of requests -----

  /** The highest request among the kept type and the outcomes, with None < Warm < Cold. */
  function Join(d: Status, outcomes: seq<Status>): (d': Status) {
    if d == SilResetRequestColdDef || SilResetRequestColdDef in outcomes then SilResetRequestColdDef
    else if d == SilResetRequestWarmDef || SilResetRequestWarmDef in outcomes then SilResetRequestWarmDef
    else SilPass
  }

  /** The values the stored type can have. */
  predicate IsKept(d: Status) {
    d == SilPass || IsDeferred(d)
  }

  function Rank(d: Status): (n: nat) {
    if d == SilResetRequestColdDef then 2 else if d == SilResetRequestWarmDef then 1 else 0
  }

  lemma JoinStep(d: Status, outcomes: seq<Status>)
    requires IsKept(d) && outcomes != []
    ensures Join(d, outcomes) == Join(if IsDeferred(outcomes[0]) then SetDeferred(d, outcomes[0]) else d, outcomes[1..])
  {
    assert outcomes == [outcomes[0]] + outcomes[1..];
  }

  /** The stored type at any point of a run is the join of all requests made so far; it never
      falls; and a run that ends returns it if there is one, whatever stopped the loop. */
  lemma {:induction false} KeepsJoin(hasInit: seq<bool>, outcomes: seq<Status>, d: Status)
    requires IsKept(d)
    ensures var r := RunIps(hasInit, outcomes, d);
            && IsKept(r.deferred) && Rank(d) <= Rank(r.deferred)
            && (r.Running? ==> r.deferred == Join(d, outcomes))
            && (r.Ended? ==> r.calls <= |outcomes| && r.deferred == Join(d, outcomes[..r.calls]))
            && (r.Ended? && r.deferred != SilPass ==> r.status == r.deferred)
    decreases |hasInit| + |outcomes|
  {
    var r := RunIps(hasInit, outcomes, d);
    if hasInit == [] {
    } else if !hasInit[0] {
      KeepsJoin(hasInit[1..], outcomes, d);
    } else if outcomes != [] {
      JoinStep(d, outcomes);
      var rest := outcomes[1..];
      if outcomes[0] == SilPass {
        KeepsJoin(hasInit[1..], rest, d);
      } else if IsDeferred(outcomes[0]) {
        KeepsJoin(hasInit, rest, SetDeferred(d, outcomes[0]));
      }
      if r.Ended? {
        JoinStep(d, outcomes[..r.calls]);
        assert outcomes[..r.calls][1..] == rest[..r.calls - 1];
      }
    }
  }

  /** Call i fails outright: it neither passes nor asks for a deferred reset. */
  predicate FailsAt(outcomes: seq<Status>, i: nat)
    requires i < |outcomes|
  {
    outcomes[i] != SilPass && outcomes[i] != SilResetRequestColdDef && outcomes[i] != SilResetRequestWarmDef
  }

  /** What a run that ends returns: the kept reset request if there is one; otherwise the status of the
      call that failed outright, which is the last one made; otherwise pass. */
  lemma {:induction false} ReturnsFailure(hasInit: seq<bool>, outcomes: seq<Status>, d: Status)
    requires IsKept(d) && RunIps(hasInit, outcomes, d).Ended?
    ensures var r := RunIps(hasInit, outcomes, d);
            && r.calls <= |outcomes| && (forall i :: 0 <= i < r.calls - 1 ==> !FailsAt(outcomes, i))
            && (r.deferred != SilPass ==> r.status == r.deferred)
            && (r.deferred == SilPass && r.calls > 0 && FailsAt(outcomes, r.calls - 1) ==>
                  r.status == outcomes[r.calls - 1])
            && (r.deferred == SilPass && (r.calls == 0 || !FailsAt(outcomes, r.calls - 1)) ==> r.status == SilPass)
    decreases |hasInit| + |outcomes|
  {
    var r := RunIps(hasInit, outcomes, d);
    if hasInit == [] {
    } else if !hasInit[0] {
      ReturnsFailure(hasInit[1..], outcomes, d);
    } else {
      var rest := outcomes[1..];
      assert forall i :: 0 <= i < |rest| ==> FailsAt(rest, i) == FailsAt(outcomes, i + 1);
      if outcomes[0] == SilPass {
        ReturnsFailure(hasInit[1..], rest, d);
        FailsShifted(outcomes, r.calls);
      } else if IsDeferred(outcomes[0]) {
        ReturnsFailure(hasInit, rest, SetDeferred(d, outcomes[0]));
        FailsShifted(outcomes, r.calls);
      }
    }
  }

  lemma FailsShifted(outcomes: seq<Status>, n: nat)
    requires 0 < n <= |outcomes| && !FailsAt(outcomes, 0)
    requires forall i :: 0 <= i < n - 2 ==> !FailsAt(outcomes[1..], i)
    ensures forall i :: 0 <= i < n - 1 ==> !FailsAt(outcomes, i)
    ensures n > 1 ==> FailsAt(outcomes, n - 1) == FailsAt(outcomes[1..], n - 2)
  {
    forall i | 0 <= i < n - 1
      ensures !FailsAt(outcomes, i)
    {
      if i > 0 {
        assert !FailsAt(outcomes[1..], i - 1);
      }
    }
  }

  // ----- Timepoints -----

  /** One timepoint: its records and the outcomes its calls return. */
  datatype Timepoint = Timepoint(hasInit: seq<bool>, outcomes: seq<Status>)

  /** The runs of successive timepoints; the stored type is carried from one to the next. */
  function RunAll(tps: seq<Timepoint>, d: Status): (rs: seq<Run>)
    ensures |rs| == |tps|
  {
    if tps == [] then []
    else
      var r := RunIps(tps[0].hasInit, tps[0].outcomes, d);
      [r] + RunAll(tps[1..], r.deferred)
  }

  /** The outcomes of the calls made in the first n timepoints. */
  function Made(tps: seq<Timepoint>, rs: seq<Run>, n: nat): (outcomes: seq<Status>)
    requires n <= |tps| == |rs|
    requires forall i :: 0 <= i < n && rs[i].Ended? ==> rs[i].calls <= |tps[i].outcomes|
  {
    if n == 0 then []
    else
      Made(tps, rs, n - 1)
      + if rs[n - 1].Ended? then tps[n - 1].outcomes[..rs[n - 1].calls] else tps[n - 1].outcomes
  }

  lemma JoinAppend(d: Status, a: seq<Status>, b: seq<Status>)
    requires IsKept(d)
    ensures Join(Join(d, a), b) == Join(d, a + b)
  {
  }

  lemma {:induction false} RunAllStep(tps: seq<Timepoint>, d: Status, n: nat)
    requires n < |tps|
    ensures var rs := RunAll(tps, d);
            var before := if n == 0 then d else rs[n - 1].deferred;
            rs[n] == RunIps(tps[n].hasInit, tps[n].outcomes, before)
  {
    if n > 0 {
      RunAllStep(tps[1..], RunIps(tps[0].hasInit, tps[0].outcomes, d).deferred, n - 1);
    }
  }

  /** Over all timepoints: each run that ends returns the join of every deferred request made in
      this or an earlier timepoint, if there is one. */
  lemma {:induction false} TimepointsKeepJoin(tps: seq<Timepoint>, n: nat)
    requires n < |tps|
    ensures var rs := RunAll(tps, SilPass);
            && (forall i :: 0 <= i <= n && rs[i].Ended? ==> rs[i].calls <= |tps[i].outcomes|)
            && IsKept(rs[n].deferred) && rs[n].deferred == Join(SilPass, Made(tps, rs, n + 1))
            && (rs[n].Ended? && rs[n].deferred != SilPass ==> rs[n].status == rs[n].deferred)
  {
    hide Join, RunIps;
    var rs := RunAll(tps, SilPass);
    RunAllStep(tps, SilPass, n);
    if n > 0 {
      TimepointsKeepJoin(tps, n - 1);
    }
    var before := if n == 0 then SilPass else rs[n - 1].deferred;
    KeepsJoin(tps[n].hasInit, tps[n].outcomes, before);
    var made := if rs[n].Ended? then tps[n].outcomes[..rs[n].calls] else tps[n].outcomes;
    JoinAppend(SilPass, Made(tps, rs, n), made);
    JoinEmpty();
  }

  lemma JoinEmpty()
    ensures Join(SilPass, []) == SilPass
  {
  }

  // ----- A deferred request repeats its IP -----

  function Count<T(==)>(s: seq<T>, x: T): (n: nat) {
    if s == [] then 0 else (if s[0] == x then 1 else 0) + Count(s[1..], x)
  }

  predicate Stops(s: Status) {
    s != SilPass && !IsDeferred(s)
  }

  /** A run comes to an end exactly when some call fails outright or as many calls pass as there
      are IPs to initialise. Deferred requests do not count towards that: their IP is called again. */
  lemma {:induction false} EndsIff(hasInit: seq<bool>, outcomes: seq<Status>, d: Status)
    ensures RunIps(hasInit, outcomes, d).Ended? <==>
            (exists s :: s in outcomes && Stops(s)) || Count(hasInit, true) <= Count(outcomes, SilPass)
    decreases |hasInit| + |outcomes|
  {
    if hasInit == [] {
    } else if !hasInit[0] {
      EndsIff(hasInit[1..], outcomes, d);
    } else if outcomes != [] {
      var rest := outcomes[1..];
      assert outcomes == [outcomes[0]] + rest;
      if outcomes[0] == SilPass {
        EndsIff(hasInit[1..], rest, d);
      } else if IsDeferred(outcomes[0]) {
        EndsIff(hasInit, rest, SetDeferred(d, outcomes[0]));
      } else {
        assert outcomes[0] in outcomes && Stops(outcomes[0]);
      }
    }
  }

  /** An IP that keeps asking for a deferred reset is called for ever. */
  lemma {:induction false} DeferredForever(hasInit: seq<bool>, n: nat, d: Status)
    requires true in hasInit
    ensures RunIps(hasInit, seq(n, _ => SilResetRequestWarmDef), d).Running?
  {
    var outcomes := seq(n, _ => SilResetRequestWarmDef);
    NoPass(outcomes);
    HasOne(hasInit);
    EndsIff(hasInit, outcomes, d);
  }

  lemma {:induction false} NoPass(outcomes: seq<Status>)
    requires forall i :: 0 <= i < |outcomes| ==> outcomes[i] == SilResetRequestWarmDef
    ensures Count(outcomes, SilPass) == 0
  {
    if outcomes != [] {
      NoPass(outcomes[1..]);
    }
  }

  lemma {:induction false} HasOne(hasInit: seq<bool>)
    requires true in hasInit
    ensures Count(hasInit, true) > 0
  {
    if !hasInit[0] {
      HasOne(hasInit[1..]);
    }
  }

  // ----- The loop -----

  class Initializer {
    /** mDeferredResetType */
    var deferred: Status

    constructor ()
      ensures deferred == SilPass
    {
      deferred := SilPass;
    }

    /** xSimInitializeIps. Returns None if the outcomes run out before the loop ends. */
    method InitializeIps(hasInit: seq<bool>, outcomes: seq<Status>) returns (status: Option<Status>)
      modifies this
      ensures var r := RunIps(hasInit, outcomes, old(deferred));
              deferred == r.deferred && status == if r.Ended? then Some(r.status) else None
    {
      var i, calls := 0, 0;
      var last := SilPass;
      ghost var all := RunIps(hasInit, outcomes, deferred);
      assert hasInit[0..] == hasInit && outcomes[0..] == outcomes;
      while i < |hasInit|
        invariant 0 <= i <= |hasInit| && 0 <= calls <= |outcomes| && (i == |hasInit| ==> last == SilPass)
        invariant Same(all, RunIps(hasInit[i..], outcomes[calls..], deferred))
        decreases |hasInit| - i + |outcomes| - calls
      {
        assert hasInit[i..][1..] == hasInit[i + 1..];
        if !hasInit[i] {
          last := SilPass;
        } else {
          if calls == |outcomes| {
            return None;
          }
          assert outcomes[calls..][1..] == outcomes[calls + 1..];
          last := outcomes[calls];
          calls := calls + 1;
          if last != SilPass {
            if IsDeferred(last) {
              deferred := SetDeferred(deferred, last);
              continue;
            }
            break;
          }
        }
        i := i + 1;
      }
      status := Some(Returned(last, deferred));
    }
  }

  /** Equal up to the number of calls. */
  predicate Same(a: Run, b: Run) {
    a.deferred == b.deferred && a.Ended? == b.Ended? && (a.Ended? ==> a.status == b.status)
  }
}
