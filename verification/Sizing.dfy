/** How much memory the host is asked for, and why it is enough (xSIM/xSIM.c). */
module Sizing {
  import opened Options
  import opened Bytes
  import opened SilStatus
  import opened InfoBlocks

  /** What an IP's SetInput function does: it creates its blocks in order, gives up with SilAborted
      if one is refused, and otherwise returns its status. */
  datatype SetInput = SetInput(creates: seq<Request>, status: Status)

  datatype Registration = Registration(xferTable: bool, id: nat, api: uint64)

  /** What an IP's ApiInit function does: it registers its interfaces and returns a status. */
  datatype ApiInit = ApiInit(apis: seq<Registration>, status: Status)

  /** IP_RECORD; None for a null function pointer. */
  datatype IpRecord = IpRecord(blkRequestSize: uint32, setInput: Option<SetInput>, apiInit: Option<ApiInit>)

  // ----- The query -----

  function BlockBudget(r: IpRecord): (n: nat) {
    if r.blkRequestSize > 0 then RoundUp(HEADER_SIZE + r.blkRequestSize, 4) else 0
  }

  function Budget(rs: seq<IpRecord>): (n: nat) {
    if rs == [] then 0 else BlockBudget(rs[0]) + Budget(rs[1..])
  }

  /** xSimQueryMemoryRequirements */
  method QueryMemoryRequirements(rs: seq<IpRecord>) returns (n: nat)
    ensures n == RoundUp(VARS_SIZE + Budget(rs), 2048)
  {
    n := VARS_SIZE;
    assert rs[0..] == rs;
    for i := 0 to |rs|
      invariant n + Budget(rs[i..]) == VARS_SIZE + Budget(rs)
    {
      assert rs[i..][1..] == rs[i + 1..];
      if rs[i].blkRequestSize > 0 {
        n := n + RoundUp(HEADER_SIZE + rs[i].blkRequestSize, 4);
      }
    }
    n := RoundUp(n, 2048);
  }

  // ----- When a sequence of creates succeeds -----

  predicate SizesFit(cs: seq<Request>) {
    forall c :: c in cs ==> c.dataSize < TWO_64 - 16
  }

  function CreateAll(a: Alloc, cs: seq<Request>): (a': Alloc)
    decreases |cs|
  {
    if cs == [] then a else Create(CreateAll(a, cs[..|cs| - 1]), cs[|cs| - 1])
  }

  /** No create of the sequence returns null. */
  predicate AllGranted(a: Alloc, cs: seq<Request>)
    decreases |cs|
  {
    cs == [] ||
    (AllGranted(a, cs[..|cs| - 1]) && CreateAll(a, cs[..|cs| - 1]).left > RequestSize(cs[|cs| - 1].dataSize))
  }

  function Total(cs: seq<Request>): (n: nat) {
    if cs == [] then 0 else Total(cs[..|cs| - 1]) + RequestSize(cs[|cs| - 1].dataSize)
  }

  /** Creates succeed, in whatever order they come, exactly when their sizes add up to less than
      the free space. */
  lemma {:induction false} AllGrantedIff(a: Alloc, cs: seq<Request>)
    requires SizesFit(cs)
    ensures AllGranted(a, cs) <==> cs == [] || Total(cs) < a.left
    ensures AllGranted(a, cs) ==> CreateAll(a, cs).left == a.left - Total(cs)
    decreases |cs|
  {
    hide RequestSize;
    if cs != [] {
      var init := cs[..|cs| - 1];
      AllGrantedIff(a, init);
      assert cs[|cs| - 1] in cs;
      RequestSizeFits(cs[|cs| - 1].dataSize);
    }
  }

  // ----- The queried size suffices -----

  /** What the creates that belong to record k take, if create i belongs to record owner[i]. */
  function OwnedTotal(cs: seq<Request>, owner: seq<nat>, k: nat): (n: nat)
    requires |owner| == |cs|
  {
    if cs == [] then 0
    else
      var i := |cs| - 1;
      OwnedTotal(cs[..i], owner[..i], k) + if owner[i] == k then RequestSize(cs[i].dataSize) else 0
  }

  /** Each record's creates stay within what the query adds up for it. */
  ghost predicate WithinBudgets(rs: seq<IpRecord>, cs: seq<Request>, owner: seq<nat>) {
    && |owner| == |cs| && SizesFit(cs)
    && (forall i :: 0 <= i < |cs| ==> owner[i] < |rs|)
    && (forall k :: 0 <= k < |rs| ==> OwnedTotal(cs, owner, k) <= BlockBudget(rs[k]))
  }

  /** The creates of the records below n. */
  function OwnedBelow(cs: seq<Request>, owner: seq<nat>, n: nat): (t: nat)
    requires |owner| == |cs|
  {
    if n == 0 then 0 else OwnedBelow(cs, owner, n - 1) + OwnedTotal(cs, owner, n - 1)
  }

  lemma {:induction false} OwnedBelowStep(cs: seq<Request>, owner: seq<nat>, n: nat)
    requires |owner| == |cs| && cs != []
    ensures var i := |cs| - 1;
            OwnedBelow(cs, owner, n)
            == OwnedBelow(cs[..i], owner[..i], n) + if owner[i] < n then RequestSize(cs[i].dataSize) else 0
  {
    hide RequestSize;
    if n > 0 {
      OwnedBelowStep(cs, owner, n - 1);
    }
  }

  /** All creates together are the creates of all records. */
  lemma {:induction false} TotalByOwner(cs: seq<Request>, owner: seq<nat>, n: nat)
    requires |owner| == |cs| && forall i :: 0 <= i < |cs| ==> owner[i] < n
    ensures Total(cs) == OwnedBelow(cs, owner, n)
    decreases |cs|
  {
    hide RequestSize;
    if cs == [] {
      NoneOwned(n);
    } else {
      OwnedBelowStep(cs, owner, n);
      TotalByOwner(cs[..|cs| - 1], owner[..|cs| - 1], n);
    }
  }

  lemma NoneOwned(n: nat)
    ensures OwnedBelow([], [], n) == 0
  {
  }

  lemma {:induction false} BelowBudget(rs: seq<IpRecord>, cs: seq<Request>, owner: seq<nat>, n: nat, k: nat)
    requires n <= |rs| && WithinBudgets(rs, cs, owner) && (k < n ==> OwnedTotal(cs, owner, k) == 0)
    ensures OwnedBelow(cs, owner, n) + (if k < n then BlockBudget(rs[k]) else 0) <= Budget(rs[..n])
  {
    hide RequestSize, BlockBudget, OwnedTotal, Budget;
    if n > 0 {
      BelowBudget(rs, cs, owner, n - 1, k);
      BudgetSnoc(rs, n - 1);
    } else {
      NoBudget();
    }
  }

  lemma NoBudget()
    ensures Budget([]) == 0
  {
  }

  lemma BudgetSnoc(rs: seq<IpRecord>, n: nat)
    requires n < |rs|
    ensures Budget(rs[..n + 1]) == Budget(rs[..n]) + BlockBudget(rs[n])
  {
    assert rs[..n + 1] == rs[..n] + [rs[n]];
    BudgetAppend(rs[..n], rs[n]);
  }

  lemma {:induction false} BudgetAppend(rs: seq<IpRecord>, r: IpRecord)
    ensures Budget(rs + [r]) == Budget(rs) + BlockBudget(r)
    decreases |rs|
  {
    hide BlockBudget;
    if rs == [] {
      assert (rs + [r])[1..] == [];
    } else {
      assert (rs + [r])[1..] == rs[1..] + [r];
      BudgetAppend(rs[1..], r);
    }
  }

  lemma {:induction false} NothingOwned(cs: seq<Request>, owner: seq<nat>, k: nat)
    requires |owner| == |cs| && k !in owner
    ensures OwnedTotal(cs, owner, k) == 0
  {
    hide RequestSize;
    if cs != [] {
      NothingOwned(cs[..|cs| - 1], owner[..|cs| - 1], k);
    }
  }

  /** With the queried size no create returns null, in any order and however the creates are spread
      over time, as long as each record's creates together take no more than its rounded request; and
      a record that has created nothing yet still finds more free space than it asks for. */
  lemma SizingSuffices(rs: seq<IpRecord>, a: Alloc, cs: seq<Request>, owner: seq<nat>)
    requires a.left == RoundUp(VARS_SIZE + Budget(rs), 2048) - VARS_SIZE
    requires WithinBudgets(rs, cs, owner)
    ensures AllGranted(a, cs)
    ensures forall k :: 0 <= k < |rs| && k !in owner ==> CreateAll(a, cs).left > rs[k].blkRequestSize
  {
    hide RequestSize, Budget, RoundUp, BlockBudget, OwnedTotal;
    RoundUpBounds(VARS_SIZE + Budget(rs), 2048);
    var n := |rs|;
    assert rs[..n] == rs;
    TotalByOwner(cs, owner, n);
    BelowBudget(rs, cs, owner, n, n);
    AllGrantedIff(a, cs);
    forall k | 0 <= k < |rs| && k !in owner
      ensures CreateAll(a, cs).left > rs[k].blkRequestSize
    {
      NothingOwned(cs, owner, k);
      BelowBudget(rs, cs, owner, n, k);
      BudgetAboveRequest(rs[k]);
    }
  }

  lemma BudgetAboveRequest(r: IpRecord)
    ensures r.blkRequestSize > 0 ==> BlockBudget(r) > r.blkRequestSize
  {
  }

  // ----- The 32-bit counters -----

  function FullBlocks(rs: seq<IpRecord>): (cs: seq<Request>) {
    if rs == [] then []
    else
      var r := rs[|rs| - 1];
      FullBlocks(rs[..|rs| - 1]) + if r.blkRequestSize > 0 then [Request(0, r.blkRequestSize, 0, 0, 0)] else []
  }

  lemma {:induction false} FullBlocksTotal(rs: seq<IpRecord>)
    ensures SizesFit(FullBlocks(rs)) && Total(FullBlocks(rs)) == Budget(rs)
    decreases |rs|
  {
    hide RequestSize, Budget, RoundUp, SizesFit, Total;
    if rs == [] {
      NoBudget();
      NoTotal();
    } else {
      var front, r := rs[..|rs| - 1], rs[|rs| - 1];
      FullBlocksTotal(front);
      assert rs == front + [r];
      BudgetAppend(front, r);
      RequestSizeFits(r.blkRequestSize);
      var cs := FullBlocks(front);
      TotalSnoc(cs, Request(0, r.blkRequestSize, 0, 0, 0));
      assert cs + [] == cs;
    }
  }

  lemma NoTotal()
    ensures Total([]) == 0 && SizesFit([])
  {
  }

  lemma TotalSnoc(cs: seq<Request>, c: Request)
    ensures Total(cs + [c]) == Total(cs) + RequestSize(c.dataSize)
    ensures SizesFit(cs) && c.dataSize < TWO_64 - 16 ==> SizesFit(cs + [c])
  {
    hide RequestSize;
    assert (cs + [c])[..|cs|] == cs;
  }

  /** FreeSpaceLeft is 32 bits wide. The queried size is enough for every block at its announced
      size exactly when the space behind the block variables fits in 32 bits. */
  lemma SizingNeeds32Bits(rs: seq<IpRecord>, a: Alloc)
    requires a.left == (RoundUp(VARS_SIZE + Budget(rs), 2048) - VARS_SIZE) % TWO_32
    ensures AllGranted(a, FullBlocks(rs)) <==> RoundUp(VARS_SIZE + Budget(rs), 2048) - VARS_SIZE < TWO_32
  {
    hide Budget, FullBlocks, RoundUp, AllGranted, SizesFit;
    var need := RoundUp(VARS_SIZE + Budget(rs), 2048) - VARS_SIZE;
    RoundUpBounds(VARS_SIZE + Budget(rs), 2048);
    FullBlocksTotal(rs);
    AllGrantedIff(a, FullBlocks(rs));
    if need >= TWO_32 {
      assert a.left <= need - TWO_32;
    }
  }

  /** After timepoint 1 sets up the block variables, offset and free space add up to the block
      size exactly when the low 32 bits of the memory size cover the block variables. */
  lemma Tp1Accounting(memorySize: uint64)
    ensures VARS_SIZE + (memorySize - VARS_SIZE) % TWO_32 == memorySize % TWO_32 <==> VARS_SIZE <= memorySize % TWO_32
  {
  }

  // ----- The Tp1 loop -----

  /** xSimInitializeIpApis: the first failure of an ApiInit function. */
  function ApiStatus(rs: seq<IpRecord>): (s: Status) {
    if rs == [] then SilPass
    else if rs[0].apiInit.Some? && rs[0].apiInit.value.status != SilPass then rs[0].apiInit.value.status
    else ApiStatus(rs[1..])
  }

  function Ops(apis: seq<Registration>): (ops: seq<Op>) {
    if apis == [] then [] else [RegisterApi(apis[0].xferTable, apis[0].id, apis[0].api)] + Ops(apis[1..])
  }

  /** An entry of the API tables after xSimInitializeIpApis, if it was v before. */
  function ApiAfter(rs: seq<IpRecord>, xferTable: bool, id: nat, v: uint64): (api: uint64) {
    if rs == [] then v
    else if rs[0].apiInit.None? then ApiAfter(rs[1..], xferTable, id, v)
    else
      var v' := LastApi(Ops(rs[0].apiInit.value.apis), xferTable, id, v);
      if rs[0].apiInit.value.status != SilPass then v' else ApiAfter(rs[1..], xferTable, id, v')
  }

  /** Record r has an ApiInit function that fails. */
  predicate ApiFails(r: IpRecord) {
    r.apiInit.Some? && r.apiInit.value.status != SilPass
  }

  /** The registrations of all records, in order. */
  function AllOps(rs: seq<IpRecord>): (ops: seq<Op>) {
    if rs == [] then []
    else (if rs[0].apiInit.Some? then Ops(rs[0].apiInit.value.apis) else []) + AllOps(rs[1..])
  }

  /** If the function of record k is the first to fail, its status is returned and the tables hold what the
      records up to k registered last; later records register nothing. */
  lemma {:induction false} FirstFailingApi(rs: seq<IpRecord>, k: nat, xferTable: bool, id: nat, v: uint64)
    requires k < |rs| && ApiFails(rs[k]) && forall i :: 0 <= i < k ==> !ApiFails(rs[i])
    ensures ApiStatus(rs) == rs[k].apiInit.value.status
    ensures ApiAfter(rs, xferTable, id, v) == LastApi(AllOps(rs[..k + 1]), xferTable, id, v)
    decreases |rs|
  {
    hide LastApi, Ops;
    var rest, first := rs[1..], if rs[0].apiInit.Some? then Ops(rs[0].apiInit.value.apis) else [];
    assert rs[..k + 1][1..] == rest[..k];
    LastApiAppend(first, AllOps(rest[..k]), xferTable, id, v);
    LastApiNone(xferTable, id, v);
    if k == 0 {
      assert rest[..0] == [] && first + [] == first;
    } else {
      FirstFailingApi(rest, k - 1, xferTable, id, LastApi(first, xferTable, id, v));
    }
  }

  /** If none fails, all of them register and the status is pass. */
  lemma {:induction false} NoFailingApi(rs: seq<IpRecord>, xferTable: bool, id: nat, v: uint64)
    requires forall r :: r in rs ==> !ApiFails(r)
    ensures ApiStatus(rs) == SilPass
    ensures ApiAfter(rs, xferTable, id, v) == LastApi(AllOps(rs), xferTable, id, v)
    decreases |rs|
  {
    hide LastApi, Ops;
    LastApiNone(xferTable, id, v);
    if rs != [] {
      var rest, first := rs[1..], if rs[0].apiInit.Some? then Ops(rs[0].apiInit.value.apis) else [];
      assert rs[0] in rs;
      LastApiAppend(first, AllOps(rest), xferTable, id, v);
      NoFailingApi(rest, xferTable, id, LastApi(first, xferTable, id, v));
    }
  }

  lemma LastApiNone(xferTable: bool, id: nat, v: uint64)
    ensures LastApi([], xferTable, id, v) == v
  {
  }

  lemma {:induction false} LastApiAppend(ops: seq<Op>, more: seq<Op>, xferTable: bool, id: nat, v: uint64)
    ensures LastApi(ops + more, xferTable, id, v) == LastApi(more, xferTable, id, LastApi(ops, xferTable, id, v))
    decreases |ops|
  {
    if ops == [] {
      assert ops + more == more;
    } else {
      assert (ops + more)[1..] == ops[1..] + more;
      LastApiAppend(ops[1..], more, xferTable, id, if Registers(ops[0], xferTable, id) then ops[0].api else v);
    }
  }

  lemma OpsStep(apis: seq<Registration>, j: nat, xferTable: bool, id: nat, v: uint64)
    requires j < |apis|
    ensures var op := RegisterApi(apis[j].xferTable, apis[j].id, apis[j].api);
            LastApi(Ops(apis[j..]), xferTable, id, v)
            == LastApi(Ops(apis[j + 1..]), xferTable, id, if Registers(op, xferTable, id) then op.api else v)
  {
    assert apis[j..][1..] == apis[j + 1..];
    assert Ops(apis[j..])[1..] == Ops(apis[j + 1..]);
  }

  /** The creates of one SetInput function, up to the first that is refused. */
  function DoSetInput(a: Alloc, s: SetInput): (r: (Alloc, Status))
    decreases |s.creates|
  {
    if s.creates == [] then (a, s.status)
    else if a.left <= RequestSize(s.creates[0].dataSize) then (a, SilAborted)
    else DoSetInput(Create(a, s.creates[0]), SetInput(s.creates[1..], s.status))
  }

  /** The record loop of xSimAssignMemoryTp1. */
  function SetInputs(a: Alloc, rs: seq<IpRecord>): (r: (Alloc, Status))
    decreases |rs|
  {
    if rs == [] then (a, SilPass)
    else if rs[0].blkRequestSize == 0 then SetInputs(a, rs[1..])
    else if rs[0].blkRequestSize > a.left then (a, SilOutOfResources)
    else if rs[0].setInput.None? then SetInputs(a, rs[1..])
    else
      var (a', status) := DoSetInput(a, rs[0].setInput.value);
      if status != SilPass then (a', status) else SetInputs(a', rs[1..])
  }

  /** The first failure that a SetInput function itself reports. */
  function Reported(rs: seq<IpRecord>): (s: Status) {
    if rs == [] then SilPass
    else if rs[0].blkRequestSize > 0 && rs[0].setInput.Some? && rs[0].setInput.value.status != SilPass
    then rs[0].setInput.value.status
    else Reported(rs[1..])
  }

  /** The blocks a record asks for when the loop comes to it. */
  function Creates(r: IpRecord): (cs: seq<Request>) {
    if r.blkRequestSize > 0 && r.setInput.Some? then r.setInput.value.creates else []
  }

  /** What the records below k take. */
  function Before(rs: seq<IpRecord>, k: nat): (t: nat)
    requires k <= |rs|
  {
    if k == 0 then 0 else Before(rs, k - 1) + Total(Creates(rs[k - 1]))
  }

  /** When the loop comes to record k, its request passes the check and all its blocks are granted. */
  predicate FitsAt(left: nat, rs: seq<IpRecord>, k: nat)
    requires k < |rs|
  {
    rs[k].blkRequestSize > 0 ==>
      && Before(rs, k) + rs[k].blkRequestSize <= left
      && (Creates(rs[k]) != [] ==> Before(rs, k) + Total(Creates(rs[k])) < left)
  }

  predicate Fits(left: nat, rs: seq<IpRecord>) {
    forall k :: 0 <= k < |rs| ==> FitsAt(left, rs, k)
  }

  predicate AllSizesFit(rs: seq<IpRecord>) {
    forall r :: r in rs ==> SizesFit(Creates(r))
  }

  lemma {:induction false} CreateAllFirst(a: Alloc, c: Request, cs: seq<Request>)
    ensures CreateAll(a, [c] + cs) == CreateAll(Create(a, c), cs)
    ensures AllGranted(a, [c] + cs) <==> a.left > RequestSize(c.dataSize) && AllGranted(Create(a, c), cs)
    decreases |cs|
  {
    hide RequestSize, Create;
    var all := [c] + cs;
    if cs == [] {
      assert all[..|all| - 1] == [];
    } else {
      assert all[..|all| - 1] == [c] + cs[..|cs| - 1];
      CreateAllFirst(a, c, cs[..|cs| - 1]);
    }
  }

  /** A SetInput function ends with its own status if all its creates are granted, else aborted. */
  lemma {:induction false} SetInputIff(a: Alloc, s: SetInput)
    ensures if AllGranted(a, s.creates) then DoSetInput(a, s) == (CreateAll(a, s.creates), s.status)
            else DoSetInput(a, s).1 == SilAborted
    decreases |s.creates|
  {
    hide RequestSize, Create;
    if s.creates != [] {
      var c, rest := s.creates[0], s.creates[1..];
      assert s.creates == [c] + rest;
      CreateAllFirst(a, c, rest);
      SetInputIff(Create(a, c), SetInput(rest, s.status));
    }
  }

  /** Behind the first record the loop has what that record leaves. */
  lemma {:induction false} BeforeTail(rs: seq<IpRecord>, k: nat)
    requires rs != [] && k < |rs|
    ensures Before(rs, k + 1) == Total(Creates(rs[0])) + Before(rs[1..], k)
  {
    hide Total, Creates;
    if k > 0 {
      BeforeTail(rs, k - 1);
    }
  }

  lemma FitsAtTail(left: nat, rs: seq<IpRecord>, k: nat)
    requires k + 1 < |rs| && Total(Creates(rs[0])) <= left
    ensures FitsAt(left, rs, k + 1) == FitsAt(left - Total(Creates(rs[0])), rs[1..], k)
  {
    hide Total, Creates, Before;
    BeforeTail(rs, k);
  }

  lemma FitsTail(left: nat, rs: seq<IpRecord>)
    requires rs != [] && FitsAt(left, rs, 0) && Total(Creates(rs[0])) <= left
    ensures Fits(left, rs) <==> Fits(left - Total(Creates(rs[0])), rs[1..])
  {
    hide FitsAt, Total, Creates;
    var rest, tail := left - Total(Creates(rs[0])), rs[1..];
    if Fits(rest, tail) {
      forall k | 0 <= k < |rs|
        ensures FitsAt(left, rs, k)
      {
        if k > 0 {
          FitsAtTail(left, rs, k - 1);
        }
      }
    }
    if Fits(left, rs) {
      forall k | 0 <= k < |tail|
        ensures FitsAt(rest, tail, k)
      {
        FitsAtTail(left, rs, k);
      }
    }
  }

  /** One record of the loop: the check and the creates, in terms of sizes. */
  lemma RecordStep(a: Alloc, rs: seq<IpRecord>)
    requires rs != [] && SizesFit(Creates(rs[0]))
    ensures FitsAt(a.left, rs, 0) <==>
            (rs[0].blkRequestSize > 0 ==> rs[0].blkRequestSize <= a.left) && AllGranted(a, Creates(rs[0]))
    ensures AllGranted(a, Creates(rs[0])) ==>
            Total(Creates(rs[0])) <= a.left && CreateAll(a, Creates(rs[0])).left == a.left - Total(Creates(rs[0]))
  {
    hide Total, RequestSize, AllGranted, CreateAll;
    AllGrantedIff(a, Creates(rs[0]));
    NoCreates(a);
  }

  lemma NoCreates(a: Alloc)
    ensures AllGranted(a, []) && Total([]) == 0 && CreateAll(a, []) == a
  {
  }

  /** With enough room for every record in turn, timepoint 1 returns what the IPs report themselves. */
  lemma {:induction false} Tp1Reports(a: Alloc, rs: seq<IpRecord>)
    requires AllSizesFit(rs) && Fits(a.left, rs)
    ensures SetInputs(a, rs).1 == Reported(rs)
    decreases |rs|
  {
    hide Total, RequestSize, AllGranted, CreateAll, DoSetInput, Before, FitsAt;
    if rs != [] {
      var cs := Creates(rs[0]);
      assert rs[0] in rs && FitsAt(a.left, rs, 0);
      RecordStep(a, rs);
      FitsTail(a.left, rs);
      NoCreates(a);
      if rs[0].setInput.Some? {
        SetInputIff(a, rs[0].setInput.value);
      }
      Tp1Reports(CreateAll(a, cs), rs[1..]);
    }
  }

  /** Timepoint 1 passes if and only if every IP reports success and there is room for every record
      in turn: its request when the loop comes to it, and strictly more than all its blocks. */
  lemma {:induction false} Tp1PassesIff(a: Alloc, rs: seq<IpRecord>)
    requires AllSizesFit(rs)
    ensures SetInputs(a, rs).1 == SilPass <==> Reported(rs) == SilPass && Fits(a.left, rs)
    decreases |rs|
  {
    hide Total, RequestSize, AllGranted, CreateAll, DoSetInput, Before, FitsAt;
    if rs != [] {
      var cs := Creates(rs[0]);
      assert rs[0] in rs;
      RecordStep(a, rs);
      NoCreates(a);
      if rs[0].setInput.Some? {
        SetInputIff(a, rs[0].setInput.value);
      }
      if FitsAt(a.left, rs, 0) {
        FitsTail(a.left, rs);
        Tp1PassesIff(CreateAll(a, cs), rs[1..]);
      }
    }
  }

  /** There is room if the memory exceeds the query's sum and each record's blocks take no more than
      its rounded request. */
  lemma BudgetFits(left: nat, rs: seq<IpRecord>)
    requires left > Budget(rs) && forall r :: r in rs ==> Total(Creates(r)) <= BlockBudget(r)
    ensures Fits(left, rs)
  {
    hide Total, Creates, BlockBudget, Budget;
    forall k | 0 <= k < |rs|
      ensures FitsAt(left, rs, k)
    {
      BeforeBudget(rs, k);
      BudgetSnoc(rs, k);
      BudgetPrefix(rs, k + 1);
      BudgetAboveRequest(rs[k]);
      assert rs[k] in rs;
    }
  }

  /** So with the queried size timepoint 1 returns what the IPs report, if each record's blocks take no
      more than its rounded request. */
  lemma Tp1Suffices(a: Alloc, rs: seq<IpRecord>)
    requires a.left == RoundUp(VARS_SIZE + Budget(rs), 2048) - VARS_SIZE
    requires AllSizesFit(rs) && forall r :: r in rs ==> Total(Creates(r)) <= BlockBudget(r)
    ensures SetInputs(a, rs).1 == Reported(rs)
  {
    hide Total, Creates, BlockBudget, Budget, RoundUp, SetInputs, Fits;
    RoundUpBounds(VARS_SIZE + Budget(rs), 2048);
    BudgetFits(a.left, rs);
    Tp1Reports(a, rs);
  }

  lemma {:induction false} BeforeBudget(rs: seq<IpRecord>, k: nat)
    requires k <= |rs| && forall r :: r in rs ==> Total(Creates(r)) <= BlockBudget(r)
    ensures Before(rs, k) <= Budget(rs[..k])
  {
    hide Total, Creates, BlockBudget, Budget;
    if k > 0 {
      BeforeBudget(rs, k - 1);
      BudgetSnoc(rs, k - 1);
      assert rs[k - 1] in rs;
    }
  }

  lemma {:induction false} BudgetPrefix(rs: seq<IpRecord>, k: nat)
    requires k <= |rs|
    ensures Budget(rs[..k]) <= Budget(rs)
    decreases |rs| - k
  {
    hide BlockBudget, Budget;
    if k == |rs| {
      assert rs[..k] == rs;
    } else {
      BudgetSnoc(rs, k);
      BudgetPrefix(rs, k + 1);
    }
  }

  const OWN_BLOCK := Request(1, 1572, 0, 0, 0)
  const XMP_INPUT := Request(2, 24, 0, 0, 0)
  const XMP_PRIVATE := Request(2, 16, 1, 0, 0)

  /** A record with a block of its own, and the one of the example IP of the repository, which
      announces 48 bytes and creates a block of 24 and one of 16. */
  const OWN := IpRecord(1572, Some(SetInput([OWN_BLOCK], SilPass)), None)
  const XMP := IpRecord(48, Some(SetInput([XMP_INPUT, XMP_PRIVATE], SilPass)), None)

  lemma XmpSizes()
    ensures RequestSize(1572) == 1588 && RequestSize(24) == 40 && RequestSize(16) == 32
    ensures BlockBudget(OWN) == 1588 && BlockBudget(XMP) == 64 && RoundUp(VARS_SIZE + 1652, 2048) == 2048
  {
  }

  lemma XmpCreates()
    ensures Creates(OWN) == [OWN_BLOCK] && Creates(XMP) == [XMP_INPUT, XMP_PRIVATE]
    ensures Total(Creates(OWN)) == 1588 && Total(Creates(XMP)) == 72
    ensures SizesFit(Creates(OWN)) && SizesFit(Creates(XMP))
  {
    XmpSizes();
    hide RequestSize, Total;
    TotalOfOne(OWN_BLOCK);
    TotalOfTwo(XMP_INPUT, XMP_PRIVATE);
  }

  /** Each block has its own header, so together they exceed the rounded request. With the queried size
      timepoint 1 is then aborted. */
  lemma XmpExample()
    ensures var a := Alloc([], VARS_SIZE, RoundUp(VARS_SIZE + Budget([OWN, XMP]), 2048) - VARS_SIZE);
            && Total(Creates(XMP)) > BlockBudget(XMP)
            && SetInputs(a, [OWN, XMP]).1 == SilAborted
  {
    BudgetOfTwo(OWN, XMP);
    XmpSizes();
    XmpCreates();
    hide RequestSize, RoundUp, Budget, BlockBudget, SetInputs, Total, Creates, SizesFit;
    SecondAborted(Alloc([], VARS_SIZE, RoundUp(VARS_SIZE + Budget([OWN, XMP]), 2048) - VARS_SIZE), OWN, XMP);
  }

  /** The blocks of the first record are granted, those of the second are not. */
  lemma SecondAborted(a: Alloc, r: IpRecord, r': IpRecord)
    requires r.setInput.Some? && r'.setInput.Some? && r.setInput.value.status == SilPass
    requires 0 < r.blkRequestSize <= a.left && SizesFit(Creates(r)) && SizesFit(Creates(r')) && Creates(r') != []
    requires Total(Creates(r)) < a.left <= Total(Creates(r)) + Total(Creates(r'))
    requires 0 < r'.blkRequestSize <= a.left - Total(Creates(r))
    ensures SetInputs(a, [r, r']).1 == SilAborted
  {
    hide DoSetInput, AllGranted, Total, CreateAll;
    var b := CreateAll(a, Creates(r));
    AllGrantedIff(a, Creates(r));
    SetInputIff(a, r.setInput.value);
    AllGrantedIff(b, Creates(r'));
    SetInputIff(b, r'.setInput.value);
    assert [r, r'][1..] == [r'];
  }

  lemma TotalOfOne(c: Request)
    ensures Total([c]) == RequestSize(c.dataSize)
  {
    hide RequestSize;
    assert [c][..0] == [];
  }

  lemma TotalOfTwo(c: Request, c': Request)
    ensures Total([c, c']) == RequestSize(c.dataSize) + RequestSize(c'.dataSize)
  {
    hide RequestSize;
    assert [c, c'][..1] == [c] && [c][..0] == [];
    assert Total([c]) == Total([]) + RequestSize(c.dataSize);
  }

  /** An IP that creates another record's block before that record is checked makes timepoint 1
      run out of resources although every block fits. */
  lemma ForeignBlockExample()
    ensures var small, large := Request(1, 1, 0, 0, 0), Request(2, 4000, 0, 0, 0);
            var rs := [IpRecord(1, Some(SetInput([small, large], SilPass)), None), IpRecord(4000, None, None)];
            var a := Alloc([], VARS_SIZE, RoundUp(VARS_SIZE + Budget(rs), 2048) - VARS_SIZE);
            AllGranted(a, [small, large]) && SetInputs(a, rs).1 == SilOutOfResources
  {
    var small, large := Request(1, 1, 0, 0, 0), Request(2, 4000, 0, 0, 0);
    var s := SetInput([small, large], SilPass);
    var rs := [IpRecord(1, Some(s), None), IpRecord(4000, None, None)];
    hide RequestSize, RoundUp, Budget, AllGranted, Create, DoSetInput;
    ForeignSizes(rs[0], rs[1]);
    var a := Alloc([], VARS_SIZE, RoundUp(VARS_SIZE + Budget(rs), 2048) - VARS_SIZE);
    TwoCreates(a, small, large);
    assert rs[1..] == [rs[1]];
  }

  lemma ForeignSizes(r: IpRecord, r': IpRecord)
    requires r.blkRequestSize == 1 && r'.blkRequestSize == 4000
    ensures RoundUp(VARS_SIZE + Budget([r, r']), 2048) - VARS_SIZE == 5752
    ensures RequestSize(1) == 16 && RequestSize(4000) == 4016
  {
    BudgetOfTwo(r, r');
    hide Budget;
  }

  lemma BudgetOfTwo(r: IpRecord, r': IpRecord)
    ensures Budget([r, r']) == BlockBudget(r) + BlockBudget(r')
  {
    hide BlockBudget;
    assert [r, r'][1..] == [r'] && [r'][1..] == [];
    assert Budget([r']) == BlockBudget(r') + Budget([]);
  }

  lemma TwoCreates(a: Alloc, c: Request, c': Request)
    requires a.left > RequestSize(c.dataSize) + RequestSize(c'.dataSize)
    ensures AllGranted(a, [c, c'])
    ensures DoSetInput(a, SetInput([c, c'], SilPass)) == (Create(Create(a, c), c'), SilPass)
    ensures Create(Create(a, c), c').left == a.left - RequestSize(c.dataSize) - RequestSize(c'.dataSize)
  {
    hide RequestSize;
    assert [c, c'][1..] == [c'] && [c'][1..] == [];
    assert [c, c'][..1] == [c] && [c][..0] == [];
    assert CreateAll(a, [c]) == Create(CreateAll(a, []), c);
    assert AllGranted(a, [c]);
    assert DoSetInput(Create(a, c), SetInput([c'], SilPass))
        == DoSetInput(Create(Create(a, c), c'), SetInput([], SilPass));
  }
}
