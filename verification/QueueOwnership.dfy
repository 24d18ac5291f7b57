/**
  Who may change which queue contexts: what every sequence of SR-IOV changes and mailbox requests,
  with any contents from any function, keeps.
*/
module QueueOwnership {
  import opened Arith
  import opened Wrappers
  import opened Messages
  import opened QueueContexts
  import opened PfDriver

  // ---------------------------------------------------------------------------------------------
  // The table invariant over every run
  // ---------------------------------------------------------------------------------------------

  /** The PF's own range, as onic_init_hardware assigns it. */
  predicate OwnRange(pf: Pf) {
    pf.qbase % PF_STRIDE == 0 && pf.qbase <= 7 * PF_STRIDE && pf.numQueues <= PF_STRIDE
  }

  /** Entry i is blank or holds the i-th range; the function map never shows more than the table. */
  predicate EntryOk(pf: Pf, i: nat)
    requires i < |pf.res|
  {
    var r := pf.res[i];
    && (r == NoVf() || (r.enabled && r.funcId == VfFunc(i) && r.qbase == VfBase(pf, i) && r.qmax == QUEUES_PER_VF))
    && (VfFunc(i) in pf.fmap ==> r.enabled && pf.fmap[VfFunc(i)] == (r.qbase, r.qmax))
  }

  ghost predicate Inv(pf: Pf) {
    && |pf.res| == MAX_VFS && pf.numVfs <= MAX_VFS && OwnRange(pf)
    && forall i: nat :: i < MAX_VFS ==> EntryOk(pf, i)
  }

  /** A freshly probed PF: no VF, no context, nothing in the function map. */
  lemma FreshInv(qbase: u16, numQueues: u16)
    requires OwnRange(Pf(qbase, numQueues, seq(MAX_VFS, _ => NoVf()), 0, map[], map[]))
    ensures Inv(Pf(qbase, numQueues, seq(MAX_VFS, _ => NoVf()), 0, map[], map[]))
  {
    var pf := Pf(qbase, numQueues, seq(MAX_VFS, _ => NoVf()), 0, map[], map[]);
    forall i: nat | i < MAX_VFS ensures EntryOk(pf, i) {
    }
  }

  datatype Event =
    | Mbox(func: u16, req: Msg, failAt: nat)
    | Sriov(num: int, env: SriovEnv)

  function Step(pf: PfState, e: Event): PfState {
    match e
    case Mbox(func, req, failAt) => Handle(pf, func, req, failAt)
    case Sriov(num, env) => SriovConfigure(pf, num, env).0
  }

  lemma FreeOneKeeps(pf: Pf, i: nat)
    requires Inv(pf) && i < MAX_VFS
    ensures Inv(OneVfFreed(pf, i))
  {
    var pf' := OneVfFreed(pf, i);
    assert EntryOk(pf, i);
    forall j: nat | j < MAX_VFS ensures EntryOk(pf', j) {
      assert EntryOk(pf, j);
    }
  }

  lemma {:induction false} FreeKeeps(pf: Pf, count: nat)
    requires Inv(pf) && count <= MAX_VFS
    ensures Inv(VfsFreed(pf, count))
  {
    if count > 0 {
      FreeKeeps(pf, count - 1);
      FreeOneKeeps(VfsFreed(pf, count - 1), count - 1);
    }
  }

  lemma ConfigOneKeeps(pf: Pf, i: nat, mac: (u32, u32))
    requires Inv(pf) && i < MAX_VFS
    ensures Inv(OneVfConfigured(pf, i, mac))
  {
    var pf' := OneVfConfigured(pf, i, mac);
    forall j: nat | j < MAX_VFS ensures EntryOk(pf', j) {
      assert EntryOk(pf, j);
    }
  }

  lemma {:induction false} ConfigKeeps(pf: Pf, count: nat, macs: Macs)
    requires Inv(pf) && count <= MAX_VFS
    ensures Inv(VfsConfigured(pf, count, macs))
  {
    if count > 0 {
      ConfigKeeps(pf, count - 1, macs);
      ConfigOneKeeps(VfsConfigured(pf, count - 1, macs), count - 1, macs[count - 1]);
    }
  }

  lemma UnmapKeeps(pf: Pf, i: nat)
    requires Inv(pf)
    ensures Inv(pf.(fmap := pf.fmap - {VfFunc(i)}))
  {
    var pf' := pf.(fmap := pf.fmap - {VfFunc(i)});
    forall j: nat | j < MAX_VFS ensures EntryOk(pf', j) {
      assert EntryOk(pf, j);
    }
  }

  /** Only numVfs or contexts differ. */
  lemma SameTableKeeps(pf: Pf, pf': Pf)
    requires Inv(pf) && pf' == pf.(numVfs := pf'.numVfs, contexts := pf'.contexts) && pf'.numVfs <= MAX_VFS
    ensures Inv(pf')
  {
    forall j: nat | j < MAX_VFS ensures EntryOk(pf', j) {
      assert EntryOk(pf, j);
    }
  }

  lemma FreeVfsKeeps(pf: Pf, num: nat)
    requires Inv(pf)
    ensures Inv(FreeVfs(pf, num))
  {
    var n := if num < MAX_VFS then num else MAX_VFS;
    FreeKeeps(pf, n);
    SameTableKeeps(VfsFreed(pf, n), FreeVfs(pf, num));
  }

  lemma ConfigVfsKeeps(pf: Pf, num: nat, failAt: nat, macs: Macs)
    requires Inv(pf) && num <= MAX_VFS
    ensures Inv(ConfigVfs(pf, num, failAt, macs).0)
  {
    if failAt < num {
      ConfigKeeps(pf, failAt, macs);
      var pf1 := VfsConfigured(pf, failAt, macs);
      UnmapKeeps(pf1, failAt);
      FreeVfsKeeps(pf1.(fmap := pf1.fmap - {VfFunc(failAt)}), failAt);
    } else {
      ConfigKeeps(pf, num, macs);
      var pf1 := VfsConfigured(pf, num, macs);
      SameTableKeeps(pf1, pf1.(numVfs := num));
    }
  }

  lemma StepKeepsInv(pf: Pf, e: Event)
    requires Inv(pf)
    ensures Inv(Step(pf, e))
  {
    match e
    case Mbox(func, req, failAt) => SameTableKeeps(pf, Handle(pf, func, req, failAt));
    case Sriov(num, env) =>
      if num == 0 {
        FreeVfsKeeps(pf, env.pciNumVf);
      } else if env.master && 0 < num <= MAX_VFS {
        ConfigVfsKeeps(pf, num, env.failAt, env.macs);
        FreeVfsKeeps(ConfigVfs(pf, num, env.failAt, env.macs).0, num);
      }
  }

  ghost function Run(pf: Pf, es: seq<Event>): (pf': Pf)
    requires Inv(pf)
    ensures Inv(pf')
    decreases |es|
  {
    if es == [] then pf
    else
      StepKeepsInv(pf, es[0]);
      Run(Step(pf, es[0]), es[1..])
  }

  // ---------------------------------------------------------------------------------------------
  // Ranges
  // ---------------------------------------------------------------------------------------------

  predicate InVfRange(pf: Pf, i: nat, g: u16) {
    VfBase(pf, i) <= g < VfBase(pf, i) + QUEUES_PER_VF
  }

  predicate InOwnRange(pf: Pf, g: u16) {
    pf.qbase <= g < pf.qbase + pf.numQueues
  }

  /** The queues function `func` owns right now. */
  predicate Owns(pf: Pf, func: u16, g: u16)
    requires pf.numVfs <= |pf.res|
  {
    var r := Find(pf, func);
    r.Some? && r.value.qbase <= g < r.value.qbase + r.value.qmax
  }

  lemma VfBaseIs(pf: Pf, i: nat)
    requires OwnRange(pf) && i < MAX_VFS
    ensures VfBase(pf, i) == pf.qbase + pf.numQueues + QUEUES_PER_VF * i
  {
  }

  /** The lookup the requests go through finds entry i for function 4 + i and nothing for others. */
  lemma FindIsEntry(pf: Pf, func: u16)
    requires Inv(pf)
    ensures Find(pf, func).Some? ==> FIRST_VF_FUNC <= func < FIRST_VF_FUNC + pf.numVfs
    ensures FIRST_VF_FUNC <= func < FIRST_VF_FUNC + pf.numVfs ==>
              Find(pf, func) == if pf.res[func - FIRST_VF_FUNC].enabled then Some(pf.res[func - FIRST_VF_FUNC]) else None
  {
    if Find(pf, func).Some? {
      var k: nat :| k < pf.numVfs && pf.res[k].enabled && pf.res[k].funcId == func;
      assert EntryOk(pf, k);
    }
    if FIRST_VF_FUNC <= func < FIRST_VF_FUNC + pf.numVfs {
      var i := func - FIRST_VF_FUNC;
      assert EntryOk(pf, i);
      assert pf.res[i].enabled ==> Find(pf, func).Some?;
      if Find(pf, func).Some? {
        var r := Find(pf, func).value;
        var k :| 0 <= k < |pf.res| && pf.res[k] == r;
        assert EntryOk(pf, k);
      }
    }
  }

  /** Two functions never own the same queue, and no VF owns one of the PF's queues. */
  lemma OwnersAreUnique(pf: Pf, func: u16, func': u16, g: u16)
    requires Inv(pf) && Owns(pf, func, g)
    ensures !InOwnRange(pf, g)
    ensures Owns(pf, func', g) ==> func' == func
  {
    FindIsEntry(pf, func);
    FindIsEntry(pf, func');
    var i := func - FIRST_VF_FUNC;
    assert EntryOk(pf, i);
    VfBaseIs(pf, i);
    if Owns(pf, func', g) {
      var j := func' - FIRST_VF_FUNC;
      assert EntryOk(pf, j);
      VfBaseIs(pf, j);
    }
  }

  /**
    The ranges of the first v VFs run into the next PF's range exactly when the stride of 64 is too
    small for the PF's own queues and theirs together.
  */
  lemma ReachesNextPf(pf: Pf, v: nat, nextQueues: nat)
    requires OwnRange(pf) && 1 <= v <= MAX_VFS && nextQueues >= 1
    ensures (exists i: nat, g: u16 :: i < v && InVfRange(pf, i, g)
               && pf.qbase + PF_STRIDE <= g < pf.qbase + PF_STRIDE + nextQueues)
            <==> pf.numQueues + QUEUES_PER_VF * v > PF_STRIDE
  {
    forall i: nat | i < v ensures VfBase(pf, i) == pf.qbase + pf.numQueues + QUEUES_PER_VF * i {
      VfBaseIs(pf, i);
    }
    if pf.numQueues + QUEUES_PER_VF * v > PF_STRIDE {
      // the VF queue that is the next PF's first one
      var g: u16 := pf.qbase + PF_STRIDE;
      var i: nat := (PF_STRIDE - pf.numQueues) / QUEUES_PER_VF;
      assert i < v && InVfRange(pf, i, g);
    }
  }

  /** A PF with 64 queues of its own: the first VF it enables is given the next PF's first queue. */
  lemma FullPfOverlapsNext(env: SriovEnv)
    requires env.master && env.failAt >= 1 && env.enableOk
    ensures var pf := Pf(0, 64, seq(MAX_VFS, _ => NoVf()), 0, map[], map[]);
            var (pf', failed) := SriovConfigure(pf, 1, env);
            && OwnRange(pf) && !failed && pf'.res[0].enabled
            && pf'.res[0].qbase == PF_STRIDE && Owns(pf', VfFunc(0), PF_STRIDE)
  {
    var pf := Pf(0, 64, seq(MAX_VFS, _ => NoVf()), 0, map[], map[]);
    var pf' := SriovConfigure(pf, 1, env).0;
    FreshInv(0, 64);
    StepKeepsInv(pf, Sriov(1, env));
    ConfiguredTable(pf, 1, env.macs);
    VfBaseIs(pf, 0);
    FindIsEntry(pf', VfFunc(0));
  }

  // ---------------------------------------------------------------------------------------------
  // What one request may change
  // ---------------------------------------------------------------------------------------------

  /** Context k is the same in both tables. */
  predicate Same(c: Contexts, c': Contexts, k: Key) {
    (k in c <==> k in c') && (k in c ==> c'[k] == c[k])
  }

  /** The queue an action writes. */
  function Target(a: Action): Option<(u16, Dir)> {
    match a
    case InstallTx(g, _, _) => Some((g, Tx))
    case InstallRx(g, _, _) => Some((g, Rx))
    case Remove(g, dir) => Some((g, dir))
    case Report(_) => None
  }

  lemma CheckedForm(pf: Pf, func: u16, req: Msg)
    requires pf.numVfs <= |pf.res|
    requires Check(pf, func, req).Success? && Target(Check(pf, func, req).value).Some?
    ensures var (g, dir) := Target(Check(pf, func, req).value).value;
            && Find(pf, func).Some? && QidOf(req.data) < Find(pf, func).value.qmax
            && g == RealQid(Find(pf, func).value.qbase, QidOf(req.data))
            && DirOf(req.data) == (if dir.Tx? then DIR_TX else DIR_RX)
  {
  }

  lemma RealQidInRange(qbase: u16, qid: nat)
    requires qbase + qid < 0x1_0000
    ensures RealQid(qbase, qid) == qbase + qid
  {
  }

  /** A request that passes the checks works on the sender's own queue `qid`, in its direction. */
  lemma CheckedTarget(pf: Pf, func: u16, req: Msg)
    requires Inv(pf) && Check(pf, func, req).Success? && Target(Check(pf, func, req).value).Some?
    ensures var (g, dir) := Target(Check(pf, func, req).value).value;
            && Owns(pf, func, g)
            && g == Find(pf, func).value.qbase + QidOf(req.data)
            && DirOf(req.data) == (if dir.Tx? then DIR_TX else DIR_RX)
  {
    CheckedForm(pf, func, req);
    FindIsEntry(pf, func);
    var i := func - FIRST_VF_FUNC;
    assert EntryOk(pf, i);
    VfBaseIs(pf, i);
    RealQidInRange(Find(pf, func).value.qbase, QidOf(req.data));
  }

  lemma PerformIsLocal(c: Contexts, a: Action, failAt: nat, k: Key)
    requires Target(a).Some? ==> k !in Keys(Target(a).value.0, Target(a).value.1)
    ensures Same(c, Perform(c, a, failAt), k)
  {
  }

  /** Whatever a request says and wherever it comes from, it changes only the sender's own queues. */
  lemma RequestStaysInRange(pf: Pf, func: u16, req: Msg, failAt: nat, k: Key)
    requires Inv(pf) && !Owns(pf, func, k.1)
    ensures Same(pf.contexts, Handle(pf, func, req, failAt).contexts, k)
    ensures Handle(pf, func, req, failAt) == pf.(contexts := Handle(pf, func, req, failAt).contexts)
  {
    var a := Check(pf, func, req);
    if a.Success? {
      if Target(a.value).Some? {
        CheckedTarget(pf, func, req);
      }
      PerformIsLocal(pf.contexts, a.value, failAt, k);
    }
  }

  // ---------------------------------------------------------------------------------------------
  // Which requests are let through, on the words of the message
  // ---------------------------------------------------------------------------------------------

  /** Two words that are a usable address: not zero, on a 64-byte boundary. */
  predicate UsableAddress(lo: u32, hi: u32) {
    lo % 64 == 0 && (lo != 0 || hi != 0)
  }

  /** The twelve words of a queue configuration a VF may send. */
  predicate GoodConfig(d: Payload) {
    && d[0] < 4 && d[1] <= 1 && d[2] < 4 && d[3] < 16 && d[7] == 0 && UsableAddress(d[8], d[9])
    && (d[1] == 1 ==> d[4] < 16 && d[5] < 16 && d[6] <= 3 && UsableAddress(d[10], d[11]))
  }

  predicate GoodRequest(req: Msg) {
    || (req.opcode == 1 && req.len == 0)
    || (req.opcode == 3 && req.len == 48 && GoodConfig(req.data))
    || (req.opcode == 5 && req.len == 8 && req.data[0] < 4 && req.data[1] <= 1)
  }

  /** Function `func` is a VF that is enabled right now. */
  predicate EnabledVf(pf: Pf, func: u16)
    requires |pf.res| == MAX_VFS && pf.numVfs <= MAX_VFS
  {
    4 <= func < 4 + pf.numVfs && pf.res[func - 4].enabled
  }

  lemma SenderFound(pf: Pf, func: u16)
    requires Inv(pf)
    ensures Find(pf, func).Some? <==> EnabledVf(pf, func)
    ensures EnabledVf(pf, func) ==> Find(pf, func) == Some(pf.res[func - 4])
    ensures EnabledVf(pf, func) ==>
              pf.res[func - 4].qmax == 4 && pf.res[func - 4].funcId == func && pf.res[func - 4].qbase == VfBase(pf, func - 4)
  {
    FindIsEntry(pf, func);
    if EnabledVf(pf, func) {
      assert EntryOk(pf, func - 4);
    }
  }

  lemma AddressUsable(lo: u32, hi: u32)
    ensures DmaAddr(lo, hi) != 0 && Aligned64(DmaAddr(lo, hi)) <==> UsableAddress(lo, hi)
  {
    assert hi * 0x1_0000_0000 == 64 * (hi * 0x400_0000);
  }

  lemma ConfigAdmitted(pf: Pf, func: u16, req: Msg)
    requires Inv(pf) && req.opcode == 3
    ensures Check(pf, func, req).Success? <==> EnabledVf(pf, func) && req.len == 48 && GoodConfig(req.data)
  {
    SenderFound(pf, func);
    AddressUsable(req.data[8], req.data[9]);
    AddressUsable(req.data[10], req.data[11]);
  }

  /**
    Exactly which of all possible messages pass the PF's checks: those of an enabled VF, of one of the
    three kinds, with the kind's length and every word in its range.
  */
  lemma AdmittedExactly(pf: Pf, func: u16, req: Msg)
    requires Inv(pf)
    ensures Check(pf, func, req).Success? <==> EnabledVf(pf, func) && GoodRequest(req)
  {
    SenderFound(pf, func);
    if req.opcode == 3 {
      ConfigAdmitted(pf, func, req);
    }
  }

  /** A clear of a VF's own queue passes the checks and is about that queue in its direction; of another it does not. */
  lemma ClearRequestPasses(pf: Pf, i: nat, qid: u32, dir: Dir, seqno: u32)
    requires Inv(pf) && i < pf.numVfs && pf.res[i].enabled
    ensures VfBase(pf, i) + 4 <= 0x1_0000
    ensures Check(pf, VfFunc(i), Request(Clear(qid, if dir.Tx? then 0 else 1), seqno))
            == if qid < 4 then Success(Remove(VfBase(pf, i) + qid, dir)) else Failure(ERANGE)
  {
    EntryFound(pf, i);
    VfBaseIs(pf, i);
    QidDirRoundTrip(qid, if dir.Tx? then 0 else 1);
    if qid < 4 {
      RealQidInRange(VfBase(pf, i), qid);
    }
  }

  /** After it the queue has no context left, all other contexts are as they were, and the VF is told so. */
  lemma ClearTakesEffect(pf: Pf, i: nat, qid: u32, dir: Dir, seqno: u32, failAt: nat, k: Key)
    requires Inv(pf) && i < pf.numVfs && pf.res[i].enabled && qid < 4
    ensures var cmd := Clear(qid, if dir.Tx? then 0 else 1);
            var req := Request(cmd, seqno);
            var c := Handle(pf, VfFunc(i), req, failAt).contexts;
            && Validate(cmd, seqno, Response(pf, VfFunc(i), req, failAt)).Accepted?
            && (k in Keys(VfBase(pf, i) + qid, dir) ==> k !in c)
            && (k !in Keys(VfBase(pf, i) + qid, dir) ==> Same(pf.contexts, c, k))
  {
    var cmd := Clear(qid, if dir.Tx? then 0 else 1);
    ClearRequestPasses(pf, i, qid, dir, seqno);
    AcceptedMeansDone(pf, VfFunc(i), cmd, seqno, failAt);
  }

  /** What a transmit queue's contexts are, word by word of the request that set it up. */
  lemma TxInstalledAsAsked(pf: Pf, i: nat, req: Msg, failAt: nat)
    requires Inv(pf) && i < pf.numVfs && pf.res[i].enabled && failAt >= 4
    requires req.opcode == 3 && req.len == 48 && GoodConfig(req.data) && req.data[1] == 0
    ensures VfBase(pf, i) + 4 <= 0x1_0000
    ensures var d := req.data;
            var g: u16 := VfBase(pf, i) + d[0];
            var desc: nat := d[9] as int * 0x1_0000_0000 + d[8];
            var c := Handle(pf, VfFunc(i), req, failAt).contexts;
            && (SwTx, g) in c && (HwTx, g) in c && (CrTx, g) in c
            && c[(SwTx, g)] == SwCtxt(VfFunc(i), desc, d[3], d[2], 1, false, true)
            && c[(HwTx, g)] == Zeroed && c[(CrTx, g)] == Zeroed
  {
    AdmittedExactly(pf, VfFunc(i), req);
    EntryFound(pf, i);
    VfBaseIs(pf, i);
    RealQidInRange(VfBase(pf, i), req.data[0]);
  }

  /** The same for a receive queue with its prefetch and completion contexts. */
  lemma RxInstalledAsAsked(pf: Pf, i: nat, req: Msg, failAt: nat)
    requires Inv(pf) && i < pf.numVfs && pf.res[i].enabled && failAt >= 8
    requires req.opcode == 3 && req.len == 48 && GoodConfig(req.data) && req.data[1] == 1
    ensures VfBase(pf, i) + 4 <= 0x1_0000
    ensures var d := req.data;
            var g: u16 := VfBase(pf, i) + d[0];
            var desc: nat := d[9] as int * 0x1_0000_0000 + d[8];
            var cmpl: nat := d[11] as int * 0x1_0000_0000 + d[10];
            var c := Handle(pf, VfFunc(i), req, failAt).contexts;
            && (SwRx, g) in c && (HwRx, g) in c && (CrRx, g) in c && (Pfch, g) in c && (CmplSel, g) in c
            && c[(SwRx, g)] == SwCtxt(VfFunc(i), desc, d[3], 0, 0, true, false)
            && c[(HwRx, g)] == Zeroed && c[(CrRx, g)] == Zeroed
            && c[(Pfch, g)] == PfchCtxt(d[4])
            && c[(CmplSel, g)] == CmplCtxt(VfFunc(i), cmpl, d[5], d[6], d[2], 5, 1)
  {
    AdmittedExactly(pf, VfFunc(i), req);
    EntryFound(pf, i);
    VfBaseIs(pf, i);
    RealQidInRange(VfBase(pf, i), req.data[0]);
  }

  /** A setup whose context commands did not all go through leaves the queue without any context. */
  lemma FailedSetupLeavesNone(pf: Pf, func: u16, req: Msg, failAt: nat, k: Key)
    requires Inv(pf) && EnabledVf(pf, func) && req.opcode == 3 && GoodRequest(req)
    requires failAt < if req.data[1] == 0 then 4 else 8
    ensures var g: int := VfBase(pf, func - 4) + req.data[0];
            var c := Handle(pf, func, req, failAt).contexts;
            && 0 <= g < 0x1_0000
            && (k in Keys(g, if req.data[1] == 0 then Tx else Rx) ==> k !in c)
            && (k !in Keys(g, if req.data[1] == 0 then Tx else Rx) ==> Same(pf.contexts, c, k))
  {
    AdmittedExactly(pf, func, req);
    SenderFound(pf, func);
    VfBaseIs(pf, func - 4);
    RealQidInRange(VfBase(pf, func - 4), req.data[0]);
  }

  /** Every message is answered with its own number and its reply's opcode, and with success exactly when it was carried out. */
  lemma EveryRequestIsAnswered(pf: Pf, func: u16, req: Msg, failAt: nat)
    requires Inv(pf)
    ensures var r := Response(pf, func, req, failAt);
            && r.seqno == req.seqno
            && r.opcode == (if req.opcode == 3 then 4 else if req.opcode == 5 then 6 else 2)
            && r.status == (if EnabledVf(pf, func) && GoodRequest(req)
                               && (req.opcode == 3 ==> failAt >= if req.data[1] == 0 then 4 else 8) then 0 else 1)
            && (req.opcode == 3 || req.opcode == 5 ==> r.len == 8 && r.data[0] == req.data[0] && r.data[1] == req.data[1])
            && (req.opcode != 3 && req.opcode != 5 ==> r.len == if r.status == 0 then 20 else 0)
    ensures !(EnabledVf(pf, func) && GoodRequest(req)) || req.opcode == 1 ==> Handle(pf, func, req, failAt) == pf
  {
    AdmittedExactly(pf, func, req);
  }

  // ---------------------------------------------------------------------------------------------
  // What the response means
  // ---------------------------------------------------------------------------------------------

  /**
    The VF accepts the PF's answer to its own request exactly when the request passed the checks and
    all its context commands went through. Otherwise the PF changed nothing or tore the queue down.
  */
  lemma AcceptedMeansDone(pf: Pf, func: u16, cmd: Command, seqno: u32, failAt: nat)
    requires Inv(pf)
    ensures var a := Check(pf, func, Request(cmd, seqno));
            Validate(cmd, seqno, Response(pf, func, Request(cmd, seqno), failAt)).Accepted?
            <==> a.Success? && Completes(a.value, failAt)
    ensures Response(pf, func, Request(cmd, seqno), failAt).status != STS_OK && !cmd.GetResources? ==>
              var c' := Handle(pf, func, Request(cmd, seqno), failAt).contexts;
              c' == pf.contexts || exists g: u16, dir: Dir :: Owns(pf, func, g) && c' == Removed(pf.contexts, g, dir)
  {
    var req := Request(cmd, seqno);
    var a := Check(pf, func, req);
    FindIsEntry(pf, func);
    if a.Success? {
      assert EntryOk(pf, func - FIRST_VF_FUNC);
      if Target(a.value).Some? {
        CheckedTarget(pf, func, req);
        var (g, dir) := Target(a.value).value;
        assert Owns(pf, func, g);
      }
    }
    match cmd {
      case GetResources =>
      case Configure(cfg) => CfgRoundTrip(cfg); QidDirRoundTrip(cfg.qid, cfg.dir);
      case Clear(qid, dir) => QidDirRoundTrip(qid, dir);
    }
  }

  /** The answer to a resource request is the sender's table entry. */
  lemma ResourcesReported(pf: Pf, i: nat, seqno: u32, failAt: nat)
    requires Inv(pf) && i < pf.numVfs && pf.res[i].enabled
    ensures var r := Response(pf, VfFunc(i), Request(GetResources, seqno), failAt);
            && Validate(GetResources, seqno, r).Accepted?
            && r.data[0] == VfFunc(i) && r.data[1] == VfBase(pf, i) && r.data[2] == QUEUES_PER_VF
            && (r.data[3], r.data[4]) == pf.res[i].mac
  {
    FindIsEntry(pf, VfFunc(i));
    assert EntryOk(pf, i);
  }

  /** onic_vf_main.c: as many queues as there are vectors, up to what the PF granted. */
  function ActiveQueues(numVectors: u16, qmax: u16): u16 {
    if numVectors < qmax then numVectors else qmax
  }

  lemma EntryFound(pf: Pf, i: nat)
    requires Inv(pf) && i < pf.numVfs && pf.res[i].enabled
    ensures Find(pf, VfFunc(i)) == Some(pf.res[i])
    ensures pf.res[i].qmax == QUEUES_PER_VF && pf.res[i].funcId == VfFunc(i) && pf.res[i].qbase == VfBase(pf, i)
  {
    FindIsEntry(pf, VfFunc(i));
    assert EntryOk(pf, i);
  }

  /** A well-formed transmit request of VF i, with its address given in one piece. */
  lemma TxChecked(pf: Pf, i: nat, cfg: QueueCfg, descDma: nat, seqno: u32)
    requires Inv(pf) && i < pf.numVfs && pf.res[i].enabled
    requires cfg.qid < QUEUES_PER_VF && cfg.vector < QUEUES_PER_VF && cfg.rngcntIdx < NUM_DESC_RNGCNT && cfg.reserved == 0
    requires cfg.dir == DIR_TX && DmaAddr(cfg.descDmaLo, cfg.descDmaHi) == descDma
    ensures Check(pf, VfFunc(i), Request(Configure(cfg), seqno))
            == if descDma != 0 && Aligned64(descDma)
               then Success(InstallTx(RealQid(VfBase(pf, i), cfg.qid), VfFunc(i), TxParam(cfg.rngcntIdx, descDma, cfg.vector)))
               else Failure(EINVAL)
  {
    CfgRoundTrip(cfg);
    EntryFound(pf, i);
  }

  /** A well-formed receive request of VF i, with its addresses given in one piece each. */
  lemma RxChecked(pf: Pf, i: nat, cfg: QueueCfg, descDma: nat, cmplDma: nat, seqno: u32)
    requires Inv(pf) && i < pf.numVfs && pf.res[i].enabled
    requires cfg.qid < QUEUES_PER_VF && cfg.vector < QUEUES_PER_VF && cfg.rngcntIdx < NUM_DESC_RNGCNT && cfg.reserved == 0
    requires cfg.bufszIdx < NUM_C2H_BUFSZ && cfg.cmplRngcntIdx < NUM_DESC_RNGCNT && cfg.cmplDescSz <= 3
    requires cfg.dir == DIR_RX && DmaAddr(cfg.descDmaLo, cfg.descDmaHi) == descDma
    requires DmaAddr(cfg.cmplDmaLo, cfg.cmplDmaHi) == cmplDma
    ensures Check(pf, VfFunc(i), Request(Configure(cfg), seqno))
            == if descDma != 0 && Aligned64(descDma) && cmplDma != 0 && Aligned64(cmplDma)
               then Success(InstallRx(RealQid(VfBase(pf, i), cfg.qid), VfFunc(i),
                                      RxParam(cfg.bufszIdx, cfg.rngcntIdx, cfg.cmplRngcntIdx, cfg.cmplDescSz,
                                              descDma, cmplDma, cfg.vector)))
               else Failure(EINVAL)
  {
    CfgRoundTrip(cfg);
    EntryFound(pf, i);
  }

  /** Every transmit request the VF builds passes the PF's checks, address and all. */
  lemma TxRequestPasses(pf: Pf, i: nat, vectors: u16, qid: u16, vid: u16, descDma: u64, seqno: u32)
    requires Inv(pf) && i < pf.numVfs && pf.res[i].enabled
    requires qid < ActiveQueues(vectors, pf.res[i].qmax) && vid < ActiveQueues(vectors, pf.res[i].qmax)
    ensures Check(pf, VfFunc(i), Request(Configure(TxRequest(qid, vid, descDma)), seqno))
            == if descDma != 0 && Aligned64(descDma)
               then Success(InstallTx(RealQid(VfBase(pf, i), qid), VfFunc(i), TxParam(TX_RNGCNT_IDX, descDma, vid)))
               else Failure(EINVAL)
  {
    DmaAddrRoundTrip(descDma);
    EntryFound(pf, i);
    TxChecked(pf, i, TxRequest(qid, vid, descDma), descDma, seqno);
  }

  /** Every receive request the VF builds passes the PF's checks, both addresses and all. */
  lemma RxRequestPasses(pf: Pf, i: nat, vectors: u16, qid: u16, vid: u16, descDma: u64, cmplDma: u64, seqno: u32)
    requires Inv(pf) && i < pf.numVfs && pf.res[i].enabled
    requires qid < ActiveQueues(vectors, pf.res[i].qmax) && vid < ActiveQueues(vectors, pf.res[i].qmax)
    ensures Check(pf, VfFunc(i), Request(Configure(RxRequest(qid, vid, descDma, cmplDma)), seqno))
            == if descDma != 0 && Aligned64(descDma) && cmplDma != 0 && Aligned64(cmplDma)
               then Success(InstallRx(RealQid(VfBase(pf, i), qid), VfFunc(i),
                                      RxParam(RX_BUFSZ_IDX, RX_DESC_RNGCNT_IDX, RX_CMPL_RNGCNT_IDX, RX_CMPL_DESC_SZ,
                                              descDma, cmplDma, vid)))
               else Failure(EINVAL)
  {
    DmaAddrRoundTrip(descDma);
    DmaAddrRoundTrip(cmplDma);
    EntryFound(pf, i);
    RxChecked(pf, i, RxRequest(qid, vid, descDma, cmplDma), descDma, cmplDma, seqno);
  }

  /** So the queue a VF sets up for transmission has the VF's function, address and vector in its context. */
  lemma TxSetupInstalls(pf: Pf, i: nat, vectors: u16, qid: u16, vid: u16, descDma: u64, seqno: u32)
    requires Inv(pf) && i < pf.numVfs && pf.res[i].enabled
    requires qid < ActiveQueues(vectors, pf.res[i].qmax) && vid < ActiveQueues(vectors, pf.res[i].qmax)
    requires descDma != 0 && descDma % 64 == 0
    ensures var c := Handle(pf, VfFunc(i), Request(Configure(TxRequest(qid, vid, descDma)), seqno), 4).contexts;
            && VfBase(pf, i) + qid < 0x1_0000
            && (SwTx, VfBase(pf, i) + qid) in c
            && c[(SwTx, VfBase(pf, i) + qid)] == SwCtxt(VfFunc(i), descDma, 0, vid, 1, false, true)
  {
    TxRequestPasses(pf, i, vectors, qid, vid, descDma, seqno);
    EntryFound(pf, i);
    VfBaseIs(pf, i);
    RealQidInRange(VfBase(pf, i), qid);
  }

  /** And one for reception both addresses, the vector, and the settings the driver uses for every queue. */
  lemma RxSetupInstalls(pf: Pf, i: nat, vectors: u16, qid: u16, vid: u16, descDma: u64, cmplDma: u64, seqno: u32)
    requires Inv(pf) && i < pf.numVfs && pf.res[i].enabled
    requires qid < ActiveQueues(vectors, pf.res[i].qmax) && vid < ActiveQueues(vectors, pf.res[i].qmax)
    requires descDma != 0 && descDma % 64 == 0 && cmplDma != 0 && cmplDma % 64 == 0
    ensures var c := Handle(pf, VfFunc(i), Request(Configure(RxRequest(qid, vid, descDma, cmplDma)), seqno), 8).contexts;
            && VfBase(pf, i) + qid < 0x1_0000
            && (SwRx, VfBase(pf, i) + qid) in c && (Pfch, VfBase(pf, i) + qid) in c && (CmplSel, VfBase(pf, i) + qid) in c
            && c[(SwRx, VfBase(pf, i) + qid)] == SwCtxt(VfFunc(i), descDma, 8, 0, 0, true, false)
            && c[(Pfch, VfBase(pf, i) + qid)] == PfchCtxt(4)
            && c[(CmplSel, VfBase(pf, i) + qid)] == CmplCtxt(VfFunc(i), cmplDma, 8, 0, vid, 5, 1)
  {
    RxRequestPasses(pf, i, vectors, qid, vid, descDma, cmplDma, seqno);
    EntryFound(pf, i);
    VfBaseIs(pf, i);
    RealQidInRange(VfBase(pf, i), qid);
  }

  // ---------------------------------------------------------------------------------------------
  // Freeing and enabling VFs
  // ---------------------------------------------------------------------------------------------

  /** Tearing down the queues of a range removes every context of the range and no other. */
  lemma {:induction false} QueuesClearedExactly(c: Contexts, qbase: u16, count: nat, k: Key)
    requires qbase + count <= 0x1_0000
    ensures k in QueuesCleared(c, qbase, count) <==> k in c && !(qbase <= k.1 < qbase + count)
    ensures k in QueuesCleared(c, qbase, count) ==> QueuesCleared(c, qbase, count)[k] == c[k]
  {
    if count > 0 {
      QueuesClearedExactly(c, qbase, count - 1, k);
      var g := RealQid(qbase, count - 1);
      assert g == qbase + count - 1;
      BothDirections(k, g);
    }
  }

  lemma BothDirections(k: Key, g: u16)
    ensures k in Keys(g, Tx) || k in Keys(g, Rx) <==> k.1 == g
  {
    var (sel, h) := k;
    match sel
    case SwTx | HwTx | CrTx => assert k in Keys(h, Tx);
    case SwRx | HwRx | CrRx | Pfch | CmplSel => assert k in Keys(h, Rx);
  }

  /** Which contexts freeing the first `count` VFs takes away. */
  predicate Released(pf: Pf, count: nat, g: u16)
    requires count <= |pf.res|
  {
    exists i: nat :: i < count && pf.res[i].enabled && InVfRange(pf, i, g)
  }

  lemma {:induction false} FreedExactly(pf: Pf, count: nat, k: Key)
    requires Inv(pf) && count <= MAX_VFS
    ensures var pf' := VfsFreed(pf, count);
            && pf' == pf.(res := pf'.res, contexts := pf'.contexts, fmap := pf'.fmap)
            && (forall j: nat :: j < MAX_VFS ==> pf'.res[j] == if j < count then NoVf() else pf.res[j])
            && (k in pf'.contexts <==> k in pf.contexts && !Released(pf, count, k.1))
            && (k in pf'.contexts ==> pf'.contexts[k] == pf.contexts[k])
  {
    if count > 0 {
      FreedExactly(pf, count - 1, k);
      var prev := VfsFreed(pf, count - 1);
      FreeKeeps(pf, count - 1);
      assert EntryOk(prev, count - 1);
      var r := prev.res[count - 1];
      assert r == pf.res[count - 1];
      VfBaseIs(pf, count - 1);
      if r.enabled {
        assert VfBase(prev, count - 1) == VfBase(pf, count - 1);
        QueuesClearedExactly(prev.contexts, r.qbase, r.qmax, k);
        if InVfRange(pf, count - 1, k.1) {
          assert Released(pf, count, k.1);
        }
      }
      if Released(pf, count - 1, k.1) {
        var i: nat :| i < count - 1 && pf.res[i].enabled && InVfRange(pf, i, k.1);
        assert Released(pf, count, k.1);
      }
    }
  }

  /** Freeing changes the function map only by dropping the entries of the VFs it frees. */
  lemma {:induction false} FreedMap(pf: Pf, count: nat, func: u16)
    requires Inv(pf) && count <= MAX_VFS
    ensures var pf' := VfsFreed(pf, count);
            && (func in pf'.fmap <==> func in pf.fmap && !(FIRST_VF_FUNC <= func < FIRST_VF_FUNC + count))
            && (func in pf'.fmap ==> pf'.fmap[func] == pf.fmap[func])
  {
    if count > 0 {
      FreedMap(pf, count - 1, func);
      FreedExactly(pf, count - 1, (SwTx, 0));
      var prev := VfsFreed(pf, count - 1);
      assert EntryOk(pf, count - 1);
      assert prev.res[count - 1] == pf.res[count - 1];
      FreeKeeps(pf, count - 1);
      assert EntryOk(prev, count - 1);
    }
  }

  /**
    Disabling SR-IOV blanks the entries and function-map entries of as many VFs as the PCI core
    counts, takes away every context in their ranges and no other, and makes every other entry
    unreachable.
  */
  lemma DisableReleasesExactly(pf: Pf, env: SriovEnv, k: Key, func: u16)
    requires Inv(pf) && !env.vfsAssigned
    ensures var n := if env.pciNumVf < MAX_VFS then env.pciNumVf else MAX_VFS;
            var (pf', failed) := SriovConfigure(pf, 0, env);
            && !failed && |pf'.res| == MAX_VFS && pf'.numVfs == 0 && Find(pf', func).None?
            && (forall i: nat :: i < MAX_VFS ==> pf'.res[i] == if i < n then NoVf() else pf.res[i])
            && (func in pf'.fmap <==> func in pf.fmap && !(FIRST_VF_FUNC <= func < FIRST_VF_FUNC + n))
            && (Released(pf, n, k.1) ==> k !in pf'.contexts)
            && (!Released(pf, n, k.1) ==> Same(pf.contexts, pf'.contexts, k))
  {
    var n := if env.pciNumVf < MAX_VFS then env.pciNumVf else MAX_VFS;
    FreedExactly(pf, n, k);
    FreedMap(pf, n, func);
  }

  ghost predicate NoneEnabled(pf: Pf)
    requires |pf.res| == MAX_VFS
  {
    forall i: nat :: i < MAX_VFS ==> pf.res[i] == NoVf()
  }

  lemma {:induction false} ConfiguredTable(pf: Pf, count: nat, macs: Macs)
    requires |pf.res| == MAX_VFS && count <= MAX_VFS
    ensures var pf' := VfsConfigured(pf, count, macs);
            && pf' == pf.(res := pf'.res, fmap := pf'.fmap)
            && forall j: nat :: j < MAX_VFS ==>
                 pf'.res[j] == if j < count then VfRes(true, VfFunc(j), VfBase(pf, j), QUEUES_PER_VF, macs[j]) else pf.res[j]
  {
    if count > 0 {
      ConfiguredTable(pf, count - 1, macs);
    }
  }

  lemma OneVfMap(pf: Pf, i: nat, mac: (u32, u32), func: u16)
    requires i < |pf.res| == MAX_VFS
    ensures var m := OneVfConfigured(pf, i, mac).fmap;
            if func == FIRST_VF_FUNC + i then func in m && m[func] == (VfBase(pf, i), QUEUES_PER_VF)
            else (func in m <==> func in pf.fmap) && (func in m ==> m[func] == pf.fmap[func])
  {
    assert VfFunc(i) == FIRST_VF_FUNC + i;
  }

  lemma {:induction false} ConfiguredMap(pf: Pf, count: nat, macs: Macs, func: u16)
    requires |pf.res| == MAX_VFS && count <= MAX_VFS
    ensures var pf' := VfsConfigured(pf, count, macs);
            if FIRST_VF_FUNC <= func < FIRST_VF_FUNC + count
            then func in pf'.fmap && pf'.fmap[func] == (VfBase(pf, func - FIRST_VF_FUNC), QUEUES_PER_VF)
            else (func in pf'.fmap <==> func in pf.fmap) && (func in pf'.fmap ==> pf'.fmap[func] == pf.fmap[func])
  {
    if count > 0 {
      ConfiguredMap(pf, count - 1, macs, func);
      OneVfMap(VfsConfigured(pf, count - 1, macs), count - 1, macs[count - 1], func);
    }
  }

  /** The function map says the same about one function. */
  predicate SameEntry(m: FuncMap, m': FuncMap, func: u16) {
    (func in m <==> func in m') && (func in m ==> m'[func] == m[func])
  }

  predicate InSomeVfRange(pf: Pf, g: u16) {
    exists i: nat :: i < MAX_VFS && InVfRange(pf, i, g)
  }

  /** The table and the function map are back; contexts can only have gone from VF ranges. */
  ghost predicate Undone(pf: Pf, pf': Pf, k: Key, func: u16) {
    && pf'.res == pf.res
    && SameEntry(pf.fmap, pf'.fmap, func)
    && (k in pf'.contexts ==> k in pf.contexts)
    && (!InSomeVfRange(pf, k.1) ==> Same(pf.contexts, pf'.contexts, k))
  }

  /** Exactly the first `num` VFs are enabled with their ranges, and no context changed. */
  ghost predicate Enabled(pf: Pf, pf': Pf, num: nat, macs: Macs)
    requires num <= |pf'.res| == MAX_VFS
  {
    && pf'.numVfs == num && pf'.contexts == pf.contexts
    && (forall i: nat :: i < num ==> pf'.res[i] == VfRes(true, VfFunc(i), VfBase(pf, i), QUEUES_PER_VF, macs[i]))
    && (forall i: nat :: num <= i < MAX_VFS ==> pf'.res[i] == NoVf())
    && (forall i: nat :: i < num ==> VfFunc(i) in pf'.fmap && pf'.fmap[VfFunc(i)] == (VfBase(pf, i), QUEUES_PER_VF))
  }

  /** The table after `count` VFs were configured and some of their map entries dropped. */
  function Partial(pf: Pf, count: nat, macs: Macs, dropped: set<u16>): Pf
    requires |pf.res| == MAX_VFS && count <= MAX_VFS
  {
    var pf1 := VfsConfigured(pf, count, macs);
    pf1.(fmap := pf1.fmap - dropped)
  }

  lemma PartialInv(pf: Pf, count: nat, macs: Macs, dropped: set<u16>)
    requires Inv(pf) && count <= MAX_VFS
    ensures Inv(Partial(pf, count, macs, dropped))
  {
    ConfigKeeps(pf, count, macs);
    var pf1, pf2 := VfsConfigured(pf, count, macs), Partial(pf, count, macs, dropped);
    forall j: nat | j < MAX_VFS ensures EntryOk(pf2, j) {
      assert EntryOk(pf1, j);
    }
  }

  /** Freeing what was configured takes the map back to where it was. */
  lemma PartialMapUndone(pf: Pf, count: nat, macs: Macs, dropped: set<u16>, func: u16)
    requires Inv(pf) && NoneEnabled(pf) && count <= MAX_VFS
    requires forall f :: f in dropped ==> FIRST_VF_FUNC <= f < FIRST_VF_FUNC + MAX_VFS
    ensures SameEntry(pf.fmap, VfsFreed(Partial(pf, count, macs, dropped), count).fmap, func)
  {
    PartialInv(pf, count, macs, dropped);
    FreedMap(Partial(pf, count, macs, dropped), count, func);
    ConfiguredMap(pf, count, macs, func);
    if FIRST_VF_FUNC <= func < FIRST_VF_FUNC + MAX_VFS {
      assert func == VfFunc(func - FIRST_VF_FUNC) && EntryOk(pf, func - FIRST_VF_FUNC);
    }
  }

  lemma PartialTableUndone(pf: Pf, count: nat, macs: Macs, dropped: set<u16>)
    requires Inv(pf) && NoneEnabled(pf) && count <= MAX_VFS
    ensures VfsFreed(Partial(pf, count, macs, dropped), count).res == pf.res
  {
    PartialInv(pf, count, macs, dropped);
    ConfiguredTable(pf, count, macs);
    FreedExactly(Partial(pf, count, macs, dropped), count, (SwTx, 0));
  }

  /** Only contexts of the ranges just configured are taken away. */
  lemma PartialContextsUndone(pf: Pf, count: nat, macs: Macs, dropped: set<u16>, k: Key)
    requires Inv(pf) && count <= MAX_VFS
    ensures var c := VfsFreed(Partial(pf, count, macs, dropped), count).contexts;
            (k in c ==> k in pf.contexts) && (!InSomeVfRange(pf, k.1) ==> Same(pf.contexts, c, k))
  {
    var pf2 := Partial(pf, count, macs, dropped);
    PartialInv(pf, count, macs, dropped);
    FreedExactly(pf2, count, k);
    if Released(pf2, count, k.1) {
      var i: nat :| i < count && pf2.res[i].enabled && InVfRange(pf2, i, k.1);
      assert InVfRange(pf, i, k.1);
    }
  }

  /** What every failed enable leaves behind: all its own work undone. */
  lemma FailedConfigUndone(pf: Pf, count: nat, macs: Macs, dropped: set<u16>, k: Key, func: u16)
    requires Inv(pf) && NoneEnabled(pf) && count <= MAX_VFS
    requires forall f :: f in dropped ==> FIRST_VF_FUNC <= f < FIRST_VF_FUNC + MAX_VFS
    ensures Undone(pf, FreeVfs(Partial(pf, count, macs, dropped), count), k, func)
  {
    PartialMapUndone(pf, count, macs, dropped, func);
    PartialTableUndone(pf, count, macs, dropped);
    PartialContextsUndone(pf, count, macs, dropped, k);
  }

  lemma ConfigSucceeds(pf: Pf, num: nat, macs: Macs)
    requires Inv(pf) && NoneEnabled(pf) && num <= MAX_VFS
    ensures Enabled(pf, VfsConfigured(pf, num, macs).(numVfs := num), num, macs)
  {
    var pf1 := VfsConfigured(pf, num, macs);
    ConfiguredTable(pf, num, macs);
    forall i: nat | i < num ensures VfFunc(i) in pf1.fmap && pf1.fmap[VfFunc(i)] == (VfBase(pf, i), QUEUES_PER_VF) {
      ConfiguredMap(pf, num, macs, VfFunc(i));
    }
  }

  /**
    Enabling is all or nothing: when no VF was enabled before, a call either enables exactly what was
    asked or leaves the table and the function map as they were. Both directions of when it fails.
  */
  lemma EnableAllOrNothing(pf: Pf, num: int, env: SriovEnv, k: Key, func: u16)
    requires Inv(pf) && NoneEnabled(pf) && num != 0
    ensures var (pf', failed) := SriovConfigure(pf, num, env);
            && |pf'.res| == MAX_VFS
            && (failed <==> !(env.master && 0 < num <= MAX_VFS && env.failAt >= num && env.enableOk))
            && (failed ==> Undone(pf, pf', k, func))
            && (!failed ==> Enabled(pf, pf', num, env.macs))
  {
    if env.master && 0 < num <= MAX_VFS {
      if env.failAt < num {
        FailedConfigUndone(pf, env.failAt, env.macs, {VfFunc(env.failAt)}, k, func);
      } else if !env.enableOk {
        FailedConfigUndone(pf, num, env.macs, {}, k, func);
        var pf1 := VfsConfigured(pf, num, env.macs);
        assert Partial(pf, num, env.macs, {}) == pf1;
        FreedWithCount(pf1, num, num);
      } else {
        ConfigSucceeds(pf, num, env.macs);
      }
    }
  }

  /** A refused call changes nothing: disabling while a VF is assigned, and enabling by no master or with no valid number. */
  lemma RefusedCallChangesNothing(pf: PfState, num: int, env: SriovEnv)
    requires if num == 0 then env.vfsAssigned else !env.master || num < 0 || num > 4
    ensures SriovConfigure(pf, num, env) == (pf, true)
  {
  }

  /** Enabling when VFs are enabled already overwrites the first entries and leaves the others and all contexts. */
  lemma EnableOverwrites(pf: Pf, num: nat, env: SriovEnv, i: nat)
    requires Inv(pf) && 1 <= num <= 4 && env.master && env.failAt >= num && env.enableOk && i < 4
    ensures var (pf', failed) := SriovConfigure(pf, num, env);
            && !failed && |pf'.res| == MAX_VFS && pf'.numVfs == num && pf'.contexts == pf.contexts
            && pf'.res[i] == (if i < num then VfRes(true, 4 + i, pf.qbase + pf.numQueues + 4 * i, 4, env.macs[i]) else pf.res[i])
            && (i < num ==> VfFunc(i) in pf'.fmap && pf'.fmap[VfFunc(i)] == (pf.qbase + pf.numQueues + 4 * i, 4))
  {
    ConfiguredTable(pf, num, env.macs);
    ConfiguredMap(pf, num, env.macs, VfFunc(i));
    VfBaseIs(pf, i);
  }

  /** numVfs does not matter to freeing. */
  lemma {:induction false} FreedWithCount(pf: Pf, n: nat, count: nat)
    requires |pf.res| == MAX_VFS && count <= MAX_VFS
    ensures VfsFreed(pf.(numVfs := n), count) == VfsFreed(pf, count).(numVfs := n)
  {
    if count > 0 {
      FreedWithCount(pf, n, count - 1);
    }
  }

  // ---------------------------------------------------------------------------------------------
  // An acknowledged state persists
  // ---------------------------------------------------------------------------------------------

  /** An SR-IOV call that frees VF resources. */
  predicate Releases(num: int, env: SriovEnv) {
    if num == 0 then !env.vfsAssigned
    else env.master && 0 < num <= MAX_VFS && (env.failAt < num || !env.enableOk)
  }

  /** The event is neither the function's own command on this queue nor a release of VFs. */
  predicate Leaves(e: Event, func: u16, qid: u32, dir: u32) {
    match e
    case Mbox(f, req, _) => !(f == func && QidOf(req.data) == qid && DirOf(req.data) == dir)
    case Sriov(num, env) => !Releases(num, env)
  }

  ghost predicate Undisturbed(es: seq<Event>, func: u16, qid: u32, dir: u32) {
    forall n :: 0 <= n < |es| ==> Leaves(es[n], func, qid, dir)
  }

  function DirCode(dir: Dir): u32 {
    if dir.Tx? then DIR_TX else DIR_RX
  }

  lemma SameKeepsQueue(c: Contexts, c': Contexts, g: u16, dir: Dir)
    requires forall k: Key :: k in Keys(g, dir) ==> Same(c, c', k)
    ensures QueueState(c', g, dir) == QueueState(c, g, dir)
  {
    forall k: Key | k in Keys(g, dir) ensures Same(c, c', k) {
    }
  }

  /** A checked request hits queue `qid` of VF i only if it is VF i's request for that queue. */
  lemma TargetElsewhere(pf: Pf, func: u16, req: Msg, i: nat, qid: nat, dir: Dir)
    requires Inv(pf) && i < MAX_VFS && qid < QUEUES_PER_VF
    requires Check(pf, func, req).Success? && Target(Check(pf, func, req).value).Some?
    requires !(VfFunc(i) == func && QidOf(req.data) == qid && DirOf(req.data) == DirCode(dir))
    ensures Target(Check(pf, func, req).value).value != (VfBase(pf, i) + qid, dir)
  {
    CheckedTarget(pf, func, req);
    FindIsEntry(pf, func);
    var j := func - FIRST_VF_FUNC;
    assert EntryOk(pf, j);
    VfBaseIs(pf, j);
    VfBaseIs(pf, i);
  }

  lemma RequestLeavesQueue(pf: Pf, func: u16, req: Msg, failAt: nat, g: u16, dir: Dir)
    requires Inv(pf)
    requires var a := Check(pf, func, req);
             a.Success? && Target(a.value).Some? ==> Target(a.value).value != (g, dir)
    ensures QueueState(Handle(pf, func, req, failAt).contexts, g, dir) == QueueState(pf.contexts, g, dir)
  {
    var a := Check(pf, func, req);
    if a.Success? {
      if Target(a.value).Some? {
        QueuesApart(g, dir, Target(a.value).value.0, Target(a.value).value.1);
      }
      forall k: Key | k in Keys(g, dir) ensures Same(pf.contexts, Perform(pf.contexts, a.value, failAt), k) {
        PerformIsLocal(pf.contexts, a.value, failAt, k);
      }
      SameKeepsQueue(pf.contexts, Perform(pf.contexts, a.value, failAt), g, dir);
    }
  }

  lemma StepLeavesQueue(pf: Pf, e: Event, i: nat, qid: nat, dir: Dir)
    requires Inv(pf) && i < MAX_VFS && qid < QUEUES_PER_VF && Leaves(e, VfFunc(i), qid, DirCode(dir))
    ensures VfBase(pf, i) + qid < 0x1_0000
    ensures QueueState(Step(pf, e).contexts, VfBase(pf, i) + qid, dir) == QueueState(pf.contexts, VfBase(pf, i) + qid, dir)
  {
    VfBaseIs(pf, i);
    match e
    case Mbox(func, req, failAt) =>
      var a := Check(pf, func, req);
      if a.Success? && Target(a.value).Some? {
        TargetElsewhere(pf, func, req, i, qid, dir);
      }
      RequestLeavesQueue(pf, func, req, failAt, VfBase(pf, i) + qid, dir);
    case Sriov(num, env) =>
      if num != 0 && env.master && 0 < num <= MAX_VFS {
        ConfiguredTable(pf, num, env.macs);
      }
  }

  lemma StepKeepsRange(pf: Pf, e: Event)
    requires Inv(pf)
    ensures Step(pf, e).qbase == pf.qbase && Step(pf, e).numQueues == pf.numQueues
  {
    match e
    case Mbox(_, _, _) =>
    case Sriov(num, env) =>
      if num == 0 {
        FreedRange(pf, if env.pciNumVf < MAX_VFS then env.pciNumVf else MAX_VFS);
      } else if env.master && 0 < num <= MAX_VFS {
        if env.failAt < num {
          var pf1 := VfsConfigured(pf, env.failAt, env.macs);
          FreedRange(pf1.(fmap := pf1.fmap - {VfFunc(env.failAt)}), env.failAt);
        } else {
          FreedRange(VfsConfigured(pf, num, env.macs).(numVfs := num), num);
        }
      }
  }

  lemma {:induction false} FreedRange(pf: Pf, count: nat)
    requires count <= |pf.res|
    ensures VfsFreed(pf, count).qbase == pf.qbase && VfsFreed(pf, count).numQueues == pf.numQueues
  {
    if count > 0 {
      FreedRange(pf, count - 1);
    }
  }

  /** Over any run without the owner's own commands on the queue and without a release, it stays. */
  lemma {:induction false} QueuePersists(pf: Pf, es: seq<Event>, i: nat, qid: nat, dir: Dir)
    requires Inv(pf) && i < MAX_VFS && qid < QUEUES_PER_VF
    requires Undisturbed(es, VfFunc(i), qid, DirCode(dir))
    ensures VfBase(pf, i) + qid < 0x1_0000
    ensures QueueState(Run(pf, es).contexts, VfBase(pf, i) + qid, dir) == QueueState(pf.contexts, VfBase(pf, i) + qid, dir)
    decreases |es|
  {
    VfBaseIs(pf, i);
    if es != [] {
      StepLeavesAll(pf, es[0], i, qid, dir);
      QueuePersists(Step(pf, es[0]), es[1..], i, qid, dir);
    }
  }

  lemma StepLeavesAll(pf: Pf, e: Event, i: nat, qid: nat, dir: Dir)
    requires Inv(pf) && i < MAX_VFS && qid < QUEUES_PER_VF && Leaves(e, VfFunc(i), qid, DirCode(dir))
    ensures Inv(Step(pf, e)) && VfBase(Step(pf, e), i) == VfBase(pf, i) && VfBase(pf, i) + qid < 0x1_0000
    ensures QueueState(Step(pf, e).contexts, VfBase(pf, i) + qid, dir) == QueueState(pf.contexts, VfBase(pf, i) + qid, dir)
  {
    StepKeepsInv(pf, e);
    StepLeavesQueue(pf, e, i, qid, dir);
    StepKeepsRange(pf, e);
  }

  /** The state a checked action leaves its queue in. */
  function Outcome(a: Action): Contexts {
    match a
    case InstallTx(g, func, p) => TxContexts(g, func, p)
    case InstallRx(g, func, p) => RxContexts(g, func, p)
    case Remove(_, _) => map[]
    case Report(_) => map[]
  }

  lemma PerformReachesOutcome(c: Contexts, a: Action, failAt: nat)
    requires Target(a).Some? && Completes(a, failAt)
    ensures QueueState(Perform(c, a, failAt), Target(a).value.0, Target(a).value.1) == Outcome(a)
  {
    match a
    case InstallTx(g, func, p) => InstalledState(c, g, func, p, RxParam(0, 0, 0, 0, 0, 0, 0));
    case InstallRx(g, func, p) => InstalledState(c, g, func, TxParam(0, 0, 0), p);
    case Remove(g, dir) => RemovedState(c, g, dir);
  }

  /** The queue a command is about. */
  function CommandQid(cmd: Command): u32 {
    match cmd
    case GetResources => 0
    case Configure(cfg) => cfg.qid
    case Clear(qid, _) => qid
  }

  function CommandDir(cmd: Command): u32 {
    match cmd
    case GetResources => 0
    case Configure(cfg) => cfg.dir
    case Clear(_, dir) => dir
  }

  lemma RequestAims(cmd: Command, seqno: u32)
    requires !cmd.GetResources?
    ensures QidOf(Request(cmd, seqno).data) == CommandQid(cmd) && DirOf(Request(cmd, seqno).data) == CommandDir(cmd)
  {
    match cmd
    case Configure(cfg) => CfgRoundTrip(cfg);
    case Clear(qid, dir) => QidDirRoundTrip(qid, dir);
  }

  /** Which action a command of VF i is, once it passes the checks. */
  lemma ActionOf(pf: Pf, i: nat, cmd: Command, seqno: u32)
    requires Inv(pf) && i < MAX_VFS && !cmd.GetResources?
    requires Check(pf, VfFunc(i), Request(cmd, seqno)).Success?
    ensures var a := Check(pf, VfFunc(i), Request(cmd, seqno)).value;
            && CommandQid(cmd) < QUEUES_PER_VF
            && Target(a).Some? && Target(a).value.0 == VfBase(pf, i) + CommandQid(cmd)
            && CommandDir(cmd) == DirCode(Target(a).value.1)
            && (cmd.Clear? <==> a.Remove?)
  {
    RequestAims(cmd, seqno);
    CheckedTarget(pf, VfFunc(i), Request(cmd, seqno));
    FindIsEntry(pf, VfFunc(i));
    assert EntryOk(pf, i);
    VfBaseIs(pf, i);
  }

  /** Right after a request that was carried out, its queue is in the state asked for. */
  lemma HandledOutcome(pf: Pf, func: u16, req: Msg, failAt: nat)
    requires Inv(pf)
    requires var a := Check(pf, func, req); a.Success? && Target(a.value).Some? && Completes(a.value, failAt)
    ensures var a := Check(pf, func, req).value;
            var pf1 := Handle(pf, func, req, failAt);
            && Inv(pf1) && pf1.qbase == pf.qbase && pf1.numQueues == pf.numQueues
            && QueueState(pf1.contexts, Target(a).value.0, Target(a).value.1) == Outcome(a)
  {
    PerformReachesOutcome(pf.contexts, Check(pf, func, req).value, failAt);
    SameTableKeeps(pf, Handle(pf, func, req, failAt));
  }

  /**
    What an accepted answer is worth: the queue is set up as asked, or gone, and stays so until the
    VF's next command on that queue or a release of VFs, whatever anyone else asks for.
  */
  lemma AcknowledgedStatePersists(pf: Pf, i: nat, cmd: Command, seqno: u32, failAt: nat, es: seq<Event>)
    requires Inv(pf) && i < MAX_VFS && !cmd.GetResources?
    requires Validate(cmd, seqno, Response(pf, VfFunc(i), Request(cmd, seqno), failAt)).Accepted?
    requires Undisturbed(es, VfFunc(i), CommandQid(cmd), CommandDir(cmd))
    ensures var pf1 := Handle(pf, VfFunc(i), Request(cmd, seqno), failAt);
            var a := Check(pf, VfFunc(i), Request(cmd, seqno));
            && Inv(pf1) && a.Success? && (cmd.Clear? <==> a.value.Remove?)
            && Target(a.value).Some? && Target(a.value).value.0 == VfBase(pf, i) + CommandQid(cmd)
            && QueueState(Run(pf1, es).contexts, Target(a.value).value.0, Target(a.value).value.1) == Outcome(a.value)
  {
    AcceptedMeansDone(pf, VfFunc(i), cmd, seqno, failAt);
    ActionOf(pf, i, cmd, seqno);
    var req := Request(cmd, seqno);
    var a := Check(pf, VfFunc(i), req).value;
    var pf1 := Handle(pf, VfFunc(i), req, failAt);
    HandledOutcome(pf, VfFunc(i), req, failAt);
    assert VfBase(pf1, i) == VfBase(pf, i);
    StatePersists(pf1, i, CommandQid(cmd), Target(a).value.0, Target(a).value.1, Outcome(a), es);
  }

  lemma StatePersists(pf: Pf, i: nat, qid: nat, g: u16, dir: Dir, out: Contexts, es: seq<Event>)
    requires Inv(pf) && i < MAX_VFS && qid < QUEUES_PER_VF && g == VfBase(pf, i) + qid
    requires Undisturbed(es, VfFunc(i), qid, DirCode(dir)) && QueueState(pf.contexts, g, dir) == out
    ensures QueueState(Run(pf, es).contexts, g, dir) == out
  {
    QueuePersists(pf, es, i, qid, dir);
  }
}
