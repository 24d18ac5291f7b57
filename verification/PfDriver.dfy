/**
  The PF's side of SR-IOV (onic_sriov.c, onic_mbox.c): the table of VF queue ranges, and what a
  mailbox request from one function may do to the queue contexts.
*/
module PfDriver {
  import opened Arith
  import opened Wrappers
  import opened Messages
  import opened QueueContexts

  const MAX_VFS: nat := 4
  const QUEUES_PER_VF: nat := 4
  const FIRST_VF_FUNC: nat := 4
  const NUM_DESC_RNGCNT: u32 := 16
  const NUM_C2H_BUFSZ: u32 := 16
  const PF_STRIDE: nat := 64

  /** `struct onic_vf_resource`; the MAC address as the two words it travels in. */
  datatype VfRes = VfRes(enabled: bool, funcId: u16, qbase: u16, qmax: u16, mac: (u32, u32))

  function NoVf(): VfRes {
    VfRes(false, 0, 0, 0, (0, 0))
  }

  /** The QDMA function map: which queue range a function owns. */
  type FuncMap = map<u16, (u32, u32)>

  /** What SR-IOV and the mailbox can change, and the PF's own queue range. */
  datatype Pf = Pf(qbase: u16, numQueues: u16, res: seq<VfRes>, numVfs: nat, contexts: Contexts, fmap: FuncMap)

  type PfState = p: Pf | |p.res| == MAX_VFS && p.numVfs <= MAX_VFS witness Pf(0, 0, seq(MAX_VFS, _ => NoVf()), 0, map[], map[])

  datatype Errno = ENOENT | EINVAL | ERANGE | EBUSY | EOPNOTSUPP

  // ---------------------------------------------------------------------------------------------
  // Mailbox requests
  // ---------------------------------------------------------------------------------------------

  /** onic_pf_mbox_find_vf_resource: the first enabled entry of this function among the active VFs. */
  function FindFrom(res: seq<VfRes>, numVfs: nat, func: u16, i: nat): (r: Option<VfRes>)
    requires numVfs <= |res|
    ensures r.Some? <==> exists k :: i <= k < numVfs && res[k].enabled && res[k].funcId == func
    ensures r.Some? ==> r.value in res && r.value.enabled && r.value.funcId == func
    decreases numVfs - i
  {
    if i >= numVfs then None
    else if res[i].enabled && res[i].funcId == func then Some(res[i])
    else FindFrom(res, numVfs, func, i + 1)
  }

  function Find(pf: Pf, func: u16): Option<VfRes>
    requires pf.numVfs <= |pf.res|
  {
    FindFrom(pf.res, pf.numVfs, func, 0)
  }

  /** A request that passed every check: which queue, and what to do with it. */
  datatype Action =
    | InstallTx(g: u16, func: u16, txp: TxParam)
    | InstallRx(g: u16, func: u16, rxp: RxParam)
    | Remove(g: u16, dir: Dir)
    | Report(found: VfRes)

  predicate Aligned64(a: nat) {
    a % 64 == 0
  }

  /** The checks of onic_pf_mbox_config_queue, in order. */
  function CheckConfig(pf: Pf, func: u16, req: Msg): Result<Action, Errno>
    requires pf.numVfs <= |pf.res|
  {
    var cfg := CfgOf(req.data);
    if req.len != QCFG_LEN || cfg.reserved != 0 then Failure(EINVAL)
    else
      var r := Find(pf, func);
      if r.None? then Failure(ENOENT)
      else if cfg.qid >= r.value.qmax then Failure(ERANGE)
      else if cfg.vector >= r.value.qmax || cfg.rngcntIdx >= NUM_DESC_RNGCNT then Failure(ERANGE)
      else
        var descDma := DmaAddr(cfg.descDmaLo, cfg.descDmaHi);
        var cmplDma := DmaAddr(cfg.cmplDmaLo, cfg.cmplDmaHi);
        if descDma == 0 || !Aligned64(descDma) then Failure(EINVAL)
        else if cfg.dir == DIR_TX then
          Success(InstallTx(RealQid(r.value.qbase, cfg.qid), r.value.funcId, TxParam(cfg.rngcntIdx, descDma, cfg.vector)))
        else if cfg.dir == DIR_RX then
          if cfg.bufszIdx >= NUM_C2H_BUFSZ || cfg.cmplRngcntIdx >= NUM_DESC_RNGCNT || cfg.cmplDescSz > 3 then Failure(ERANGE)
          else if cmplDma == 0 || !Aligned64(cmplDma) then Failure(EINVAL)
          else Success(InstallRx(RealQid(r.value.qbase, cfg.qid), r.value.funcId,
                                 RxParam(cfg.bufszIdx, cfg.rngcntIdx, cfg.cmplRngcntIdx, cfg.cmplDescSz,
                                         descDma, cmplDma, cfg.vector)))
        else Failure(EINVAL)
  }

  /** The checks of onic_pf_mbox_clear_queue, in order. */
  function CheckClear(pf: Pf, func: u16, req: Msg): Result<Action, Errno>
    requires pf.numVfs <= |pf.res|
  {
    if req.len != QCLEAR_LEN then Failure(EINVAL)
    else
      var r := Find(pf, func);
      if r.None? then Failure(ENOENT)
      else if QidOf(req.data) >= r.value.qmax then Failure(ERANGE)
      else if DirOf(req.data) == DIR_TX then Success(Remove(RealQid(r.value.qbase, QidOf(req.data)), Tx))
      else if DirOf(req.data) == DIR_RX then Success(Remove(RealQid(r.value.qbase, QidOf(req.data)), Rx))
      else Failure(EINVAL)
  }

  function Check(pf: Pf, func: u16, req: Msg): Result<Action, Errno>
    requires pf.numVfs <= |pf.res|
  {
    if req.opcode == OP_GET_QUEUE_RES then
      if req.len != 0 then Failure(EINVAL)
      else
        var r := Find(pf, func);
        if r.None? then Failure(ENOENT) else Success(Report(r.value))
    else if req.opcode == OP_CONFIG_QUEUE then CheckConfig(pf, func, req)
    else if req.opcode == OP_CLEAR_QUEUE then CheckClear(pf, func, req)
    else Failure(EOPNOTSUPP)
  }

  /** Whether all context commands the action needs go through when only the first `failAt` do. */
  predicate Completes(a: Action, failAt: nat) {
    match a
    case InstallTx(_, _, _) => failAt >= 4
    case InstallRx(_, _, _) => failAt >= 8
    case Remove(_, _) => true
    case Report(_) => true
  }

  function Perform(c: Contexts, a: Action, failAt: nat): Contexts {
    match a
    case InstallTx(g, func, p) => if failAt >= 4 then Installed(c, TxContexts(g, func, p)) else Removed(c, g, Tx)
    case InstallRx(g, func, p) => if failAt >= 8 then Installed(c, RxContexts(g, func, p)) else Removed(c, g, Rx)
    case Remove(g, dir) => Removed(c, g, dir)
    case Report(_) => c
  }

  function ResourcePayload(r: VfRes): Payload {
    [r.funcId, r.qbase, r.qmax, r.mac.0, r.mac.1] + seq(23, _ => 0)
  }

  /** The response onic_pf_mbox_process_one sends. */
  function Response(pf: Pf, func: u16, req: Msg, failAt: nat): Msg
    requires pf.numVfs <= |pf.res|
  {
    var a := Check(pf, func, req);
    var ok := a.Success? && Completes(a.value, failAt);
    var status := if ok then STS_OK else STS_ERR;
    if req.opcode == OP_CONFIG_QUEUE || req.opcode == OP_CLEAR_QUEUE then
      Msg(if req.opcode == OP_CONFIG_QUEUE then OP_CONFIG_QUEUE_RESP else OP_CLEAR_QUEUE_RESP,
          status, req.seqno, QCMD_LEN, QidDirPayload(QidOf(req.data), DirOf(req.data)))
    else
      Msg(OP_QUEUE_RES_RESP, status, req.seqno, if ok then QRES_LEN else 0,
          if ok && a.value.Report? then ResourcePayload(a.value.found) else ZeroPayload())
  }

  function Handle(pf: Pf, func: u16, req: Msg, failAt: nat): Pf
    requires pf.numVfs <= |pf.res|
  {
    var a := Check(pf, func, req);
    if a.Failure? then pf else pf.(contexts := Perform(pf.contexts, a.value, failAt))
  }

  // ---------------------------------------------------------------------------------------------
  // Enabling and disabling VFs
  // ---------------------------------------------------------------------------------------------

  function VfBase(pf: Pf, i: nat): u16 {
    (pf.qbase + pf.numQueues + QUEUES_PER_VF * i) % 0x1_0000
  }

  function VfFunc(i: nat): u16 {
    (FIRST_VF_FUNC + i) % 0x1_0000
  }

  /** Tearing down the first `count` queues of a range, receive before transmit. */
  function QueuesCleared(c: Contexts, qbase: u16, count: nat): Contexts {
    if count == 0 then c
    else Removed(Removed(QueuesCleared(c, qbase, count - 1), RealQid(qbase, count - 1), Rx), RealQid(qbase, count - 1), Tx)
  }

  function OneVfFreed(pf: Pf, i: nat): Pf
    requires i < |pf.res|
  {
    var r := pf.res[i];
    if !r.enabled then pf
    else pf.(contexts := QueuesCleared(pf.contexts, r.qbase, r.qmax),
             fmap := pf.fmap - {r.funcId},
             res := pf.res[i := NoVf()])
  }

  function VfsFreed(pf: Pf, count: nat): (pf': Pf)
    requires count <= |pf.res|
    ensures |pf'.res| == |pf.res|
  {
    if count == 0 then pf else OneVfFreed(VfsFreed(pf, count - 1), count - 1)
  }

  /** onic_free_vf_resources. */
  function FreeVfs(pf: Pf, num: nat): Pf
    requires |pf.res| == MAX_VFS
  {
    VfsFreed(pf, if num < MAX_VFS then num else MAX_VFS).(numVfs := 0)
  }

  function OneVfConfigured(pf: Pf, i: nat, mac: (u32, u32)): Pf
    requires i < |pf.res|
  {
    pf.(fmap := pf.fmap[VfFunc(i) := (VfBase(pf, i), QUEUES_PER_VF)],
        res := pf.res[i := VfRes(true, VfFunc(i), VfBase(pf, i), QUEUES_PER_VF, mac)])
  }

  function VfsConfigured(pf: Pf, count: nat, macs: Macs): (pf': Pf)
    requires count <= |pf.res| == MAX_VFS
    ensures |pf'.res| == |pf.res| && pf'.qbase == pf.qbase && pf'.numQueues == pf.numQueues && pf'.contexts == pf.contexts
  {
    if count == 0 then pf else OneVfConfigured(VfsConfigured(pf, count - 1, macs), count - 1, macs[count - 1])
  }

  /**
    onic_config_vf_resources: `failAt` is the VF whose function-map write fails, if that many are
    asked for; its entry is cleared and the VFs before it are freed again.
  */
  function ConfigVfs(pf: Pf, num: nat, failAt: nat, macs: Macs): (Pf, bool)
    requires num <= |pf.res| == MAX_VFS
  {
    if failAt < num then
      var pf1 := VfsConfigured(pf, failAt, macs);
      (FreeVfs(pf1.(fmap := pf1.fmap - {VfFunc(failAt)}), failAt), false)
    else (VfsConfigured(pf, num, macs).(numVfs := num), true)
  }

  /** The random addresses one enable call draws. */
  type Macs = s: seq<(u32, u32)> | |s| == 4 witness [(0, 0), (0, 0), (0, 0), (0, 0)]

  /** What the PCI core and the hardware contribute to one onic_sriov_configure call. */
  datatype SriovEnv = SriovEnv(master: bool, vfsAssigned: bool, pciNumVf: nat, failAt: nat, enableOk: bool, macs: Macs)

  /** onic_sriov_configure; the second component is whether it returned an error. */
  function SriovConfigure(pf: PfState, num: int, env: SriovEnv): (PfState, bool) {
    if num == 0 then
      if env.vfsAssigned then (pf, true) else (FreeVfs(pf, env.pciNumVf), false)
    else if !env.master || num < 0 || num > MAX_VFS then (pf, true)
    else
      var (pf', ok) := ConfigVfs(pf, num, env.failAt, env.macs);
      if !ok then (pf', true)
      else if !env.enableOk then (FreeVfs(pf', num), true)
      else (pf', false)
  }

  // ---------------------------------------------------------------------------------------------
  // The driver's own state and code
  // ---------------------------------------------------------------------------------------------

  class PfDevice {
    const qbase: u16
    const numQueues: u16
    const hw: QdmaHw
    const res: array<VfRes>
    var numVfs: nat
    var fmap: FuncMap

    ghost predicate Valid()
      reads this`numVfs
    {
      res.Length == MAX_VFS && numVfs <= MAX_VFS
    }

    ghost function View(): Pf
      reads this, res, hw
    {
      Pf(qbase, numQueues, res[..], numVfs, hw.contexts, fmap)
    }

    /** A freshly probed PF: zeroed table, no context, no function-map entry of a VF. */
    constructor (qbase: u16, numQueues: u16)
      ensures Valid() && fresh(hw) && fresh(res)
      ensures View() == Pf(qbase, numQueues, seq(MAX_VFS, _ => NoVf()), 0, map[], map[])
    {
      this.qbase, this.numQueues := qbase, numQueues;
      hw := new QdmaHw();
      res := new VfRes[MAX_VFS](_ => NoVf());
      numVfs, fmap := 0, map[];
    }

    /** onic_pf_mbox_find_vf_resource. */
    method FindVfResource(func: u16) returns (r: Option<VfRes>)
      requires Valid()
      ensures r == Find(View(), func)
    {
      var i := 0;
      while i < numVfs
        invariant i <= numVfs
        invariant Find(View(), func) == FindFrom(res[..], numVfs, func, i)
      {
        if res[i].enabled && res[i].funcId == func {
          return Some(res[i]);
        }
        i := i + 1;
      }
      return None;
    }

    static function CmdResponse(opcode: u32, status: u32, req: Msg): Msg {
      Msg(opcode, status, req.seqno, QCMD_LEN, QidDirPayload(QidOf(req.data), DirOf(req.data)))
    }

    /** onic_pf_mbox_config_queue. */
    method ConfigQueue(func: u16, req: Msg, failAt: nat, applied: bool) returns (resp: Msg)
      requires Valid() && req.opcode == OP_CONFIG_QUEUE
      modifies hw
      ensures Valid()
      ensures resp == Response(old(View()), func, req, failAt)
      ensures View() == Handle(old(View()), func, req, failAt)
    {
      var cfg := CfgOf(req.data);
      resp := CmdResponse(OP_CONFIG_QUEUE_RESP, STS_ERR, req);
      if req.len != QCFG_LEN || cfg.reserved != 0 {
        return;
      }
      var r := FindVfResource(func);
      if r.None? || cfg.qid >= r.value.qmax {
        return;
      }
      if cfg.vector >= r.value.qmax || cfg.rngcntIdx >= NUM_DESC_RNGCNT {
        return;
      }
      var descDma := DmaAddr(cfg.descDmaLo, cfg.descDmaHi);
      if descDma == 0 || !Aligned64(descDma) {
        return;
      }
      var ok := false;
      if cfg.dir == DIR_TX {
        ok := hw.InitTxQueue(r.value.funcId, r.value.qbase, cfg.qid, TxParam(cfg.rngcntIdx, descDma, cfg.vector), failAt, applied);
      } else if cfg.dir == DIR_RX {
        if cfg.bufszIdx >= NUM_C2H_BUFSZ || cfg.cmplRngcntIdx >= NUM_DESC_RNGCNT || cfg.cmplDescSz > 3 {
          return;
        }
        var cmplDma := DmaAddr(cfg.cmplDmaLo, cfg.cmplDmaHi);
        if cmplDma == 0 || !Aligned64(cmplDma) {
          return;
        }
        var p := RxParam(cfg.bufszIdx, cfg.rngcntIdx, cfg.cmplRngcntIdx, cfg.cmplDescSz, descDma, cmplDma, cfg.vector);
        ok := hw.InitRxQueue(r.value.funcId, r.value.qbase, cfg.qid, p, failAt, applied);
      }
      if ok {
        resp := resp.(status := STS_OK);
      }
    }

    /** onic_pf_mbox_clear_queue. */
    method ClearQueue(func: u16, req: Msg, failAt: nat) returns (resp: Msg)
      requires Valid() && req.opcode == OP_CLEAR_QUEUE
      modifies hw
      ensures Valid()
      ensures resp == Response(old(View()), func, req, failAt)
      ensures View() == Handle(old(View()), func, req, failAt)
    {
      var qid, dir := QidOf(req.data), DirOf(req.data);
      resp := CmdResponse(OP_CLEAR_QUEUE_RESP, STS_ERR, req);
      if req.len != QCLEAR_LEN {
        return;
      }
      var r := FindVfResource(func);
      if r.None? || qid >= r.value.qmax {
        return;
      }
      if dir == DIR_TX {
        hw.ClearTxQueue(r.value.qbase, qid);
      } else if dir == DIR_RX {
        hw.ClearRxQueue(r.value.qbase, qid);
      } else {
        return;
      }
      resp := resp.(status := STS_OK);
    }

    /** The request switch of onic_pf_mbox_process_one. */
    method ProcessRequest(func: u16, req: Msg, failAt: nat, applied: bool) returns (resp: Msg)
      requires Valid()
      modifies hw
      ensures Valid()
      ensures resp == Response(old(View()), func, req, failAt)
      ensures View() == Handle(old(View()), func, req, failAt)
    {
      resp := Msg(OP_QUEUE_RES_RESP, STS_ERR, req.seqno, 0, ZeroPayload());
      if req.opcode == OP_GET_QUEUE_RES {
        if req.len == 0 {
          var r := FindVfResource(func);
          if r.Some? {
            resp := Msg(OP_QUEUE_RES_RESP, STS_OK, req.seqno, QRES_LEN, ResourcePayload(r.value));
          }
        }
      } else if req.opcode == OP_CONFIG_QUEUE {
        resp := ConfigQueue(func, req, failAt, applied);
      } else if req.opcode == OP_CLEAR_QUEUE {
        resp := ClearQueue(func, req, failAt);
      }
    }

    /** One round of the loop of onic_free_vf_resources. */
    method FreeOne(i: nat)
      requires Valid() && i < MAX_VFS
      modifies this`fmap, res, hw
      ensures Valid()
      ensures View() == OneVfFreed(old(View()), i)
    {
      var r := res[i];
      if !r.enabled {
        return;
      }
      var qid := 0;
      while qid < r.qmax
        invariant 0 <= qid <= r.qmax
        invariant hw.contexts == QueuesCleared(old(hw.contexts), r.qbase, qid)
        modifies hw
      {
        hw.ClearRxQueue(r.qbase, qid);
        hw.ClearTxQueue(r.qbase, qid);
        qid := qid + 1;
      }
      fmap := fmap - {r.funcId};
      res[i] := NoVf();
      assert res[..] == old(res[..])[i := NoVf()];
    }

    /** onic_free_vf_resources. */
    method FreeVfResources(num: nat)
      requires Valid()
      modifies this`fmap, this`numVfs, res, hw
      ensures Valid()
      ensures View() == FreeVfs(old(View()), num)
    {
      ghost var was := View();
      var n := if num < MAX_VFS then num else MAX_VFS;
      for i := 0 to n
        invariant Valid()
        invariant View() == VfsFreed(was, i)
      {
        FreeOne(i);
      }
      numVfs := 0;
    }

    /** onic_config_vf_resources; `failAt` is the VF whose function-map write fails. */
    method ConfigVfResources(num: nat, failAt: nat, macs: Macs) returns (ok: bool)
      requires Valid() && num <= MAX_VFS
      modifies this`fmap, this`numVfs, res, hw
      ensures Valid()
      ensures (View(), ok) == ConfigVfs(old(View()), num, failAt, macs)
    {
      ghost var was := View();
      var base: int := qbase + numQueues;
      for i := 0 to num
        invariant Valid() && i <= failAt
        invariant base == qbase + numQueues + QUEUES_PER_VF * i
        invariant View() == VfsConfigured(was, i, macs)
      {
        var func: u16 := (FIRST_VF_FUNC + i) % 0x1_0000;
        if i == failAt {
          fmap := fmap - {func};
          FreeVfResources(i);
          return false;
        }
        fmap := fmap[func := (base % 0x1_0000, QUEUES_PER_VF)];
        ghost var prev := View();
        res[i] := VfRes(true, func, base % 0x1_0000, QUEUES_PER_VF, macs[i]);
        assert View() == prev.(res := prev.res[i := VfRes(true, func, base % 0x1_0000, QUEUES_PER_VF, macs[i])]);
        base := base + QUEUES_PER_VF;
      }
      numVfs := num;
      return true;
    }

    /** onic_sriov_configure. */
    method Configure(num: int, env: SriovEnv) returns (failed: bool)
      requires Valid()
      modifies this`fmap, this`numVfs, res, hw
      ensures Valid()
      ensures (View(), failed) == SriovConfigure(old(View()), num, env)
    {
      if num == 0 {
        if env.vfsAssigned {
          return true;
        }
        FreeVfResources(env.pciNumVf);
        return false;
      }
      if !env.master {
        return true;
      }
      if num < 0 || num > MAX_VFS {
        return true;
      }
      var ok := ConfigVfResources(num, env.failAt, env.macs);
      if !ok {
        return true;
      }
      if !env.enableOk {
        FreeVfResources(num);
        return true;
      }
      return false;
    }
  }
}
