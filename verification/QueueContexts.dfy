/**
  QDMA queue contexts as the PF programs them (onic_hardware.c, qdma_access/qdma_context.c): setting up
  a queue is a series of context commands, any of which may time out and make the whole queue be
  torn down again. Invalidations succeed; the source ignores their results.
*/
module QueueContexts {
  import opened Arith

  datatype Dir = Tx | Rx

  /** Which context table a command addresses. */
  datatype Sel = SwTx | SwRx | HwTx | HwRx | CrTx | CrRx | Pfch | CmplSel

  type Key = (Sel, u16)

  datatype Value =
    | Zeroed
    | SwCtxt(funcId: u16, descBase: nat, rngszIdx: u32, vec: u32, descSz: nat, fcrdEn: bool, wbiChk: bool)
    | PfchCtxt(bufszIdx: u32)
    | CmplCtxt(func: u16, baddr: nat, rngsz: u32, cmplDescSz: u32, cmplVec: u32, trigMode: nat, color: nat)

  type Contexts = map<Key, Value>

  datatype TxParam = TxParam(rngcntIdx: u32, dmaAddr: nat, vid: u32)

  datatype RxParam = RxParam(bufszIdx: u32, descRngcntIdx: u32, cmplRngcntIdx: u32, cmplDescSz: u32,
                             descDmaAddr: nat, cmplDmaAddr: nat, vid: u32)

  /** qdma_get_real_qid: the device-wide number of a function's queue, in 16 bits. */
  function RealQid(qbase: u16, qid: nat): u16 {
    (qid + qbase) % 0x1_0000
  }

  function Keys(g: u16, dir: Dir): set<Key> {
    match dir
    case Tx => {(SwTx, g), (HwTx, g), (CrTx, g)}
    case Rx => {(SwRx, g), (HwRx, g), (CrRx, g), (Pfch, g), (CmplSel, g)}
  }

  function TxContexts(g: u16, func: u16, p: TxParam): Contexts {
    map[(SwTx, g) := SwCtxt(func, p.dmaAddr, p.rngcntIdx, p.vid, 1, false, true),
        (HwTx, g) := Zeroed,
        (CrTx, g) := Zeroed]
  }

  function RxContexts(g: u16, func: u16, p: RxParam): Contexts {
    map[(SwRx, g) := SwCtxt(func, p.descDmaAddr, p.descRngcntIdx, 0, 0, true, false),
        (HwRx, g) := Zeroed,
        (CrRx, g) := Zeroed,
        (Pfch, g) := PfchCtxt(p.bufszIdx),
        (CmplSel, g) := CmplCtxt(func, p.cmplDmaAddr, p.cmplRngcntIdx, p.cmplDescSz, p.vid, 5, 1)]
  }

  function SwSel(dir: Dir): Sel {
    if dir.Tx? then SwTx else SwRx
  }

  function HwSel(dir: Dir): Sel {
    if dir.Tx? then HwTx else HwRx
  }

  function CrSel(dir: Dir): Sel {
    if dir.Tx? then CrTx else CrRx
  }

  function DescriptorContexts(g: u16, dir: Dir, sw: Value): Contexts {
    map[(SwSel(dir), g) := sw, (HwSel(dir), g) := Zeroed, (CrSel(dir), g) := Zeroed]
  }

  /** The queue's contexts are all there and nothing else changed. */
  function Installed(c: Contexts, queue: Contexts): Contexts {
    c + queue
  }

  /** The queue's contexts are all gone and nothing else changed. */
  function Removed(c: Contexts, g: u16, dir: Dir): Contexts {
    c - Keys(g, dir)
  }

  /** Writing a context of some queue changes nothing outside that queue's contexts. */
  lemma WriteInside(c: Contexts, key: Key, value: Value, keys: set<Key>)
    requires key in keys
    ensures c[key := value] - keys == c - keys
  {
  }

  /** The four writes both setups start with, and the four a receive setup adds. */
  lemma DescriptorWrites(c: Contexts, g: u16, dir: Dir, sw: Value)
    ensures c[(SwSel(dir), g) := Zeroed][(SwSel(dir), g) := sw][(HwSel(dir), g) := Zeroed][(CrSel(dir), g) := Zeroed]
            == c + DescriptorContexts(g, dir, sw)
  {
  }

  function CompletionContexts(g: u16, pfch: Value, cmpl: Value): Contexts {
    map[(Pfch, g) := pfch, (CmplSel, g) := cmpl]
  }

  lemma CompletionWrites(c: Contexts, g: u16, pfch: Value, cmpl: Value)
    ensures c[(Pfch, g) := Zeroed][(Pfch, g) := pfch][(CmplSel, g) := Zeroed][(CmplSel, g) := cmpl]
            == c + CompletionContexts(g, pfch, cmpl)
  {
  }

  lemma RxWrites(c: Contexts, g: u16, func: u16, p: RxParam)
    ensures c + DescriptorContexts(g, Rx, SwCtxt(func, p.descDmaAddr, p.descRngcntIdx, 0, 0, true, false))
              + CompletionContexts(g, PfchCtxt(p.bufszIdx),
                                   CmplCtxt(func, p.cmplDmaAddr, p.cmplRngcntIdx, p.cmplDescSz, p.vid, 5, 1))
            == Installed(c, RxContexts(g, func, p))
  {
  }

  lemma TxWrites(c: Contexts, g: u16, func: u16, p: TxParam)
    ensures c + DescriptorContexts(g, Tx, SwCtxt(func, p.dmaAddr, p.rngcntIdx, p.vid, 1, false, true))
            == Installed(c, TxContexts(g, func, p))
  {
  }

  /**
    The context tables. A command that times out may or may not have taken effect: `failAt` is the
    number of commands of a setup that succeed before one times out, `applied` says whether the one
    that timed out took effect.
  */
  class QdmaHw {
    var contexts: Contexts

    constructor ()
      ensures contexts == map[]
    {
      contexts := map[];
    }

    /** One clear or write command, the `step`-th of a setup. */
    method Program(key: Key, value: Value, step: nat, failAt: nat, applied: bool) returns (ok: bool)
      modifies this
      ensures ok <==> step != failAt
      ensures contexts == if ok || applied then old(contexts)[key := value] else old(contexts)
    {
      ok := step != failAt;
      if ok || applied {
        contexts := contexts[key := value];
      }
    }

    /** onic_qdma_clear_tx_queue. */
    method ClearTxQueue(qbase: u16, qid: nat)
      modifies this
      ensures contexts == Removed(old(contexts), RealQid(qbase, qid), Tx)
    {
      var g := RealQid(qbase, qid);
      contexts := contexts - {(SwTx, g)};
      contexts := contexts - {(HwTx, g)};
      contexts := contexts - {(CrTx, g)};
    }

    /** onic_qdma_clear_rx_queue. */
    method ClearRxQueue(qbase: u16, qid: nat)
      modifies this
      ensures contexts == Removed(old(contexts), RealQid(qbase, qid), Rx)
    {
      var g := RealQid(qbase, qid);
      contexts := contexts - {(SwRx, g)};
      contexts := contexts - {(HwRx, g)};
      contexts := contexts - {(CrRx, g)};
      contexts := contexts - {(Pfch, g)};
      contexts := contexts - {(CmplSel, g)};
    }

    /** The software, hardware and credit context commands both setups start with. */
    method InitDescriptors(g: u16, dir: Dir, sw: Value, failAt: nat, applied: bool) returns (ok: bool)
      modifies this
      ensures ok <==> failAt >= 4
      ensures ok ==> contexts == old(contexts) + DescriptorContexts(g, dir, sw)
      ensures contexts - Keys(g, dir) == old(contexts) - Keys(g, dir)
    {
      DescriptorWrites(contexts, g, dir, sw);
      ok := Program((SwSel(dir), g), Zeroed, 0, failAt, applied);
      WriteInside(old(contexts), (SwSel(dir), g), Zeroed, Keys(g, dir));
      if ok {
        WriteInside(contexts, (SwSel(dir), g), sw, Keys(g, dir));
        ok := Program((SwSel(dir), g), sw, 1, failAt, applied);
      }
      if ok {
        WriteInside(contexts, (HwSel(dir), g), Zeroed, Keys(g, dir));
        ok := Program((HwSel(dir), g), Zeroed, 2, failAt, applied);
      }
      if ok {
        WriteInside(contexts, (CrSel(dir), g), Zeroed, Keys(g, dir));
        ok := Program((CrSel(dir), g), Zeroed, 3, failAt, applied);
      }
    }

    /** The prefetch and completion context commands of onic_qdma_init_rx_queue. */
    method InitCompletion(g: u16, pfch: Value, cmpl: Value, failAt: nat, applied: bool) returns (ok: bool)
      requires failAt >= 4
      modifies this
      ensures ok <==> failAt >= 8
      ensures ok ==> contexts == old(contexts) + CompletionContexts(g, pfch, cmpl)
      ensures contexts - Keys(g, Rx) == old(contexts) - Keys(g, Rx)
    {
      CompletionWrites(contexts, g, pfch, cmpl);
      WriteInside(contexts, (Pfch, g), Zeroed, Keys(g, Rx));
      ok := Program((Pfch, g), Zeroed, 4, failAt, applied);
      if ok {
        WriteInside(contexts, (Pfch, g), pfch, Keys(g, Rx));
        ok := Program((Pfch, g), pfch, 5, failAt, applied);
      }
      if ok {
        WriteInside(contexts, (CmplSel, g), Zeroed, Keys(g, Rx));
        ok := Program((CmplSel, g), Zeroed, 6, failAt, applied);
      }
      if ok {
        WriteInside(contexts, (CmplSel, g), cmpl, Keys(g, Rx));
        ok := Program((CmplSel, g), cmpl, 7, failAt, applied);
      }
    }

    /** onic_qdma_init_tx_queue. */
    method InitTxQueue(func: u16, qbase: u16, qid: nat, p: TxParam, failAt: nat, applied: bool) returns (ok: bool)
      modifies this
      ensures ok <==> failAt >= 4
      ensures var g := RealQid(qbase, qid);
              contexts == if ok then Installed(old(contexts), TxContexts(g, func, p)) else Removed(old(contexts), g, Tx)
    {
      var g := RealQid(qbase, qid);
      var sw := SwCtxt(func, p.dmaAddr, p.rngcntIdx, p.vid, 1, false, true);
      TxWrites(contexts, g, func, p);
      ok := InitDescriptors(g, Tx, sw, failAt, applied);
      if !ok {
        ClearTxQueue(qbase, qid);
      }
    }

    /** onic_qdma_init_rx_queue. */
    method InitRxQueue(func: u16, qbase: u16, qid: nat, p: RxParam, failAt: nat, applied: bool) returns (ok: bool)
      modifies this
      ensures ok <==> failAt >= 8
      ensures var g := RealQid(qbase, qid);
              contexts == if ok then Installed(old(contexts), RxContexts(g, func, p)) else Removed(old(contexts), g, Rx)
    {
      var g := RealQid(qbase, qid);
      var sw := SwCtxt(func, p.descDmaAddr, p.descRngcntIdx, 0, 0, true, false);
      var cmpl := CmplCtxt(func, p.cmplDmaAddr, p.cmplRngcntIdx, p.cmplDescSz, p.vid, 5, 1);
      RxWrites(contexts, g, func, p);
      ok := InitDescriptors(g, Rx, sw, failAt, applied);
      if ok {
        ok := InitCompletion(g, PfchCtxt(p.bufszIdx), cmpl, failAt, applied);
      }
      if !ok {
        ClearRxQueue(qbase, qid);
      }
    }
  }

  // ---------------------------------------------------------------------------------------------
  // What a setup or teardown of one queue means for the others
  // ---------------------------------------------------------------------------------------------

  /** The part of the tables that belongs to one queue. */
  function QueueState(c: Contexts, g: u16, dir: Dir): Contexts {
    map k | k in c && k in Keys(g, dir) :: c[k]
  }

  lemma InstalledState(c: Contexts, g: u16, func: u16, p: TxParam, q: RxParam)
    ensures QueueState(Installed(c, TxContexts(g, func, p)), g, Tx) == TxContexts(g, func, p)
    ensures QueueState(Installed(c, RxContexts(g, func, q)), g, Rx) == RxContexts(g, func, q)
  {
  }

  lemma RemovedState(c: Contexts, g: u16, dir: Dir)
    ensures QueueState(Removed(c, g, dir), g, dir) == map[]
  {
  }

  /** Two different queues share no context. */
  lemma QueuesApart(g: u16, dir: Dir, g': u16, dir': Dir)
    requires (g, dir) != (g', dir')
    ensures Keys(g, dir) !! Keys(g', dir')
  {
  }

  /** Whatever one queue's setup or teardown does, every other queue's contexts stay as they were. */
  lemma OthersUntouched(c: Contexts, queue: Contexts, g: u16, dir: Dir, g': u16, dir': Dir)
    requires queue.Keys <= Keys(g, dir) && (g, dir) != (g', dir')
    ensures QueueState(Installed(c, queue), g', dir') == QueueState(c, g', dir')
    ensures QueueState(Removed(c, g, dir), g', dir') == QueueState(c, g', dir')
  {
    QueuesApart(g, dir, g', dir');
  }
}
