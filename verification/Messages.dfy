/** Mailbox messages (onic_mbox.h): a four-word header and a 112-byte payload that is a C union. */
module Messages {
  import opened Arith

  const OP_GET_QUEUE_RES: u32 := 1
  const OP_QUEUE_RES_RESP: u32 := 2
  const OP_CONFIG_QUEUE: u32 := 3
  const OP_CONFIG_QUEUE_RESP: u32 := 4
  const OP_CLEAR_QUEUE: u32 := 5
  const OP_CLEAR_QUEUE_RESP: u32 := 6

  const DIR_TX: u32 := 0
  const DIR_RX: u32 := 1

  const STS_OK: u32 := 0
  const STS_ERR: u32 := 1

  const QRES_LEN: u32 := 20
  const QCFG_LEN: u32 := 48
  const QCLEAR_LEN: u32 := 8
  const QCMD_LEN: u32 := 8

  /** The union, as the words it occupies. */
  type Payload = s: seq<u32> | |s| == 28 witness seq(28, _ => 0)

  datatype Msg = Msg(opcode: u32, status: u32, seqno: u32, len: u32, data: Payload)

  function ZeroPayload(): Payload {
    seq(28, _ => 0)
  }

  function ZeroMsg(): Msg {
    Msg(0, 0, 0, 0, ZeroPayload())
  }

  /** `struct onic_mbox_queue_cfg`. */
  datatype QueueCfg = QueueCfg(
    qid: u32, dir: u32, vector: u32, rngcntIdx: u32, bufszIdx: u32, cmplRngcntIdx: u32, cmplDescSz: u32,
    reserved: u32, descDmaLo: u32, descDmaHi: u32, cmplDmaLo: u32, cmplDmaHi: u32)

  function CfgOf(d: Payload): QueueCfg {
    QueueCfg(d[0], d[1], d[2], d[3], d[4], d[5], d[6], d[7], d[8], d[9], d[10], d[11])
  }

  function CfgPayload(c: QueueCfg): Payload {
    [c.qid, c.dir, c.vector, c.rngcntIdx, c.bufszIdx, c.cmplRngcntIdx, c.cmplDescSz, c.reserved,
     c.descDmaLo, c.descDmaHi, c.cmplDmaLo, c.cmplDmaHi] + seq(16, _ => 0)
  }

  /** `qclear` and `qcmd_resp` both are a queue and a direction in the first two words. */
  function QidOf(d: Payload): u32 {
    d[0]
  }

  function DirOf(d: Payload): u32 {
    d[1]
  }

  function QidDirPayload(qid: u32, dir: u32): Payload {
    [qid, dir] + seq(26, _ => 0)
  }

  lemma CfgRoundTrip(c: QueueCfg)
    ensures CfgOf(CfgPayload(c)) == c
    ensures QidOf(CfgPayload(c)) == c.qid && DirOf(CfgPayload(c)) == c.dir
  {
  }

  lemma QidDirRoundTrip(qid: u32, dir: u32)
    ensures QidOf(QidDirPayload(qid, dir)) == qid && DirOf(QidDirPayload(qid, dir)) == dir
  {
  }

  // ---------------------------------------------------------------------------------------------
  // 64-bit addresses in two words
  // ---------------------------------------------------------------------------------------------

  function LowerHalf(a: u64): u32 {
    a % 0x1_0000_0000
  }

  function UpperHalf(a: u64): u32 {
    a / 0x1_0000_0000
  }

  /** onic_pf_mbox_dma_addr. */
  function DmaAddr(lo: u32, hi: u32): u64 {
    hi * 0x1_0000_0000 + lo
  }

  lemma DmaAddrRoundTrip(a: u64)
    ensures DmaAddr(LowerHalf(a), UpperHalf(a)) == a
  {
  }

  // ---------------------------------------------------------------------------------------------
  // What the VF asks for
  // ---------------------------------------------------------------------------------------------

  const TX_RNGCNT_IDX: u32 := 0
  const RX_DESC_RNGCNT_IDX: u32 := 8
  const RX_CMPL_RNGCNT_IDX: u32 := 8
  const RX_BUFSZ_IDX: u32 := 4
  const RX_CMPL_DESC_SZ: u32 := 0

  /** onic_vf_config_one_tx_context: the request for one transmit queue. */
  function TxRequest(qid: u16, vid: u16, descDma: u64): QueueCfg {
    QueueCfg(qid, DIR_TX, vid, TX_RNGCNT_IDX, 0, 0, 0, 0, LowerHalf(descDma), UpperHalf(descDma), 0, 0)
  }

  /** onic_vf_config_one_rx_context: the request for one receive queue. */
  function RxRequest(qid: u16, vid: u16, descDma: u64, cmplDma: u64): QueueCfg {
    QueueCfg(qid, DIR_RX, vid, RX_DESC_RNGCNT_IDX, RX_BUFSZ_IDX, RX_CMPL_RNGCNT_IDX, RX_CMPL_DESC_SZ, 0,
             LowerHalf(descDma), UpperHalf(descDma), LowerHalf(cmplDma), UpperHalf(cmplDma))
  }

  /** onic_vf_mbox_config_queue, onic_vf_mbox_clear_queue and onic_vf_mbox_get_queue_resource. */
  datatype Command =
    | GetResources
    | Configure(cfg: QueueCfg)
    | Clear(qid: u32, dir: u32)

  function Request(cmd: Command, seqno: u32): Msg {
    match cmd
    case GetResources => Msg(OP_GET_QUEUE_RES, 0, seqno, 0, ZeroPayload())
    case Configure(cfg) => Msg(OP_CONFIG_QUEUE, 0, seqno, QCFG_LEN, CfgPayload(cfg))
    case Clear(qid, dir) => Msg(OP_CLEAR_QUEUE, 0, seqno, QCLEAR_LEN, QidDirPayload(qid, dir))
  }

  /** What the VF makes of the response it finds: success, -EPROTO, -EIO or -ERANGE. */
  datatype Verdict = Accepted | BadResponse | Rejected | BadRange

  const MAX_QUEUES: nat := 64

  /** The validate_response blocks of onic_vf_mbox.c. */
  function Validate(cmd: Command, seqno: u32, r: Msg): Verdict {
    match cmd
    case GetResources =>
      if r.opcode != OP_QUEUE_RES_RESP || r.seqno != seqno || r.status != STS_OK || r.len != QRES_LEN then BadResponse
      else if r.data[2] == 0 || r.data[2] > MAX_QUEUES then BadRange
      else Accepted
    case Configure(cfg) => ValidateQueueCmd(OP_CONFIG_QUEUE_RESP, seqno, cfg.qid, cfg.dir, r)
    case Clear(qid, dir) => ValidateQueueCmd(OP_CLEAR_QUEUE_RESP, seqno, qid, dir, r)
  }

  /**
    The VF takes a message for a good answer to its request exactly when it is the reply opcode with the
    request's number, reports success, and echoes what was asked for, or grants between 1 and 64 queues.
  */
  lemma AcceptedEchoes(cmd: Command, seqno: u32, r: Msg)
    ensures var req := Request(cmd, seqno);
            Validate(cmd, seqno, r).Accepted? <==>
              && r.opcode == req.opcode + 1 && r.seqno == req.seqno && r.status == 0
              && if cmd.GetResources? then r.len == 20 && 1 <= r.data[2] <= 64
                 else r.len == 8 && r.data[0] == req.data[0] && r.data[1] == req.data[1]
  {
    match cmd
    case GetResources =>
    case Configure(cfg) => CfgRoundTrip(cfg);
    case Clear(qid, dir) => QidDirRoundTrip(qid, dir);
  }

  function ValidateQueueCmd(opcode: u32, seqno: u32, qid: u32, dir: u32, r: Msg): Verdict {
    if r.opcode != opcode || r.seqno != seqno || r.len != QCMD_LEN || QidOf(r.data) != qid || DirOf(r.data) != dir then BadResponse
    else if r.status != STS_OK then Rejected
    else Accepted
  }
}
