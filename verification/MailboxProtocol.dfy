/**
  One VF's mailbox conversation with the PF as interleaved steps (onic_vf_mbox.c, onic_mbox.c): the
  VF's command thread and interrupt thread, the two one-deep hardware channels, the PF's worker, and
  everything else that happens to the PF meanwhile. Commands may time out and answers may be late.
*/
module MailboxProtocol {
  import opened Arith
  import opened Wrappers
  import opened Messages
  import opened QueueContexts
  import opened PfDriver
  import Own = QueueOwnership

  const MAX_STALE: nat := 16

  /** Where one call of onic_vf_mbox_process_one is. */
  datatype Reader = Start | Seen | Copied | Acked

  /** Where the command thread is; it holds the mailbox lock in every phase but Idle. */
  datatype Phase =
    | Idle
    | Draining(cmd: Command, dropped: nat)
    | Dropping(cmd: Command, dropped: nat)
    | Checking(cmd: Command)
    | Rearming(cmd: Command)
    | Clearing(cmd: Command)
    | Sending(cmd: Command)
    | Waiting(cmd: Command)
    | TimedOut(cmd: Command)
    | Fallback(cmd: Command, reader: Reader)
    | Validating(cmd: Command)

  /** Where onic_pf_mbox_process_one is with this VF's request. */
  datatype Worker =
    | Ready
    | Acting(answer: Msg)
    | Taken(answer: Msg)

  /** What a call returned: 0, -EIO, -EBUSY, -ETIMEDOUT, or what the validation made of the answer. */
  datatype Outcome = Open | StaleFlood | Busy | NoAnswer | Judged(verdict: Verdict)

  /** One request the PF executed: the state it found, how many context commands went through, its answer. */
  datatype Act = Act(before: PfState, failAt: nat, answer: Msg)

  /**
    What has happened so far: the VF's index and the random start of its sequence numbers, the
    commands sent, the requests executed, the numbers of the commands that returned 0, and how many
    requests had been executed when VF resources were last released.
  */
  datatype History = History(vf: nat, s0: u32, cmds: seq<Command>, acts: seq<Act>, accepted: set<nat>, released: nat) {
    function Func(): u16 {
      VfFunc(vf)
    }

    /** The request with number k + 1. */
    function Request(k: nat): Msg
      requires k < |cmds|
    {
      Messages.Request(cmds[k], Seq(s0, k + 1))
    }

    /** What the PF's checks made of it. */
    function Action(k: nat): Result<Action, Errno>
      requires k < |acts| && k < |cmds|
    {
      Check(acts[k].before, Func(), Request(k))
    }

    /** It passed the PF's checks and all its context commands went through. */
    predicate Succeeded(k: nat)
      requires k < |acts| && k < |cmds|
    {
      Action(k).Success? && Completes(Action(k).value, acts[k].failAt)
    }
  }

  /** The VF's inbox register keeps showing the last message delivered; `full` is its pending bit. */
  datatype State = State(
    pf: PfState,
    phase: Phase, outcome: Outcome, seqno: u32, resp: Msg, done: bool, irq: Reader,
    outbox: Option<Msg>, inbox: Msg, full: bool,
    worker: Worker,
    hist: History)

  datatype Event =
    // the command thread
    | Lock(cmd: Command)
    | Continue
    | Timeout
    // the interrupt thread
    | Interrupt
    // the PF's worker, for this VF
    | PfHandle(failAt: nat)
    | PfReceive
    | PfSend
    // other functions' requests and SR-IOV calls
    | Elsewhere(e: Own.Event)

  function Seq(s0: u32, n: nat): u32 {
    Wrap32(s0 + n)
  }

  function Initial(vf: nat, s0: u32, pf: PfState): State {
    State(pf, Idle, Open, s0, ZeroMsg(), false, Start, None, ZeroMsg(), false, Ready, History(vf, s0, [], [], {}, 0))
  }

  // ---------------------------------------------------------------------------------------------
  // Steps
  // ---------------------------------------------------------------------------------------------

  /** One step of onic_vf_mbox_process_one by either thread; after Acked the call is over. */
  function ReaderStep(s: State, r: Reader): (State, Reader) {
    match r
    case Start => (s, if s.full then Seen else Start)
    case Seen => (s.(resp := s.inbox), Copied)
    case Copied => (s.(full := false), Acked)
    case Acked => (s.(done := true), Start)
  }

  /** The request is written and sent; its sequence number, private to the lock's holder, is taken here. */
  function SendStep(s: State, cmd: Command): State {
    var seqno := Wrap32(s.seqno + 1);
    s.(seqno := seqno, outbox := Some(Request(cmd, seqno)), phase := Waiting(cmd),
       hist := s.hist.(cmds := s.hist.cmds + [cmd]))
  }

  function Return(s: State, o: Outcome): State {
    s.(phase := Idle, outcome := o)
  }

  function ValidateStep(s: State, cmd: Command): State {
    var verdict := Validate(cmd, s.seqno, s.resp);
    var s' := Return(s, Judged(verdict));
    if verdict.Accepted? then s'.(hist := s.hist.(accepted := s.hist.accepted + {|s.hist.cmds|})) else s'
  }

  function FallbackStep(s: State, cmd: Command, r: Reader): State {
    var (s', r') := ReaderStep(s, r);
    if r.Acked? then s'.(phase := Validating(cmd))
    else if r'.Start? then Return(s', NoAnswer)
    else s'.(phase := Fallback(cmd, r'))
  }

  /** One step of onic_vf_mbox_send_queue_cmd or onic_vf_mbox_get_queue_resource. */
  function ContinueStep(s: State): State {
    match s.phase
    case Idle => s
    case Draining(cmd, k) =>
      if k >= MAX_STALE then Return(s, StaleFlood)
      else s.(phase := if s.full then Dropping(cmd, k) else Checking(cmd))
    case Dropping(cmd, k) => s.(full := false, phase := Draining(cmd, k + 1))
    case Checking(cmd) => if s.outbox.Some? then Return(s, Busy) else s.(phase := Rearming(cmd))
    case Rearming(cmd) => s.(done := false, phase := Clearing(cmd))
    case Clearing(cmd) => s.(resp := ZeroMsg(), phase := Sending(cmd))
    case Sending(cmd) => SendStep(s, cmd)
    case Waiting(cmd) => if s.done then s.(done := false, phase := Validating(cmd)) else s
    case TimedOut(cmd) => if s.full then s.(phase := Fallback(cmd, Start)) else Return(s, NoAnswer)
    case Fallback(cmd, r) => FallbackStep(s, cmd, r)
    case Validating(cmd) => ValidateStep(s, cmd)
  }

  /** onic_pf_mbox_process_one up to the switch; the request stays while an answer is unread. */
  function HandleStep(s: State, failAt: nat): State {
    if s.worker.Ready? && s.outbox.Some? && !s.full then
      var req := s.outbox.value;
      var answer := Response(s.pf, s.hist.Func(), req, failAt);
      s.(pf := Handle(s.pf, s.hist.Func(), req, failAt), worker := Acting(answer),
         hist := s.hist.(acts := s.hist.acts + [Act(s.pf, failAt, answer)]))
    else s
  }

  /** Requests of other functions and SR-IOV calls. */
  function ElsewhereStep(s: State, e: Own.Event): State {
    match e
    case Mbox(func, _, _) => if func == s.hist.Func() then s else s.(pf := Own.Step(s.pf, e))
    case Sriov(num, env) =>
      s.(pf := Own.Step(s.pf, e), hist := if Own.Releases(num, env) then s.hist.(released := |s.hist.acts|) else s.hist)
  }

  function Step(s: State, e: Event): State {
    match e
    case Lock(cmd) => if s.phase.Idle? then s.(phase := Draining(cmd, 0), outcome := Open) else s
    case Continue => ContinueStep(s)
    case Timeout => if s.phase.Waiting? && !s.done then s.(phase := TimedOut(s.phase.cmd)) else s
    case Interrupt => var (s', r) := ReaderStep(s, s.irq); s'.(irq := r)
    case PfHandle(failAt) => HandleStep(s, failAt)
    case PfReceive => if s.worker.Acting? then s.(outbox := None, worker := Taken(s.worker.answer)) else s
    case PfSend => if s.worker.Taken? then s.(inbox := s.worker.answer, full := true, worker := Ready) else s
    case Elsewhere(e) => ElsewhereStep(s, e)
  }

  function Run(s: State, es: seq<Event>): State
    decreases |es|
  {
    if es == [] then s else Run(Step(s, es[0]), es[1..])
  }

  // ---------------------------------------------------------------------------------------------
  // The invariant
  // ---------------------------------------------------------------------------------------------

  /** Each act answered the request with its own number, in a state the table invariant allows. */
  ghost predicate ActOk(h: History, k: nat)
    requires k < |h.acts| && k < |h.cmds|
  {
    var a := h.acts[k];
    Own.Inv(a.before) && a.answer == Response(a.before, h.Func(), h.Request(k), a.failAt)
  }

  /** Commands are executed in order, at most one behind; what returned 0 was executed completely. */
  ghost predicate HistoryOk(h: History) {
    && h.vf < MAX_VFS
    && |h.acts| <= |h.cmds| <= |h.acts| + 1
    && h.released <= |h.acts|
    && (forall k: nat :: k < |h.acts| ==> ActOk(h, k))
    && (forall n: nat :: n in h.accepted ==> 1 <= n <= |h.acts| && h.Succeeded(n - 1))
  }

  /** How many answers have reached the VF's inbox. */
  function Answered(s: State): int {
    if s.worker.Ready? then |s.hist.acts| else |s.hist.acts| - 1
  }

  /** Only the newest request can still be pending, and exactly when it has not been executed or not been released. */
  ghost predicate ChannelOk(s: State) {
    var m, n := |s.hist.acts|, |s.hist.cmds|;
    && s.seqno == Seq(s.hist.s0, n)
    && (s.outbox.Some? <==> m < n || s.worker.Acting?)
    && (s.outbox.Some? ==> n > 0 && s.outbox.value == s.hist.Request(n - 1))
    && (s.worker.Acting? ==> m == n)
    && (!s.worker.Ready? ==> m > 0 && s.worker.answer == s.hist.acts[m - 1].answer && !s.full)
    && s.inbox == (if Answered(s) == 0 then ZeroMsg() else s.hist.acts[Answered(s) - 1].answer)
  }

  /** A message that is blank or one of the answers from number `from` on. */
  ghost predicate Recent(acts: seq<Act>, m: Msg, from: int) {
    m == ZeroMsg() || exists k: nat :: k < |acts| && from <= k && m == acts[k].answer
  }

  ghost predicate InFlight(s: State, cmd: Command) {
    && |s.hist.cmds| > 0 && s.hist.cmds[|s.hist.cmds| - 1] == cmd
    && Recent(s.hist.acts, s.resp, |s.hist.cmds| - 3)
  }

  /** From the clearing of mbox_resp on, it holds nothing older than the answer before last. */
  ghost predicate PhaseOk(s: State) {
    match s.phase
    case Rearming(_) => s.outbox.None?
    case Clearing(_) => s.outbox.None?
    case Sending(_) => s.outbox.None? && Recent(s.hist.acts, s.resp, |s.hist.cmds| - 2)
    case Waiting(cmd) => InFlight(s, cmd)
    case TimedOut(cmd) => InFlight(s, cmd)
    case Fallback(cmd, _) => InFlight(s, cmd)
    case Validating(cmd) => InFlight(s, cmd)
    case _ => true
  }

  ghost predicate Inv(s: State) {
    Own.Inv(s.pf) && HistoryOk(s.hist) && ChannelOk(s) && PhaseOk(s)
  }

  lemma InitialInv(vf: nat, s0: u32, pf: PfState)
    requires vf < MAX_VFS && Own.Inv(pf)
    ensures Inv(Initial(vf, s0, pf))
  {
    WrapSmall(s0);
  }

  /** Two sequence numbers less than 2^32 apart differ, also across the wrap. */
  lemma SeqInjective(s0: u32, a: nat, b: nat)
    requires a <= b < a + WORD
    ensures Seq(s0, a) == Seq(s0, b) <==> a == b
  {
    if a < b {
      ModDistinct(s0 + a, s0 + b, WORD);
    }
  }

  lemma SeqNext(s0: u32, n: nat)
    ensures Wrap32(Seq(s0, n) + 1) == Seq(s0, n + 1)
  {
    WrapAdd(s0 + n, 1);
  }

  lemma ZeroIsNoAnswer(cmd: Command, seqno: u32)
    ensures !Validate(cmd, seqno, ZeroMsg()).Accepted?
  {
  }

  lemma AcceptedNumber(cmd: Command, seqno: u32, m: Msg)
    requires Validate(cmd, seqno, m).Accepted?
    ensures m.seqno == seqno
  {
  }

  lemma AnswerNumber(h: History, k: nat)
    requires k < |h.acts| <= |h.cmds| && ActOk(h, k)
    ensures h.acts[k].answer.seqno == Seq(h.s0, k + 1)
  {
  }

  lemma AnswerMeansSuccess(h: History, k: nat)
    requires k < |h.acts| <= |h.cmds| && ActOk(h, k)
    ensures Validate(h.cmds[k], Seq(h.s0, k + 1), h.acts[k].answer).Accepted? <==> h.Succeeded(k)
  {
    var a := h.acts[k];
    Own.AcceptedMeansDone(a.before, h.Func(), h.cmds[k], Seq(h.s0, k + 1), a.failAt);
  }

  /** Among the answers that can be around, only the newest command's carries its number. */
  lemma NumberIsNewest(h: History, m: Msg)
    requires HistoryOk(h) && Recent(h.acts, m, |h.cmds| - 3) && m != ZeroMsg() && m.seqno == Seq(h.s0, |h.cmds|)
    ensures |h.acts| == |h.cmds| > 0 && m == h.acts[|h.acts| - 1].answer
  {
    var n := |h.cmds|;
    var k: nat :| k < |h.acts| && n - 3 <= k && m == h.acts[k].answer;
    assert ActOk(h, k);
    AnswerNumber(h, k);
    SeqInjective(h.s0, k + 1, n);
  }

  /**
    An answer the VF accepts is the PF's answer to the command the VF is waiting for, and the PF
    executed it completely. A late answer to an earlier command is refused by its sequence number.
  */
  lemma AcceptedIsOwnAnswer(s: State, cmd: Command)
    requires HistoryOk(s.hist) && InFlight(s, cmd) && s.seqno == Seq(s.hist.s0, |s.hist.cmds|)
    requires Validate(cmd, s.seqno, s.resp).Accepted?
    ensures |s.hist.acts| == |s.hist.cmds|
    ensures s.resp == s.hist.acts[|s.hist.acts| - 1].answer && s.hist.Succeeded(|s.hist.acts| - 1)
  {
    ZeroIsNoAnswer(cmd, s.seqno);
    AcceptedNumber(cmd, s.seqno, s.resp);
    NumberIsNewest(s.hist, s.resp);
    assert ActOk(s.hist, |s.hist.acts| - 1);
    AnswerMeansSuccess(s.hist, |s.hist.acts| - 1);
  }

  // ---------------------------------------------------------------------------------------------
  // Every step keeps it
  // ---------------------------------------------------------------------------------------------

  lemma InboxIsRecent(s: State)
    requires HistoryOk(s.hist) && ChannelOk(s)
    ensures Recent(s.hist.acts, s.inbox, |s.hist.acts| - 2)
  {
  }

  lemma RecentFrom(acts: seq<Act>, m: Msg, from: int, from': int)
    requires Recent(acts, m, from) && from' <= from
    ensures Recent(acts, m, from')
  {
  }

  lemma RecentGrows(acts: seq<Act>, a: Act, m: Msg, from: int)
    requires Recent(acts, m, from)
    ensures Recent(acts + [a], m, from)
  {
    if m != ZeroMsg() {
      var k: nat :| k < |acts| && from <= k && m == acts[k].answer;
      assert (acts + [a])[k].answer == m;
    }
  }

  /** A step of the VF's own that neither sends nor finishes a command. */
  ghost predicate Quiet(s: State, s': State) {
    s' == s.(phase := s'.phase, outcome := s'.outcome, resp := s'.resp, done := s'.done, irq := s'.irq, full := s'.full) && (s'.full ==> s.full)
  }

  lemma QuietKeeps(s: State, s': State)
    requires Inv(s) && Quiet(s, s') && PhaseOk(s')
    ensures Inv(s')
  {
  }

  /** Reading the inbox never makes mbox_resp older than it may be. */
  lemma ReaderKeepsPhase(s: State, r: Reader)
    requires HistoryOk(s.hist) && ChannelOk(s) && PhaseOk(s)
    ensures Quiet(s, ReaderStep(s, r).0) && PhaseOk(ReaderStep(s, r).0)
  {
    InboxIsRecent(s);
    var m, n := |s.hist.acts|, |s.hist.cmds|;
    RecentFrom(s.hist.acts, s.inbox, m - 2, n - 3);
    if s.outbox.None? {
      RecentFrom(s.hist.acts, s.inbox, m - 2, n - 2);
    }
  }

  lemma SendKeeps(s: State, cmd: Command)
    requires Inv(s) && s.phase == Sending(cmd)
    ensures Inv(SendStep(s, cmd))
  {
    var h, h' := s.hist, SendStep(s, cmd).hist;
    SeqNext(h.s0, |h.cmds|);
    forall k: nat | k < |h.acts| ensures ActOk(h', k) && h'.Succeeded(k) == h.Succeeded(k) {
      assert ActOk(h, k);
      assert h'.Request(k) == h.Request(k);
    }
  }

  lemma RecordAccepted(h: History)
    requires HistoryOk(h) && |h.acts| == |h.cmds| > 0 && h.Succeeded(|h.acts| - 1)
    ensures HistoryOk(h.(accepted := h.accepted + {|h.cmds|}))
  {
    var h' := h.(accepted := h.accepted + {|h.cmds|});
    forall k: nat | k < |h.acts| ensures ActOk(h', k) && h'.Succeeded(k) == h.Succeeded(k) {
      assert ActOk(h, k);
      ActUnchanged(h, h', k);
    }
  }

  lemma ValidateKeeps(s: State, cmd: Command)
    requires Inv(s) && s.phase == Validating(cmd)
    ensures Inv(ValidateStep(s, cmd))
  {
    if Validate(cmd, s.seqno, s.resp).Accepted? {
      AcceptedIsOwnAnswer(s, cmd);
      RecordAccepted(s.hist);
    } else {
      QuietKeeps(s, ValidateStep(s, cmd));
    }
  }

  lemma RecordAct(h: History, a: Act)
    requires HistoryOk(h) && |h.acts| < |h.cmds| && Own.Inv(a.before)
    requires a.answer == Response(a.before, h.Func(), h.Request(|h.acts|), a.failAt)
    ensures HistoryOk(h.(acts := h.acts + [a]))
  {
    var h' := h.(acts := h.acts + [a]);
    forall k: nat | k < |h'.acts| ensures ActOk(h', k) {
      if k < |h.acts| {
        assert ActOk(h, k);
        ActUnchanged(h, h', k);
      }
    }
    forall n: nat | n in h.accepted ensures h'.Succeeded(n - 1) {
      ActUnchanged(h, h', n - 1);
    }
  }

  lemma HandleKeeps(s: State, failAt: nat)
    requires Inv(s)
    ensures Inv(HandleStep(s, failAt))
  {
    if s.worker.Ready? && s.outbox.Some? && !s.full {
      var h := s.hist;
      var a := Act(s.pf, failAt, Response(s.pf, h.Func(), s.outbox.value, failAt));
      RecordAct(h, a);
      Own.StepKeepsInv(s.pf, Own.Mbox(h.Func(), s.outbox.value, failAt));
      forall from | Recent(h.acts, s.resp, from) ensures Recent(h.acts + [a], s.resp, from) {
        RecentGrows(h.acts, a, s.resp, from);
      }
    }
  }

  lemma MarkKeeps(h: History, r: nat)
    requires HistoryOk(h) && r <= |h.acts|
    ensures HistoryOk(h.(released := r))
  {
    var h' := h.(released := r);
    forall k: nat | k < |h.acts| ensures ActOk(h', k) && h'.Succeeded(k) == h.Succeeded(k) {
      assert ActOk(h, k);
      assert h'.Request(k) == h.Request(k);
    }
  }

  lemma PfMoves(s: State, pf: PfState, r: nat)
    requires Inv(s) && Own.Inv(pf) && HistoryOk(s.hist.(released := r))
    ensures Inv(s.(pf := pf, hist := s.hist.(released := r)))
  {
  }

  lemma ElsewhereKeeps(s: State, e: Own.Event)
    requires Inv(s)
    ensures Inv(ElsewhereStep(s, e))
  {
    Own.StepKeepsInv(s.pf, e);
    var s' := ElsewhereStep(s, e);
    MarkKeeps(s.hist, s'.hist.released);
    PfMoves(s, s'.pf, s'.hist.released);
  }

  lemma FallbackKeeps(s: State, cmd: Command, r: Reader)
    requires Inv(s) && s.phase == Fallback(cmd, r)
    ensures Inv(FallbackStep(s, cmd, r))
  {
    ReaderKeepsPhase(s, r);
    QuietKeeps(s, FallbackStep(s, cmd, r));
  }

  /** The remaining steps of the command thread. */
  lemma QuietContinueKeeps(s: State)
    requires Inv(s) && !s.phase.Sending? && !s.phase.Fallback? && !s.phase.Validating?
    ensures Inv(ContinueStep(s))
  {
    QuietKeeps(s, ContinueStep(s));
  }

  lemma ContinueKeeps(s: State)
    requires Inv(s)
    ensures Inv(ContinueStep(s))
  {
    match s.phase
    case Fallback(cmd, r) => FallbackKeeps(s, cmd, r);
    case Sending(cmd) => SendKeeps(s, cmd);
    case Validating(cmd) => ValidateKeeps(s, cmd);
    case _ => QuietContinueKeeps(s);
  }

  lemma InterruptKeeps(s: State)
    requires Inv(s)
    ensures Inv(Step(s, Interrupt))
  {
    ReaderKeepsPhase(s, s.irq);
    QuietKeeps(s, Step(s, Interrupt));
  }

  lemma ReceiveAndSendKeep(s: State)
    requires Inv(s)
    ensures Inv(Step(s, PfReceive)) && Inv(Step(s, PfSend))
  {
  }

  lemma LockAndTimeoutKeep(s: State, cmd: Command)
    requires Inv(s)
    ensures Inv(Step(s, Lock(cmd))) && Inv(Step(s, Timeout))
  {
    QuietKeeps(s, Step(s, Lock(cmd)));
    QuietKeeps(s, Step(s, Timeout));
  }

  lemma StepKeepsInv(s: State, e: Event)
    requires Inv(s)
    ensures Inv(Step(s, e))
  {
    match e
    case Lock(cmd) => LockAndTimeoutKeep(s, cmd);
    case Timeout => LockAndTimeoutKeep(s, GetResources);
    case Continue => ContinueKeeps(s);
    case Interrupt => InterruptKeeps(s);
    case PfHandle(failAt) => HandleKeeps(s, failAt);
    case PfReceive => ReceiveAndSendKeep(s);
    case PfSend => ReceiveAndSendKeep(s);
    case Elsewhere(e') => ElsewhereKeeps(s, e');
  }

  lemma {:induction false} RunKeepsInv(s: State, es: seq<Event>)
    requires Inv(s)
    ensures Inv(Run(s, es))
    decreases |es|
  {
    if es != [] {
      StepKeepsInv(s, es[0]);
      RunKeepsInv(Step(s, es[0]), es[1..]);
    }
  }

  // ---------------------------------------------------------------------------------------------
  // What a call returns
  // ---------------------------------------------------------------------------------------------

  /** A call that fails before it sends leaves no trace: no number used, nothing sent, nothing executed. */
  lemma RefusedCallsSendNothing(s: State)
    requires ContinueStep(s).outcome.StaleFlood? || ContinueStep(s).outcome.Busy?
    requires s.outcome.Open?
    ensures var s' := ContinueStep(s);
            && s'.seqno == s.seqno && s'.outbox == s.outbox && s'.hist == s.hist
            && (s'.outcome.Busy? ==> s.outbox.Some?)
  {
  }

  /**
    Once the VF looks at an answer, its verdict is 0 exactly when the PF executed this very command
    completely and the answer is its own. On its own answer a queue command fails with -EIO only.
  */
  lemma VerdictIsExact(s: State, cmd: Command)
    requires Inv(s) && s.phase == Validating(cmd)
    ensures var n := |s.hist.cmds|;
            var own := |s.hist.acts| == n && s.resp == s.hist.acts[n - 1].answer;
            && (ValidateStep(s, cmd).outcome == Judged(Accepted) <==> own && s.hist.Succeeded(n - 1))
            && (own && !cmd.GetResources? ==>
                  ValidateStep(s, cmd).outcome == Judged(if s.hist.Succeeded(n - 1) then Accepted else Rejected))
  {
    var n := |s.hist.cmds|;
    if Validate(cmd, s.seqno, s.resp).Accepted? {
      AcceptedIsOwnAnswer(s, cmd);
    }
    if |s.hist.acts| == n && s.resp == s.hist.acts[n - 1].answer {
      assert ActOk(s.hist, n - 1);
      AnswerMeansSuccess(s.hist, n - 1);
      if !cmd.GetResources? {
        OwnAnswerFits(s.hist, n - 1);
      }
    }
  }

  /** The PF's answer to a queue command always has the form the VF checks for. */
  lemma OwnAnswerFits(h: History, k: nat)
    requires k < |h.acts| <= |h.cmds| && ActOk(h, k) && !h.cmds[k].GetResources?
    ensures var v := Validate(h.cmds[k], Seq(h.s0, k + 1), h.acts[k].answer); v.Accepted? || v.Rejected?
  {
    var seqno := Seq(h.s0, k + 1);
    Own.RequestAims(h.cmds[k], seqno);
    QidDirRoundTrip(Own.CommandQid(h.cmds[k]), Own.CommandDir(h.cmds[k]));
  }

  // ---------------------------------------------------------------------------------------------
  // What the PF executes
  // ---------------------------------------------------------------------------------------------

  /**
    Whatever the PF executes for the VF is the VF's newest command: once a newer command was sent, no
    earlier one, timed out or not, can still take effect.
  */
  lemma OnlyTheNewestTakesEffect(s: State, failAt: nat)
    requires Inv(s) && HandleStep(s, failAt) != s
    ensures var s' := HandleStep(s, failAt);
            && |s'.hist.acts| == |s.hist.acts| + 1 == |s.hist.cmds|
            && s'.pf == Handle(s.pf, s.hist.Func(), s.hist.Request(|s.hist.cmds| - 1), failAt)
  {
  }

  /**
    In every run, requests are executed exactly once and in the order they were sent, all but
    possibly the newest; and a command returned 0 only if its own request was executed completely.
  */
  lemma ExactlyOnceInOrder(vf: nat, s0: u32, pf: PfState, es: seq<Event>)
    requires vf < MAX_VFS && Own.Inv(pf)
    ensures var h := Run(Initial(vf, s0, pf), es).hist;
            && |h.acts| <= |h.cmds| <= |h.acts| + 1
            && (forall k: nat :: k < |h.acts| ==>
                  h.acts[k].answer == Response(h.acts[k].before, h.Func(), h.Request(k), h.acts[k].failAt))
            && (forall n: nat :: n in h.accepted ==> 1 <= n <= |h.acts| && h.Succeeded(n - 1))
  {
    InitialInv(vf, s0, pf);
    RunKeepsInv(Initial(vf, s0, pf), es);
    var h := Run(Initial(vf, s0, pf), es).hist;
    forall k: nat | k < |h.acts|
      ensures h.acts[k].answer == Response(h.acts[k].before, h.Func(), h.Request(k), h.acts[k].failAt)
    {
      assert ActOk(h, k);
    }
  }

  // ---------------------------------------------------------------------------------------------
  // A command goes through
  // ---------------------------------------------------------------------------------------------

  /** The same party takes several steps. */
  function Steps(s: State, e: Event, n: nat): State
    decreases n
  {
    if n == 0 then s else Steps(Step(s, e), e, n - 1)
  }

  lemma FourSteps(s: State, e: Event)
    ensures Steps(s, e, 4) == Step(Step(Step(Step(s, e), e), e), e)
  {
    var s2 := Step(Step(s, e), e);
    assert Steps(s2, e, 2) == Step(Step(s2, e), e);
  }

  lemma FiveSteps(s: State, e: Event)
    ensures Steps(s, e, 5) == Step(Step(Step(Step(Step(s, e), e), e), e), e)
  {
    FourSteps(Step(s, e), e);
  }

  /** The request is sent and the command thread waits. */
  function Asked(s: State, cmd: Command): State {
    var seqno := Wrap32(s.seqno + 1);
    s.(phase := Waiting(cmd), outcome := Open, seqno := seqno, resp := ZeroMsg(), done := false,
       outbox := Some(Request(cmd, seqno)), hist := s.hist.(cmds := s.hist.cmds + [cmd]))
  }

  /** The PF has carried out the pending request and its answer is in the VF's inbox. */
  function Served(s: State, failAt: nat): State
    requires s.outbox.Some?
  {
    var answer := Response(s.pf, s.hist.Func(), s.outbox.value, failAt);
    s.(pf := Handle(s.pf, s.hist.Func(), s.outbox.value, failAt), outbox := None, inbox := answer, full := true,
       hist := s.hist.(acts := s.hist.acts + [Act(s.pf, failAt, answer)]))
  }

  /** The command thread is about to look at the message that was in the inbox. */
  function Found(s: State, cmd: Command, done: bool): State {
    s.(phase := Validating(cmd), resp := s.inbox, full := false, done := done)
  }

  /** With both channels free, the command thread reaches its wait in six steps and has sent the request. */
  lemma Sends(s: State, cmd: Command)
    requires s.phase.Idle? && !s.full && s.outbox.None?
    ensures Steps(Step(s, Lock(cmd)), Continue, 5) == Asked(s, cmd)
  {
    FiveSteps(Step(s, Lock(cmd)), Continue);
  }

  /** The PF's three steps carry out the request and put the answer into the VF's inbox. */
  lemma Answers(s: State, failAt: nat)
    requires s.worker.Ready? && s.outbox.Some? && !s.full
    ensures Step(Step(Step(s, PfHandle(failAt)), PfReceive), PfSend) == Served(s, failAt)
  {
  }

  /** The interrupt thread brings the message to the waiting command thread ... */
  lemma Delivers(s: State, cmd: Command)
    requires s.phase == Waiting(cmd) && s.irq.Start? && s.full
    ensures Step(Steps(s, Interrupt, 4), Continue) == Found(s, cmd, false)
  {
    FourSteps(s, Interrupt);
  }

  /** ... and without an interrupt the command thread finds it after its timeout. */
  lemma FindsAfterTimeout(s: State, cmd: Command)
    requires s.phase == Waiting(cmd) && !s.done && s.full
    ensures Steps(Step(s, Timeout), Continue, 5) == Found(s, cmd, true)
  {
    FiveSteps(Step(s, Timeout), Continue);
  }

  /** Both channels are free and nobody is in the middle of anything. */
  predicate Quiescent(s: State) {
    s.phase.Idle? && !s.full && s.outbox.None? && s.worker.Ready? && s.irq.Start?
  }

  /** The call has returned, 0 exactly when the PF carried out the request, whose effect is there either way. */
  ghost predicate Concluded(s: State, s': State, cmd: Command, failAt: nat) {
    var req := Request(cmd, Wrap32(s.seqno + 1));
    var a := Check(s.pf, s.hist.Func(), req);
    && Quiescent(s') && s'.pf == Handle(s.pf, s.hist.Func(), req, failAt)
    && (s'.outcome == Judged(Accepted) <==> a.Success? && Completes(a.value, failAt))
  }

  lemma FoundConcludes(s: State, cmd: Command, failAt: nat, done: bool)
    requires Own.Inv(s.pf) && Quiescent(s)
    ensures Concluded(s, ValidateStep(Found(Served(Asked(s, cmd), failAt), cmd, done), cmd), cmd, failAt)
  {
    Own.AcceptedMeansDone(s.pf, s.hist.Func(), cmd, Wrap32(s.seqno + 1), failAt);
  }

  /** From the request sent to the call's return, by interrupt or by the fallback after the timeout. */
  function Finished(sent: State, failAt: nat, interrupt: bool): State {
    var answered := Step(Step(Step(sent, PfHandle(failAt)), PfReceive), PfSend);
    var found := if interrupt then Step(Steps(answered, Interrupt, 4), Continue)
                 else Steps(Step(answered, Timeout), Continue, 5);
    Step(found, Continue)
  }

  lemma FinishesByInterrupt(s: State, cmd: Command, failAt: nat)
    requires Own.Inv(s.pf) && Quiescent(s)
    ensures Concluded(s, Finished(Asked(s, cmd), failAt, true), cmd, failAt)
  {
    Answers(Asked(s, cmd), failAt);
    Delivers(Served(Asked(s, cmd), failAt), cmd);
    FoundConcludes(s, cmd, failAt, false);
  }

  lemma FinishesByFallback(s: State, cmd: Command, failAt: nat)
    requires Own.Inv(s.pf) && Quiescent(s)
    ensures Concluded(s, Finished(Asked(s, cmd), failAt, false), cmd, failAt)
  {
    Answers(Asked(s, cmd), failAt);
    FindsAfterTimeout(Served(Asked(s, cmd), failAt), cmd);
    FoundConcludes(s, cmd, failAt, true);
  }

  lemma AskedFinishes(s: State, cmd: Command, failAt: nat, interrupt: bool)
    requires Own.Inv(s.pf) && Quiescent(s)
    ensures Concluded(s, Finished(Asked(s, cmd), failAt, interrupt), cmd, failAt)
  {
    if interrupt {
      FinishesByInterrupt(s, cmd, failAt);
    } else {
      FinishesByFallback(s, cmd, failAt);
    }
  }

  /**
    With free channels and the PF answering, a command returns, with or without a working interrupt,
    and returns 0 exactly when the PF carried it out.
  */
  lemma CommandCompletes(s: State, cmd: Command, failAt: nat, interrupt: bool)
    requires Inv(s) && Quiescent(s)
    ensures Concluded(s, Finished(Steps(Step(s, Lock(cmd)), Continue, 5), failAt, interrupt), cmd, failAt)
  {
    var sent := Asked(s, cmd);
    assert Steps(Step(s, Lock(cmd)), Continue, 5) == sent by {
      Sends(s, cmd);
    }
    AskedFinishes(s, cmd, failAt, interrupt);
  }

  // ---------------------------------------------------------------------------------------------
  // Stale answers are dropped
  // ---------------------------------------------------------------------------------------------

  lemma TwoMoreSteps(s: State, e: Event, n: nat)
    ensures Steps(s, e, n + 2) == Steps(Step(Step(s, e), e), e, n)
  {
  }

  /** An answer left in the inbox costs two steps more; it is dropped, and then the request is sent as from free channels. */
  lemma DropsStaleAnswer(s: State, cmd: Command)
    requires s.phase.Idle? && s.full && s.outbox.None?
    ensures var sent := Steps(Step(s, Lock(cmd)), Continue, 7);
            && sent == Asked(s.(full := false), cmd)
            && sent.phase == Waiting(cmd) && sent.outbox == Some(Request(cmd, Wrap32(s.seqno + 1)))
  {
    var s1 := Step(s, Lock(cmd));
    TwoMoreSteps(s1, Continue, 5);
    FiveSteps(Step(Step(s1, Continue), Continue), Continue);
  }

  /** So an answer left behind does not keep a command from going through. */
  lemma StaleAnswerDoesNotBlock(s: State, cmd: Command, failAt: nat, interrupt: bool)
    requires Own.Inv(s.pf) && Quiescent(s.(full := false)) && s.full
    ensures Concluded(s.(full := false), Finished(Steps(Step(s, Lock(cmd)), Continue, 7), failAt, interrupt), cmd, failAt)
  {
    var sent := Asked(s.(full := false), cmd);
    assert Steps(Step(s, Lock(cmd)), Continue, 7) == sent by {
      DropsStaleAnswer(s, cmd);
    }
    AskedFinishes(s.(full := false), cmd, failAt, interrupt);
  }

  /** The call times out and returns before the PF has looked at its request; then the PF carries it out and answers. */
  function AnsweredLate(s: State, cmd: Command, failAt: nat): State {
    var returned := Step(Step(Steps(Step(s, Lock(cmd)), Continue, 5), Timeout), Continue);
    Step(Step(Step(returned, PfHandle(failAt)), PfReceive), PfSend)
  }

  lemma AnsweredLateIs(s: State, cmd: Command, failAt: nat)
    requires Own.Inv(s.pf) && Quiescent(s)
    ensures var late := AnsweredLate(s, cmd, failAt);
            && late.outcome == NoAnswer && late.full && Quiescent(late.(full := false)) && Own.Inv(late.pf)
            && late.seqno == Wrap32(s.seqno + 1)
  {
    Sends(s, cmd);
    var returned := Step(Step(Asked(s, cmd), Timeout), Continue);
    Answers(returned, failAt);
    Own.StepKeepsInv(s.pf, Own.Mbox(s.hist.Func(), Request(cmd, Wrap32(s.seqno + 1)), failAt));
  }

  /** The call after a timed-out one whose answer came too late goes through, as after any other. */
  lemma CallAfterTimeoutCompletes(s: State, first: Command, failFirst: nat, cmd: Command, failAt: nat, interrupt: bool)
    requires Inv(s) && Quiescent(s)
    ensures var late := AnsweredLate(s, first, failFirst);
            && late.outcome == NoAnswer && late.full
            && Concluded(late.(full := false), Finished(Steps(Step(late, Lock(cmd)), Continue, 7), failAt, interrupt), cmd, failAt)
  {
    AnsweredLateIs(s, first, failFirst);
    StaleAnswerDoesNotBlock(AnsweredLate(s, first, failFirst), cmd, failAt, interrupt);
  }

  /** How many answers are still to come into the inbox while the VF sends nothing ... */
  function Coming(s: State): nat {
    (if s.outbox.Some? && !s.worker.Acting? then 1 else 0) + (if s.worker.Ready? then 0 else 1)
  }

  /** ... and with the one that is there. */
  function Owed(s: State): nat {
    Coming(s) + if s.full then 1 else 0
  }

  /** Draining is never more than two answers away from its end. */
  predicate Trickles(s: State) {
    && !s.outcome.StaleFlood?
    && (s.phase.Draining? ==> Owed(s) + s.phase.dropped <= 2)
    && (s.phase.Dropping? ==> Coming(s) + s.phase.dropped + 1 <= 2)
  }

  lemma AtMostTwoOwed(s: State)
    requires Inv(s)
    ensures Owed(s) <= 2
  {
  }

  /** No one but the command thread makes more of them. */
  lemma OthersOweNoMore(s: State, e: Event)
    requires Inv(s) && !e.Lock? && !e.Continue? && !e.Timeout?
    ensures Coming(Step(s, e)) <= Coming(s) && Owed(Step(s, e)) <= Owed(s)
    ensures Step(s, e).phase == s.phase && Step(s, e).outcome == s.outcome
  {
  }

  lemma StepTrickles(s: State, e: Event)
    requires Inv(s) && Trickles(s)
    ensures Trickles(Step(s, e))
  {
    match e
    case Lock(cmd) => AtMostTwoOwed(s);
    case Continue =>
    case Timeout =>
    case _ => OthersOweNoMore(s, e);
  }

  lemma {:induction false} RunTrickles(s: State, es: seq<Event>)
    requires Inv(s) && Trickles(s)
    ensures Trickles(Run(s, es))
    decreases |es|
  {
    if es != [] {
      StepKeepsInv(s, es[0]);
      StepTrickles(s, es[0]);
      RunTrickles(Step(s, es[0]), es[1..]);
    }
  }

  /**
    The limit of sixteen stale answers is never reached: in every run, however calls time out and answers
    come late, no call fails with -EIO while draining, and no drain drops more than two answers.
  */
  lemma NeverFlooded(vf: nat, s0: u32, pf: PfState, es: seq<Event>)
    requires vf < MAX_VFS && Own.Inv(pf)
    ensures var s := Run(Initial(vf, s0, pf), es);
            && !s.outcome.StaleFlood?
            && (s.phase.Draining? ==> s.phase.dropped <= 2)
  {
    InitialInv(vf, s0, pf);
    RunTrickles(Initial(vf, s0, pf), es);
  }

  /** The call has timed out and returned, and the PF has carried out, or still carries out, its request. */
  ghost predicate CarriedOutUnheard(s: State, s': State, cmd: Command, failAt: nat) {
    && s'.phase.Idle? && s'.outcome == NoAnswer && s'.hist.accepted == s.hist.accepted
    && s'.pf == Handle(s.pf, s.hist.Func(), Request(cmd, Wrap32(s.seqno + 1)), failAt)
  }

  /**
    An error return does not mean that nothing happened: when the answer is not there yet at the timeout,
    the call returns -ETIMEDOUT with its request carried out; and a request still in the outbox then is
    carried out after the call has returned. This holds of every command.
  */
  lemma TimedOutYetCarriedOut(s: State, cmd: Command, failAt: nat)
    requires Quiescent(s)
    ensures var sent := Steps(Step(s, Lock(cmd)), Continue, 5);
            && CarriedOutUnheard(s, Step(Step(Step(Step(sent, PfHandle(failAt)), PfReceive), Timeout), Continue), cmd, failAt)
            && CarriedOutUnheard(s, Step(Step(Step(sent, Timeout), Continue), PfHandle(failAt)), cmd, failAt)
  {
    Sends(s, cmd);
  }

  /** So a queue setup that returned an error can have left the queue's contexts installed. */
  lemma UnheardSetupStands(s: State, s': State, cmd: Command, failAt: nat)
    requires Inv(s) && CarriedOutUnheard(s, s', cmd, failAt) && !cmd.GetResources?
    requires var a := Check(s.pf, s.hist.Func(), Request(cmd, Wrap32(s.seqno + 1))); a.Success? && Completes(a.value, failAt)
    ensures var a := Check(s.pf, s.hist.Func(), Request(cmd, Wrap32(s.seqno + 1))).value;
            && Own.Target(a).Some? && s'.outcome != Judged(Accepted)
            && QueueState(s'.pf.contexts, Own.Target(a).value.0, Own.Target(a).value.1) == Own.Outcome(a)
  {
    Own.ActionOf(s.pf, s.hist.vf, cmd, Wrap32(s.seqno + 1));
    Own.HandledOutcome(s.pf, s.hist.Func(), Request(cmd, Wrap32(s.seqno + 1)), failAt);
  }

  // ---------------------------------------------------------------------------------------------
  // Acknowledged queue states persist
  // ---------------------------------------------------------------------------------------------

  /** Command b changes the queue command a was about. */
  predicate Revises(b: Command, a: Command) {
    !b.GetResources? && Own.CommandQid(b) == Own.CommandQid(a) && Own.CommandDir(b) == Own.CommandDir(a)
  }

  /** Nothing executed after act k was about its queue, and no VF resources were released since. */
  ghost predicate Current(h: History, k: nat)
    requires |h.acts| <= |h.cmds|
  {
    && k < |h.acts| && !h.cmds[k].GetResources? && h.Succeeded(k) && h.released <= k
    && forall j: nat :: k < j < |h.acts| ==> !Revises(h.cmds[j], h.cmds[k])
  }

  /** The queue that act k was about is in the state the command asked for. */
  ghost predicate Holds(pf: PfState, h: History, k: nat)
    requires k < |h.acts| <= |h.cmds| && h.Succeeded(k)
  {
    var a := h.Action(k).value;
    && Own.Target(a).Some?
    && Own.CommandQid(h.cmds[k]) < QUEUES_PER_VF
    && Own.CommandDir(h.cmds[k]) == Own.DirCode(Own.Target(a).value.1)
    && Own.Target(a).value.0 == VfBase(pf, h.vf) + Own.CommandQid(h.cmds[k])
    && QueueState(pf.contexts, Own.Target(a).value.0, Own.Target(a).value.1) == Own.Outcome(a)
  }

  ghost predicate QueuesOk(pf: PfState, h: History)
    requires |h.acts| <= |h.cmds|
  {
    forall k: nat :: k < |h.acts| && Current(h, k) ==> Holds(pf, h, k)
  }

  lemma QueueStill(pf: PfState, vf: nat, qid: nat, dir: Dir, e: Own.Event, c: Contexts)
    requires Own.Inv(pf) && vf < MAX_VFS && qid < QUEUES_PER_VF && Own.Leaves(e, VfFunc(vf), qid, Own.DirCode(dir))
    requires VfBase(pf, vf) + qid < 0x1_0000 && QueueState(pf.contexts, VfBase(pf, vf) + qid, dir) == c
    ensures VfBase(Own.Step(pf, e), vf) == VfBase(pf, vf)
    ensures QueueState(Own.Step(pf, e).contexts, VfBase(pf, vf) + qid, dir) == c
  {
    Own.StepLeavesQueue(pf, e, vf, qid, dir);
    Own.StepKeepsRange(pf, e);
  }

  /** A step of the PF that leaves act k's queue alone leaves its state. */
  lemma StillHolds(pf: PfState, h: History, k: nat, e: Own.Event)
    requires Own.Inv(pf) && HistoryOk(h) && k < |h.acts| && h.Succeeded(k) && Holds(pf, h, k)
    requires Own.Leaves(e, h.Func(), Own.CommandQid(h.cmds[k]), Own.CommandDir(h.cmds[k]))
    ensures Holds(Own.Step(pf, e), h, k)
  {
    var a := h.Action(k).value;
    QueueStill(pf, h.vf, Own.CommandQid(h.cmds[k]), Own.Target(a).value.1, e, Own.Outcome(a));
  }

  /** The PF's own execution of a request brings the queue into the state asked for. */
  lemma NewActHolds(pf: PfState, h: History, cmd: Command, seqno: u32, failAt: nat)
    requires Own.Inv(pf) && h.vf < MAX_VFS && !cmd.GetResources?
    requires var a := Check(pf, h.Func(), Request(cmd, seqno)); a.Success? && Completes(a.value, failAt)
    ensures var a := Check(pf, h.Func(), Request(cmd, seqno)).value;
            var pf' := Handle(pf, h.Func(), Request(cmd, seqno), failAt);
            && Own.Target(a).Some? && Own.CommandQid(cmd) < QUEUES_PER_VF
            && Own.CommandDir(cmd) == Own.DirCode(Own.Target(a).value.1)
            && Own.Target(a).value.0 == VfBase(pf', h.vf) + Own.CommandQid(cmd)
            && QueueState(pf'.contexts, Own.Target(a).value.0, Own.Target(a).value.1) == Own.Outcome(a)
  {
    Own.ActionOf(pf, h.vf, cmd, seqno);
    Own.PerformReachesOutcome(pf.contexts, Check(pf, h.Func(), Request(cmd, seqno)).value, failAt);
  }

  /** A request about another queue, or none, leaves act k's queue. */
  lemma OtherRequestHolds(pf: PfState, h: History, k: nat, cmd: Command, seqno: u32, failAt: nat)
    requires Own.Inv(pf) && HistoryOk(h) && k < |h.acts| && h.Succeeded(k) && Holds(pf, h, k)
    requires !Revises(cmd, h.cmds[k])
    ensures Holds(Handle(pf, h.Func(), Request(cmd, seqno), failAt), h, k)
  {
    var req := Request(cmd, seqno);
    if cmd.GetResources? {
      assert Handle(pf, h.Func(), req, failAt) == pf;
    } else {
      Own.RequestAims(cmd, seqno);
      StillHolds(pf, h, k, Own.Mbox(h.Func(), req, failAt));
    }
  }

  /** What was recorded about act k does not change when the histories grow. */
  lemma ActUnchanged(h: History, h': History, k: nat)
    requires |h.acts| <= |h.cmds| && k < |h.acts| && h.acts <= h'.acts && h.cmds <= h'.cmds
    requires |h'.acts| <= |h'.cmds| && h'.vf == h.vf && h'.s0 == h.s0
    ensures h'.acts[k] == h.acts[k] && h'.cmds[k] == h.cmds[k] && h'.Action(k) == h.Action(k)
    ensures h'.Succeeded(k) == h.Succeeded(k)
  {
    assert h'.Request(k) == h.Request(k);
  }

  lemma CurrentBefore(h: History, h': History, k: nat)
    requires |h.acts| <= |h.cmds| && k < |h.acts| && h.acts <= h'.acts && h.cmds <= h'.cmds
    requires |h'.acts| <= |h'.cmds| && h'.vf == h.vf && h'.s0 == h.s0 && h'.released == h.released
    requires Current(h', k)
    ensures Current(h, k)
  {
    ActUnchanged(h, h', k);
    forall j: nat | k < j < |h.acts| ensures !Revises(h.cmds[j], h.cmds[k]) {
      assert h'.cmds[j] == h.cmds[j];
    }
  }

  lemma HoldsAfter(pf: PfState, h: History, h': History, k: nat)
    requires |h.acts| <= |h.cmds| && k < |h.acts| && h.acts <= h'.acts && h.cmds <= h'.cmds
    requires |h'.acts| <= |h'.cmds| && h'.vf == h.vf && h'.s0 == h.s0
    requires h.Succeeded(k) && Holds(pf, h, k)
    ensures h'.Succeeded(k) && Holds(pf, h', k)
  {
    ActUnchanged(h, h', k);
  }

  lemma HandleKeepsQueues(s: State, failAt: nat)
    requires Inv(s) && QueuesOk(s.pf, s.hist) && HandleStep(s, failAt) != s
    ensures Inv(HandleStep(s, failAt)) && QueuesOk(HandleStep(s, failAt).pf, HandleStep(s, failAt).hist)
  {
    HandleKeeps(s, failAt);
    OnlyTheNewestTakesEffect(s, failAt);
    var s' := HandleStep(s, failAt);
    var m := |s.hist.acts|;
    assert s'.hist.acts[m] == Act(s.pf, failAt, s'.hist.acts[m].answer);
    forall k: nat | k < m + 1 && Current(s'.hist, k) ensures Holds(s'.pf, s'.hist, k) {
      if k == m {
        NewestHolds(s.pf, s.hist, s'.hist, failAt);
      } else {
        OlderActHolds(s.pf, s'.pf, s.hist, s'.hist, k, failAt);
      }
    }
  }

  lemma NewestHolds(pf: PfState, h: History, h': History, failAt: nat)
    requires Own.Inv(pf) && HistoryOk(h) && HistoryOk(h')
    requires |h.acts| < |h.cmds| && |h'.acts| == |h.acts| + 1 && h' == h.(acts := h'.acts)
    requires h'.acts[|h.acts|] == Act(pf, failAt, h'.acts[|h.acts|].answer)
    requires Current(h', |h.acts|)
    ensures Holds(Handle(pf, h.Func(), h.Request(|h.acts|), failAt), h', |h.acts|)
  {
    var m := |h.acts|;
    assert h'.Action(m) == Check(pf, h.Func(), Request(h.cmds[m], Seq(h.s0, m + 1)));
    NewActHolds(pf, h, h.cmds[m], Seq(h.s0, m + 1), failAt);
  }

  lemma OlderActHolds(pf: PfState, pf': PfState, h: History, h': History, k: nat, failAt: nat)
    requires Own.Inv(pf) && HistoryOk(h) && HistoryOk(h') && QueuesOk(pf, h)
    requires k < |h.acts| < |h.cmds| && |h'.acts| == |h.acts| + 1 && h' == h.(acts := h'.acts) && h.acts <= h'.acts
    requires Current(h', k) && pf' == Handle(pf, h.Func(), h.Request(|h.acts|), failAt)
    ensures Holds(pf', h', k)
  {
    var m := |h.acts|;
    CurrentBefore(h, h', k);
    OtherRequestHolds(pf, h, k, h.cmds[m], Seq(h.s0, m + 1), failAt);
    HoldsAfter(pf', h, h', k);
  }

  lemma ElsewhereKeepsQueues(s: State, e: Own.Event)
    requires Inv(s) && QueuesOk(s.pf, s.hist)
    ensures Inv(ElsewhereStep(s, e)) && QueuesOk(ElsewhereStep(s, e).pf, ElsewhereStep(s, e).hist)
  {
    ElsewhereKeeps(s, e);
    var s' := ElsewhereStep(s, e);
    if s'.hist == s.hist && s'.pf == Own.Step(s.pf, e) && !(e.Sriov? && Own.Releases(e.num, e.env)) && !(e.Mbox? && e.func == s.hist.Func()) {
      forall k: nat | k < |s.hist.acts| && Current(s.hist, k) ensures Holds(s'.pf, s.hist, k) {
        StillHolds(s.pf, s.hist, k, e);
      }
    }
  }

  /** Sending a command or recording a result changes neither the contexts nor what was executed. */
  lemma SameActsKeepQueues(pf: PfState, h: History, h': History)
    requires |h.acts| <= |h.cmds| && QueuesOk(pf, h)
    requires h'.acts == h.acts && h.cmds <= h'.cmds && h'.s0 == h.s0 && h'.vf == h.vf && h'.released == h.released
    ensures QueuesOk(pf, h')
  {
    forall k: nat | k < |h.acts| && Current(h', k) ensures Holds(pf, h', k) {
      CurrentBefore(h, h', k);
      HoldsAfter(pf, h, h', k);
    }
  }

  /** The PF and what it executed are the same. */
  predicate SamePf(s: State, s': State) {
    && s'.pf == s.pf && s'.hist.acts == s.hist.acts && s.hist.cmds <= s'.hist.cmds
    && s'.hist.s0 == s.hist.s0 && s'.hist.vf == s.hist.vf && s'.hist.released == s.hist.released
  }

  lemma ContinueExecutesNothing(s: State)
    ensures SamePf(s, ContinueStep(s))
  {
    match s.phase
    case Fallback(cmd, r) => assert SamePf(s, FallbackStep(s, cmd, r));
    case Sending(cmd) => assert SamePf(s, SendStep(s, cmd));
    case Validating(cmd) => assert SamePf(s, ValidateStep(s, cmd));
    case _ =>
  }

  lemma NothingExecuted(s: State, e: Event)
    requires !e.PfHandle? && !e.Elsewhere?
    ensures SamePf(s, Step(s, e))
  {
    match e
    case Continue => ContinueExecutesNothing(s);
    case _ =>
  }

  lemma StepKeepsQueues(s: State, e: Event)
    requires Inv(s) && QueuesOk(s.pf, s.hist)
    ensures Inv(Step(s, e)) && QueuesOk(Step(s, e).pf, Step(s, e).hist)
  {
    StepKeepsInv(s, e);
    match e
    case PfHandle(failAt) =>
      if HandleStep(s, failAt) != s {
        HandleKeepsQueues(s, failAt);
      }
    case Elsewhere(e') => ElsewhereKeepsQueues(s, e');
    case _ =>
      NothingExecuted(s, e);
      SameActsKeepQueues(s.pf, s.hist, Step(s, e).hist);
  }

  lemma {:induction false} RunKeepsQueues(s: State, es: seq<Event>)
    requires Inv(s) && QueuesOk(s.pf, s.hist)
    ensures Inv(Run(s, es)) && QueuesOk(Run(s, es).pf, Run(s, es).hist)
    decreases |es|
  {
    if es != [] {
      StepKeepsQueues(s, es[0]);
      RunKeepsQueues(Step(s, es[0]), es[1..]);
    }
  }

  /**
    In every run, of whatever interleaving, timeouts and foreign requests: a queue command that
    returned 0 left the VF's hardware queue in the state it asked for, and the queue is still in that
    state as long as the VF has sent no further command about it and no VF resources were released.
  */
  lemma AcknowledgedQueuesPersist(vf: nat, s0: u32, pf: PfState, es: seq<Event>, n: nat)
    requires vf < MAX_VFS && Own.Inv(pf)
    requires var h := Run(Initial(vf, s0, pf), es).hist;
             && n in h.accepted && 1 <= n <= |h.cmds| && !h.cmds[n - 1].GetResources? && h.released < n
             && forall j: nat :: n <= j < |h.cmds| ==> !Revises(h.cmds[j], h.cmds[n - 1])
    ensures var s := Run(Initial(vf, s0, pf), es);
            && n <= |s.hist.acts| <= |s.hist.cmds| && s.hist.Succeeded(n - 1) && Holds(s.pf, s.hist, n - 1)
  {
    InitialInv(vf, s0, pf);
    RunKeepsQueues(Initial(vf, s0, pf), es);
    assert Current(Run(Initial(vf, s0, pf), es).hist, n - 1);
  }
}
