/**
  The VF's command thread as code (onic_vf_mbox.c): what it does between the points where the interrupt
  thread, the PF and everyone else may act. Every call is a run of the protocol's steps.
*/
module VfMailbox {
  import opened Arith
  import opened Wrappers
  import opened Messages
  import opened MailboxProtocol
  import Own = QueueOwnership

  /** A step of anyone but the command thread. */
  predicate IsOther(e: Event) {
    !e.Lock? && !e.Continue? && !e.Timeout?
  }

  ghost predicate AllOthers(es: seq<Event>) {
    forall i :: 0 <= i < |es| ==> IsOther(es[i])
  }

  /** What the others do at the k-th point where they may. */
  type Script = nat -> seq<Event>

  ghost predicate Fair(script: Script) {
    forall k: nat :: AllOthers(script(k))
  }

  /** What the others leave alone: the command thread's place, its numbering, and an empty outbox. */
  ghost predicate Undisturbed(s: State, s': State) {
    && s'.phase == s.phase && s'.outcome == s.outcome && s'.seqno == s.seqno
    && s'.hist.cmds == s.hist.cmds && s'.hist.accepted == s.hist.accepted
    && (s.outbox.None? ==> s'.outbox.None?)
  }

  lemma OneUndisturbed(s: State, e: Event)
    requires IsOther(e)
    ensures Undisturbed(s, Step(s, e))
  {
  }

  lemma {:induction false} OthersUndisturbed(s: State, es: seq<Event>)
    requires AllOthers(es)
    ensures Undisturbed(s, Run(s, es))
    decreases |es|
  {
    if es != [] {
      OneUndisturbed(s, es[0]);
      OthersUndisturbed(Step(s, es[0]), es[1..]);
    }
  }

  lemma {:induction false} RunAppend(s: State, es: seq<Event>, fs: seq<Event>)
    ensures Run(s, es + fs) == Run(Run(s, es), fs)
    decreases |es|
  {
    if es == [] {
      assert es + fs == fs;
    } else {
      assert (es + fs)[1..] == es[1..] + fs;
      RunAppend(Step(s, es[0]), es[1..], fs);
    }
  }

  lemma RunOne(s: State, e: Event)
    ensures Run(s, [e]) == Step(s, e)
  {
    assert [e][1..] == [];
  }

  /** The message found is read and acknowledged, with the others acting in between. */
  ghost function AfterDrop(s: State, others: seq<Event>): State {
    Step(Run(Step(s, Continue), others), Continue)
  }

  /** The state before the k-th look of the draining loop, and at it, when every look before found a message. */
  ghost function BeforeLook(s: State, script: Script, k: nat): State
    decreases k, 0
  {
    if k == 0 then s
    else
      var j := k - 1;
      AfterDrop(AtLook(s, script, j), script(2 * j + 1))
  }

  ghost function AtLook(s: State, script: Script, k: nat): State
    decreases k, 1
  {
    Run(BeforeLook(s, script, k), script(2 * k))
  }

  /** A message was there at each of the first n looks. */
  ghost predicate AlwaysFull(s: State, script: Script, n: nat) {
    forall k: nat :: k < n ==> AtLook(s, script, k).full
  }

  lemma LookOnce(s: State, script: Script, k: nat, at: State, again: State)
    requires at == AtLook(s, script, k) && at.full && AlwaysFull(s, script, k)
    requires again == AfterDrop(at, script(2 * k + 1))
    ensures again == BeforeLook(s, script, k + 1) && AlwaysFull(s, script, k + 1)
  {
  }

  /** A drain that begins in a state of the protocol does not end in -EIO. */
  lemma DrainEnds(s: State, es: seq<Event>)
    requires Inv(s) && s.phase.Draining? && s.phase.dropped == 0 && !s.outcome.StaleFlood?
    ensures !Run(s, es).outcome.StaleFlood?
  {
    AtMostTwoOwed(s);
    RunTrickles(s, es);
  }

  class CommandThread {
    /** The whole system; the thread touches only what is its own or the mailbox registers. */
    var s: State
    ghost const first: State
    ghost var trace: seq<Event>

    /** Everything so far has been a run of the protocol. */
    ghost predicate Valid()
      reads this
    {
      s == Run(first, trace)
    }

    constructor (s0: State)
      ensures Valid() && s == s0 && first == s0 && trace == []
    {
      s, first, trace := s0, s0, [];
    }

    method Others(es: seq<Event>)
      requires Valid() && AllOthers(es)
      modifies this
      ensures Valid() && old(trace) <= trace && Undisturbed(old(s), s) && s == Run(old(s), es)
    {
      RunAppend(first, trace, es);
      OthersUndisturbed(s, es);
      s := Run(s, es);
      trace := trace + es;
    }

    /** The thread's own action, which must be the step the protocol has it take. */
    method Act(e: Event, s': State)
      requires Valid() && s' == Step(s, e)
      modifies this
      ensures Valid() && old(trace) <= trace && s == s'
    {
      RunAppend(first, trace, [e]);
      RunOne(s, e);
      s := s';
      trace := trace + [e];
    }

    /** The body of the draining loop once a message was found. */
    method DropOne(cmd: Command, dropped: nat, others: seq<Event>)
      requires Valid() && s.phase == Draining(cmd, dropped) && dropped < MAX_STALE && s.full && AllOthers(others)
      modifies this
      ensures Valid() && old(trace) <= trace && s == AfterDrop(old(s), others)
      ensures s.phase == Draining(cmd, dropped + 1) && s.outcome == old(s.outcome)
      ensures s.seqno == old(s.seqno) && s.hist.cmds == old(s.hist.cmds) && s.hist.accepted == old(s.hist.accepted)
    {
      Act(Continue, s.(phase := Dropping(cmd, dropped)));
      Others(others);
      Act(Continue, s.(full := false, phase := Draining(cmd, dropped + 1)));
    }

    /** The draining loop: up to 16 looks, each message found is dropped. */
    method Drain(cmd: Command, script: Script) returns (ok: bool)
      requires Valid() && s.phase == Draining(cmd, 0) && Fair(script)
      modifies this
      ensures Valid() && old(trace) <= trace
      ensures s.phase == if ok then Checking(cmd) else Draining(cmd, MAX_STALE)
      ensures s.outcome == old(s.outcome)
      ensures s.seqno == old(s.seqno) && s.hist.cmds == old(s.hist.cmds) && s.hist.accepted == old(s.hist.accepted)
      ensures !ok <==> AlwaysFull(old(s), script, 16)
    {
      ghost var s0 := s;
      var dropped := 0;
      while dropped < MAX_STALE
        invariant dropped <= MAX_STALE && Valid() && old(trace) <= trace && s.phase == Draining(cmd, dropped)
        invariant s == BeforeLook(s0, script, dropped) && AlwaysFull(s0, script, dropped)
        invariant s.outcome == s0.outcome && s.seqno == s0.seqno
        invariant s.hist.cmds == s0.hist.cmds && s.hist.accepted == s0.hist.accepted
      {
        Others(script(2 * dropped));
        ghost var at := s;
        assert at == AtLook(s0, script, dropped);
        if !s.full {
          Act(Continue, s.(phase := Checking(cmd)));
          return true;
        }
        DropOne(cmd, dropped, script(2 * dropped + 1));
        LookOnce(s0, script, dropped, at, s);
        dropped := dropped + 1;
      }
      return false;
    }

    /**
      onic_vf_mbox_drop_stale_responses; 16 messages in a row are too many even if none is left. It gives
      up only if a message was there at all 16 looks, which never happens in a run of the protocol.
    */
    method DropStale(cmd: Command, script: Script) returns (ok: bool)
      requires Valid() && s.phase == Draining(cmd, 0) && Fair(script)
      modifies this
      ensures Valid() && old(trace) <= trace
      ensures s.phase == if ok then Checking(cmd) else Idle
      ensures s.outcome == if ok then old(s.outcome) else StaleFlood
      ensures s.seqno == old(s.seqno) && s.hist.cmds == old(s.hist.cmds) && s.hist.accepted == old(s.hist.accepted)
      ensures !ok <==> AlwaysFull(old(s), script, 16)
      ensures Inv(old(s)) && !old(s.outcome).StaleFlood? ==> ok
    {
      ghost var s0, had := s, trace;
      ok := Drain(cmd, script);
      if !ok {
        Act(Continue, s.(phase := Idle, outcome := StaleFlood));
      }
      ghost var since := trace[|had|..];
      assert trace == had + since;
      RunAppend(first, had, since);
      if Inv(s0) && !s0.outcome.StaleFlood? {
        DrainEnds(s0, since);
      }
    }

    /** The message is read into mbox_resp and acknowledged. */
    method TakeMessage(cmd: Command, script: Script)
      requires Valid() && s.phase == Fallback(cmd, Seen) && Fair(script)
      modifies this
      ensures Valid() && old(trace) <= trace && s.phase == Fallback(cmd, Acked) && s.outcome == old(s.outcome)
      ensures s.seqno == old(s.seqno) && s.hist.cmds == old(s.hist.cmds) && s.hist.accepted == old(s.hist.accepted)
    {
      Others(script(1));
      Act(Continue, s.(resp := s.inbox, phase := Fallback(cmd, Copied)));
      Others(script(2));
      Act(Continue, s.(full := false, phase := Fallback(cmd, Acked)));
    }

    /** onic_vf_mbox_process_one on the thread's own account; whether there was a message. */
    method ProcessOne(cmd: Command, script: Script) returns (found: bool)
      requires Valid() && s.phase == Fallback(cmd, Start) && Fair(script)
      modifies this
      ensures Valid() && old(trace) <= trace
      ensures s.phase == if found then Validating(cmd) else Idle
      ensures s.outcome == if found then old(s.outcome) else NoAnswer
      ensures s.seqno == old(s.seqno) && s.hist.cmds == old(s.hist.cmds) && s.hist.accepted == old(s.hist.accepted)
    {
      Others(script(0));
      if !s.full {
        Act(Continue, s.(phase := Idle, outcome := NoAnswer));
        return false;
      }
      Act(Continue, s.(phase := Fallback(cmd, Seen)));
      TakeMessage(cmd, script);
      Others(script(3));
      Act(Continue, s.(done := true, phase := Validating(cmd)));
      return true;
    }

    /** The request gets its number and is sent. */
    method Post(cmd: Command)
      requires Valid() && s.phase == Sending(cmd)
      modifies this
      ensures Valid() && old(trace) <= trace && s.phase == Waiting(cmd) && s.outcome == old(s.outcome)
      ensures s.seqno == Wrap32(old(s.seqno) + 1) && s.outbox == Some(Request(cmd, s.seqno))
      ensures s.hist.cmds == old(s.hist.cmds) + [cmd] && s.hist.accepted == old(s.hist.accepted)
    {
      var seqno := Wrap32(s.seqno + 1);
      Act(Continue, s.(seqno := seqno, outbox := Some(Request(cmd, seqno)), phase := Waiting(cmd),
                       hist := s.hist.(cmds := s.hist.cmds + [cmd])));
    }

    /** From the free outbox to the request sent: rearm, blank the answer, number and send. */
    method SendRequest(cmd: Command, script: Script)
      requires Valid() && s.phase == Rearming(cmd) && Fair(script)
      modifies this
      ensures Valid() && old(trace) <= trace && s.phase == Waiting(cmd) && s.outcome == old(s.outcome)
      ensures s.seqno == Wrap32(old(s.seqno) + 1) && s.outbox == Some(Request(cmd, s.seqno))
      ensures s.hist.cmds == old(s.hist.cmds) + [cmd] && s.hist.accepted == old(s.hist.accepted)
    {
      Others(script(0));
      Act(Continue, s.(done := false, phase := Clearing(cmd)));
      Others(script(1));
      Act(Continue, s.(resp := ZeroMsg(), phase := Sending(cmd)));
      Others(script(2));
      Post(cmd);
    }

    /** The wait for the completion, and the look into the inbox when it runs out; whether to validate. */
    method AwaitAnswer(cmd: Command, script: Script, last: Script) returns (found: bool)
      requires Valid() && s.phase == Waiting(cmd) && Fair(script) && Fair(last)
      modifies this
      ensures Valid() && old(trace) <= trace
      ensures s.phase == if found then Validating(cmd) else Idle
      ensures s.outcome == if found then old(s.outcome) else NoAnswer
      ensures s.seqno == old(s.seqno) && s.hist.cmds == old(s.hist.cmds) && s.hist.accepted == old(s.hist.accepted)
    {
      Others(script(0));
      if s.done {
        Act(Continue, s.(done := false, phase := Validating(cmd)));
        return true;
      }
      Act(Timeout, s.(phase := TimedOut(cmd)));
      Others(script(1));
      if !s.full {
        Act(Continue, s.(phase := Idle, outcome := NoAnswer));
        return false;
      }
      Act(Continue, s.(phase := Fallback(cmd, Start)));
      found := ProcessOne(cmd, last);
    }

    /** The last block: the answer is checked and the call returns. */
    method ValidateAnswer(cmd: Command)
      requires Valid() && s.phase == Validating(cmd)
      modifies this
      ensures Valid() && old(trace) <= trace && s.phase.Idle? && s.outcome == Judged(Validate(cmd, old(s.seqno), old(s.resp)))
      ensures s.seqno == old(s.seqno) && s.hist.cmds == old(s.hist.cmds)
      ensures s.hist.accepted == if s.outcome == Judged(Accepted) then old(s.hist.accepted) + {|s.hist.cmds|} else old(s.hist.accepted)
    {
      var verdict := Validate(cmd, s.seqno, s.resp);
      var s' := s.(phase := Idle, outcome := Judged(verdict));
      if verdict.Accepted? {
        s' := s'.(hist := s.hist.(accepted := s.hist.accepted + {|s.hist.cmds|}));
      }
      Act(Continue, s');
    }

    /** The look at the outbox: nothing is sent while the last request is unread. */
    method CheckOutbox(cmd: Command, es: seq<Event>) returns (free: bool)
      requires Valid() && s.phase == Checking(cmd) && AllOthers(es)
      modifies this
      ensures Valid() && old(trace) <= trace
      ensures s.phase == if free then Rearming(cmd) else Idle
      ensures s.outcome == if free then old(s.outcome) else Busy
      ensures s.seqno == old(s.seqno) && s.hist.cmds == old(s.hist.cmds) && s.hist.accepted == old(s.hist.accepted)
      ensures free <==> Run(old(s), es).outbox.None?
    {
      Others(es);
      free := s.outbox.None?;
      if free {
        Act(Continue, s.(phase := Rearming(cmd)));
      } else {
        Act(Continue, s.(phase := Idle, outcome := Busy));
      }
    }

    /** The whole exchange, from the free outbox to the verdict. */
    method Exchange(cmd: Command, b: Script, c: Script, d: Script)
      requires Valid() && s.phase == Rearming(cmd) && s.outcome.Open? && Fair(b) && Fair(c) && Fair(d)
      modifies this
      ensures Valid() && old(trace) <= trace && s.phase.Idle? && (s.outcome.NoAnswer? || s.outcome.Judged?)
      ensures s.seqno == Wrap32(old(s.seqno) + 1) && s.hist.cmds == old(s.hist.cmds) + [cmd]
      ensures s.hist.accepted == if s.outcome == Judged(Accepted) then old(s.hist.accepted) + {|s.hist.cmds|} else old(s.hist.accepted)
    {
      SendRequest(cmd, b);
      var found := AwaitAnswer(cmd, c, d);
      if found {
        ValidateAnswer(cmd);
      }
    }

    /** What the invariant says of the newest command once its call has returned. */
    ghost predicate NewestDone()
      reads this
    {
      |s.hist.acts| == |s.hist.cmds| > 0 && s.hist.Succeeded(|s.hist.cmds| - 1)
    }

    ghost method Conclude()
      requires Valid()
      ensures Inv(first) ==> Inv(s)
      ensures Inv(first) && |s.hist.cmds| in s.hist.accepted ==> NewestDone()
    {
      if Inv(first) {
        RunKeepsInv(first, trace);
      }
    }

    /**
      onic_vf_mbox_send_queue_cmd and onic_vf_mbox_get_queue_resource, whatever the others do meanwhile.
      It returns with the lock free. A number is used and a request sent exactly when it did not fail
      before; and 0 means that the PF carried out this very command.
    */
    method SendCommand(cmd: Command, a: Script, b: Script, c: Script, d: Script) returns (r: Outcome)
      requires Valid() && s.phase.Idle?
      requires Fair(a) && Fair(b) && Fair(c) && Fair(d)
      modifies this
      ensures Valid() && old(trace) <= trace && s.phase.Idle? && r == s.outcome && !r.Open?
      ensures r.StaleFlood? || r.Busy? ==> s.seqno == old(s.seqno) && s.hist.cmds == old(s.hist.cmds)
      ensures r.NoAnswer? || r.Judged? ==> s.seqno == Wrap32(old(s.seqno) + 1) && s.hist.cmds == old(s.hist.cmds) + [cmd]
      ensures s.hist.accepted == if r == Judged(Accepted) then old(s.hist.accepted) + {|s.hist.cmds|} else old(s.hist.accepted)
      ensures Inv(first) ==> Inv(s) && !r.StaleFlood?
      ensures Inv(first) && r == Judged(Accepted) ==> NewestDone()
    {
      Conclude();
      Act(Lock(cmd), s.(phase := Draining(cmd, 0), outcome := Open));
      Conclude();
      var ok := DropStale(cmd, a);
      if ok {
        var free := CheckOutbox(cmd, b(0));
        if free {
          Exchange(cmd, b, c, d);
        }
      }
      Conclude();
      return s.outcome;
    }
  }
}
