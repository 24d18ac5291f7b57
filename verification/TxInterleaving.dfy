/**
  The VF transmit ring with the transmitter, the cleaner and the hardware running at the same time
  (onic_vf_netdev.c, onic_vf_qdma.c): every step of the three parties is atomic, and the steps may
  interleave in any order. The hardware is well behaved: it consumes what the doorbell announced and
  writes back a position it has reached.
*/
module TxInterleaving {
  import opened Arith
  import opened Wrappers
  import opened VfTxRing

  /** The cleaner holds state bit 0 while it is `Active`; `cidx` is what it read from the writeback word. */
  datatype Cleaner = Resting | Active(cidx: nat, work: nat)

  /** The transmit path is serialized by the network stack: one packet at a time. */
  datatype Transmitter = Ready | Admitted | Stored

  /**
    Unbounded positions: packets stored, announced by the doorbell, consumed, written back and
    cleaned, and the position the cleaner is working towards. Packet k is the k-th ever stored.
  */
  datatype Positions = Positions(stored: nat, rung: nat, consumed: nat, written: nat, target: nat, cleaned: nat)

  datatype State = State(
    buffer: seq<Option<nat>>, nextToUse: nat, nextToClean: nat,
    cleaner: Cleaner, xmit: Transmitter,
    doorbell: nat, writeback: nat,
    freed: seq<nat>, pos: Positions)

  datatype Event =
    | CleanBegin
    | CleanNext
    | XmitCheck
    | XmitStore
    | XmitRing
    | HwConsume
    | HwWriteBack(upTo: nat)

  /** Indices are inside the ring. */
  predicate WellFormed(s: State) {
    s.nextToUse < |s.buffer| && s.nextToClean < |s.buffer|
  }

  function Step(s: State, e: Event): (s': State)
    requires WellFormed(s)
    ensures WellFormed(s') && |s'.buffer| == |s.buffer|
  {
    var n := |s.buffer|;
    match e
    case CleanBegin =>
      if s.cleaner.Active? then s
      else s.(cleaner := Active(s.writeback, 0), pos := s.pos.(target := s.pos.written))
    case CleanNext =>
      if s.cleaner.Resting? then s
      else if s.nextToClean != s.cleaner.cidx && s.cleaner.work < n
      then s.(freed := s.freed + (if s.buffer[s.nextToClean].Some? then [s.buffer[s.nextToClean].value] else []),
              buffer := s.buffer[s.nextToClean := None],
              nextToClean := Inc(s.nextToClean, n),
              cleaner := Active(s.cleaner.cidx, s.cleaner.work + 1),
              pos := s.pos.(cleaned := s.pos.cleaned + 1))
      else s.(cleaner := Resting)
    case XmitCheck =>
      if s.xmit.Ready? && !RingFull(s.nextToUse, s.nextToClean, n) then s.(xmit := Admitted) else s
    case XmitStore =>
      if s.xmit.Admitted?
      then s.(buffer := s.buffer[s.nextToUse := Some(s.pos.stored)],
              nextToUse := Inc(s.nextToUse, n),
              xmit := Stored,
              pos := s.pos.(stored := s.pos.stored + 1))
      else s
    case XmitRing =>
      if s.xmit.Stored? then s.(doorbell := s.nextToUse, xmit := Ready, pos := s.pos.(rung := s.pos.stored)) else s
    case HwConsume =>
      if s.pos.consumed < s.pos.rung then s.(pos := s.pos.(consumed := s.pos.consumed + 1)) else s
    case HwWriteBack(upTo) =>
      if s.pos.written <= upTo <= s.pos.consumed
      then s.(writeback := upTo % n, pos := s.pos.(written := upTo))
      else s
  }

  function Run(s: State, es: seq<Event>): State
    requires WellFormed(s)
    decreases |es|
  {
    if es == [] then s else Run(Step(s, es[0]), es[1..])
  }

  function NewRing(n: nat): State
    requires n > 0
  {
    State(seq(n, _ => None), 0, 0, Resting, Ready, 0, 0, [], Positions(0, 0, 0, 0, 0, 0))
  }

  // ---------------------------------------------------------------------------------------------
  // The invariant
  // ---------------------------------------------------------------------------------------------

  /** cleaned <= target <= written <= consumed <= rung <= stored <= cleaned + n - 1. */
  ghost predicate Chain(p: Positions, n: nat) {
    p.cleaned <= p.target <= p.written <= p.consumed <= p.rung <= p.stored < p.cleaned + n
  }

  ghost predicate Indices(s: State)
    requires WellFormed(s)
  {
    var n := |s.buffer|;
    && s.nextToUse == s.pos.stored % n && s.nextToClean == s.pos.cleaned % n
    && s.doorbell == s.pos.rung % n && s.writeback == s.pos.written % n
  }

  ghost predicate Phases(s: State) {
    var n := |s.buffer|;
    && (s.cleaner.Active? ==> n > 0 && s.cleaner.cidx == s.pos.target % n
                              && s.cleaner.work + (s.pos.target - s.pos.cleaned) < n)
    && (s.cleaner.Resting? ==> s.pos.cleaned == s.pos.target)
    && (s.xmit.Admitted? ==> s.pos.stored + 1 < s.pos.cleaned + n)
    && s.pos.stored == s.pos.rung + if s.xmit.Stored? then 1 else 0
  }

  /** The occupied slots are those of the packets stored and not yet cleaned, each in its own place. */
  ghost predicate Buffers(buffer: seq<Option<nat>>, cleaned: nat, stored: nat) {
    && (forall k :: cleaned <= k < stored && |buffer| > 0 ==> buffer[k % |buffer|] == Some(k))
    && (forall i :: 0 <= i < |buffer| && buffer[i].Some? ==> cleaned <= buffer[i].value < stored && buffer[i].value % |buffer| == i)
  }

  ghost predicate Inv(s: State) {
    && WellFormed(s)
    && Chain(s.pos, |s.buffer|)
    && Indices(s)
    && Phases(s)
    && Buffers(s.buffer, s.pos.cleaned, s.pos.stored)
    && s.freed == seq(s.pos.cleaned, i => i)
  }

  lemma IncIsModSucc(k: nat, n: nat)
    requires n > 0
    ensures Inc(k % n, n) == (k + 1) % n
  {
    ModSucc(k, n);
  }

  /** The full test on indices, in terms of positions. */
  lemma FullMeansFull(p: Positions, n: nat)
    requires n > 0 && Chain(p, n)
    ensures RingFull(p.stored % n, p.cleaned % n, n) <==> p.stored + 1 == p.cleaned + n
  {
    IncIsModSucc(p.stored, n);
    if p.stored + 1 < p.cleaned + n {
      ModDistinct(p.cleaned, p.stored + 1, n);
    } else {
      ModAddMultiple(p.cleaned, 1, n);
    }
  }

  lemma BuffersAfterClean(buffer: seq<Option<nat>>, cleaned: nat, stored: nat)
    requires Buffers(buffer, cleaned, stored) && cleaned < stored <= cleaned + |buffer|
    ensures buffer[cleaned % |buffer|] == Some(cleaned)
    ensures Buffers(buffer[cleaned % |buffer| := None], cleaned + 1, stored)
  {
    var n := |buffer|;
    forall k | cleaned + 1 <= k < stored
      ensures buffer[cleaned % n := None][k % n] == Some(k)
    {
      ModDistinct(cleaned, k, n);
    }
  }

  lemma BuffersAfterStore(buffer: seq<Option<nat>>, cleaned: nat, stored: nat)
    requires Buffers(buffer, cleaned, stored) && cleaned <= stored < cleaned + |buffer|
    ensures buffer[stored % |buffer|] == None
    ensures Buffers(buffer[stored % |buffer| := Some(stored)], cleaned, stored + 1)
  {
    var n := |buffer|;
    var i := stored % n;
    if buffer[i].Some? {
      ModDistinct(buffer[i].value, stored, n);
      assert false;
    }
    forall k | cleaned <= k < stored + 1
      ensures buffer[i := Some(stored)][k % n] == Some(k)
    {
      if k < stored {
        ModDistinct(k, stored, n);
      }
    }
  }

  lemma CleanNextKeeps(s: State)
    requires Inv(s) && s.cleaner.Active?
    ensures Inv(Step(s, CleanNext))
    ensures Step(s, CleanNext).cleaner.Active? ==>
              Step(s, CleanNext).freed == s.freed + [s.pos.cleaned] && s.pos.cleaned < s.pos.consumed
  {
    var n, p := |s.buffer|, s.pos;
    if p.cleaned < p.target {
      ModDistinct(p.cleaned, p.target, n);
      BuffersAfterClean(s.buffer, p.cleaned, p.stored);
      IncIsModSucc(p.cleaned, n);
      assert seq(p.cleaned + 1, i => i) == seq(p.cleaned, i => i) + [p.cleaned];
    }
  }

  lemma XmitStoreKeeps(s: State)
    requires Inv(s) && s.xmit.Admitted?
    ensures Inv(Step(s, XmitStore)) && s.buffer[s.nextToUse] == None
  {
    BuffersAfterStore(s.buffer, s.pos.cleaned, s.pos.stored);
    IncIsModSucc(s.pos.stored, |s.buffer|);
  }

  lemma StepKeepsInv(s: State, e: Event)
    requires Inv(s)
    ensures Inv(Step(s, e))
  {
    match e
    case CleanNext =>
      if s.cleaner.Active? {
        CleanNextKeeps(s);
      }
    case XmitStore =>
      if s.xmit.Admitted? {
        XmitStoreKeeps(s);
      }
    case XmitCheck => FullMeansFull(s.pos, |s.buffer|);
    case _ =>
  }

  lemma {:induction false} RunKeepsInv(s: State, es: seq<Event>)
    requires Inv(s)
    ensures Inv(Run(s, es))
    decreases |es|
  {
    if es != [] {
      StepKeepsInv(s, es[0]);
      RunKeepsInv(Step(s, es[0]), es[1..]);
    }
  }

  lemma NewRingInv(n: nat)
    requires n > 0
    ensures Inv(NewRing(n))
  {
  }

  /**
    Main result, for every interleaving: packets are freed once each, in the order they were queued,
    only after the hardware consumed them, and every other queued packet is still in its buffer.
  */
  lemma FreedOnceInOrderAfterUse(n: nat, es: seq<Event>)
    requires n > 0
    ensures var s := Run(NewRing(n), es);
            && WellFormed(s) && |s.buffer| > 0
            && s.freed == seq(|s.freed|, i => i)
            && |s.freed| <= s.pos.consumed <= s.pos.rung <= s.pos.stored < |s.freed| + |s.buffer|
            && forall k :: |s.freed| <= k < s.pos.stored ==> s.buffer[k % |s.buffer|] == Some(k)
  {
    NewRingInv(n);
    RunKeepsInv(NewRing(n), es);
  }

  // ---------------------------------------------------------------------------------------------
  // Nothing gets stuck
  // ---------------------------------------------------------------------------------------------

  function Rounds(k: nat): (es: seq<Event>)
    ensures |es| == k
  {
    if k == 0 then [] else [CleanNext] + Rounds(k - 1)
  }

  /** A cleaning pass left alone frees everything up to the position it read, and lets go of the ring. */
  lemma {:induction false} CleaningPassCompletes(s: State)
    requires Inv(s) && s.cleaner.Active?
    ensures var s' := Run(s, Rounds(s.pos.target - s.pos.cleaned + 1));
            && Inv(s') && s'.cleaner.Resting?
            && s'.pos == s.pos.(cleaned := s.pos.target) && |s'.freed| == s.pos.target
            && s'.nextToUse == s.nextToUse && s'.xmit == s.xmit
    decreases s.pos.target - s.pos.cleaned
  {
    var s1 := Step(s, CleanNext);
    CleanNextKeeps(s);
    var rest := Rounds(s.pos.target - s.pos.cleaned);
    assert Rounds(s.pos.target - s.pos.cleaned + 1)[1..] == rest;
    if s.pos.cleaned < s.pos.target {
      ModDistinct(s.pos.cleaned, s.pos.target, |s.buffer|);
      CleaningPassCompletes(s1);
    }
  }

  /** So a pass begun and left alone frees everything the hardware had written back when it began. */
  lemma PassFreesWhatWasWritten(s: State)
    requires Inv(s) && s.cleaner.Resting?
    ensures var s' := Run(Step(s, CleanBegin), Rounds(s.pos.written - s.pos.cleaned + 1));
            && Inv(s') && s'.cleaner.Resting?
            && s'.pos == s.pos.(target := s.pos.written, cleaned := s.pos.written)
            && s'.freed == seq(s.pos.written, i => i)
            && s'.nextToUse == s.nextToUse && s'.xmit == s.xmit
  {
    StepKeepsInv(s, CleanBegin);
    CleaningPassCompletes(Step(s, CleanBegin));
  }

  /** A transmit that finds room stores the next packet and announces it; one that finds none changes nothing. */
  lemma TransmitCompletes(s: State)
    requires Inv(s) && s.xmit.Ready?
    ensures var s' := Step(Step(Step(s, XmitCheck), XmitStore), XmitRing);
            if s.pos.stored + 1 == s.pos.cleaned + |s.buffer| then s' == s
            else && Inv(s') && s'.xmit.Ready?
                 && s'.pos == s.pos.(stored := s.pos.stored + 1, rung := s.pos.stored + 1)
                 && s'.doorbell == s'.nextToUse == (s.pos.stored + 1) % |s.buffer|
                 && s'.buffer[s.nextToUse] == Some(s.pos.stored)
  {
    FullMeansFull(s.pos, |s.buffer|);
    var s1 := Step(s, XmitCheck);
    var s2 := Step(s1, XmitStore);
    StepKeepsInv(s, XmitCheck);
    StepKeepsInv(s1, XmitStore);
    StepKeepsInv(s2, XmitRing);
  }
}
