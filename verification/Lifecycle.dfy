/**
  Bringing the VF interface up and down (onic_vf_netdev.c, onic_vf_qdma.c): rings, queue contexts set
  up and torn down over the mailbox, NAPI, and the rollback of a failed start.
*/
module Lifecycle {
  import opened QueueContexts

  const MAX_QUEUES: nat := 64
  const RX_DESC_STEP: nat := 256
  const RX_REAL_COUNT: nat := 1023

  /** `tx_queue[qid]` or `rx_queue[qid]`: no queue, or one with its state bits; `gen` tells allocations apart. */
  datatype Slot = Empty | Queue(gen: nat, configured: bool, napi: bool)

  /** One queue object ever allocated. */
  datatype Ring = Ring(dir: Dir, qid: nat, gen: nat)

  datatype Op = Config | Clear

  /** What the PF did about a queue in answer to a command, sooner or later. */
  datatype Effect = Unchanged | SetUp | TornDown

  /**
    How a mailbox command ended: whether it returned 0, and what the PF did. A command that returned an
    error may have been refused, may have failed half way and torn the queue down, may never reach the
    PF, or may be carried out all the same, even after the VF has given up waiting.
  */
  datatype Reply = Reply(ok: bool, effect: Effect)

  predicate ConfigReply(r: Reply) {
    r.ok ==> r.effect == SetUp
  }

  predicate ClearReply(r: Reply) {
    r.effect != SetUp && (r.ok ==> r.effect == TornDown)
  }

  datatype Call = Call(op: Op, dir: Dir, qid: nat, reply: Reply)

  /** How one ring allocation ends; a receive allocation can return 0 without a ring. */
  datatype Alloc = Made | Nothing | Failed

  type Answers = s: seq<bool> | |s| == 64 witness seq(64, _ => false)
  type Allocs = s: seq<Alloc> | |s| == 64 witness seq(64, _ => Failed)
  type ConfigReplies = s: seq<Reply> | |s| == 64 && forall i :: 0 <= i < 64 ==> ConfigReply(s[i])
    witness seq(64, _ => Reply(false, Unchanged))
  type ClearReplies = s: seq<Reply> | |s| == 64 && forall i :: 0 <= i < 64 ==> ClearReply(s[i])
    witness seq(64, _ => Reply(false, Unchanged))

  /** What memory and the mailbox contribute to one call; a queue is configured and cleared at most once in it. */
  datatype Env = Env(txAlloc: Answers, rxAlloc: Allocs, txConfig: ConfigReplies, rxConfig: ConfigReplies,
                     txClear: ClearReplies, rxClear: ClearReplies) {
    function TxHow(): (h: Allocs)
      ensures forall i :: 0 <= i < MAX_QUEUES ==> h[i] == if txAlloc[i] then Made else Failed
    {
      seq(MAX_QUEUES, i requires 0 <= i < MAX_QUEUES => if txAlloc[i] then Made else Failed)
    }
  }

  // ---------------------------------------------------------------------------------------------
  // What the PF holds, and what it is known to hold
  // ---------------------------------------------------------------------------------------------

  /** What the VF has been told, or what is the case. */
  datatype View = Acknowledged | Actual

  function Seen(view: View, r: Reply): Effect {
    if view.Acknowledged? && !r.ok then Unchanged else r.effect
  }

  function Updated(before: bool, e: Effect): bool {
    match e
    case Unchanged => before
    case SetUp => true
    case TornDown => false
  }

  /** A context for this queue is set up, as far as the view shows. */
  function Stands(calls: seq<Call>, view: View, dir: Dir, qid: nat): bool {
    if calls == [] then false
    else
      var c := calls[|calls| - 1];
      var before := Stands(calls[..|calls| - 1], view, dir, qid);
      if c.dir == dir && c.qid == qid then Updated(before, Seen(view, c.reply)) else before
  }

  lemma StandsLast(calls: seq<Call>, c: Call, view: View, dir: Dir, qid: nat)
    ensures Stands(calls + [c], view, dir, qid) ==
              var before := Stands(calls, view, dir, qid);
              if c.dir == dir && c.qid == qid then Updated(before, Seen(view, c.reply)) else before
  {
    assert (calls + [c])[..|calls|] == calls;
  }

  /** The slots after clearing the contexts of the first n queues. */
  function Cleared(s: seq<Slot>, n: nat, acks: ClearReplies): (t: seq<Slot>)
    requires n <= |s| == MAX_QUEUES
    ensures |t| == MAX_QUEUES
  {
    seq(MAX_QUEUES, i requires 0 <= i < MAX_QUEUES =>
      if i < n && s[i].Queue? && s[i].configured && acks[i].ok then s[i].(configured := false) else s[i])
  }

  predicate AllCleared(s: seq<Slot>, n: nat, acks: ClearReplies)
    requires n <= |s| == MAX_QUEUES
  {
    forall i :: 0 <= i < n && s[i].Queue? && s[i].configured ==> acks[i].ok
  }

  /** The commands clearing sends: one for each queue that still is configured, in order. */
  function ClearCalls(dir: Dir, s: seq<Slot>, n: nat, acks: ClearReplies): seq<Call>
    requires n <= |s| == MAX_QUEUES
  {
    if n == 0 then []
    else
      var sent := ClearCalls(dir, s, n - 1, acks);
      if s[n - 1].Queue? && s[n - 1].configured then sent + [Call(Clear, dir, n - 1, acks[n - 1])] else sent
  }

  /** Queue q is among those the clearing of the first n queues tears down. */
  predicate Revoked(view: View, s: seq<Slot>, n: nat, acks: ClearReplies, q: nat)
    requires n <= |s| == MAX_QUEUES
  {
    q < n && s[q].Queue? && s[q].configured && Seen(view, acks[q]) == TornDown
  }

  /** Clearing takes away exactly the contexts whose clear was acknowledged, or was carried out. */
  lemma {:induction false} ClearCallsRevoke(calls: seq<Call>, view: View, dir: Dir, s: seq<Slot>, n: nat, acks: ClearReplies,
                                            d: Dir, q: nat)
    requires n <= |s| == MAX_QUEUES
    ensures Stands(calls + ClearCalls(dir, s, n, acks), view, d, q) ==
              (Stands(calls, view, d, q) && !(d == dir && Revoked(view, s, n, acks, q)))
  {
    if n == 0 {
      assert calls + [] == calls;
    } else {
      var before := calls + ClearCalls(dir, s, n - 1, acks);
      assert Stands(before, view, d, q) == (Stands(calls, view, d, q) && !(d == dir && Revoked(view, s, n - 1, acks, q))) by {
        ClearCallsRevoke(calls, view, dir, s, n - 1, acks, d, q);
      }
      var c := Call(Clear, dir, n - 1, acks[n - 1]);
      StandsLast(before, c, view, d, q);
      assert ClearReply(acks[n - 1]);
      assert calls + ClearCalls(dir, s, n, acks) == if s[n - 1].Queue? && s[n - 1].configured then before + [c] else before;
    }
  }

  /** Clearing again asks only for the queues whose first clear was not acknowledged. */
  lemma {:induction false} RetryAsksTheRest(dir: Dir, s: seq<Slot>, n: nat, m: nat, acks: ClearReplies, again: ClearReplies, c: Call)
    requires m <= n <= |s| == MAX_QUEUES
    ensures c in ClearCalls(dir, Cleared(s, n, acks), m, again) <==>
              && c.op == Clear && c.dir == dir && c.qid < m && c.reply == again[c.qid]
              && s[c.qid].Queue? && s[c.qid].configured && !acks[c.qid].ok
  {
    if m > 0 {
      RetryAsksTheRest(dir, s, n, m - 1, acks, again, c);
    }
  }

  predicate InSlot(tx: seq<Slot>, rx: seq<Slot>, r: Ring) {
    var s := if r.dir.Tx? then tx else rx;
    r.qid < |s| && s[r.qid].Queue? && s[r.qid].gen == r.gen
  }

  /** The same rings, whatever their state bits. */
  predicate SameRings(s: seq<Slot>, t: seq<Slot>) {
    |s| == |t| && forall i :: 0 <= i < |s| ==> (s[i].Queue? <==> t[i].Queue?) && (s[i].Queue? ==> s[i].gen == t[i].gen)
  }

  predicate Configurable(s: Slot) {
    s.Queue? && !s.configured
  }

  predicate Blank(s: seq<Slot>) {
    forall i :: 0 <= i < |s| ==> s[i] == Empty
  }

  /** The first n slots hold rings allocated since generation `since`, as far as allocation made one. */
  predicate Allocated(s: seq<Slot>, t: seq<Slot>, n: nat, hows: Allocs, since: nat)
    requires n <= |s| == |t| == MAX_QUEUES
  {
    && (forall i :: 0 <= i < n && hows[i].Made? ==> t[i].Queue? && t[i].gen >= since && !t[i].configured && !t[i].napi)
    && (forall i :: 0 <= i < MAX_QUEUES && !(i < n && hows[i].Made?) ==> t[i] == s[i])
  }

  /** No ring was freed, and every new one is in its slot. */
  ghost predicate Tracked(held: set<Ring>, held': set<Ring>, tx: seq<Slot>, rx: seq<Slot>, since: nat) {
    held <= held' && forall r :: r in held' ==> r in held || (InSlot(tx, rx, r) && r.gen >= since)
  }

  /** A receive slot that can be configured after allocation: a new ring, or no new one but an idle old one. */
  predicate RxUsable(s: Slot, how: Alloc) {
    how.Made? || (how.Nothing? && Configurable(s))
  }

  /** The first n slots configured, everything else as before. */
  function Configured(s: seq<Slot>, n: nat): (t: seq<Slot>)
    requires n <= |s| && forall i :: 0 <= i < n ==> s[i].Queue?
    ensures |t| == |s| && forall i :: 0 <= i < |s| ==> t[i] == if i < n then s[i].(configured := true) else s[i]
  {
    seq(|s|, i requires 0 <= i < |s| => if i < n then s[i].(configured := true) else s[i])
  }

  /** NAPI switched on or off on the queues among the first n slots. */
  function WithNapi(s: seq<Slot>, n: nat, on: bool): (t: seq<Slot>)
    requires n <= |s|
    ensures |t| == |s| && forall i :: 0 <= i < |s| ==> t[i] == if i < n && s[i].Queue? then s[i].(napi := on) else s[i]
  {
    seq(|s|, i requires 0 <= i < |s| => if i < n && s[i].Queue? then s[i].(napi := on) else s[i])
  }

  // ---------------------------------------------------------------------------------------------
  // What setting up leaves, whether it succeeds or not
  // ---------------------------------------------------------------------------------------------

  predicate SetsUp(s: Slot, r: Reply) {
    Configurable(s) && r.ok
  }

  /** The first queue whose setup does not succeed, or n. */
  function FirstBad(s: seq<Slot>, n: nat, cfg: ConfigReplies): (k: nat)
    requires n <= |s| == MAX_QUEUES
    ensures k <= n && (forall i :: 0 <= i < k ==> SetsUp(s[i], cfg[i])) && (k < n ==> !SetsUp(s[k], cfg[k]))
  {
    if n == 0 then 0
    else
      var k := FirstBad(s, n - 1, cfg);
      if k == n - 1 && SetsUp(s[k], cfg[k]) then n else k
  }

  lemma FirstBadIs(s: seq<Slot>, n: nat, cfg: ConfigReplies, k: nat)
    requires k <= n <= |s| == MAX_QUEUES && forall i :: 0 <= i < k ==> SetsUp(s[i], cfg[i])
    requires k < n ==> !SetsUp(s[k], cfg[k])
    ensures FirstBad(s, n, cfg) == k
  {
  }

  /**
    Whether queue q of one direction has a context after its n queues were set up from the slots s and,
    had one failed, cleared again. The queue that failed is not cleared: its bit was never set.
  */
  function AfterSetup(view: View, before: bool, s: seq<Slot>, n: nat, cfg: ConfigReplies, acks: ClearReplies, q: nat): bool
    requires n <= |s| == MAX_QUEUES
  {
    var k := FirstBad(s, n, cfg);
    if q >= n then before
    else if k == n then true
    else if q < k then Seen(view, acks[q]) != TornDown
    else if q == k && Configurable(s[k]) then Updated(before, Seen(view, cfg[k]))
    else before && !Revoked(view, s, n, acks, q)
  }

  /** All contexts after setting up, and nothing else touched. */
  ghost predicate SetupOutcome(calls: seq<Call>, calls': seq<Call>, dir: Dir, s: seq<Slot>, n: nat, cfg: ConfigReplies, acks: ClearReplies)
    requires n <= |s| == MAX_QUEUES
  {
    forall view: View, d: Dir, q: nat ::
      Stands(calls', view, d, q) ==
        if d == dir then AfterSetup(view, Stands(calls, view, d, q), s, n, cfg, acks, q) else Stands(calls, view, d, q)
  }

  /** The contexts while setting up is under way and has succeeded for the first k queues. */
  ghost predicate SetUpTo(calls: seq<Call>, calls': seq<Call>, dir: Dir, k: nat) {
    forall view: View, d: Dir, q: nat :: Stands(calls', view, d, q) == ((d == dir && q < k) || Stands(calls, view, d, q))
  }

  lemma OneMoreSetUp(calls: seq<Call>, calls': seq<Call>, dir: Dir, k: nat, r: Reply)
    requires SetUpTo(calls, calls', dir, k) && r.ok && ConfigReply(r)
    ensures SetUpTo(calls, calls' + [Call(Config, dir, k, r)], dir, k + 1)
  {
    var c := Call(Config, dir, k, r);
    forall view: View, d: Dir, q: nat
      ensures Stands(calls' + [c], view, d, q) == ((d == dir && q < k + 1) || Stands(calls, view, d, q))
    {
      StandsLast(calls', c, view, d, q);
    }
  }

  lemma AllSetUp(calls: seq<Call>, calls': seq<Call>, dir: Dir, s: seq<Slot>, n: nat, cfg: ConfigReplies, acks: ClearReplies)
    requires n <= |s| == MAX_QUEUES && SetUpTo(calls, calls', dir, n) && FirstBad(s, n, cfg) == n
    ensures SetupOutcome(calls, calls', dir, s, n, cfg, acks)
  {
  }

  /** The command sent for the queue that fails, if it gets that far. */
  function FailedCall(s: seq<Slot>, dir: Dir, k: nat, cfg: ConfigReplies): seq<Call>
    requires k < |s| == MAX_QUEUES
  {
    if Configurable(s[k]) then [Call(Config, dir, k, cfg[k])] else []
  }

  lemma FailedCallStands(calls: seq<Call>, view: View, s: seq<Slot>, dir: Dir, k: nat, cfg: ConfigReplies, d: Dir, q: nat)
    requires k < |s| == MAX_QUEUES
    ensures Stands(calls + FailedCall(s, dir, k, cfg), view, d, q) ==
              var before := Stands(calls, view, d, q);
              if d == dir && q == k && Configurable(s[k]) then Updated(before, Seen(view, cfg[k])) else before
  {
    if Configurable(s[k]) {
      StandsLast(calls, Call(Config, dir, k, cfg[k]), view, d, q);
    } else {
      assert calls + [] == calls;
    }
  }

  /** After the setup failed at queue k and what was set up has been cleared again. */
  lemma SetupFailed(calls: seq<Call>, calls': seq<Call>, dir: Dir, s: seq<Slot>, n: nat, k: nat, cfg: ConfigReplies, acks: ClearReplies)
    requires k < n <= |s| == MAX_QUEUES && SetUpTo(calls, calls', dir, k) && FirstBad(s, n, cfg) == k
    ensures SetupOutcome(calls, calls' + FailedCall(s, dir, k, cfg) + ClearCalls(dir, Configured(s, k), n, acks),
                         dir, s, n, cfg, acks)
  {
    var calls2 := calls' + FailedCall(s, dir, k, cfg);
    forall view: View, d: Dir, q: nat
      ensures Stands(calls2 + ClearCalls(dir, Configured(s, k), n, acks), view, d, q) ==
              if d == dir then AfterSetup(view, Stands(calls, view, d, q), s, n, cfg, acks, q) else Stands(calls, view, d, q)
    {
      ClearCallsRevoke(calls2, view, dir, Configured(s, k), n, acks, d, q);
      FailedCallStands(calls', view, s, dir, k, cfg, d, q);
    }
  }

  /** Only which slots hold a queue, and which are configured, matters. */
  predicate SameBits(s: seq<Slot>, t: seq<Slot>, n: nat)
    requires n <= |s| == |t|
  {
    forall i :: 0 <= i < n ==> (s[i].Queue? <==> t[i].Queue?) && (s[i].Queue? ==> s[i].configured == t[i].configured)
  }

  lemma SameBitsSameSetup(view: View, before: bool, s: seq<Slot>, t: seq<Slot>, n: nat, cfg: ConfigReplies, acks: ClearReplies, q: nat)
    requires n <= |s| == |t| == MAX_QUEUES && SameBits(s, t, n)
    ensures FirstBad(s, n, cfg) == FirstBad(t, n, cfg)
    ensures AfterSetup(view, before, s, n, cfg, acks, q) == AfterSetup(view, before, t, n, cfg, acks, q)
  {
    var k, j := FirstBad(s, n, cfg), FirstBad(t, n, cfg);
    assert forall i :: 0 <= i < n ==> SetsUp(s[i], cfg[i]) == SetsUp(t[i], cfg[i]);
  }

  /** Clearing looks at the configured bits only. */
  lemma {:induction false} NapiDoesNotMatter(dir: Dir, s: seq<Slot>, n: nat, m: nat, on: bool, acks: ClearReplies)
    requires m <= n <= |s| == MAX_QUEUES
    ensures ClearCalls(dir, WithNapi(s, n, on), m, acks) == ClearCalls(dir, s, m, acks)
    ensures AllCleared(WithNapi(s, n, on), m, acks) == AllCleared(s, m, acks)
  {
    if m > 0 {
      NapiDoesNotMatter(dir, s, n, m - 1, on, acks);
    }
    var t := WithNapi(s, n, on);
    assert forall i :: 0 <= i < m ==> (t[i].Queue? <==> s[i].Queue?) && (s[i].Queue? ==> t[i].configured == s[i].configured);
  }

  /** Transmit contexts after the context steps of an open: a failure on the receive side clears them too. */
  function OpenedTx(view: View, before: bool, tx: seq<Slot>, n: nat, rx: seq<Slot>, m: nat, env: Env, q: nat): bool
    requires n <= |tx| == MAX_QUEUES && m <= |rx| == MAX_QUEUES
  {
    if FirstBad(tx, n, env.txConfig) == n && FirstBad(rx, m, env.rxConfig) < m && q < n
    then Seen(view, env.txClear[q]) != TornDown
    else AfterSetup(view, before, tx, n, env.txConfig, env.txClear, q)
  }

  /** Receive contexts: not touched when the transmit side already failed. */
  function OpenedRx(view: View, before: bool, tx: seq<Slot>, n: nat, rx: seq<Slot>, m: nat, env: Env, q: nat): bool
    requires n <= |tx| == MAX_QUEUES && m <= |rx| == MAX_QUEUES
  {
    if FirstBad(tx, n, env.txConfig) < n then before
    else AfterSetup(view, before, rx, m, env.rxConfig, env.rxClear, q)
  }

  /** Exactly which queues have a context after the context steps of an open, in either view. */
  ghost predicate OpenOutcome(calls: seq<Call>, calls': seq<Call>, tx: seq<Slot>, n: nat, rx: seq<Slot>, m: nat, env: Env)
    requires n <= |tx| == MAX_QUEUES && m <= |rx| == MAX_QUEUES
  {
    forall view: View, q: nat ::
      && Stands(calls', view, Tx, q) == OpenedTx(view, Stands(calls, view, Tx, q), tx, n, rx, m, env, q)
      && Stands(calls', view, Rx, q) == OpenedRx(view, Stands(calls, view, Rx, q), tx, n, rx, m, env, q)
  }

  /** Transmit set up, receive failed and rolled back, then transmit rolled back. */
  lemma BothRolledBack(calls: seq<Call>, calls2: seq<Call>, calls3: seq<Call>, tx: seq<Slot>, n: nat, rx: seq<Slot>, m: nat, env: Env)
    requires n <= |tx| == MAX_QUEUES && m <= |rx| == MAX_QUEUES
    requires FirstBad(tx, n, env.txConfig) == n && FirstBad(rx, m, env.rxConfig) < m
    requires SetupOutcome(calls, calls2, Tx, tx, n, env.txConfig, env.txClear)
    requires SetupOutcome(calls2, calls3, Rx, rx, m, env.rxConfig, env.rxClear)
    ensures OpenOutcome(calls, calls3 + ClearCalls(Tx, Configured(tx, n), n, env.txClear), tx, n, rx, m, env)
  {
    forall view: View, d: Dir, q: nat
      ensures Stands(calls3 + ClearCalls(Tx, Configured(tx, n), n, env.txClear), view, d, q) ==
              (Stands(calls3, view, d, q) && !(d == Tx && Revoked(view, Configured(tx, n), n, env.txClear, q)))
    {
      ClearCallsRevoke(calls3, view, Tx, Configured(tx, n), n, env.txClear, d, q);
    }
  }

  lemma SetupsOpen(calls: seq<Call>, calls2: seq<Call>, calls3: seq<Call>, tx: seq<Slot>, n: nat, rx: seq<Slot>, m: nat, env: Env)
    requires n <= |tx| == MAX_QUEUES && m <= |rx| == MAX_QUEUES
    requires SetupOutcome(calls, calls2, Tx, tx, n, env.txConfig, env.txClear)
    requires if FirstBad(tx, n, env.txConfig) < n then calls3 == calls2
             else FirstBad(rx, m, env.rxConfig) == m && SetupOutcome(calls2, calls3, Rx, rx, m, env.rxConfig, env.rxClear)
    ensures OpenOutcome(calls, calls3, tx, n, rx, m, env)
  {
  }

  /** The slots as allocation leaves them, up to generations. */
  function Filled(s: seq<Slot>, n: nat, hows: Allocs): (t: seq<Slot>)
    requires n <= |s| == MAX_QUEUES
    ensures |t| == MAX_QUEUES
  {
    seq(MAX_QUEUES, i requires 0 <= i < MAX_QUEUES => if i < n && hows[i].Made? then Queue(0, false, false) else s[i])
  }

  lemma SameBitsSameOpen(calls: seq<Call>, calls': seq<Call>, tx: seq<Slot>, tx': seq<Slot>, n: nat, rx: seq<Slot>, rx': seq<Slot>,
                         m: nat, env: Env)
    requires n <= |tx| == |tx'| == MAX_QUEUES && m <= |rx| == |rx'| == MAX_QUEUES
    requires SameBits(tx, tx', n) && SameBits(rx, rx', m) && OpenOutcome(calls, calls', tx, n, rx, m, env)
    ensures OpenOutcome(calls, calls', tx', n, rx', m, env)
  {
    forall view: View, q: nat
      ensures Stands(calls', view, Tx, q) == OpenedTx(view, Stands(calls, view, Tx, q), tx', n, rx', m, env, q)
      ensures Stands(calls', view, Rx, q) == OpenedRx(view, Stands(calls, view, Rx, q), tx', n, rx', m, env, q)
    {
      SameBitsSameSetup(view, Stands(calls, view, Tx, q), tx, tx', n, env.txConfig, env.txClear, q);
      SameBitsSameSetup(view, Stands(calls, view, Rx, q), rx, rx', m, env.rxConfig, env.rxClear, q);
    }
  }

  /** When every setup succeeds, every context is there. */
  lemma OpenedAll(calls: seq<Call>, calls': seq<Call>, tx: seq<Slot>, tx': seq<Slot>, n: nat, rx: seq<Slot>, rx': seq<Slot>, m: nat, env: Env)
    requires n <= |tx| == |tx'| == MAX_QUEUES && m <= |rx| == |rx'| == MAX_QUEUES
    requires SameBits(tx, tx', n) && SameBits(rx, rx', m) && OpenOutcome(calls, calls', tx', n, rx', m, env)
    requires forall i :: 0 <= i < n ==> SetsUp(tx[i], env.txConfig[i])
    requires forall i :: 0 <= i < m ==> SetsUp(rx[i], env.rxConfig[i])
    ensures forall view: View, q: nat :: (q < n ==> Stands(calls', view, Tx, q)) && (q < m ==> Stands(calls', view, Rx, q))
  {
    assert FirstBad(tx, n, env.txConfig) == n && FirstBad(rx, m, env.rxConfig) == m;
    SameBitsSameSetup(Acknowledged, true, tx, tx', n, env.txConfig, env.txClear, 0);
    SameBitsSameSetup(Acknowledged, true, rx, rx', m, env.rxConfig, env.rxClear, 0);
  }

  /** One of the context steps of an open does not succeed. */
  predicate SomeSetupFails(t: seq<Slot>, n: nat, r: seq<Slot>, m: nat, env: Env)
    requires n <= |t| == MAX_QUEUES && m <= |r| == MAX_QUEUES
  {
    FirstBad(t, n, env.txConfig) < n || FirstBad(r, m, env.rxConfig) < m
  }

  /**
    Transmit queue q is left with a context when queue k was the first one not set up: it was set up
    before and its clear did not take effect, or it is the one that failed and its setup did.
  */
  predicate LeftTx(view: View, n: nat, k: nat, env: Env, q: nat)
    requires n <= MAX_QUEUES
  {
    q < n && ((q < k && Seen(view, env.txClear[q]) != TornDown) || (q == k && Seen(view, env.txConfig[q]) == SetUp))
  }

  /** The same for receive queue q and the first one not set up, j; the receive side is only reached past the transmit side. */
  predicate LeftRx(view: View, n: nat, k: nat, m: nat, j: nat, env: Env, q: nat)
    requires m <= MAX_QUEUES
  {
    k == n && q < m && ((q < j && Seen(view, env.rxClear[q]) != TornDown)
                        || (q == j && env.rxAlloc[q].Made? && Seen(view, env.rxConfig[q]) == SetUp))
  }

  /**
    Exactly which contexts a failed open that began with empty slots leaves behind. For what the VF has
    been told a setup that failed never counts; what is really there includes one carried out unheard.
  */
  lemma LeftByFailedOpen(calls: seq<Call>, calls': seq<Call>, view: View, tx: seq<Slot>, n: nat, rx: seq<Slot>, m: nat, env: Env, q: nat)
    requires n <= |tx| == MAX_QUEUES && m <= |rx| == MAX_QUEUES && Blank(tx) && Blank(rx)
    requires forall i :: 0 <= i < n ==> env.txAlloc[i]
    requires var t, r := Filled(tx, n, env.TxHow()), Filled(rx, m, env.rxAlloc);
             SomeSetupFails(t, n, r, m, env) && OpenOutcome(calls, calls', t, n, r, m, env)
    requires !Stands(calls, view, Tx, q) && !Stands(calls, view, Rx, q)
    ensures var k := FirstBad(Filled(tx, n, env.TxHow()), n, env.txConfig);
            var j := FirstBad(Filled(rx, m, env.rxAlloc), m, env.rxConfig);
            && (Stands(calls', view, Tx, q) <==> LeftTx(view, n, k, env, q))
            && (Stands(calls', view, Rx, q) <==> LeftRx(view, n, k, m, j, env, q))
  {
    var t, r := Filled(tx, n, env.TxHow()), Filled(rx, m, env.rxAlloc);
    assert Stands(calls', view, Tx, q) == OpenedTx(view, false, t, n, r, m, env, q);
    assert Stands(calls', view, Rx, q) == OpenedRx(view, false, t, n, r, m, env, q);
  }

  lemma NoneLeft(n: nat, k: nat, m: nat, j: nat, env: Env)
    requires k <= n <= MAX_QUEUES && j <= m <= MAX_QUEUES
    ensures (forall q: nat :: !LeftTx(Actual, n, k, env, q) && !LeftRx(Actual, n, k, m, j, env, q)) <==>
              && (forall i :: 0 <= i < k ==> env.txClear[i].effect == TornDown)
              && (k < n ==> env.txConfig[k].effect != SetUp)
              && (k == n ==> (forall i :: 0 <= i < j ==> env.rxClear[i].effect == TornDown)
                             && (j < m && env.rxAlloc[j].Made? ==> env.rxConfig[j].effect != SetUp))
  {
    if forall q: nat :: !LeftTx(Actual, n, k, env, q) && !LeftRx(Actual, n, k, m, j, env, q) {
      forall i | 0 <= i < k ensures env.txClear[i].effect == TornDown {
        assert !LeftTx(Actual, n, k, env, i);
      }
      assert !LeftTx(Actual, n, k, env, k);
      forall i | k == n && 0 <= i < j ensures env.rxClear[i].effect == TornDown {
        assert !LeftRx(Actual, n, k, m, j, env, i);
      }
      assert !LeftRx(Actual, n, k, m, j, env, j);
    }
  }

  /** No queue has a context, as far as the view shows. */
  ghost predicate NoContext(calls: seq<Call>, view: View) {
    forall q: nat :: !Stands(calls, view, Tx, q) && !Stands(calls, view, Rx, q)
  }

  /** Exactly when a failed open leaves no context behind. */
  lemma NothingLeftByFailedOpen(calls: seq<Call>, calls': seq<Call>, tx: seq<Slot>, n: nat, rx: seq<Slot>, m: nat, env: Env)
    requires n <= |tx| == MAX_QUEUES && m <= |rx| == MAX_QUEUES && Blank(tx) && Blank(rx)
    requires forall i :: 0 <= i < n ==> env.txAlloc[i]
    requires var t, r := Filled(tx, n, env.TxHow()), Filled(rx, m, env.rxAlloc);
             SomeSetupFails(t, n, r, m, env) && OpenOutcome(calls, calls', t, n, r, m, env)
    requires NoContext(calls, Actual)
    ensures var k := FirstBad(Filled(tx, n, env.TxHow()), n, env.txConfig);
            var j := FirstBad(Filled(rx, m, env.rxAlloc), m, env.rxConfig);
            NoContext(calls', Actual) <==>
              && (forall i :: 0 <= i < k ==> env.txClear[i].effect == TornDown)
              && (k < n ==> env.txConfig[k].effect != SetUp)
              && (k == n ==> (forall i :: 0 <= i < j ==> env.rxClear[i].effect == TornDown)
                             && (j < m && env.rxAlloc[j].Made? ==> env.rxConfig[j].effect != SetUp))
  {
    var k := FirstBad(Filled(tx, n, env.TxHow()), n, env.txConfig);
    var j := FirstBad(Filled(rx, m, env.rxAlloc), m, env.rxConfig);
    forall q: nat
      ensures Stands(calls', Actual, Tx, q) <==> LeftTx(Actual, n, k, env, q)
      ensures Stands(calls', Actual, Rx, q) <==> LeftRx(Actual, n, k, m, j, env, q)
    {
      LeftByFailedOpen(calls, calls', Actual, tx, n, rx, m, env, q);
    }
    NoneLeft(n, k, m, j, env);
    assert NoContext(calls', Actual) <==> forall q: nat :: !LeftTx(Actual, n, k, env, q) && !LeftRx(Actual, n, k, m, j, env, q);
  }

  /** The commands a stop sends. */
  function StopCalls(tx: seq<Slot>, n: nat, rx: seq<Slot>, m: nat, env: Env): seq<Call>
    requires n <= |tx| == MAX_QUEUES && m <= |rx| == MAX_QUEUES
  {
    ClearCalls(Rx, rx, m, env.rxClear) + if AllCleared(rx, m, env.rxClear) then ClearCalls(Tx, tx, n, env.txClear) else []
  }

  /** Exactly which queues have a context after a stop; the transmit side is reached only past the receive side. */
  ghost predicate StopOutcome(calls: seq<Call>, calls': seq<Call>, tx: seq<Slot>, n: nat, rx: seq<Slot>, m: nat, env: Env)
    requires n <= |tx| == MAX_QUEUES && m <= |rx| == MAX_QUEUES
  {
    forall view: View, q: nat ::
      && Stands(calls', view, Rx, q) == (Stands(calls, view, Rx, q) && !Revoked(view, rx, m, env.rxClear, q))
      && Stands(calls', view, Tx, q) ==
           (Stands(calls, view, Tx, q) && !(AllCleared(rx, m, env.rxClear) && Revoked(view, tx, n, env.txClear, q)))
  }

  lemma StopCallsOutcome(calls: seq<Call>, tx: seq<Slot>, n: nat, rx: seq<Slot>, m: nat, env: Env)
    requires n <= |tx| == MAX_QUEUES && m <= |rx| == MAX_QUEUES
    ensures StopOutcome(calls, calls + StopCalls(tx, n, rx, m, env), tx, n, rx, m, env)
  {
    var calls2 := calls + ClearCalls(Rx, rx, m, env.rxClear);
    var last := if AllCleared(rx, m, env.rxClear) then ClearCalls(Tx, tx, n, env.txClear) else [];
    assert calls + StopCalls(tx, n, rx, m, env) == calls2 + last;
    forall view: View, d: Dir, q: nat
      ensures Stands(calls2, view, d, q) == (Stands(calls, view, d, q) && !(d == Rx && Revoked(view, rx, m, env.rxClear, q)))
      ensures Stands(calls2 + last, view, d, q) ==
                (Stands(calls2, view, d, q) && !(d == Tx && last == ClearCalls(Tx, tx, n, env.txClear) && AllCleared(rx, m, env.rxClear)
                                                 && Revoked(view, tx, n, env.txClear, q)))
    {
      ClearCallsRevoke(calls, view, Rx, rx, m, env.rxClear, d, q);
      ClearCallsRevoke(calls2, view, Tx, tx, n, env.txClear, d, q);
      assert calls2 + [] == calls2;
    }
  }

  lemma StoppedClean(calls: seq<Call>, calls': seq<Call>, tx: seq<Slot>, n: nat, rx: seq<Slot>, m: nat, env: Env)
    requires n <= |tx| == MAX_QUEUES && m <= |rx| == MAX_QUEUES && StopOutcome(calls, calls', tx, n, rx, m, env)
    requires AllCleared(rx, m, env.rxClear) && AllCleared(tx, n, env.txClear)
    ensures forall view: View, q: nat :: q < n && tx[q].Queue? && tx[q].configured ==> !Stands(calls', view, Tx, q)
    ensures forall view: View, q: nat :: q < m && rx[q].Queue? && rx[q].configured ==> !Stands(calls', view, Rx, q)
  {
    forall view: View, q: nat | q < n && tx[q].Queue? && tx[q].configured ensures Revoked(view, tx, n, env.txClear, q) {
      assert ClearReply(env.txClear[q]);
    }
    forall view: View, q: nat | q < m && rx[q].Queue? && rx[q].configured ensures Revoked(view, rx, m, env.rxClear, q) {
      assert ClearReply(env.rxClear[q]);
    }
  }

  // ---------------------------------------------------------------------------------------------
  // Leaks
  // ---------------------------------------------------------------------------------------------

  /** Every ring not freed is in its slot. */
  ghost predicate AllInSlots(held: set<Ring>, tx: seq<Slot>, rx: seq<Slot>) {
    forall r :: r in held ==> InSlot(tx, rx, r)
  }

  /** Every ring in a slot has not been freed, and was allocated before `next`. */
  ghost predicate Owned(held: set<Ring>, tx: seq<Slot>, rx: seq<Slot>, next: nat) {
    && (forall i :: 0 <= i < |tx| && tx[i].Queue? ==> Ring(Tx, i, tx[i].gen) in held)
    && (forall i :: 0 <= i < |rx| && rx[i].Queue? ==> Ring(Rx, i, rx[i].gen) in held)
    && (forall r :: r in held ==> r.gen < next)
  }

  /** The slots allocation was going to fill were empty. */
  predicate SlotsFree(s: seq<Slot>, n: nat, hows: Allocs)
    requires n <= |s| == MAX_QUEUES
  {
    forall i :: 0 <= i < n && hows[i].Made? ==> s[i].Empty?
  }

  /** Allocating rings leaks exactly the rings that were still in the slots it fills. */
  lemma AllocationLeaks(tx: seq<Slot>, rx: seq<Slot>, held: set<Ring>, next: nat, tx': seq<Slot>, rx': seq<Slot>,
                        held': set<Ring>, n: nat, m: nat, txHow: Allocs, rxHow: Allocs)
    requires n <= |tx| == |tx'| == MAX_QUEUES && m <= |rx| == |rx'| == MAX_QUEUES
    requires Owned(held, tx, rx, next) && Tracked(held, held', tx', rx', next)
    requires Allocated(tx, tx', n, txHow, next) && Allocated(rx, rx', m, rxHow, next)
    ensures AllInSlots(held', tx', rx') <==> AllInSlots(held, tx, rx) && SlotsFree(tx, n, txHow) && SlotsFree(rx, m, rxHow)
  {
  }

  /** State bits do not matter to it. */
  lemma SameRingsSlots(tx: seq<Slot>, rx: seq<Slot>, tx': seq<Slot>, rx': seq<Slot>, r: Ring)
    requires SameRings(tx, tx') && SameRings(rx, rx')
    ensures InSlot(tx, rx, r) <==> InSlot(tx', rx', r)
  {
  }

  lemma SameRingsAllInSlots(held: set<Ring>, tx: seq<Slot>, rx: seq<Slot>, tx': seq<Slot>, rx': seq<Slot>)
    requires SameRings(tx, tx') && SameRings(rx, rx')
    ensures AllInSlots(held, tx, rx) <==> AllInSlots(held, tx', rx')
  {
    forall r ensures InSlot(tx, rx, r) <==> InSlot(tx', rx', r) {
      SameRingsSlots(tx, rx, tx', rx', r);
    }
  }

  /** When only new rings are in the slots, freeing what is there gives back exactly the rings allocated since. */
  lemma FreeingUndoesAllocation(held0: set<Ring>, held1: set<Ring>, held2: set<Ring>, tx: seq<Slot>, rx: seq<Slot>, since: nat)
    requires Tracked(held0, held1, tx, rx, since) && forall r :: r in held0 ==> r.gen < since
    requires forall i :: 0 <= i < |tx| && tx[i].Queue? ==> tx[i].gen >= since
    requires forall i :: 0 <= i < |rx| && rx[i].Queue? ==> rx[i].gen >= since
    requires forall r :: r in held2 <==> r in held1 && !InSlot(tx, rx, r)
    ensures held2 == held0
  {
  }

  // ---------------------------------------------------------------------------------------------
  // The interface
  // ---------------------------------------------------------------------------------------------

  class VfNetdev {
    const numVectors: nat
    const numTx: nat
    const numRx: nat
    const tx: array<Slot>
    const rx: array<Slot>
    var calls: seq<Call>
    var held: set<Ring>  // every ring allocated and not freed
    var next: nat

    ghost predicate Valid()
      reads this, tx, rx
    {
      && tx != rx && tx.Length == MAX_QUEUES && rx.Length == MAX_QUEUES
      && numTx <= MAX_QUEUES && numRx <= MAX_QUEUES
      && Owned(held, tx[..], rx[..], next)
    }

    /** No ring is lost: each one not freed can still be reached through its slot. */
    ghost predicate NoLeak()
      reads this, tx, rx
    {
      AllInSlots(held, tx[..], rx[..])
    }

    constructor (numVectors: nat, numTx: nat, numRx: nat)
      requires numTx <= MAX_QUEUES && numRx <= MAX_QUEUES
      ensures Valid() && fresh(tx) && fresh(rx) && calls == [] && held == {}
      ensures this.numVectors == numVectors && this.numTx == numTx && this.numRx == numRx
      ensures forall i :: 0 <= i < MAX_QUEUES ==> tx[i] == Empty && rx[i] == Empty
    {
      this.numVectors, this.numTx, this.numRx := numVectors, numTx, numRx;
      tx := new Slot[MAX_QUEUES](_ => Empty);
      rx := new Slot[MAX_QUEUES](_ => Empty);
      calls, held, next := [], {}, 0;
    }

    /** onic_vf_free_tx_ring, onic_vf_free_rx_ring. */
    method FreeRing(dir: Dir, a: array<Slot>, qid: nat)
      requires Valid() && a == (if dir.Tx? then tx else rx) && qid < MAX_QUEUES
      modifies this`held, a
      ensures Valid()
      ensures a[..] == old(a[..])[qid := Empty]
      ensures held == if old(a[qid]).Queue? then old(held) - {Ring(dir, qid, old(a[qid]).gen)} else old(held)
    {
      if a[qid].Queue? {
        held := held - {Ring(dir, qid, a[qid].gen)};
        a[qid] := Empty;
      }
    }

    /** onic_vf_rings_clear. */
    method RingsClear()
      requires Valid()
      modifies this`held, tx, rx
      ensures Valid()
      ensures forall i :: 0 <= i < MAX_QUEUES ==> tx[i] == Empty && rx[i] == Empty
      ensures forall r :: r in held <==> r in old(held) && !InSlot(old(tx[..]), old(rx[..]), r)
    {
      for qid := 0 to MAX_QUEUES
        invariant Valid()
        invariant forall i :: 0 <= i < qid ==> tx[i] == Empty && rx[i] == Empty
        invariant forall i :: qid <= i < MAX_QUEUES ==> tx[i] == old(tx[i]) && rx[i] == old(rx[i])
        invariant forall r :: r in held <==> r in old(held) && !(r.qid < qid && InSlot(old(tx[..]), old(rx[..]), r))
      {
        FreeRing(Tx, tx, qid);
        FreeRing(Rx, rx, qid);
      }
    }

    /** onic_vf_alloc_tx_ring, onic_vf_alloc_rx_ring: a new ring replaces whatever the slot held. */
    method AllocRing(dir: Dir, a: array<Slot>, qid: nat, how: Alloc) returns (ok: bool)
      requires Valid() && a == (if dir.Tx? then tx else rx) && qid < MAX_QUEUES
      modifies this`held, this`next, a
      ensures Valid()
      ensures ok <==> !how.Failed?
      ensures a[..] == if how.Made? then old(a[..])[qid := Queue(old(next), false, false)] else old(a[..])
      ensures held == if how.Made? then old(held) + {Ring(dir, qid, old(next))} else old(held)
      ensures next == if how.Made? then old(next) + 1 else old(next)
    {
      ok := !how.Failed?;
      if how.Made? {
        a[qid] := Queue(next, false, false);
        held := held + {Ring(dir, qid, next)};
        next := next + 1;
      }
    }

    /** onic_vf_tx_contexts_clear, onic_vf_rx_contexts_clear. */
    method ContextsClear(dir: Dir, a: array<Slot>, n: nat, acks: ClearReplies) returns (ok: bool)
      requires n <= a.Length == MAX_QUEUES
      modifies this`calls, a
      ensures a[..] == Cleared(old(a[..]), n, acks)
      ensures ok == AllCleared(old(a[..]), n, acks)
      ensures calls == old(calls) + ClearCalls(dir, old(a[..]), n, acks)
    {
      ok := true;
      assert calls == old(calls) + [];
      for qid := 0 to n
        invariant a[..] == Cleared(old(a[..]), qid, acks)
        invariant ok == AllCleared(old(a[..]), qid, acks)
        invariant calls == old(calls) + ClearCalls(dir, old(a[..]), qid, acks)
      {
        assert a[qid] == a[..][qid] == old(a[..])[qid];
        if a[qid].Queue? && a[qid].configured {
          calls := calls + [Call(Clear, dir, qid, acks[qid])];
          if acks[qid].ok {
            a[qid] := a[qid].(configured := false);
          } else {
            ok := false;
          }
        }
      }
    }

    /** The allocation loop of onic_vf_rings_init for one direction, up to the first failure. */
    method AllocAll(dir: Dir, a: array<Slot>, n: nat, hows: Allocs) returns (ok: bool)
      requires Valid() && a == (if dir.Tx? then tx else rx) && n <= MAX_QUEUES
      modifies this`held, this`next, a
      ensures Valid() && next >= old(next)
      ensures ok <==> forall i :: 0 <= i < n ==> !hows[i].Failed?
      ensures ok ==> Allocated(old(a[..]), a[..], n, hows, old(next))
      ensures Blank(old(a[..])) ==> forall i :: 0 <= i < MAX_QUEUES && a[i].Queue? ==> a[i].gen >= old(next)
      ensures Tracked(old(held), held, tx[..], rx[..], old(next))
    {
      for qid := 0 to n
        invariant Valid() && next >= old(next)
        invariant forall i :: 0 <= i < qid ==> !hows[i].Failed?
        invariant Allocated(old(a[..]), a[..], qid, hows, old(next))
        invariant Tracked(old(held), held, tx[..], rx[..], old(next))
      {
        ok := AllocRing(dir, a, qid, hows[qid]);
        if !ok {
          return;
        }
      }
      ok := true;
    }

    /** onic_vf_rings_init. */
    method RingsInit(env: Env) returns (ok: bool)
      requires Valid()
      modifies this`held, this`next, tx, rx
      ensures Valid()
      ensures ok <==> Allocates(env)
      ensures ok ==> Allocated(old(tx[..]), tx[..], numTx, env.TxHow(), old(next))
      ensures ok ==> Allocated(old(rx[..]), rx[..], numRx, env.rxAlloc, old(next))
      ensures ok ==> Tracked(old(held), held, tx[..], rx[..], old(next))
      ensures !ok && numVectors == 0 ==> tx[..] == old(tx[..]) && rx[..] == old(rx[..]) && held == old(held)
      ensures !ok && numVectors > 0 ==> Blank(tx[..]) && Blank(rx[..])
      ensures !ok && Blank(old(tx[..])) && Blank(old(rx[..])) ==> held == old(held)
    {
      if numVectors == 0 {
        return false;
      }
      ok := AllocAll(Tx, tx, numTx, env.TxHow());
      if ok {
        ok := AllocAll(Rx, rx, numRx, env.rxAlloc);
      }
      if !ok {
        assert Tracked(old(held), held, tx[..], rx[..], old(next));
        RingsClear();
      }
    }

    /** onic_vf_tx_contexts_init, onic_vf_rx_contexts_init. */
    method ContextsInit(dir: Dir, a: array<Slot>, n: nat, cfg: ConfigReplies, acks: ClearReplies) returns (ok: bool)
      requires n <= a.Length == MAX_QUEUES
      modifies this`calls, a
      ensures ok <==> forall i :: 0 <= i < n ==> SetsUp(old(a[i]), cfg[i])
      ensures ok <==> FirstBad(old(a[..]), n, cfg) == n
      ensures ok ==> a[..] == Configured(old(a[..]), n)
      ensures SameRings(a[..], old(a[..]))
      // exactly which contexts there are now, after success or failure
      ensures SetupOutcome(old(calls), calls, dir, old(a[..]), n, cfg, acks)
    {
      ghost var s := a[..];
      for qid := 0 to n
        invariant forall i :: 0 <= i < qid ==> SetsUp(s[i], cfg[i])
        invariant a[..] == Configured(s, qid)
        invariant SetUpTo(old(calls), calls, dir, qid)
      {
        ghost var before := calls;
        ok := a[qid].Queue? && !a[qid].configured;
        if ok {
          ok := cfg[qid].ok;
          calls := calls + [Call(Config, dir, qid, cfg[qid])];
        }
        if !ok {
          assert calls == before + FailedCall(s, dir, qid, cfg);
          FirstBadIs(s, n, cfg, qid);
          SetupFailed(old(calls), before, dir, s, n, qid, cfg, acks);
          var _ := ContextsClear(dir, a, n, acks);
          return;
        }
        OneMoreSetUp(old(calls), before, dir, qid, cfg[qid]);
        a[qid] := a[qid].(configured := true);
      }
      FirstBadIs(s, n, cfg, n);
      AllSetUp(old(calls), calls, dir, s, n, cfg, acks);
      ok := true;
    }

    /** onic_vf_rx_datapath_clear. */
    method DatapathClear()
      requires numRx <= rx.Length
      modifies rx
      ensures rx[..] == WithNapi(old(rx[..]), numRx, false)
    {
      for qid := 0 to numRx
        invariant rx[..] == WithNapi(old(rx[..]), qid, false)
      {
        if rx[qid].Queue? && rx[qid].napi {
          rx[qid] := rx[qid].(napi := false);
        }
      }
    }

    /** onic_vf_rx_datapath_init. */
    method DatapathInit() returns (ok: bool)
      requires numRx <= rx.Length
      modifies rx
      ensures ok <==> forall i :: 0 <= i < numRx ==> old(rx[i]).Queue? && old(rx[i]).configured
      ensures rx[..] == WithNapi(old(rx[..]), numRx, ok)
    {
      for qid := 0 to numRx
        invariant forall i :: 0 <= i < qid ==> old(rx[i]).Queue? && old(rx[i]).configured
        invariant rx[..] == WithNapi(old(rx[..]), qid, true)
      {
        if !rx[qid].Queue? || !rx[qid].configured || RX_DESC_STEP >= RX_REAL_COUNT {
          DatapathClear();
          return false;
        }
        rx[qid] := rx[qid].(napi := true);
      }
      return true;
    }

    /** The context steps of onic_vf_open_netdev, transmit before receive, with their rollback. */
    method ContextsOpen(env: Env) returns (ok: bool)
      requires tx != rx && numTx <= tx.Length == MAX_QUEUES && numRx <= rx.Length == MAX_QUEUES
      modifies this`calls, tx, rx
      ensures ok <==> (forall i :: 0 <= i < numTx ==> SetsUp(old(tx[i]), env.txConfig[i]))
                      && forall i :: 0 <= i < numRx ==> SetsUp(old(rx[i]), env.rxConfig[i])
      ensures ok ==> tx[..] == Configured(old(tx[..]), numTx) && rx[..] == Configured(old(rx[..]), numRx)
      ensures !ok ==> SameRings(tx[..], old(tx[..])) && SameRings(rx[..], old(rx[..]))
      ensures OpenOutcome(old(calls), calls, old(tx[..]), numTx, old(rx[..]), numRx, env)
    {
      ok := ContextsInit(Tx, tx, numTx, env.txConfig, env.txClear);
      ghost var calls2 := calls;
      if ok {
        ok := ContextsInit(Rx, rx, numRx, env.rxConfig, env.rxClear);
        if !ok {
          BothRolledBack(old(calls), calls2, calls, old(tx[..]), numTx, old(rx[..]), numRx, env);
          var _ := ContextsClear(Tx, tx, numTx, env.txClear);
          return;
        }
      }
      SetupsOpen(old(calls), calls2, calls, old(tx[..]), numTx, old(rx[..]), numRx, env);
    }

    /** The steps of onic_vf_open_netdev once the rings are there; t and r are the slots up to generations. */
    method Activate(env: Env, ghost t: seq<Slot>, ghost r: seq<Slot>) returns (ok: bool)
      requires Valid()
      requires |t| == |r| == MAX_QUEUES && SameBits(tx[..], t, numTx) && SameBits(rx[..], r, numRx)
      modifies this`calls, this`held, tx, rx
      ensures Valid()
      ensures ok <==> (forall i :: 0 <= i < numTx ==> SetsUp(old(tx[i]), env.txConfig[i]))
                      && forall i :: 0 <= i < numRx ==> SetsUp(old(rx[i]), env.rxConfig[i])
      ensures ok ==> tx[..] == Configured(old(tx[..]), numTx) && held == old(held)
      ensures ok ==> rx[..] == WithNapi(Configured(old(rx[..]), numRx), numRx, true)
      ensures !ok ==> Blank(tx[..]) && Blank(rx[..])
      ensures !ok ==> forall r :: r in held <==> r in old(held) && !InSlot(old(tx[..]), old(rx[..]), r)
      ensures OpenOutcome(old(calls), calls, t, numTx, r, numRx, env)
      ensures ok ==> forall view: View, q: nat :: (q < numTx ==> Stands(calls, view, Tx, q)) && (q < numRx ==> Stands(calls, view, Rx, q))
    {
      ok := ContextsOpen(env);
      SameBitsSameOpen(old(calls), calls, old(tx[..]), t, numTx, old(rx[..]), r, numRx, env);
      if !ok {
        ghost var tx2, rx2 := tx[..], rx[..];
        RingsClear();
        forall r ensures InSlot(old(tx[..]), old(rx[..]), r) <==> InSlot(tx2, rx2, r) {
          SameRingsSlots(old(tx[..]), old(rx[..]), tx2, rx2, r);
        }
        return;
      }
      OpenedAll(old(calls), calls, old(tx[..]), t, numTx, old(rx[..]), r, numRx, env);
      // every context is there, so this cannot fail and its rollback is never entered
      ok := DatapathInit();
    }

    /** Every ring allocation of an open returns 0. */
    predicate Allocates(env: Env)
      requires numTx <= MAX_QUEUES && numRx <= MAX_QUEUES
    {
      && numVectors > 0 && (forall i :: 0 <= i < numTx ==> env.txAlloc[i])
      && forall i :: 0 <= i < numRx ==> !env.rxAlloc[i].Failed?
    }

    /** onic_vf_open_netdev; failing steps are undone in reverse, whatever the mailbox says then. */
    method Open(env: Env) returns (ok: bool)
      requires Valid()
      modifies this`calls, this`held, this`next, tx, rx
      ensures Valid()
      // it succeeds exactly when every allocation and every configuration does
      ensures ok <==> numVectors > 0 && (forall i :: 0 <= i < numTx ==> env.txAlloc[i] && env.txConfig[i].ok)
                      && forall i :: 0 <= i < numRx ==> RxUsable(old(rx[i]), env.rxAlloc[i]) && env.rxConfig[i].ok
      // then every queue has a ring, a context that is acknowledged and there, and enabled NAPI
      ensures ok ==> forall i :: 0 <= i < numTx ==> tx[i].Queue? && tx[i].configured
      ensures ok ==> forall i :: 0 <= i < numRx ==> rx[i].Queue? && rx[i].configured && rx[i].napi
      ensures ok ==> forall view: View, q: nat :: (q < numTx ==> Stands(calls, view, Tx, q)) && (q < numRx ==> Stands(calls, view, Rx, q))
      // and nothing leaked unless an earlier stop had left rings behind
      ensures ok ==> (NoLeak() <==> old(NoLeak()) && SlotsFree(old(tx[..]), numTx, env.TxHow()) && SlotsFree(old(rx[..]), numRx, env.rxAlloc))
      // otherwise no queue object is left
      ensures !ok && numVectors > 0 ==> Blank(tx[..]) && Blank(rx[..])
      ensures !ok && Blank(old(tx[..])) && Blank(old(rx[..])) ==> held == old(held)
      // and in every case exactly these contexts are acknowledged, and exactly these are there
      ensures !Allocates(env) ==> calls == old(calls)
      ensures Allocates(env) ==>
                OpenOutcome(old(calls), calls, Filled(old(tx[..]), numTx, env.TxHow()), numTx,
                            Filled(old(rx[..]), numRx, env.rxAlloc), numRx, env)
    {
      ok := RingsInit(env);
      if !ok {
        return;
      }
      ghost var tx1, rx1, held1 := tx[..], rx[..], held;
      ok := Activate(env, Filled(old(tx[..]), numTx, env.TxHow()), Filled(old(rx[..]), numRx, env.rxAlloc));
      if ok {
        AllocationLeaks(old(tx[..]), old(rx[..]), old(held), old(next), tx1, rx1, held1, numTx, numRx, env.TxHow(), env.rxAlloc);
        SameRingsAllInSlots(held, tx1, rx1, tx[..], rx[..]);
      } else if Blank(old(tx[..])) && Blank(old(rx[..])) {
        FreeingUndoesAllocation(old(held), held1, held, tx1, rx1, old(next));
      }
    }

    /** The steps of onic_vf_stop_netdev before the rings are freed. */
    method ContextsStop(env: Env) returns (ok: bool)
      requires tx != rx && numTx <= tx.Length == MAX_QUEUES && numRx <= rx.Length == MAX_QUEUES
      modifies this`calls, tx, rx
      ensures ok <==> AllCleared(old(rx[..]), numRx, env.rxClear) && AllCleared(old(tx[..]), numTx, env.txClear)
      ensures calls == old(calls) + StopCalls(old(tx[..]), numTx, old(rx[..]), numRx, env)
      ensures rx[..] == Cleared(WithNapi(old(rx[..]), numRx, false), numRx, env.rxClear)
      ensures tx[..] == if AllCleared(old(rx[..]), numRx, env.rxClear)
                        then Cleared(old(tx[..]), numTx, env.txClear) else old(tx[..])
      ensures ok ==> forall view: View, q: nat :: q < numTx && old(tx[q]).Queue? && old(tx[q]).configured ==> !Stands(calls, view, Tx, q)
      ensures ok ==> forall view: View, q: nat :: q < numRx && old(rx[q]).Queue? && old(rx[q]).configured ==> !Stands(calls, view, Rx, q)
      ensures StopOutcome(old(calls), calls, old(tx[..]), numTx, old(rx[..]), numRx, env)
    {
      DatapathClear();
      NapiDoesNotMatter(Rx, old(rx[..]), numRx, numRx, false, env.rxClear);
      ok := ContextsClear(Rx, rx, numRx, env.rxClear);
      if ok {
        ok := ContextsClear(Tx, tx, numTx, env.txClear);
      }
      assert calls == old(calls) + StopCalls(old(tx[..]), numTx, old(rx[..]), numRx, env);
      StopCallsOutcome(old(calls), old(tx[..]), numTx, old(rx[..]), numRx, env);
      if ok {
        StoppedClean(old(calls), calls, old(tx[..]), numTx, old(rx[..]), numRx, env);
      }
    }

    /** onic_vf_stop_netdev. */
    method Stop(env: Env) returns (ok: bool)
      requires Valid()
      modifies this`calls, this`held, tx, rx
      ensures Valid()
      // it succeeds exactly when every clear it attempts is acknowledged
      ensures ok <==> AllCleared(old(rx[..]), numRx, env.rxClear) && AllCleared(old(tx[..]), numTx, env.txClear)
      ensures calls == old(calls) + StopCalls(old(tx[..]), numTx, old(rx[..]), numRx, env)
      // then all rings are freed, and the PF holds no context of a queue that was configured
      ensures ok ==> Blank(tx[..]) && Blank(rx[..])
      ensures ok ==> forall r :: r in held <==> r in old(held) && !InSlot(old(tx[..]), old(rx[..]), r)
      ensures ok ==> forall view: View, q: nat :: q < numTx && old(tx[q]).Queue? && old(tx[q]).configured ==> !Stands(calls, view, Tx, q)
      ensures ok ==> forall view: View, q: nat :: q < numRx && old(rx[q]).Queue? && old(rx[q]).configured ==> !Stands(calls, view, Rx, q)
      // in every case exactly the contexts whose clear was acknowledged, or carried out, are gone
      ensures StopOutcome(old(calls), calls, old(tx[..]), numTx, old(rx[..]), numRx, env)
      // otherwise no ring is freed and exactly the unacknowledged bits among those attempted stay set
      ensures !ok ==> held == old(held)
      ensures !ok ==> rx[..] == Cleared(WithNapi(old(rx[..]), numRx, false), numRx, env.rxClear)
      ensures !ok ==> tx[..] == if AllCleared(old(rx[..]), numRx, env.rxClear)
                                then Cleared(old(tx[..]), numTx, env.txClear) else old(tx[..])
    {
      ok := ContextsStop(env);
      if !ok {
        return;
      }
      ghost var tx3, rx3 := tx[..], rx[..];
      RingsClear();
      forall r ensures InSlot(tx3, rx3, r) <==> InSlot(old(tx[..]), old(rx[..]), r) {
        SameRingsSlots(tx3, rx3, old(tx[..]), old(rx[..]), r);
      }
    }
  }

  // ---------------------------------------------------------------------------------------------
  // Inputs on which a context outlives its ring, and on which a ring is lost
  // ---------------------------------------------------------------------------------------------

  /** No command returns 0 and none is carried out. */
  function NoReplies(): (r: seq<Reply>)
    ensures |r| == MAX_QUEUES && forall i :: 0 <= i < MAX_QUEUES ==> r[i] == Reply(false, Unchanged)
  {
    seq(MAX_QUEUES, _ => Reply(false, Unchanged))
  }

  /** Every allocation succeeds, every setup is acknowledged, no clear is. */
  function GoodStart(): (env: Env)
    ensures forall i :: 0 <= i < MAX_QUEUES ==>
              && env.txAlloc[i] && env.rxAlloc[i].Made? && env.txConfig[i].ok && env.rxConfig[i].ok
              && env.txClear[i] == env.rxClear[i] == Reply(false, Unchanged)
  {
    Env(seq(MAX_QUEUES, _ => true), seq(MAX_QUEUES, _ => Made),
        seq(MAX_QUEUES, _ => Reply(true, SetUp)), seq(MAX_QUEUES, _ => Reply(true, SetUp)), NoReplies(), NoReplies())
  }

  /** One queue, whose setup times out but is carried out: the open fails, the ring is freed, the context is there. */
  method FailedOpenLeavesContext() returns (dev: VfNetdev, ok: bool)
    ensures !ok && Blank(dev.tx[..]) && Blank(dev.rx[..])
    ensures Stands(dev.calls, Actual, Tx, 0) && !Stands(dev.calls, Acknowledged, Tx, 0)
  {
    dev := new VfNetdev(1, 1, 1);
    var env := GoodStart().(txConfig := NoReplies()[0 := Reply(false, SetUp)]);
    ghost var t, r := Filled(dev.tx[..], 1, env.TxHow()), Filled(dev.rx[..], 1, env.rxAlloc);
    assert !SetsUp(t[0], env.txConfig[0]) && FirstBad(t, 1, env.txConfig) == 0;
    ok := dev.Open(env);
    assert OpenOutcome([], dev.calls, t, 1, r, 1, env);
  }

  /** One queue up, a stop whose receive clear is not acknowledged, and a new start: the old rings are lost. */
  method RetainedRingIsLost() returns (dev: VfNetdev, up: bool, down: bool, again: bool)
    ensures up && !down && again && !dev.NoLeak()
  {
    dev := new VfNetdev(1, 1, 1);
    var env := GoodStart();
    up := dev.Open(env);
    ghost var rx1 := dev.rx[..];
    assert rx1[0].Queue? && rx1[0].configured;
    down := dev.Stop(env);
    assert dev.rx[..][0].Queue?;
    again := dev.Open(env);
  }
}
