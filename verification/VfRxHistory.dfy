/**
  Whole lives of a VF receive queue (onic_vf_qdma.c): polls, hardware completions and recycled pages
  in any order. The hardware is trusted to use only descriptors it was given credit for, to colour
  its completions by pass and to keep pace with nothing else; the `pidx` a poll reads is arbitrary.
*/
module VfRxHistory {
  import opened Arith
  import opened Wrappers
  import opened VfTxRing
  import opened VfRxRing

  /** A completion the hardware wrote, and the page its descriptor pointed at. */
  datatype Posted = Posted(c: Cmpl, pg: Page)

  /**
    `advertised` and `cleaned` are the unbounded positions behind next_to_use and next_to_clean;
    `live` are the pages inside packets the stack still holds.
  */
  datatype Life = Life(rx: Rx, posted: seq<Posted>, cleaned: nat, advertised: nat, delivered: seq<Delivery>, live: set<Page>)

  datatype Event =
    | HwPost(err: nat, len: nat)
    | PollRound(pidx: nat, alloc: Alloc)
    | Recycle(pg: Page)

  /** The colour of completion number k in a ring of n: 1 on the first pass, flipping at every wrap. */
  function PassColor(k: nat, n: nat): nat
    requires n > 0
  {
    1 - (k / n) % 2
  }

  /** The page pool only hands out pages that are in no slot and in no packet. */
  predicate Unowned(l: Life, pg: Page) {
    pg.Page? && pg !in l.live && forall i :: 0 <= i < |l.rx.bufs| ==> l.rx.bufs[i].pg != pg
  }

  function Credited(advertised: nat, cleaned: int): nat {
    if advertised - cleaned >= DESC_STEP / 2 then advertised else advertised + DESC_STEP
  }

  function Step(l: Life, e: Event): (l': Life)
    requires Shaped(l.rx)
    ensures Shaped(l'.rx) && |l'.rx.bufs| == |l.rx.bufs|
  {
    var n := |l.rx.bufs|;
    match e
    case HwPost(err, len) =>
      var k := |l.posted|;
      if k >= l.advertised then l
      else
        var c := Cmpl(PassColor(k, n), err, len);
        l.(rx := l.rx.(cmpls := l.rx.cmpls[k % n := c]),
           posted := l.posted + [Posted(c, l.rx.bufs[k % n].pg)])
    case PollRound(pidx, alloc) =>
      if alloc.Got? && !Unowned(l, alloc.pg) then l
      else
        var (rx', d) := PollOne(l.rx, pidx, alloc);
        if d.None? then l
        else l.(rx := rx', cleaned := l.cleaned + 1, advertised := Credited(l.advertised, l.cleaned + 1),
                delivered := l.delivered + [d.value], live := l.live + {d.value.pg})
    case Recycle(pg) => l.(live := l.live - {pg})
  }

  function Run(l: Life, es: seq<Event>): (l': Life)
    requires Shaped(l.rx)
    ensures Shaped(l'.rx) && |l'.rx.bufs| == |l.rx.bufs|
    decreases |es|
  {
    if es == [] then l else Run(Step(l, es[0]), es[1..])
  }

  // ---------------------------------------------------------------------------------------------
  // The invariant
  // ---------------------------------------------------------------------------------------------

  /** Credits stay between half a step and a step and a half less one, far below one ring. */
  ghost predicate Positions(l: Life) {
    && l.cleaned <= |l.posted| <= l.advertised
    && DESC_STEP / 2 <= l.advertised - l.cleaned < DESC_STEP + DESC_STEP / 2
  }

  ghost predicate Rings(l: Life) {
    var n := |l.rx.bufs|;
    && n >= MIN_RING && Shaped(l.rx)
    && l.rx.descClean == l.rx.cmplClean == l.cleaned % n
    && l.rx.doorbell == l.rx.descUse == l.advertised % n
    && l.rx.color == PassColor(l.cleaned, n)
  }

  /** The completion ring shows the last pass of what was posted, and zeros where nothing was. */
  ghost predicate Entries(cmpls: seq<Cmpl>, posted: seq<Posted>) {
    var n := |cmpls|;
    && n > 0
    && (forall k :: 0 <= k < |posted| ==> posted[k].c.color == PassColor(k, n))
    && (forall k :: 0 <= k < |posted| && |posted| <= k + n ==> cmpls[k % n] == posted[k].c)
    && (forall i :: |posted| <= i < n ==> cmpls[i].color == 0)
  }

  /** Every slot holds a page of its own, its descriptor points into it, and no packet shares it. */
  ghost predicate Pages(rx: Rx, live: set<Page>) {
    && |rx.descs| == |rx.bufs|
    && (forall i :: 0 <= i < |rx.bufs| ==>
          rx.bufs[i].pg.Page? && rx.bufs[i].offset == HEADROOM && rx.bufs[i].pg !in live
          && rx.descs[i] == Dma(rx.bufs[i].pg) + HEADROOM)
    && (forall i, j :: 0 <= i < j < |rx.bufs| ==> rx.bufs[i].pg != rx.bufs[j].pg)
  }

  /** A page stays in its slot from the completion that fills it to the poll that takes it. */
  ghost predicate PagesWait(bufs: seq<RxBuf>, posted: seq<Posted>, cleaned: nat) {
    |bufs| > 0 && forall k :: cleaned <= k < |posted| ==> bufs[k % |bufs|].pg == posted[k].pg
  }

  ghost predicate GoodCmpl(c: Cmpl) {
    c.err == 0 && 0 < c.len <= PAGE_SIZE - HEADROOM
  }

  /** What was delivered is exactly what was posted, in order, up to `cleaned`. */
  ghost predicate InOrder(delivered: seq<Delivery>, posted: seq<Posted>, cleaned: nat) {
    && |delivered| == cleaned <= |posted|
    && forall k :: 0 <= k < cleaned ==>
         GoodCmpl(posted[k].c) && delivered[k] == Delivery(posted[k].pg, HEADROOM, posted[k].c.len)
  }

  ghost predicate Inv(l: Life) {
    && Positions(l) && Rings(l)
    && Entries(l.rx.cmpls, l.posted)
    && Pages(l.rx, l.live)
    && PagesWait(l.rx.bufs, l.posted, l.cleaned)
    && InOrder(l.delivered, l.posted, l.cleaned)
  }

  // ---------------------------------------------------------------------------------------------
  // Colours
  // ---------------------------------------------------------------------------------------------

  lemma NextColor(k: nat, n: nat)
    requires n > 1
    ensures PassColor(k + 1, n) == if (k + 1) % n == 0 then Flip(PassColor(k, n)) else PassColor(k, n)
  {
    ModSucc(k, n);
  }

  /** The colour check alone tells whether the next completion has been written. */
  lemma ColorTellsPosted(l: Life)
    requires Inv(l)
    ensures l.rx.cmpls[l.rx.cmplClean].color == l.rx.color <==> l.cleaned < |l.posted|
    ensures l.cleaned < |l.posted| ==> l.rx.cmpls[l.rx.cmplClean] == l.posted[l.cleaned].c
  {
    var n, k := |l.rx.bufs|, l.cleaned;
    if k == |l.posted| {
      if k < n {
        FirstPass(k, n);
      } else {
        OnePassLater(k - n, n);
        assert l.rx.cmpls[(k - n) % n] == l.posted[k - n].c;
      }
    }
  }

  lemma FirstPass(k: nat, n: nat)
    requires k < n
    ensures PassColor(k, n) == 1 && k % n == k
  {
    DivModUnique(k, 0, k, n);
  }

  /** One pass later the slot is the same and the colour the other one. */
  lemma OnePassLater(k: nat, n: nat)
    requires n > 0
    ensures (k + n) % n == k % n && PassColor(k + n, n) != PassColor(k, n)
  {
    ModAddMultiple(k, 1, n);
  }

  /** A stale entry, from the previous pass or from the zeroed ring, changes nothing whatever `pidx` says. */
  lemma StaleEntryRejected(l: Life, pidx: nat, alloc: Alloc)
    requires Inv(l) && l.cleaned == |l.posted|
    ensures PollOne(l.rx, pidx, alloc) == (l.rx, None)
  {
    ColorTellsPosted(l);
  }

  /** With a `pidx` the hardware did publish, the modular test is exact, and a good entry is taken. */
  lemma PublishedEntryTaken(l: Life, published: nat, alloc: Alloc)
    requires Inv(l) && l.cleaned <= published <= |l.posted|
    ensures var n := |l.rx.bufs|;
            && (l.rx.cmplClean == published % n <==> published == l.cleaned)
            && (PollOne(l.rx, published % n, alloc).1.Some? <==>
                  && published > l.cleaned && alloc.Got?
                  && l.posted[l.cleaned].c.err == 0 && 0 < l.posted[l.cleaned].c.len <= 3840)
  {
    ColorTellsPosted(l);
    if published > l.cleaned {
      ModDistinct(l.cleaned, published, |l.rx.bufs|);
    }
  }

  // ---------------------------------------------------------------------------------------------
  // Every step keeps the invariant
  // ---------------------------------------------------------------------------------------------

  lemma EntriesAfterPost(cmpls: seq<Cmpl>, posted: seq<Posted>, p: Posted)
    requires Entries(cmpls, posted) && p.c.color == PassColor(|posted|, |cmpls|)
    ensures Entries(cmpls[|posted| % |cmpls| := p.c], posted + [p])
  {
    var n := |cmpls|;
    var cmpls', posted' := cmpls[|posted| % n := p.c], posted + [p];
    forall k | 0 <= k < |posted'| && |posted'| <= k + n
      ensures cmpls'[k % n] == posted'[k].c
    {
      if k < |posted| {
        ModDistinct(k, |posted|, n);
      }
    }
    forall i | |posted'| <= i < n
      ensures cmpls'[i].color == 0
    {
      DivModUnique(|posted|, 0, |posted|, n);
    }
  }

  lemma PostKeeps(l: Life, err: nat, len: nat)
    requires Inv(l)
    ensures Inv(Step(l, HwPost(err, len)))
  {
    var n, k := |l.rx.bufs|, |l.posted|;
    if k < l.advertised {
      var c := Cmpl(PassColor(k, n), err, len);
      var p := Posted(c, l.rx.bufs[k % n].pg);
      EntriesAfterPost(l.rx.cmpls, l.posted, p);
    }
  }

  lemma PagesAfterAccept(l: Life, pg: Page)
    requires Inv(l) && Unowned(l, pg)
    ensures Pages(Accept(l.rx, pg), l.live + {l.rx.bufs[l.rx.descClean].pg})
  {
    var rx := Accept(l.rx, pg);
    var i := l.rx.descClean;
    forall j, k | 0 <= j < k < |rx.bufs|
      ensures rx.bufs[j].pg != rx.bufs[k].pg
    {
      assert l.rx.bufs[j].pg != l.rx.bufs[k].pg;
    }
    forall j | 0 <= j < |rx.bufs|
      ensures rx.bufs[j].pg !in l.live + {l.rx.bufs[i].pg}
    {
      if j < i {
        assert l.rx.bufs[j].pg != l.rx.bufs[i].pg;
      } else if i < j {
        assert l.rx.bufs[i].pg != l.rx.bufs[j].pg;
      }
    }
  }

  lemma WaitAfterAccept(bufs: seq<RxBuf>, posted: seq<Posted>, cleaned: nat, b: RxBuf)
    requires PagesWait(bufs, posted, cleaned) && cleaned < |posted| <= cleaned + |bufs|
    ensures bufs[cleaned % |bufs|].pg == posted[cleaned].pg
    ensures PagesWait(bufs[cleaned % |bufs| := b], posted, cleaned + 1)
  {
    forall k | cleaned + 1 <= k < |posted|
      ensures bufs[cleaned % |bufs| := b][k % |bufs|].pg == posted[k].pg
    {
      ModDistinct(cleaned, k, |bufs|);
    }
  }

  /** The credit arithmetic on ring indices, in positions. */
  lemma RefillInPositions(rx: Rx, advertised: nat, cleaned: nat)
    requires Shaped(rx) && |rx.bufs| >= MIN_RING
    requires rx.descUse == advertised % |rx.bufs| && rx.descClean == cleaned % |rx.bufs|
    requires cleaned <= advertised < cleaned + |rx.bufs|
    ensures Refill(rx).descUse == Credited(advertised, cleaned) % |rx.bufs|
    ensures rx.doorbell == rx.descUse ==> Refill(rx).doorbell == Refill(rx).descUse
  {
    var n := |rx.bufs|;
    ModDistance(cleaned, advertised, n);
    WrapStep(advertised, DESC_STEP, n);
  }

  lemma WrapStep(a: nat, d: nat, n: nat)
    requires n > 0
    ensures (a % n + d) % n == (a + d) % n
  {
    assert a + d == (a % n + d) + (a / n) * n;
    ModAddMultiple(a % n + d, a / n, n);
  }

  lemma AcceptedRings(l: Life, pg: Page)
    requires Inv(l) && l.cleaned < |l.posted|
    ensures var rx, n, k := Refill(Accept(l.rx, pg)), |l.rx.bufs|, l.cleaned + 1;
            && Shaped(rx) && |rx.bufs| == n
            && rx.descClean == rx.cmplClean == k % n && rx.color == PassColor(k, n)
            && rx.doorbell == rx.descUse == Credited(l.advertised, k) % n
  {
    var n := |l.rx.bufs|;
    ModSucc(l.cleaned, n);
    NextColor(l.cleaned, n);
    RefillInPositions(Accept(l.rx, pg), l.advertised, l.cleaned + 1);
  }

  lemma RoundKeeps(l: Life, pidx: nat, alloc: Alloc)
    requires Inv(l)
    ensures Inv(Step(l, PollRound(pidx, alloc)))
  {
    ColorTellsPosted(l);
    if alloc.Got? && Unowned(l, alloc.pg) && PollOne(l.rx, pidx, alloc).1.Some? {
      TakenKeeps(l, alloc.pg);
    }
  }

  /** The state after a completion was taken and its packet delivered. */
  function Taken(l: Life, pg: Page): Life
    requires Shaped(l.rx)
  {
    var buf := l.rx.bufs[l.rx.descClean];
    l.(rx := Refill(Accept(l.rx, pg)), cleaned := l.cleaned + 1, advertised := Credited(l.advertised, l.cleaned + 1),
       delivered := l.delivered + [Delivery(buf.pg, buf.offset, l.rx.cmpls[l.rx.cmplClean].len)], live := l.live + {buf.pg})
  }

  lemma TakenKeeps(l: Life, pg: Page)
    requires Inv(l) && Unowned(l, pg) && Acceptable(l.rx) && l.cleaned < |l.posted|
    requires l.rx.cmpls[l.rx.cmplClean] == l.posted[l.cleaned].c
    ensures Inv(Taken(l, pg))
  {
    AcceptedRings(l, pg);
    PagesAfterAccept(l, pg);
    WaitAfterAccept(l.rx.bufs, l.posted, l.cleaned, RxBuf(pg, HEADROOM));
  }

  lemma StepKeepsInv(l: Life, e: Event)
    requires Inv(l)
    ensures Inv(Step(l, e))
  {
    match e
    case HwPost(err, len) => PostKeeps(l, err, len);
    case PollRound(pidx, alloc) => RoundKeeps(l, pidx, alloc);
    case Recycle(_) =>
  }

  lemma {:induction false} RunKeepsInv(l: Life, es: seq<Event>)
    requires Inv(l)
    ensures Inv(Run(l, es))
    decreases |es|
  {
    if es != [] {
      StepKeepsInv(l, es[0]);
      RunKeepsInv(Step(l, es[0]), es[1..]);
    }
  }

  // ---------------------------------------------------------------------------------------------
  // Main results
  // ---------------------------------------------------------------------------------------------

  /** A queue as onic_vf_alloc_rx_ring and onic_vf_rx_datapath_init leave it. */
  ghost predicate Opened(rx: Rx) {
    && Shaped(rx) && |rx.bufs| >= MIN_RING
    && rx.doorbell == rx.descUse == DESC_STEP && rx.descClean == rx.cmplClean == 0 && rx.color == 1
    && (forall i :: 0 <= i < |rx.cmpls| ==> rx.cmpls[i].color == 0)
    && Pages(rx, {})
  }

  function NewLife(rx: Rx): Life {
    Life(rx, [], 0, DESC_STEP, [], {})
  }

  lemma OpenedInv(rx: Rx)
    requires Opened(rx)
    ensures Inv(NewLife(rx))
  {
    var n := |rx.bufs|;
    FirstPass(0, n);
    FirstPass(DESC_STEP, n);
  }

  /** A queue allocated with pages that are all different, and started, is opened. */
  lemma AllocatedQueueOpens(q: RxQueue, env: seq<Option<Page>>)
    requires q.Sized() && q.realCount == |env| >= MIN_RING
    requires q.doorbell == q.descUse == DESC_STEP && q.descClean == q.cmplClean == 0 && q.color == 1
    requires forall i :: 0 <= i < |env| ==>
               env[i].Some? && env[i].value.Page? && Prepared(q.buffer[i], q.desc[i], env[i].value) && q.cmpl[i] == Cmpl(0, 0, 0)
    requires forall i, j :: 0 <= i < j < |env| ==> env[i] != env[j]
    ensures Opened(q.View())
  {
  }

  /**
    Over any number of polls, budgets and breaks: the stack gets each completion the hardware wrote
    once, in order, in the page that completion's descriptor pointed at, and the software colour is
    the parity of the completed wraps.
  */
  lemma DeliveredOnceInOrder(rx: Rx, es: seq<Event>)
    requires Opened(rx)
    ensures var l := Run(NewLife(rx), es);
            var n := |rx.bufs|;
            && InOrder(l.delivered, l.posted, l.cleaned)
            && l.rx.descClean == l.rx.cmplClean == l.cleaned % n
            && l.rx.color == 1 - (l.cleaned / n) % 2
  {
    OpenedInv(rx);
    RunKeepsInv(NewLife(rx), es);
  }

  /** The hardware never has room to reuse a slot that has not been cleaned. */
  lemma CreditsBounded(rx: Rx, es: seq<Event>)
    requires Opened(rx)
    ensures var l := Run(NewLife(rx), es);
            && 128 <= l.advertised - l.cleaned <= 383 < |rx.bufs|
            && l.cleaned <= |l.posted| <= l.advertised
            && l.rx.descUse == l.advertised % |rx.bufs|
  {
    OpenedInv(rx);
    RunKeepsInv(NewLife(rx), es);
  }

  /**
    All the credit is announced: the doorbell shows the advertised position at every moment, so from it
    and the descriptors it has used the hardware finds exactly the number it may still use.
  */
  lemma CreditIsAnnounced(rx: Rx, es: seq<Event>)
    requires Opened(rx)
    ensures var l := Run(NewLife(rx), es);
            var n := |rx.bufs|;
            && l.rx.doorbell == l.rx.descUse == l.advertised % n
            && (l.rx.doorbell + n - l.rx.descClean) % n == l.advertised - l.cleaned
            && (l.rx.doorbell + n - |l.posted| % n) % n == l.advertised - |l.posted|
  {
    OpenedInv(rx);
    RunKeepsInv(NewLife(rx), es);
    var l := Run(NewLife(rx), es);
    ModDistance(l.cleaned, l.advertised, |rx.bufs|);
    ModDistance(|l.posted|, l.advertised, |rx.bufs|);
  }

  /** Pages are conserved: a page each for every slot, all different, none of them inside a packet. */
  lemma PagesOwned(rx: Rx, es: seq<Event>)
    requires Opened(rx)
    ensures var l := Run(NewLife(rx), es);
            && Pages(l.rx, l.live)
            && (forall i :: 0 <= i < |rx.bufs| ==> l.rx.bufs[i].offset == 256 && l.rx.descs[i] == Dma(l.rx.bufs[i].pg) + 256)
            && forall k :: l.cleaned <= k < |l.posted| ==> l.rx.bufs[k % |l.rx.bufs|].pg == l.posted[k].pg
  {
    OpenedInv(rx);
    RunKeepsInv(NewLife(rx), es);
  }

  lemma {:induction false} SlotPagesOfFull(bufs: seq<RxBuf>)
    requires forall i :: 0 <= i < |bufs| ==> bufs[i].pg.Page?
    ensures SlotPages(bufs) == seq(|bufs|, i requires 0 <= i < |bufs| => bufs[i].pg)
    decreases |bufs|
  {
    if bufs != [] {
      SlotPagesOfFull(bufs[..|bufs| - 1]);
    }
  }

  /** After any run, teardown gives back one page for each slot, no page twice, and none inside a packet. */
  lemma TeardownReturnsEach(rx: Rx, es: seq<Event>)
    requires Opened(rx)
    ensures var l := Run(NewLife(rx), es);
            var pages := SlotPages(l.rx.bufs);
            && |pages| == |rx.bufs|
            && (forall i :: 0 <= i < |pages| ==> pages[i] == l.rx.bufs[i].pg && pages[i] !in l.live)
            && (forall i, j :: 0 <= i < j < |pages| ==> pages[i] != pages[j])
  {
    PagesOwned(rx, es);
    SlotPagesOfFull(Run(NewLife(rx), es).rx.bufs);
  }

  /** The rounds a poll makes before it ends. */
  function Rounds(pidx: nat, allocs: seq<Alloc>): (es: seq<Event>)
    ensures |es| == |allocs|
  {
    if allocs == [] then [] else [PollRound(pidx, allocs[0])] + Rounds(pidx, allocs[1..])
  }

  /** Along a poll, every page the pool supplies is unowned when it is supplied. */
  ghost predicate PoolHonest(l: Life, pidx: nat, allocs: seq<Alloc>)
    requires Shaped(l.rx)
    decreases |allocs|
  {
    allocs != [] ==>
      && (allocs[0].Got? ==> Unowned(l, allocs[0].pg))
      && PoolHonest(Step(l, PollRound(pidx, allocs[0])), pidx, allocs[1..])
  }

  /** From l to l' the poll went through the ring and delivered `ds`. */
  predicate Polled(l: Life, l': Life, rx: Rx, ds: seq<Delivery>) {
    l'.rx == rx && l'.delivered == l.delivered + ds && l'.cleaned == l.cleaned + |ds| && l'.posted == l.posted
  }

  lemma PolledOn(l: Life, l1: Life, l2: Life, rx1: Rx, rx2: Rx, d: Delivery, ds: seq<Delivery>)
    requires Polled(l, l1, rx1, [d]) && Polled(l1, l2, rx2, ds)
    ensures Polled(l, l2, rx2, [d] + ds)
  {
  }

  lemma RunFirst(l: Life, e: Event, es: seq<Event>)
    requires Shaped(l.rx)
    ensures Run(l, [e] + es) == Run(Step(l, e), es)
  {
    assert ([e] + es)[1..] == es;
  }

  lemma RoundPolled(l: Life, pidx: nat, alloc: Alloc)
    requires Shaped(l.rx) && (alloc.Got? ==> Unowned(l, alloc.pg))
    ensures var (rx1, d) := PollOne(l.rx, pidx, alloc);
            d.Some? ==> Polled(l, Step(l, PollRound(pidx, alloc)), rx1, [d.value])
  {
  }

  /** A whole poll is the run of its rounds, so everything above holds of polls. */
  lemma {:induction false} PollIsItsRounds(l: Life, pidx: nat, allocs: seq<Alloc>)
    requires Shaped(l.rx) && PoolHonest(l, pidx, allocs)
    ensures var (rx, ds) := PollAll(l.rx, pidx, allocs);
            Polled(l, Run(l, Rounds(pidx, allocs[..|ds|])), rx, ds)
    decreases |allocs|
  {
    if allocs != [] {
      var (rx1, d) := PollOne(l.rx, pidx, allocs[0]);
      if d.Some? {
        RoundPolled(l, pidx, allocs[0]);
        var l1 := Step(l, PollRound(pidx, allocs[0]));
        PollIsItsRounds(l1, pidx, allocs[1..]);
        var (rx2, ds) := PollAll(rx1, pidx, allocs[1..]);
        var es := Rounds(pidx, allocs[1..][..|ds|]);
        assert allocs[..1 + |ds|][1..] == allocs[1..][..|ds|];
        assert Rounds(pidx, allocs[..1 + |ds|]) == [PollRound(pidx, allocs[0])] + es;
        RunFirst(l, PollRound(pidx, allocs[0]), es);
        PolledOn(l, l1, Run(l1, es), rx1, rx2, d.value, ds);
      }
    }
  }

  /** Completion k of a poll is there, good, and a page is to be had. */
  ghost predicate Takes(posted: seq<Posted>, cleaned: nat, published: nat, allocs: seq<Alloc>, k: nat)
    requires published <= |posted|
  {
    k < |allocs| && cleaned + k < published && GoodCmpl(posted[cleaned + k].c) && allocs[k].Got?
  }

  /** Exactly the completions up to the first that cannot be taken are delivered, each in its own page. */
  ghost predicate TakesAll(posted: seq<Posted>, cleaned: nat, published: nat, allocs: seq<Alloc>, ds: seq<Delivery>)
    requires published <= |posted|
  {
    && (forall k: nat :: k < |ds| ==>
          Takes(posted, cleaned, published, allocs, k)
          && ds[k] == Delivery(posted[cleaned + k].pg, HEADROOM, posted[cleaned + k].c.len))
    && !Takes(posted, cleaned, published, allocs, |ds|)
  }

  lemma TakesNext(posted: seq<Posted>, cleaned: nat, published: nat, allocs: seq<Alloc>, d: Delivery, ds: seq<Delivery>)
    requires published <= |posted| && Takes(posted, cleaned, published, allocs, 0)
    requires d == Delivery(posted[cleaned].pg, HEADROOM, posted[cleaned].c.len)
    requires TakesAll(posted, cleaned + 1, published, allocs[1..], ds)
    ensures TakesAll(posted, cleaned, published, allocs, [d] + ds)
  {
    forall k: nat
      ensures k > 0 ==> Takes(posted, cleaned, published, allocs, k) == Takes(posted, cleaned + 1, published, allocs[1..], k - 1)
    {
    }
    forall k: nat | k < |[d] + ds|
      ensures Takes(posted, cleaned, published, allocs, k)
      ensures ([d] + ds)[k] == Delivery(posted[cleaned + k].pg, HEADROOM, posted[cleaned + k].c.len)
    {
      if k > 0 {
        assert Takes(posted, cleaned + 1, published, allocs[1..], k - 1);
      }
    }
  }

  /** One round of such a poll. */
  lemma RoundTakes(l: Life, published: nat, allocs: seq<Alloc>)
    requires Inv(l) && l.cleaned <= published <= |l.posted| && allocs != []
    requires allocs[0].Got? ==> Unowned(l, allocs[0].pg)
    ensures var pidx := published % |l.rx.bufs|;
            var (rx1, d) := PollOne(l.rx, pidx, allocs[0]);
            var l1 := Step(l, PollRound(pidx, allocs[0]));
            && (d.Some? <==> Takes(l.posted, l.cleaned, published, allocs, 0))
            && (d.Some? ==>
                  && d.value == Delivery(l.posted[l.cleaned].pg, HEADROOM, l.posted[l.cleaned].c.len)
                  && l1.rx == rx1 && |l1.rx.bufs| == |l.rx.bufs|
                  && l1.posted == l.posted && l1.cleaned == l.cleaned + 1 && Inv(l1))
  {
    PublishedEntryTaken(l, published, allocs[0]);
    ColorTellsPosted(l);
    StepKeepsInv(l, PollRound(published % |l.rx.bufs|, allocs[0]));
  }

  /**
    A poll takes everything it may: with the index the hardware published it delivers the next completions,
    each in its own page, until its budget is used up, it has caught up, or it meets a bad completion or an
    empty pool.
  */
  lemma {:induction false} PollTakesWhatIsPublished(l: Life, published: nat, allocs: seq<Alloc>)
    requires Inv(l) && l.cleaned <= published <= |l.posted| && PoolHonest(l, published % |l.rx.bufs|, allocs)
    ensures TakesAll(l.posted, l.cleaned, published, allocs, PollAll(l.rx, published % |l.rx.bufs|, allocs).1)
    decreases |allocs|
  {
    if allocs != [] {
      var pidx := published % |l.rx.bufs|;
      RoundTakes(l, published, allocs);
      var (rx1, d) := PollOne(l.rx, pidx, allocs[0]);
      if d.Some? {
        PollTakesWhatIsPublished(Step(l, PollRound(pidx, allocs[0])), published, allocs[1..]);
        TakesNext(l.posted, l.cleaned, published, allocs, d.value, PollAll(rx1, pidx, allocs[1..]).1);
      }
    }
  }
}
