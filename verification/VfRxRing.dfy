/**
  The VF receive rings (onic_vf_qdma.c): the poll loop over descriptor and completion ring, the
  batched credits, the colour bit and the ownership of receive pages.
*/
module VfRxRing {
  import opened Arith
  import opened Wrappers
  import opened VfTxRing

  const DESC_STEP: nat := 256
  const PAGE_SIZE: nat := 4096
  const HEADROOM: nat := 256

  /** The credit bound below needs a ring longer than one and a half steps; the driver's has 1023 entries. */
  const MIN_RING: nat := 384

  datatype Page = Null | Page(id: nat, dma: nat)

  function Dma(p: Page): nat {
    if p.Page? then p.dma else 0
  }

  /** `struct onic_rx_buffer`. */
  datatype RxBuf = RxBuf(pg: Page, offset: nat)

  /** `struct qdma_c2h_cmpl`, as unpacked from one completion entry. */
  datatype Cmpl = Cmpl(color: nat, err: nat, len: nat)

  /** What the page pool and the skb allocator answer for one packet. */
  datatype Alloc = NoPage | NoSkb(pg: Page) | Got(pg: Page)

  /** A packet handed to the stack: the page it lies in, where, and its length. */
  datatype Delivery = Delivery(pg: Page, offset: nat, len: nat)

  datatype Rx = Rx(
    bufs: seq<RxBuf>, descs: seq<nat>, cmpls: seq<Cmpl>,
    descUse: nat, descClean: nat, cmplClean: nat, color: nat, doorbell: nat)

  predicate Shaped(s: Rx) {
    && 0 < |s.bufs| == |s.descs| == |s.cmpls|
    && s.descClean < |s.bufs| && s.cmplClean < |s.bufs| && s.descUse < |s.bufs|
  }

  /** onic_vf_rx_refill_credit. */
  function Refill(s: Rx): (s': Rx)
    requires Shaped(s)
    ensures Shaped(s')
  {
    var n := |s.bufs|;
    var unused := (s.descUse + n - s.descClean) % n;
    if unused >= DESC_STEP / 2 then s
    else
      var use := (s.descUse + DESC_STEP) % n;
      s.(descUse := use, doorbell := use)
  }

  predicate Acceptable(s: Rx)
    requires Shaped(s)
  {
    var c := s.cmpls[s.cmplClean];
    c.color == s.color && c.err == 0 && c.len != 0 && c.len <= PAGE_SIZE - s.bufs[s.descClean].offset
  }

  /** C's `color ^= 1`. */
  function Flip(c: nat): nat {
    if c % 2 == 0 then c + 1 else c - 1
  }

  /** Swap in the new page, rewrite its descriptor and step both rings, flipping the colour at the wrap. */
  function Accept(s: Rx, pg: Page): (s': Rx)
    requires Shaped(s)
    ensures Shaped(s') && |s'.bufs| == |s.bufs|
  {
    var n := |s.bufs|;
    var clean := Inc(s.cmplClean, n);
    s.(bufs := s.bufs[s.descClean := RxBuf(pg, HEADROOM)],
       descs := s.descs[s.descClean := Dma(pg) + HEADROOM],
       descClean := Inc(s.descClean, n),
       cmplClean := clean,
       color := if clean == 0 then Flip(s.color) else s.color)
  }

  /** One round of the loop of onic_vf_rx_poll: the packet delivered, or None where the loop ends. */
  function PollOne(s: Rx, pidx: nat, alloc: Alloc): (res: (Rx, Option<Delivery>))
    requires Shaped(s)
    ensures Shaped(res.0) && |res.0.bufs| == |s.bufs|
    ensures res.1.None? ==> res.0 == s
  {
    if s.cmplClean == pidx || !Acceptable(s) || !alloc.Got? then (s, None)
    else
      var buf := s.bufs[s.descClean];
      (Refill(Accept(s, alloc.pg)), Some(Delivery(buf.pg, buf.offset, s.cmpls[s.cmplClean].len)))
  }

  /** The whole loop; the budget is the number of allocator answers supplied. */
  function PollAll(s: Rx, pidx: nat, allocs: seq<Alloc>): (res: (Rx, seq<Delivery>))
    requires Shaped(s)
    ensures Shaped(res.0) && |res.0.bufs| == |s.bufs|
    ensures |res.1| <= |allocs|
    decreases |allocs|
  {
    if allocs == [] then (s, [])
    else
      var (s1, d) := PollOne(s, pidx, allocs[0]);
      if d.None? then (s1, [])
      else
        var (s2, ds) := PollAll(s1, pidx, allocs[1..]);
        (s2, [d.value] + ds)
  }

  /** The pages in a range of slots, in slot order. */
  function SlotPages(bufs: seq<RxBuf>): seq<Page> {
    if bufs == [] then []
    else
      var last := |bufs| - 1;
      SlotPages(bufs[..last]) + if bufs[last].pg.Page? then [bufs[last].pg] else []
  }

  /** The slot a page from the pool becomes, and the descriptor pointing into it. */
  predicate Prepared(buf: RxBuf, desc: nat, pg: Page) {
    buf == RxBuf(pg, HEADROOM) && desc == Dma(pg) + HEADROOM
  }

  // ---------------------------------------------------------------------------------------------
  // The queue
  // ---------------------------------------------------------------------------------------------

  /** `struct onic_rx_queue`, with the completion entries the hardware writes. */
  class RxQueue {
    const realCount: nat
    const buffer: array<RxBuf>
    const desc: array<nat>
    const cmpl: array<Cmpl>
    var descUse: nat
    var descClean: nat
    var cmplClean: nat
    var color: nat
    var doorbell: nat
    /** The completion tail register: consumer index and interrupt arm bit. */
    var tail: nat
    var armed: bool

    predicate Sized() {
      0 < realCount == buffer.Length == desc.Length == cmpl.Length
    }

    ghost function View(): Rx
      reads this`descUse, this`descClean, this`cmplClean, this`color, this`doorbell, buffer, desc, cmpl
    {
      Rx(buffer[..], desc[..], cmpl[..], descUse, descClean, cmplClean, color, doorbell)
    }

    constructor (count: nat)
      requires count >= 2
      ensures Sized() && realCount == count - 1 && fresh(buffer) && fresh(desc) && fresh(cmpl)
      ensures forall i :: 0 <= i < realCount ==> buffer[i] == RxBuf(Null, 0) && cmpl[i] == Cmpl(0, 0, 0)
      ensures descUse == descClean == cmplClean == doorbell == 0 && color == 1
    {
      realCount := count - 1;
      buffer := new RxBuf[count - 1](_ => RxBuf(Null, 0));
      desc := new nat[count - 1](_ => 0);
      cmpl := new Cmpl[count - 1](_ => Cmpl(0, 0, 0));
      descUse, descClean, cmplClean, color, doorbell := 0, 0, 0, 1, 0;
      tail, armed := 0, false;
    }

    /** onic_vf_free_rx_pages: every page still in a slot goes back to the pool, once. */
    method FreePages() returns (returned: seq<Page>)
      requires Sized()
      modifies buffer
      ensures returned == SlotPages(old(buffer[..]))
      ensures forall i :: 0 <= i < realCount ==> buffer[i].pg == Null
    {
      returned := [];
      ghost var bufs := buffer[..];
      var i := 0;
      while i < realCount
        invariant 0 <= i <= realCount == |bufs|
        invariant forall k :: 0 <= k < i ==> buffer[k].pg == Null
        invariant forall k :: i <= k < realCount ==> buffer[k] == bufs[k]
        invariant returned == SlotPages(bufs[..i])
      {
        assert bufs[..i + 1][..i] == bufs[..i];
        if buffer[i].pg.Page? {
          returned := returned + [buffer[i].pg];
          buffer[i] := RxBuf(Null, buffer[i].offset);
        }
        i := i + 1;
      }
      assert bufs[..realCount] == bufs;
    }

    /** onic_vf_rx_datapath_init for one queue: the first batch of credits. */
    method Start()
      requires Sized()
      modifies this`descUse, this`doorbell, this`tail, this`armed
      ensures View() == old(View()).(descUse := DESC_STEP, doorbell := DESC_STEP) && tail == 0 && armed
    {
      descUse := DESC_STEP;
      doorbell := descUse;
      tail, armed := 0, true;
    }

    /** One accepted completion. */
    method Take(pg: Page) returns (d: Delivery)
      requires Sized() && Shaped(View())
      modifies this`descUse, this`descClean, this`cmplClean, this`color, this`doorbell, buffer, desc
      ensures View() == Refill(Accept(old(View()), pg))
      ensures d == Delivery(old(buffer[descClean].pg), old(buffer[descClean].offset), old(cmpl[cmplClean].len))
    {
      var c := cmpl[cmplClean];
      d := Delivery(buffer[descClean].pg, buffer[descClean].offset, c.len);
      ghost var s := View();
      buffer[descClean] := RxBuf(pg, HEADROOM);
      desc[descClean] := Dma(pg) + HEADROOM;
      descClean := if descClean + 1 == realCount then 0 else descClean + 1;
      cmplClean := if cmplClean + 1 == realCount then 0 else cmplClean + 1;
      if cmplClean == 0 {
        color := Flip(color);
      }
      assert View() == Accept(s, pg);
      var unused := (descUse + realCount - descClean) % realCount;
      if unused < DESC_STEP / 2 {
        descUse := (descUse + DESC_STEP) % realCount;
        doorbell := descUse;
      }
    }

    /** The body of the polling loop; None where it breaks. */
    method Round(ghost pidx: nat, alloc: Alloc) returns (d: Option<Delivery>)
      requires Sized() && Shaped(View()) && cmplClean != pidx
      modifies this`descUse, this`descClean, this`cmplClean, this`color, this`doorbell, buffer, desc
      ensures Shaped(View()) && (View(), d) == PollOne(old(View()), pidx, alloc)
    {
      var c := cmpl[cmplClean];
      if c.color != color || c.err != 0 || c.len == 0 || c.len > PAGE_SIZE - buffer[descClean].offset {
        return None;
      }
      if !alloc.Got? {
        return None;
      }
      var taken := Take(alloc.pg);
      d := Some(taken);
    }

    method PollLoop(budget: nat, pidx: nat, allocs: seq<Alloc>) returns (ds: seq<Delivery>)
      requires Sized() && Shaped(View()) && |allocs| == budget
      modifies this`descUse, this`descClean, this`cmplClean, this`color, this`doorbell, buffer, desc
      ensures Finishes(PollAll(old(View()), pidx, allocs), View(), ds)
    {
      ds := [];
      ghost var s := View();
      ghost var all := PollAll(s, pidx, allocs);
      assert allocs[0..] == allocs;
      while |ds| < budget && cmplClean != pidx
        invariant |ds| <= budget && s == View() && Shaped(s)
        invariant Ahead(all, ds, s, pidx, allocs)
        decreases budget - |ds|
      {
        ResumesStep(all, ds, s, pidx, allocs);
        var d := Round(pidx, allocs[|ds|]);
        s := View();
        if d.None? {
          return;
        }
        ds := ds + [d.value];
      }
      ResumesEnd(all, ds, s, pidx, allocs);
    }

    /** onic_vf_rx_poll after its transmit clean; `pidx` is read from the completion status word. */
    method Poll(budget: nat, pidx: nat, allocs: seq<Alloc>, napiDone: bool) returns (ds: seq<Delivery>)
      requires Sized() && Shaped(View()) && |allocs| == budget
      modifies this`descUse, this`descClean, this`cmplClean, this`color, this`doorbell, this`tail, this`armed, buffer, desc
      ensures Finishes(PollAll(old(View()), pidx, allocs), View(), ds)
      ensures tail == cmplClean && (armed <==> |ds| < budget && napiDone)
    {
      ds := PollLoop(budget, pidx, allocs);
      tail, armed := cmplClean, |ds| < budget && napiDone;
    }
  }

  ghost predicate Finishes(all: (Rx, seq<Delivery>), s: Rx, ds: seq<Delivery>) {
    all.0 == s && all.1 == ds
  }

  /** A poll that has delivered `ds` and has `rest` ahead of it is the poll `all`. */
  ghost predicate Resumes(all: (Rx, seq<Delivery>), ds: seq<Delivery>, rest: (Rx, seq<Delivery>)) {
    all.0 == rest.0 && all.1 == ds + rest.1
  }

  /** The poll `all` has delivered `ds` and is in state `s` with the rest of the allocator answers ahead. */
  ghost predicate Ahead(all: (Rx, seq<Delivery>), ds: seq<Delivery>, s: Rx, pidx: nat, allocs: seq<Alloc>)
    requires Shaped(s)
  {
    |ds| <= |allocs| && Resumes(all, ds, PollAll(s, pidx, allocs[|ds|..]))
  }

  lemma ResumesStep(all: (Rx, seq<Delivery>), ds: seq<Delivery>, s: Rx, pidx: nat, allocs: seq<Alloc>)
    requires Shaped(s) && |ds| < |allocs| && Ahead(all, ds, s, pidx, allocs)
    ensures var (s1, d) := PollOne(s, pidx, allocs[|ds|]);
            if d.None? then Finishes(all, s1, ds) else Ahead(all, ds + [d.value], s1, pidx, allocs)
  {
    assert allocs[|ds|..][1..] == allocs[|ds| + 1..];
  }

  lemma ResumesEnd(all: (Rx, seq<Delivery>), ds: seq<Delivery>, s: Rx, pidx: nat, allocs: seq<Alloc>)
    requires Shaped(s) && Ahead(all, ds, s, pidx, allocs)
    requires |ds| == |allocs| || s.cmplClean == pidx
    ensures Finishes(all, s, ds)
  {
  }

  lemma {:induction false} SlotPagesPrefix(bufs: seq<RxBuf>, pages: seq<Page>)
    requires |pages| <= |bufs|
    requires forall i :: 0 <= i < |pages| ==> pages[i].Page? && bufs[i].pg == pages[i]
    requires forall i :: |pages| <= i < |bufs| ==> bufs[i].pg == Null
    ensures SlotPages(bufs) == pages
    decreases |bufs|
  {
    if bufs != [] {
      var last := |bufs| - 1;
      if |pages| == |bufs| {
        SlotPagesPrefix(bufs[..last], pages[..last]);
        assert pages == pages[..last] + [pages[last]];
      } else {
        SlotPagesPrefix(bufs[..last], pages);
      }
    }
  }

  /** How many of the pool's answers come before its first refusal. */
  function Supplied(env: seq<Option<Page>>): (k: nat)
    ensures k <= |env| && (forall i :: 0 <= i < k ==> env[i].Some?) && (k < |env| ==> env[k].None?)
  {
    if env == [] || env[0].None? then 0 else 1 + Supplied(env[1..])
  }

  function Values(env: seq<Option<Page>>): (pages: seq<Page>)
    requires forall i :: 0 <= i < |env| ==> env[i].Some?
    ensures |pages| == |env| && forall i :: 0 <= i < |env| ==> pages[i] == env[i].value
  {
    seq(|env|, i requires 0 <= i < |env| => env[i].value)
  }

  /**
    onic_vf_alloc_rx_ring once its first allocations have succeeded. Every page taken from the pool
    is in a slot of the new queue or has been returned. Without memory for the completion ring the
    source returns 0 although there is no queue.
  */
  method AllocRxRing(count: nat, env: seq<Option<Page>>, cmplOk: bool)
    returns (q: RxQueue?, err: bool, returned: seq<Page>)
    requires count >= 2 && |env| == count - 1
    requires forall i :: 0 <= i < |env| && env[i].Some? ==> env[i].value.Page?
    ensures err <==> Supplied(env) < |env|
    ensures q != null <==> !err && cmplOk
    ensures q == null ==> returned == Values(env[..Supplied(env)])
    ensures q != null ==>
              && fresh(q) && fresh(q.buffer) && fresh(q.desc) && fresh(q.cmpl) && returned == []
              && q.Sized() && q.realCount == count - 1
              && q.descUse == q.descClean == q.cmplClean == 0 && q.color == 1
              && (forall i :: 0 <= i < q.realCount ==>
                    env[i].Some? && Prepared(q.buffer[i], q.desc[i], env[i].value) && q.cmpl[i] == Cmpl(0, 0, 0))
  {
    var rx := new RxQueue(count);
    q, err, returned := null, false, [];
    var i := 0;
    while i < rx.realCount && !err
      invariant 0 <= i <= rx.realCount && fresh(rx) && fresh(rx.buffer) && fresh(rx.desc) && fresh(rx.cmpl)
      invariant rx.Sized() && rx.realCount == count - 1 && i <= Supplied(env)
      invariant err ==> i == Supplied(env) < |env|
      invariant rx.descUse == rx.descClean == rx.cmplClean == 0 && rx.color == 1
      invariant forall k :: 0 <= k < i ==> Prepared(rx.buffer[k], rx.desc[k], env[k].value)
      invariant forall k :: i <= k < rx.realCount ==> rx.buffer[k].pg == Null
      invariant forall k :: 0 <= k < rx.realCount ==> rx.cmpl[k] == Cmpl(0, 0, 0)
      decreases rx.realCount - i, !err
    {
      if env[i].None? {
        err := true;
      } else {
        rx.buffer[i] := RxBuf(env[i].value, HEADROOM);
        rx.desc[i] := Dma(env[i].value) + HEADROOM;
        i := i + 1;
      }
    }
    if err || !cmplOk {
      SlotPagesPrefix(rx.buffer[..], Values(env[..Supplied(env)]));
      returned := rx.FreePages();
    } else {
      q := rx;
    }
  }
}
