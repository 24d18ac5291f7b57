/**
  The VF transmit ring (onic_vf_netdev.c, onic_vf_qdma.c), one call at a time: what transmit, clean
  and teardown do to the buffers for every value the writeback word might hold.
*/
module VfTxRing {
  import opened Arith
  import opened Wrappers

  // ---------------------------------------------------------------------------------------------
  // Ring positions
  // ---------------------------------------------------------------------------------------------

  /** The i-th slot counted from `start`, going round a ring of n. */
  function Slot(start: nat, i: nat, n: nat): (s: nat)
    requires start < n && i <= n
    ensures s < n
  {
    if start + i < n then start + i else start + i - n
  }

  /** Steps from one index forward to another. */
  function Dist(from: nat, to: nat, n: nat): (d: nat)
    requires from < n && to < n
    ensures d < n && Slot(from, d, n) == to
  {
    if from <= to then to - from else to + n - from
  }

  function Inc(i: nat, n: nat): (j: nat)
    requires i < n
    ensures j < n
  {
    if i + 1 == n then 0 else i + 1
  }

  /** onic_vf_tx_ring_full. */
  predicate RingFull(use: nat, clean: nat, n: nat)
    requires use < n
  {
    Inc(use, n) == clean
  }

  // ---------------------------------------------------------------------------------------------
  // Which buffers are occupied
  // ---------------------------------------------------------------------------------------------

  /** One mapped packet: `struct onic_tx_buffer` without its type tag. */
  datatype Entry = Entry(skb: nat, dma: nat, len: nat)

  /** `struct qdma_h2c_st_desc`; the length field keeps 16 bits. */
  datatype Descriptor = Descriptor(metadata: nat, len: nat, srcAddr: nat)

  function DescriptorOf(e: Entry): Descriptor {
    Descriptor(e.len, e.len % 0x1_0000, e.dma)
  }

  /** What the i-th slot after next_to_clean holds when `pending` fills the end of a window of `used`. */
  function Expected(i: int, used: nat, pending: seq<Entry>): Option<Entry>
  {
    if |pending| <= used && used - |pending| <= i < used then Some(pending[i - (used - |pending|)]) else None
  }

  /**
    The window invariant: only slots in [next_to_clean, next_to_use) are occupied, by `pending` in
    order, and the occupied ones are the last of the window.
  */
  ghost predicate Occupancy(buf: seq<Option<Entry>>, clean: nat, use: nat, pending: seq<Entry>) {
    && clean < |buf| && use < |buf|
    && |pending| <= Dist(clean, use, |buf|)
    && forall i {:trigger buf[Slot(clean, i, |buf|)]} :: 0 <= i < |buf| ==> buf[Slot(clean, i, |buf|)] == Expected(i, Dist(clean, use, |buf|), pending)
  }

  /** Whether the slot at next_to_clean holds the oldest pending entry. */
  predicate OldestIsNext(clean: nat, use: nat, n: nat, pending: nat)
    requires clean < n && use < n
  {
    pending > 0 && pending == Dist(clean, use, n)
  }

  lemma CleanStep(buf: seq<Option<Entry>>, clean: nat, use: nat, pending: seq<Entry>)
    requires Occupancy(buf, clean, use, pending)
    ensures var n := |buf|;
            var oldest := OldestIsNext(clean, use, n, |pending|);
            && Dist(Inc(clean, n), use, n) == (if clean == use then n - 1 else Dist(clean, use, n) - 1)
            && buf[clean] == (if oldest then Some(pending[0]) else None)
            && Occupancy(buf[clean := None], Inc(clean, n), use, if oldest then pending[1..] else pending)
  {
    var n := |buf|;
    var d, clean' := Dist(clean, use, n), Inc(clean, n);
    var oldest := OldestIsNext(clean, use, n, |pending|);
    var buf', pending' := buf[clean := None], if oldest then pending[1..] else pending;
    assert Slot(clean, 0, n) == clean;
    assert buf[Slot(clean, 0, n)] == Expected(0, d, pending);
    forall i | 0 <= i < n
      ensures buf'[Slot(clean', i, n)] == Expected(i, Dist(clean', use, n), pending')
    {
      if i + 1 < n {
        assert Slot(clean', i, n) == Slot(clean, i + 1, n) != clean;
      } else {
        assert Slot(clean', i, n) == clean;
      }
    }
  }

  lemma PutStep(buf: seq<Option<Entry>>, clean: nat, use: nat, pending: seq<Entry>, e: Entry)
    requires Occupancy(buf, clean, use, pending) && !RingFull(use, clean, |buf|)
    ensures buf[use] == None
    ensures Occupancy(buf[use := Some(e)], clean, Inc(use, |buf|), pending + [e])
  {
    var n := |buf|;
    var d, use' := Dist(clean, use, n), Inc(use, n);
    assert Slot(clean, d, n) == use;
    assert Dist(clean, use', n) == d + 1;
    var buf', pending' := buf[use := Some(e)], pending + [e];
    forall i | 0 <= i < n
      ensures buf'[Slot(clean, i, n)] == Expected(i, d + 1, pending')
    {
      if i == d {
      } else {
        assert Slot(clean, i, n) != use;
      }
    }
  }

  /** The occupied buffers in index order, the order teardown meets them in. */
  function Collect(buf: seq<Option<Entry>>): seq<Entry> {
    if buf == [] then []
    else
      var last := |buf| - 1;
      Collect(buf[..last]) + if buf[last].Some? then [buf[last].value] else []
  }

  lemma {:induction false} CollectEmpty(buf: seq<Option<Entry>>)
    requires forall i :: 0 <= i < |buf| ==> buf[i] == None
    ensures Collect(buf) == []
  {
    if buf != [] {
      CollectEmpty(buf[..|buf| - 1]);
    }
  }

  /** How many buffers hold this entry. */
  function Count(buf: seq<Option<Entry>>, e: Entry): nat {
    if buf == [] then 0 else Count(buf[..|buf| - 1], e) + if buf[|buf| - 1] == Some(e) then 1 else 0
  }

  lemma {:induction false} CollectCount(buf: seq<Option<Entry>>, e: Entry)
    ensures multiset(Collect(buf))[e] == Count(buf, e)
  {
    if buf != [] {
      CollectCount(buf[..|buf| - 1], e);
    }
  }

  lemma {:induction false} CountWithout(buf: seq<Option<Entry>>, k: nat, e: Entry)
    requires k < |buf|
    ensures Count(buf, e) == Count(buf[k := None], e) + if buf[k] == Some(e) then 1 else 0
  {
    var rest := buf[..|buf| - 1];
    if k == |rest| {
      assert buf[k := None][..|rest|] == rest;
    } else {
      CountWithout(rest, k, e);
      assert buf[k := None][..|rest|] == rest[k := None];
    }
  }

  lemma CollectWithout(buf: seq<Option<Entry>>, k: nat)
    requires k < |buf|
    ensures multiset(Collect(buf)) ==
            multiset(Collect(buf[k := None])) + if buf[k].Some? then multiset{buf[k].value} else multiset{}
  {
    forall e: Entry
      ensures multiset(Collect(buf))[e] == multiset(Collect(buf[k := None]))[e] + if buf[k] == Some(e) then 1 else 0
    {
      CollectCount(buf, e);
      CollectCount(buf[k := None], e);
      CountWithout(buf, k, e);
    }
  }

  /** Whatever order they are met in, the occupied buffers are exactly the pending entries. */
  lemma {:induction false} CollectIsPending(buf: seq<Option<Entry>>, clean: nat, use: nat, pending: seq<Entry>)
    requires Occupancy(buf, clean, use, pending)
    ensures multiset(Collect(buf)) == multiset(pending)
    decreases Dist(clean, use, |buf|)
  {
    if clean == use {
      forall k | 0 <= k < |buf|
        ensures buf[k] == None
      {
        assert Slot(clean, Dist(clean, k, |buf|), |buf|) == k;
      }
      CollectEmpty(buf);
    } else {
      CleanStep(buf, clean, use, pending);
      CollectWithout(buf, clean);
      if OldestIsNext(clean, use, |buf|, |pending|) {
        CollectIsPending(buf[clean := None], Inc(clean, |buf|), use, pending[1..]);
        assert pending == [pending[0]] + pending[1..];
      } else {
        CollectIsPending(buf[clean := None], Inc(clean, |buf|), use, pending);
      }
    }
  }

  // ---------------------------------------------------------------------------------------------
  // The queue
  // ---------------------------------------------------------------------------------------------

  /** Where a clean that reads `cidx` leaves next_to_clean. */
  function CleanTo(clean: nat, cidx: nat, n: nat): nat {
    if cidx < n then cidx else clean
  }

  /** How many of `pending` entries a clean that reads `cidx` frees; an impossible index frees all. */
  function FreedBy(clean: nat, use: nat, n: nat, pending: nat, cidx: nat): nat
    requires clean < n && use < n && pending <= Dist(clean, use, n)
  {
    if cidx >= n then pending
    else
      var blank := Dist(clean, use, n) - pending;
      var steps := Dist(clean, cidx, n);
      if steps <= blank then 0 else if steps - blank <= pending then steps - blank else pending
  }

  /**
    So what a clean leaves pending are the packets at or after the index it read, if that lies in the
    window, and none otherwise.
  */
  lemma CleanLeavesTheRest(clean: nat, use: nat, n: nat, pending: nat, cidx: nat)
    requires clean < n && use < n && pending <= Dist(clean, use, n)
    ensures cidx >= n ==> FreedBy(clean, use, n, pending, cidx) == pending
    ensures cidx < n ==>
              var left := pending - FreedBy(clean, use, n, pending, cidx);
              left == if Dist(clean, cidx, n) > Dist(clean, use, n) then 0
                      else if pending < Dist(cidx, use, n) then pending else Dist(cidx, use, n)
  {
  }

  /** The same count while cleaning is under way: after `work` steps. */
  function LeftAfter(used: nat, pending: nat, work: nat): nat
    requires pending <= used
  {
    if work <= used - pending then pending else if work <= used then used - work else 0
  }

  /** Cleaning that began at `start` with `pending` entries and has made `work` steps is at `clean` with `left`. */
  ghost predicate Progress(start: nat, use: nat, n: nat, pending: nat, cidx: nat, work: nat, clean: nat, left: int) {
    && start < n && use < n && work <= n && pending <= Dist(start, use, n)
    && clean == Slot(start, work, n)
    && left == LeftAfter(Dist(start, use, n), pending, work)
    && (cidx < n ==> work <= Dist(start, cidx, n))
  }

  lemma ProgressStep(start: nat, use: nat, n: nat, pending: nat, cidx: nat, work: nat, clean: nat, left: int)
    requires Progress(start, use, n, pending, cidx, work, clean, left) && work < n && clean != cidx
    ensures 0 <= left <= Dist(clean, use, n)
    ensures Progress(start, use, n, pending, cidx, work + 1, Inc(clean, n),
                     left - (if OldestIsNext(clean, use, n, left) then 1 else 0))
  {
  }

  lemma ProgressDone(start: nat, use: nat, n: nat, pending: nat, cidx: nat, work: nat, clean: nat, left: int)
    requires Progress(start, use, n, pending, cidx, work, clean, left)
    requires clean == cidx || work == n
    ensures clean == CleanTo(start, cidx, n)
    ensures left == pending - FreedBy(start, use, n, pending, cidx)
  {
  }

  datatype XmitResult = Sent | Dropped | Busy

  /** `struct onic_tx_queue`, VF side. */
  class TxQueue {
    /** Descriptors in the ring: the allocated count less one for the writeback word. */
    const realCount: nat
    const buffer: array<Option<Entry>>
    const desc: array<Descriptor>
    var nextToUse: nat
    var nextToClean: nat
    /** Bit 0 of the queue state. */
    var cleaning: bool
    /** The last producer index written to the doorbell. */
    var doorbell: nat
    /** Every entry ever queued and every entry ever freed, in order. */
    ghost var queued: seq<Entry>
    ghost var freed: seq<Entry>

    ghost predicate Valid()
      reads this, buffer, desc
    {
      && realCount > 0 && buffer.Length == realCount && desc.Length == realCount
      && nextToUse < realCount && nextToClean < realCount
      && freed <= queued
      && Occupancy(buffer[..], nextToClean, nextToUse, queued[|freed|..])
      && forall k :: 0 <= k < realCount && buffer[k].Some? ==> desc[k] == DescriptorOf(buffer[k].value)
    }

    /** onic_vf_alloc_tx_ring once its allocations have succeeded. */
    constructor (count: nat)
      requires count >= 2
      ensures Valid() && realCount == count - 1 && queued == [] && freed == []
      ensures nextToUse == nextToClean == 0 && !cleaning && fresh(buffer) && fresh(desc)
    {
      realCount := count - 1;
      buffer := new Option<Entry>[count - 1](_ => None);
      desc := new Descriptor[count - 1](_ => Descriptor(0, 0, 0));
      nextToUse, nextToClean, cleaning, doorbell := 0, 0, false, 0;
      queued, freed := [], [];
    }

    /** One round of the cleaning loop. */
    method FreeNext()
      requires Valid()
      modifies this`nextToClean, this`freed, buffer
      ensures Valid() && nextToClean == Inc(old(nextToClean), realCount)
      ensures old(freed) <= freed
      ensures |freed| == |old(freed)| +
                if OldestIsNext(old(nextToClean), nextToUse, realCount, |queued| - |old(freed)|) then 1 else 0
    {
      CleanStep(buffer[..], nextToClean, nextToUse, queued[|freed|..]);
      ghost var was, pending := buffer[..], queued[|freed|..];
      if buffer[nextToClean].Some? {
        freed := freed + [buffer[nextToClean].value];
        assert queued[|freed|..] == pending[1..];
      }
      buffer[nextToClean] := None;
      assert buffer[..] == was[nextToClean := None];
      nextToClean := nextToClean + 1;
      if nextToClean == realCount {
        nextToClean := 0;
      }
    }

    /**
      onic_vf_tx_clean, reading `cidx` from the writeback word. For every such value: a prefix of
      the entries still pending is freed, oldest first, and nothing else.
    */
    method Clean(cidx: nat)
      requires Valid()
      modifies this`nextToClean, this`cleaning, this`freed, buffer
      ensures Valid() && cleaning == old(cleaning)
      ensures old(cleaning) ==> nextToClean == old(nextToClean) && freed == old(freed) && buffer[..] == old(buffer[..])
      ensures !old(cleaning) ==>
                && nextToClean == (if cidx < realCount then cidx else old(nextToClean))
                && |freed| == |old(freed)| + FreedBy(old(nextToClean), nextToUse, realCount, |queued| - |old(freed)|, cidx)
      ensures old(freed) <= freed
    {
      if cleaning {
        return;
      }
      cleaning := true;
      CleanLoop(cidx);
      cleaning := false;
    }

    method CleanLoop(cidx: nat)
      requires Valid()
      modifies this`nextToClean, this`freed, buffer
      ensures Valid() && old(freed) <= freed
      ensures nextToClean == CleanTo(old(nextToClean), cidx, realCount)
      ensures |freed| == |old(freed)| + FreedBy(old(nextToClean), nextToUse, realCount, |queued| - |old(freed)|, cidx)
    {
      var work := 0;
      ghost var start, pend := nextToClean, |queued| - |freed|;
      while nextToClean != cidx && work < realCount
        invariant 0 <= work <= realCount
        invariant Valid() && old(freed) <= freed
        invariant Progress(start, nextToUse, realCount, pend, cidx, work, nextToClean, |queued| - |freed|)
        decreases realCount - work
      {
        ProgressStep(start, nextToUse, realCount, pend, cidx, work, nextToClean, |queued| - |freed|);
        FreeNext();
        work := work + 1;
      }
      ProgressDone(start, nextToUse, realCount, pend, cidx, work, nextToClean, |queued| - |freed|);
    }

    /**
      onic_vf_xmit_frame from the first cleaning pass on. `cidx1` and `cidx2` are what its two reads
      of the writeback word return; padding and DMA mapping may fail.
    */
    method Xmit(skb: nat, len: u32, dma: nat, padOk: bool, mapOk: bool, cidx1: nat, cidx2: nat)
      returns (res: XmitResult)
      requires Valid()
      modifies this`nextToClean, this`nextToUse, this`cleaning, this`doorbell, this`freed, this`queued, buffer, desc
      ensures Valid() && old(freed) <= freed && cleaning == old(cleaning)
      // the second pass is made only when the first left the ring full, and only then can it be refused
      ensures var first := if old(cleaning) || cidx1 >= realCount then old(nextToClean) else cidx1;
              var second := if old(cleaning) || cidx2 >= realCount then first else cidx2;
              nextToClean == if Inc(old(nextToUse), realCount) == first then second else first
      ensures res == if Inc(old(nextToUse), realCount) == nextToClean then Busy
                     else if padOk && mapOk then Sent else Dropped
      ensures res.Sent? ==>
                && queued == old(queued) + [Entry(skb, dma, len)]
                && nextToUse == Inc(old(nextToUse), realCount) && doorbell == nextToUse
                && buffer[old(nextToUse)] == Some(Entry(skb, dma, len))
      // and the descriptor the doorbell announces carries this packet
      ensures res.Sent? ==>
                && desc[old(nextToUse)].srcAddr == dma
                && desc[old(nextToUse)].metadata == len && desc[old(nextToUse)].len == len % 0x1_0000
      ensures forall k :: 0 <= k < realCount && !(res.Sent? && k == old(nextToUse)) ==> desc[k] == old(desc[k])
      ensures !res.Sent? ==> queued == old(queued) && nextToUse == old(nextToUse) && doorbell == old(doorbell)
    {
      Clean(cidx1);
      if RingFull(nextToUse, nextToClean, realCount) {
        Clean(cidx2);
        if RingFull(nextToUse, nextToClean, realCount) {
          return Busy;
        }
      }
      if !padOk {
        return Dropped;
      }
      if !mapOk {
        return Dropped;
      }
      Put(Entry(skb, dma, len));
      doorbell := nextToUse;
      res := Sent;
    }

    /** Filling the descriptor and the buffer at next_to_use and moving the head. */
    method Put(e: Entry)
      requires Valid() && !RingFull(nextToUse, nextToClean, realCount)
      modifies this`nextToUse, this`queued, buffer, desc
      ensures Valid() && queued == old(queued) + [e] && nextToUse == Inc(old(nextToUse), realCount)
      ensures old(buffer[nextToUse]) == None
      ensures buffer[..] == old(buffer[..])[old(nextToUse) := Some(e)]
      ensures desc[..] == old(desc[..])[old(nextToUse) := DescriptorOf(e)]
    {
      PutStep(buffer[..], nextToClean, nextToUse, queued[|freed|..], e);
      assert (queued + [e])[|freed|..] == queued[|freed|..] + [e];
      desc[nextToUse] := Descriptor(e.len, e.len % 0x1_0000, e.dma);
      buffer[nextToUse] := Some(e);
      queued := queued + [e];
      nextToUse := nextToUse + 1;
      if nextToUse == realCount {
        nextToUse := 0;
      }
      assert buffer[..] == old(buffer[..])[old(nextToUse) := Some(e)];
    }

    /**
      At every moment the hardware finds each pending packet described in its slot: the packets lie one
      behind the other up to next_to_use, and the descriptor has the packet's address and length.
    */
    lemma PendingIsDescribed(i: nat)
      requires Valid() && |freed| <= i < |queued|
      ensures |queued| - i <= Dist(nextToClean, nextToUse, realCount)
      ensures var slot := Slot(nextToClean, Dist(nextToClean, nextToUse, realCount) - (|queued| - i), realCount);
              && Dist(slot, nextToUse, realCount) == |queued| - i
              && buffer[slot] == Some(queued[i])
              && desc[slot].srcAddr == queued[i].dma
              && desc[slot].metadata == queued[i].len && desc[slot].len == queued[i].len % 0x1_0000
    {
      var slot := Slot(nextToClean, Dist(nextToClean, nextToUse, realCount) - (|queued| - i), realCount);
      assert buffer[..][slot] == Some(queued[|freed|..][i - |freed|]);
    }

    /** The teardown loop over the buffers in index order. */
    method FreeAll()
      requires buffer.Length == realCount
      modifies this`freed, buffer
      ensures freed == old(freed) + Collect(old(buffer[..]))
      ensures forall k :: 0 <= k < buffer.Length ==> buffer[k] == None
    {
      ghost var bufs := buffer[..];
      var i := 0;
      while i < realCount
        invariant 0 <= i <= realCount == |bufs|
        invariant forall k :: 0 <= k < i ==> buffer[k] == None
        invariant forall k :: i <= k < realCount ==> buffer[k] == bufs[k]
        invariant freed == old(freed) + Collect(bufs[..i])
      {
        assert bufs[..i + 1][..i] == bufs[..i];
        if buffer[i].Some? {
          freed := freed + [buffer[i].value];
          buffer[i] := None;
        }
        i := i + 1;
      }
      assert bufs[..realCount] == bufs;
    }

    /**
      onic_vf_release_pending_tx, run when the ring is torn down: for every writeback value, in the
      end each entry ever queued has been freed exactly as often as it was queued.
    */
    method ReleasePending(cidx: nat)
      requires Valid()
      modifies this`nextToClean, this`cleaning, this`freed, buffer
      ensures multiset(freed) == multiset(queued)
      ensures forall k :: 0 <= k < buffer.Length ==> buffer[k] == None
    {
      Clean(cidx);
      CollectIsPending(buffer[..], nextToClean, nextToUse, queued[|freed|..]);
      assert queued == freed + queued[|freed|..];
      FreeAll();
    }
  }
}
