/**
  The PF transmit ring fed by onic_xmit_frame (onic_netdev.c), whose doorbell writes are batched while
  the stack promises more packets. The hardware consumes what was announced and writes back a
  position it has reached.
*/
module PfTxRing {
  import opened Arith
  import opened Wrappers
  import opened VfTxRing

  /** Unbounded positions: packets stored, announced, consumed by the hardware, written back, cleaned. */
  datatype Reach = Reach(stored: nat, rung: nat, consumed: nat, written: nat, cleaned: nat)

  ghost predicate Ordered(p: Reach, n: nat) {
    p.cleaned <= p.written <= p.consumed <= p.rung <= p.stored < p.cleaned + n
  }

  /** No batch is ever left behind a full ring. */
  ghost predicate FullIsAnnounced(p: Reach, n: nat) {
    p.stored + 1 == p.cleaned + n ==> p.rung == p.stored
  }

  /** onic_ring_full on indices. */
  predicate Full(use: nat, clean: nat, n: nat)
    requires n > 0
  {
    (use + 1) % n == clean
  }

  lemma NextIndex(k: nat, n: nat)
    requires n > 0
    ensures (k % n + 1) % n == (k + 1) % n
  {
    ModSucc(k, n);
    if k % n + 1 == n {
      DivModUnique(n, 1, 0, n);
    } else {
      DivModUnique(k % n + 1, 0, k % n + 1, n);
    }
  }

  lemma FullInPositions(p: Reach, n: nat)
    requires n > 0 && Ordered(p, n)
    ensures Full(p.stored % n, p.cleaned % n, n) <==> p.stored + 1 == p.cleaned + n
  {
    NextIndex(p.stored, n);
    if p.stored + 1 < p.cleaned + n {
      ModDistinct(p.cleaned, p.stored + 1, n);
    } else {
      ModAddMultiple(p.cleaned, 1, n);
    }
  }

  /** The loop count onic_tx_clean computes from two ring indices. */
  function CleanWork(cidx: int, clean: int, n: int): int {
    if cidx - clean < 0 then cidx - clean + n else cidx - clean
  }

  lemma CleanWorkIsDistance(cleaned: nat, written: nat, n: nat)
    requires n > 0 && cleaned <= written < cleaned + n
    ensures CleanWork(written % n, cleaned % n, n) == written - cleaned
  {
    ModDistance(cleaned, written, n);
    var w, c := written % n, cleaned % n;
    if w >= c {
      assert w + n - c == 1 * n + (w - c);
      DivModUnique(w + n - c, 1, w - c, n);
    } else {
      DivModUnique(w + n - c, 0, w + n - c, n);
    }
  }

  /** The buffers hold the packets stored and not yet cleaned, each in its own slot, and nothing else. */
  ghost predicate Holds(buf: seq<Option<Entry>>, queued: seq<Entry>, cleaned: nat) {
    && |buf| > 0 && cleaned <= |queued| < cleaned + |buf|
    && (forall k :: cleaned <= k < |queued| ==> buf[k % |buf|] == Some(queued[k]))
    && (forall k :: |queued| <= k < cleaned + |buf| ==> buf[k % |buf|] == None)
  }

  /** What the hardware reads in a slot is the packet's address and length. */
  predicate Describes(d: Descriptor, e: Entry) {
    d.srcAddr == e.dma && d.metadata == e.len && d.len == e.len % 0x1_0000
  }

  /** Every packet not yet cleaned is described in its slot. */
  ghost predicate Described(desc: seq<Descriptor>, queued: seq<Entry>, cleaned: nat) {
    && |desc| > 0 && cleaned <= |queued| < cleaned + |desc|
    && forall k :: cleaned <= k < |queued| ==> Describes(desc[k % |desc|], queued[k])
  }

  lemma DescribedAfterStore(desc: seq<Descriptor>, queued: seq<Entry>, cleaned: nat, e: Entry, d: Descriptor)
    requires Described(desc, queued, cleaned) && |queued| + 1 < cleaned + |desc| && Describes(d, e)
    ensures Described(desc[|queued| % |desc| := d], queued + [e], cleaned)
  {
    var desc', queued' := desc[|queued| % |desc| := d], queued + [e];
    forall k | cleaned <= k < |queued'|
      ensures Describes(desc'[k % |desc|], queued'[k])
    {
      if k < |queued| {
        ModDistinct(k, |queued|, |desc|);
      }
    }
  }

  lemma HoldsAfterClean(buf: seq<Option<Entry>>, queued: seq<Entry>, cleaned: nat)
    requires Holds(buf, queued, cleaned) && cleaned < |queued|
    ensures buf[cleaned % |buf|] == Some(queued[cleaned])
    ensures Holds(buf[cleaned % |buf| := None], queued, cleaned + 1)
  {
    forall k | cleaned + 1 <= k < |queued|
      ensures buf[cleaned % |buf| := None][k % |buf|] == Some(queued[k])
    {
      ModDistinct(cleaned, k, |buf|);
    }
    forall k | |queued| <= k < cleaned + 1 + |buf|
      ensures buf[cleaned % |buf| := None][k % |buf|] == None
    {
      if k == cleaned + |buf| {
        ModAddMultiple(cleaned, 1, |buf|);
      }
    }
  }

  lemma HoldsAfterStore(buf: seq<Option<Entry>>, queued: seq<Entry>, cleaned: nat, e: Entry)
    requires Holds(buf, queued, cleaned) && |queued| + 1 < cleaned + |buf|
    ensures Holds(buf[|queued| % |buf| := Some(e)], queued + [e], cleaned)
  {
    var buf', queued' := buf[|queued| % |buf| := Some(e)], queued + [e];
    forall k | cleaned <= k < |queued'|
      ensures buf'[k % |buf|] == Some(queued'[k])
    {
      if k < |queued| {
        ModDistinct(k, |queued|, |buf|);
      }
    }
    forall k | |queued'| <= k < cleaned + |buf|
      ensures buf'[k % |buf|] == None
    {
      ModDistinct(|queued|, k, |buf|);
    }
  }

  /** `struct onic_tx_queue`, PF side, together with the two words the hardware sees and writes. */
  class PfTxQueue {
    const realCount: nat
    const buffer: array<Option<Entry>>
    const desc: array<Descriptor>
    /** Bit 0 of the queue state: some other thread is cleaning. */
    var cleaning: bool
    var nextToUse: nat
    var nextToClean: nat
    var doorbell: nat
    var writeback: nat
    ghost var queued: seq<Entry>
    ghost var freed: seq<Entry>
    ghost var pos: Reach

    ghost predicate Valid()
      reads this, buffer, desc
    {
      && realCount > 0 && buffer.Length == realCount && desc.Length == realCount
      && Ordered(pos, realCount) && FullIsAnnounced(pos, realCount)
      && nextToUse == pos.stored % realCount && nextToClean == pos.cleaned % realCount
      && doorbell == pos.rung % realCount && writeback == pos.written % realCount
      && pos.stored == |queued| && freed == queued[..pos.cleaned]
      && Holds(buffer[..], queued, pos.cleaned) && Described(desc[..], queued, pos.cleaned)
    }

    constructor (count: nat)
      requires count >= 2
      ensures Valid() && realCount == count - 1 && queued == [] && pos == Reach(0, 0, 0, 0, 0)
      ensures !cleaning && fresh(buffer) && fresh(desc)
    {
      realCount := count - 1;
      buffer := new Option<Entry>[count - 1](_ => None);
      desc := new Descriptor[count - 1](_ => Descriptor(0, 0, 0));
      cleaning, nextToUse, nextToClean, doorbell, writeback := false, 0, 0, 0, 0;
      queued, freed, pos := [], [], Reach(0, 0, 0, 0, 0);
    }

    /** The hardware reaches position `upTo`. */
    method HwConsume(ghost upTo: nat)
      requires Valid() && pos.consumed <= upTo <= pos.rung
      modifies this`pos
      ensures Valid() && pos == old(pos).(consumed := upTo)
    {
      ghost var p := pos;
      pos := p.(consumed := upTo);
    }

    method HwWriteBack(upTo: nat)
      requires Valid() && pos.written <= upTo <= pos.consumed
      modifies this`pos, this`writeback
      ensures Valid() && pos == old(pos).(written := upTo)
    {
      writeback := upTo % realCount;
      pos := pos.(written := upTo);
    }

    method FreeNext()
      requires Valid() && pos.cleaned < pos.written
      modifies this`nextToClean, this`freed, this`pos, buffer
      ensures Valid() && pos == old(pos).(cleaned := old(pos).cleaned + 1)
    {
      HoldsAfterClean(buffer[..], queued, pos.cleaned);
      NextIndex(pos.cleaned, realCount);
      ghost var was := buffer[..];
      if buffer[nextToClean].Some? {
        freed := freed + [buffer[nextToClean].value];
      }
      buffer[nextToClean] := None;
      assert buffer[..] == was[nextToClean := None];
      nextToClean := (nextToClean + 1) % realCount;
      pos := pos.(cleaned := pos.cleaned + 1);
    }

    /** onic_tx_clean: unless another thread is at it, frees exactly what the hardware has written back, oldest first. */
    method Clean()
      requires Valid()
      modifies this`cleaning, this`nextToClean, this`freed, this`pos, buffer
      ensures Valid() && cleaning == old(cleaning)
      ensures pos == if cleaning then old(pos) else old(pos).(cleaned := old(pos).written)
    {
      if cleaning {
        return;
      }
      cleaning := true;
      CleanWorkIsDistance(pos.cleaned, pos.written, realCount);
      if writeback == nextToClean {
        cleaning := false;
        return;
      }
      var work := writeback - nextToClean;
      if work < 0 {
        work := work + realCount;
      }
      for i := 0 to work
        invariant Valid() && pos == old(pos).(cleaned := old(pos).cleaned + i)
      {
        FreeNext();
      }
      cleaning := false;
    }

    /** onic_xmit_frame; `more` is netdev_xmit_more(). */
    method Xmit(skb: nat, len: u32, dma: nat, mapOk: bool, more: bool) returns (res: XmitResult)
      requires Valid()
      modifies this`cleaning, this`nextToUse, this`nextToClean, this`doorbell, this`freed, this`queued, this`pos, buffer, desc
      ensures Valid() && cleaning == old(cleaning)
      ensures pos.cleaned == if cleaning then old(pos).cleaned else old(pos).written
      ensures res == if old(pos).stored + 1 == pos.cleaned + realCount then Busy
                     else if mapOk then Sent else Dropped
      ensures pos.written == old(pos).written && pos.consumed == old(pos).consumed
      ensures !res.Sent? ==> queued == old(queued) && pos.rung == old(pos).rung
      ensures res.Sent? ==>
                && queued == old(queued) + [Entry(skb, dma, len)]
                && pos.rung == (if !more || pos.stored + 1 == pos.cleaned + realCount then pos.stored else old(pos).rung)
                // the hardware finds this packet in its slot
                && desc[old(nextToUse)].srcAddr == dma
                && desc[old(nextToUse)].metadata == len && desc[old(nextToUse)].len == len % 0x1_0000
      ensures forall k :: 0 <= k < realCount && !(res.Sent? && k == old(nextToUse)) ==> desc[k] == old(desc[k])
    {
      Clean();
      FullInPositions(pos, realCount);
      if (nextToUse + 1) % realCount == nextToClean {
        return Busy;
      }
      if !mapOk {
        return Dropped;
      }
      Store(Entry(skb, dma, len));
      FullInPositions(pos, realCount);
      if (nextToUse + 1) % realCount == nextToClean || !more {
        doorbell := nextToUse;
        pos := pos.(rung := pos.stored);
      }
      res := Sent;
    }

    /** Everything Valid says except that a full ring has been announced, which Xmit restores. */
    method Store(e: Entry)
      requires Valid() && pos.stored + 1 < pos.cleaned + realCount
      modifies this`nextToUse, this`queued, this`pos, buffer, desc
      ensures pos == old(pos).(stored := old(pos).stored + 1) && queued == old(queued) + [e]
      ensures desc.Length == realCount && Described(desc[..], queued, pos.cleaned)
      ensures desc[..] == old(desc[..])[old(nextToUse) := Descriptor(e.len, e.len % 0x1_0000, e.dma)]
      ensures buffer.Length == realCount && Ordered(pos, realCount) && Holds(buffer[..], queued, pos.cleaned)
      ensures nextToUse == pos.stored % realCount && freed == queued[..pos.cleaned]
    {
      HoldsAfterStore(buffer[..], queued, pos.cleaned, e);
      DescribedAfterStore(desc[..], queued, pos.cleaned, e, Descriptor(e.len, e.len % 0x1_0000, e.dma));
      NextIndex(pos.stored, realCount);
      ghost var was, had := buffer[..], desc[..];
      desc[nextToUse] := Descriptor(e.len, e.len % 0x1_0000, e.dma);
      assert desc[..] == had[nextToUse := Descriptor(e.len, e.len % 0x1_0000, e.dma)];
      buffer[nextToUse] := Some(e);
      assert buffer[..] == was[nextToUse := Some(e)];
      queued := queued + [e];
      nextToUse := (nextToUse + 1) % realCount;
      pos := pos.(stored := pos.stored + 1);
    }

    /** In every reachable state: a ring the transmit path would call full has been announced completely. */
    lemma FullRingIsAnnounced()
      requires Valid() && Full(nextToUse, nextToClean, realCount)
      ensures doorbell == nextToUse && pos.rung == |queued|
    {
      FullInPositions(pos, realCount);
    }
  }
}
