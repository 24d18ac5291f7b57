/**
  One XGQ ring buffer (hwmon/xgq_impl.h): a producer and a consumer that share two 32-bit words.

  Three layers, each proved against the next:
    - `RingSide`, the C structure one peer keeps, updated in place;
    - `Step`, one operation of either peer on the whole ring, still on wrapping 32-bit counters,
      masked indices and cached copies of the other peer's counter;
    - `FifoStep`, a bounded FIFO with unbounded positions and no caches.
*/
module XgqRing {
  import opened Arith
  import opened Wrappers

  // ---------------------------------------------------------------------------------------------
  // One peer's view
  // ---------------------------------------------------------------------------------------------

  /** The pair of counters in one peer's `xgq_ring`, or the pair of words both peers can read. */
  datatype Counters = Counters(produced: u32, consumed: u32)

  predicate Full(n: u32, s: Counters) {
    Wrap32(s.produced - s.consumed) >= n
  }

  predicate Empty(s: Counters) {
    s.produced == s.consumed
  }

  function SlotIndex(n: u32, counter: u32): (i: nat)
    ensures n > 0 ==> i < n
  {
    And(counter, Wrap32(n - 1))
  }

  /** xgq_can_produce: trust the cached consumer counter, refresh it only when the ring looks full. */
  function CanProduce(n: u32, s: Counters, shared: Counters): (Counters, bool) {
    if !Full(n, s) then (s, true)
    else
      var s' := s.(consumed := shared.consumed);
      (s', !Full(n, s'))
  }

  function CanConsume(s: Counters, shared: Counters): (Counters, bool) {
    if !Empty(s) then (s, true)
    else
      var s' := s.(produced := shared.produced);
      (s', !Empty(s'))
  }

  function ProduceOp(n: u32, s: Counters, shared: Counters): (Counters, Option<nat>) {
    var (s', ok) := CanProduce(n, s, shared);
    if !ok then (s', None)
    else (s'.(produced := Wrap32(s'.produced + 1)), Some(SlotIndex(n, s'.produced)))
  }

  function ConsumeOp(n: u32, s: Counters, shared: Counters): (Counters, Option<nat>) {
    var (s', ok) := CanConsume(s, shared);
    if !ok then (s', None)
    else (s'.(consumed := Wrap32(s'.consumed + 1)), Some(SlotIndex(n, s'.consumed)))
  }

  /** The words in device memory (or a register) both peers see. */
  class SharedWords {
    var produced: u32
    var consumed: u32

    function View(): Counters
      reads this
    {
      Counters(produced, consumed)
    }
  }

  /** The fixed part of `struct xgq_ring`. */
  datatype Geometry = Geometry(producedAddr: nat, consumedAddr: nat, slotAddr: nat, slotNum: u32, slotSz: u32)
  {
    /** Where slot number `index` starts; the product is taken in 32 bits, as the source does. */
    function SlotAddress(index: nat): nat {
      slotAddr + Wrap32(slotSz * index)
    }
  }

  /** `struct xgq_ring`. */
  class RingSide {
    var geo: Geometry
    var produced: u32
    var consumed: u32

    function View(): Counters
      reads this
    {
      Counters(produced, consumed)
    }

    /** xgq_produce. */
    method Produce(shared: SharedWords) returns (slot: Option<nat>)
      modifies this`produced, this`consumed
      ensures var (side, index) := ProduceOp(geo.slotNum, old(View()), shared.View());
              View() == side && slot == (if index.None? then None else Some(geo.SlotAddress(index.value)))
    {
      if Wrap32(produced - consumed) >= geo.slotNum {
        consumed := shared.consumed;
        if Wrap32(produced - consumed) >= geo.slotNum {
          return None;
        }
      }
      slot := Some(geo.SlotAddress(SlotIndex(geo.slotNum, produced)));
      produced := Wrap32(produced + 1);
    }

    /** xgq_consume. */
    method Consume(shared: SharedWords) returns (slot: Option<nat>)
      modifies this`produced, this`consumed
      ensures var (side, index) := ConsumeOp(geo.slotNum, old(View()), shared.View());
              View() == side && slot == (if index.None? then None else Some(geo.SlotAddress(index.value)))
    {
      if produced == consumed {
        produced := shared.produced;
        if produced == consumed {
          return None;
        }
      }
      slot := Some(geo.SlotAddress(SlotIndex(geo.slotNum, consumed)));
      consumed := Wrap32(consumed + 1);
    }

    /** xgq_notify_peer_produced. */
    method NotifyProduced(shared: SharedWords)
      modifies shared`produced
      ensures shared.View() == old(shared.View()).(produced := produced)
    {
      shared.produced := produced;
    }

    /** xgq_notify_peer_consumed. */
    method NotifyConsumed(shared: SharedWords)
      modifies shared`consumed
      ensures shared.View() == old(shared.View()).(consumed := consumed)
    {
      shared.consumed := consumed;
    }

    /** xgq_fast_forward: a peer that (re)attaches resumes from the shared words. */
    method FastForward(shared: SharedWords)
      modifies this`produced, this`consumed
      ensures View() == shared.View()
    {
      produced := shared.produced;
      consumed := shared.consumed;
    }

    /** xgq_soft_reset: forget whatever is in the ring. */
    method SoftReset(shared: SharedWords)
      modifies this`produced, this`consumed, shared`consumed
      ensures View() == shared.View()
      ensures shared.View() == Counters(old(shared.produced), old(shared.produced))
    {
      produced := shared.produced;
      consumed := produced;
      shared.consumed := consumed;
    }
  }

  // ---------------------------------------------------------------------------------------------
  // The whole ring, on 32-bit words
  // ---------------------------------------------------------------------------------------------

  datatype Ring<T> = Ring(slots: seq<T>, prod: Counters, cons: Counters, shared: Counters)

  /**
    What the two peers can do. `Fill(d, v)` is the client writing `v` into the d-th of the slots it
    was granted and has not published; a reattachment may happen at any point.
  */
  datatype Op<T> =
    | Produce
    | Fill(d: nat, v: T)
    | NotifyProduced
    | Consume
    | NotifyConsumed
    | AttachProducer
    | AttachConsumer

  datatype Out<T> =
    | Silent
    | Granted(slot: nat)
    | NoSpace
    | Got(slot: nat, v: T)
    | Drained

  ghost predicate SlotCountOk(n: nat) {
    2 <= n <= 0x8000_0000 && IsPow2(n)
  }

  function Step<T>(r: Ring<T>, op: Op<T>): (res: (Ring<T>, Out<T>))
    requires 2 <= |r.slots| <= 0x8000_0000
    ensures |res.0.slots| == |r.slots|
  {
    var n := |r.slots|;
    match op
    case Produce =>
      var (side, slot) := ProduceOp(n, r.prod, r.shared);
      (r.(prod := side), if slot.None? then NoSpace else Granted(slot.value))
    case Fill(d, v) =>
      if d < Wrap32(r.prod.produced - r.shared.produced)
      then (r.(slots := r.slots[SlotIndex(n, Wrap32(r.shared.produced + d)) := v]), Silent)
      else (r, Silent)
    case NotifyProduced =>
      (r.(shared := r.shared.(produced := r.prod.produced)), Silent)
    case Consume =>
      var (side, slot) := ConsumeOp(n, r.cons, r.shared);
      (r.(cons := side), if slot.None? then Drained else Got(slot.value, r.slots[slot.value]))
    case NotifyConsumed =>
      (r.(shared := r.shared.(consumed := r.cons.consumed)), Silent)
    case AttachProducer =>
      (r.(prod := r.shared), Silent)
    case AttachConsumer =>
      (r.(cons := r.shared), Silent)
  }

  function Run<T>(r: Ring<T>, ops: seq<Op<T>>): (res: Ring<T>)
    requires 2 <= |r.slots| <= 0x8000_0000
    ensures |res.slots| == |r.slots|
    decreases |ops|
  {
    if ops == [] then r else Run(Step(r, ops[0]).0, ops[1..])
  }

  function Outputs<T>(r: Ring<T>, ops: seq<Op<T>>): (outs: seq<Out<T>>)
    requires 2 <= |r.slots| <= 0x8000_0000
    ensures |outs| == |ops|
    decreases |ops|
  {
    if ops == [] then []
    else
      var (r', out) := Step(r, ops[0]);
      [out] + Outputs(r', ops[1..])
  }

  // ---------------------------------------------------------------------------------------------
  // The bounded FIFO
  // ---------------------------------------------------------------------------------------------

  /** An entry a client published without writing it holds whatever the slot held before. */
  datatype Cell<T> = Blank | Written(v: T)

  /**
    `sent` are the published entries in order, `drafts` the granted ones not yet published;
    the consumer has taken the first `taken` and given back the first `released`.
  */
  datatype Fifo<T> = Fifo(cap: nat, sent: seq<Cell<T>>, drafts: seq<Cell<T>>, taken: nat, released: nat)

  datatype FifoOut<T> =
    | Quiet
    | Room(pos: nat)
    | Stuffed
    | Next(pos: nat, cell: Cell<T>)
    | Nothing

  ghost predicate FifoOk<T>(f: Fifo<T>) {
    && f.released <= f.taken <= |f.sent|
    && |f.sent| + |f.drafts| <= f.released + f.cap
  }

  function FifoStep<T>(f: Fifo<T>, op: Op<T>): (Fifo<T>, FifoOut<T>)
  {
    match op
    case Produce =>
      var granted := |f.sent| + |f.drafts|;
      if granted >= f.released + f.cap then (f, Stuffed)
      else (f.(drafts := f.drafts + [Blank]), Room(granted))
    case Fill(d, v) =>
      if d < |f.drafts| then (f.(drafts := f.drafts[d := Written(v)]), Quiet) else (f, Quiet)
    case NotifyProduced =>
      (f.(sent := f.sent + f.drafts, drafts := []), Quiet)
    case Consume =>
      if f.taken >= |f.sent| then (f, Nothing)
      else (f.(taken := f.taken + 1), Next(f.taken, f.sent[f.taken]))
    case NotifyConsumed =>
      (f.(released := f.taken), Quiet)
    case AttachProducer =>
      (f.(drafts := []), Quiet)
    case AttachConsumer =>
      (f.(taken := f.released), Quiet)
  }

  function FifoRun<T>(f: Fifo<T>, ops: seq<Op<T>>): Fifo<T>
    decreases |ops|
  {
    if ops == [] then f else FifoRun(FifoStep(f, ops[0]).0, ops[1..])
  }

  function FifoOutputs<T>(f: Fifo<T>, ops: seq<Op<T>>): (outs: seq<FifoOut<T>>)
    ensures |outs| == |ops|
    decreases |ops|
  {
    if ops == [] then []
    else
      var (f', out) := FifoStep(f, ops[0]);
      [out] + FifoOutputs(f', ops[1..])
  }

  // ---------------------------------------------------------------------------------------------
  // The 32-bit ring refines the FIFO
  // ---------------------------------------------------------------------------------------------

  /**
    Where the ring's words stand relative to FIFO positions: position 0 has counter `base`; the
    producer last saw `seenReleased`, the consumer last saw `seenSent`.
  */
  datatype Stand = Stand(base: nat, seenReleased: nat, seenSent: nat)

  ghost predicate CellAgrees<T>(c: Cell<T>, v: T) {
    c.Written? ==> c.v == v
  }

  function AllGranted<T>(f: Fifo<T>): seq<Cell<T>> {
    f.sent + f.drafts
  }

  /** The slot FIFO position `pos` lives in. */
  function Place(base: nat, pos: nat, n: nat): (i: nat)
    requires n > 0
    ensures i < n
  {
    (base + pos) % n
  }

  /** The counter value of FIFO position `pos`. */
  function Word(base: nat, pos: nat): u32 {
    Wrap32(base + pos)
  }

  ghost predicate CountersAgree<T(!new)>(r: Ring<T>, f: Fifo<T>, st: Stand) {
    && r.prod == Counters(Word(st.base, |AllGranted(f)|), Word(st.base, st.seenReleased))
    && r.cons == Counters(Word(st.base, st.seenSent), Word(st.base, f.taken))
    && r.shared == Counters(Word(st.base, |f.sent|), Word(st.base, f.released))
  }

  ghost predicate SlotsAgree<T(!new)>(slots: seq<T>, from: nat, cells: seq<Cell<T>>, base: nat)
    requires |slots| > 0
  {
    forall k :: from <= k < |cells| ==> CellAgrees(cells[k], slots[Place(base, k, |slots|)])
  }

  /** The ghost chain: released <= taken <= seenSent <= sent <= granted <= seenReleased + cap. */
  ghost predicate ChainOk<T(!new)>(f: Fifo<T>, st: Stand) {
    && SlotCountOk(f.cap)
    && st.seenReleased <= f.released <= f.taken <= st.seenSent <= |f.sent|
    && |AllGranted(f)| <= st.seenReleased + f.cap
  }

  ghost predicate Refines<T(!new)>(r: Ring<T>, f: Fifo<T>, st: Stand) {
    && ChainOk(f, st) && f.cap == |r.slots|
    && CountersAgree(r, f, st)
    && SlotsAgree(r.slots, f.released, AllGranted(f), st.base)
  }

  ghost predicate OutAgrees<T(!new)>(out: Out<T>, fout: FifoOut<T>, base: nat, n: nat)
    requires n > 0
  {
    match fout
    case Quiet => out == Silent
    case Room(pos) => out == Granted(Place(base, pos, n))
    case Stuffed => out == NoSpace
    case Next(pos, cell) => out.Got? && out.slot == Place(base, pos, n) && CellAgrees(cell, out.v)
    case Nothing => out == Drained
  }

  ghost function StandAfter<T>(f: Fifo<T>, st: Stand, op: Op<T>): Stand {
    match op
    case Produce =>
      if |AllGranted(f)| >= st.seenReleased + f.cap then st.(seenReleased := f.released) else st
    case Consume =>
      if f.taken == st.seenSent then st.(seenSent := |f.sent|) else st
    case AttachProducer => st.(seenReleased := f.released)
    case AttachConsumer => st.(seenSent := |f.sent|)
    case _ => st
  }

  /** Counters at most one ring apart compare as their positions do, wrapped or not. */
  lemma WordGap(base: nat, a: nat, b: nat)
    requires a <= b < a + WORD
    ensures Wrap32(Word(base, b) - Word(base, a)) == b - a
    ensures Word(base, a) == Word(base, b) <==> a == b
  {
  }

  lemma WordSlot(base: nat, pos: nat, n: nat, w: u32)
    requires SlotCountOk(n) && w == Word(base, pos)
    ensures SlotIndex(n, w) == Place(base, pos, n)
  {
    MaskIndex(n, w);
    MaskOfWrapped(base + pos, n);
  }

  lemma MaskIndex(n: nat, w: u32)
    requires 0 < n <= 0x8000_0000
    ensures SlotIndex(n, w) == And(w, n - 1)
  {
    WrapSmall(n - 1);
  }

  lemma WordPlus(base: nat, pos: nat, d: nat)
    ensures Wrap32(Word(base, pos) + d) == Word(base, pos + d)
  {
  }

  /** Positions less than one ring apart never share a slot. */
  lemma PlacesDiffer(base: nat, a: nat, b: nat, n: nat)
    requires n > 0 && a < b < a + n
    ensures Place(base, a, n) != Place(base, b, n)
  {
    ModDistinct(base + a, base + b, n);
  }

  /** What the producer's wrapped, cached test decides, in FIFO terms. */
  lemma ProduceOutcome<T(!new)>(r: Ring<T>, f: Fifo<T>, st: Stand)
    requires ChainOk(f, st) && CountersAgree(r, f, st)
    ensures var granted := |AllGranted(f)|;
            var seen := StandAfter(f, st, Op<T>.Produce).seenReleased;
            ProduceOp(f.cap, r.prod, r.shared) ==
            if granted < f.released + f.cap
            then (Counters(Word(st.base, granted + 1), Word(st.base, seen)), Some(Place(st.base, granted, f.cap)))
            else (Counters(Word(st.base, granted), Word(st.base, f.released)), None)
  {
    GrantedSlot(r, f, st);
    ProducerFullness(r, f, st);
  }

  lemma GrantedSlot<T(!new)>(r: Ring<T>, f: Fifo<T>, st: Stand)
    requires ChainOk(f, st) && CountersAgree(r, f, st)
    ensures SlotIndex(f.cap, r.prod.produced) == Place(st.base, |AllGranted(f)|, f.cap)
    ensures Wrap32(r.prod.produced + 1) == Word(st.base, |AllGranted(f)| + 1)
  {
    SlotAndNext(st.base, |AllGranted(f)|, f.cap, r.prod.produced);
  }

  /** Where a counter points and what it is after one more step. */
  lemma SlotAndNext(base: nat, pos: nat, n: nat, w: u32)
    requires SlotCountOk(n) && w == Word(base, pos)
    ensures SlotIndex(n, w) == Place(base, pos, n) && Wrap32(w + 1) == Word(base, pos + 1)
  {
    WordSlot(base, pos, n, w);
    WordPlus(base, pos, 1);
  }

  lemma ProducerFullness<T(!new)>(r: Ring<T>, f: Fifo<T>, st: Stand)
    requires ChainOk(f, st) && CountersAgree(r, f, st)
    ensures Full(f.cap, r.prod) <==> |AllGranted(f)| >= st.seenReleased + f.cap
    ensures Full(f.cap, r.prod.(consumed := r.shared.consumed)) <==> |AllGranted(f)| >= f.released + f.cap
  {
    WordGap(st.base, st.seenReleased, |AllGranted(f)|);
    WordGap(st.base, f.released, |AllGranted(f)|);
  }

  lemma ConsumeOutcome<T(!new)>(r: Ring<T>, f: Fifo<T>, st: Stand)
    requires ChainOk(f, st) && CountersAgree(r, f, st)
    ensures var seen := StandAfter(f, st, Op<T>.Consume).seenSent;
            ConsumeOp(f.cap, r.cons, r.shared) ==
            if f.taken < |f.sent|
            then (Counters(Word(st.base, seen), Word(st.base, f.taken + 1)), Some(Place(st.base, f.taken, f.cap)))
            else (Counters(Word(st.base, |f.sent|), Word(st.base, f.taken)), None)
  {
    ConsumedSlot(r, f, st);
    ConsumerEmptiness(r, f, st);
  }

  lemma ConsumerEmptiness<T(!new)>(r: Ring<T>, f: Fifo<T>, st: Stand)
    requires ChainOk(f, st) && CountersAgree(r, f, st)
    ensures Empty(r.cons) <==> f.taken == st.seenSent
    ensures Empty(r.cons.(produced := r.shared.produced)) <==> f.taken == |f.sent|
  {
    WordGap(st.base, f.taken, st.seenSent);
    WordGap(st.base, f.taken, |f.sent|);
  }

  lemma ConsumedSlot<T(!new)>(r: Ring<T>, f: Fifo<T>, st: Stand)
    requires ChainOk(f, st) && CountersAgree(r, f, st)
    ensures SlotIndex(f.cap, r.cons.consumed) == Place(st.base, f.taken, f.cap)
    ensures Wrap32(r.cons.consumed + 1) == Word(st.base, f.taken + 1)
  {
    SlotAndNext(st.base, f.taken, f.cap, r.cons.consumed);
  }

  lemma ProduceRefines<T(!new)>(r: Ring<T>, f: Fifo<T>, st: Stand)
    requires Refines(r, f, st)
    ensures var (r', out) := Step(r, Produce);
            var (f', fout) := FifoStep(f, Produce);
            Refines(r', f', StandAfter(f, st, Produce)) && OutAgrees(out, fout, st.base, f.cap)
  {
    ProduceOutcome(r, f, st);
    if |AllGranted(f)| < f.released + f.cap {
      assert AllGranted(FifoStep(f, Produce).0) == AllGranted(f) + [Blank];
    }
  }

  lemma ConsumeRefines<T(!new)>(r: Ring<T>, f: Fifo<T>, st: Stand)
    requires Refines(r, f, st)
    ensures var (r', out) := Step(r, Consume);
            var (f', fout) := FifoStep(f, Consume);
            Refines(r', f', StandAfter(f, st, Consume)) && OutAgrees(out, fout, st.base, f.cap)
  {
    ConsumeOutcome(r, f, st);
    if f.taken < |f.sent| {
      assert AllGranted(f)[f.taken] == f.sent[f.taken];
    }
  }

  lemma FillSlots<T(!new)>(slots: seq<T>, from: nat, cells: seq<Cell<T>>, base: nat, pos: nat, v: T)
    requires |slots| > 0 && SlotsAgree(slots, from, cells, base)
    requires from <= pos < |cells| <= from + |slots|
    ensures SlotsAgree(slots[Place(base, pos, |slots|) := v], from, cells[pos := Written(v)], base)
  {
    var n := |slots|;
    var slots', cells' := slots[Place(base, pos, n) := v], cells[pos := Written(v)];
    forall k | from <= k < |cells'|
      ensures CellAgrees(cells'[k], slots'[Place(base, k, n)])
    {
      if k < pos {
        PlacesDiffer(base, k, pos, n);
      } else if pos < k {
        PlacesDiffer(base, pos, k, n);
      }
    }
  }

  lemma FillOutcome<T(!new)>(r: Ring<T>, f: Fifo<T>, st: Stand, d: nat, v: T)
    requires ChainOk(f, st) && CountersAgree(r, f, st) && |r.slots| == f.cap
    ensures Step(r, Fill(d, v)) ==
            (if d < |f.drafts| then r.(slots := r.slots[Place(st.base, |f.sent| + d, f.cap) := v]) else r, Silent)
  {
    DraftSlot(r, f, st, d);
    FillStep(r, d, v, |f.drafts|, Place(st.base, |f.sent| + d, f.cap));
  }

  lemma FillStep<T>(r: Ring<T>, d: nat, v: T, gap: nat, place: nat)
    requires 2 <= |r.slots| <= 0x8000_0000
    requires Wrap32(r.prod.produced - r.shared.produced) == gap
    requires SlotIndex(|r.slots|, Wrap32(r.shared.produced + d)) == place < |r.slots|
    ensures Step(r, Fill(d, v)) == (if d < gap then r.(slots := r.slots[place := v]) else r, Silent)
  {
  }

  lemma DraftSlot<T(!new)>(r: Ring<T>, f: Fifo<T>, st: Stand, d: nat)
    requires ChainOk(f, st) && CountersAgree(r, f, st)
    ensures Wrap32(r.prod.produced - r.shared.produced) == |f.drafts|
    ensures SlotIndex(f.cap, Wrap32(r.shared.produced + d)) == Place(st.base, |f.sent| + d, f.cap)
  {
    WordGap(st.base, |f.sent|, |AllGranted(f)|);
    WordPlusSlot(st.base, |f.sent|, d, f.cap, r.shared.produced);
  }

  lemma WordPlusSlot(base: nat, pos: nat, d: nat, n: nat, w: u32)
    requires SlotCountOk(n) && w == Word(base, pos)
    ensures SlotIndex(n, Wrap32(w + d)) == Place(base, pos + d, n)
  {
    WordPlus(base, pos, d);
    WordSlot(base, pos + d, n, Wrap32(w + d));
  }

  lemma FillRefines<T(!new)>(r: Ring<T>, f: Fifo<T>, st: Stand, d: nat, v: T)
    requires Refines(r, f, st)
    ensures var (r', out) := Step(r, Fill(d, v));
            var (f', fout) := FifoStep(f, Fill(d, v));
            Refines(r', f', st) && OutAgrees(out, fout, st.base, f.cap)
  {
    FillOutcome(r, f, st, d, v);
    if d < |f.drafts| {
      DraftWritten(r, f, st, d, v);
    }
  }

  lemma DraftWritten<T(!new)>(r: Ring<T>, f: Fifo<T>, st: Stand, d: nat, v: T)
    requires Refines(r, f, st) && d < |f.drafts|
    ensures Refines(r.(slots := r.slots[Place(st.base, |f.sent| + d, f.cap) := v]), f.(drafts := f.drafts[d := Written(v)]), st)
  {
    FillSlots(r.slots, f.released, AllGranted(f), st.base, |f.sent| + d, v);
    assert AllGranted(f.(drafts := f.drafts[d := Written(v)])) == AllGranted(f)[|f.sent| + d := Written(v)];
  }

  lemma QuietOpRefines<T(!new)>(r: Ring<T>, f: Fifo<T>, st: Stand, op: Op<T>)
    requires Refines(r, f, st)
    requires op.NotifyProduced? || op.NotifyConsumed? || op.AttachProducer? || op.AttachConsumer?
    ensures var (r', out) := Step(r, op);
            var (f', fout) := FifoStep(f, op);
            Refines(r', f', StandAfter(f, st, op)) && OutAgrees(out, fout, st.base, f.cap)
  {
    var f' := FifoStep(f, op).0;
    if op.AttachProducer? {
      assert AllGranted(f') == f.sent == AllGranted(f)[..|f.sent|];
    } else {
      assert AllGranted(f') == AllGranted(f);
    }
  }

  lemma StepRefines<T(!new)>(r: Ring<T>, f: Fifo<T>, st: Stand, op: Op<T>)
    requires Refines(r, f, st)
    ensures var (r', out) := Step(r, op);
            var (f', fout) := FifoStep(f, op);
            Refines(r', f', StandAfter(f, st, op)) && OutAgrees(out, fout, st.base, f.cap)
  {
    match op
    case Produce => ProduceRefines(r, f, st);
    case Consume => ConsumeRefines(r, f, st);
    case Fill(d, v) => FillRefines(r, f, st, d, v);
    case _ => QuietOpRefines(r, f, st, op);
  }

  ghost predicate OutputsAgree<T(!new)>(outs: seq<Out<T>>, fouts: seq<FifoOut<T>>, base: nat, n: nat)
    requires n > 0
  {
    && |outs| == |fouts|
    && forall i :: 0 <= i < |outs| ==> OutAgrees(outs[i], fouts[i], base, n)
  }

  /**
    Main result: whatever the two peers do, in whatever order, for however many wraps of the 32-bit
    counters, a peer sees exactly what a bounded FIFO would have shown it.
  */
  lemma {:induction false} RunRefines<T(!new)>(r: Ring<T>, f: Fifo<T>, st: Stand, ops: seq<Op<T>>)
    requires Refines(r, f, st)
    ensures OutputsAgree(Outputs(r, ops), FifoOutputs(f, ops), st.base, f.cap)
    ensures exists st': Stand :: st'.base == st.base && Refines(Run(r, ops), FifoRun(f, ops), st')
    decreases |ops|
  {
    if ops == [] {
    } else {
      var op := ops[0];
      StepRefines(r, f, st, op);
      var (r', _) := Step(r, op);
      var (f', _) := FifoStep(f, op);
      RunRefines(r', f', StandAfter(f, st, op), ops[1..]);
    }
  }

  // ---------------------------------------------------------------------------------------------
  // What the refinement gives
  // ---------------------------------------------------------------------------------------------

  /** xgq_soft_reset or an attachment to an idle ring: every word carries the same counter. */
  ghost predicate Idle<T(!new)>(r: Ring<T>, w: u32) {
    r.prod == r.cons == r.shared == Counters(w, w)
  }

  function NewFifo<T>(cap: nat): Fifo<T> {
    Fifo(cap, [], [], 0, 0)
  }

  lemma IdleRefinesNewFifo<T(!new)>(r: Ring<T>, w: u32, ops: seq<Op<T>>)
    requires SlotCountOk(|r.slots|) && Idle(r, w)
    ensures OutputsAgree(Outputs(r, ops), FifoOutputs(NewFifo<T>(|r.slots|), ops), w, |r.slots|)
  {
    RunRefines(r, NewFifo(|r.slots|), Stand(w, 0, 0), ops);
  }

  /** A slot the producer is handed holds no entry the consumer still owns and no other draft. */
  lemma GrantedSlotIsFree<T(!new)>(r: Ring<T>, f: Fifo<T>, st: Stand, slot: nat)
    requires Refines(r, f, st) && Step(r, Produce).1 == Granted(slot)
    ensures forall k :: f.released <= k < |AllGranted(f)| ==> Place(st.base, k, f.cap) != slot
    ensures |AllGranted(f)| < f.released + f.cap
  {
    ProduceOutcome(r, f, st);
    forall k | f.released <= k < |AllGranted(f)|
      ensures Place(st.base, k, f.cap) != slot
    {
      PlacesDiffer(st.base, k, |AllGranted(f)|, f.cap);
    }
  }

  /** The cached counters never make a peer give up early: it fails exactly when the shared words say so. */
  lemma StaleCachesAreInvisible<T(!new)>(r: Ring<T>, f: Fifo<T>, st: Stand)
    requires Refines(r, f, st)
    ensures Step(r, Produce).1.NoSpace? <==> |AllGranted(f)| - f.released == f.cap
    ensures Step(r, Consume).1.Drained? <==> f.taken == |f.sent|
  {
    ProduceOutcome(r, f, st);
    ConsumeOutcome(r, f, st);
  }

  function Deliveries<T>(outs: seq<FifoOut<T>>): seq<Cell<T>> {
    if outs == [] then []
    else (if outs[0].Next? then [outs[0].cell] else []) + Deliveries(outs[1..])
  }

  /** While the consumer stays attached, it takes every published entry once, in publication order. */
  lemma {:induction false} DeliveredOnceInOrder<T(!new)>(f: Fifo<T>, ops: seq<Op<T>>)
    requires FifoOk(f)
    requires forall i :: 0 <= i < |ops| ==> !ops[i].AttachConsumer?
    ensures var f' := FifoRun(f, ops);
            && FifoOk(f') && f.sent <= f'.sent && f.taken <= f'.taken
            && Deliveries(FifoOutputs(f, ops)) == f'.sent[f.taken..f'.taken]
    decreases |ops|
  {
    if ops != [] {
      var (f1, out) := FifoStep(f, ops[0]);
      DeliveredOnceInOrder(f1, ops[1..]);
      var f' := FifoRun(f1, ops[1..]);
      var outs := FifoOutputs(f, ops);
      assert outs[1..] == FifoOutputs(f1, ops[1..]);
      if out.Next? {
        assert f'.sent[f.taken] == f1.sent[f.taken] == out.cell;
        assert f'.sent[f.taken..f'.taken] == [out.cell] + f'.sent[f1.taken..f'.taken];
      }
    }
  }

  lemma {:induction false} SentOnlyGrows<T(!new)>(f: Fifo<T>, ops: seq<Op<T>>)
    requires FifoOk(f)
    ensures FifoOk(FifoRun(f, ops)) && f.sent <= FifoRun(f, ops).sent
    decreases |ops|
  {
    if ops != [] {
      SentOnlyGrows(FifoStep(f, ops[0]).0, ops[1..]);
    }
  }

  /** Even when either side reattaches at arbitrary points, only what was published there is delivered. */
  lemma {:induction false} OnlyPublishedIsDelivered<T(!new)>(f: Fifo<T>, ops: seq<Op<T>>, i: nat)
    requires FifoOk(f) && i < |ops| && FifoOutputs(f, ops)[i].Next?
    ensures var sent, out := FifoRun(f, ops).sent, FifoOutputs(f, ops)[i];
            out.pos < |sent| && out.cell == sent[out.pos]
    decreases |ops|
  {
    var (f1, out) := FifoStep(f, ops[0]);
    SentOnlyGrows(f1, ops[1..]);
    if i == 0 {
      assert FifoOutputs(f, ops)[0] == out && f1.sent == f.sent;
    } else {
      assert FifoOutputs(f, ops)[i] == FifoOutputs(f1, ops[1..])[i - 1];
      OnlyPublishedIsDelivered(f1, ops[1..], i - 1);
    }
  }

  /** ... and no position below the final one is skipped. */
  lemma {:induction false} NothingIsSkipped<T(!new)>(f: Fifo<T>, ops: seq<Op<T>>, k: nat)
    requires FifoOk(f) && f.taken <= k < FifoRun(f, ops).taken
    ensures exists i :: 0 <= i < |ops| && FifoOutputs(f, ops)[i].Next? && FifoOutputs(f, ops)[i].pos == k
    decreases |ops|
  {
    var (f1, out) := FifoStep(f, ops[0]);
    var outs := FifoOutputs(f, ops);
    if k < f1.taken {
      assert outs[0].Next? && outs[0].pos == k;
    } else {
      NothingIsSkipped(f1, ops[1..], k);
      var rest := FifoOutputs(f1, ops[1..]);
      var i :| 0 <= i < |rest| && rest[i].Next? && rest[i].pos == k;
      assert outs[i + 1] == rest[i];
    }
  }

  // ---------------------------------------------------------------------------------------------
  // The same of what the ring itself hands out
  // ---------------------------------------------------------------------------------------------

  /** The values the consumer got, in order. */
  function Taken<T>(outs: seq<Out<T>>): seq<T> {
    if outs == [] then []
    else (if outs[0].Got? then [outs[0].v] else []) + Taken(outs[1..])
  }

  /** The values taken from slots are those published, wherever a published slot had been written. */
  ghost predicate ValuesAgree<T(!new)>(cells: seq<Cell<T>>, values: seq<T>) {
    |cells| == |values| && forall i :: 0 <= i < |cells| ==> CellAgrees(cells[i], values[i])
  }

  lemma {:induction false} TakenAgrees<T(!new)>(outs: seq<Out<T>>, fouts: seq<FifoOut<T>>, base: nat, n: nat)
    requires n > 0 && OutputsAgree(outs, fouts, base, n)
    ensures ValuesAgree(Deliveries(fouts), Taken(outs))
    decreases |outs|
  {
    if outs != [] {
      assert OutAgrees(outs[0], fouts[0], base, n);
      forall i | 0 <= i < |outs[1..]| ensures OutAgrees(outs[1..][i], fouts[1..][i], base, n) {
        assert OutAgrees(outs[i + 1], fouts[i + 1], base, n);
      }
      TakenAgrees(outs[1..], fouts[1..], base, n);
    }
  }

  /**
    On the 32-bit ring, in every run without the consumer reattaching, the consumer gets from the slots
    the published values, once each and in publication order.
  */
  lemma TakenInPublicationOrder<T(!new)>(r: Ring<T>, f: Fifo<T>, st: Stand, ops: seq<Op<T>>)
    requires Refines(r, f, st) && forall i :: 0 <= i < |ops| ==> !ops[i].AttachConsumer?
    ensures var f' := FifoRun(f, ops);
            && f.taken <= f'.taken <= |f'.sent| && f.sent <= f'.sent
            && ValuesAgree(f'.sent[f.taken..f'.taken], Taken(Outputs(r, ops)))
  {
    RunRefines(r, f, st, ops);
    DeliveredOnceInOrder(f, ops);
    TakenAgrees(Outputs(r, ops), FifoOutputs(f, ops), st.base, f.cap);
  }

  /** With reattachments: what is got from a slot is what was published at the position the slot then stands for. */
  lemma GotWasPublished<T(!new)>(r: Ring<T>, f: Fifo<T>, st: Stand, ops: seq<Op<T>>, i: nat)
    requires Refines(r, f, st) && i < |ops| && Outputs(r, ops)[i].Got?
    ensures var sent, out := FifoRun(f, ops).sent, Outputs(r, ops)[i];
            exists pos: nat :: pos < |sent| && out.slot == Place(st.base, pos, f.cap) && CellAgrees(sent[pos], out.v)
  {
    RunRefines(r, f, st, ops);
    var out := FifoOutputs(f, ops)[i];
    assert OutAgrees(Outputs(r, ops)[i], out, st.base, f.cap);
    OnlyPublishedIsDelivered(f, ops, i);
    assert out.pos < |FifoRun(f, ops).sent|;
  }

  /** ... and every position below the consumer's final one was got from its slot. */
  lemma EveryPositionWasGot<T(!new)>(r: Ring<T>, f: Fifo<T>, st: Stand, ops: seq<Op<T>>, k: nat)
    requires Refines(r, f, st) && f.taken <= k < FifoRun(f, ops).taken
    ensures exists i :: 0 <= i < |ops| && Outputs(r, ops)[i].Got? && Outputs(r, ops)[i].slot == Place(st.base, k, f.cap)
  {
    RunRefines(r, f, st, ops);
    NothingIsSkipped(f, ops, k);
    var i :| 0 <= i < |ops| && FifoOutputs(f, ops)[i].Next? && FifoOutputs(f, ops)[i].pos == k;
    assert OutAgrees(Outputs(r, ops)[i], FifoOutputs(f, ops)[i], st.base, f.cap);
    assert Outputs(r, ops)[i].Got?;
  }
}
