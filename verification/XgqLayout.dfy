/**
  Carving XGQs out of a shared buffer (hwmon/xgq_impl.h): choosing the number of slots, laying out
  headers and slots, initializing a header and attaching to it.
*/
module XgqLayout {
  import opened Arith
  import opened Wrappers
  import opened XgqRing

  const HEADER_LEN: nat := 44
  const CQ_ENTRY_LEN: nat := 16
  const MAGIC: u32 := 0x5847513F
  const VERSION: u32 := 0x1_0000
  const MIN_NUM_SLOTS: nat := 2
  const SLOTS_CAP: nat := 0x4000_0000

  // ---------------------------------------------------------------------------------------------
  // How many slots fit
  // ---------------------------------------------------------------------------------------------

  /** xgq_ring_len. */
  function RingLen(n: nat, slotSz: u32): (len: nat)
    ensures len >= HEADER_LEN
  {
    HEADER_LEN + n * (slotSz + CQ_ENTRY_LEN)
  }

  /** The true length of a group of rings of `n` slots each. */
  function Total(n: nat, sizes: seq<u32>): nat {
    if sizes == [] then 0
    else Total(n, sizes[..|sizes| - 1]) + RingLen(n, sizes[|sizes| - 1])
  }

  /** The test the source makes: the length as its 32-bit accumulator holds it. */
  predicate SeemsToFit(n: nat, rlen: nat, sizes: seq<u32>) {
    Wrap32(Total(n, sizes)) <= rlen
  }

  ghost predicate IsNumSlots(r: nat, rlen: nat, sizes: seq<u32>) {
    && IsPow2(r) && r <= SLOTS_CAP
    && (forall k: nat :: 2 <= Pow2(k) <= r ==> SeemsToFit(Pow2(k), rlen, sizes))
    && (r == SLOTS_CAP || !SeemsToFit(2 * r, rlen, sizes))
  }

  /** The inner loop of xgq_alloc_num_slots, accumulating in 32 bits. */
  method TotalLength32(n: u32, sizes: seq<u32>) returns (total: u32)
    ensures total == Wrap32(Total(n, sizes))
  {
    total := 0;
    var i := 0;
    while i < |sizes|
      invariant 0 <= i <= |sizes|
      invariant total == Wrap32(Total(n, sizes[..i]))
    {
      TotalPrefix(n, sizes, i);
      total := Wrap32(total + RingLen(n, sizes[i]));
      i := i + 1;
    }
    assert sizes[..|sizes|] == sizes;
  }

  /** xgq_alloc_num_slots; doubling stays below 2^32 because the loop stops at 2^31. */
  method AllocNumSlots(rlen: nat, sizes: seq<u32>) returns (r: u32)
    ensures IsNumSlots(r, rlen, sizes)
  {
    var total: u32 := 0;
    var numslots: u32 := 1;
    ghost var j: nat := 0;
    while total <= rlen && numslots < 0x8000_0000
      invariant numslots == Pow2(j) <= 0x8000_0000
      invariant j == 0 ==> total == 0
      invariant j > 0 ==> total == Wrap32(Total(numslots, sizes))
      invariant forall k: nat :: 1 <= k < j ==> SeemsToFit(Pow2(k), rlen, sizes)
      decreases 0x8000_0000 - numslots
    {
      j := j + 1;
      DoubledBelowCap(j);
      numslots := 2 * numslots;
      total := TotalLength32(numslots, sizes);
    }
    r := numslots / 2;
    NumSlotsFound(j, rlen, sizes);
  }

  lemma DoubledBelowCap(j: nat)
    requires j > 0 && Pow2(j - 1) < 0x8000_0000
    ensures Pow2(j) <= 0x8000_0000
  {
    Pow2Constants();
    if j - 1 >= 31 {
      Pow2AtLeast(31, j - 1);
    } else {
      Pow2AtLeast(j, 31);
    }
  }

  lemma TotalPrefix(n: nat, sizes: seq<u32>, i: nat)
    requires i < |sizes|
    ensures Wrap32(Total(n, sizes[..i + 1])) == Wrap32(Wrap32(Total(n, sizes[..i])) + RingLen(n, sizes[i]))
  {
    assert sizes[..i + 1][..i] == sizes[..i];
    WrapAdd(Total(n, sizes[..i]), RingLen(n, sizes[i]));
  }

  lemma NumSlotsFound(j: nat, rlen: nat, sizes: seq<u32>)
    requires j > 0 && Pow2(j) <= 0x8000_0000
    requires forall k: nat :: 1 <= k < j ==> SeemsToFit(Pow2(k), rlen, sizes)
    requires Pow2(j) == 0x8000_0000 || !SeemsToFit(Pow2(j), rlen, sizes)
    ensures IsNumSlots(Pow2(j) / 2, rlen, sizes)
  {
    assert Pow2(j) / 2 == Pow2(j - 1);
    forall k: nat | 2 <= Pow2(k) <= Pow2(j - 1)
      ensures SeemsToFit(Pow2(k), rlen, sizes)
    {
      if k >= j {
        Pow2AtLeast(j, k);
      }
    }
  }

  lemma Pow2AtLeast(a: nat, b: nat)
    requires a <= b
    ensures Pow2(a) <= Pow2(b)
  {
    if a < b {
      Pow2Monotone(a, b);
    }
  }

  lemma {:induction false} TotalMonotone(n: nat, m: nat, sizes: seq<u32>)
    requires n <= m
    ensures Total(n, sizes) <= Total(m, sizes)
  {
    if sizes != [] {
      TotalMonotone(n, m, sizes[..|sizes| - 1]);
      MulMono(n, m, sizes[|sizes| - 1] + CQ_ENTRY_LEN);
    }
  }

  lemma {:induction false} TotalDoubles(n: nat, sizes: seq<u32>)
    ensures Total(2 * n, sizes) <= 2 * Total(n, sizes)
  {
    if sizes != [] {
      TotalDoubles(n, sizes[..|sizes| - 1]);
      var s := sizes[|sizes| - 1] + CQ_ENTRY_LEN;
      assert 2 * n * s == 2 * (n * s);
    }
  }

  /** The answer the source is after: the largest power of two, up to the cap, whose layout fits. */
  ghost predicate IsLargestFit(n: nat, rlen: nat, sizes: seq<u32>) {
    && IsPow2(n) && n <= SLOTS_CAP
    && (n == 1 || Total(n, sizes) <= rlen)
    && (n == SLOTS_CAP || Total(2 * n, sizes) > rlen)
  }

  /** There always is one. */
  lemma LargestFitExists(rlen: nat, sizes: seq<u32>) returns (n: nat)
    ensures IsLargestFit(n, rlen, sizes)
  {
    Pow2Constants();
    assert Pow2(0) == 1;
    n := FitFrom(0, rlen, sizes);
  }

  /** Doubling on from a power of two that fits. */
  lemma {:induction false} FitFrom(k: nat, rlen: nat, sizes: seq<u32>) returns (n: nat)
    requires k <= 30 && (k == 0 || Total(Pow2(k), sizes) <= rlen)
    ensures IsLargestFit(n, rlen, sizes)
    decreases 30 - k
  {
    n := Pow2(k);
    Pow2Constants();
    if k < 30 {
      Pow2Monotone(k, 30);
      if Total(2 * n, sizes) <= rlen {
        n := FitFrom(k + 1, rlen, sizes);
      }
    }
  }

  lemma PowersAreApart(a: nat, b: nat)
    requires IsPow2(a) && IsPow2(b) && a < b
    ensures 2 * a <= b
  {
    var i: nat, j: nat :| Pow2(i) == a && Pow2(j) == b;
    if j <= i {
      Pow2AtLeast(j, i);
    } else {
      Pow2Monotone(i, j);
    }
  }

  /**
    Exactly when the 32-bit accumulator finds the right answer: when the first layout that is too
    long still looks too long in 32 bits. Otherwise what it returns does not fit.
  */
  lemma NumSlotsExact(r: nat, n: nat, rlen: nat, sizes: seq<u32>)
    requires IsNumSlots(r, rlen, sizes) && IsLargestFit(n, rlen, sizes)
    ensures n <= r
    ensures r == n <==> n == SLOTS_CAP || !SeemsToFit(2 * n, rlen, sizes)
    ensures r > n ==> Total(r, sizes) > rlen
  {
    NumSlotsAtLeast(r, n, rlen, sizes);
    if n < r {
      PowersAreApart(n, r);
      Doubling(n);
      var k: nat :| Pow2(k) == 2 * n;
      assert SeemsToFit(Pow2(k), rlen, sizes);
      TotalMonotone(2 * n, r, sizes);
    }
  }

  lemma NumSlotsAtLeast(r: nat, n: nat, rlen: nat, sizes: seq<u32>)
    requires IsNumSlots(r, rlen, sizes) && IsLargestFit(n, rlen, sizes)
    ensures n <= r
  {
    if r < n {
      Doubling(r);
      PowersAreApart(r, n);
      TotalMonotone(2 * r, n, sizes);
      WrapAtMost(Total(2 * r, sizes));
      assert false;
    }
  }

  lemma Doubling(n: nat)
    requires IsPow2(n)
    ensures n > 0 && IsPow2(2 * n)
  {
    var k: nat :| Pow2(k) == n;
    assert Pow2(k + 1) == 2 * n;
  }

  /** For buffers below 2 GiB whose two-slot layout is below 4 GiB the accumulator never misleads. */
  lemma {:induction false} NoWrapBelow2G(k: nat, r: nat, rlen: nat, sizes: seq<u32>)
    requires IsNumSlots(r, rlen, sizes) && rlen < 0x8000_0000 && Total(2, sizes) < WORD
    requires 2 <= Pow2(k) <= r
    ensures Total(Pow2(k), sizes) <= rlen
  {
    assert SeemsToFit(Pow2(k), rlen, sizes);
    if k > 1 {
      NoWrapBelow2G(k - 1, r, rlen, sizes);
      TotalDoubles(Pow2(k - 1), sizes);
    }
    WrapSmall(Total(Pow2(k), sizes));
  }

  lemma NumSlotsBelow2G(r: nat, n: nat, rlen: nat, sizes: seq<u32>)
    requires IsNumSlots(r, rlen, sizes) && IsLargestFit(n, rlen, sizes)
    requires rlen < 0x8000_0000 && Total(2, sizes) < WORD
    ensures r == n
  {
    NumSlotsExact(r, n, rlen, sizes);
    if r > n {
      PowersAreApart(n, r);
      var k: nat :| Pow2(k) == r;
      NoWrapBelow2G(k, r, rlen, sizes);
    }
  }

  /** So below these bounds the result itself is the largest count that fits. */
  lemma NumSlotsIsLargest(r: nat, rlen: nat, sizes: seq<u32>)
    requires IsNumSlots(r, rlen, sizes) && rlen < 0x8000_0000 && Total(2, sizes) < WORD
    ensures IsLargestFit(r, rlen, sizes)
  {
    var n := LargestFitExists(rlen, sizes);
    NumSlotsBelow2G(r, n, rlen, sizes);
  }

  /** A 100-byte buffer and one huge slot size: every length looks like 44 bytes to the accumulator. */
  lemma HugeSlotsMislead(r: nat)
    requires IsNumSlots(r, 100, [0x7FFF_FFF0])
    ensures r == SLOTS_CAP && Total(r, [0x7FFF_FFF0]) > 100
  {
    Doubling(r);
    HugeTotal(r);
    HugeTotal(2 * r);
  }

  lemma HugeTotal(n: nat)
    ensures Total(n, [0x7FFF_FFF0]) == 44 + n * 0x8000_0000
  {
    var sizes: seq<u32> := [0x7FFF_FFF0];
    assert sizes[..0] == [];
  }

  // ---------------------------------------------------------------------------------------------
  // Where everything lands
  // ---------------------------------------------------------------------------------------------

  datatype Part = Header | SqSlot(j: nat) | CqSlot(j: nat)

  predicate HasPart(n: nat, p: Part) {
    p.Header? || p.j < n
  }

  function PartLen(slotSz: u32, p: Part): nat {
    match p
    case Header => HEADER_LEN
    case SqSlot(_) => slotSz
    case CqSlot(_) => CQ_ENTRY_LEN
  }

  /** Offset of a part from the start of its ring, as xgq_init and the slot-pointer functions place it. */
  function PartOffset(n: nat, slotSz: u32, p: Part): nat {
    match p
    case Header => 0
    case SqSlot(j) => HEADER_LEN + slotSz * j
    case CqSlot(j) => HEADER_LEN + n * slotSz + CQ_ENTRY_LEN * j
  }

  /** Where the i-th ring of a group starts (the running `raddr` of xgq_group_alloc). */
  function RingAddr(base: nat, n: nat, sizes: seq<u32>, i: nat): nat
    requires i <= |sizes|
  {
    base + Total(n, sizes[..i])
  }

  function PartStart(base: nat, n: nat, sizes: seq<u32>, i: nat, p: Part): nat
    requires i < |sizes|
  {
    RingAddr(base, n, sizes, i) + PartOffset(n, sizes[i], p)
  }

  function PartEnd(base: nat, n: nat, sizes: seq<u32>, i: nat, p: Part): nat
    requires i < |sizes|
  {
    PartStart(base, n, sizes, i, p) + PartLen(sizes[i], p)
  }

  lemma SlotsInside(n: nat, slotSz: u32, j: nat)
    requires j < n
    ensures slotSz * j + slotSz <= n * slotSz
    ensures RingLen(n, slotSz) == HEADER_LEN + n * slotSz + CQ_ENTRY_LEN * n
  {
    MulMono(j + 1, n, slotSz);
    assert (j + 1) * slotSz == slotSz * j + slotSz;
  }

  lemma PartInsideRing(n: nat, slotSz: u32, p: Part)
    requires HasPart(n, p)
    ensures PartOffset(n, slotSz, p) + PartLen(slotSz, p) <= RingLen(n, slotSz)
  {
    if !p.Header? {
      SlotsInside(n, slotSz, p.j);
    }
  }

  ghost predicate PartsApart(n: nat, slotSz: u32, p: Part, q: Part) {
    var sp, sq := PartOffset(n, slotSz, p), PartOffset(n, slotSz, q);
    sp + PartLen(slotSz, p) <= sq || sq + PartLen(slotSz, q) <= sp
  }

  lemma SqSlotsApart(n: nat, slotSz: u32, j: nat, k: nat)
    requires j < k
    ensures PartsApart(n, slotSz, SqSlot(j), SqSlot(k)) && PartsApart(n, slotSz, SqSlot(k), SqSlot(j))
  {
    MulMono(j + 1, k, slotSz);
    assert (j + 1) * slotSz == slotSz * j + slotSz;
  }

  lemma SqCqApart(n: nat, slotSz: u32, j: nat, k: nat)
    requires j < n
    ensures PartsApart(n, slotSz, SqSlot(j), CqSlot(k)) && PartsApart(n, slotSz, CqSlot(k), SqSlot(j))
  {
    SlotsInside(n, slotSz, j);
  }

  lemma HeaderApart(n: nat, slotSz: u32, p: Part)
    requires p != Header
    ensures PartsApart(n, slotSz, Header, p) && PartsApart(n, slotSz, p, Header)
  {
  }

  lemma PartsOfOneRingDisjoint(n: nat, slotSz: u32, p: Part, q: Part)
    requires HasPart(n, p) && HasPart(n, q) && p != q
    ensures PartsApart(n, slotSz, p, q)
  {
    match (p, q)
    case (Header, _) => HeaderApart(n, slotSz, q);
    case (_, Header) => HeaderApart(n, slotSz, p);
    case (SqSlot(j), CqSlot(k)) => SqCqApart(n, slotSz, j, k);
    case (CqSlot(k), SqSlot(j)) => SqCqApart(n, slotSz, j, k);
    case (CqSlot(j), CqSlot(k)) =>
    case (SqSlot(j), SqSlot(k)) =>
      if j < k {
        SqSlotsApart(n, slotSz, j, k);
      } else {
        SqSlotsApart(n, slotSz, k, j);
      }
  }

  lemma {:induction false} RingsInOrder(base: nat, n: nat, sizes: seq<u32>, i: nat, k: nat)
    requires i < k <= |sizes|
    ensures RingAddr(base, n, sizes, i) + RingLen(n, sizes[i]) <= RingAddr(base, n, sizes, k)
    decreases k
  {
    assert sizes[..k][..k - 1] == sizes[..k - 1];
    if i < k - 1 {
      RingsInOrder(base, n, sizes, i, k - 1);
    }
  }

  /** Every header and slot of a group is inside the group's length ... */
  lemma PartsInsideRegion(base: nat, n: nat, sizes: seq<u32>, i: nat, p: Part)
    requires i < |sizes| && HasPart(n, p)
    ensures base <= PartStart(base, n, sizes, i, p)
    ensures PartEnd(base, n, sizes, i, p) <= base + Total(n, sizes)
  {
    PartInsideRing(n, sizes[i], p);
    RingsInOrder(base, n, sizes, i, |sizes|);
    assert sizes[..|sizes|] == sizes;
  }

  /** ... and no two of them overlap. */
  lemma PartsDisjoint(base: nat, n: nat, sizes: seq<u32>, i: nat, p: Part, k: nat, q: Part)
    requires i < |sizes| && k < |sizes| && HasPart(n, p) && HasPart(n, q)
    requires (i, p) != (k, q)
    ensures PartEnd(base, n, sizes, i, p) <= PartStart(base, n, sizes, k, q)
         || PartEnd(base, n, sizes, k, q) <= PartStart(base, n, sizes, i, p)
  {
    PartInsideRing(n, sizes[i], p);
    PartInsideRing(n, sizes[k], q);
    if i == k {
      PartsOfOneRingDisjoint(n, sizes[i], p, q);
    } else if i < k {
      RingsInOrder(base, n, sizes, i, k);
    } else {
      RingsInOrder(base, n, sizes, k, i);
    }
  }

  // ---------------------------------------------------------------------------------------------
  // Device memory
  // ---------------------------------------------------------------------------------------------

  type Memory = map<nat, u32>

  function Read(m: Memory, a: nat): u32 {
    if a in m then m[a] else 0
  }

  function WriteWords(m: Memory, a: nat, ws: seq<u32>): Memory {
    if ws == [] then m
    else WriteWords(m, a, ws[..|ws| - 1])[a + 4 * (|ws| - 1) := ws[|ws| - 1]]
  }

  function ReadWords(m: Memory, a: nat, count: nat): (ws: seq<u32>)
    ensures |ws| == count
    ensures forall i :: 0 <= i < count ==> ws[i] == Read(m, a + 4 * i)
  {
    seq(count, i requires 0 <= i => Read(m, a + 4 * i))
  }

  lemma {:induction false} WriteWordsAt(m: Memory, a: nat, ws: seq<u32>, b: nat)
    ensures Read(WriteWords(m, a, ws), b) ==
            if a <= b < a + 4 * |ws| && (b - a) % 4 == 0 then ws[(b - a) / 4] else Read(m, b)
  {
    if ws != [] {
      WriteWordsAt(m, a, ws[..|ws| - 1], b);
    }
  }

  class Device {
    var mem: Memory

    /** xgq_copy_to_ring. */
    method CopyToRing(tgt: nat, src: seq<u32>)
      modifies this
      ensures mem == WriteWords(old(mem), tgt, src)
    {
      var i, addr := 0, tgt;
      while i < |src|
        invariant 0 <= i <= |src| && addr == tgt + 4 * i
        invariant mem == WriteWords(old(mem), tgt, src[..i])
      {
        assert src[..i + 1][..i] == src[..i];
        mem := mem[addr := src[i]];
        i, addr := i + 1, addr + 4;
      }
      assert src[..|src|] == src;
    }

    /** xgq_copy_from_ring. */
    method CopyFromRing(src: nat, count: nat) returns (tgt: seq<u32>)
      ensures tgt == ReadWords(mem, src, count)
    {
      tgt := [];
      var i, addr := 0, src;
      while i < count
        invariant 0 <= i <= count && addr == src + 4 * i
        invariant tgt == ReadWords(mem, src, i)
      {
        tgt := tgt + [Read(mem, addr)];
        i, addr := i + 1, addr + 4;
      }
    }
  }

  // ---------------------------------------------------------------------------------------------
  // xgq_init and xgq_attach
  // ---------------------------------------------------------------------------------------------

  const WORD_MAGIC: nat := 0
  const WORD_VERSION: nat := 1
  const WORD_SLOT_NUM: nat := 2
  const WORD_SQ_OFFSET: nat := 3
  const WORD_SQ_SLOT_SIZE: nat := 4
  const WORD_CQ_OFFSET: nat := 5
  const WORD_SQ_CONSUMED: nat := 6
  const WORD_CQ_CONSUMED: nat := 7
  const WORD_FLAGS: nat := 8
  const WORD_SQ_PRODUCED: nat := 9
  const WORD_CQ_PRODUCED: nat := 10
  const HEADER_WORDS: nat := 11

  /** XGQ_DOUBLE_READ and XGQ_IN_MEM_PROD; no other flag bit is looked at. */
  datatype Flags = Flags(doubleRead: bool, inMemProd: bool)

  function FlagsWord(f: Flags): u32 {
    (if f.doubleRead then 2 else 0) + (if f.inMemProd then 4 else 0)
  }

  function FlagsOf(w: u32): Flags {
    Flags((w / 2) % 2 == 1, (w / 4) % 2 == 1)
  }

  /** One `struct xgq`. */
  datatype Xgq = Xgq(flags: Flags, headerAddr: nat, sqGeo: Geometry, sq: Counters, cqGeo: Geometry, cq: Counters)

  function SqProducedAddr(flags: Flags, ringAddr: nat, sqProduced: nat): nat {
    if flags.inMemProd then ringAddr + 4 * WORD_SQ_PRODUCED else sqProduced
  }

  function CqProducedAddr(flags: Flags, ringAddr: nat, cqProduced: nat): nat {
    if flags.inMemProd then ringAddr + 4 * WORD_CQ_PRODUCED else cqProduced
  }

  function HeaderOf(flags: Flags, n: u32, slotSz: u32, magic: u32): (ws: seq<u32>)
    ensures |ws| == HEADER_WORDS
  {
    [magic, VERSION, n, HEADER_LEN, slotSz, Wrap32(HEADER_LEN + n * slotSz), 0, 0, FlagsWord(flags), 0, 0]
  }

  function InitGeometry(flags: Flags, ringAddr: nat, n: u32, slotSz: u32, sqProduced: nat, cqProduced: nat): (Geometry, Geometry) {
    (Geometry(SqProducedAddr(flags, ringAddr, sqProduced), ringAddr + 4 * WORD_SQ_CONSUMED,
              ringAddr + HEADER_LEN, n, slotSz),
     Geometry(CqProducedAddr(flags, ringAddr, cqProduced), ringAddr + 4 * WORD_CQ_CONSUMED,
              ringAddr + HEADER_LEN + n * slotSz, n, CQ_ENTRY_LEN))
  }

  /** The registers outside memory, when used, are not words of the header. */
  predicate RegistersApart(flags: Flags, ringAddr: nat, sqProduced: nat, cqProduced: nat) {
    flags.inMemProd ||
    ((sqProduced < ringAddr || ringAddr + HEADER_LEN <= sqProduced) &&
     (cqProduced < ringAddr || ringAddr + HEADER_LEN <= cqProduced))
  }

  /** The eleven words of an initialized header. */
  function InitHeader(flags: Flags, n: u32, slotSz: u32, sq: u32, cq: u32): (ws: seq<u32>)
    ensures |ws| == HEADER_WORDS
  {
    [MAGIC, VERSION, n, HEADER_LEN, slotSz, Wrap32(HEADER_LEN + n * slotSz), sq, cq, FlagsWord(flags), 0, 0]
  }

  ghost predicate SameOutside(m: Memory, m': Memory, lo: nat, hi: nat) {
    forall b: nat :: b < lo || hi <= b ==> Read(m', b) == Read(m, b)
  }

  /**
    The whole effect of xgq_init on memory: a complete header, with each consumer word equal to the
    producer word it was reset to, and no other word touched.
  */
  ghost predicate InitEffect(m: Memory, m': Memory, flags: Flags, a: nat, n: u32, slotSz: u32, sqp: nat, cqp: nat) {
    var sq := if flags.inMemProd then 0 else Read(m, sqp);
    var cq := if flags.inMemProd then 0 else Read(m, cqp);
    && ReadWords(m', a, HEADER_WORDS) == InitHeader(flags, n, slotSz, sq, cq)
    && SameOutside(m, m', a, a + HEADER_LEN)
  }

  /** The queue xgq_init fills in: both rings empty, at the counters the shared words carry. */
  function NewXgq(m: Memory, flags: Flags, a: nat, n: u32, slotSz: u32, sqp: nat, cqp: nat): Xgq {
    var (sqGeo, cqGeo) := InitGeometry(flags, a, n, slotSz, sqp, cqp);
    var sq := if flags.inMemProd then 0 else Read(m, sqp);
    var cq := if flags.inMemProd then 0 else Read(m, cqp);
    Xgq(flags, a, sqGeo, Counters(sq, sq), cqGeo, Counters(cq, cq))
  }

  /** The words both peers of a ring can read. */
  function SharedOf(m: Memory, geo: Geometry): Counters {
    Counters(Read(m, geo.producedAddr), Read(m, geo.consumedAddr))
  }

  /** xgq_init. */
  method Init(dev: Device, flags: Flags, ringAddr: nat, n: u32, slotSz: u32, sqProduced: nat, cqProduced: nat)
    returns (xgq: Xgq)
    requires RegistersApart(flags, ringAddr, sqProduced, cqProduced)
    modifies dev
    ensures InitEffect(old(dev.mem), dev.mem, flags, ringAddr, n, slotSz, sqProduced, cqProduced)
    ensures dev.mem == InitStage(old(dev.mem), flags, ringAddr, n, slotSz, sqProduced, cqProduced, INIT_WRITES)
    ensures xgq == NewXgq(old(dev.mem), flags, ringAddr, n, slotSz, sqProduced, cqProduced)
    ensures xgq.sq == SharedOf(dev.mem, xgq.sqGeo) && xgq.cq == SharedOf(dev.mem, xgq.cqGeo)
    ensures Empty(xgq.sq) && Empty(xgq.cq)
  {
    var (sqGeo, cqGeo) := InitGeometry(flags, ringAddr, n, slotSz, sqProduced, cqProduced);
    var header := HeaderOf(flags, n, slotSz, 0);
    dev.CopyToRing(ringAddr, header);
    ghost var m1 := dev.mem;
    // xgq_soft_reset on both rings
    var sqp := Read(dev.mem, sqGeo.producedAddr);
    dev.mem := dev.mem[sqGeo.consumedAddr := sqp];
    var cqp := Read(dev.mem, cqGeo.producedAddr);
    dev.mem := dev.mem[cqGeo.consumedAddr := cqp];
    ghost var m3 := dev.mem;
    dev.CopyToRing(ringAddr, [MAGIC]);
    WriteOne(m3, ringAddr, MAGIC);
    xgq := Xgq(flags, ringAddr, sqGeo, Counters(sqp, sqp), cqGeo, Counters(cqp, cqp));
    InitHasEffect(old(dev.mem), flags, ringAddr, n, slotSz, sqProduced, cqProduced);
    LastStage(old(dev.mem), flags, ringAddr, n, slotSz, sqProduced, cqProduced);
    ProducersKept(old(dev.mem), flags, ringAddr, n, slotSz, sqProduced, cqProduced);
    SharedAfterInit(old(dev.mem), dev.mem, flags, ringAddr, n, slotSz, sqProduced, cqProduced);
  }

  /** What the two soft resets read. */
  lemma ProducersKept(m: Memory, flags: Flags, a: nat, n: u32, slotSz: u32, sqp: nat, cqp: nat)
    requires RegistersApart(flags, a, sqp, cqp)
    ensures var m1 := WriteWords(m, a, HeaderOf(flags, n, slotSz, 0));
            var sq := Read(m1, SqProducedAddr(flags, a, sqp));
            && sq == (if flags.inMemProd then 0 else Read(m, sqp))
            && Read(m1[a + 4 * WORD_SQ_CONSUMED := sq], CqProducedAddr(flags, a, cqp)) == (if flags.inMemProd then 0 else Read(m, cqp))
  {
    WriteWordsAt(m, a, HeaderOf(flags, n, slotSz, 0), SqProducedAddr(flags, a, sqp));
    WriteWordsAt(m, a, HeaderOf(flags, n, slotSz, 0), CqProducedAddr(flags, a, cqp));
  }

  /** After the initialization the shared words of each ring carry the counters of the queue. */
  lemma SharedAfterInit(m: Memory, m': Memory, flags: Flags, a: nat, n: u32, slotSz: u32, sqp: nat, cqp: nat)
    requires InitEffect(m, m', flags, a, n, slotSz, sqp, cqp) && RegistersApart(flags, a, sqp, cqp)
    ensures var x := NewXgq(m, flags, a, n, slotSz, sqp, cqp);
            x.sq == SharedOf(m', x.sqGeo) && x.cq == SharedOf(m', x.cqGeo)
  {
    var h := ReadWords(m', a, HEADER_WORDS);
    assert h[WORD_SQ_CONSUMED] == Read(m', a + 4 * WORD_SQ_CONSUMED) && h[WORD_CQ_CONSUMED] == Read(m', a + 4 * WORD_CQ_CONSUMED);
    assert h[WORD_SQ_PRODUCED] == Read(m', a + 4 * WORD_SQ_PRODUCED) && h[WORD_CQ_PRODUCED] == Read(m', a + 4 * WORD_CQ_PRODUCED);
  }

  lemma WriteOne(m: Memory, a: nat, w: u32)
    ensures WriteWords(m, a, [w]) == m[a := w]
  {
    assert [w][..0] == [];
  }

  datatype AttachError = EAGAIN | EOPNOTSUPP | EPROTO

  predicate SlotCountAccepted(n: u32) {
    n >= MIN_NUM_SLOTS && And(n, n - 1) == 0
  }

  /** What xgq_attach makes of the header words and, for producers in registers, of those registers. */
  function AttachTo(h: seq<u32>, regs: Counters, flags: Flags, a: nat, sqProduced: nat, cqProduced: nat): Result<Xgq, AttachError>
    requires |h| == HEADER_WORDS
  {
    var n := h[WORD_SLOT_NUM];
    if h[WORD_MAGIC] != MAGIC then Failure(EAGAIN)
    else if h[WORD_VERSION] / 0x1_0000 != 1 then Failure(EOPNOTSUPP)
    else if !SlotCountAccepted(n) then Failure(EPROTO)
    else
      var found := FlagsOf(h[WORD_FLAGS]);
      var fl := Flags(flags.doubleRead || found.doubleRead, flags.inMemProd || found.inMemProd);
      Success(Xgq(fl, a,
                  Geometry(SqProducedAddr(fl, a, sqProduced), a + 4 * WORD_SQ_CONSUMED,
                           a + h[WORD_SQ_OFFSET], n, h[WORD_SQ_SLOT_SIZE]),
                  Counters(if fl.inMemProd then h[WORD_SQ_PRODUCED] else regs.produced, h[WORD_SQ_CONSUMED]),
                  Geometry(CqProducedAddr(fl, a, cqProduced), a + 4 * WORD_CQ_CONSUMED,
                           a + h[WORD_CQ_OFFSET], n, CQ_ENTRY_LEN),
                  Counters(if fl.inMemProd then h[WORD_CQ_PRODUCED] else regs.consumed, h[WORD_CQ_CONSUMED])))
  }

  /** `regs` holds the two producer registers: SQ in its first field, CQ in its second. */
  function AttachSpec(m: Memory, flags: Flags, a: nat, sqProduced: nat, cqProduced: nat): Result<Xgq, AttachError> {
    AttachTo(ReadWords(m, a, HEADER_WORDS), Counters(Read(m, sqProduced), Read(m, cqProduced)),
             flags, a, sqProduced, cqProduced)
  }

  /** xgq_attach: the magic is looked at before the rest of the header is read. */
  method Attach(dev: Device, flags: Flags, ringAddr: nat, sqProduced: nat, cqProduced: nat)
    returns (res: Result<Xgq, AttachError>)
    ensures res == AttachSpec(dev.mem, flags, ringAddr, sqProduced, cqProduced)
  {
    var first := dev.CopyFromRing(ringAddr, 1);
    if first[0] != MAGIC {
      return Failure(EAGAIN);
    }
    var h := dev.CopyFromRing(ringAddr, HEADER_WORDS);
    if h[WORD_VERSION] / 0x1_0000 != 1 {
      return Failure(EOPNOTSUPP);
    }
    var n := h[WORD_SLOT_NUM];
    if n < MIN_NUM_SLOTS || And(n, n - 1) != 0 {
      return Failure(EPROTO);
    }
    var found := FlagsOf(h[WORD_FLAGS]);
    var fl := Flags(flags.doubleRead || found.doubleRead, flags.inMemProd || found.inMemProd);
    var sqGeo := Geometry(SqProducedAddr(fl, ringAddr, sqProduced), ringAddr + 4 * WORD_SQ_CONSUMED,
                          ringAddr + h[WORD_SQ_OFFSET], n, h[WORD_SQ_SLOT_SIZE]);
    var cqGeo := Geometry(CqProducedAddr(fl, ringAddr, cqProduced), ringAddr + 4 * WORD_CQ_CONSUMED,
                          ringAddr + h[WORD_CQ_OFFSET], n, CQ_ENTRY_LEN);
    // xgq_fast_forward on both rings
    var sq := Counters(Read(dev.mem, sqGeo.producedAddr), Read(dev.mem, sqGeo.consumedAddr));
    var cq := Counters(Read(dev.mem, cqGeo.producedAddr), Read(dev.mem, cqGeo.consumedAddr));
    res := Success(Xgq(fl, ringAddr, sqGeo, sq, cqGeo, cq));
  }

  /** The writes of xgq_init, in order. */
  function InitWrites(m: Memory, flags: Flags, a: nat, n: u32, slotSz: u32, sqp: nat, cqp: nat): Memory {
    var m1 := WriteWords(m, a, HeaderOf(flags, n, slotSz, 0));
    var m2 := m1[a + 4 * WORD_SQ_CONSUMED := Read(m1, SqProducedAddr(flags, a, sqp))];
    m2[a + 4 * WORD_CQ_CONSUMED := Read(m2, CqProducedAddr(flags, a, cqp))][a := MAGIC]
  }

  /** xgq_init writes the eleven header words, one consumer word for each ring, and the magic number. */
  const INIT_WRITES: nat := 14

  /** Memory after the first k of these writes. */
  function InitStage(m: Memory, flags: Flags, a: nat, n: u32, slotSz: u32, sqp: nat, cqp: nat, k: nat): Memory
    requires k <= INIT_WRITES
  {
    if k <= HEADER_WORDS then WriteWords(m, a, HeaderOf(flags, n, slotSz, 0)[..k])
    else
      var before := InitStage(m, flags, a, n, slotSz, sqp, cqp, k - 1);
      if k == HEADER_WORDS + 1 then before[a + 4 * WORD_SQ_CONSUMED := Read(before, SqProducedAddr(flags, a, sqp))]
      else if k == HEADER_WORDS + 2 then before[a + 4 * WORD_CQ_CONSUMED := Read(before, CqProducedAddr(flags, a, cqp))]
      else before[a := MAGIC]
  }

  lemma LastStage(m: Memory, flags: Flags, a: nat, n: u32, slotSz: u32, sqp: nat, cqp: nat)
    ensures InitStage(m, flags, a, n, slotSz, sqp, cqp, INIT_WRITES) == InitWrites(m, flags, a, n, slotSz, sqp, cqp)
  {
    var ws := HeaderOf(flags, n, slotSz, 0);
    assert ws[..HEADER_WORDS] == ws;
    assert InitStage(m, flags, a, n, slotSz, sqp, cqp, HEADER_WORDS) == WriteWords(m, a, ws);
    var m2 := InitStage(m, flags, a, n, slotSz, sqp, cqp, HEADER_WORDS + 1);
    assert InitStage(m, flags, a, n, slotSz, sqp, cqp, HEADER_WORDS + 2) == m2[a + 4 * WORD_CQ_CONSUMED := Read(m2, CqProducedAddr(flags, a, cqp))];
  }

  /** The first word is zero from the first write on until the last. */
  lemma {:induction false} MagicComesLast(m: Memory, flags: Flags, a: nat, n: u32, slotSz: u32, sqp: nat, cqp: nat, k: nat)
    requires 1 <= k <= INIT_WRITES
    ensures Read(InitStage(m, flags, a, n, slotSz, sqp, cqp, k), a) == if k < INIT_WRITES then 0 else MAGIC
  {
    if k <= HEADER_WORDS {
      WriteWordsAt(m, a, HeaderOf(flags, n, slotSz, 0)[..k], a);
    } else {
      MagicComesLast(m, flags, a, n, slotSz, sqp, cqp, k - 1);
    }
  }

  /**
    The handshake: whatever was in memory, and whoever attaches how, every attach between the first write of
    an initialization and the last is told to try again, and none after the last.
  */
  lemma UnfinishedRingIsRefused(m: Memory, flags: Flags, a: nat, n: u32, slotSz: u32, sqp: nat, cqp: nat, k: nat,
                                by': Flags, sqp': nat, cqp': nat)
    requires 1 <= k <= INIT_WRITES
    ensures AttachSpec(InitStage(m, flags, a, n, slotSz, sqp, cqp, k), by', a, sqp', cqp') == Failure(EAGAIN) <==> k < INIT_WRITES
  {
    MagicComesLast(m, flags, a, n, slotSz, sqp, cqp, k);
    AttachRefusals(InitStage(m, flags, a, n, slotSz, sqp, cqp, k), by', a, sqp', cqp');
  }

  /** Exactly when an attach is refused, and with which error, on the first three words in memory. */
  lemma AttachRefusals(m: Memory, by': Flags, a: nat, sqp: nat, cqp: nat)
    ensures var res := AttachSpec(m, by', a, sqp, cqp);
            var (magic, version, slots) := (Read(m, a), Read(m, a + 4), Read(m, a + 8));
            var known := 0x1_0000 <= version < 0x2_0000;
            && (res == Failure(EAGAIN) <==> magic != 0x5847513F)
            && (res == Failure(EOPNOTSUPP) <==> magic == 0x5847513F && !known)
            && (res == Failure(EPROTO) <==> magic == 0x5847513F && known && !(slots >= 2 && IsPow2(slots)))
            && (res.Success? <==> magic == 0x5847513F && known && slots >= 2 && IsPow2(slots))
  {
    AcceptedSlotCounts(Read(m, a + 8));
    var h := ReadWords(m, a, HEADER_WORDS);
    assert h[WORD_MAGIC] == Read(m, a) && h[WORD_VERSION] == Read(m, a + 4) && h[WORD_SLOT_NUM] == Read(m, a + 8);
  }

  /** A queue that was attached to is where the words in memory say, its counters those in the shared words. */
  lemma AttachFollowsHeader(m: Memory, by': Flags, a: nat, sqp: nat, cqp: nat)
    requires AttachSpec(m, by', a, sqp, cqp).Success?
    ensures var x := AttachSpec(m, by', a, sqp, cqp).value;
            && x.headerAddr == a && x.sqGeo.slotNum == x.cqGeo.slotNum == Read(m, a + 8)
            && x.sqGeo.slotAddr == a + Read(m, a + 12) && x.sqGeo.slotSz == Read(m, a + 16)
            && x.cqGeo.slotAddr == a + Read(m, a + 20) && x.cqGeo.slotSz == 16
            && (x.flags.inMemProd <==> by'.inMemProd || (Read(m, a + 32) / 4) % 2 == 1)
            && (x.flags.doubleRead <==> by'.doubleRead || (Read(m, a + 32) / 2) % 2 == 1)
            && x.sq == SharedOf(m, x.sqGeo) && x.cq == SharedOf(m, x.cqGeo)
            && x.sqGeo.consumedAddr == a + 24 && x.cqGeo.consumedAddr == a + 28
            && (x.flags.inMemProd ==> x.sqGeo.producedAddr == a + 36 && x.cqGeo.producedAddr == a + 40)
            && (!x.flags.inMemProd ==> x.sqGeo.producedAddr == sqp && x.cqGeo.producedAddr == cqp)
  {
  }

  lemma InitRead(m: Memory, flags: Flags, a: nat, n: u32, slotSz: u32, sqp: nat, cqp: nat, b: nat)
    requires RegistersApart(flags, a, sqp, cqp)
    ensures var sq := if flags.inMemProd then 0 else Read(m, sqp);
            var cq := if flags.inMemProd then 0 else Read(m, cqp);
            Read(InitWrites(m, flags, a, n, slotSz, sqp, cqp), b) ==
            if b == a then MAGIC
            else if b == a + 4 * WORD_SQ_CONSUMED then sq
            else if b == a + 4 * WORD_CQ_CONSUMED then cq
            else if a <= b < a + HEADER_LEN && (b - a) % 4 == 0 then HeaderOf(flags, n, slotSz, 0)[(b - a) / 4]
            else Read(m, b)
  {
    var ws := HeaderOf(flags, n, slotSz, 0);
    WriteWordsAt(m, a, ws, b);
    WriteWordsAt(m, a, ws, SqProducedAddr(flags, a, sqp));
    WriteWordsAt(m, a, ws, CqProducedAddr(flags, a, cqp));
  }

  lemma InitHasEffect(m: Memory, flags: Flags, a: nat, n: u32, slotSz: u32, sqp: nat, cqp: nat)
    requires RegistersApart(flags, a, sqp, cqp)
    ensures InitEffect(m, InitWrites(m, flags, a, n, slotSz, sqp, cqp), flags, a, n, slotSz, sqp, cqp)
  {
    var m' := InitWrites(m, flags, a, n, slotSz, sqp, cqp);
    forall i | 0 <= i < HEADER_WORDS
      ensures ReadWords(m', a, HEADER_WORDS)[i] ==
              InitHeader(flags, n, slotSz, if flags.inMemProd then 0 else Read(m, sqp),
                         if flags.inMemProd then 0 else Read(m, cqp))[i]
    {
      InitRead(m, flags, a, n, slotSz, sqp, cqp, a + 4 * i);
    }
    forall b: nat | b < a || a + HEADER_LEN <= b
      ensures Read(m', b) == Read(m, b)
    {
      InitRead(m, flags, a, n, slotSz, sqp, cqp, b);
    }
  }

  lemma FlagsRoundTrip(f: Flags)
    ensures FlagsOf(FlagsWord(f)) == f
  {
  }

  /** The queue an attachment finds: the allocator's, with the attacher's own wish for double reads. */
  function Attached(m: Memory, flags: Flags, by': Flags, a: nat, n: u32, slotSz: u32, sqp: nat, cqp: nat): Xgq {
    NewXgq(m, flags, a, n, slotSz, sqp, cqp).(flags := Flags(flags.doubleRead || by'.doubleRead, flags.inMemProd))
  }

  lemma InitHeaderOffsets(flags: Flags, n: u32, slotSz: u32, sq: u32, cq: u32)
    requires HEADER_LEN + n * slotSz < WORD
    ensures var h := InitHeader(flags, n, slotSz, sq, cq);
            && h[WORD_CQ_OFFSET] == HEADER_LEN + n * slotSz
            && FlagsOf(h[WORD_FLAGS]) == flags
  {
    WrapSmall(HEADER_LEN + n * slotSz);
    FlagsRoundTrip(flags);
  }

  lemma AttachToInitHeader(m: Memory, regs: Counters, flags: Flags, a: nat, n: u32, slotSz: u32, sqp: nat, cqp: nat, by': Flags)
    requires n > 0 && HEADER_LEN + n * slotSz < WORD && (by'.inMemProd ==> flags.inMemProd)
    requires !flags.inMemProd ==> regs == Counters(Read(m, sqp), Read(m, cqp))
    ensures var x := NewXgq(m, flags, a, n, slotSz, sqp, cqp);
            var res := AttachTo(InitHeader(flags, n, slotSz, x.sq.consumed, x.cq.consumed), regs, by', a, sqp, cqp);
            && (res.Success? <==> SlotCountAccepted(n))
            && (res.Failure? ==> res.error == EPROTO)
            && (res.Success? ==> res.value == Attached(m, flags, by', a, n, slotSz, sqp, cqp))
  {
    InitHeaderOffsets(flags, n, slotSz, if flags.inMemProd then 0 else regs.produced,
                      if flags.inMemProd then 0 else regs.consumed);
  }

  lemma AcceptedSlotCounts(n: u32)
    ensures SlotCountAccepted(n) <==> n >= MIN_NUM_SLOTS && IsPow2(n)
  {
    if n > 0 {
      AndPredecessor(n);
    }
  }

  lemma RingLenSplits(n: nat, slotSz: u32)
    ensures RingLen(n, slotSz) == HEADER_LEN + n * slotSz + n * CQ_ENTRY_LEN
  {
  }

  /**
    Attaching to an initialized ring: it succeeds exactly for a power-of-two slot count, and then
    finds exactly the queue the allocator has: geometry, counters and, but for double reads, flags.
  */
  lemma AttachAfterInit(m: Memory, m': Memory, flags: Flags, a: nat, n: u32, slotSz: u32, sqp: nat, cqp: nat, by': Flags)
    requires InitEffect(m, m', flags, a, n, slotSz, sqp, cqp)
    requires RegistersApart(flags, a, sqp, cqp) && n > 0 && RingLen(n, slotSz) < WORD
    requires by'.inMemProd ==> flags.inMemProd
    ensures var res := AttachSpec(m', by', a, sqp, cqp);
            && (res.Success? <==> n >= MIN_NUM_SLOTS && IsPow2(n))
            && (res.Failure? ==> res.error == EPROTO)
            && (res.Success? ==> res.value == Attached(m, flags, by', a, n, slotSz, sqp, cqp))
  {
    RingLenSplits(n, slotSz);
    AcceptedSlotCounts(n);
    AttachToInitHeader(m, Counters(Read(m', sqp), Read(m', cqp)), flags, a, n, slotSz, sqp, cqp, by');
  }

  // ---------------------------------------------------------------------------------------------
  // xgq_alloc and xgq_group_alloc
  // ---------------------------------------------------------------------------------------------

  datatype AllocError = EINVAL | E2BIG

  /** xgq_alloc; on success the ring and its true length. */
  method Alloc(dev: Device, flags: Flags, ringAddr: nat, ringLen: nat, slotSz: u32, sqProduced: nat, cqProduced: nat)
    returns (res: Result<(Xgq, nat), AllocError>)
    requires RegistersApart(flags, ringAddr, sqProduced, cqProduced)
    modifies dev
    ensures slotSz % 4 != 0 <==> res == Failure(EINVAL)
    ensures res.Failure? ==> (res == Failure(EINVAL) || res == Failure(E2BIG)) && dev.mem == old(dev.mem)
    ensures res.Success? ==>
              var (xgq, len) := res.value;
              var n := xgq.sqGeo.slotNum;
              && n >= MIN_NUM_SLOTS && IsNumSlots(n, ringLen, [slotSz]) && len == RingLen(n, slotSz)
              && xgq == NewXgq(old(dev.mem), flags, ringAddr, n, slotSz, sqProduced, cqProduced)
              && InitEffect(old(dev.mem), dev.mem, flags, ringAddr, n, slotSz, sqProduced, cqProduced)
    ensures res == Failure(E2BIG) ==> exists r: nat :: IsNumSlots(r, ringLen, [slotSz]) && r < MIN_NUM_SLOTS
  {
    if slotSz % 4 != 0 {
      return Failure(EINVAL);
    }
    var numslots := AllocNumSlots(ringLen, [slotSz]);
    if numslots < MIN_NUM_SLOTS {
      return Failure(E2BIG);
    }
    var xgq := Init(dev, flags, ringAddr, numslots, slotSz, sqProduced, cqProduced);
    res := Success((xgq, RingLen(numslots, slotSz)));
  }

  /** The headers of the first `count` rings of a group are in place. */
  ghost predicate HeadersInPlace(m: Memory, flags: Flags, base: nat, n: u32, sizes: seq<u32>, count: nat)
    requires count <= |sizes|
  {
    forall i: nat :: i < count ==>
      ReadWords(m, RingAddr(base, n, sizes, i), HEADER_WORDS) == InitHeader(flags, n, sizes[i], 0, 0)
  }

  /** The i-th queue of a group; its producer words are in memory, so its counters begin at zero. */
  function GroupXgq(flags: Flags, base: nat, n: u32, sizes: seq<u32>, i: nat): Xgq
    requires i < |sizes|
  {
    NewXgq(map[], flags, RingAddr(base, n, sizes, i), n, sizes[i], 0, 0)
  }

  /** The queues of a group are complete: flags, addresses, geometries and counters. */
  ghost predicate QueuesOf(xgqs: seq<Xgq>, flags: Flags, base: nat, n: u32, sizes: seq<u32>)
    requires |xgqs| <= |sizes|
  {
    forall i :: 0 <= i < |xgqs| ==> xgqs[i] == GroupXgq(flags, base, n, sizes, i)
  }

  /** Initializing one more ring behind the others leaves their headers alone. */
  lemma OneMoreHeader(m: Memory, m': Memory, flags: Flags, base: nat, n: u32, sizes: seq<u32>, count: nat)
    requires count < |sizes| && flags.inMemProd && HeadersInPlace(m, flags, base, n, sizes, count)
    requires InitEffect(m, m', flags, RingAddr(base, n, sizes, count), n, sizes[count], 0, 0)
    ensures HeadersInPlace(m', flags, base, n, sizes, count + 1)
  {
    forall i: nat | i < count + 1
      ensures ReadWords(m', RingAddr(base, n, sizes, i), HEADER_WORDS) == InitHeader(flags, n, sizes[i], 0, 0)
    {
      if i < count {
        RingsInOrder(base, n, sizes, i, count);
        HeaderKept(m, m', RingAddr(base, n, sizes, i), RingAddr(base, n, sizes, count));
      }
    }
  }

  lemma HeaderKept(m: Memory, m': Memory, a: nat, b: nat)
    requires a + HEADER_LEN <= b && SameOutside(m, m', b, b + HEADER_LEN)
    ensures ReadWords(m', a, HEADER_WORDS) == ReadWords(m, a, HEADER_WORDS)
  {
  }

  lemma NextRingAddr(base: nat, n: nat, sizes: seq<u32>, i: nat)
    requires i < |sizes|
    ensures RingAddr(base, n, sizes, i + 1) == RingAddr(base, n, sizes, i) + RingLen(n, sizes[i])
  {
    assert sizes[..i + 1][..i] == sizes[..i];
  }

  function Clamp(r: nat, maxSlots: u32): nat {
    if maxSlots != 0 && r > maxSlots then maxSlots else r
  }

  /** What the slot count of a group is: what fits, cut down to `maxSlots` when that is smaller. */
  ghost predicate IsGroupSlots(n: nat, rlen: nat, sizes: seq<u32>, maxSlots: u32) {
    exists r: nat :: IsNumSlots(r, rlen, sizes) && r >= MIN_NUM_SLOTS && n == Clamp(r, maxSlots)
  }

  /** The second loop of xgq_group_alloc. */
  method InitGroup(dev: Device, flags: Flags, ringAddr: nat, sizes: seq<u32>, n: u32)
    returns (xgqs: seq<Xgq>, raddr: nat)
    requires flags.inMemProd
    modifies dev
    ensures raddr == ringAddr + Total(n, sizes)
    ensures HeadersInPlace(dev.mem, flags, ringAddr, n, sizes, |sizes|)
    ensures SameOutside(old(dev.mem), dev.mem, ringAddr, raddr)
    ensures |xgqs| == |sizes| && QueuesOf(xgqs, flags, ringAddr, n, sizes)
  {
    xgqs, raddr := [], ringAddr;
    var i := 0;
    while i < |sizes|
      invariant 0 <= i <= |sizes| && |xgqs| == i
      invariant raddr == RingAddr(ringAddr, n, sizes, i)
      invariant HeadersInPlace(dev.mem, flags, ringAddr, n, sizes, i)
      invariant SameOutside(old(dev.mem), dev.mem, ringAddr, raddr)
      invariant QueuesOf(xgqs, flags, ringAddr, n, sizes)
    {
      ghost var before := dev.mem;
      var xgq := Init(dev, flags, raddr, n, sizes[i], 0, 0);
      OneMoreHeader(before, dev.mem, flags, ringAddr, n, sizes, i);
      NextRingAddr(ringAddr, n, sizes, i);
      xgqs := xgqs + [xgq];
      raddr := raddr + RingLen(n, sizes[i]);
      i := i + 1;
    }
    assert sizes[..|sizes|] == sizes;
  }

  predicate WordSized(sizes: seq<u32>) {
    forall i :: 0 <= i < |sizes| ==> sizes[i] % 4 == 0
  }

  /** xgq_group_alloc; on success the queues, their slot count and the length used. */
  method GroupAlloc(dev: Device, flags: Flags, ringAddr: nat, ringLen: nat, sizes: seq<u32>, maxSlots: u32)
    returns (res: Result<(seq<Xgq>, u32, nat), AllocError>)
    modifies dev
    ensures !WordSized(sizes) <==> res == Failure(EINVAL)
    ensures res.Failure? ==> (res == Failure(EINVAL) || res == Failure(E2BIG)) && dev.mem == old(dev.mem)
    ensures res == Failure(E2BIG) ==> exists r: nat :: IsNumSlots(r, ringLen, sizes) && r < MIN_NUM_SLOTS
    ensures res.Success? ==>
              var (xgqs, n, len) := res.value;
              var fl := flags.(inMemProd := true);
              && IsGroupSlots(n, ringLen, sizes, maxSlots) && len == Total(n, sizes)
              && HeadersInPlace(dev.mem, fl, ringAddr, n, sizes, |sizes|)
              && SameOutside(old(dev.mem), dev.mem, ringAddr, ringAddr + len)
              && |xgqs| == |sizes|
              && (forall k :: 0 <= k < |xgqs| ==>
                    xgqs[k] == NewXgq(map[], fl, RingAddr(ringAddr, n, sizes, k), n, sizes[k], 0, 0))
  {
    var i := 0;
    while i < |sizes|
      invariant 0 <= i <= |sizes|
      invariant forall k :: 0 <= k < i ==> sizes[k] % 4 == 0
    {
      if sizes[i] % 4 != 0 {
        return Failure(EINVAL);
      }
      i := i + 1;
    }
    var numslots := AllocNumSlots(ringLen, sizes);
    if numslots < MIN_NUM_SLOTS {
      return Failure(E2BIG);
    }
    var n: u32 := if maxSlots != 0 && numslots > maxSlots then maxSlots else numslots;
    var xgqs, raddr := InitGroup(dev, flags.(inMemProd := true), ringAddr, sizes, n);
    res := Success((xgqs, n, raddr - ringAddr));
  }

  lemma {:induction false} RingLenBelowTotal(n: nat, sizes: seq<u32>, i: nat)
    requires i < |sizes|
    ensures RingLen(n, sizes[i]) <= Total(n, sizes)
    decreases |sizes|
  {
    if i < |sizes| - 1 {
      RingLenBelowTotal(n, sizes[..|sizes| - 1], i);
    }
  }

  /** Every member of an allocated group can be attached to, exactly when the slot count is a power of two. */
  lemma GroupAttach(m: Memory, flags: Flags, base: nat, n: u32, sizes: seq<u32>, i: nat, by': Flags)
    requires i < |sizes| && flags.inMemProd && n > 0 && Total(n, sizes) < WORD
    requires HeadersInPlace(m, flags, base, n, sizes, |sizes|)
    ensures var a := RingAddr(base, n, sizes, i);
            var res := AttachSpec(m, by', a, 0, 0);
            && (res.Success? <==> n >= MIN_NUM_SLOTS && IsPow2(n))
            && (res.Failure? ==> res.error == EPROTO)
            && (res.Success? ==> res.value == Attached(map[], flags, by', a, n, sizes[i], 0, 0))
  {
    var a := RingAddr(base, n, sizes, i);
    RingLenBelowTotal(n, sizes, i);
    RingLenSplits(n, sizes[i]);
    AcceptedSlotCounts(n);
    AttachToInitHeader(map[], Counters(Read(m, 0), Read(m, 0)), flags, a, n, sizes[i], 0, 0, by');
  }

  /** A mask that is not all ones clears some position at or below it. */
  lemma {:induction false} HoleInMask(m: nat) returns (p: nat)
    requires !IsPow2(m + 1)
    ensures 0 < p <= m && And(p, m) == 0
  {
    assert Pow2(0) == 1;
    assert m != 0;
    if m % 2 == 0 {
      p := 1;
    } else {
      if IsPow2(m / 2 + 1) {
        Doubling(m / 2 + 1);
      }
      var q := HoleInMask(m / 2);
      p := 2 * q;
      AndStep(p, m);
    }
  }

  ghost predicate SlotsDistinct(n: u32) {
    forall i: u32, j: u32 :: i < j < n ==> SlotIndex(n, i) != SlotIndex(n, j)
  }

  lemma SlotIndexOfPowerOfTwo(n: u32, i: u32)
    requires IsPow2(n) && i < n <= 0x8000_0000
    ensures SlotIndex(n, i) == i
  {
    MaskOfWrapped(i, n);
    WrapSmall(i);
    DivModUnique(i, 0, i, n);
  }

  lemma SlotsCollide(n: u32)
    requires 0 < n && !IsPow2(n)
    ensures !SlotsDistinct(n)
  {
    var p: u32 := HoleInMask(n - 1);
    WrapSmall(n - 1);
    assert SlotIndex(n, 0) == SlotIndex(n, p);
  }

  /**
    Why a group cut down to a `maxSlots` that is not a power of two is unusable: masking gives the
    slots of a ring distinct places exactly when their number is a power of two.
  */
  lemma SlotsDistinctIffPowerOfTwo(n: u32)
    requires 0 < n <= 0x8000_0000
    ensures IsPow2(n) <==> SlotsDistinct(n)
  {
    if IsPow2(n) {
      forall i: u32, j: u32 | i < j < n
        ensures SlotIndex(n, i) != SlotIndex(n, j)
      {
        SlotIndexOfPowerOfTwo(n, i);
        SlotIndexOfPowerOfTwo(n, j);
      }
    } else {
      SlotsCollide(n);
    }
  }

  lemma GroupSlotsPowerOfTwo(r: nat, n: nat, rlen: nat, sizes: seq<u32>, maxSlots: u32)
    requires IsNumSlots(r, rlen, sizes) && n == Clamp(r, maxSlots)
    ensures IsPow2(n) <==> maxSlots == 0 || r <= maxSlots || IsPow2(maxSlots)
  {
  }

  /** A group's rings give their slots distinct places exactly when `maxSlots` did not cut, or cut to a power of two. */
  lemma GroupSlotsDistinct(r: nat, n: u32, rlen: nat, sizes: seq<u32>, maxSlots: u32)
    requires IsNumSlots(r, rlen, sizes) && n == Clamp(r, maxSlots)
    ensures SlotsDistinct(n) <==> maxSlots == 0 || r <= maxSlots || IsPow2(maxSlots)
  {
    GroupSlotsPowerOfTwo(r, n, rlen, sizes, maxSlots);
    Doubling(r);
    SlotsDistinctIffPowerOfTwo(n);
  }

  /** 124 bytes hold four 4-byte slots; `maxSlots` cuts them to three. */
  lemma ThreeSlots(n: nat)
    requires IsGroupSlots(n, 124, [4], 3)
    ensures n == 3
  {
    var r: nat :| IsNumSlots(r, 124, [4]) && r >= MIN_NUM_SLOTS && n == Clamp(r, 3);
    FourFit(r);
  }

  lemma FourFit(r: nat)
    requires IsNumSlots(r, 124, [4])
    ensures r == 4
  {
    OneRing(2);
    OneRing(4);
    OneRing(8);
    var n := LargestFitExists(124, [4]);
    NumSlotsBelow2G(r, n, 124, [4]);
    assert Pow2(2) == 4;
    PowerOfTwoNearFour(n);
  }

  lemma ItFits()
    ensures forall r: nat :: IsNumSlots(r, 124, [4]) ==> r >= MIN_NUM_SLOTS
  {
    forall r: nat | IsNumSlots(r, 124, [4]) ensures r >= MIN_NUM_SLOTS {
      FourFit(r);
    }
  }

  lemma OneRing(n: nat)
    ensures Total(n, [4]) == 44 + 20 * n
  {
    var sizes: seq<u32> := [4];
    assert sizes[..0] == [];
  }

  lemma PowerOfTwoNearFour(n: nat)
    requires IsLargestFit(n, 124, [4])
    ensures n == 4
  {
    OneRing(n);
    OneRing(2 * n);
    assert n == 1 || n <= 4;
    assert n == SLOTS_CAP || 2 * n > 4;
    assert Pow2(1) == 2 && Pow2(2) == 4;
    OddPow2(3);
  }

  lemma ThreeCollide()
    ensures SlotIndex(3, 0) == SlotIndex(3, 1) && !SlotsDistinct(3)
  {
    MaskIndex(3, 0);
    MaskIndex(3, 1);
    AndStep(1, 2);
    assert And(0, 2) == 0;
  }

  /** Nobody can attach to the first ring of a group whose slot count is not a power of two. */
  lemma GroupRefused(m: Memory, flags: Flags, base: nat, n: u32, sizes: seq<u32>, by': Flags)
    requires |sizes| > 0 && flags.inMemProd && n > 0 && !IsPow2(n) && Total(n, sizes) < WORD
    requires HeadersInPlace(m, flags, base, n, sizes, |sizes|)
    ensures AttachSpec(m, by', base, 0, 0) == Failure(EPROTO)
  {
    assert sizes[..0] == [];
    assert RingAddr(base, n, sizes, 0) == base;
    GroupAttach(m, flags, base, n, sizes, 0, by');
  }

  lemma ThreeIsNoPower()
    ensures !IsPow2(3) && Total(3, [4]) < WORD
  {
    OddPow2(3);
    OneRing(3);
  }

  /** The allocation of that group. */
  method AllocThree(dev: Device, flags: Flags, base: nat, sizes: seq<u32>) returns (n: u32)
    requires sizes == [4]
    modifies dev
    ensures n == 3 && HeadersInPlace(dev.mem, flags.(inMemProd := true), base, n, sizes, |sizes|)
  {
    var res := GroupAlloc(dev, flags, base, 124, sizes, 3);
    assert WordSized(sizes) && res != Failure(EINVAL);
    ItFits();
    assert res != Failure(E2BIG);
    n := res.value.1;
    ThreeSlots(n);
  }

  /**
    A group whose `maxSlots` is not a power of two: the allocation succeeds, the first two slots of its
    ring are one place, and nobody can attach.
  */
  method ThreeSlotGroup(dev: Device, flags: Flags, base: nat) returns (n: u32, att: Result<Xgq, AttachError>)
    modifies dev
    ensures n == 3 && SlotIndex(n, 0) == SlotIndex(n, 1) && !SlotsDistinct(n)
    ensures att == Failure(EPROTO)
  {
    var sizes: seq<u32> := [4];
    n := AllocThree(dev, flags, base, sizes);
    ThreeCollide();
    ThreeIsNoPower();
    GroupRefused(dev.mem, flags.(inMemProd := true), base, n, sizes, flags);
    att := Attach(dev, flags, base, 0, 0);
  }

  // ---------------------------------------------------------------------------------------------
  // From allocation to use
  // ---------------------------------------------------------------------------------------------

  /** A ring between two peers, one of which may be the allocator and the other has attached. */
  ghost predicate Between<T(!new)>(r: Ring<T>, one: Counters, other: Counters, shared: Counters) {
    ((r.prod == one && r.cons == other) || (r.prod == other && r.cons == one)) && r.shared == shared
  }

  lemma WordPowerOfTwo(n: u32)
    requires IsPow2(n)
    ensures n <= 0x8000_0000
  {
    var k: nat :| Pow2(k) == n;
    Pow2Constants();
    if k >= 32 {
      if k > 32 {
        Pow2Monotone(32, k);
      }
    } else if k < 31 {
      Pow2Monotone(k, 31);
    }
  }

  /**
    After an allocation and an attachment, both rings of the queue, whichever side produces, behave over
    every run as a new bounded FIFO. `sq` and `cq` are the rings as the two peers and the shared words
    see them then.
  */
  lemma AttachedQueueIsFifo<T(!new)>(m: Memory, m': Memory, flags: Flags, a: nat, n: u32, slotSz: u32, sqp: nat, cqp: nat,
                                     by': Flags, x: Xgq, y: Xgq, sq: Ring<T>, cq: Ring<T>, ops: seq<Op<T>>)
    requires InitEffect(m, m', flags, a, n, slotSz, sqp, cqp) && x == NewXgq(m, flags, a, n, slotSz, sqp, cqp)
    requires RegistersApart(flags, a, sqp, cqp) && n > 0 && RingLen(n, slotSz) < WORD
    requires (by'.inMemProd ==> flags.inMemProd) && AttachSpec(m', by', a, sqp, cqp) == Success(y)
    requires |sq.slots| == n && Between(sq, x.sq, y.sq, SharedOf(m', x.sqGeo))
    requires |cq.slots| == n && Between(cq, x.cq, y.cq, SharedOf(m', x.cqGeo))
    ensures SlotCountOk(n)
    ensures OutputsAgree(Outputs(sq, ops), FifoOutputs(NewFifo<T>(n), ops), x.sq.consumed, n)
    ensures OutputsAgree(Outputs(cq, ops), FifoOutputs(NewFifo<T>(n), ops), x.cq.consumed, n)
  {
    AttachAfterInit(m, m', flags, a, n, slotSz, sqp, cqp, by');
    SharedAfterInit(m, m', flags, a, n, slotSz, sqp, cqp);
    WordPowerOfTwo(n);
    IdleRefinesNewFifo(sq, x.sq.consumed, ops);
    IdleRefinesNewFifo(cq, x.cq.consumed, ops);
  }

  /** The 32-bit slot product never overflows in a ring shorter than 4 GiB, so slots are where the layout says. */
  lemma SlotAddressIsPart(flags: Flags, base: nat, n: u32, sizes: seq<u32>, i: nat, j: nat, sqp: nat, cqp: nat)
    requires i < |sizes| && j < n && RingLen(n, sizes[i]) < WORD
    ensures var (sq, cq) := InitGeometry(flags, RingAddr(base, n, sizes, i), n, sizes[i], sqp, cqp);
            && sq.SlotAddress(j) == PartStart(base, n, sizes, i, SqSlot(j))
            && cq.SlotAddress(j) == PartStart(base, n, sizes, i, CqSlot(j))
  {
    var slotSz := sizes[i];
    SlotsInside(n, slotSz, j);
    EntriesInside(n, j);
    WrapSmall(slotSz * j);
    WrapSmall(CQ_ENTRY_LEN * j);
  }

  lemma EntriesInside(n: nat, j: nat)
    requires j < n
    ensures 0 <= CQ_ENTRY_LEN * j <= CQ_ENTRY_LEN * n
  {
  }

  /**
    Everything a successful group allocation promises, for buffers below 2 GiB: the group fits in
    the buffer it was given, whatever `maxSlots` is.
  */
  lemma GroupFits(n: nat, rlen: nat, sizes: seq<u32>, maxSlots: u32)
    requires IsGroupSlots(n, rlen, sizes, maxSlots) && rlen < 0x8000_0000 && Total(2, sizes) < WORD
    ensures Total(n, sizes) <= rlen
  {
    var r: nat :| IsNumSlots(r, rlen, sizes) && r >= MIN_NUM_SLOTS && n == Clamp(r, maxSlots);
    ResultFits(r, rlen, sizes);
    TotalMonotone(n, r, sizes);
  }

  lemma ResultFits(r: nat, rlen: nat, sizes: seq<u32>)
    requires IsNumSlots(r, rlen, sizes) && r >= MIN_NUM_SLOTS
    requires rlen < 0x8000_0000 && Total(2, sizes) < WORD
    ensures Total(r, sizes) <= rlen
  {
    var k: nat :| Pow2(k) == r;
    NoWrapBelow2G(k, r, rlen, sizes);
  }
}
