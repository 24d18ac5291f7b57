/**
  Bit fields of registers and descriptors (onic_common.h): a field's position is found from its mask,
  values are put in place by FIELD_SET and combined with `|`, and read back by BITFIELD_GET.
*/
module RegisterFields {
  import opened Arith

  // ---------------------------------------------------------------------------------------------
  // Shifts and `|`, bit by bit
  // ---------------------------------------------------------------------------------------------

  function Shl(x: nat, n: nat): nat {
    if n == 0 then x else 2 * Shl(x, n - 1)
  }

  /** C's `|` on unsigned words. */
  function Or(a: nat, b: nat): nat {
    if a == 0 then b
    else if b == 0 then a
    else (if a % 2 == 1 || b % 2 == 1 then 1 else 0) + 2 * Or(a / 2, b / 2)
  }

  lemma OrStep(a: nat, b: nat)
    ensures Or(a, b) == (if a % 2 == 1 || b % 2 == 1 then 1 else 0) + 2 * Or(a / 2, b / 2)
  {
  }

  lemma WordIsLow(x: nat)
    ensures Low(x, 64) == x <==> x < 0x1_0000_0000_0000_0000
  {
    LowOfSmall(x, 64);
    Pow2Constants();
    Pow2Add(32, 32);
  }

  /** Shifting the low bits right leaves the low bits of the shifted word. */
  lemma {:induction false} ShrLow(x: nat, k: nat, n: nat)
    requires n <= k
    ensures Shr(Low(x, k), n) == Low(Shr(x, n), k - n)
  {
    if n > 0 {
      assert Low(x, k) / 2 == Low(x / 2, k - 1);
      ShrLow(x / 2, k - 1, n - 1);
    }
  }

  lemma {:induction false} ShlShr(x: nat, n: nat)
    ensures Shr(Shl(x, n), n) == x
  {
    if n > 0 {
      assert Shl(x, n) / 2 == Shl(x, n - 1);
      ShlShr(x, n - 1);
    }
  }

  /** Shifting right goes through `&`. */
  lemma {:induction false} ShrAnd(a: nat, b: nat, n: nat)
    ensures Shr(And(a, b), n) == And(Shr(a, n), Shr(b, n))
  {
    if n > 0 {
      AndStep(a, b);
      assert And(a, b) / 2 == And(a / 2, b / 2);
      ShrAnd(a / 2, b / 2, n - 1);
    }
  }

  /** Bits at k and above do not matter under a mask below 2^k. */
  lemma {:induction false} LowUnderMask(a: nat, m: nat, k: nat)
    requires Low(m, k) == m
    ensures And(Low(a, k), m) == And(a, m)
  {
    if k > 0 {
      LowUnderMask(a / 2, m / 2, k - 1);
      AndStep(a, m);
      AndStep(Low(a, k), m);
    }
  }

  /** Masking goes through `|`. */
  lemma {:induction false} MaskOr(a: nat, b: nat, m: nat)
    ensures And(Or(a, b), m) == Or(And(a, m), And(b, m))
    decreases m
  {
    if m > 0 {
      MaskOr(a / 2, b / 2, m / 2);
      MaskOrStep(a, b, m);
    }
  }

  lemma AndHalves(a: nat, b: nat)
    ensures And(a, b) / 2 == And(a / 2, b / 2)
    ensures And(a, b) % 2 == 1 <==> a % 2 == 1 && b % 2 == 1
  {
    AndStep(a, b);
  }

  lemma OrHalves(a: nat, b: nat)
    ensures Or(a, b) / 2 == Or(a / 2, b / 2)
    ensures Or(a, b) % 2 == 1 <==> a % 2 == 1 || b % 2 == 1
  {
    OrStep(a, b);
  }

  lemma SameHalves(x: nat, y: nat)
    requires x / 2 == y / 2 && (x % 2 == 1 <==> y % 2 == 1)
    ensures x == y
  {
  }

  lemma MaskOrStep(a: nat, b: nat, m: nat)
    requires And(Or(a / 2, b / 2), m / 2) == Or(And(a / 2, m / 2), And(b / 2, m / 2))
    ensures And(Or(a, b), m) == Or(And(a, m), And(b, m))
  {
    var o, am, bm := Or(a, b), And(a, m), And(b, m);
    OrHalves(a, b);
    AndHalves(a, m);
    AndHalves(b, m);
    AndHalves(o, m);
    OrHalves(am, bm);
    SameHalves(And(o, m), Or(am, bm));
  }

  /** What lies inside one mask is invisible under a disjoint one. */
  lemma {:induction false} MaskedElsewhere(a: nat, m: nat, m': nat)
    requires And(m, m') == 0
    ensures And(And(a, m), m') == 0
    decreases m
  {
    if m > 0 {
      AndStep(m, m');
      AndStep(a, m);
      MaskedElsewhere(a / 2, m / 2, m' / 2);
      AndStep(And(a, m), m');
    }
  }

  lemma {:induction false} MaskTwice(a: nat, m: nat)
    ensures And(And(a, m), m) == And(a, m)
    decreases m
  {
    if m > 0 {
      AndStep(a, m);
      MaskTwice(a / 2, m / 2);
      AndStep(And(a, m), m);
    }
  }

  lemma {:induction false} OrIsLow(a: nat, b: nat, k: nat)
    requires Low(a, k) == a && Low(b, k) == b
    ensures Low(Or(a, b), k) == Or(a, b)
  {
    if k > 0 {
      OrIsLow(a / 2, b / 2, k - 1);
      OrStep(a, b);
    }
  }

  // ---------------------------------------------------------------------------------------------
  // get_trailing_zeros
  // ---------------------------------------------------------------------------------------------

  /** How often 2 divides x. */
  function TrailingZeros(x: nat): nat
    requires x > 0
  {
    if x % 2 == 1 then 0 else 1 + TrailingZeros(x / 2)
  }

  /** The lowest set bit of x is bit n: everything below is zero, so 2^n is the largest power of two dividing x. */
  lemma {:induction false} TrailingZerosExact(x: nat, n: nat)
    requires x > 0
    ensures TrailingZeros(x) == n <==> x == Shl(Shr(x, n), n) && Shr(x, n) % 2 == 1
  {
    if n > 0 {
      TrailingZerosExact(if x % 2 == 0 then x / 2 else 1, n - 1);
      ShlIsEven(Shr(x, n), n);
    }
  }

  lemma ShlIsEven(y: nat, n: nat)
    requires n > 0
    ensures Shl(y, n) % 2 == 0 && Shl(y, n) / 2 == Shl(y, n - 1)
  {
  }

  /** A factor 2^k can be shifted out first. */
  lemma {:induction false} ZerosShiftOut(x: nat, k: nat)
    requires x > 0 && Low(x, k) == 0
    ensures Shr(x, k) > 0 && TrailingZeros(x) == k + TrailingZeros(Shr(x, k))
  {
    if k > 0 {
      ZerosShiftOut(x / 2, k - 1);
    }
  }

  lemma {:induction false} LowZeroSplits(x: nat, k: nat, j: nat)
    ensures Low(x, k + j) == 0 <==> Low(x, k) == 0 && Low(Shr(x, k), j) == 0
  {
    if k > 0 {
      LowZeroSplits(x / 2, k - 1, j);
    }
  }

  /** What one step of get_trailing_zeros makes of the remaining word and the count. */
  datatype Scan = Scan(x: nat, n: nat)

  function Halved(s: Scan, k: nat): Scan {
    if Low(s.x, k) == 0 then Scan(Shr(s.x, k), s.n + k) else s
  }

  /** The count so far and the zeros left add up to those of the whole mask; some of the low k bits are set. */
  predicate OnTrack(s: Scan, mask: nat, k: nat)
    requires mask > 0
  {
    Low(s.x, k) != 0 && s.x > 0 && s.n >= 1 && TrailingZeros(mask) == s.n - 1 + TrailingZeros(s.x)
  }

  lemma HalvedOnTrack(s: Scan, mask: nat, k: nat)
    requires mask > 0 && OnTrack(s, mask, k + k)
    ensures OnTrack(Halved(s, k), mask, k)
  {
    LowZeroSplits(s.x, k, k);
    if Low(s.x, k) == 0 {
      ZerosShiftOut(s.x, k);
    }
  }

  /** One step: the test `x & (2^k - 1)` and, when it is zero, the shift by k. */
  method Halve(s: Scan, k: nat) returns (r: Scan)
    ensures r == Halved(s, k)
  {
    AndOnes(s.x, k);
    r := s;
    if And(s.x, Ones(k)) == 0 {
      r := Scan(Shr(s.x, k), s.n + k);
    }
  }

  function Halvings(mask: nat): Scan {
    Halved(Halved(Halved(Halved(Halved(Scan(mask, 1), 32), 16), 8), 4), 2)
  }

  lemma HalvingsOnTrack(mask: u64)
    requires mask > 0
    ensures OnTrack(Halvings(mask), mask, 2)
  {
    WordIsLow(mask);
    var s0 := Scan(mask, 1);
    var s1 := Halved(s0, 32);
    var s2 := Halved(s1, 16);
    var s3 := Halved(s2, 8);
    var s4 := Halved(s3, 4);
    HalvedOnTrack(s0, mask, 32);
    HalvedOnTrack(s1, mask, 16);
    HalvedOnTrack(s2, mask, 8);
    HalvedOnTrack(s3, mask, 4);
    HalvedOnTrack(s4, mask, 2);
  }

  lemma LastBit(s: Scan, mask: nat)
    requires mask > 0 && OnTrack(s, mask, 2)
    ensures TrailingZeros(mask) == s.n - s.x % 2
  {
    assert Low(s.x, 2) == s.x % 2 + 2 * ((s.x / 2) % 2 + 2 * Low(s.x / 2 / 2, 0));
    if s.x % 2 == 0 {
      assert (s.x / 2) % 2 == 1;
      assert TrailingZeros(s.x / 2) == 0;
      assert TrailingZeros(s.x) == 1;
    }
  }

  /** get_trailing_zeros: five halving steps and a last look at bit 0. */
  method GetTrailingZeros(mask: u64) returns (r: nat)
    ensures mask > 0 ==> r == TrailingZeros(mask)
    ensures mask == 0 ==> r == 63
  {
    var s := Scan(mask, 1);
    s := Halve(s, 32);
    s := Halve(s, 16);
    s := Halve(s, 8);
    s := Halve(s, 4);
    s := Halve(s, 2);
    if mask > 0 {
      HalvingsOnTrack(mask);
      LastBit(s, mask);
    } else {
      ZeroMask();
    }
    AndOnes(s.x, 1);
    return s.n - And(s.x, Ones(1));
  }

  lemma ZeroMask()
    ensures Halvings(0) == Scan(0, 63)
  {
    LowOfSmall(0, 32);
    LowOfSmall(0, 16);
    LowOfSmall(0, 8);
    ShrZero(32);
    ShrZero(16);
    ShrZero(8);
    ShrZero(4);
    LowOfSmall(0, 4);
    LowOfSmall(0, 2);
    ShrZero(2);
  }

  lemma {:induction false} ShrZero(n: nat)
    ensures Shr(0, n) == 0
  {
    if n > 0 {
      ShrZero(n - 1);
    }
  }

  // ---------------------------------------------------------------------------------------------
  // Fields
  // ---------------------------------------------------------------------------------------------

  lemma {:induction false} TrailingZerosBound(x: nat, k: nat)
    requires 0 < x && Low(x, k) == x
    ensures TrailingZeros(x) < k
  {
    if k > 0 && x % 2 == 0 {
      TrailingZerosBound(x / 2, k - 1);
    }
  }

  /** FIELD_SHIFT. */
  function FieldShift(mask: u64): (n: nat)
    ensures n < 64
  {
    if mask == 0 then 63
    else
      WordIsLow(mask);
      TrailingZerosBound(mask, 64);
      TrailingZeros(mask)
  }

  /** FIELD_SET: the shift is in 64 bits. */
  function FieldSet(mask: u64, val: u64): (f: u64) {
    And(Low(Shl(val, FieldShift(mask)), 64), mask)
  }

  /** BITFIELD_GET. */
  function BitfieldGet(mask: u64, reg: nat): nat {
    Shr(And(reg, mask), FieldShift(mask))
  }

  /** What of a value the field has room for. */
  function Room(mask: u64, val: u64): nat {
    And(val, Shr(mask, FieldShift(mask)))
  }

  /** Shifted into place and back, a value comes out as what the field has room for. */
  lemma SetThenShift(mask: u64, val: u64)
    ensures Shr(FieldSet(mask, val), FieldShift(mask)) == Room(mask, val)
  {
    var n := FieldShift(mask);
    var placed := Low(Shl(val, n), 64);
    ShrAnd(placed, mask, n);
    ShrLow(Shl(val, n), 64, n);
    ShlShr(val, n);
    assert Shr(placed, n) == Low(val, 64 - n);
    WordIsLow(mask);
    ShrLow(mask, 64, n);
    LowUnderMask(val, Shr(mask, n), 64 - n);
  }

  datatype Field = Field(mask: u64, val: u64)

  /** A register put together from its fields: the `|` of all FIELD_SET terms. */
  function Pack(fields: seq<Field>): nat {
    if fields == [] then 0 else Or(FieldSet(fields[0].mask, fields[0].val), Pack(fields[1..]))
  }

  ghost predicate Disjoint(fields: seq<Field>) {
    forall i, j :: 0 <= i < |fields| && 0 <= j < |fields| && i != j ==> And(fields[i].mask, fields[j].mask) == 0
  }

  lemma SetElsewhere(mask: u64, val: u64, m: u64)
    requires And(mask, m) == 0
    ensures And(FieldSet(mask, val), m) == 0
  {
    MaskedElsewhere(Low(Shl(val, FieldShift(mask)), 64), mask, m);
  }

  /** A field whose mask meets none of the others is not touched by them. */
  lemma {:induction false} OthersLeaveField(fields: seq<Field>, m: u64)
    requires forall i :: 0 <= i < |fields| ==> And(fields[i].mask, m) == 0
    ensures And(Pack(fields), m) == 0
  {
    if fields != [] {
      OthersLeaveField(fields[1..], m);
      SetElsewhere(fields[0].mask, fields[0].val, m);
      MaskOr(FieldSet(fields[0].mask, fields[0].val), Pack(fields[1..]), m);
    }
  }

  lemma {:induction false} PackKeepsField(fields: seq<Field>, i: nat)
    requires i < |fields| && Disjoint(fields)
    ensures And(Pack(fields), fields[i].mask) == FieldSet(fields[i].mask, fields[i].val)
  {
    var f, m := fields[0], fields[i].mask;
    MaskOr(FieldSet(f.mask, f.val), Pack(fields[1..]), m);
    if i == 0 {
      OthersLeaveField(fields[1..], m);
      MaskTwice(Low(Shl(f.val, FieldShift(m)), 64), m);
    } else {
      PackKeepsField(fields[1..], i - 1);
      SetElsewhere(f.mask, f.val, m);
    }
  }

  lemma {:induction false} PackFits(fields: seq<Field>, k: nat)
    requires forall i :: 0 <= i < |fields| ==> fields[i].mask < Pow2(k)
    ensures Pack(fields) < Pow2(k)
  {
    if fields != [] {
      PackFits(fields[1..], k);
      var f := FieldSet(fields[0].mask, fields[0].val);
      LowOfSmall(f, k);
      LowOfSmall(Pack(fields[1..]), k);
      OrIsLow(f, Pack(fields[1..]), k);
      LowOfSmall(Or(f, Pack(fields[1..])), k);
    }
  }

  /**
    For disjoint masks, reading a field of the packed register gives what of the value the field has
    room for; so it gives the value back exactly when all of it fits.
  */
  lemma FieldsRecovered(fields: seq<Field>, i: nat)
    requires i < |fields| && Disjoint(fields)
    ensures BitfieldGet(fields[i].mask, Pack(fields)) == Room(fields[i].mask, fields[i].val)
  {
    PackKeepsField(fields, i);
    SetThenShift(fields[i].mask, fields[i].val);
  }

  // ---------------------------------------------------------------------------------------------
  // Contiguous masks
  // ---------------------------------------------------------------------------------------------

  lemma {:induction false} MaskBelow(width: nat, lo: nat)
    ensures Shl(Ones(width), lo) < Pow2(lo + width)
  {
    if lo > 0 {
      MaskBelow(width, lo - 1);
    } else if width > 0 {
      MaskBelow(width - 1, 0);
    }
  }

  /** GENMASK(hi, lo) and, for hi == lo, BIT(lo). */
  function GenMask(hi: nat, lo: nat): (m: u64)
    requires lo <= hi < 64
  {
    MaskBelow(hi - lo + 1, lo);
    PowersBelow(hi + 1, 64);
    WordIsLow(0);
    Shl(Ones(hi - lo + 1), lo)
  }

  lemma PowersBelow(k: nat, n: nat)
    requires k <= n
    ensures Pow2(k) <= Pow2(n)
    ensures Pow2(64) == 0x1_0000_0000_0000_0000
  {
    if k < n {
      Pow2Monotone(k, n);
    }
    Pow2Constants();
    Pow2Add(32, 32);
  }

  lemma {:induction false} ZerosOfShl(x: nat, n: nat)
    requires x % 2 == 1
    ensures Shl(x, n) > 0 && TrailingZeros(Shl(x, n)) == n
  {
    if n > 0 {
      ZerosOfShl(x, n - 1);
    }
  }

  /** A contiguous mask is shifted by its lowest bit and has room for as many bits as it is wide. */
  lemma GenMaskRoom(hi: nat, lo: nat, val: u64)
    requires lo <= hi < 64
    ensures FieldShift(GenMask(hi, lo)) == lo
    ensures Room(GenMask(hi, lo), val) == Low(val, hi - lo + 1)
  {
    ZerosOfShl(Ones(hi - lo + 1), lo);
    ShlShr(Ones(hi - lo + 1), lo);
    AndOnes(val, hi - lo + 1);
  }

  lemma {:induction false} AndCommutes(a: nat, b: nat)
    ensures And(a, b) == And(b, a)
  {
    if a > 0 && b > 0 {
      AndCommutes(a / 2, b / 2);
    }
  }

  lemma {:induction false} LowOfShl(x: nat, n: nat, k: nat)
    requires k <= n
    ensures Low(Shl(x, n), k) == 0
  {
    if k > 0 {
      ShlIsEven(x, n);
      LowOfShl(x, n - 1, k - 1);
    }
  }

  lemma {:induction false} MasksApart(width: nat, lo: nat, x: nat, lo': nat)
    requires lo + width <= lo'
    ensures And(Shl(Ones(width), lo), Shl(x, lo')) == 0
  {
    if lo > 0 {
      ShlIsEven(Ones(width), lo);
      ShlIsEven(x, lo');
      MasksApart(width, lo - 1, x, lo' - 1);
      AndStep(Shl(Ones(width), lo), Shl(x, lo'));
    } else {
      AndCommutes(Ones(width), Shl(x, lo'));
      AndOnes(Shl(x, lo'), width);
      LowOfShl(x, lo', width);
    }
  }

  /** Bits hi down to lo of a word. */
  datatype Bits = Bits(hi: nat, lo: nat)

  predicate InWord(b: Bits) {
    b.lo <= b.hi < 64
  }

  predicate Separate(b: Bits, b': Bits) {
    b.hi < b'.lo || b'.hi < b.lo
  }

  function Width(b: Bits): nat
    requires InWord(b)
  {
    b.hi - b.lo + 1
  }

  function MaskOf(b: Bits): u64
    requires InWord(b)
  {
    GenMask(b.hi, b.lo)
  }

  /** The value written to some bits of a word. */
  datatype Part = Part(bits: Bits, val: u64)

  ghost predicate WellPlaced(parts: seq<Part>) {
    && (forall i :: 0 <= i < |parts| ==> InWord(parts[i].bits))
    && (forall i, j :: 0 <= i < |parts| && 0 <= j < |parts| && i != j ==> Separate(parts[i].bits, parts[j].bits))
  }

  function FieldsOf(parts: seq<Part>): (f: seq<Field>)
    requires forall i :: 0 <= i < |parts| ==> InWord(parts[i].bits)
    ensures |f| == |parts| && forall i :: 0 <= i < |parts| ==> f[i] == Field(MaskOf(parts[i].bits), parts[i].val)
  {
    seq(|parts|, i requires 0 <= i < |parts| => Field(MaskOf(parts[i].bits), parts[i].val))
  }

  /** The word with all its parts in place. */
  function Word(parts: seq<Part>): nat
    requires forall i :: 0 <= i < |parts| ==> InWord(parts[i].bits)
  {
    Pack(FieldsOf(parts))
  }

  function Read(b: Bits, reg: nat): nat
    requires InWord(b)
  {
    BitfieldGet(MaskOf(b), reg)
  }

  lemma {:induction false} LowBits(x: nat, k: nat)
    ensures Low(x, k) == x % Pow2(k) && Shr(x, k) == x / Pow2(k)
  {
    LowAndRest(x, k);
    LowOfSmall(x, k);
    DivModUnique(x, Shr(x, k), Low(x, k), Pow2(k));
  }

  /** Reading bits hi down to lo of any word is dividing by 2^lo and keeping the remainder modulo 2^width. */
  lemma ReadIsDivMod(b: Bits, reg: nat, lo: nat, width: nat)
    requires InWord(b) && lo == Pow2(b.lo) && width == Pow2(Width(b))
    ensures Read(b, reg) == reg / lo % width
  {
    GenMaskRoom(b.hi, b.lo, 0);
    ShrAnd(reg, MaskOf(b), b.lo);
    ShlShr(Ones(Width(b)), b.lo);
    AndOnes(Shr(reg, b.lo), Width(b));
    LowBits(reg, b.lo);
    LowBits(Shr(reg, b.lo), Width(b));
  }

  lemma MasksDisjoint(b: Bits, b': Bits)
    requires InWord(b) && InWord(b') && Separate(b, b')
    ensures And(MaskOf(b), MaskOf(b')) == 0
  {
    if b.hi < b'.lo {
      MasksApart(Width(b), b.lo, Ones(Width(b')), b'.lo);
    } else {
      MasksApart(Width(b'), b'.lo, Ones(Width(b)), b.lo);
      AndCommutes(MaskOf(b), MaskOf(b'));
    }
  }

  lemma FieldsApart(parts: seq<Part>)
    requires WellPlaced(parts)
    ensures Disjoint(FieldsOf(parts))
  {
    var fields := FieldsOf(parts);
    forall a, b | 0 <= a < |fields| && 0 <= b < |fields| && a != b ensures And(fields[a].mask, fields[b].mask) == 0 {
      MasksDisjoint(parts[a].bits, parts[b].bits);
    }
  }

  /**
    A word written as the `|` of contiguous fields that do not overlap shows in each field the low bits
    of its value, as many as the field is wide: the value itself exactly when that is narrow enough.
  */
  lemma PartsRecovered(parts: seq<Part>, i: nat)
    requires i < |parts| && WellPlaced(parts)
    ensures Read(parts[i].bits, Word(parts)) == Low(parts[i].val, Width(parts[i].bits))
    ensures Read(parts[i].bits, Word(parts)) == parts[i].val <==> parts[i].val < Pow2(Width(parts[i].bits))
  {
    FieldsApart(parts);
    FieldsRecovered(FieldsOf(parts), i);
    GenMaskRoom(parts[i].bits.hi, parts[i].bits.lo, parts[i].val);
    LowOfSmall(parts[i].val, Width(parts[i].bits));
  }

  /** A value narrower than its field is read back as it was written. */
  lemma ValueShown(parts: seq<Part>, i: nat, b: Bits, val: u64, width: nat)
    requires i < |parts| && WellPlaced(parts) && parts[i] == Part(b, val) && width == Width(b)
    ensures Read(b, Word(parts)) == val <==> val < Pow2(width)
  {
    PartsRecovered(parts, i);
  }

  lemma MaskBound(b: Bits, k: nat)
    requires InWord(b) && b.hi < k
    ensures MaskOf(b) < Pow2(k)
  {
    MaskBelow(Width(b), b.lo);
    PowersBelow(b.hi + 1, k);
  }

  /** It has no bit above its highest field. */
  lemma WordBound(parts: seq<Part>, k: nat)
    requires (forall j :: 0 <= j < |parts| ==> InWord(parts[j].bits)) && forall j :: 0 <= j < |parts| ==> parts[j].bits.hi < k
    ensures Word(parts) < Pow2(k)
  {
    var fields := FieldsOf(parts);
    forall j | 0 <= j < |fields| ensures fields[j].mask < Pow2(k) {
      MaskBound(parts[j].bits, k);
    }
    PackFits(fields, k);
  }

  // ---------------------------------------------------------------------------------------------
  // The registers and descriptors
  // ---------------------------------------------------------------------------------------------

  const CMPL_CIDX := Bits(15, 0)
  const CMPL_COUNTER_IDX := Bits(19, 16)
  const CMPL_TIMER_IDX := Bits(23, 20)
  const CMPL_TRIG_MODE := Bits(26, 24)
  const CMPL_STAT_EN := Bits(27, 27)
  const CMPL_IRQ_ARM := Bits(28, 28)
  const QCONF_QBASE := Bits(31, 16)
  const QCONF_NUMQ := Bits(15, 0)

  const WB_PIDX := Bits(15, 0)
  const WB_CIDX := Bits(31, 16)
  const WB_REST := Bits(63, 32)

  const CMPL_BIT0 := Bits(0, 0)
  const CMPL_COLOR := Bits(1, 1)
  const CMPL_ERR := Bits(2, 2)
  const CMPL_REST := Bits(31, 3)
  const CMPL_PKT_LEN := Bits(47, 32)
  const CMPL_PKT_ID := Bits(63, 48)

  const STAT_PIDX := Bits(15, 0)
  const STAT_CIDX := Bits(31, 16)
  const STAT_COLOR := Bits(32, 32)
  const STAT_INTR_STATE := Bits(34, 33)
  const STAT_REST := Bits(63, 35)

  lemma WidthFacts()
    ensures Pow2(1) == 2 && Pow2(2) == 4 && Pow2(3) == 8 && Pow2(4) == 16 && Pow2(16) == 0x1_0000 && Pow2(32) == WORD
  {
    Pow2Constants();
    assert Pow2(4) == 16;
    Pow2Add(4, 4);
    Pow2Add(8, 8);
  }

  /** onic_qdma_set_cmpl_cidx; onic_vf_set_completion_tail writes CompletionIndex(tail, 0, 0, 5, 1, irqArm). */
  function CompletionIndex(cidx: u16, counterIdx: u8, timerIdx: u8, trigMode: u8, statEn: u8, irqArm: u8): seq<Part> {
    [Part(CMPL_CIDX, cidx), Part(CMPL_COUNTER_IDX, counterIdx), Part(CMPL_TIMER_IDX, timerIdx),
     Part(CMPL_TRIG_MODE, trigMode), Part(CMPL_STAT_EN, statEn), Part(CMPL_IRQ_ARM, irqArm)]
  }

  lemma PowerFacts()
    ensures Pow2(0) == 1 && Pow2(20) == 0x10_0000 && Pow2(24) == 0x100_0000 && Pow2(27) == 0x800_0000 && Pow2(28) == 0x1000_0000
    ensures Pow2(33) == 0x2_0000_0000 && Pow2(48) == 0x1_0000_0000_0000
  {
    WidthFacts();
    Pow2Add(16, 4);
    Pow2Add(20, 4);
    Pow2Add(24, 3);
    Pow2Add(27, 1);
    Pow2Add(32, 1);
    Pow2Add(32, 16);
  }

  /** The parts of a completion-index register, as a word shows them. */
  ghost predicate ShowsIndex(reg: nat, cidx: u16, counterIdx: u8, timerIdx: u8, trigMode: u8, statEn: u8, irqArm: u8) {
    && Read(CMPL_CIDX, reg) == cidx
    && (Read(CMPL_COUNTER_IDX, reg) == counterIdx <==> counterIdx < 16)
    && (Read(CMPL_TIMER_IDX, reg) == timerIdx <==> timerIdx < 16)
    && (Read(CMPL_TRIG_MODE, reg) == trigMode <==> trigMode < 8)
    && (Read(CMPL_STAT_EN, reg) == statEn <==> statEn < 2)
    && (Read(CMPL_IRQ_ARM, reg) == irqArm <==> irqArm < 2)
  }

  lemma IndexLowShown(parts: seq<Part>, cidx: u16, counterIdx: u8, timerIdx: u8, trigMode: u8, statEn: u8, irqArm: u8)
    requires parts == CompletionIndex(cidx, counterIdx, timerIdx, trigMode, statEn, irqArm) && WellPlaced(parts)
    ensures Read(CMPL_CIDX, Word(parts)) == cidx
    ensures Read(CMPL_COUNTER_IDX, Word(parts)) == counterIdx <==> counterIdx < 16
    ensures Read(CMPL_TIMER_IDX, Word(parts)) == timerIdx <==> timerIdx < 16
  {
    WidthFacts();
    ValueShown(parts, 0, CMPL_CIDX, cidx, 16);
    ValueShown(parts, 1, CMPL_COUNTER_IDX, counterIdx, 4);
    ValueShown(parts, 2, CMPL_TIMER_IDX, timerIdx, 4);
  }

  lemma IndexHighShown(parts: seq<Part>, cidx: u16, counterIdx: u8, timerIdx: u8, trigMode: u8, statEn: u8, irqArm: u8)
    requires parts == CompletionIndex(cidx, counterIdx, timerIdx, trigMode, statEn, irqArm) && WellPlaced(parts)
    ensures Read(CMPL_TRIG_MODE, Word(parts)) == trigMode <==> trigMode < 8
    ensures Read(CMPL_STAT_EN, Word(parts)) == statEn <==> statEn < 2
    ensures Read(CMPL_IRQ_ARM, Word(parts)) == irqArm <==> irqArm < 2
  {
    WidthFacts();
    ValueShown(parts, 3, CMPL_TRIG_MODE, trigMode, 3);
    ValueShown(parts, 4, CMPL_STAT_EN, statEn, 1);
    ValueShown(parts, 5, CMPL_IRQ_ARM, irqArm, 1);
  }

  lemma IndexPlaced(cidx: u16, counterIdx: u8, timerIdx: u8, trigMode: u8, statEn: u8, irqArm: u8)
    ensures WellPlaced(CompletionIndex(cidx, counterIdx, timerIdx, trigMode, statEn, irqArm))
    ensures forall i :: 0 <= i < 6 ==> CompletionIndex(cidx, counterIdx, timerIdx, trigMode, statEn, irqArm)[i].bits.hi < 32
  {
  }

  /** The completion-index register fits 32 bits and shows the tail and every setting that fits its field as written. */
  lemma CompletionIndexRead(cidx: u16, counterIdx: u8, timerIdx: u8, trigMode: u8, statEn: u8, irqArm: u8)
    ensures WellPlaced(CompletionIndex(cidx, counterIdx, timerIdx, trigMode, statEn, irqArm))
    ensures var reg := Word(CompletionIndex(cidx, counterIdx, timerIdx, trigMode, statEn, irqArm));
            reg < WORD && ShowsIndex(reg, cidx, counterIdx, timerIdx, trigMode, statEn, irqArm)
  {
    var parts := CompletionIndex(cidx, counterIdx, timerIdx, trigMode, statEn, irqArm);
    IndexPlaced(cidx, counterIdx, timerIdx, trigMode, statEn, irqArm);
    IndexLowShown(parts, cidx, counterIdx, timerIdx, trigMode, statEn, irqArm);
    IndexHighShown(parts, cidx, counterIdx, timerIdx, trigMode, statEn, irqArm);
    WordBound(parts, 32);
    Pow2Constants();
  }

  lemma IndexPlaces(reg: nat)
    ensures Read(CMPL_CIDX, reg) == reg % 0x1_0000
    ensures Read(CMPL_COUNTER_IDX, reg) == reg / 0x1_0000 % 16
    ensures Read(CMPL_TIMER_IDX, reg) == reg / 0x10_0000 % 16
    ensures Read(CMPL_TRIG_MODE, reg) == reg / 0x100_0000 % 8
    ensures Read(CMPL_STAT_EN, reg) == reg / 0x800_0000 % 2
    ensures Read(CMPL_IRQ_ARM, reg) == reg / 0x1000_0000 % 2
  {
    WidthFacts();
    PowerFacts();
    ReadIsDivMod(CMPL_CIDX, reg, 1, 0x1_0000);
    ReadIsDivMod(CMPL_COUNTER_IDX, reg, 0x1_0000, 16);
    ReadIsDivMod(CMPL_TIMER_IDX, reg, 0x10_0000, 16);
    ReadIsDivMod(CMPL_TRIG_MODE, reg, 0x100_0000, 8);
    ReadIsDivMod(CMPL_STAT_EN, reg, 0x800_0000, 2);
    ReadIsDivMod(CMPL_IRQ_ARM, reg, 0x1000_0000, 2);
  }

  /** The number onic_vf_set_completion_tail writes: the tail, trigger mode 5, status on, and the arm bit. */
  lemma CompletionTailWord(cidx: u16, irqArm: u8)
    requires irqArm <= 1
    ensures Word(CompletionIndex(cidx, 0, 0, 5, 1, irqArm)) == cidx + 5 * 0x100_0000 + 0x800_0000 + irqArm * 0x1000_0000
  {
    TailDigits(cidx, 0, 0, 5, 1, irqArm);
    DigitsAddUp(Word(CompletionIndex(cidx, 0, 0, 5, 1, irqArm)), cidx, irqArm);
  }

  lemma TailDigits(cidx: u16, counterIdx: u8, timerIdx: u8, trigMode: u8, statEn: u8, irqArm: u8)
    requires counterIdx < 16 && timerIdx < 16 && trigMode < 8 && statEn < 2 && irqArm < 2
    ensures var reg := Word(CompletionIndex(cidx, counterIdx, timerIdx, trigMode, statEn, irqArm));
            && reg < 0x2000_0000 && reg % 0x1_0000 == cidx
            && reg / 0x1_0000 % 16 == counterIdx && reg / 0x10_0000 % 16 == timerIdx
            && reg / 0x100_0000 % 8 == trigMode && reg / 0x800_0000 % 2 == statEn && reg / 0x1000_0000 % 2 == irqArm
  {
    var parts := CompletionIndex(cidx, counterIdx, timerIdx, trigMode, statEn, irqArm);
    CompletionIndexRead(cidx, counterIdx, timerIdx, trigMode, statEn, irqArm);
    IndexPlaces(Word(parts));
    IndexBits(parts, cidx, counterIdx, timerIdx, trigMode, statEn, irqArm);
    WordBound(parts, 29);
    Pow2Add(28, 1);
    PowerFacts();
  }

  lemma IndexBits(parts: seq<Part>, cidx: u16, counterIdx: u8, timerIdx: u8, trigMode: u8, statEn: u8, irqArm: u8)
    requires parts == CompletionIndex(cidx, counterIdx, timerIdx, trigMode, statEn, irqArm)
    ensures forall j :: 0 <= j < |parts| ==> InWord(parts[j].bits) && parts[j].bits.hi < 29
  {
  }

  lemma DigitsAddUp(reg: nat, cidx: nat, irqArm: nat)
    requires reg < 0x2000_0000 && reg % 0x1_0000 == cidx
    requires reg / 0x1_0000 % 16 == 0 && reg / 0x10_0000 % 16 == 0
    requires reg / 0x100_0000 % 8 == 5 && reg / 0x800_0000 % 2 == 1 && reg / 0x1000_0000 % 2 == irqArm
    ensures reg == cidx + 5 * 0x100_0000 + 0x800_0000 + irqArm * 0x1000_0000
  {
    assert reg / 0x1000_0000 == irqArm;
    assert reg / 0x800_0000 == 1 + 2 * irqArm;
    assert reg / 0x100_0000 == 5 + 8 * (reg / 0x800_0000);
    assert reg / 0x10_0000 == 16 * (reg / 0x100_0000);
    assert reg / 0x1_0000 == 16 * (reg / 0x10_0000);
  }

  /** The function map entry of the shell that onic_init_hardware writes. */
  function QueueMap(qbase: u16, qmax: u16): seq<Part> {
    [Part(QCONF_QBASE, qbase), Part(QCONF_NUMQ, qmax)]
  }

  lemma QueueMapShown(parts: seq<Part>, qbase: u16, qmax: u16)
    requires parts == QueueMap(qbase, qmax) && WellPlaced(parts)
    ensures Read(QCONF_QBASE, Word(parts)) == qbase && Read(QCONF_NUMQ, Word(parts)) == qmax
  {
    WidthFacts();
    ValueShown(parts, 0, QCONF_QBASE, qbase, 16);
    ValueShown(parts, 1, QCONF_NUMQ, qmax, 16);
  }

  /** The shell's function map register fits 32 bits and shows base and count as written. */
  lemma QueueMapRead(qbase: u16, qmax: u16)
    ensures WellPlaced(QueueMap(qbase, qmax))
    ensures var reg := Word(QueueMap(qbase, qmax));
            reg < WORD && Read(QCONF_QBASE, reg) == qbase && Read(QCONF_NUMQ, reg) == qmax
  {
    QueueMapShown(QueueMap(qbase, qmax), qbase, qmax);
    WordBound(QueueMap(qbase, qmax), 32);
    Pow2Constants();
  }

  /** As a number it is the base in the upper half and the count in the lower. */
  lemma QueueMapWord(qbase: u16, qmax: u16)
    ensures Word(QueueMap(qbase, qmax)) == qbase * 0x1_0000 + qmax
  {
    var reg := Word(QueueMap(qbase, qmax));
    QueueMapRead(qbase, qmax);
    WidthFacts();
    PowerFacts();
    ReadIsDivMod(QCONF_QBASE, reg, 0x1_0000, 0x1_0000);
    ReadIsDivMod(QCONF_NUMQ, reg, 1, 0x1_0000);
    HalvesAddUp(reg, qbase, qmax, 0x1_0000, 0x1_0000);
  }

  lemma HalvesAddUp(reg: nat, hi: nat, lo: nat, n: nat, m: nat)
    requires n > 0 && m > 0 && reg < n * m && reg / n % m == hi && reg % n == lo
    ensures reg == hi * n + lo
  {
    var q := reg / n;
    assert reg == q * n + lo;
    if q >= m {
      MulMono(m, q, n);
    }
    DivModUnique(q, 0, q, m);
  }

  // qdma_pack_h2c_st_desc
  const DESC_METADATA := Bits(31, 0)
  const DESC_LEN := Bits(47, 32)

  /** The first quadword of a transmit descriptor; the second is the address. */
  function DescriptorWord(metadata: u32, len: u16): seq<Part> {
    [Part(DESC_METADATA, metadata), Part(DESC_LEN, len)]
  }

  lemma DescriptorShown(parts: seq<Part>, metadata: u32, len: u16)
    requires parts == DescriptorWord(metadata, len) && WellPlaced(parts)
    ensures Read(DESC_METADATA, Word(parts)) == metadata && Read(DESC_LEN, Word(parts)) == len
  {
    WidthFacts();
    ValueShown(parts, 0, DESC_METADATA, metadata, 32);
    ValueShown(parts, 1, DESC_LEN, len, 16);
  }

  /** As a number it is the length above the 32 bits of metadata, with nothing in the other bits. */
  lemma DescriptorPacked(metadata: u32, len: u16)
    ensures WellPlaced(DescriptorWord(metadata, len))
    ensures Word(DescriptorWord(metadata, len)) == len * 0x1_0000_0000 + metadata
  {
    var parts := DescriptorWord(metadata, len);
    var reg := Word(parts);
    DescriptorShown(parts, metadata, len);
    WordBound(parts, 48);
    WidthFacts();
    PowerFacts();
    ReadIsDivMod(DESC_METADATA, reg, 1, WORD);
    ReadIsDivMod(DESC_LEN, reg, WORD, 0x1_0000);
    HalvesAddUp(reg, len, metadata, WORD, 0x1_0000);
  }

  datatype WbStat = WbStat(pidx: u16, cidx: u16)

  datatype Completion = Completion(color: u8, err: u8, pktLen: u16, pktId: u16)

  datatype CompletionStat = CompletionStat(pidx: u16, cidx: u16, color: u8, intrState: u8)

  /** Storing a field in a narrower structure member. */
  function Cut16(x: nat): u16 {
    x % 0x1_0000
  }

  function Cut8(x: nat): u8 {
    x % 0x100
  }

  /** qdma_unpack_wb_stat. */
  function UnpackWbStat(dw: nat): WbStat {
    WbStat(Cut16(Read(WB_PIDX, dw)), Cut16(Read(WB_CIDX, dw)))
  }

  /** qdma_unpack_c2h_cmpl. */
  function UnpackCompletion(dw: nat): Completion {
    Completion(Cut8(Read(CMPL_COLOR, dw)), Cut8(Read(CMPL_ERR, dw)), Cut16(Read(CMPL_PKT_LEN, dw)), Cut16(Read(CMPL_PKT_ID, dw)))
  }

  /** qdma_unpack_c2h_cmpl_stat. */
  function UnpackCompletionStat(dw: nat): CompletionStat {
    CompletionStat(Cut16(Read(STAT_PIDX, dw)), Cut16(Read(STAT_CIDX, dw)), Cut8(Read(STAT_COLOR, dw)), Cut8(Read(STAT_INTR_STATE, dw)))
  }

  /** What hardware writes, with anything in the bits the driver does not look at. */
  function WbStatWord(s: WbStat, rest: u64): seq<Part> {
    [Part(WB_PIDX, s.pidx), Part(WB_CIDX, s.cidx), Part(WB_REST, rest)]
  }

  function CompletionWord(c: Completion, bit0: u64, rest: u64): seq<Part> {
    [Part(CMPL_BIT0, bit0), Part(CMPL_COLOR, c.color), Part(CMPL_ERR, c.err), Part(CMPL_REST, rest),
     Part(CMPL_PKT_LEN, c.pktLen), Part(CMPL_PKT_ID, c.pktId)]
  }

  function CompletionStatWord(s: CompletionStat, rest: u64): seq<Part> {
    [Part(STAT_PIDX, s.pidx), Part(STAT_CIDX, s.cidx), Part(STAT_COLOR, s.color),
     Part(STAT_INTR_STATE, s.intrState), Part(STAT_REST, rest)]
  }

  lemma CutNothing(x: u16, y: u8)
    ensures Cut16(x) == x && Cut8(y) == y
  {
  }

  lemma WbStatShown(parts: seq<Part>, s: WbStat, rest: u64)
    requires parts == WbStatWord(s, rest) && WellPlaced(parts)
    ensures Read(WB_PIDX, Word(parts)) == s.pidx && Read(WB_CIDX, Word(parts)) == s.cidx
  {
    WidthFacts();
    ValueShown(parts, 0, WB_PIDX, s.pidx, 16);
    ValueShown(parts, 1, WB_CIDX, s.cidx, 16);
  }

  /** Where the two indices are in any status word: the low and the next 16 bits. */
  lemma WbStatPlaces(dw: u64)
    ensures UnpackWbStat(dw) == WbStat(dw % 0x1_0000, dw / 0x1_0000 % 0x1_0000)
  {
    WidthFacts();
    PowerFacts();
    ReadIsDivMod(WB_PIDX, dw, 1, 0x1_0000);
    ReadIsDivMod(WB_CIDX, dw, 0x1_0000, 0x1_0000);
    CutNothing(dw % 0x1_0000, 0);
    CutNothing(dw / 0x1_0000 % 0x1_0000, 0);
  }

  /** The writeback status the transmit cleaner reads is the one hardware wrote. */
  lemma WbStatRoundTrip(s: WbStat, rest: u64)
    ensures WellPlaced(WbStatWord(s, rest)) && UnpackWbStat(Word(WbStatWord(s, rest))) == s
  {
    WbStatShown(WbStatWord(s, rest), s, rest);
    CutNothing(s.pidx, 0);
    CutNothing(s.cidx, 0);
  }

  lemma CompletionFlagsShown(parts: seq<Part>, c: Completion, bit0: u64, rest: u64)
    requires parts == CompletionWord(c, bit0, rest) && WellPlaced(parts) && c.color <= 1 && c.err <= 1
    ensures Read(CMPL_COLOR, Word(parts)) == c.color && Read(CMPL_ERR, Word(parts)) == c.err
  {
    WidthFacts();
    ValueShown(parts, 1, CMPL_COLOR, c.color, 1);
    ValueShown(parts, 2, CMPL_ERR, c.err, 1);
  }

  lemma CompletionPacketShown(parts: seq<Part>, c: Completion, bit0: u64, rest: u64)
    requires parts == CompletionWord(c, bit0, rest) && WellPlaced(parts)
    ensures Read(CMPL_PKT_LEN, Word(parts)) == c.pktLen && Read(CMPL_PKT_ID, Word(parts)) == c.pktId
  {
    WidthFacts();
    ValueShown(parts, 4, CMPL_PKT_LEN, c.pktLen, 16);
    ValueShown(parts, 5, CMPL_PKT_ID, c.pktId, 16);
  }

  /** Where the parts of any completion entry are: colour in bit 1, error in bit 2, length and id above. */
  lemma CompletionPlaces(dw: u64)
    ensures UnpackCompletion(dw) == Completion(dw / 2 % 2, dw / 4 % 2, dw / 0x1_0000_0000 % 0x1_0000, dw / 0x1_0000_0000_0000 % 0x1_0000)
  {
    WidthFacts();
    PowerFacts();
    ReadIsDivMod(CMPL_COLOR, dw, 2, 2);
    ReadIsDivMod(CMPL_ERR, dw, 4, 2);
    ReadIsDivMod(CMPL_PKT_LEN, dw, 0x1_0000_0000, 0x1_0000);
    ReadIsDivMod(CMPL_PKT_ID, dw, 0x1_0000_0000_0000, 0x1_0000);
    CutNothing(dw / 0x1_0000_0000 % 0x1_0000, dw / 2 % 2);
    CutNothing(dw / 0x1_0000_0000_0000 % 0x1_0000, dw / 4 % 2);
  }

  /** The completion entry the receive poll reads is the one hardware wrote. */
  lemma CompletionRoundTrip(c: Completion, bit0: u64, rest: u64)
    requires c.color <= 1 && c.err <= 1
    ensures WellPlaced(CompletionWord(c, bit0, rest)) && UnpackCompletion(Word(CompletionWord(c, bit0, rest))) == c
  {
    CompletionFlagsShown(CompletionWord(c, bit0, rest), c, bit0, rest);
    CompletionPacketShown(CompletionWord(c, bit0, rest), c, bit0, rest);
    CutNothing(c.pktLen, c.color);
    CutNothing(c.pktId, c.err);
  }

  lemma StatIndicesShown(parts: seq<Part>, s: CompletionStat, rest: u64)
    requires parts == CompletionStatWord(s, rest) && WellPlaced(parts)
    ensures Read(STAT_PIDX, Word(parts)) == s.pidx && Read(STAT_CIDX, Word(parts)) == s.cidx
  {
    WidthFacts();
    ValueShown(parts, 0, STAT_PIDX, s.pidx, 16);
    ValueShown(parts, 1, STAT_CIDX, s.cidx, 16);
  }

  lemma StatFlagsShown(parts: seq<Part>, s: CompletionStat, rest: u64)
    requires parts == CompletionStatWord(s, rest) && WellPlaced(parts) && s.color <= 1 && s.intrState <= 3
    ensures Read(STAT_COLOR, Word(parts)) == s.color && Read(STAT_INTR_STATE, Word(parts)) == s.intrState
  {
    WidthFacts();
    ValueShown(parts, 2, STAT_COLOR, s.color, 1);
    ValueShown(parts, 3, STAT_INTR_STATE, s.intrState, 2);
  }

  /** Where the parts of any completion status are. */
  lemma CompletionStatPlaces(dw: u64)
    ensures UnpackCompletionStat(dw)
            == CompletionStat(dw % 0x1_0000, dw / 0x1_0000 % 0x1_0000, dw / 0x1_0000_0000 % 2, dw / 0x2_0000_0000 % 4)
  {
    WidthFacts();
    PowerFacts();
    ReadIsDivMod(STAT_PIDX, dw, 1, 0x1_0000);
    ReadIsDivMod(STAT_CIDX, dw, 0x1_0000, 0x1_0000);
    ReadIsDivMod(STAT_COLOR, dw, 0x1_0000_0000, 2);
    ReadIsDivMod(STAT_INTR_STATE, dw, 0x2_0000_0000, 4);
    CutNothing(dw % 0x1_0000, dw / 0x1_0000_0000 % 2);
    CutNothing(dw / 0x1_0000 % 0x1_0000, dw / 0x2_0000_0000 % 4);
  }

  /** The completion ring's status entry is read as hardware wrote it. */
  lemma CompletionStatRoundTrip(s: CompletionStat, rest: u64)
    requires s.color <= 1 && s.intrState <= 3
    ensures WellPlaced(CompletionStatWord(s, rest)) && UnpackCompletionStat(Word(CompletionStatWord(s, rest))) == s
  {
    StatIndicesShown(CompletionStatWord(s, rest), s, rest);
    StatFlagsShown(CompletionStatWord(s, rest), s, rest);
    CutNothing(s.pidx, s.color);
    CutNothing(s.cidx, s.intrState);
  }
}
