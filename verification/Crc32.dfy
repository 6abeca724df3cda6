/** Repeated application, and shift registers over an arbitrary word type. (The second measure of
    the functions below is there to keep the verifier from unrolling calls with a literal count.) */
module Iterate {
  import opened Bits

  function Iter<T>(f: T -> T, x: T, n: nat): T
    decreases n, x
  {
    if n == 0 then x else Iter(f, f(x), n - 1)
  }

  lemma {:induction false} IterAdd<T>(f: T -> T, x: T, m: nat, n: nat)
    ensures Iter(f, Iter(f, x, m), n) == Iter(f, x, m + n)
    decreases m
  {
    if m != 0 {
      IterAdd(f, f(x), m - 1, n);
    }
  }

  lemma {:induction false} IterInjective<T(!new)>(f: T -> T, x: T, y: T, n: nat)
    requires forall a, b :: f(a) == f(b) ==> a == b
    requires Iter(f, x, n) == Iter(f, y, n)
    ensures x == y
    decreases n
  {
    if n != 0 {
      IterInjective(f, f(x), f(y), n - 1);
    }
  }

  /** Clocks a register `n` times; each clock takes the lowest bit off the word `w`. */
  function Clock<R>(next: (R, R) -> R, low: R -> R, drop: R -> R, reg: R, w: R, n: nat): R
    decreases n, reg
  {
    if n == 0 then reg else Clock(next, low, drop, next(reg, low(w)), drop(w), n - 1)
  }

  lemma {:induction false} ClockAdd<R>(next: (R, R) -> R, low: R -> R, drop: R -> R, reg: R, w: R, m: nat, n: nat)
    ensures Clock(next, low, drop, reg, w, m + n)
         == Clock(next, low, drop, Clock(next, low, drop, reg, w, m), Iter(drop, w, m), n)
    decreases m
  {
    if m != 0 {
      ClockAdd(next, low, drop, next(reg, low(w)), drop(w), m - 1, n);
    }
  }

  /** If adding the word into the register commutes with clocking, then feeding a word bit by bit
      is adding it all at once and letting the register run free, up to the bits not yet fed. */
  lemma {:induction false} ClockIsFreeRun<R(!new)>(next: (R, R) -> R, low: R -> R, drop: R -> R,
                                                   shift: R -> R, xor: (R, R) -> R, reg: R, w: R, n: nat)
    requires forall r, v :: xor(next(r, low(v)), drop(v)) == shift(xor(r, v))
    ensures xor(Clock(next, low, drop, reg, w, n), Iter(drop, w, n)) == Iter(shift, xor(reg, w), n)
    decreases n
  {
    if n != 0 {
      ClockIsFreeRun(next, low, drop, shift, xor, next(reg, low(w)), drop(w), n - 1);
    }
  }

  /** The word made of the `n` low binary digits of `x`, lowest digit pushed last. */
  function Push<R>(zero: R, push: (R, bool) -> R, x: nat, n: nat): R
    decreases n, x
  {
    if n == 0 then zero else push(Push(zero, push, x / 2, n - 1), x % 2 == 1)
  }

  /** The number whose binary digits are taken off the low end of `w`. */
  function Pull<R>(low: R -> bool, drop: R -> R, w: R, n: nat): (x: nat)
    ensures x < Pow2(n)
    decreases n, w
  {
    if n == 0 then 0 else 2 * Pull(low, drop, drop(w), n - 1) + (if low(w) then 1 else 0)
  }

  lemma {:induction false} PullPush<R(!new)>(zero: R, push: (R, bool) -> R, low: R -> bool, drop: R -> R,
                                             fits: (R, nat) -> bool, x: nat, n: nat)
    requires n <= 8 && x < Pow2(n) && fits(zero, 0)
    requires forall w, d, k: nat :: k < 8 && fits(w, k) ==>
               fits(push(w, d), k + 1) && drop(push(w, d)) == w && low(push(w, d)) == d
    ensures fits(Push(zero, push, x, n), n)
    ensures Pull(low, drop, Push(zero, push, x, n), n) == x
    decreases n
  {
    if n != 0 {
      PullPush(zero, push, low, drop, fits, x / 2, n - 1);
    }
  }

  lemma {:induction false} PushPull<R(!new)>(zero: R, push: (R, bool) -> R, low: R -> bool, drop: R -> R,
                                             cut: (R, nat) -> R, w: R, n: nat)
    requires n <= 8
    requires forall v :: cut(v, 0) == zero
    requires forall v, k: nat :: k < 8 ==> push(cut(drop(v), k), low(v)) == cut(v, k + 1)
    ensures Push(zero, push, Pull(low, drop, w, n), n) == cut(w, n)
    decreases n
  {
    if n != 0 {
      PushPull(zero, push, low, drop, cut, drop(w), n - 1);
      assert Pull(low, drop, w, n) / 2 == Pull(low, drop, drop(w), n - 1);
    }
  }
}

/** CRC-32 (IEEE 802.3, reflected polynomial 0xEDB88320).

    The reference is the shift register of clause 3.2.9 of IEEE 802.3: message bits enter one at a
    time, least significant bit of each byte first. The program uses a 256-entry table instead. */
module Crc32 {
  import opened Types
  import opened Bits
  import opened Iterate

  const POLY: bv32 := 0xEDB88320
  const ONES: bv32 := 0xFFFF_FFFF

  // ---------- Reference: the bit-serial register ----------

  /** One clock: the feedback is the register's low bit plus the incoming message bit. */
  function NextReg(reg: bv32, bit: bv32): bv32 {
    if (reg ^ bit) & 1 == 1 then POLY ^ (reg >> 1) else reg >> 1
  }

  function Low(w: bv32): bv32 {
    w & 1
  }

  function Drop(w: bv32): bv32 {
    w >> 1
  }

  function FeedBits(reg: bv32, w: bv32, n: nat): bv32 {
    Clock(NextReg, Low, Drop, reg, w, n)
  }

  function PushBit(w: bv32, bit: bool): bv32 {
    (w << 1) | (if bit then 1 else 0)
  }

  function LowBit(w: bv32): bool {
    w & 1 == 1
  }

  /** A byte as a word. */
  function Bv(b: byte): bv32 {
    Push(0, PushBit, b, 8)
  }

  function FeedByte(reg: bv32, b: byte): bv32 {
    FeedBits(reg, Bv(b), 8)
  }

  function Register(reg: bv32, data: seq<byte>): bv32 {
    if data == [] then reg
    else FeedByte(Register(reg, data[..|data| - 1]), data[|data| - 1])
  }

  function Xor(a: bv32, b: bv32): bv32 {
    a ^ b
  }

  function Crc(data: seq<byte>): bv32 {
    Xor(Register(ONES, data), ONES)
  }

  // ---------- The free-running register ----------

  function Shift(c: bv32): bv32 {
    if c & 1 == 1 then POLY ^ (c >> 1) else c >> 1
  }

  lemma NextRegXor(reg: bv32, w: bv32)
    ensures NextReg(reg, w & 1) ^ (w >> 1) == Shift(reg ^ w)
  {
    assert (reg ^ (w & 1)) & 1 == (reg ^ w) & 1;
    assert (reg ^ w) >> 1 == (reg >> 1) ^ (w >> 1);
    assert POLY ^ (reg >> 1) ^ (w >> 1) == POLY ^ ((reg >> 1) ^ (w >> 1));
  }

  lemma NextRegIsShift(reg: bv32, w: bv32)
    ensures Xor(NextReg(reg, Low(w)), Drop(w)) == Shift(Xor(reg, w))
  {
    NextRegXor(reg, w);
  }

  lemma XorZero(x: bv32)
    ensures Xor(x, 0) == x
  {
  }

  lemma FeedThenRun(reg: bv32, w: bv32, n: nat)
    ensures Xor(FeedBits(reg, w, n), Iter(Drop, w, n)) == Iter(Shift, Xor(reg, w), n)
  {
    forall r, v ensures Xor(NextReg(r, Low(v)), Drop(v)) == Shift(Xor(r, v)) {
      NextRegIsShift(r, v);
    }
    ClockIsFreeRun(NextReg, Low, Drop, Shift, Xor, reg, w, n);
  }

  /** Feeding all the bits of `w` is adding `w` into the register and letting it run free. */
  lemma FeedIsFreeRun(reg: bv32, w: bv32, n: nat)
    requires Iter(Drop, w, n) == 0
    ensures FeedBits(reg, w, n) == Iter(Shift, Xor(reg, w), n)
  {
    FeedThenRun(reg, w, n);
    XorZero(FeedBits(reg, w, n));
  }

  lemma ShiftInjective(a: bv32, b: bv32)
    ensures Shift(a) == Shift(b) ==> a == b
  {
  }

  lemma FreeRunInjective(a: bv32, b: bv32, n: nat)
    requires Iter(Shift, a, n) == Iter(Shift, b, n)
    ensures a == b
  {
    forall x, y ensures Shift(x) == Shift(y) ==> x == y {
      ShiftInjective(x, y);
    }
    IterInjective(Shift, a, b, n);
  }

  // ---------- Eight bits at a time ----------

  lemma DropTwo(w: bv32)
    ensures Iter(Drop, w, 2) == w >> 2
  {
    assert Iter(Drop, w, 2) == Iter(Drop, Drop(w), 1);
    assert Iter(Drop, Drop(w), 1) == Iter(Drop, Drop(Drop(w)), 0);
  }

  lemma DropFour(w: bv32)
    ensures Iter(Drop, w, 4) == w >> 4
  {
    IterAdd(Drop, w, 2, 2);
    DropTwo(w);
    DropTwo(w >> 2);
  }

  lemma DropByte(w: bv32)
    ensures Iter(Drop, w, 8) == w >> 8
  {
    IterAdd(Drop, w, 4, 4);
    DropFour(w);
    DropFour(w >> 4);
  }

  lemma {:induction false} DropZero(n: nat)
    ensures Iter(Drop, 0, n) == 0
  {
    if n != 0 {
      assert Drop(0) == 0;
      DropZero(n - 1);
    }
  }

  function Mask(n: nat): bv32 {
    if n == 0 then 0 else if n == 1 then 1 else if n == 2 then 3 else if n == 3 then 7
    else if n == 4 then 0xF else if n == 5 then 0x1F else if n == 6 then 0x3F else if n == 7 then 0x7F else 0xFF
  }

  lemma AgreeStep(w: bv32, v: bv32, n: nat)
    requires 1 <= n <= 8 && w & Mask(n) == v & Mask(n)
    ensures Low(w) == Low(v)
    ensures Drop(w) & Mask(n - 1) == Drop(v) & Mask(n - 1)
  {
  }

  /** Only the bits that are fed matter. */
  lemma {:induction false} FeedAgree(reg: bv32, w: bv32, v: bv32, n: nat)
    requires n <= 8 && w & Mask(n) == v & Mask(n)
    ensures FeedBits(reg, w, n) == FeedBits(reg, v, n)
    decreases n
  {
    if n != 0 {
      AgreeStep(w, v, n);
      FeedAgree(NextReg(reg, Low(w)), Drop(w), Drop(v), n - 1);
    }
  }

  lemma FeedZero(reg: bv32, n: nat)
    ensures FeedBits(reg, 0, n) == Iter(Shift, reg, n)
  {
    DropZero(n);
    FeedIsFreeRun(reg, 0, n);
    XorZero(reg);
  }

  lemma AddShiftedWord(low: bv32, high: bv32)
    requires high & 0xFF == 0
    ensures Iter(Shift, Xor(low, high), 8) == Xor(Iter(Shift, low, 8), high >> 8)
  {
    FeedThenRun(low, high, 8);
    DropByte(high);
    FeedAgree(low, high, 0, 8);
    FeedZero(low, 8);
  }

  lemma SplitByte(c: bv32)
    ensures Xor(c & 0xFF, c & 0xFFFF_FF00) == c
    ensures (c & 0xFFFF_FF00) & 0xFF == 0
    ensures (c & 0xFFFF_FF00) >> 8 == c >> 8
  {
  }

  /** One table look-up replaces eight free-running shifts. */
  lemma TableStep(c: bv32)
    ensures Iter(Shift, c, 8) == Xor(Iter(Shift, c & 0xFF, 8), c >> 8)
  {
    SplitByte(c);
    AddShiftedWord(c & 0xFF, c & 0xFFFF_FF00);
  }

  function Cut(w: bv32, n: nat): bv32 {
    w & Mask(n)
  }

  predicate Fits(w: bv32, n: nat) {
    w & Mask(n) == w
  }

  lemma PushBitFits(w: bv32, bit: bool, n: nat)
    requires n < 8 && Fits(w, n)
    ensures Fits(PushBit(w, bit), n + 1) && Drop(PushBit(w, bit)) == w && LowBit(PushBit(w, bit)) == bit
  {
  }

  lemma PushBitCut(w: bv32, n: nat)
    requires n < 8
    ensures PushBit(Cut(Drop(w), n), LowBit(w)) == Cut(w, n + 1)
  {
  }

  lemma Pow2Byte()
    ensures Pow2(8) == 256
  {
  }

  lemma ZeroFits()
    ensures Fits(0, 0)
  {
  }

  lemma ByteBack(b: byte)
    ensures Fits(Bv(b), 8) && Pull(LowBit, Drop, Bv(b), 8) == b
  {
    hide Push, Pull, PushBit, LowBit, Drop, Fits;
    forall w, d, k: nat | k < 8 && Fits(w, k)
      ensures Fits(PushBit(w, d), k + 1) && Drop(PushBit(w, d)) == w && LowBit(PushBit(w, d)) == d
    {
      PushBitFits(w, d, k);
    }
    Pow2Byte();
    assert Fits(0, 0) by {
      ZeroFits();
    }
    PullPush(0, PushBit, LowBit, Drop, Fits, b, 8);
  }

  lemma LowByteBack(c: bv32)
    ensures Push(0, PushBit, Pull(LowBit, Drop, c, 8), 8) == c & 0xFF
  {
    hide Push, Pull, PushBit, LowBit, Drop, Cut;
    forall v, k: nat | k < 8 ensures PushBit(Cut(Drop(v), k), LowBit(v)) == Cut(v, k + 1) {
      PushBitCut(v, k);
    }
    forall v ensures Cut(v, 0) == 0 {
      CutEnds(v);
    }
    PushPull(0, PushBit, LowBit, Drop, Cut, c, 8);
    CutEnds(c);
  }

  lemma CutEnds(v: bv32)
    ensures Cut(v, 0) == 0 && Cut(v, 8) == v & 0xFF
  {
  }

  lemma FitsByte(w: bv32)
    requires Fits(w, 8)
    ensures w >> 8 == 0
  {
  }

  lemma ByteWord(b: byte)
    ensures Bv(b) >> 8 == 0
  {
    ByteBack(b);
    FitsByte(Bv(b));
  }

  lemma FeedByteIsFreeRun(reg: bv32, b: byte)
    ensures FeedByte(reg, b) == Iter(Shift, Xor(reg, Bv(b)), 8)
  {
    ByteWord(b);
    DropByte(Bv(b));
    FeedIsFreeRun(reg, Bv(b), 8);
  }

  lemma XorByteShift(reg: bv32, w: bv32)
    requires w >> 8 == 0
    ensures Xor(reg, w) >> 8 == reg >> 8
  {
  }

  lemma TableByte(reg: bv32, b: byte)
    ensures FeedByte(reg, b) == Xor(Iter(Shift, Xor(reg, Bv(b)) & 0xFF, 8), reg >> 8)
  {
    FeedByteIsFreeRun(reg, b);
    TableStep(Xor(reg, Bv(b)));
    ByteWord(b);
    XorByteShift(reg, Bv(b));
  }

  // ---------- The table-driven program ----------

  ghost predicate IsTable(table: seq<bv32>) {
    |table| == 256 && forall i :: 0 <= i < 256 ==> table[i] == Iter(Shift, Bv(i), 8)
  }

  method MakeTable() returns (table: array<bv32>)
    ensures IsTable(table[..]) && fresh(table)
  {
    table := new bv32[256];
    var i := 0;
    while i < 256
      invariant 0 <= i <= 256
      invariant forall j :: 0 <= j < i ==> table[j] == Iter(Shift, Bv(j), 8)
    {
      var c := Bv(i);
      var k := 0;
      while k < 8
        invariant 0 <= k <= 8
        invariant Iter(Shift, c, 8 - k) == Iter(Shift, Bv(i), 8)
      {
        c := if c & 1 == 1 then POLY ^ (c >> 1) else c >> 1;
        k := k + 1;
      }
      table[i] := c;
      i := i + 1;
    }
  }

  function LowByte(c: bv32): (b: byte)
    ensures Bv(b) == c & 0xFF
  {
    LowByteBack(c);
    Pow2Byte();
    Pull(LowBit, Drop, c, 8)
  }

  function TableIndex(reg: bv32, b: byte): byte {
    LowByte(Xor(reg, Bv(b)))
  }

  lemma LookUp(table: seq<bv32>, reg: bv32, b: byte)
    requires IsTable(table)
    ensures Xor(table[TableIndex(reg, b)], reg >> 8) == FeedByte(reg, b)
  {
    TableByte(reg, b);
  }

  lemma RegisterSnoc(reg: bv32, data: seq<byte>, b: byte)
    ensures Register(reg, data + [b]) == FeedByte(Register(reg, data), b)
  {
    assert (data + [b])[..|data|] == data;
  }

  method Update(table: array<bv32>, reg: bv32, b: byte) returns (next: bv32)
    requires IsTable(table[..])
    ensures next == FeedByte(reg, b)
  {
    LookUp(table[..], reg, b);
    next := Xor(table[TableIndex(reg, b)], reg >> 8);
  }

  method RunTable(table: array<bv32>, data: seq<byte>) returns (reg: bv32)
    requires IsTable(table[..])
    ensures reg == Register(ONES, data)
  {
    hide FeedByte;
    reg := ONES;
    var i := 0;
    while i < |data|
      invariant 0 <= i <= |data|
      invariant reg == Register(ONES, data[..i])
    {
      assert data[..i + 1] == data[..i] + [data[i]];
      RegisterSnoc(ONES, data[..i], data[i]);
      reg := Update(table, reg, data[i]);
      i := i + 1;
    }
    assert data[..i] == data;
  }

  /** The table-driven program computes the bit-serial checksum of every message. */
  method Compute(data: seq<byte>) returns (crc: bv32)
    ensures crc == Crc(data)
  {
    var table := MakeTable();
    var reg := RunTable(table, data);
    crc := Xor(reg, ONES);
  }

  // ---------- Bursts ----------

  lemma {:induction false} RegisterConcat(reg: bv32, a: seq<byte>, b: seq<byte>)
    ensures Register(reg, a + b) == Register(Register(reg, a), b)
  {
    if b == [] {
      assert a + b == a;
    } else {
      var n := |b| - 1;
      assert (a + b)[..|a + b| - 1] == a + b[..n];
      RegisterConcat(reg, a, b[..n]);
    }
  }

  /** The same further bytes keep two different registers different. */
  lemma {:induction false} RegisterInjective(x: bv32, y: bv32, data: seq<byte>)
    requires Register(x, data) == Register(y, data)
    ensures x == y
  {
    if data != [] {
      var n := |data| - 1;
      var b := data[n];
      var p, q := Register(x, data[..n]), Register(y, data[..n]);
      FeedByteIsFreeRun(p, b);
      FeedByteIsFreeRun(q, b);
      FreeRunInjective(Xor(p, Bv(b)), Xor(q, Bv(b)), 8);
      XorCancel(p, q, Bv(b));
      RegisterInjective(x, y, data[..n]);
    }
  }

  lemma XorCancel(p: bv32, q: bv32, w: bv32)
    requires Xor(p, w) == Xor(q, w)
    ensures p == q
  {
  }

  lemma XorCancelLeft(w: bv32, p: bv32, q: bv32)
    requires Xor(w, p) == Xor(w, q)
    ensures p == q
  {
  }

  /** Up to four bytes as one word, first byte lowest. */
  function Word(data: seq<byte>): bv32 {
    if data == [] then 0 else Bv(data[0]) | (Word(data[1..]) << 8)
  }

  lemma WordStep(b: bv32, rest: bv32)
    requires b >> 8 == 0 && rest >> 24 == 0
    ensures (b | (rest << 8)) >> 8 == rest
    ensures (b | (rest << 8)) & 0xFF == b
    ensures (b | (rest << 8)) & Mask(8) == b & Mask(8)
  {
  }

  lemma {:induction false} WordFits(data: seq<byte>)
    ensures |data| <= 1 ==> Word(data) >> 8 == 0
    ensures |data| <= 2 ==> Word(data) >> 16 == 0
    ensures |data| <= 3 ==> Word(data) >> 24 == 0
  {
    if data != [] {
      WordFits(data[1..]);
      ByteWord(data[0]);
    }
  }

  lemma WordSplits(data: seq<byte>)
    requires 1 <= |data| <= 4
    ensures Word(data) >> 8 == Word(data[1..])
    ensures Word(data) & 0xFF == Bv(data[0])
    ensures Word(data) & Mask(8) == Bv(data[0]) & Mask(8)
  {
    ByteWord(data[0]);
    WordFits(data[1..]);
    WordStep(Bv(data[0]), Word(data[1..]));
  }

  lemma RegisterFirst(reg: bv32, data: seq<byte>)
    requires data != []
    ensures Register(reg, data) == Register(FeedByte(reg, data[0]), data[1..])
  {
    assert data == [data[0]] + data[1..];
    RegisterConcat(reg, [data[0]], data[1..]);
    RegisterSnoc(reg, [], data[0]);
    assert [] + [data[0]] == [data[0]];
  }

  lemma FeedWordFirst(reg: bv32, data: seq<byte>, n: nat)
    requires 1 <= |data| <= 4
    ensures FeedBits(reg, Word(data), 8 + n) == FeedBits(FeedByte(reg, data[0]), Word(data[1..]), n)
    ensures Iter(Drop, Word(data), 8 + n) == Iter(Drop, Word(data[1..]), n)
  {
    WordSplits(data);
    FeedAgree(reg, Word(data), Bv(data[0]), 8);
    DropByte(Word(data));
    ClockAdd(NextReg, Low, Drop, reg, Word(data), 8, n);
    IterAdd(Drop, Word(data), 8, n);
  }

  /** Feeding up to four bytes one after the other feeds their word, and uses it up. */
  lemma {:induction false} WordIsBytes(reg: bv32, data: seq<byte>)
    requires |data| <= 4
    ensures Register(reg, data) == FeedBits(reg, Word(data), 8 * |data|)
    ensures Iter(Drop, Word(data), 8 * |data|) == 0
    decreases |data|
  {
    if data != [] {
      RegisterFirst(reg, data);
      FeedWordFirst(reg, data, 8 * |data[1..]|);
      WordIsBytes(FeedByte(reg, data[0]), data[1..]);
    }
  }

  lemma BytesEqual(a: byte, b: byte)
    requires Bv(a) == Bv(b)
    ensures a == b
  {
    ByteBack(a);
    ByteBack(b);
  }

  lemma {:induction false} WordInjective(u: seq<byte>, v: seq<byte>)
    requires |u| == |v| <= 4 && Word(u) == Word(v)
    ensures u == v
    decreases |u|
  {
    if u != [] {
      WordSplits(u);
      WordSplits(v);
      BytesEqual(u[0], v[0]);
      WordInjective(u[1..], v[1..]);
      assert u == [u[0]] + u[1..];
      assert v == [v[0]] + v[1..];
    }
  }

  /** Up to four bytes can be recovered from the register before them and the register after. */
  lemma WindowInjective(reg: bv32, u: seq<byte>, v: seq<byte>)
    requires |u| == |v| <= 4 && Register(reg, u) == Register(reg, v)
    ensures u == v
  {
    var n := 8 * |u|;
    WordIsBytes(reg, u);
    WordIsBytes(reg, v);
    FeedIsFreeRun(reg, Word(u), n);
    FeedIsFreeRun(reg, Word(v), n);
    FreeRunInjective(Xor(reg, Word(u)), Xor(reg, Word(v)), n);
    XorCancelLeft(reg, Word(u), Word(v));
    WordInjective(u, v);
  }

  /** `x` and `y` agree everywhere except possibly in four consecutive bytes from `at`. */
  ghost predicate DifferInWindow(x: seq<byte>, y: seq<byte>, at: nat) {
    |x| == |y| && forall i :: 0 <= i < |x| && !(at <= i < at + 4) ==> x[i] == y[i]
  }

  lemma SandwichInjective(reg: bv32, p: seq<byte>, u: seq<byte>, v: seq<byte>, s: seq<byte>)
    requires |u| == |v| <= 4 && Register(reg, p + u + s) == Register(reg, p + v + s)
    ensures u == v
  {
    RegisterConcat(reg, p + u, s);
    RegisterConcat(reg, p + v, s);
    RegisterInjective(Register(reg, p + u), Register(reg, p + v), s);
    RegisterConcat(reg, p, u);
    RegisterConcat(reg, p, v);
    WindowInjective(Register(reg, p), u, v);
  }

  lemma SplitWindow(x: seq<byte>, y: seq<byte>, at: nat)
    returns (p: seq<byte>, u: seq<byte>, v: seq<byte>, s: seq<byte>)
    requires DifferInWindow(x, y, at)
    ensures x == p + u + s && y == p + v + s && |u| == |v| <= 4
  {
    var i := if at <= |x| then at else |x|;
    var j := if at + 4 <= |x| then at + 4 else |x|;
    p, u, v, s := x[..i], x[i..j], y[i..j], x[j..];
    assert x[..i] == y[..i] && x[j..] == y[j..];
  }

  lemma BurstChangesRegister(reg: bv32, x: seq<byte>, y: seq<byte>, at: nat)
    requires DifferInWindow(x, y, at) && Register(reg, x) == Register(reg, y)
    ensures x == y
  {
    var p, u, v, s := SplitWindow(x, y, at);
    SandwichInjective(reg, p, u, v, s);
  }

  /** Messages that differ only within four consecutive bytes have different checksums. */
  lemma BurstDetected(x: seq<byte>, y: seq<byte>, at: nat)
    requires DifferInWindow(x, y, at) && x != y
    ensures Crc(x) != Crc(y)
  {
    if Crc(x) == Crc(y) {
      XorCancel(Register(ONES, x), Register(ONES, y), ONES);
      BurstChangesRegister(ONES, x, y, at);
    }
  }

  // ---------- The stored trailer ----------

  /** The checksum as it is stored: four bytes, lowest first. */
  function Trailer(c: bv32): seq<byte> {
    [LowByte(c), LowByte(c >> 8), LowByte(c >> 16), LowByte(c >> 24)]
  }

  lemma WordOfLowByte(x: bv32, rest: seq<byte>)
    requires Word(rest) == x >> 8
    ensures Word([LowByte(x)] + rest) == x
  {
    assert ([LowByte(x)] + rest)[1..] == rest;
    assert (x & 0xFF) | ((x >> 8) << 8) == x;
  }

  lemma TrailerBack(c: bv32)
    ensures Word(Trailer(c)) == c
  {
    var t3 := [LowByte(c >> 24)] + [];
    var t2 := [LowByte(c >> 16)] + t3;
    var t1 := [LowByte(c >> 8)] + t2;
    WordOfLowByte(c >> 24, []);
    WordOfLowByte(c >> 16, t3);
    WordOfLowByte(c >> 8, t2);
    WordOfLowByte(c, t1);
    assert Trailer(c) == [LowByte(c)] + t1;
  }

  /** The last four bytes are the checksum of the bytes before them. */
  predicate Sealed(record: seq<byte>)
    requires |record| >= 4
  {
    Word(record[|record| - 4..]) == Crc(record[..|record| - 4])
  }

  function Residue(): bv32 {
    Iter(Shift, ONES, 32)
  }

  lemma XorTwice(r: bv32, x: bv32)
    ensures Xor(r, Xor(r, x)) == x
  {
  }

  lemma XorOnes(r: bv32, w: bv32)
    ensures w == Xor(r, ONES) <==> Xor(r, w) == ONES
  {
    XorTwice(r, ONES);
    if Xor(r, w) == ONES {
      XorCancelLeft(r, w, Xor(r, ONES));
    }
  }

  /** A record is sealed exactly when the register ends on one fixed value after all its bytes. */
  lemma SealedIsResidue(record: seq<byte>)
    requires |record| >= 4
    ensures Sealed(record) <==> Register(ONES, record) == Residue()
  {
    var data, trailer := record[..|record| - 4], record[|record| - 4..];
    var reg := Register(ONES, data);
    assert record == data + trailer;
    RegisterConcat(ONES, data, trailer);
    WordIsBytes(reg, trailer);
    FeedIsFreeRun(reg, Word(trailer), 32);
    XorOnes(reg, Word(trailer));
    if Register(ONES, record) == Residue() {
      FreeRunInjective(Xor(reg, Word(trailer)), ONES, 32);
    }
  }

  /** Damage within four consecutive bytes, data or trailer or both, always breaks the seal. */
  lemma BurstBreaksSeal(x: seq<byte>, y: seq<byte>, at: nat)
    requires |x| >= 4 && Sealed(x) && DifferInWindow(x, y, at) && x != y
    ensures !Sealed(y)
  {
    SealedIsResidue(x);
    SealedIsResidue(y);
    if Sealed(y) {
      BurstChangesRegister(ONES, x, y, at);
    }
  }

  // ---------- The published check value ----------

  lemma PushOne(x: nat, n: nat)
    requires n > 0
    ensures Push(0, PushBit, x, n) == PushBit(Push(0, PushBit, x / 2, n - 1), x % 2 == 1)
  {
  }

  lemma NoBits()
    ensures Push(0, PushBit, 0, 0) == 0
  {
  }

  /** The word of the ASCII digit `d`, bit by bit. */
  function DigitBits(d: nat): bv32 {
    var high := PushBit(PushBit(PushBit(PushBit(0, false), false), true), true);
    PushBit(PushBit(PushBit(PushBit(high, d / 8 % 2 == 1), d / 4 % 2 == 1), d / 2 % 2 == 1), d % 2 == 1)
  }

  /** The binary digits of 48 + d. */
  lemma DigitHalves(d: nat)
    requires d < 10
    ensures var x: nat := 0x30 + d;
            && x % 2 == d % 2 && x / 2 % 2 == d / 2 % 2 && x / 2 / 2 % 2 == d / 4 % 2 && x / 2 / 2 / 2 % 2 == d / 8 % 2
            && x / 2 / 2 / 2 / 2 == 3
  {
  }

  /** Four binary digits at a time. */
  lemma PushFour(x: nat, n: nat)
    requires n >= 4
    ensures Push(0, PushBit, x, n)
         == PushBit(PushBit(PushBit(PushBit(Push(0, PushBit, x / 2 / 2 / 2 / 2, n - 4), x / 2 / 2 / 2 % 2 == 1), x / 2 / 2 % 2 == 1),
                            x / 2 % 2 == 1), x % 2 == 1)
  {
    hide Push, PushBit;
    PushOne(x, n);
    PushOne(x / 2, n - 1);
    PushOne(x / 2 / 2, n - 2);
    PushOne(x / 2 / 2 / 2, n - 3);
  }

  lemma DigitWord(d: nat)
    requires d < 10
    ensures Bv(0x30 + d) == DigitBits(d)
  {
    hide Push, PushBit;
    DigitHalves(d);
    PushFour(0x30 + d, 8);
    PushFour(3, 4);
    NoBits();
  }

  function EightShifts(c: bv32): bv32 {
    Shift(Shift(Shift(Shift(Shift(Shift(Shift(Shift(c))))))))
  }

  lemma ShiftOnce(c: bv32, n: nat)
    requires n > 0
    ensures Iter(Shift, c, n) == Iter(Shift, Shift(c), n - 1)
  {
  }

  lemma EightAre(c: bv32)
    ensures Iter(Shift, c, 8) == EightShifts(c)
  {
    hide Shift;
    ShiftOnce(c, 8);
    var c1 := Shift(c);
    ShiftOnce(c1, 7);
    var c2 := Shift(c1);
    ShiftOnce(c2, 6);
    var c3 := Shift(c2);
    ShiftOnce(c3, 5);
    var c4 := Shift(c3);
    ShiftOnce(c4, 4);
    var c5 := Shift(c4);
    ShiftOnce(c5, 3);
    var c6 := Shift(c5);
    ShiftOnce(c6, 2);
    var c7 := Shift(c6);
    ShiftOnce(c7, 1);
  }

  lemma CheckStep(reg: bv32, d: nat, next: bv32)
    requires d < 10 && EightShifts(Xor(reg, DigitBits(d))) == next
    ensures FeedByte(reg, 0x30 + d) == next
  {
    hide FeedByte, Bv, EightShifts, DigitBits;
    FeedByteIsFreeRun(reg, 0x30 + d);
    DigitWord(d);
    EightAre(Xor(reg, DigitBits(d)));
  }

  lemma RegisterPrefix(m: seq<byte>, k: nat)
    requires k < |m|
    ensures Register(ONES, m[..k + 1]) == FeedByte(Register(ONES, m[..k]), m[k])
  {
    hide FeedByte;
    assert m[..k + 1][..k] == m[..k];
  }

  function Digits(): seq<byte> {
    [0x31, 0x32, 0x33, 0x34, 0x35, 0x36, 0x37, 0x38, 0x39]
  }

  /** The register after the first `k` digits. */
  function AfterDigits(k: nat): bv32 {
    if k == 0 then 0xFFFF_FFFF else if k == 1 then 0x7C23_1048 else if k == 2 then 0xB0AC_BB32
    else if k == 3 then 0x77B7_9C2D else if k == 4 then 0x641C_1F5C else if k == 5 then 0x340A_C5E3
    else if k == 6 then 0xF68D_2C9E else if k == 7 then 0xAFFC_9660 else if k == 8 then 0x651F_2550 else 0x340B_C6D9
  }

  lemma DigitsOneToThree()
    ensures EightShifts(Xor(0xFFFF_FFFF, DigitBits(1))) == 0x7C23_1048
    ensures EightShifts(Xor(0x7C23_1048, DigitBits(2))) == 0xB0AC_BB32
    ensures EightShifts(Xor(0xB0AC_BB32, DigitBits(3))) == 0x77B7_9C2D
  {
  }

  lemma DigitsFourToSix()
    ensures EightShifts(Xor(0x77B7_9C2D, DigitBits(4))) == 0x641C_1F5C
    ensures EightShifts(Xor(0x641C_1F5C, DigitBits(5))) == 0x340A_C5E3
    ensures EightShifts(Xor(0x340A_C5E3, DigitBits(6))) == 0xF68D_2C9E
  {
  }

  lemma DigitsSevenToNine()
    ensures EightShifts(Xor(0xF68D_2C9E, DigitBits(7))) == 0xAFFC_9660
    ensures EightShifts(Xor(0xAFFC_9660, DigitBits(8))) == 0x651F_2550
    ensures EightShifts(Xor(0x651F_2550, DigitBits(9))) == 0x340B_C6D9
  {
  }

  lemma NextDigit(k: nat)
    requires k < 9
    ensures EightShifts(Xor(AfterDigits(k), DigitBits(k + 1))) == AfterDigits(k + 1)
  {
    hide EightShifts, DigitBits, Xor;
    if k < 3 {
      DigitsOneToThree();
    } else if k < 6 {
      DigitsFourToSix();
    } else {
      DigitsSevenToNine();
    }
  }

  lemma {:induction false} DigitsFed(k: nat)
    requires k <= 9
    ensures Register(ONES, Digits()[..k]) == AfterDigits(k)
  {
    hide FeedByte, EightShifts, DigitBits;
    if k == 0 {
      assert Digits()[..0] == [];
    } else {
      DigitsFed(k - 1);
      hide Register, AfterDigits;
      RegisterPrefix(Digits(), k - 1);
      NextDigit(k - 1);
      assert Digits()[k - 1] == 0x30 + k;
      CheckStep(AfterDigits(k - 1), k, AfterDigits(k));
    }
  }

  /** The check value the catalogues of CRC algorithms give for CRC-32: the checksum of the nine
      digits "123456789" is 0xCBF43926. It fixes polynomial, bit order, start value and final xor. */
  lemma CheckValue()
    ensures Crc([0x31, 0x32, 0x33, 0x34, 0x35, 0x36, 0x37, 0x38, 0x39]) == 0xCBF4_3926
  {
    hide Register;
    DigitsFed(9);
    assert Digits()[..9] == Digits();
  }
}
