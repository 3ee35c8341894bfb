/** Table-driven CRC-32C (src/digest.cpp) against the division of section 12.1 of RFC 3720. */
module Crc32c {

  const GENERATOR: bv32 := 0x1EDC6F41
  const POLYNOMIAL: bv32 := 0x82F63B78
  const ALL_ONES: bv32 := 0xFFFFFFFF

  /** Addition of polynomials over GF(2). */
  function Xor(x: bv32, y: bv32): bv32 { x ^ y }

  function BitValue(bit: bool): bv32 { if bit then 1 else 0 }

  predicate LowBit(x: bv32) { x & 1 != 0 }

  predicate TopBit(x: bv32) { x & 0x8000_0000 != 0 }

  function Half(x: bv32): bv32 { x >> 1 }

  function Twice(x: bv32): bv32 { x << 1 }

  // ---- The definition: long division, one message bit at a time ----------------------------

  /** One step of the division: the register takes in a bit and is reduced by the generator polynomial. */
  function DivideBit(register: bv32, bit: bool): bv32 {
    Xor(Twice(register), if TopBit(register) != bit then GENERATOR else 0)
  }

  /** A byte without its lowest i bits. */
  function Drop(b: bv8, i: nat): bv32 {
    if i == 0 then b as bv32 else Half(Drop(b, i - 1))
  }

  /** The bits of a byte enter lowest first. */
  function DivideByte(register: bv32, b: bv8, bits: nat): bv32 {
    if bits == 0 then register else DivideBit(DivideByte(register, b, bits - 1), LowBit(Drop(b, bits - 1)))
  }

  function Divide(register: bv32, data: seq<bv8>): bv32 {
    if data == [] then register else DivideByte(Divide(register, data[..|data| - 1]), data[|data| - 1], 8)
  }

  /** The register with its bits in the opposite order. */
  function Reflect(x: bv32): bv32 {
    var a := ((x >> 1) & 0x5555_5555) | ((x & 0x5555_5555) << 1);
    var b := ((a >> 2) & 0x3333_3333) | ((a & 0x3333_3333) << 2);
    var c := ((b >> 4) & 0x0F0F_0F0F) | ((b & 0x0F0F_0F0F) << 4);
    var d := ((c >> 8) & 0x00FF_00FF) | ((c & 0x00FF_00FF) << 8);
    (d >> 16) | (d << 16)
  }

  /** Start from all ones, divide, reflect, complement. */
  function Checksum(data: seq<bv8>): bv32 {
    Xor(Reflect(Divide(ALL_ONES, data)), ALL_ONES)
  }

  // ---- The register of the implementation ----------------------------------------------------

  /** One round of crc32c_entry. */
  function Shift(x: bv32): bv32 {
    Xor(Half(x), if LowBit(x) then POLYNOMIAL else 0)
  }

  function Shifts(x: bv32, n: nat): bv32
    decreases n
  {
    if n == 0 then x else Shifts(Shift(x), n - 1)
  }

  /** A byte fed into the register. */
  function Feed(x: bv32, b: bv8): bv32 {
    Shifts(Xor(x, b as bv32), 8)
  }

  function Register(x: bv32, data: seq<bv8>): bv32 {
    if data == [] then x else Feed(Register(x, data[..|data| - 1]), data[|data| - 1])
  }

  // ---- Facts about single words ----------------------------------------------------------------

  lemma HalfOfXor(x: bv32, y: bv32)
    ensures Half(Xor(x, y)) == Xor(Half(x), Half(y))
  {
    assert (x ^ y) >> 1 == (x >> 1) ^ (y >> 1);
  }

  lemma LowBitOfXor(x: bv32, y: bv32)
    ensures LowBit(Xor(x, y)) <==> (LowBit(x) != LowBit(y))
  {
  }

  lemma XorZero(x: bv32)
    ensures Xor(x, 0) == x
  {
  }

  lemma XorSelf(x: bv32)
    ensures Xor(x, x) == 0
  {
  }

  lemma XorCommutes(x: bv32, y: bv32)
    ensures Xor(x, y) == Xor(y, x)
  {
  }

  lemma XorGroups(x: bv32, y: bv32, z: bv32)
    ensures Xor(Xor(x, y), z) == Xor(x, Xor(y, z))
  {
    assert (x ^ y) ^ z == x ^ (y ^ z);
  }

  /** With both operands multiples of the polynomial or not, the polynomial cancels or stays. */
  lemma XorRegroup(x: bv32, y: bv32, p: bv32, q: bv32)
    ensures Xor(Xor(x, p), Xor(y, q)) == Xor(Xor(x, y), Xor(p, q))
  {
    hide Xor;
    XorGroups(x, p, Xor(y, q));
    XorGroups(p, y, q);
    XorCommutes(p, y);
    XorGroups(y, p, q);
    XorGroups(x, y, Xor(p, q));
  }

  lemma Cancel(x: bv32, y: bv32, p: bv32)
    requires Xor(x, p) == Xor(y, p)
    ensures x == y
  {
    hide Xor;
    XorGroups(x, p, p);
    XorGroups(y, p, p);
    XorSelf(p);
    XorZero(x);
    XorZero(y);
  }

  lemma ShiftLinear(x: bv32, y: bv32)
    ensures Shift(Xor(x, y)) == Xor(Shift(x), Shift(y))
  {
    hide Xor, Half, LowBit;
    var p := if LowBit(x) then POLYNOMIAL else 0;
    var q := if LowBit(y) then POLYNOMIAL else 0;
    HalfOfXor(x, y);
    LowBitOfXor(x, y);
    XorRegroup(Half(x), Half(y), p, q);
    XorZero(POLYNOMIAL);
    XorZero(0);
    XorCommutes(0, POLYNOMIAL);
    XorSelf(POLYNOMIAL);
  }

  lemma ShiftEven(x: bv32)
    requires !LowBit(x)
    ensures Shift(x) == Half(x)
  {
    hide Xor, Half, LowBit;
    XorZero(Half(x));
  }

  lemma TopBitOfHalf(x: bv32)
    ensures !TopBit(Half(x)) && TopBit(Xor(Half(x), POLYNOMIAL))
  {
  }

  lemma HalfAndLowBit(x: bv32, y: bv32)
    requires Half(x) == Half(y) && LowBit(x) == LowBit(y)
    ensures x == y
  {
  }

  /** The register step can be undone: the top bit tells whether the polynomial was added. */
  lemma ShiftInjective(x: bv32, y: bv32)
    requires Shift(x) == Shift(y)
    ensures x == y
  {
    hide Xor, Half, LowBit, TopBit;
    TopBitOfHalf(x);
    TopBitOfHalf(y);
    XorZero(Half(x));
    XorZero(Half(y));
    if LowBit(x) { Cancel(Half(x), Half(y), POLYNOMIAL); }
    HalfAndLowBit(x, y);
  }

  lemma {:induction false} ShiftsInjective(x: bv32, y: bv32, n: nat)
    requires Shifts(x, n) == Shifts(y, n)
    ensures x == y
    decreases n
  {
    hide Shift;
    if n > 0 {
      ShiftsInjective(Shift(x), Shift(y), n - 1);
      ShiftInjective(x, y);
    }
  }

  lemma {:induction false} ShiftsLinear(x: bv32, y: bv32, n: nat)
    ensures Shifts(Xor(x, y), n) == Xor(Shifts(x, n), Shifts(y, n))
    decreases n
  {
    hide Shift, Xor;
    if n > 0 {
      ShiftLinear(x, y);
      ShiftsLinear(Shift(x), Shift(y), n - 1);
    }
  }

  lemma {:induction false} ShiftsAdd(x: bv32, m: nat, n: nat)
    ensures Shifts(x, m + n) == Shifts(Shifts(x, m), n)
    decreases m
  {
    hide Shift;
    if m > 0 { ShiftsAdd(Shift(x), m - 1, n); }
  }

  // ---- The register is the reflected division -------------------------------------------------

  lemma ReflectShifted(x: bv32)
    ensures Reflect(x >> 1) == Reflect(x) << 1
  {
  }

  lemma ReflectHalf(x: bv32)
    ensures Reflect(Half(x)) == Twice(Reflect(x))
  {
    hide Reflect;
    ReflectShifted(x);
  }

  lemma ReflectXor(x: bv32, y: bv32)
    ensures Reflect(Xor(x, y)) == Xor(Reflect(x), Reflect(y))
  {
  }

  lemma ReflectTop(x: bv32)
    ensures TopBit(Reflect(x)) <==> LowBit(x)
  {
  }

  lemma ReflectConstants()
    ensures Reflect(POLYNOMIAL) == GENERATOR && Reflect(ALL_ONES) == ALL_ONES && Reflect(0) == 0
  {
  }

  lemma HalfOfBit(bit: bool)
    ensures Half(BitValue(bit)) == 0 && LowBit(BitValue(bit)) == bit
  {
  }

  /** Shifting right by the reflected polynomial is one step of the division, seen in a mirror. */
  lemma ReflectShift(x: bv32, bit: bool)
    ensures Reflect(Shift(Xor(x, BitValue(bit)))) == DivideBit(Reflect(x), bit)
  {
    hide Reflect, Xor, Half, Twice, LowBit, TopBit, BitValue;
    var fed := Xor(x, BitValue(bit));
    HalfOfXor(x, BitValue(bit));
    HalfOfBit(bit);
    XorZero(Half(x));
    LowBitOfXor(x, BitValue(bit));
    ReflectHalf(x);
    ReflectTop(x);
    ReflectXor(Half(fed), if LowBit(fed) then POLYNOMIAL else 0);
    ReflectConstants();
  }

  /** The register after the lowest bits of a byte. */
  function FeedBits(x: bv32, b: bv8, bits: nat): bv32 {
    if bits == 0 then x else Shift(Xor(FeedBits(x, b, bits - 1), BitValue(LowBit(Drop(b, bits - 1)))))
  }

  lemma {:induction false} FeedBitsDivides(x: bv32, b: bv8, bits: nat)
    ensures Reflect(FeedBits(x, b, bits)) == DivideByte(Reflect(x), b, bits)
  {
    hide Reflect, Shift, DivideBit, LowBit, Drop, Xor, BitValue;
    if bits > 0 {
      FeedBitsDivides(x, b, bits - 1);
      ReflectShift(FeedBits(x, b, bits - 1), LowBit(Drop(b, bits - 1)));
    }
  }

  lemma WithoutLowBit(y: bv32)
    ensures exists even :: y == Xor(BitValue(LowBit(y)), even) && !LowBit(even) && Half(even) == Half(y)
  {
    var even := y & 0xFFFF_FFFE;
    assert y == Xor(BitValue(LowBit(y)), even);
    assert Half(even) == Half(y);
    assert !LowBit(even);
  }

  /** Shift before n more shifts, or after them. */
  lemma {:induction false} ShiftLast(x: bv32, n: nat)
    ensures Shifts(x, n + 1) == Shift(Shifts(x, n))
  {
    hide Shift;
    ShiftsAdd(x, n, 1);
    assert Shifts(Shifts(x, n), 1) == Shifts(Shift(Shifts(x, n)), 0);
  }

  /** Feeding a byte at once and shifting is feeding its bits one by one, with the unread bits still to come. */
  lemma {:induction false} FeedAtOnce(x: bv32, b: bv8, bits: nat)
    ensures Shifts(Xor(x, b as bv32), bits) == Xor(FeedBits(x, b, bits), Drop(b, bits))
  {
    hide Shift, Xor, LowBit, BitValue, Half;
    if bits > 0 {
      var fed, y := FeedBits(x, b, bits - 1), Drop(b, bits - 1);
      FeedAtOnce(x, b, bits - 1);
      ShiftLast(Xor(x, b as bv32), bits - 1);
      WithoutLowBit(y);
      var even :| y == Xor(BitValue(LowBit(y)), even) && !LowBit(even) && Half(even) == Half(y);
      XorGroups(fed, BitValue(LowBit(y)), even);
      ShiftLinear(Xor(fed, BitValue(LowBit(y))), even);
      ShiftEven(even);
    }
  }

  lemma NothingLeft(b: bv8)
    ensures Drop(b, 8) == 0
  {
    var w := b as bv32;
    assert Drop(b, 1) == w >> 1;
    assert Drop(b, 2) == w >> 2;
    assert Drop(b, 3) == w >> 3;
    assert Drop(b, 4) == w >> 4;
    assert Drop(b, 5) == w >> 5;
    assert Drop(b, 6) == w >> 6;
    assert Drop(b, 7) == w >> 7;
    assert Drop(b, 8) == w >> 8;
  }

  lemma FeedDivides(x: bv32, b: bv8)
    ensures Reflect(Feed(x, b)) == DivideByte(Reflect(x), b, 8)
  {
    hide Reflect, Shift, Xor, Drop, FeedBits, DivideByte, Shifts;
    FeedAtOnce(x, b, 8);
    NothingLeft(b);
    XorZero(FeedBits(x, b, 8));
    FeedBitsDivides(x, b, 8);
  }

  lemma {:induction false} RegisterDivides(x: bv32, data: seq<bv8>)
    ensures Reflect(Register(x, data)) == Divide(Reflect(x), data)
  {
    hide Reflect, Feed, DivideByte;
    if data != [] {
      var m := |data| - 1;
      RegisterDivides(x, data[..m]);
      FeedDivides(Register(x, data[..m]), data[m]);
    }
  }

  lemma ReflectTwice(x: bv32)
    ensures Reflect(Reflect(x)) == x
  {
  }

  /** The complemented register is the checksum defined by the division. */
  lemma RegisterIsChecksum(data: seq<bv8>)
    ensures Xor(Register(ALL_ONES, data), ALL_ONES) == Checksum(data)
  {
    hide Reflect, Register, Divide, Xor;
    RegisterDivides(ALL_ONES, data);
    ReflectConstants();
    ReflectTwice(Register(ALL_ONES, data));
  }

  // ---- The table ----------------------------------------------------------------------------------

  predicate IsTable(table: seq<bv32>) {
    |table| == 256 && forall i :: 0 <= i < 256 ==> table[i] == Shifts(i as bv32, 8)
  }

  method Crc32cEntry(seed: bv32) returns (crc: bv32)
    ensures crc == Shifts(seed, 8)
  {
    hide Shift;
    crc := seed;
    for bit := 0 to 8
      invariant Shifts(seed, 8) == Shifts(crc, 8 - bit)
    {
      crc := Shift(crc);
    }
  }

  method MakeTable() returns (table: seq<bv32>)
    ensures IsTable(table)
  {
    hide Shifts;
    table := [];
    for i := 0 to 256
      invariant |table| == i && forall k :: 0 <= k < i ==> table[k] == Shifts(k as bv32, 8)
    {
      var entry := Crc32cEntry(i as bv32);
      table := table + [entry];
    }
  }

  lemma LookUp(table: seq<bv32>, v: bv32)
    requires IsTable(table) && v <= 255
    ensures v as int < 256 && table[v as int] == Shifts(v, 8)
  {
    hide Shifts;
    assert (v as int) as bv32 == v;
  }

  /** The low byte of the register decides, the rest moves down. */
  lemma SplitRegister(x: bv32)
    ensures x == Xor(x & 0xFF, x & 0xFFFF_FF00)
  {
  }

  predicate LowByteClear(y: bv32) {
    && !LowBit(y) && !LowBit(y >> 1) && !LowBit(y >> 2) && !LowBit(y >> 3)
    && !LowBit(y >> 4) && !LowBit(y >> 5) && !LowBit(y >> 6) && !LowBit(y >> 7)
  }

  lemma MaskClears(x: bv32)
    ensures LowByteClear(x & 0xFFFF_FF00)
  {
  }

  lemma HalfAgain(y: bv32)
    ensures Half(y) == y >> 1 && Half(y >> 1) == y >> 2 && Half(y >> 2) == y >> 3 && Half(y >> 3) == y >> 4
    ensures Half(y >> 4) == y >> 5 && Half(y >> 5) == y >> 6 && Half(y >> 6) == y >> 7 && Half(y >> 7) == y >> 8
  {
  }

  lemma HighBytesDown(x: bv32)
    ensures (x & 0xFFFF_FF00) >> 8 == x >> 8
  {
  }

  lemma HalvesOf(y: bv32) returns (b: bv32, c: bv32, d: bv32, e: bv32, f: bv32, g: bv32, h: bv32, i: bv32)
    ensures b == y >> 1 && c == y >> 2 && d == y >> 3 && e == y >> 4 && f == y >> 5 && g == y >> 6 && h == y >> 7
    ensures i == y >> 8
    ensures Half(y) == b && Half(b) == c && Half(c) == d && Half(d) == e
    ensures Half(e) == f && Half(f) == g && Half(g) == h && Half(h) == i
  {
    b, c, d, e, f, g, h, i := y >> 1, y >> 2, y >> 3, y >> 4, y >> 5, y >> 6, y >> 7, y >> 8;
    hide Half;
    HalfAgain(y);
  }

  lemma ShiftsWhenClear(y: bv32)
    requires LowByteClear(y)
    ensures Shifts(y, 8) == y >> 8
  {
    hide Shifts, LowBit, Half;
    var b, c, d, e, f, g, h, i := HalvesOf(y);
    EightHalves(y, b, c, d, e, f, g, h, i);
  }

  lemma ShiftsOfHighBytes(x: bv32)
    ensures Shifts(x & 0xFFFF_FF00, 8) == x >> 8
  {
    hide Shifts, LowByteClear;
    HighBytesDown(x);
    MaskClears(x);
    ShiftsWhenClear(x & 0xFFFF_FF00);
  }

  lemma EightHalves(a: bv32, b: bv32, c: bv32, d: bv32, e: bv32, f: bv32, g: bv32, h: bv32, i: bv32)
    requires Half(a) == b && Half(b) == c && Half(c) == d && Half(d) == e
    requires Half(e) == f && Half(f) == g && Half(g) == h && Half(h) == i
    requires !LowBit(a) && !LowBit(b) && !LowBit(c) && !LowBit(d) && !LowBit(e) && !LowBit(f) && !LowBit(g)
    requires !LowBit(h)
    ensures Shifts(a, 8) == i
  {
    ShiftEven(a);
    ShiftEven(b);
    ShiftEven(c);
    ShiftEven(d);
    ShiftEven(e);
    ShiftEven(f);
    ShiftEven(g);
    ShiftEven(h);
    hide Shift, Half, LowBit;
    assert Shifts(a, 8) == Shifts(b, 7) == Shifts(c, 6);
    assert Shifts(c, 6) == Shifts(d, 5) == Shifts(e, 4);
    assert Shifts(e, 4) == Shifts(f, 3) == Shifts(g, 2);
    assert Shifts(g, 2) == Shifts(h, 1) == Shifts(i, 0);
  }

  lemma LowByte(x: bv32)
    ensures x & 0xFF <= 255
  {
  }

  lemma HighUnchanged(crc: bv32, b: bv8)
    ensures (crc ^ (b as bv32)) >> 8 == crc >> 8
  {
  }

  lemma FeedBySplit(x: bv32)
    ensures Shifts(x, 8) == Xor(Shifts(x & 0xFF, 8), x >> 8)
  {
    hide Xor, Shifts;
    SplitRegister(x);
    ShiftsLinear(x & 0xFF, x & 0xFFFF_FF00, 8);
    ShiftsOfHighBytes(x);
  }

  function Mixed(crc: bv32, b: bv8): bv32 { crc ^ (b as bv32) }

  lemma MixedIsXor(crc: bv32, b: bv8)
    ensures Mixed(crc, b) == Xor(crc, b as bv32) && Mixed(crc, b) >> 8 == crc >> 8
  {
    HighUnchanged(crc, b);
  }

  /** One table step feeds one byte. */
  lemma TableStep(table: seq<bv32>, crc: bv32, b: bv8)
    requires IsTable(table)
    ensures (Mixed(crc, b) & 0xFF) as int < |table|
    ensures Xor(table[(Mixed(crc, b) & 0xFF) as int], crc >> 8) == Feed(crc, b)
  {
    hide Xor, Shifts, Mixed;
    MixedIsXor(crc, b);
    LowByte(Mixed(crc, b));
    LookUp(table, Mixed(crc, b) & 0xFF);
    FeedBySplit(Mixed(crc, b));
  }

  /** crc32c: the table-driven loop computes the checksum defined by the division. */
  method ComputeCrc32c(table: seq<bv32>, data: seq<bv8>) returns (crc: bv32)
    requires IsTable(table)
    ensures crc == Checksum(data)
  {
    hide Feed, IsTable, Checksum, Mixed, Xor;
    crc := ALL_ONES;
    assert data[..0] == [];
    for i := 0 to |data|
      invariant crc == Register(ALL_ONES, data[..i])
    {
      assert data[..i + 1][..i] == data[..i];
      TableStep(table, crc, data[i]);
      crc := Xor(table[(Mixed(crc, data[i]) & 0xFF) as int], crc >> 8);
    }
    assert data[..|data|] == data;
    RegisterIsChecksum(data);
    crc := Xor(crc, ALL_ONES);
  }

  // ---- Error detection ---------------------------------------------------------------------------

  lemma FeedInjective(x: bv32, y: bv32, b: bv8)
    requires Feed(x, b) == Feed(y, b)
    ensures x == y
  {
    hide Shifts, Xor;
    ShiftsInjective(Xor(x, b as bv32), Xor(y, b as bv32), 8);
    Cancel(x, y, b as bv32);
  }

  lemma {:induction false} RegisterInjective(x: bv32, y: bv32, data: seq<bv8>)
    requires Register(x, data) == Register(y, data)
    ensures x == y
  {
    hide Feed;
    if data != [] {
      var m := |data| - 1;
      FeedInjective(Register(x, data[..m]), Register(y, data[..m]), data[m]);
      RegisterInjective(x, y, data[..m]);
    }
  }

  lemma {:induction false} RegisterConcat(x: bv32, a: seq<bv8>, b: seq<bv8>)
    ensures Register(x, a + b) == Register(Register(x, a), b)
  {
    hide Feed;
    if b == [] {
      assert a + b == a;
    } else {
      var m := |b| - 1;
      RegisterConcat(x, a, b[..m]);
      assert (a + b)[..|a| + m] == a + b[..m];
    }
  }

  function Lift(b: bv8, bytes: nat): bv32 {
    if bytes == 0 then b as bv32 else Lift(b, bytes - 1) << 8
  }

  lemma LiftedAreSmall(b: bv8)
    ensures Lift(b, 0) <= 0xFF && Lift(b, 1) <= 0xFFFF && Lift(b, 2) <= 0xFF_FFFF
  {
    var w := b as bv32;
    assert Lift(b, 1) == w << 8;
    assert Lift(b, 2) == (w << 8) << 8;
  }

  lemma UpAndDown(c: bv32)
    requires c <= 0xFF_FFFF
    ensures (c << 8) >> 8 == c && LowByteClear(c << 8)
  {
  }

  lemma LiftSteps(b: bv8, bytes: nat)
    ensures Lift(b, 0) == b as bv32 && (bytes > 0 ==> Lift(b, bytes) == Lift(b, bytes - 1) << 8)
  {
  }

  lemma UpThenDown(c: bv32)
    requires c <= 0xFF_FFFF
    ensures Shifts(c << 8, 8) == c
  {
    hide Shifts, LowByteClear;
    UpAndDown(c);
    ShiftsWhenClear(c << 8);
  }

  lemma LiftComesDownOne(b: bv8, bytes: nat)
    requires 1 <= bytes <= 3
    ensures Shifts(Lift(b, bytes), 8) == Lift(b, bytes - 1)
  {
    hide Shifts, Lift;
    LiftSteps(b, bytes);
    AtMost(b, bytes - 1);
    UpThenDown(Lift(b, bytes - 1));
  }

  lemma AtMost(b: bv8, bytes: nat)
    requires bytes <= 2
    ensures Lift(b, bytes) <= 0xFF_FFFF
  {
    LiftedAreSmall(b);
    hide Lift;
  }

  /** A byte lifted into the register comes down again after eight shifts per byte. */
  lemma {:induction false} LiftComesDown(b: bv8, bytes: nat)
    requires bytes <= 3
    ensures Shifts(Lift(b, bytes), 8 * bytes) == b as bv32
  {
    hide Shifts, Lift;
    LiftSteps(b, 0);
    if bytes == 0 {
      NoShift(Lift(b, 0));
    } else {
      LiftComesDownOne(b, bytes);
      LiftComesDown(b, bytes - 1);
      ShiftsAdd(Lift(b, bytes), 8, 8 * (bytes - 1));
    }
  }

  lemma NoShift(x: bv32)
    ensures Shifts(x, 0) == x
  {
  }

  /** Feeding the next byte later is adding it, lifted, now. */
  lemma FeedLater(y: bv32, b: bv8, bytes: nat)
    requires bytes <= 3
    ensures Feed(Shifts(y, 8 * bytes), b) == Shifts(Xor(y, Lift(b, bytes)), 8 * bytes + 8)
  {
    hide Shifts, Xor, Lift;
    LiftComesDown(b, bytes);
    ShiftsLinear(y, Lift(b, bytes), 8 * bytes);
    ShiftsAdd(Xor(y, Lift(b, bytes)), 8 * bytes, 8);
  }

  function Packed(x: bv32, b: seq<bv8>): bv32
    requires |b| == 4
  {
    Xor(Xor(Xor(Xor(x, Lift(b[0], 0)), Lift(b[1], 1)), Lift(b[2], 2)), Lift(b[3], 3))
  }

  lemma RegisterOfFour(x: bv32, b: seq<bv8>)
    requires |b| == 4
    ensures Register(x, b) == Shifts(Packed(x, b), 32)
  {
    hide Shifts, Xor, Lift, Feed;
    assert b[..4] == b && b[..4][..3] == b[..3] && b[..3][..2] == b[..2] && b[..2][..1] == b[..1] && b[..1][..0] == [];
    assert Register(x, b[..0]) == x;
    assert Register(x, b[..1]) == Feed(x, b[0]);
    assert Register(x, b[..2]) == Feed(Register(x, b[..1]), b[1]);
    assert Register(x, b[..3]) == Feed(Register(x, b[..2]), b[2]);
    assert Register(x, b) == Feed(Register(x, b[..3]), b[3]);
    NoShift(x);
    var y1 := Xor(x, Lift(b[0], 0));
    var y2 := Xor(y1, Lift(b[1], 1));
    var y3 := Xor(y2, Lift(b[2], 2));
    FeedLater(x, b[0], 0);
    FeedLater(y1, b[1], 1);
    FeedLater(y2, b[2], 2);
    FeedLater(y3, b[3], 3);
  }

  lemma LiftedBytes(b: bv8)
    ensures Lift(b, 0) == b as bv32 && Lift(b, 1) == (b as bv32) << 8
    ensures Lift(b, 2) == (b as bv32) << 16 && Lift(b, 3) == (b as bv32) << 24
  {
    var w := b as bv32;
    assert Lift(b, 1) == w << 8;
    assert Lift(b, 2) == (w << 8) << 8 == w << 16;
    assert Lift(b, 3) == (w << 16) << 8 == w << 24;
  }

  function FourBytes(x: bv32, b0: bv8, b1: bv8, b2: bv8, b3: bv8): bv32 {
    (((x ^ (b0 as bv32)) ^ ((b1 as bv32) << 8)) ^ ((b2 as bv32) << 16)) ^ ((b3 as bv32) << 24)
  }

  lemma FourBytesInjective(x: bv32, a0: bv8, a1: bv8, a2: bv8, a3: bv8, b0: bv8, b1: bv8, b2: bv8, b3: bv8)
    requires FourBytes(x, a0, a1, a2, a3) == FourBytes(x, b0, b1, b2, b3)
    ensures a0 == b0 && a1 == b1 && a2 == b2 && a3 == b3
  {
  }

  lemma PackedIsFourBytes(x: bv32, b: seq<bv8>)
    requires |b| == 4
    ensures Packed(x, b) == FourBytes(x, b[0], b[1], b[2], b[3])
  {
    hide Lift;
    LiftedBytes(b[0]);
    LiftedBytes(b[1]);
    LiftedBytes(b[2]);
    LiftedBytes(b[3]);
  }

  lemma PackedInjective(x: bv32, a: seq<bv8>, b: seq<bv8>)
    requires |a| == |b| == 4 && Packed(x, a) == Packed(x, b)
    ensures a == b
  {
    hide Packed, FourBytes;
    PackedIsFourBytes(x, a);
    PackedIsFourBytes(x, b);
    FourBytesInjective(x, a[0], a[1], a[2], a[3], b[0], b[1], b[2], b[3]);
  }

  /** Up to four bytes, fed into the same register, leave different registers unless they are the same. */
  lemma {:induction false} ShortInputsDiffer(x: bv32, a: seq<bv8>, b: seq<bv8>)
    requires |a| == |b| <= 4 && Register(x, a) == Register(x, b)
    ensures a == b
    decreases 4 - |a|
  {
    hide Feed, Shifts, Packed;
    if |a| == 4 {
      RegisterOfFour(x, a);
      RegisterOfFour(x, b);
      ShiftsInjective(Packed(x, a), Packed(x, b), 32);
      PackedInjective(x, a, b);
    } else {
      RegisterConcat(x, a, [0]);
      RegisterConcat(x, b, [0]);
      ShortInputsDiffer(x, a + [0], b + [0]);
      assert (a + [0])[..|a|] == a && (b + [0])[..|b|] == b;
    }
  }

  /**
   Any damage confined to at most four consecutive bytes changes the checksum; in particular two payloads of
   equal length that differ in exactly one byte never have the same checksum.
   */
  lemma BurstIsDetected(before: seq<bv8>, a: seq<bv8>, b: seq<bv8>, after: seq<bv8>)
    requires |a| == |b| <= 4 && a != b
    ensures Checksum(before + a + after) != Checksum(before + b + after)
  {
    hide Checksum, Register, Xor;
    RegisterIsChecksum(before + a + after);
    RegisterIsChecksum(before + b + after);
    if Checksum(before + a + after) == Checksum(before + b + after) {
      Cancel(Register(ALL_ONES, before + a + after), Register(ALL_ONES, before + b + after), ALL_ONES);
      RegisterConcat(ALL_ONES, before + a, after);
      RegisterConcat(ALL_ONES, before + b, after);
      RegisterInjective(Register(ALL_ONES, before + a), Register(ALL_ONES, before + b), after);
      RegisterConcat(ALL_ONES, before, a);
      RegisterConcat(ALL_ONES, before, b);
      ShortInputsDiffer(Register(ALL_ONES, before), a, b);
    }
  }
}
