/**
 The CRC and chunk encoder of experiments/image-transformations/lib.ts, against the
 bit-at-a-time CRC of section 3.4 of RFC 2083 and the chunk layout of its section 3.2.
 */

/** Iterated shifts, over any words; the CRC instantiates them with 32-bit ones. */
module ShiftRegister {

  function Iter<T>(f: T -> T, c: T, k: nat): T
    decreases k
  {
    if k == 0 then c else Iter(f, f(c), k - 1)
  }

  /** A register `c` takes in the `k` low bits of `y`, lowest first. */
  function Feed<T>(step: (T, bool) -> T, odd: T -> bool, half: T -> T, c: T, y: T, k: nat): T
    decreases k
  {
    if k == 0 then c else Feed(step, odd, half, step(c, odd(y)), half(y), k - 1)
  }

  /** The low `k` bits of `y` are zero. */
  predicate LowZero<T>(odd: T -> bool, half: T -> T, y: T, k: nat)
    decreases k
  {
    k == 0 || (!odd(y) && LowZero(odd, half, half(y), k - 1))
  }

  /** What ties shifting a register to feeding it a bit. */
  ghost predicate Ties<T(!new)>(xor: (T, T) -> T, shift: T -> T, step: (T, bool) -> T, odd: T -> bool, half: T -> T) {
    forall r, y :: shift(xor(r, y)) == xor(step(r, odd(y)), half(y))
  }

  /** A zero bit only shifts. */
  ghost predicate ZeroShifts<T(!new)>(shift: T -> T, step: (T, bool) -> T) {
    forall r :: step(r, false) == shift(r)
  }

  lemma {:induction false} IterFeeds<T(!new)>(xor: (T, T) -> T, shift: T -> T, step: (T, bool) -> T, odd: T -> bool,
        half: T -> T,
                                              r: T, y: T, k: nat)
    requires Ties(xor, shift, step, odd, half)
    ensures Iter(shift, xor(r, y), k) == xor(Feed(step, odd, half, r, y, k), Iter(half, y, k))
    decreases k
  {
    if k > 0 { IterFeeds(xor, shift, step, odd, half, step(r, odd(y)), half(y), k - 1); }
  }

  lemma {:induction false} FeedZeros<T(!new)>(shift: T -> T, step: (T, bool) -> T, odd: T -> bool, half: T -> T, r: T,
        y: T, k: nat)
    requires ZeroShifts(shift, step) && LowZero(odd, half, y, k)
    ensures Feed(step, odd, half, r, y, k) == Iter(shift, r, k)
    decreases k
  {
    if k > 0 { FeedZeros(shift, step, odd, half, step(r, false), half(y), k - 1); }
  }

  // How shift and step are made of parity, halving and a conditional mix.

  ghost predicate OddMixes<T(!new)>(xor: (T, T) -> T, odd: T -> bool) {
    forall r, y {:trigger odd(xor(r, y))} :: odd(xor(r, y)) == (odd(r) != odd(y))
  }

  ghost predicate HalfMixes<T(!new)>(xor: (T, T) -> T, half: T -> T) {
    forall r, y {:trigger half(xor(r, y))} :: half(xor(r, y)) == xor(half(r), half(y))
  }

  ghost predicate MixMixes<T(!new)>(xor: (T, T) -> T, mix: (bool, T) -> T) {
    forall b, r, y {:trigger mix(b, xor(r, y))} :: mix(b, xor(r, y)) == xor(mix(b, r), y)
  }

  ghost predicate ShiftMixes<T(!new)>(shift: T -> T, odd: T -> bool, half: T -> T, mix: (bool, T) -> T) {
    forall c {:trigger shift(c)} :: shift(c) == mix(odd(c), half(c))
  }

  ghost predicate StepMixes<T(!new)>(step: (T, bool) -> T, odd: T -> bool, half: T -> T, mix: (bool, T) -> T) {
    forall c, bit {:trigger step(c, bit)} :: step(c, bit) == mix(odd(c) != bit, half(c))
  }

  lemma {:induction false} MixingTies<T(!new)>(xor: (T, T) -> T, shift: T -> T, step: (T, bool) -> T, odd: T -> bool,
        half: T -> T,
                                               mix: (bool, T) -> T)
    requires OddMixes(xor, odd) && HalfMixes(xor, half) && MixMixes(xor, mix)
    requires ShiftMixes(shift, odd, half, mix) && StepMixes(step, odd, half, mix)
    ensures Ties(xor, shift, step, odd, half) && ZeroShifts(shift, step)
  {
  }

  ghost predicate Neutral<T(!new)>(xor: (T, T) -> T, zero: T) { forall a :: xor(a, zero) == a }

  /** Words split into a low part and a high part that is zero below; `down` drops the low part. */
  ghost predicate Splits<T(!new)>(xor: (T, T) -> T, odd: T -> bool, half: T -> T, low: T -> T, high: T -> T,
        down: T -> T, k: nat) {
    && (forall x :: xor(low(x), high(x)) == x)
    && (forall x :: LowZero(odd, half, high(x), k))
    && (forall x :: Iter(half, x, k) == down(x))
  }

  /** Feeding a short `y` is shifting the low part of the mixture and moving the rest down. */
  lemma {:induction false} FeedSplits<T(!new)>(xor: (T, T) -> T, shift: T -> T, step: (T, bool) -> T, odd: T -> bool,
        half: T -> T,
                                               low: T -> T, high: T -> T, down: T -> T, c: T, y: T, k: nat)
    requires Ties(xor, shift, step, odd, half) && ZeroShifts(shift, step) && Splits(xor, odd, half, low, high, down, k)
    requires Neutral(xor, down(y)) && down(high(xor(c, y))) == down(c)
    ensures Feed(step, odd, half, c, y, k) == xor(Iter(shift, low(xor(c, y)), k), down(c))
    ensures Feed(step, odd, half, c, y, k) == Iter(shift, xor(c, y), k)
  {
    var x := xor(c, y);
    IterFeeds(xor, shift, step, odd, half, c, y, k);
    assert Iter(half, y, k) == down(y);
    IterFeeds(xor, shift, step, odd, half, low(x), high(x), k);
    FeedZeros(shift, step, odd, half, low(x), high(x), k);
    assert Iter(half, high(x), k) == down(high(x));
  }

  lemma {:induction false} IterFour<T>(f: T -> T, c: T, k: nat)
    requires k >= 4
    ensures Iter(f, c, k) == Iter(f, f(f(f(f(c)))), k - 4)
  {
    assert Iter(f, c, k) == Iter(f, f(c), k - 1) == Iter(f, f(f(c)), k - 2);
    assert Iter(f, f(f(c)), k - 2) == Iter(f, f(f(f(c))), k - 3) == Iter(f, f(f(f(f(c)))), k - 4);
  }

  lemma {:induction false} IterEight<T>(f: T -> T, c: T, k: nat)
    requires k == 8
    ensures Iter(f, c, k) == f(f(f(f(f(f(f(f(c))))))))
  {
    IterFour(f, c, k);
    IterFour(f, f(f(f(f(c)))), k - 4);
  }

  lemma {:induction false} LowZeroFour<T>(odd: T -> bool, half: T -> T, y: T, k: nat)
    requires k >= 4 && !odd(y) && !odd(half(y)) && !odd(half(half(y))) && !odd(half(half(half(y))))
    requires LowZero(odd, half, half(half(half(half(y)))), k - 4)
    ensures LowZero(odd, half, y, k)
  {
    assert LowZero(odd, half, half(half(half(y))), k - 3);
    assert LowZero(odd, half, half(half(y)), k - 2);
    assert LowZero(odd, half, half(y), k - 1);
  }
}

module Crc {
  import opened ShiftRegister

  type Bytes = seq<bv8>

  const POLY: bv32 := 0xedb88320

  // ----- the reference: one message bit at a time -----

  predicate Odd(y: bv32) { y & 1 == 1 }
  function Half(y: bv32): bv32 { y >> 1 }
  function Xor(a: bv32, b: bv32): bv32 { a ^ b }
  function Mix(b: bool, h: bv32): bv32 { if b then POLY ^ h else h }

  /** The register takes in one bit, least significant end first. */
  function BitStep(c: bv32, bit: bool): bv32 { Mix(Odd(c) != bit, Half(c)) }

  /** One turn of the table's inner loop. */
  function Shift(c: bv32): bv32 { Mix(Odd(c), Half(c)) }

  function TakeByte(c: bv32, b: bv8): bv32 {
    Feed(BitStep, Odd, Half, c, b as bv32, 8)
  }

  function TakeBytes(c: bv32, buf: Bytes): bv32 {
    if buf == [] then c else TakeByte(TakeBytes(c, buf[..|buf| - 1]), buf[|buf| - 1])
  }

  /** Register preset to all ones, result complemented. */
  function CrcOf(buf: Bytes): bv32 { TakeBytes(0xffff_ffff, buf) ^ 0xffff_ffff }

  /** The exponents of the generator polynomial below 32. */
  const EXPONENTS: set<nat> := {0, 1, 2, 4, 5, 7, 8, 10, 11, 12, 16, 22, 23, 26}

  /** The polynomial by its exponents, the highest in the lowest bit. */
  lemma {:induction false} PolyIsReversed(e: nat)
    requires e < 32
    ensures (POLY >> (31 - e) as bv6) & 1 == 1 <==> e in EXPONENTS
  {
  }

  // ----- facts about 32-bit words -----

  function Low(x: bv32): bv32 { x & 0xff }
  function High(x: bv32): bv32 { x & 0xffff_ff00 }
  function Down(x: bv32): bv32 { x >> 8 }

  lemma {:induction false} OddXor()
    ensures OddMixes(Xor, Odd)
  {
  }

  lemma {:induction false} HalfXor()
    ensures HalfMixes(Xor, Half)
  {
  }

  lemma {:induction false} MixXor()
    ensures MixMixes(Xor, Mix)
  {
  }

  lemma {:induction false} ShiftIsMix()
    ensures ShiftMixes(Shift, Odd, Half, Mix)
  {
  }

  lemma {:induction false} StepIsMix()
    ensures StepMixes(BitStep, Odd, Half, Mix)
  {
  }

  lemma {:induction false} RegisterTies()
    ensures Ties(Xor, Shift, BitStep, Odd, Half) && ZeroShifts(Shift, BitStep)
  {
    OddXor();
    HalfXor();
    MixXor();
    ShiftIsMix();
    StepIsMix();
    MixingTies(Xor, Shift, BitStep, Odd, Half, Mix);
  }

  lemma {:induction false} EightHalves(y: bv32)
    ensures Half(Half(Half(Half(Half(Half(Half(Half(y)))))))) == Down(y)
  {
  }

  lemma {:induction false} HalvedIs(y: bv32, k: nat)
    requires k == 8
    ensures Iter(Half, y, k) == Down(y)
  {
    IterEight(Half, y, k);
    EightHalves(y);
  }

  lemma {:induction false} FourZeros(y: bv32)
    requires y & 0xf == 0
    ensures !Odd(y) && !Odd(Half(y)) && !Odd(Half(Half(y))) && !Odd(Half(Half(Half(y))))
    ensures Half(Half(Half(Half(y)))) == y >> 4
  {
  }

  lemma {:induction false} HighZeros(x: bv32)
    ensures High(x) & 0xf == 0 && (High(x) >> 4) & 0xf == 0
  {
  }

  lemma {:induction false} HighHasLowZero(x: bv32, k: nat)
    requires k == 8
    ensures LowZero(Odd, Half, High(x), k)
  {
    HighZeros(x);
    FourZeros(High(x));
    FourZeros(High(x) >> 4);
    LowZeroFour(Odd, Half, High(x) >> 4, k - 4);
    LowZeroFour(Odd, Half, High(x), k);
  }

  lemma {:induction false} LowHigh()
    ensures forall x :: Xor(Low(x), High(x)) == x
  {
  }

  lemma {:induction false} WordsSplit(k: nat)
    requires k == 8
    ensures Splits(Xor, Odd, Half, Low, High, Down, k)
  {
    LowHigh();
    forall x ensures LowZero(Odd, Half, High(x), k) { HighHasLowZero(x, k); }
    forall x ensures Iter(Half, x, k) == Down(x) { HalvedIs(x, k); }
  }

  lemma {:induction false} ByteIsShort(b: bv8)
    ensures Neutral(Xor, Down(b as bv32))
  {
    assert Down(b as bv32) == 0;
  }

  lemma {:induction false} ByteStaysLow(c: bv32, b: bv8)
    ensures Down(High(Xor(c, b as bv32))) == Down(c)
  {
  }

  // ----- the table step -----

  /**
   Taking in a byte is one table look-up on the low byte and a shift of the rest; it is also eight
   shifts of the mixture.
   */
  lemma {:induction false} ByteStep(c: bv32, b: bv8)
    ensures TakeByte(c, b) == Xor(Iter(Shift, Low(Xor(c, b as bv32)), 8), Down(c))
    ensures TakeByte(c, b) == Iter(Shift, Xor(c, b as bv32), 8)
  {
    RegisterTies();
    WordsSplit(8);
    ByteIsShort(b);
    ByteStaysLow(c, b);
    FeedSplits(Xor, Shift, BitStep, Odd, Half, Low, High, Down, c, b as bv32, 8);
  }

  // ----- the code -----

  lemma {:induction false} IterTurn(c: bv32, k: nat)
    requires k > 0
    ensures Iter(Shift, c, k) == Iter(Shift, Shift(c), k - 1)
  {
  }

  function Entry(n: int, turns: nat): bv32
    requires 0 <= n < 256
  {
    Iter(Shift, n as bv32, turns)
  }

  /** Entry `n` of the table is `n` shifted `turns` times. */
  ghost predicate IsTable(t: seq<bv32>, turns: nat) {
    |t| == 256 && forall n :: 0 <= n < 256 ==> t[n] == Entry(n, turns)
  }

  /** `CRC_TABLE`: 256 entries of eight turns each. */
  method BuildTable() returns (t: array<bv32>)
    ensures fresh(t) && IsTable(t[..], 8)
  {
    t := FillTable(8);
  }

  method FillTable(turns: nat) returns (t: array<bv32>)
    ensures fresh(t) && IsTable(t[..], turns)
  {
    t := new bv32[256];
    for n := 0 to 256
      invariant forall m :: 0 <= m < n ==> t[m] == Entry(m, turns)
    {
      var c := TableEntry(n, turns);
      t[n] := c;
    }
  }

  method TableEntry(n: int, turns: nat) returns (c: bv32)
    requires 0 <= n < 256
    ensures c == Entry(n, turns)
  {
    c := n as bv32;
    for k := 0 to turns
      invariant Iter(Shift, c, turns - k) == Entry(n, turns)
    {
      IterTurn(c, turns - k);
      c := if c & 1 == 1 then POLY ^ (c >> 1) else c >> 1;
    }
  }

  lemma {:induction false} WordRoundTrip(x: bv32)
    ensures (x as int) as bv32 == x
  {
  }

  lemma {:induction false} LowByteFits(x: bv32)
    ensures 0 <= Low(x) as int < 256
  {
  }

  /** One turn of the loop of `crc32`. */
  method TableTurn(table: array<bv32>, c: bv32, b: bv8) returns (c': bv32)
    requires IsTable(table[..], 8)
    ensures c' == TakeByte(c, b)
  {
    var x := Low(Xor(c, b as bv32));
    LowByteFits(Xor(c, b as bv32));
    WordRoundTrip(x);
    ByteStep(c, b);
    assert table[..][x as int] == Entry(x as int, 8);
    c' := Xor(table[x as int], Down(c));
  }

  /** The table-driven CRC is the bit-at-a-time one, on every byte string. */
  method Crc32(table: array<bv32>, buf: Bytes) returns (c: bv32)
    requires IsTable(table[..], 8)
    ensures c == CrcOf(buf)
  {
    c := 0xffff_ffff;
    for i := 0 to |buf|
      invariant c == TakeBytes(0xffff_ffff, buf[..i])
    {
      assert buf[..i + 1][..i] == buf[..i];
      c := TableTurn(table, c, buf[i]);
    }
    assert buf[..|buf|] == buf;
    c := c ^ 0xffff_ffff;
  }

  // ----- what the CRC detects -----

  lemma {:induction false} ShiftIsInjective(a: bv32, b: bv32)
    requires Shift(a) == Shift(b)
    ensures a == b
  {
  }

  lemma {:induction false} IterIsInjective(a: bv32, b: bv32, k: nat)
    requires a != b
    ensures Iter(Shift, a, k) != Iter(Shift, b, k)
    decreases k
  {
    if k > 0 {
      if Shift(a) == Shift(b) { ShiftIsInjective(a, b); }
      IterIsInjective(Shift(a), Shift(b), k - 1);
    }
  }

  lemma {:induction false} XorIsInjective(c: bv32, d: bv32, x: bv8, y: bv8)
    ensures c != d ==> Xor(c, x as bv32) != Xor(d, x as bv32)
    ensures x != y ==> Xor(c, x as bv32) != Xor(c, y as bv32)
  {
  }

  /** Different registers stay different through the same byte, and the same register differs after different bytes. */
  lemma {:induction false} BytesTell(c: bv32, d: bv32, x: bv8, y: bv8)
    ensures c != d ==> TakeByte(c, x) != TakeByte(d, x)
    ensures x != y ==> TakeByte(c, x) != TakeByte(c, y)
  {
    ByteStep(c, x);
    ByteStep(d, x);
    ByteStep(c, y);
    XorIsInjective(c, d, x, y);
    if c != d { IterIsInjective(Xor(c, x as bv32), Xor(d, x as bv32), 8); }
    if x != y { IterIsInjective(Xor(c, x as bv32), Xor(c, y as bv32), 8); }
  }

  lemma {:induction false} RegistersStayApart(c: bv32, d: bv32, buf: Bytes)
    requires c != d
    ensures TakeBytes(c, buf) != TakeBytes(d, buf)
    decreases |buf|
  {
    if buf != [] {
      var front, b := buf[..|buf| - 1], buf[|buf| - 1];
      RegistersStayApart(c, d, front);
      BytesTell(TakeBytes(c, front), TakeBytes(d, front), b, b);
    }
  }

  lemma {:induction false} TakeBytesAppend(c: bv32, a: Bytes, b: Bytes)
    ensures TakeBytes(c, a + b) == TakeBytes(TakeBytes(c, a), b)
    decreases |b|
  {
    if b == [] {
      assert a + b == a;
    } else {
      assert (a + b)[..|a + b| - 1] == a + b[..|b| - 1];
      TakeBytesAppend(c, a, b[..|b| - 1]);
    }
  }

  /** Changing one byte of any message, anywhere, changes its CRC. */
  lemma {:induction false} DetectsByteError(before: Bytes, x: bv8, y: bv8, after: Bytes)
    requires x != y
    ensures CrcOf(before + [x] + after) != CrcOf(before + [y] + after)
  {
    var c := TakeBytes(0xffff_ffff, before);
    AppendByte(0xffff_ffff, before, x);
    AppendByte(0xffff_ffff, before, y);
    TakeBytesAppend(0xffff_ffff, before + [x], after);
    TakeBytesAppend(0xffff_ffff, before + [y], after);
    BytesTell(c, c, x, y);
    RegistersStayApart(TakeByte(c, x), TakeByte(c, y), after);
    ComplementIsInjective(TakeBytes(0xffff_ffff, before + [x] + after), TakeBytes(0xffff_ffff, before + [y] + after));
  }

  lemma {:induction false} AppendByte(c: bv32, buf: Bytes, x: bv8)
    ensures TakeBytes(c, buf + [x]) == TakeByte(TakeBytes(c, buf), x)
  {
    assert (buf + [x])[..|buf|] == buf;
  }

  lemma {:induction false} ComplementIsInjective(a: bv32, b: bv32)
    ensures a != b ==> a ^ 0xffff_ffff != b ^ 0xffff_ffff
  {
  }
}

module Png {
  import opened Crc
  import opened Wrappers

  datatype Chunk = Chunk(kind: Bytes, data: Bytes)

  // ----- big-endian words -----

  /** `writeUInt32BE` of a length. */
  function LengthBytes(n: nat): Bytes
    requires n < 0x1_0000_0000
  {
    var q := n / 256;
    var r := q / 256;
    [(r / 256) as bv8, (r % 256) as bv8, (q % 256) as bv8, (n % 256) as bv8]
  }

  function ReadLength(b: Bytes): nat
    requires |b| == 4
  {
    ((b[0] as int * 256 + b[1] as int) * 256 + b[2] as int) * 256 + b[3] as int
  }

  lemma {:induction false} NextByte(b: bv8)
    requires b as int < 255
    ensures (b + 1) as int == b as int + 1
  {
  }

  lemma {:induction false} SomeByteIs(n: nat) returns (b: bv8)
    requires n < 256
    ensures b as int == n
  {
    b := 0;
    if n > 0 {
      b := SomeByteIs(n - 1);
      NextByte(b);
      b := b + 1;
    }
  }

  lemma {:induction false} ThatByte(n: nat, b: bv8)
    requires n < 256 && b as int == n
    ensures n as bv8 == b
  {
  }

  lemma {:induction false} ByteRoundTrip(n: nat)
    requires n < 256
    ensures (n as bv8) as int == n
  {
    var b := SomeByteIs(n);
    ThatByte(n, b);
  }

  lemma {:induction false} LengthRoundTrip(n: nat)
    requires n < 0x1_0000_0000
    ensures ReadLength(LengthBytes(n)) == n
  {
    var q := n / 256;
    var r := q / 256;
    ByteRoundTrip(r / 256);
    ByteRoundTrip(r % 256);
    ByteRoundTrip(q % 256);
    ByteRoundTrip(n % 256);
  }

  /** A length is written most significant byte first. */
  lemma {:induction false} LengthIsBigEndian(n: nat)
    requires n < 0x1_0000_0000
    ensures var b := LengthBytes(n);
      && b[0] as int == n / 256 / 256 / 256 && b[1] as int == n / 256 / 256 % 256
      && b[2] as int == n / 256 % 256 && b[3] as int == n % 256
  {
    var q := n / 256;
    var r := q / 256;
    ByteRoundTrip(r / 256);
    ByteRoundTrip(r % 256);
    ByteRoundTrip(q % 256);
    ByteRoundTrip(n % 256);
  }

  /** `writeUInt32BE` of a CRC. */
  function WordBytes(c: bv32): Bytes {
    [((c >> 24) & 0xff) as bv8, ((c >> 16) & 0xff) as bv8, ((c >> 8) & 0xff) as bv8, (c & 0xff) as bv8]
  }

  /** The CRC is written most significant byte first, and nothing of it is lost. */
  lemma {:induction false} WordReadsBack(c: bv32)
    ensures |WordBytes(c)| == 4
    ensures var b := WordBytes(c);
      (b[0] as bv32 << 24) | (b[1] as bv32 << 16) | (b[2] as bv32 << 8) | b[3] as bv32 == c
  {
  }

  // ----- chunks -----

  /** `pngChunk`; a length that does not fit 32 bits makes `writeUInt32BE` throw. */
  function PngChunk(kind: Bytes, data: Bytes): Option<Bytes> {
    if |data| >= 0x1_0000_0000 then None
    else Some(LengthBytes(|data|) + kind + data + WordBytes(CrcOf(kind + data)))
  }

  method WriteChunk(table: array<bv32>, kind: Bytes, data: Bytes) returns (r: Option<Bytes>)
    requires IsTable(table[..], 8)
    ensures r == PngChunk(kind, data)
  {
    if |data| >= 0x1_0000_0000 { return None; }
    var len := LengthBytes(|data|);
    var body := kind + data;
    var crc := Crc32(table, body);
    r := Some(len + body + WordBytes(crc));
    assert len + body + WordBytes(crc) == len + kind + data + WordBytes(crc);
  }

  /** Chunks of the format: four-byte types, lengths in range. */
  predicate Fits(c: Chunk) { |c.kind| == 4 && |c.data| < 0x1_0000_0000 }

  function Encode(chunks: seq<Chunk>): Bytes
    requires forall i :: 0 <= i < |chunks| ==> Fits(chunks[i])
  {
    if chunks == [] then [] else assert Fits(chunks[0]); PngChunk(chunks[0].kind, chunks[0].data).value + Encode(chunks[1..])
  }

  datatype Read = Read(chunk: Chunk, rest: Bytes)

  /** The first chunk, when its length fits and its CRC matches, and what follows it. */
  function ReadChunk(b: Bytes): Option<Read> {
    if |b| < 12 then None
    else
      var n := ReadLength(b[..4]);
      if |b| < 12 + n then None
      else
        var kind, data, crc := b[4..8], b[8..8 + n], b[8 + n..12 + n];
        if crc != WordBytes(CrcOf(kind + data)) then None else Some(Read(Chunk(kind, data), b[12 + n..]))
  }

  /** Reading chunks back, until nothing is left. */
  function Decode(b: Bytes): Option<seq<Chunk>>
    decreases |b|
  {
    if b == [] then Some([]) else
    var first := ReadChunk(b);
    if first.None? then None
    else
      var rest := Decode(first.value.rest);
      if rest.None? then None else Some([first.value.chunk] + rest.value)
  }

  lemma {:induction false} ReadsFirst(c: Chunk, rest: Bytes, b: Bytes)
    requires Fits(c) && b == PngChunk(c.kind, c.data).value + rest
    ensures b != [] && ReadChunk(b) == Some(Read(c, rest))
  {
    FirstPieces(c, rest, b, |c.data|);
  }

  lemma {:induction false} FirstPieces(c: Chunk, rest: Bytes, b: Bytes, n: nat)
    requires Fits(c) && b == PngChunk(c.kind, c.data).value + rest && n == |c.data|
    ensures |b| >= 12 + n && ReadLength(b[..4]) == n
    ensures b[4..8] == c.kind && b[8..8 + n] == c.data && b[8 + n..12 + n] == WordBytes(CrcOf(c.kind + c.data))
    ensures b[12 + n..] == rest
  {
    LengthRoundTrip(n);
    Pieces(LengthBytes(n), c.kind, c.data, WordBytes(CrcOf(c.kind + c.data)), rest);
  }

  lemma {:induction false} Pieces(len: Bytes, kind: Bytes, data: Bytes, crc: Bytes, rest: Bytes)
    requires |len| == |kind| == |crc| == 4
    ensures var b, n := len + kind + data + crc + rest, |data|;
      && |b| >= 12 + n && b[..4] == len && b[4..8] == kind && b[8..8 + n] == data
      && b[8 + n..12 + n] == crc && b[12 + n..] == rest
  {
  }

  lemma {:induction false} EncodesFirst(chunks: seq<Chunk>, first: Chunk, rest: seq<Chunk>)
    requires chunks == [first] + rest && forall i :: 0 <= i < |chunks| ==> Fits(chunks[i])
    ensures forall i :: 0 <= i < |rest| ==> Fits(rest[i])
    ensures Fits(first) && Encode(chunks) == PngChunk(first.kind, first.data).value + Encode(rest)
  {
    assert Fits(chunks[0]) && chunks[1..] == rest;
    forall i | 0 <= i < |rest| ensures Fits(rest[i]) { assert rest[i] == chunks[i + 1]; }
  }

  /** Any concatenation of chunks reads back as the same chunks, with their CRCs matching. */
  lemma {:induction false} RoundTrip(chunks: seq<Chunk>)
    requires forall i :: 0 <= i < |chunks| ==> Fits(chunks[i])
    ensures Decode(Encode(chunks)) == Some(chunks)
  {
    if chunks != [] {
      var first, rest := chunks[0], chunks[1..];
      EncodesFirst(chunks, first, rest);
      ReadsFirst(first, Encode(rest), Encode(chunks));
      RoundTrip(rest);
      assert chunks == [first] + rest;
    }
  }

  lemma {:induction false} TakeUpTo(c: bv32, buf: Bytes, k: nat)
    requires k < |buf|
    ensures TakeBytes(c, buf[..k + 1]) == TakeByte(TakeBytes(c, buf[..k]), buf[k])
  {
    assert buf[..k + 1][..k] == buf[..k];
  }

  lemma {:induction false} TakeFour(c: seq<bv32>, buf: Bytes)
    requires |buf| == 4 && |c| == 5 && forall k :: 0 <= k < 4 ==> TakeByte(c[k], buf[k]) == c[k + 1]
    ensures TakeBytes(c[0], buf) == c[4]
  {
    for k := 0 to 4
      invariant TakeBytes(c[0], buf[..k]) == c[k]
    {
      TakeUpTo(c[0], buf, k);
    }
    assert buf[..4] == buf;
  }

  lemma {:induction false} IendCrc(kind: Bytes, c: seq<bv32>)
    requires kind == [0x49, 0x45, 0x4e, 0x44] && c == [0xffff_ffff, 0x22fd_e946, 0x992b_ac53, 0x639f_4775, 0x51bd_9f7d]
    ensures CrcOf(kind) == 0xae42_6082
  {
    assert TakeByte(0xffff_ffff, 0x49) == 0x22fd_e946;
    assert TakeByte(0x22fd_e946, 0x45) == 0x992b_ac53;
    assert TakeByte(0x992b_ac53, 0x4e) == 0x639f_4775;
    assert TakeByte(0x639f_4775, 0x44) == 0x51bd_9f7d;
    TakeFour(c, kind);
  }

  lemma {:induction false} EmptyChunk(kind: Bytes, crc: bv32)
    requires CrcOf(kind) == crc
    ensures PngChunk(kind, []) == Some(LengthBytes(0) + kind + WordBytes(crc))
  {
    assert kind + [] == kind;
    assert LengthBytes(0) + kind + [] == LengthBytes(0) + kind;
  }

  /** The chunk that ends every PNG file, byte for byte: no data, type IEND, its CRC. */
  lemma {:induction false} IendChunk(kind: Bytes)
    requires kind == [0x49, 0x45, 0x4e, 0x44]
    ensures PngChunk(kind, []) == Some([0, 0, 0, 0] + kind + [0xae, 0x42, 0x60, 0x82])
  {
    IendCrc(kind, [0xffff_ffff, 0x22fd_e946, 0x992b_ac53, 0x639f_4775, 0x51bd_9f7d]);
    EmptyChunk(kind, 0xae42_6082);
    assert WordBytes(0xae42_6082) == [0xae, 0x42, 0x60, 0x82];
    assert LengthBytes(0) == [0, 0, 0, 0];
  }

  /** The split is unique: different chunk lists never encode alike. */
  lemma {:induction false} EncodingIsUnique(a: seq<Chunk>, b: seq<Chunk>)
    requires forall i :: 0 <= i < |a| ==> Fits(a[i])
    requires forall i :: 0 <= i < |b| ==> Fits(b[i])
    requires Encode(a) == Encode(b)
    ensures a == b
  {
    RoundTrip(a);
    RoundTrip(b);
  }
}
