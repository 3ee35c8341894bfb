/** Streaming SHA-256 (src/digest.cpp) against FIPS 180-4. */
module Sha256 {
  import opened Bytes

  const BLOCK: nat := 64
  const TWO_64: nat := 0x1_0000_0000_0000_0000

  type Words = s: seq<bv32> | |s| == 8 witness INITIAL_HASH

  /** Section 5.3.3. */
  const INITIAL_HASH: seq<bv32> :=
    [0x6a09e667, 0xbb67ae85, 0x3c6ef372, 0xa54ff53a, 0x510e527f, 0x9b05688c, 0x1f83d9ab, 0x5be0cd19]

  /** Section 4.2.2, eight words a row. */
  const K0: seq<bv32> :=
    [0x428a2f98, 0x71374491, 0xb5c0fbcf, 0xe9b5dba5, 0x3956c25b, 0x59f111f1, 0x923f82a4, 0xab1c5ed5]
  const K1: seq<bv32> :=
    [0xd807aa98, 0x12835b01, 0x243185be, 0x550c7dc3, 0x72be5d74, 0x80deb1fe, 0x9bdc06a7, 0xc19bf174]
  const K2: seq<bv32> :=
    [0xe49b69c1, 0xefbe4786, 0x0fc19dc6, 0x240ca1cc, 0x2de92c6f, 0x4a7484aa, 0x5cb0a9dc, 0x76f988da]
  const K3: seq<bv32> :=
    [0x983e5152, 0xa831c66d, 0xb00327c8, 0xbf597fc7, 0xc6e00bf3, 0xd5a79147, 0x06ca6351, 0x14292967]
  const K4: seq<bv32> :=
    [0x27b70a85, 0x2e1b2138, 0x4d2c6dfc, 0x53380d13, 0x650a7354, 0x766a0abb, 0x81c2c92e, 0x92722c85]
  const K5: seq<bv32> :=
    [0xa2bfe8a1, 0xa81a664b, 0xc24b8b70, 0xc76c51a3, 0xd192e819, 0xd6990624, 0xf40e3585, 0x106aa070]
  const K6: seq<bv32> :=
    [0x19a4c116, 0x1e376c08, 0x2748774c, 0x34b0bcb5, 0x391c0cb3, 0x4ed8aa4a, 0x5b9cca4f, 0x682e6ff3]
  const K7: seq<bv32> :=
    [0x748f82ee, 0x78a5636f, 0x84c87814, 0x8cc70208, 0x90befffa, 0xa4506ceb, 0xbef9a3f7, 0xc67178f2]

  const K: seq<bv32> := K0 + K1 + K2 + K3 + K4 + K5 + K6 + K7

  // ---- FIPS 180-4 ----------------------------------------------------------------------

  /** Section 3.2: rotation to the right. */
  function Rotr(x: bv32, n: bv32): bv32
    requires n <= 32
  {
    (x >> n) | (x << (32 - n))
  }

  /** Section 2.2.2: addition modulo 2^32. */
  function Add(x: bv32, y: bv32): bv32 { x + y }

  /** Section 4.1.2. */
  function Ch(x: bv32, y: bv32, z: bv32): bv32 { (x & y) ^ (!x & z) }

  function Maj(x: bv32, y: bv32, z: bv32): bv32 { (x & y) ^ (x & z) ^ (y & z) }

  function BigSigma0(x: bv32): bv32 { Rotr(x, 2) ^ Rotr(x, 13) ^ Rotr(x, 22) }

  function BigSigma1(x: bv32): bv32 { Rotr(x, 6) ^ Rotr(x, 11) ^ Rotr(x, 25) }

  function SmallSigma0(x: bv32): bv32 { Rotr(x, 7) ^ Rotr(x, 18) ^ (x >> 3) }

  function SmallSigma1(x: bv32): bv32 { Rotr(x, 17) ^ Rotr(x, 19) ^ (x >> 10) }

  /** The i-th big-endian word of a block. */
  function Word(block: seq<byte>, i: nat): bv32
    requires |block| == BLOCK && i < 16
  {
    ((block[4 * i] as bv32) << 24) | ((block[4 * i + 1] as bv32) << 16)
    | ((block[4 * i + 2] as bv32) << 8) | (block[4 * i + 3] as bv32)
  }

  /** Section 6.2.2, step 1: the message schedule. The four terms are added from right to left. */
  function Schedule(block: seq<byte>, t: nat): bv32
    requires |block| == BLOCK && t < 64
  {
    if t < 16 then Word(block, t)
    else
      Add(Add(Add(Schedule(block, t - 16), SmallSigma0(Schedule(block, t - 15))), Schedule(block, t - 7)),
        SmallSigma1(Schedule(block, t - 2)))
  }

  datatype Vars = Vars(a: bv32, b: bv32, c: bv32, d: bv32, e: bv32, f: bv32, g: bv32, h: bv32)

  /** Section 6.2.2, step 3: one round. */
  function Round(v: Vars, k: bv32, w: bv32): Vars {
    var t1 := Add(Add(Add(Add(v.h, BigSigma1(v.e)), Ch(v.e, v.f, v.g)), k), w);
    var t2 := Add(BigSigma0(v.a), Maj(v.a, v.b, v.c));
    Vars(Add(t1, t2), v.a, v.b, v.c, Add(v.d, t1), v.e, v.f, v.g)
  }

  function Rounds(v: Vars, block: seq<byte>, t: nat): Vars
    requires |block| == BLOCK && t <= 64
  {
    if t == 0 then v else Round(Rounds(v, block, t - 1), K[t - 1], Schedule(block, t - 1))
  }

  function FromWords(h: Words): Vars { Vars(h[0], h[1], h[2], h[3], h[4], h[5], h[6], h[7]) }

  function AddWords(h: Words, v: Vars): Words {
    [Add(h[0], v.a), Add(h[1], v.b), Add(h[2], v.c), Add(h[3], v.d), Add(h[4], v.e), Add(h[5], v.f), Add(h[6], v.g),
      Add(h[7], v.h)]
  }

  /** Section 6.2.2: the hash value after one more block. */
  function Compress(h: Words, block: seq<byte>): Words
    requires |block| == BLOCK
  {
    AddWords(h, Rounds(FromWords(h), block, 64))
  }

  /** Section 5.2.1 and 6.2.2: the blocks of a message, one after the other. */
  function Absorb(bytes: seq<byte>): Words
    requires |bytes| % BLOCK == 0
  {
    if bytes == [] then INITIAL_HASH
    else Compress(Absorb(bytes[..|bytes| - BLOCK]), bytes[|bytes| - BLOCK..])
  }

  // ---- Constants and logical functions, in other terms ------------------------------------

  const TWO_32: nat := 0x1_0000_0000

  /** `word` holds the first 32 bits of the fractional part of the square root of p, whose integral part is `whole`. */
  predicate IsSquareRoot(p: nat, whole: nat, word: nat) {
    var x := whole * TWO_32 + word;
    x * x <= p * TWO_64 < (x + 1) * (x + 1)
  }

  predicate IsCubeRoot(p: nat, whole: nat, word: nat) {
    var x := whole * TWO_32 + word;
    x * x * x <= p * TWO_64 * TWO_32 < (x + 1) * (x + 1) * (x + 1)
  }

  /** Section 5.3.3: the fractional parts of the square roots of the first eight primes. */
  lemma InitialHashIsSquareRoots()
    ensures IsSquareRoot(2, 1, INITIAL_HASH[0] as nat) && IsSquareRoot(3, 1, INITIAL_HASH[1] as nat)
    ensures IsSquareRoot(5, 2, INITIAL_HASH[2] as nat) && IsSquareRoot(7, 2, INITIAL_HASH[3] as nat)
    ensures IsSquareRoot(11, 3, INITIAL_HASH[4] as nat) && IsSquareRoot(13, 3, INITIAL_HASH[5] as nat)
    ensures IsSquareRoot(17, 4, INITIAL_HASH[6] as nat) && IsSquareRoot(19, 4, INITIAL_HASH[7] as nat)
  {
  }

  /** Section 4.2.2: the fractional parts of the cube roots of the first 64 primes. */
  lemma Row0IsCubeRoots()
    ensures IsCubeRoot(2, 1, K0[0] as nat) && IsCubeRoot(3, 1, K0[1] as nat)
    ensures IsCubeRoot(5, 1, K0[2] as nat) && IsCubeRoot(7, 1, K0[3] as nat)
    ensures IsCubeRoot(11, 2, K0[4] as nat) && IsCubeRoot(13, 2, K0[5] as nat)
    ensures IsCubeRoot(17, 2, K0[6] as nat) && IsCubeRoot(19, 2, K0[7] as nat)
  {
  }

  lemma Row1IsCubeRoots()
    ensures IsCubeRoot(23, 2, K1[0] as nat) && IsCubeRoot(29, 3, K1[1] as nat)
    ensures IsCubeRoot(31, 3, K1[2] as nat) && IsCubeRoot(37, 3, K1[3] as nat)
    ensures IsCubeRoot(41, 3, K1[4] as nat) && IsCubeRoot(43, 3, K1[5] as nat)
    ensures IsCubeRoot(47, 3, K1[6] as nat) && IsCubeRoot(53, 3, K1[7] as nat)
  {
  }

  lemma Row2IsCubeRoots()
    ensures IsCubeRoot(59, 3, K2[0] as nat) && IsCubeRoot(61, 3, K2[1] as nat)
    ensures IsCubeRoot(67, 4, K2[2] as nat) && IsCubeRoot(71, 4, K2[3] as nat)
    ensures IsCubeRoot(73, 4, K2[4] as nat) && IsCubeRoot(79, 4, K2[5] as nat)
    ensures IsCubeRoot(83, 4, K2[6] as nat) && IsCubeRoot(89, 4, K2[7] as nat)
  {
  }

  lemma Row3IsCubeRoots()
    ensures IsCubeRoot(97, 4, K3[0] as nat) && IsCubeRoot(101, 4, K3[1] as nat)
    ensures IsCubeRoot(103, 4, K3[2] as nat) && IsCubeRoot(107, 4, K3[3] as nat)
    ensures IsCubeRoot(109, 4, K3[4] as nat) && IsCubeRoot(113, 4, K3[5] as nat)
    ensures IsCubeRoot(127, 5, K3[6] as nat) && IsCubeRoot(131, 5, K3[7] as nat)
  {
  }

  lemma Row4IsCubeRoots()
    ensures IsCubeRoot(137, 5, K4[0] as nat) && IsCubeRoot(139, 5, K4[1] as nat)
    ensures IsCubeRoot(149, 5, K4[2] as nat) && IsCubeRoot(151, 5, K4[3] as nat)
    ensures IsCubeRoot(157, 5, K4[4] as nat) && IsCubeRoot(163, 5, K4[5] as nat)
    ensures IsCubeRoot(167, 5, K4[6] as nat) && IsCubeRoot(173, 5, K4[7] as nat)
  {
  }

  lemma Row5IsCubeRoots()
    ensures IsCubeRoot(179, 5, K5[0] as nat) && IsCubeRoot(181, 5, K5[1] as nat)
    ensures IsCubeRoot(191, 5, K5[2] as nat) && IsCubeRoot(193, 5, K5[3] as nat)
    ensures IsCubeRoot(197, 5, K5[4] as nat) && IsCubeRoot(199, 5, K5[5] as nat)
    ensures IsCubeRoot(211, 5, K5[6] as nat) && IsCubeRoot(223, 6, K5[7] as nat)
  {
  }

  lemma Row6IsCubeRoots()
    ensures IsCubeRoot(227, 6, K6[0] as nat) && IsCubeRoot(229, 6, K6[1] as nat)
    ensures IsCubeRoot(233, 6, K6[2] as nat) && IsCubeRoot(239, 6, K6[3] as nat)
    ensures IsCubeRoot(241, 6, K6[4] as nat) && IsCubeRoot(251, 6, K6[5] as nat)
    ensures IsCubeRoot(257, 6, K6[6] as nat) && IsCubeRoot(263, 6, K6[7] as nat)
  {
  }

  lemma Row7IsCubeRoots()
    ensures IsCubeRoot(269, 6, K7[0] as nat) && IsCubeRoot(271, 6, K7[1] as nat)
    ensures IsCubeRoot(277, 6, K7[2] as nat) && IsCubeRoot(281, 6, K7[3] as nat)
    ensures IsCubeRoot(283, 6, K7[4] as nat) && IsCubeRoot(293, 6, K7[5] as nat)
    ensures IsCubeRoot(307, 6, K7[6] as nat) && IsCubeRoot(311, 6, K7[7] as nat)
  {
  }

  /** Section 4.1.2: Ch has the bits of y where x has ones, and those of z elsewhere. */
  lemma ChChooses(x: bv32, y: bv32, z: bv32)
    ensures (Ch(x, y, z) ^ y) & x == 0 && (Ch(x, y, z) ^ z) & !x == 0
  {
  }

  /** Maj has the common bits of y and z where they agree, and those of x elsewhere. */
  lemma MajIsMajority(x: bv32, y: bv32, z: bv32)
    ensures (Maj(x, y, z) ^ y) & !(y ^ z) == 0 && (Maj(x, y, z) ^ x) & (y ^ z) == 0
  {
  }

  /** Section 4.1.2: the four sums on the lowest and the highest bit, and on two words in which bits cancel out. */
  lemma SumsOnWords()
    ensures BigSigma0(0x00000001) == 0x40080400 && BigSigma0(0x80000000) == 0x20040200
    ensures BigSigma0(0x6a09e667) == 0xce20b47e && BigSigma0(0xbb67ae85) == 0x844e2671
    ensures BigSigma1(0x00000001) == 0x04200080 && BigSigma1(0x80000000) == 0x02100040
    ensures BigSigma1(0x6a09e667) == 0x55b65510 && BigSigma1(0xbb67ae85) == 0x758db092
    ensures SmallSigma0(0x00000001) == 0x02004000 && SmallSigma0(0x80000000) == 0x11002000
    ensures SmallSigma0(0x6a09e667) == 0xba0cf582 && SmallSigma0(0xbb67ae85) == 0xf7bb5454
    ensures SmallSigma1(0x00000001) == 0x0000a000 && SmallSigma1(0x80000000) == 0x00205000
    ensures SmallSigma1(0x6a09e667) == 0xcfe5da3c && SmallSigma1(0xbb67ae85) == 0x22bcb334
  {
  }

  function Zeros(n: nat): (zeros: seq<byte>)
    ensures |zeros| == n
  {
    if n == 0 then [] else Zeros(n - 1) + [0]
  }

  /** The smallest number of zero bytes that lets the length field end a block. */
  function ZeroCount(length: nat): (k: nat)
    ensures k < BLOCK && (length + 1 + k) % BLOCK == 56
  {
    (119 - length % BLOCK) % BLOCK
  }

  lemma LengthField(front: seq<byte>, length: seq<byte>)
    requires |front| % BLOCK == 56 && |length| == 8
    ensures |front + length| % BLOCK == 0
  {
  }

  /** Section 5.1.1. */
  function Padded(message: seq<byte>): (padded: seq<byte>)
    ensures |padded| % BLOCK == 0
  {
    LengthField(message + [0x80] + Zeros(ZeroCount(|message|)), EncodeBE((8 * |message|) % TWO_64, 8));
    message + [0x80] + Zeros(ZeroCount(|message|)) + EncodeBE((8 * |message|) % TWO_64, 8)
  }

  function WordBytes(w: bv32): seq<byte> {
    [(w >> 24) as int % 256, (w >> 16) as int % 256, (w >> 8) as int % 256, w as int % 256]
  }

  function DigestBytes(words: seq<bv32>): (bytes: seq<byte>)
    ensures |bytes| == 4 * |words|
  {
    if words == [] then [] else DigestBytes(words[..|words| - 1]) + WordBytes(words[|words| - 1])
  }

  /** SHA-256 of a whole message. */
  function Hash(message: seq<byte>): (digest: seq<byte>)
    ensures |digest| == 32
  {
    DigestBytes(Absorb(Padded(message)))
  }

  // ---- Properties of the padding -------------------------------------------------------

  lemma Ends(front: seq<byte>, back: seq<byte>)
    ensures (front + back)[|front + back| - |back|..] == back
  {
  }

  lemma Starts(message: seq<byte>, mark: seq<byte>, zeros: seq<byte>, length: seq<byte>)
    ensures (message + mark + zeros + length)[..|message|] == message
  {
    assert message + mark + zeros + length == message + (mark + zeros + length);
  }

  lemma PaddedParts(message: seq<byte>)
    requires 8 * |message| < TWO_64
    ensures |Padded(message)| >= |message| + 8 && Padded(message)[..|message|] == message
    ensures DecodeBE(Padded(message)[|Padded(message)| - 8..]) == 8 * |message|
  {
    hide EncodeBE, Zeros, DecodeBE, ZeroCount;
    var length := EncodeBE(8 * |message|, 8);
    Ends(message + [0x80] + Zeros(ZeroCount(|message|)), length);
    Starts(message, [0x80], Zeros(ZeroCount(|message|)), length);
    FieldBounds();
    DecodeEncode(8 * |message|, 8);
  }

  /** No two messages below 2^61 bytes have the same padded form. */
  lemma PaddingIsInjective(a: seq<byte>, b: seq<byte>)
    requires Padded(a) == Padded(b) && 8 * |a| < TWO_64 && 8 * |b| < TWO_64
    ensures a == b
  {
    hide Padded;
    PaddedParts(a);
    PaddedParts(b);
  }

  /** The framing of digest_with_domain: label length, label, payload. */
  function Framed(domain: seq<byte>, payload: seq<byte>): seq<byte> {
    EncodeBE(|domain|, 4) + domain + payload
  }

  /** Domain separation: the same bytes are hashed only for the same label and the same payload. */
  lemma DomainsAreSeparate(d1: seq<byte>, p1: seq<byte>, d2: seq<byte>, p2: seq<byte>)
    requires Framed(d1, p1) == Framed(d2, p2) && |d1| < 0x1_0000_0000 && |d2| < 0x1_0000_0000
    ensures d1 == d2 && p1 == p2
  {
    var m := Framed(d1, p1);
    FieldBounds();
    DecodeEncode(|d1|, 4);
    DecodeEncode(|d2|, 4);
    assert m[..4] == EncodeBE(|d1|, 4) && Framed(d2, p2)[..4] == EncodeBE(|d2|, 4);
    assert m[4..4 + |d1|] == d1 && Framed(d2, p2)[4..4 + |d2|] == d2;
    assert m[4 + |d1|..] == p1 && Framed(d2, p2)[4 + |d2|..] == p2;
  }

  // ---- The streaming object ---------------------------------------------------------------

  lemma AbsorbOne(bytes: seq<byte>, block: seq<byte>)
    requires |bytes| % BLOCK == 0 && |block| == BLOCK
    ensures |bytes + block| % BLOCK == 0 && Absorb(bytes + block) == Compress(Absorb(bytes), block)
  {
    assert (bytes + block)[..|bytes + block| - BLOCK] == bytes;
    assert (bytes + block)[|bytes + block| - BLOCK..] == block;
  }

  /** The message schedule, filled in from the front. */
  method ExpandBlock(block: seq<byte>) returns (w: seq<bv32>)
    requires |block| == BLOCK
    ensures |w| == 64 && forall t :: 0 <= t < 64 ==> w[t] == Schedule(block, t)
  {
    hide Word, SmallSigma0, SmallSigma1, Add;
    w := [];
    for i := 0 to 16
      invariant |w| == i && forall t :: 0 <= t < i ==> w[t] == Schedule(block, t)
    {
      w := w + [Word(block, i)];
    }
    for i := 16 to 64
      invariant |w| == i && forall t :: 0 <= t < i ==> w[t] == Schedule(block, t)
    {
      var s0, s1 := SmallSigma0(w[i - 15]), SmallSigma1(w[i - 2]);
      w := w + [Add(Add(Add(w[i - 16], s0), w[i - 7]), s1)];
    }
  }

  /** The compression loop over one block. */
  method CompressInto(state: array<bv32>, block: seq<byte>)
    requires state.Length == 8 && |block| == BLOCK
    modifies state
    ensures state[..] == Compress(old(state[..]), block)
  {
    hide Schedule, BigSigma0, BigSigma1, Ch, Maj, Add;
    var w := ExpandBlock(block);
    var a, b, c, d := state[0], state[1], state[2], state[3];
    var e, f, g, h := state[4], state[5], state[6], state[7];
    for i := 0 to 64
      invariant Vars(a, b, c, d, e, f, g, h) == Rounds(FromWords(old(state[..])), block, i)
      invariant state[..] == old(state[..])
    {
      var temp1 := Add(Add(Add(Add(h, BigSigma1(e)), Ch(e, f, g)), K[i]), w[i]);
      var temp2 := Add(BigSigma0(a), Maj(a, b, c));
      h, g, f, e, d, c, b, a := g, f, e, Add(d, temp1), c, b, a, Add(temp1, temp2);
    }
    AddInto(state, Vars(a, b, c, d, e, f, g, h));
  }

  method AddInto(state: array<bv32>, v: Vars)
    requires state.Length == 8
    modifies state
    ensures state[..] == AddWords(old(state[..]), v)
  {
    hide Add;
    state[0], state[1], state[2], state[3] := Add(state[0], v.a), Add(state[1], v.b), Add(state[2], v.c),
      Add(state[3], v.d);
    state[4], state[5], state[6], state[7] := Add(state[4], v.e), Add(state[5], v.f), Add(state[6], v.g),
      Add(state[7], v.h);
  }

  // ---- The streaming object -----------------------------------------------------------

  /** What has been absorbed and what waits in the buffer add up to everything fed so far. */
  ghost predicate Streams(state: seq<bv32>, pending: seq<byte>, fed: seq<byte>) {
    && |pending| <= |fed| && |pending| < BLOCK && (|fed| - |pending|) % BLOCK == 0
    && fed[|fed| - |pending|..] == pending && state == Absorb(fed[..|fed| - |pending|])
  }

  lemma FeedShort(state: seq<bv32>, pending: seq<byte>, fed: seq<byte>, data: seq<byte>)
    requires Streams(state, pending, fed) && |pending| + |data| < BLOCK
    ensures Streams(state, pending + data, fed + data)
  {
    var m := |fed| - |pending|;
    assert (fed + data)[..m] == fed[..m];
    assert (fed + data)[m..] == fed[m..] + data;
  }

  lemma FeedBlock(state: seq<bv32>, pending: seq<byte>, fed: seq<byte>, data: seq<byte>)
    requires Streams(state, pending, fed) && |pending| + |data| == BLOCK
    ensures |state| == 8 && Streams(Compress(state, pending + data), [], fed + data)
  {
    var m := |fed| - |pending|;
    var all := fed + data;
    assert all == fed[..m] + (pending + data);
    AbsorbOne(fed[..m], pending + data);
    assert all[..|all|] == all && all[|all|..] == [];
  }

  /** The byte counter wraps around like a 64-bit word. */
  predicate Counts(counter: nat, length: nat) {
    counter == length % TWO_64
  }

  class Sha256Stream {
    const state: array<bv32>
    const buffer: array<byte>
    var totalBytes: nat          // a 64-bit counter
    var buffered: nat
    var finished: bool
    ghost var message: seq<byte>

    ghost predicate Valid()
      reads this, state, buffer
    {
      && state.Length == 8 && buffer.Length == BLOCK && buffered < BLOCK
      && if finished then state[..] == Absorb(Padded(message))
         else Streams(state[..], buffer[..buffered], message) && Counts(totalBytes, |message|)
    }

    constructor ()
      ensures Valid() && message == [] && !finished && fresh(state) && fresh(buffer)
    {
      state := new bv32[8](i requires 0 <= i < 8 => INITIAL_HASH[i]);
      buffer := new byte[64](_ => 0);
      totalBytes, buffered, finished, message := 0, 0, false, [];
      new;
      assert state[..] == INITIAL_HASH;
    }

    /** Copy bytes behind those already buffered. */
    method Fill(data: seq<byte>)
      requires buffer.Length == BLOCK && buffered + |data| <= BLOCK
      modifies buffer, this`buffered
      ensures buffered == old(buffered) + |data| && buffer[..buffered] == old(buffer[..buffered]) + data
    {
      for i := 0 to |data|
        invariant buffered == old(buffered) && buffer[..buffered] == old(buffer[..buffered])
        invariant buffer[buffered..buffered + i] == data[..i]
      {
        buffer[buffered + i] := data[i];
      }
      assert buffer[..buffered + |data|] == buffer[..buffered] + buffer[buffered..buffered + |data|];
      buffered := buffered + |data|;
    }

    /** The first part of update: complete a block that was begun. */
    method TopUp(data: seq<byte>) returns (p: nat)
      requires state.Length == 8 && buffer.Length == BLOCK && buffered < BLOCK
      requires Streams(state[..], buffer[..buffered], message)
      modifies state, buffer, this`buffered
      ensures p <= |data| && buffered < BLOCK && (buffered == 0 || p == |data|)
      ensures Streams(state[..], buffer[..buffered], message + data[..p])
    {
      hide Absorb, Padded, Compress;
      if buffered == 0 {
        assert message + data[..0] == message;
        return 0;
      }
      var needed := BLOCK - buffered;
      p := if |data| < needed then |data| else needed;
      ghost var pending := buffer[..buffered];
      Fill(data[..p]);
      if buffered == BLOCK {
        FeedBlock(state[..], pending, message, data[..p]);
        assert buffer[..] == buffer[..BLOCK];
        CompressInto(state, buffer[..]);
        buffered := 0;
      } else {
        FeedShort(state[..], pending, message, data[..p]);
      }
    }

    /** The second part: whole blocks straight from the input. */
    method WholeBlocks(data: seq<byte>, start: nat) returns (p: nat)
      requires state.Length == 8 && buffer.Length == BLOCK && buffered == 0 && start <= |data|
      requires Streams(state[..], [], message + data[..start])
      modifies state
      ensures start <= p <= |data| && |data| - p < BLOCK && Streams(state[..], [], message + data[..p])
    {
      hide Absorb, Compress, Streams;
      p := start;
      while |data| - p >= BLOCK
        invariant start <= p <= |data| && Streams(state[..], [], message + data[..p])
        decreases |data| - p
      {
        var block := data[p..p + BLOCK];
        FeedBlock(state[..], [], message + data[..p], block);
        assert message + data[..p] + block == message + data[..p + BLOCK];
        assert [] + block == block;
        CompressInto(state, block);
        p := p + BLOCK;
      }
    }

    /** The second and third part of update: whole blocks, then the bytes that are left over. */
    method Rest(data: seq<byte>, start: nat)
      requires state.Length == 8 && buffer.Length == BLOCK && buffered == 0 && start <= |data|
      requires Streams(state[..], [], message + data[..start])
      modifies state, buffer, this`buffered
      ensures buffered < BLOCK && Streams(state[..], buffer[..buffered], message + data)
    {
      hide Absorb, Compress, Streams;
      var p := WholeBlocks(data, start);
      var tail := data[p..];
      FeedShort(state[..], [], message + data[..p], tail);
      SplitAt(message, data, p);
      ghost var front := buffer[..buffered];
      Fill(tail);
      EmptyFront(front, tail);
    }

    /** Splitting a message into calls of update does not matter: only the concatenation does. */
    method Update(data: seq<byte>)
      requires Valid()
      modifies this, state, buffer
      ensures Valid() && finished == old(finished)
      ensures message == if finished then old(message) else old(message) + data
    {
      hide Absorb, Padded, Compress, Streams, Counts;
      if finished { return; }
      TotalWraps(totalBytes, |message|, |data|);
      totalBytes := (totalBytes + |data|) % TWO_64;
      var p := TopUp(data);
      if p < |data| {
        assert buffer[..buffered] == [];
        Rest(data, p);
      } else {
        assert data[..p] == data;
      }
      message := message + data;
    }

    /** Zero bytes up to the length field, one update each. */
    method PadZeros(ghost length: nat)
      requires Valid() && !finished && |message| == length + 1
      modifies this, state, buffer
      ensures Valid() && !finished && message == old(message) + Zeros(ZeroCount(length))
    {
      hide Absorb, Streams, Zeros, ZeroCount;
      ghost var k := 0;
      NoZeros();
      assert message == old(message) + Zeros(0);
      BufferedIs(state[..], buffer[..buffered], message);
      while buffered != 56
        invariant Valid() && !finished && message == old(message) + Zeros(k)
        invariant k <= ZeroCount(length) && buffered == (length + 1 + k) % BLOCK
        decreases ZeroCount(length) - k
      {
        MoreZeros(old(message), k);
        Update([0]);
        k := k + 1;
        BufferedIs(state[..], buffer[..buffered], message);
      }
      SameZeros(length, k);
    }

    /** The padding of section 5.1.1, fed through update. */
    method Pad()
      requires Valid() && !finished
      modifies this, state, buffer
      ensures state[..] == Absorb(Padded(old(message)))
    {
      hide Absorb, Streams, Zeros, EncodeBE, ZeroCount;
      ghost var length := |message|;
      var bitLength := (totalBytes * 8) % TWO_64;
      EightTimes(length);
      Update([0x80]);
      PadZeros(length);
      Update(EncodeBE(bitLength, 8));
      assert message == Padded(old(message));
      StreamsWhole(state[..], buffer[..buffered], message);
    }

    method Finish() returns (digest: seq<byte>)
      requires Valid()
      modifies this, state, buffer
      ensures Valid() && finished && message == old(message)
      ensures digest == Hash(message)
    {
      hide Absorb, Streams, Padded, DigestBytes;
      ghost var original := message;
      if !finished {
        Pad();
        finished, message, buffered := true, original, 0;
      }
      digest := BytesOf(state[..]);
    }
  }

  method BytesOf(words: seq<bv32>) returns (bytes: seq<byte>)
    ensures bytes == DigestBytes(words)
  {
    bytes := [];
    assert words[..0] == [];
    for i := 0 to |words|
      invariant bytes == DigestBytes(words[..i])
    {
      hide WordBytes;
      assert words[..i + 1][..i] == words[..i];
      bytes := bytes + WordBytes(words[i]);
    }
    assert words[..|words|] == words;
  }

  /** Sha256::hash, and the streaming theorem: however a message is split, the digest is that of the whole. */
  method HashParts(parts: seq<seq<byte>>) returns (digest: seq<byte>)
    ensures digest == Hash(Joined(parts))
  {
    hide Hash;
    var stream := new Sha256Stream();
    assert parts[..0] == [];
    for i := 0 to |parts|
      invariant stream.Valid() && !stream.finished && stream.message == Joined(parts[..i])
      invariant fresh(stream) && fresh(stream.state) && fresh(stream.buffer)
    {
      assert parts[..i + 1][..i] == parts[..i];
      stream.Update(parts[i]);
    }
    assert parts[..|parts|] == parts;
    digest := stream.Finish();
  }

  function Joined(parts: seq<seq<byte>>): seq<byte> {
    if parts == [] then [] else Joined(parts[..|parts| - 1]) + parts[|parts| - 1]
  }

  lemma SplitAt(message: seq<byte>, data: seq<byte>, p: nat)
    requires p <= |data|
    ensures message + data[..p] + data[p..] == message + data
  {
  }

  lemma EmptyFront(front: seq<byte>, tail: seq<byte>)
    requires |front| == 0
    ensures front + tail == [] + tail
  {
  }

  lemma NoZeros()
    ensures Zeros(0) == []
  {
  }

  lemma MoreZeros(front: seq<byte>, k: nat)
    ensures front + Zeros(k) + [0] == front + Zeros(k + 1)
  {
  }

  lemma BufferedIs(state: seq<bv32>, pending: seq<byte>, fed: seq<byte>)
    requires Streams(state, pending, fed)
    ensures |pending| == |fed| % BLOCK
  {
  }

  lemma StreamsWhole(state: seq<bv32>, pending: seq<byte>, fed: seq<byte>)
    requires Streams(state, pending, fed) && |fed| % BLOCK == 0
    ensures state == Absorb(fed)
  {
    BufferedIs(state, pending, fed);
    assert fed[..|fed|] == fed;
  }

  lemma SameZeros(length: nat, k: nat)
    requires k <= ZeroCount(length) && (length + 1 + k) % BLOCK == 56
    ensures k == ZeroCount(length)
  {
  }

  lemma EightTimes(length: nat)
    ensures ((length % TWO_64) * 8) % TWO_64 == (8 * length) % TWO_64
  {
    var q, r := length / TWO_64, length % TWO_64;
    assert 8 * length == (8 * q) * TWO_64 + 8 * r;
  }

  lemma TotalWraps(counter: nat, length: nat, more: nat)
    requires Counts(counter, length)
    ensures Counts((counter + more) % TWO_64, length + more)
  {
  }
}
