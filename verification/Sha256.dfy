/**
 * SHA-256 as sections 4.1.2, 5.1.1, 5.3.3 and 6.2.2 of FIPS 180-4 define it, by recursion:
 * the padding, the message schedule, the rounds and the chaining of blocks.
 */
module Sha256Spec {
  import opened Basics
  import Hex

  type word = bv32

  // ---------------------------------------------------------------- functions and constants

  /** ROTR, section 3.2: `x` rotated right by 0 < n < 32 places. */
  function RotR(x: word, n: word): word
    requires 0 < n < 32
  {
    (x >> n) | (x << (32 - n))
  }

  /** Addition of `std::uint32_t`, modulo 2^32. */
  function Plus(x: word, y: word): word {
    x + y
  }

  /** Exclusive or. */
  function Xor(x: word, y: word): word {
    x ^ y
  }

  function Ch(x: word, y: word, z: word): word {
    Xor(x & y, (!x) & z)
  }

  function Maj(x: word, y: word, z: word): word {
    Xor(Xor(x & y, x & z), y & z)
  }

  function BigSigma0(x: word): word {
    Xor(Xor(RotR(x, 2), RotR(x, 13)), RotR(x, 22))
  }

  function BigSigma1(x: word): word {
    Xor(Xor(RotR(x, 6), RotR(x, 11)), RotR(x, 25))
  }

  function SmallSigma0(x: word): word {
    Xor(Xor(RotR(x, 7), RotR(x, 18)), x >> 3)
  }

  function SmallSigma1(x: word): word {
    Xor(Xor(RotR(x, 17), RotR(x, 19)), x >> 10)
  }

  const K: seq<word> :=
    [0x428a2f98, 0x71374491, 0xb5c0fbcf, 0xe9b5dba5, 0x3956c25b, 0x59f111f1, 0x923f82a4, 0xab1c5ed5,
     0xd807aa98, 0x12835b01, 0x243185be, 0x550c7dc3, 0x72be5d74, 0x80deb1fe, 0x9bdc06a7, 0xc19bf174]
    + [0xe49b69c1, 0xefbe4786, 0x0fc19dc6, 0x240ca1cc, 0x2de92c6f, 0x4a7484aa, 0x5cb0a9dc, 0x76f988da,
     0x983e5152, 0xa831c66d, 0xb00327c8, 0xbf597fc7, 0xc6e00bf3, 0xd5a79147, 0x06ca6351, 0x14292967]
    + [0x27b70a85, 0x2e1b2138, 0x4d2c6dfc, 0x53380d13, 0x650a7354, 0x766a0abb, 0x81c2c92e, 0x92722c85,
     0xa2bfe8a1, 0xa81a664b, 0xc24b8b70, 0xc76c51a3, 0xd192e819, 0xd6990624, 0xf40e3585, 0x106aa070]
    + [0x19a4c116, 0x1e376c08, 0x2748774c, 0x34b0bcb5, 0x391c0cb3, 0x4ed8aa4a, 0x5b9cca4f, 0x682e6ff3,
     0x748f82ee, 0x78a5636f, 0x84c87814, 0x8cc70208, 0x90befffa, 0xa4506ceb, 0xbef9a3f7, 0xc67178f2]

  datatype Hash = Hash(a: word, b: word, c: word, d: word, e: word, f: word, g: word, h: word)

  const INITIAL: Hash := Hash(
    0x6a09e667, 0xbb67ae85, 0x3c6ef372, 0xa54ff53a, 0x510e527f, 0x9b05688c, 0x1f83d9ab, 0x5be0cd19)

  // ---------------------------------------------------------------- padding, section 5.1.1

  /** `n` shifted right by `places` bits. */
  function ShiftRight(n: nat, places: nat): nat {
    if places == 0 then n else ShiftRight(n / 2, places - 1)
  }

  function ByteAt(n: nat, shift: nat): byte {
    ShiftRight(n, shift) % 256
  }

  /** The low `8 * k` bits of `n`, high byte first. */
  function BigEndian(n: nat, k: nat): (s: seq<byte>)
    ensures |s| == k
  {
    if k == 0 then [] else [ByteAt(n, 8 * (k - 1))] + BigEndian(n, k - 1)
  }

  /** The smallest number of zero bytes after which only the length is missing from a whole block. */
  function ZeroCount(length: nat): (k: nat)
    ensures k < 64 && (length + 1 + k) % 64 == 56
  {
    (119 - length % 64) % 64
  }

  function Pad(m: seq<byte>): (p: seq<byte>)
    ensures |p| % 64 == 0
  {
    m + [0x80] + Zeros(ZeroCount(|m|)) + BigEndian(8 * |m|, 8)
  }

  // ---------------------------------------------------------------- hash computation, section 6.2.2

  function WordAt(p: seq<byte>, i: nat): word
    requires i + 4 <= |p|
  {
    ((p[i] as word) << 24) | ((p[i + 1] as word) << 16) | ((p[i + 2] as word) << 8) | (p[i + 3] as word)
  }

  /** The recurrence of the message schedule: a sum modulo 2^32, its terms in the source's order. */
  function Next(w2: word, w7: word, w15: word, w16: word): word {
    Plus(Plus(Plus(w16, SmallSigma0(w15)), w7), SmallSigma1(w2))
  }

  /** The message schedule of the block at `offset`. */
  function W(p: seq<byte>, offset: nat, t: nat): word
    requires offset + 64 <= |p| && t < 64
  {
    if t < 16 then WordAt(p, offset + 4 * t)
    else Next(W(p, offset, t - 2), W(p, offset, t - 7), W(p, offset, t - 15), W(p, offset, t - 16))
  }

  function Round(s: Hash, k: word, w: word): Hash {
    var t1 := Plus(Plus(Plus(Plus(s.h, BigSigma1(s.e)), Ch(s.e, s.f, s.g)), k), w);
    var t2 := Plus(BigSigma0(s.a), Maj(s.a, s.b, s.c));
    Hash(Plus(t1, t2), s.a, s.b, s.c, Plus(s.d, t1), s.e, s.f, s.g)
  }

  /** The working variables after rounds 0, ..., t - 1. */
  function Rounds(p: seq<byte>, offset: nat, s: Hash, t: nat): Hash
    requires offset + 64 <= |p| && t <= 64
  {
    if t == 0 then s else Round(Rounds(p, offset, s, t - 1), K[t - 1], W(p, offset, t - 1))
  }

  function Add(s: Hash, r: Hash): Hash {
    Hash(Plus(s.a, r.a), Plus(s.b, r.b), Plus(s.c, r.c), Plus(s.d, r.d),
         Plus(s.e, r.e), Plus(s.f, r.f), Plus(s.g, r.g), Plus(s.h, r.h))
  }

  /** The hash value after the first `n` blocks. */
  function Blocks(p: seq<byte>, n: nat): Hash
    requires 64 * n <= |p|
  {
    if n == 0 then INITIAL else
      var s := Blocks(p, n - 1);
      Add(s, Rounds(p, 64 * (n - 1), s, 64))
  }

  function Words(s: Hash): seq<word> {
    [s.a, s.b, s.c, s.d, s.e, s.f, s.g, s.h]
  }

  function HexOf(ws: seq<word>): string {
    if ws == [] then "" else HexOf(ws[..|ws| - 1]) + Hex.Padded(ws[|ws| - 1] as int, 8)
  }

  /** The digest of a message as text. */
  function HexDigest(m: seq<byte>): string {
    var p := Pad(m);
    HexOf(Words(Blocks(p, |p| / 64)))
  }

  // ---------------------------------------------------------------- padding is injective

  lemma {:induction false} ShiftsAdd(n: nat, i: nat, j: nat)
    ensures ShiftRight(n, i + j) == ShiftRight(ShiftRight(n, i), j)
  {
    if i > 0 { ShiftsAdd(n / 2, i - 1, j); }
  }

  lemma ShiftByEight(n: nat)
    ensures ShiftRight(n, 8) == n / 256
  {
    assert ShiftRight(n, 8) == ShiftRight(n / 2, 7) == ShiftRight(n / 4, 6);
    assert ShiftRight(n / 4, 6) == ShiftRight(n / 4 / 2, 5) == ShiftRight(n / 16, 4);
    assert ShiftRight(n / 16, 4) == ShiftRight(n / 16 / 2, 3) == ShiftRight(n / 64, 2);
    assert ShiftRight(n / 64, 2) == ShiftRight(n / 64 / 2, 1) == ShiftRight(n / 256, 0);
  }

  lemma {:induction false} BigEndianIsInjective(a: nat, b: nat, k: nat)
    requires BigEndian(a, k) == BigEndian(b, k)
    requires ShiftRight(a, 8 * k) == ShiftRight(b, 8 * k)
    ensures a == b
  {
    if k > 0 {
      var shift := 8 * (k - 1);
      assert BigEndian(a, k)[0] == ByteAt(a, shift) && BigEndian(b, k)[0] == ByteAt(b, shift);
      assert BigEndian(a, k)[1..] == BigEndian(a, k - 1) && BigEndian(b, k)[1..] == BigEndian(b, k - 1);
      ShiftsAdd(a, shift, 8);
      ShiftsAdd(b, shift, 8);
      ShiftByEight(ShiftRight(a, shift));
      ShiftByEight(ShiftRight(b, shift));
      BigEndianIsInjective(a, b, k - 1);
    }
  }

  lemma {:induction false} ShiftVanishes(n: nat, places: nat, bound: nat)
    requires n < bound && bound == Pow2(places)
    ensures ShiftRight(n, places) == 0
  {
    if places > 0 { ShiftVanishes(n / 2, places - 1, Pow2(places - 1)); }
  }

  function Pow2(n: nat): nat {
    if n == 0 then 1 else 2 * Pow2(n - 1)
  }

  lemma Pow64()
    ensures Pow2(64) == 0x1_0000_0000_0000_0000
  {
    assert Pow2(8) == 0x100 by { assert Pow2(4) == 0x10; }
    assert Pow2(16) == 0x1_0000 by { assert Pow2(12) == 0x1000; }
    assert Pow2(24) == 0x100_0000 by { assert Pow2(20) == 0x10_0000; }
    assert Pow2(32) == 0x1_0000_0000 by { assert Pow2(28) == 0x1000_0000; }
    assert Pow2(40) == 0x100_0000_0000 by { assert Pow2(36) == 0x10_0000_0000; }
    assert Pow2(48) == 0x1_0000_0000_0000 by { assert Pow2(44) == 0x1000_0000_0000; }
    assert Pow2(56) == 0x100_0000_0000_0000 by { assert Pow2(52) == 0x10_0000_0000_0000; }
    assert Pow2(60) == 0x1000_0000_0000_0000;
  }

  /** Different messages are padded differently. */
  lemma PaddingIsInjective(m: seq<byte>, m': seq<byte>)
    requires |m| < 0x2000_0000_0000_0000 && |m'| < 0x2000_0000_0000_0000
    requires Pad(m) == Pad(m')
    ensures m == m'
  {
    var p, p' := Pad(m), Pad(m');
    assert p[|p| - 8..] == BigEndian(8 * |m|, 8) && p'[|p'| - 8..] == BigEndian(8 * |m'|, 8);
    Pow64();
    ShiftVanishes(8 * |m|, 64, Pow2(64));
    ShiftVanishes(8 * |m'|, 64, Pow2(64));
    BigEndianIsInjective(8 * |m|, 8 * |m'|, 8);
    assert m == p[..|m|] && m' == p'[..|m'|];
  }

  // ---------------------------------------------------------------- chaining, section 6.2.2

  lemma LaterWord(p: seq<byte>, offset: nat, t: nat)
    requires offset + 64 <= |p| && 16 <= t < 64
    ensures W(p, offset, t)
            == Next(W(p, offset, t - 2), W(p, offset, t - 7), W(p, offset, t - 15), W(p, offset, t - 16))
  {
    hide Next;
  }

  lemma FirstWordIsLocal(p: seq<byte>, offset: nat, t: nat)
    requires offset + 64 <= |p| && t < 16
    ensures W(p, offset, t) == W(p[offset..offset + 64], 0, t)
  {
    var block := p[offset..offset + 64];
    assert forall i :: 0 <= i < 64 ==> block[i] == p[offset + i];
    assert WordAt(p, offset + 4 * t) == WordAt(block, 4 * t);
  }

  lemma {:induction false} WordIsLocal(p: seq<byte>, offset: nat, t: nat)
    requires offset + 64 <= |p| && t < 64
    ensures W(p, offset, t) == W(p[offset..offset + 64], 0, t)
  {
    hide Next, W;
    if t < 16 {
      FirstWordIsLocal(p, offset, t);
    } else {
      WordIsLocal(p, offset, t - 2);
      WordIsLocal(p, offset, t - 7);
      WordIsLocal(p, offset, t - 15);
      WordIsLocal(p, offset, t - 16);
      LaterWord(p, offset, t);
      LaterWord(p[offset..offset + 64], 0, t);
    }
  }

  lemma {:induction false} RoundsAreLocal(p: seq<byte>, offset: nat, s: Hash, t: nat)
    requires offset + 64 <= |p| && t <= 64
    ensures Rounds(p, offset, s, t) == Rounds(p[offset..offset + 64], 0, s, t)
  {
    hide Round, W, K;
    if t > 0 {
      RoundsAreLocal(p, offset, s, t - 1);
      WordIsLocal(p, offset, t - 1);
    }
  }

  /** `hs` are the hash values before and after each block of `p`, each block taken by itself. */
  ghost predicate IsChain(p: seq<byte>, hs: seq<Hash>) {
    && |p| % 64 == 0 && |hs| == |p| / 64 + 1 && hs[0] == INITIAL
    && forall i :: 0 <= i < |p| / 64 ==>
         hs[i + 1] == Add(hs[i], Rounds(p[64 * i..64 * i + 64], 0, hs[i], 64))
  }

  lemma {:induction false} ChainIsBlocks(p: seq<byte>, hs: seq<Hash>, n: nat)
    requires IsChain(p, hs) && 64 * n <= |p|
    ensures hs[n] == Blocks(p, n)
  {
    hide Rounds, Add, INITIAL;
    if n > 0 {
      ChainIsBlocks(p, hs, n - 1);
      RoundsAreLocal(p, 64 * (n - 1), hs[n - 1], 64);
      assert hs[n - 1 + 1] == Add(hs[n - 1], Rounds(p[64 * (n - 1)..64 * (n - 1) + 64], 0, hs[n - 1], 64));
    }
  }

  /** The digest is the last value of the chain over the padded message's blocks. */
  lemma DigestIsLastOfChain(m: seq<byte>, hs: seq<Hash>)
    requires IsChain(Pad(m), hs)
    ensures HexDigest(m) == HexOf(Words(hs[|hs| - 1]))
  {
    hide IsChain, HexOf, Pad;
    ChainIsBlocks(Pad(m), hs, |Pad(m)| / 64);
    assert |hs| == |Pad(m)| / 64 + 1 by { ChainLength(Pad(m), hs); }
  }

  lemma ChainLength(p: seq<byte>, hs: seq<Hash>)
    requires IsChain(p, hs)
    ensures |hs| == |p| / 64 + 1
  {
  }

  // ---------------------------------------------------------------- the digest as text

  lemma {:induction false} HexTextLength(n: nat, k: nat, bound: nat)
    requires k >= 1 && n < bound && bound == Pow16(k)
    ensures |Hex.Text(n)| <= k
  {
    if n >= 16 { HexTextLength(n / 16, k - 1, Pow16(k - 1)); }
  }

  function Pow16(n: nat): nat {
    if n == 0 then 1 else 16 * Pow16(n - 1)
  }

  predicate LowerHex(s: string) {
    forall k :: 0 <= k < |s| ==> Hex.IsDigit(s[k])
  }

  lemma WordHexLength(w: word)
    ensures |Hex.Padded(w as int, 8)| == 8 && LowerHex(Hex.Padded(w as int, 8))
  {
    assert Pow16(4) == 0x1_0000;
    assert Pow16(8) == 0x1_0000_0000;
    HexTextLength(w as int, 8, Pow16(8));
  }

  lemma {:induction false} HexOfLength(ws: seq<word>)
    ensures |HexOf(ws)| == 8 * |ws| && LowerHex(HexOf(ws))
  {
    if ws != [] {
      HexOfLength(ws[..|ws| - 1]);
      WordHexLength(ws[|ws| - 1]);
    }
  }

  /** A digest is always 64 lower-case hexadecimal digits. */
  lemma DigestIs64HexDigits(m: seq<byte>)
    ensures |HexDigest(m)| == 64 && LowerHex(HexDigest(m))
  {
    var p := Pad(m);
    HexOfLength(Words(Blocks(p, |p| / 64)));
  }
}

/** `Auth::sha256Hex` (src/Auth.cpp:87-160): arrays and loops. */
module Sha256 {
  import opened Basics
  import Hex
  import opened Sha256Spec

  method PadMessage(input: seq<byte>) returns (message: seq<byte>)
    requires |input| < 0x2000_0000_0000_0000
    ensures message == Pad(input)
  {
    hide BigEndian;
    message := input;
    var bitLength := (|message| * 8) % 0x1_0000_0000_0000_0000;
    message := message + [0x80];
    while |message| % 64 != 56
      invariant |input| + 1 <= |message| <= |input| + 1 + ZeroCount(|input|)
      invariant message == input + [0x80] + Zeros(|message| - |input| - 1)
      decreases |input| + 1 + ZeroCount(|input|) - |message|
    {
      message := message + [0];
    }
    message := AppendLength(message, bitLength);
  }

  /** The length in eight bytes, most significant first. */
  method AppendLength(padded: seq<byte>, bitLength: nat) returns (message: seq<byte>)
    ensures message == padded + BigEndian(bitLength, 8)
  {
    hide ByteAt;
    message := padded;
    var shift := 56;
    while shift >= 0
      invariant -8 <= shift <= 56 && shift % 8 == 0
      invariant message + BigEndian(bitLength, (shift + 8) / 8) == padded + BigEndian(bitLength, 8)
      decreases shift
    {
      var next := ByteAt(bitLength, shift);
      assert message + [next] + BigEndian(bitLength, shift / 8) == message + ([next] + BigEndian(bitLength, shift / 8));
      message := message + [next];
      shift := shift - 8;
    }
  }

  /** One further schedule word. */
  method ScheduleWord(w2: word, w7: word, w15: word, w16: word) returns (w: word)
    ensures w == Next(w2, w7, w15, w16)
  {
    hide RotR, Plus, Xor;
    var s0 := Xor(Xor(RotR(w15, 7), RotR(w15, 18)), w15 >> 3);
    var s1 := Xor(Xor(RotR(w2, 17), RotR(w2, 19)), w2 >> 10);
    w := Plus(Plus(Plus(w16, s0), w7), s1);
  }

  method Schedule(message: seq<byte>, offset: nat) returns (words: array<word>)
    requires offset + 64 <= |message|
    ensures fresh(words) && words.Length == 64
    ensures forall t :: 0 <= t < 64 ==> words[t] == W(message, offset, t)
  {
    hide Next, WordAt;
    words := new word[64](_ => 0);
    var i := 0;
    while i < 16
      invariant i <= 16 && forall t :: 0 <= t < i ==> words[t] == W(message, offset, t)
    {
      words[i] := WordAt(message, offset + i * 4);
      i := i + 1;
    }
    while i < 64
      invariant 16 <= i <= 64 && forall t :: 0 <= t < i ==> words[t] == W(message, offset, t)
    {
      var w := ScheduleWord(words[i - 2], words[i - 7], words[i - 15], words[i - 16]);
      words[i] := w;
      i := i + 1;
    }
  }

  /** The two sums of a round, in terms of the working variables they use. */
  method Temporaries(a: word, b: word, c: word, e: word, f: word, g: word, h: word, k: word, w: word)
    returns (temp1: word, temp2: word)
    ensures temp1 == Plus(Plus(Plus(Plus(h, BigSigma1(e)), Ch(e, f, g)), k), w)
    ensures temp2 == Plus(BigSigma0(a), Maj(a, b, c))
  {
    hide RotR, Plus, Xor;
    var sigma1 := Xor(Xor(RotR(e, 6), RotR(e, 11)), RotR(e, 25));
    var choice := Xor(e & f, (!e) & g);
    temp1 := Plus(Plus(Plus(Plus(h, sigma1), choice), k), w);
    var sigma0 := Xor(Xor(RotR(a, 2), RotR(a, 13)), RotR(a, 22));
    var majority := Xor(Xor(a & b, a & c), b & c);
    temp2 := Plus(sigma0, majority);
  }

  /** The body of the round loop: the eight working variables move along by one. */
  method RoundStep(s: Hash, k: word, w: word) returns (r: Hash)
    ensures r == Round(s, k, w)
  {
    hide BigSigma0, BigSigma1, Ch, Maj, Plus;
    var Hash(a, b, c, d, e, f, g, h) := s;
    var temp1, temp2 := Temporaries(a, b, c, e, f, g, h, k, w);
    h := g;
    g := f;
    f := e;
    e := Plus(d, temp1);
    d := c;
    c := b;
    b := a;
    a := Plus(temp1, temp2);
    r := Hash(a, b, c, d, e, f, g, h);
  }

  lemma NextRound(p: seq<byte>, offset: nat, s: Hash, i: nat)
    requires offset + 64 <= |p| && i < 64
    ensures Rounds(p, offset, s, i + 1) == Round(Rounds(p, offset, s, i), K[i], W(p, offset, i))
  {
  }

  lemma KHas64Words()
    ensures |K| == 64
  {
  }

  /** All 64 rounds on the block at `offset`. */
  method RunRounds(message: seq<byte>, offset: nat, s: Hash) returns (r: Hash)
    requires offset + 64 <= |message|
    ensures r == Rounds(message, offset, s, 64)
  {
    hide Round, W, K;
    assert |K| == 64 by { KHas64Words(); }
    var words := Schedule(message, offset);
    r := s;
    var i := 0;
    while i < 64
      invariant i <= 64 && r == Rounds(message, offset, s, i)
      invariant forall t :: 0 <= t < 64 ==> words[t] == W(message, offset, t)
    {
      var next := RoundStep(r, K[i], words[i]);
      NextRound(message, offset, s, i);
      r := next;
      i := i + 1;
    }
  }

  method Compress(message: seq<byte>, offset: nat, state: array<word>)
    requires offset + 64 <= |message| && state.Length == 8
    modifies state
    ensures state[..] == Words(Add(HashOf(old(state[..])), Rounds(message, offset, HashOf(old(state[..])), 64)))
  {
    hide Rounds, Plus;
    var s := HashOf(state[..]);
    var r := RunRounds(message, offset, s);
    state[0] := Plus(state[0], r.a);
    state[1] := Plus(state[1], r.b);
    state[2] := Plus(state[2], r.c);
    state[3] := Plus(state[3], r.d);
    state[4] := Plus(state[4], r.e);
    state[5] := Plus(state[5], r.f);
    state[6] := Plus(state[6], r.g);
    state[7] := Plus(state[7], r.h);
  }

  function HashOf(s: seq<word>): Hash
    requires |s| == 8
  {
    Hash(s[0], s[1], s[2], s[3], s[4], s[5], s[6], s[7])
  }

  /** The loop over the blocks, on the array of chaining values. */
  method HashMessage(message: seq<byte>) returns (state: array<word>)
    requires |message| % 64 == 0
    ensures fresh(state) && state.Length == 8 && state[..] == Words(Blocks(message, |message| / 64))
  {
    hide Rounds, Add;
    state := new word[8] [0x6a09e667, 0xbb67ae85, 0x3c6ef372, 0xa54ff53a, 0x510e527f, 0x9b05688c, 0x1f83d9ab,
                          0x5be0cd19];
    var offset := 0;
    while offset < |message|
      invariant offset <= |message| && offset % 64 == 0 && fresh(state)
      invariant state[..] == Words(Blocks(message, offset / 64))
    {
      Compress(message, offset, state);
      offset := offset + 64;
    }
  }

  /** `setw(8)` and `setfill('0')` for each of the eight words. */
  method WriteHex(state: array<word>) returns (output: string)
    ensures output == HexOf(state[..])
  {
    hide Hex.Padded;
    output := "";
    var i := 0;
    while i < state.Length
      invariant i <= state.Length && output == HexOf(state[..i])
    {
      assert state[..i + 1][..i] == state[..i];
      output := output + Hex.Padded(state[i] as int, 8);
      i := i + 1;
    }
    assert state[..i] == state[..];
  }

  /** The whole function: the hexadecimal SHA-256 digest of the input. */
  method Sha256Hex(input: seq<byte>) returns (output: string)
    requires |input| < 0x2000_0000_0000_0000
    ensures output == HexDigest(input)
    ensures |output| == 64 && LowerHex(output)
  {
    hide Blocks, HexOf;
    var message := PadMessage(input);
    var state := HashMessage(message);
    output := WriteHex(state);
    DigestIs64HexDigits(input);
  }
}
