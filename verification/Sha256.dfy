/** SHA-256 as sha2.c computes it, a context that is fed a message in pieces, against FIPS 180-2: the
    functions and recurrences of the standard, the code, and then what the standard says of its own
    constants, functions and padding, with the first of its examples. */
module Sha256 {
  import opened Bytes

  type word = bv32
  type State = s: seq<word> | |s| == 8 witness seq(8, _ => 0)
  type Block = s: seq<byte> | |s| == 64 witness seq(64, _ => 0)

  // ----- section 4: functions and constants -----

  function ShfR(x: word, n: nat): word requires n < 32 { x >> n }
  function RotR(x: word, n: nat): word requires 0 < n < 32 { (x >> n) | (x << (32 - n)) }
  function Ch(x: word, y: word, z: word): word { (x & y) ^ (!x & z) }
  function Maj(x: word, y: word, z: word): word { (x & y) ^ (x & z) ^ (y & z) }
  function F1(x: word): word { RotR(x, 2) ^ RotR(x, 13) ^ RotR(x, 22) }
  function F2(x: word): word { RotR(x, 6) ^ RotR(x, 11) ^ RotR(x, 25) }
  function F3(x: word): word { RotR(x, 7) ^ RotR(x, 18) ^ ShfR(x, 3) }
  function F4(x: word): word { RotR(x, 17) ^ RotR(x, 19) ^ ShfR(x, 10) }

  /** Addition modulo 2^32. */
  function Add(x: word, y: word): word { x + y }

  const H0: State := [
    0x6a09e667, 0xbb67ae85, 0x3c6ef372, 0xa54ff53a, 0x510e527f, 0x9b05688c, 0x1f83d9ab, 0x5be0cd19]

  /** Sixteen at a time. */
  const KA: seq<word> := [
    0x428a2f98, 0x71374491, 0xb5c0fbcf, 0xe9b5dba5, 0x3956c25b, 0x59f111f1, 0x923f82a4, 0xab1c5ed5,
    0xd807aa98, 0x12835b01, 0x243185be, 0x550c7dc3, 0x72be5d74, 0x80deb1fe, 0x9bdc06a7, 0xc19bf174]

  const KB: seq<word> := [
    0xe49b69c1, 0xefbe4786, 0x0fc19dc6, 0x240ca1cc, 0x2de92c6f, 0x4a7484aa, 0x5cb0a9dc, 0x76f988da,
    0x983e5152, 0xa831c66d, 0xb00327c8, 0xbf597fc7, 0xc6e00bf3, 0xd5a79147, 0x06ca6351, 0x14292967]

  const KC: seq<word> := [
    0x27b70a85, 0x2e1b2138, 0x4d2c6dfc, 0x53380d13, 0x650a7354, 0x766a0abb, 0x81c2c92e, 0x92722c85,
    0xa2bfe8a1, 0xa81a664b, 0xc24b8b70, 0xc76c51a3, 0xd192e819, 0xd6990624, 0xf40e3585, 0x106aa070]

  const KD: seq<word> := [
    0x19a4c116, 0x1e376c08, 0x2748774c, 0x34b0bcb5, 0x391c0cb3, 0x4ed8aa4a, 0x5b9cca4f, 0x682e6ff3,
    0x748f82ee, 0x78a5636f, 0x84c87814, 0x8cc70208, 0x90befffa, 0xa4506ceb, 0xbef9a3f7, 0xc67178f2]

  const K: seq<word> := KA + KB + KC + KD

  /** `PACK32`: four bytes as a word, most significant first. */
  function Pack32(b: seq<byte>): word
    requires |b| == 4
  {
    (b[3] as word) | ((b[2] as word) << 8) | ((b[1] as word) << 16) | ((b[0] as word) << 24)
  }

  /** `UNPACK32`: the bytes of a word, most significant first. */
  function Unpack32(x: word): (b: seq<byte>)
    ensures |b| == 4
  {
    [LowByte(x >> 24), LowByte(x >> 16), LowByte(x >> 8), LowByte(x)]
  }

  function LowByte(x: word): byte {
    ((x & 0xff) as bv8) as int
  }

  // ----- section 6.2.2: the hash computation, by its own recurrences -----

  /** `SHA256_SCR`: a schedule word from those 2, 7, 15 and 16 places before it. */
  function Expand(w2: word, w7: word, w15: word, w16: word): word {
    F4(w2) + w7 + F3(w15) + w16
  }

  function T1(h: word, e: word, f: word, g: word, k: word, w: word): word {
    h + F2(e) + Ch(e, f, g) + k + w
  }

  function T2(a: word, b: word, c: word): word {
    F1(a) + Maj(a, b, c)
  }

  /** The message schedule W_t of one block. */
  function W(block: Block, t: nat): word
    requires t < 64
    decreases t, block
  {
    if t < 16 then Pack32(block[4 * t..4 * t + 4])
    else Expand(W(block, t - 2), W(block, t - 7), W(block, t - 15), W(block, t - 16))
  }

  /** The eight working variables. */
  datatype Vars = Vars(a: word, b: word, c: word, d: word, e: word, f: word, g: word, h: word)

  /** The working variables before round `t`. */
  function Rounds(s: State, block: Block, t: nat): Vars
    requires t <= 64
    decreases t, block
  {
    if t == 0 then Vars(s[0], s[1], s[2], s[3], s[4], s[5], s[6], s[7])
    else
      var v := Rounds(s, block, t - 1);
      var t1 := T1(v.h, v.e, v.f, v.g, K[t - 1], W(block, t - 1));
      var t2 := T2(v.a, v.b, v.c);
      Vars(Add(t1, t2), v.a, v.b, v.c, Add(v.d, t1), v.e, v.f, v.g)
  }

  function Compress(s: State, block: Block): State {
    SumInto(s, Rounds(s, block, 64))
  }

  function SumInto(s: State, v: Vars): State {
    [Add(s[0], v.a), Add(s[1], v.b), Add(s[2], v.c), Add(s[3], v.d),
     Add(s[4], v.e), Add(s[5], v.f), Add(s[6], v.g), Add(s[7], v.h)]
  }

  /** The state after hashing the blocks of `m` in order. */
  function Blocks(s: State, m: seq<byte>): State
    requires |m| % 64 == 0
    decreases |m|
  {
    if |m| == 0 then s else Compress(Blocks(s, m[..|m| - 64]), m[|m| - 64..])
  }

  function Digest(s: State): (d: seq<byte>)
    ensures |d| == 32
  {
    Unpack32(s[0]) + Unpack32(s[1]) + Unpack32(s[2]) + Unpack32(s[3]) +
    Unpack32(s[4]) + Unpack32(s[5]) + Unpack32(s[6]) + Unpack32(s[7])
  }

  function Zeros(n: nat): (z: seq<byte>)
    ensures |z| == n
  {
    seq(n, _ => 0)
  }

  lemma PaddingAligns(len: nat)
    ensures (len + (9 + (55 - len) % 64)) % 64 == 0
  {}

  /** Section 5.1.1: a one bit, the fewest zero bits that leave 64 over, and the length in bits. */
  function Padding(len: nat): (p: seq<byte>)
    ensures (len + |p|) % 64 == 0
    ensures 9 <= |p| < 73
  {
    PaddingAligns(len);
    [0x80] + Zeros((55 - len) % 64) + Reverse(ToLittleEndian(8 * len, 8))
  }

  function Hash256(m: seq<byte>): (d: seq<byte>)
    ensures |d| == 32
  {
    Digest(Blocks(H0, m + Padding(|m|)))
  }

  // ----- sha256_transf -----

  ghost function VarsOf(wv: seq<word>): Vars
    requires |wv| == 8
  {
    Vars(wv[0], wv[1], wv[2], wv[3], wv[4], wv[5], wv[6], wv[7])
  }

  /** Fills `w` with the message schedule of a block. */
  method Schedule(w: array<word>, block: Block)
    requires w.Length == 64
    modifies w
    ensures forall t :: 0 <= t < 64 ==> w[t] == W(block, t)
  {
    hide Expand, Pack32;
    for j := 0 to 16
      invariant forall t :: 0 <= t < j ==> w[t] == W(block, t)
    {
      w[j] := Pack32(block[4 * j..4 * j + 4]);
    }
    for j := 16 to 64
      invariant forall t :: 0 <= t < j ==> w[t] == W(block, t)
    {
      w[j] := Expand(w[j - 2], w[j - 7], w[j - 15], w[j - 16]);
    }
  }

  /** One round, shifting the working variables down the array. */
  method Round(wv: array<word>, k: word, w: word)
    requires wv.Length == 8
    modifies wv
    ensures
      var v := old(VarsOf(wv[..]));
      var t1 := T1(v.h, v.e, v.f, v.g, k, w);
      VarsOf(wv[..]) == Vars(Add(t1, T2(v.a, v.b, v.c)), v.a, v.b, v.c, Add(v.d, t1), v.e, v.f, v.g)
  {
    hide T1, T2, Add;
    var t1 := T1(wv[7], wv[4], wv[5], wv[6], k, w);
    var t2 := T2(wv[0], wv[1], wv[2]);
    wv[7] := wv[6];
    wv[6] := wv[5];
    wv[5] := wv[4];
    wv[4] := Add(wv[3], t1);
    wv[3] := wv[2];
    wv[2] := wv[1];
    wv[1] := wv[0];
    wv[0] := Add(t1, t2);
  }

  /** The feed-forward sum of the working variables into the state. */
  method AddInto(h: array<word>, wv: array<word>)
    requires h.Length == 8 && wv.Length == 8 && h != wv
    modifies h
    ensures h[..] == SumInto(old(h[..]), VarsOf(wv[..]))
  {
    hide Add;
    ghost var s := h[..];
    for j := 0 to 8
      invariant forall i :: 0 <= i < j ==> h[i] == Add(s[i], wv[i])
      invariant forall i :: j <= i < 8 ==> h[i] == s[i]
    {
      h[j] := Add(h[j], wv[j]);
    }
  }

  lemma RoundsNext(s: State, block: Block, t: nat)
    requires t < 64
    ensures var v := Rounds(s, block, t); var t1 := T1(v.h, v.e, v.f, v.g, K[t], W(block, t));
      Rounds(s, block, t + 1) == Vars(Add(t1, T2(v.a, v.b, v.c)), v.a, v.b, v.c, Add(v.d, t1), v.e, v.f, v.g)
  {
    hide T1, T2, Add, W, K;
  }

  /** The loop of sixty-four rounds. */
  method AllRounds(wv: array<word>, w: array<word>, ghost s: State, ghost block: Block)
    requires wv.Length == 8 && w.Length == 64 && wv != w
    requires VarsOf(wv[..]) == Rounds(s, block, 0) && forall t :: 0 <= t < 64 ==> w[t] == W(block, t)
    modifies wv
    ensures VarsOf(wv[..]) == Rounds(s, block, 64)
  {
    hide T1, T2, Add, W, Rounds, VarsOf;
    for j := 0 to 64
      invariant VarsOf(wv[..]) == Rounds(s, block, j)
    {
      RoundsNext(s, block, j);
      Round(wv, K[j], w[j]);
    }
  }

  /** The working variables start as the state. */
  method StartVars(h: array<word>) returns (wv: array<word>)
    requires h.Length == 8
    ensures fresh(wv) && wv.Length == 8 && wv[..] == h[..]
  {
    wv := new word[8];
    for j := 0 to 8
      invariant wv[..j] == h[..j]
    {
      wv[j] := h[j];
    }
    assert wv[..8] == wv[..] && h[..8] == h[..];
  }

  lemma StartIsRoundZero(s: State, block: Block)
    ensures VarsOf(s) == Rounds(s, block, 0)
  {}

  /** The body of the block loop: schedule, sixty-four rounds, and the sum into the state. */
  method TransformBlock(h: array<word>, block: Block)
    requires h.Length == 8
    modifies h
    ensures h[..] == Compress(old(h[..]), block)
  {
    hide T1, T2, Add, W, K, SumInto, Rounds, VarsOf;
    ghost var s: State := h[..];
    var w := new word[64];
    Schedule(w, block);
    var wv := StartVars(h);
    StartIsRoundZero(s, block);
    AllRounds(wv, w, s, block);
    AddInto(h, wv);
  }

  lemma EmptyBlocks(s: State)
    ensures Blocks(s, []) == s
  {}

  /** The first `n` blocks of a message. */
  function FirstBlocks(m: seq<byte>, n: nat): (r: seq<byte>)
    requires 64 * n <= |m|
    ensures |r| == 64 * n && |r| % 64 == 0
  {
    m[..64 * n]
  }

  /** Block `i` of a message. */
  function BlockAt(m: seq<byte>, i: nat): (b: Block)
    requires 64 * i + 64 <= |m|
  {
    m[64 * i..64 * i + 64]
  }

  lemma BlocksStep(s: State, m: seq<byte>, i: nat)
    requires 64 * i + 64 <= |m|
    ensures Blocks(s, FirstBlocks(m, i + 1)) == Compress(Blocks(s, FirstBlocks(m, i)), BlockAt(m, i))
  {
    hide Compress;
    var n := FirstBlocks(m, i + 1);
    assert n[..|n| - 64] == FirstBlocks(m, i);
    assert n[|n| - 64..] == BlockAt(m, i);
  }

  /** `sha256_transf`, the portable version, for as many blocks as its `int` offset `i << 6` can reach. */
  method Transf(h: array<word>, message: seq<byte>, blockNb: nat)
    requires h.Length == 8 && 64 * blockNb <= |message| && 64 * blockNb <= 0x8000_0000
    modifies h
    ensures h[..] == Blocks(old(h[..]), FirstBlocks(message, blockNb))
  {
    hide Compress;
    ghost var s: State := h[..];
    for i := 0 to blockNb
      invariant h[..] == Blocks(s, FirstBlocks(message, i))
    {
      BlocksStep(s, message, i);
      TransformBlock(h, BlockAt(message, i));
    }
  }

  /** Hashing blocks in two goes is hashing them in one. */
  lemma {:induction false} BlocksConcat(s: State, a: seq<byte>, b: seq<byte>)
    requires |a| % 64 == 0 && |b| % 64 == 0
    ensures Blocks(s, a + b) == Blocks(Blocks(s, a), b)
    decreases |b|
  {
    hide Compress;
    if |b| == 0 {
      assert a + b == a;
    } else {
      var front := b[..|b| - 64];
      BlocksConcat(s, a, front);
      assert (a + b)[..|a + b| - 64] == a + front;
      assert (a + b)[|a + b| - 64..] == b[|b| - 64..];
    }
  }

  /** Completing a partly filled block, taking whole blocks and leaving a rest, against hashing
      everything but the rest at once. */
  lemma BlocksAbsorb(s: State, whole: seq<byte>, tail: seq<byte>, head: seq<byte>, body: seq<byte>, rest: seq<byte>)
    requires |whole| % 64 == 0 && |tail| + |head| == 64 && |body| % 64 == 0 && |rest| < 64
    ensures
      var all := whole + tail + (head + (body + rest));
      && |all| % 64 == |rest|
      && all[|all| - |rest|..] == rest
      && all[..|all| - |rest|] == whole + (tail + head) + body
    ensures |whole + (tail + head) + body| % 64 == 0
    ensures Blocks(Blocks(Blocks(s, whole), tail + head), body) == Blocks(s, whole + (tail + head) + body)
  {
    hide Blocks, Compress;
    BlocksConcat(s, whole, tail + head);
    BlocksConcat(s, whole + (tail + head), body);
  }

  lemma WordWrap(q: nat, r: nat)
    ensures (q * 0x1_0000_0000 + r) % 0x1_0000_0000 == r % 0x1_0000_0000
  {}

  lemma WordAdd(a: nat, b: nat)
    ensures (a % WORD + b) % WORD == (a + b) % WORD
  {
    WordWrap(a / WORD, a % WORD + b);
  }

  lemma ShortRest(whole: nat, len: nat, more: nat)
    requires whole + len - (whole + len) % 64 == whole && len + more < 64
    ensures (whole + len + more) % 64 == len + more
  {}

  lemma WholeBlocks(n: nat)
    ensures (n - n % 64) % 64 == 0 && 64 * (n / 64) % 64 == 0 && n - n % 64 == 64 * (n / 64)
  {}

  // ----- the streaming context -----

  const WORD := 0x1_0000_0000

  /** The bytes `sha256_final` appends: like `Padding`, but the length is an `unsigned int` shifted
      left by three, so only its low 32 bits are kept. */
  function StreamPadding(len: nat): (p: seq<byte>)
    ensures (len + |p|) % 64 == 0
    ensures 9 <= |p| < 73
  {
    PaddingAligns(len);
    [0x80] + Zeros((55 - len) % 64) + Reverse(ToLittleEndian(8 * len % WORD, 8))
  }

  method LoadH0(h: array<word>)
    requires h.Length == 8
    modifies h
    ensures h[..] == H0
  {
    hide H0;
    for i := 0 to 8
      invariant h[..i] == H0[..i]
    {
      h[i] := H0[i];
    }
    assert h[..] == h[..8] && H0 == H0[..8];
  }

  method InitialState() returns (h: array<word>)
    ensures fresh(h) && h.Length == 8 && h[..] == H0
  {
    hide H0;
    h := new word[8];
    LoadH0(h);
  }

  lemma NothingConsumed(consumed: seq<byte>, buffered: seq<byte>)
    requires consumed == [] && buffered == []
    ensures consumed[..|consumed| - 0] == [] && buffered == consumed[|consumed| - 0..] && |consumed| % 64 == 0 && |consumed| % WORD == 0
  {}

  class Context {
    var h: array<word>
    var block: array<byte>
    var len: nat
    var totLen: nat
    ghost var consumed: seq<byte>

    /** The context stands for the bytes consumed so far: the whole blocks are hashed, the rest is
        buffered, and the byte counter is exact modulo 2^32. */
    ghost predicate Valid()
      reads this, h, block
      ensures Valid() ==> len < 64
    {
      && h.Length == 8 && block.Length == 128
      && len == |consumed| % 64
      && (|consumed| - len) % 64 == 0
      && totLen == (|consumed| - len) % WORD
      && h[..] == Blocks(H0, consumed[..|consumed| - len])
      && block[..len] == consumed[|consumed| - len..]
    }

    /** `sha256_init`. */
    constructor ()
      ensures Valid() && consumed == [] && len == 0 && fresh(h) && fresh(block)
    {
      hide H0, K, Blocks;
      EmptyBlocks(H0);
      var state := InitialState();
      h := state;
      block := new byte[128];
      len, totLen := 0, 0;
      consumed := [];
      new;
      NothingConsumed(consumed, block[..0]);
    }

    /** `memcpy` into the block buffer. */
    method CopyToBlock(ofs: nat, src: seq<byte>)
      requires ofs + |src| <= block.Length
      modifies block
      ensures block[..] == old(block[..ofs]) + src + old(block[ofs + |src|..])
    {
      forall i | 0 <= i < |src| {
        block[ofs + i] := src[i];
      }
    }

    /** `sha256_update`, for messages of up to 2^31 bytes, beyond which the `int` offsets of the blocks
        overflow. The context goes on representing the bytes consumed. */
    method Update(message: seq<byte>)
      requires Valid() && |message| <= 0x8000_0000
      modifies this`len, this`totLen, this`consumed, h, block
      ensures Valid() && consumed == old(consumed) + message
    {
      hide Blocks, H0;
      var tmpLen := 64 - len;
      var remLen := if |message| < tmpLen then |message| else tmpLen;
      ghost var whole, tail := consumed[..|consumed| - len], block[..len];
      CopyToBlock(len, message[..remLen]);
      consumed := consumed + message;
      assert consumed == whole + tail + message;
      if len + |message| < 64 {
        ShortRest(|whole|, len, |message|);
        len := len + |message|;
        assert block[..len] == tail + message && consumed[..|consumed| - len] == whole;
        return;
      }
      WholeBlocks(old(|consumed|));
      HashWhole(message, remLen, whole, tail);
    }

    /** The rest of `sha256_update`, once the buffered block is complete. */
    method HashWhole(message: seq<byte>, remLen: nat, ghost whole: seq<byte>, ghost tail: seq<byte>)
      requires h.Length == 8 && block.Length == 128
      requires remLen <= |message| <= 0x8000_0000 && |tail| + remLen == 64 && |whole| % 64 == 0
      requires consumed == whole + tail + message
      requires h[..] == Blocks(H0, whole) && block[..64] == tail + message[..remLen]
      requires totLen == |whole| % WORD
      modifies this`len, this`totLen, h, block
      ensures Valid()
    {
      hide Blocks, H0;
      var newLen := |message| - remLen;
      var blockNb := newLen / 64;
      var shifted := message[remLen..];
      ghost var head, body, rest := message[..remLen], FirstBlocks(shifted, blockNb), shifted[64 * blockNb..];
      WholeBlocks(newLen);
      BlocksAbsorb(H0, whole, tail, head, body, rest);
      assert message == head + (body + rest);
      AbsorbCounters(|whole|, newLen, blockNb);
      HashBlocks(shifted, blockNb, Blocks(H0, whole), tail + head);
      len := newLen % 64;
      totLen := (totLen + 64 * (blockNb + 1)) % WORD;
    }

    /** The buffered block and then whole blocks are hashed, and the rest is buffered. */
    method HashBlocks(shifted: seq<byte>, blockNb: nat, ghost s: State, ghost first: seq<byte>)
      requires h.Length == 8 && block.Length == 128 && 64 * blockNb <= |shifted| < 64 * blockNb + 64
      requires |shifted| <= 0x8000_0000
      requires h[..] == s && block[..64] == first
      modifies h, block
      ensures |first| == 64 && h[..] == Blocks(Blocks(s, first), FirstBlocks(shifted, blockNb))
      ensures block[..|shifted| - 64 * blockNb] == shifted[64 * blockNb..]
    {
      hide Blocks;
      assert FirstBlocks(block[..64], 1) == block[..64];
      Transf(h, block[..64], 1);
      Transf(h, shifted, blockNb);
      CopyToBlock(0, shifted[64 * blockNb..]);
    }

    /** The `memset`, the 0x80 marker and the length word of `sha256_final`. */
    method Pad(pmLen: nat, lenB: nat)
      requires block.Length == 128 && len + 9 <= pmLen <= 128
      modifies block
      ensures block[..pmLen] == old(block[..len]) + ([0x80] + Zeros(pmLen - len - 5) + Reverse(ToLittleEndian(lenB, 4)))
    {
      CopyToBlock(len, Zeros(pmLen - len));
      block[len] := 0x80;
      CopyToBlock(pmLen - 4, Reverse(ToLittleEndian(lenB, 4)));
    }

    /** `sha256_final`. */
    method Final() returns (digest: seq<byte>)
      requires Valid()
      modifies h, block
      ensures digest == Digest(Blocks(H0, consumed + StreamPadding(|consumed|)))
    {
      hide Blocks, H0, Digest, StreamPadding, Zeros, Reverse, ToLittleEndian;
      ghost var whole, tail, pad := consumed[..|consumed| - len], block[..len], StreamPadding(|consumed|);
      assert consumed + pad == whole + (tail + pad);
      CountersExact(|consumed|, len, totLen);
      var blockNb := 1 + if 64 - 9 < len % 64 then 1 else 0;
      var lenB := (totLen + len) % WORD * 8 % WORD;
      var pmLen := blockNb * 64;
      StreamPaddingShape(|consumed|, pmLen - len);
      Pad(pmLen, lenB);
      BlocksConcat(H0, whole, tail + pad);
      assert FirstBlocks(block[..pmLen], blockNb) == tail + pad;
      Transf(h, block[..pmLen], blockNb);
      digest := Digest(h[..]);
    }
  }

  lemma AbsorbCounters(whole: nat, newLen: nat, blockNb: nat)
    requires whole % 64 == 0 && blockNb == newLen / 64
    ensures var n, r := whole + 64 + newLen, newLen % 64;
      n % 64 == r && (n - r) % 64 == 0 && n - r == whole + 64 * (blockNb + 1)
    ensures (whole % WORD + 64 * (blockNb + 1)) % WORD == (whole + 64 * (blockNb + 1)) % WORD
  {
    WordAdd(whole, 64 * (blockNb + 1));
    Remainder64(whole / 64 + 1 + blockNb, newLen % 64);
    Remainder64(whole / 64 + 1 + blockNb, 0);
    hide WORD;
  }

  lemma Remainder64(q: nat, r: nat)
    requires r < 64
    ensures (64 * q + r) % 64 == r
  {}

  lemma CountersExact(consumed: nat, len: nat, totLen: nat)
    requires len == consumed % 64 && totLen == (consumed - len) % WORD
    ensures (totLen + len) % WORD * 8 % WORD == 8 * consumed % WORD
    ensures (consumed - len) % 64 == 0
  {
    WordAdd(consumed - len, len);
    LengthInBits(consumed);
    WholeBlocks(consumed);
  }

  lemma LengthInBits(len: nat)
    ensures len % WORD * 8 % WORD == 8 * len % WORD
  {
    WordWrap(len / WORD * 8, len % WORD * 8);
  }

  /** The stream padding fills up to a block boundary with the length in the last four bytes. */
  lemma StreamPaddingShape(len: nat, n: nat)
    requires n == (if 55 < len % 64 then 128 else 64) - len % 64
    ensures StreamPadding(len) == [0x80] + Zeros(n - 5) + Reverse(ToLittleEndian(8 * len % WORD, 4))
  {
    hide ToLittleEndian, Zeros, Pow;
    var v := 8 * len % WORD;
    PadCount(len, n);
    FourBytesEnough(v);
    LittleEndianZeros(v, 4, 4);
    ReversedZeros(ToLittleEndian(v, 4), 4);
    ZerosSplit(n - 9, 4);
  }

  lemma PadCount(len: nat, n: nat)
    requires n == (if 55 < len % 64 then 128 else 64) - len % 64
    ensures (55 - len) % 64 == n - 9
  {}

  lemma FourBytesEnough(v: nat)
    requires v < WORD
    ensures v < Pow(256, 4)
  {
    PowersOf256();
  }

  lemma ReversedZeros(s: seq<byte>, n: nat)
    ensures Reverse(s + Zeros(n)) == Zeros(n) + Reverse(s)
  {}

  lemma ZerosSplit(m: nat, n: nat)
    ensures Zeros(m + n) == Zeros(m) + Zeros(n)
  {}

  lemma {:induction false} LittleEndianZeros(v: nat, n: nat, m: nat)
    requires v < Pow(256, n)
    ensures ToLittleEndian(v, n + m) == ToLittleEndian(v, n) + Zeros(m)
  {
    if n > 0 {
      LittleEndianZeros(v / 256, n - 1, m);
    } else if m > 0 {
      LittleEndianZeros(0, 0, m - 1);
      assert Zeros(m) == [0] + Zeros(m - 1);
    }
  }

  // ----- against the standard -----

  /** The padding the code appends is the standard's exactly for messages shorter than 2^29 bytes;
      section 5.1.1 defines padding for lengths below 2^64 bits. */
  lemma StreamPaddingIsPadding(len: nat)
    requires 8 * len < 0x1_0000_0000_0000_0000
    ensures StreamPadding(len) == Padding(len) <==> len < 0x2000_0000
  {
    hide StreamPadding, Padding, ToLittleEndian, LittleEndian, Pow;
    if StreamPadding(len) == Padding(len) {
      SameLengthField(len);
      PowersOf256();
      LittleEndianRoundTrip(8 * len % WORD, 8);
      LittleEndianRoundTrip(8 * len, 8);
      LowWord(len);
    }
    if len < 0x2000_0000 {
      ShortSame(len);
    }
  }

  lemma LowWord(len: nat)
    ensures 8 * len % WORD < 0x1_0000_0000
  {}

  lemma ShortSame(len: nat)
    requires len < 0x2000_0000
    ensures StreamPadding(len) == Padding(len)
  {
    hide ToLittleEndian, Zeros;
    assert 8 * len % WORD == 8 * len;
  }

  lemma SameLengthField(len: nat)
    requires StreamPadding(len) == Padding(len)
    ensures ToLittleEndian(8 * len % WORD, 8) == ToLittleEndian(8 * len, 8)
  {
    hide ToLittleEndian, Zeros;
    var p, q := ToLittleEndian(8 * len % WORD, 8), ToLittleEndian(8 * len, 8);
    var n := 1 + (55 - len) % 64;
    assert StreamPadding(len)[n..] == Reverse(p) && Padding(len)[n..] == Reverse(q);
    assert p == Reverse(Reverse(p)) == Reverse(Reverse(q)) == q;
  }

  lemma StreamDigest(m: seq<byte>)
    requires |m| < 0x2000_0000
    ensures Digest(Blocks(H0, m + StreamPadding(|m|))) == Hash256(m)
  {
    hide Blocks, Digest, H0, StreamPadding, Padding;
    StreamPaddingIsPadding(|m|);
  }

  function Concat(pieces: seq<seq<byte>>): seq<byte> {
    if |pieces| == 0 then [] else Concat(pieces[..|pieces| - 1]) + pieces[|pieces| - 1]
  }

  lemma {:induction false} ConcatStep(pieces: seq<seq<byte>>, i: nat)
    requires i < |pieces|
    ensures Concat(pieces[..i + 1]) == Concat(pieces[..i]) + pieces[i]
    ensures |Concat(pieces[..i + 1])| <= |Concat(pieces)|
    decreases |pieces|
  {
    var n := |pieces| - 1;
    if i < n {
      ConcatStep(pieces[..n], i);
      assert pieces[..n][..i] == pieces[..i] && pieces[..n][..i + 1] == pieces[..i + 1];
    } else {
      assert pieces[..i + 1] == pieces;
    }
  }

  lemma NoPieces(pieces: seq<seq<byte>>)
    ensures Concat(pieces[..0]) == []
  {}

  /** However a message below 2^29 bytes is cut into updates, empty ones included, the digest is the
      standard's SHA-256 of the whole. */
  method HashPieces(pieces: seq<seq<byte>>) returns (digest: seq<byte>)
    requires |Concat(pieces)| < 0x2000_0000
    ensures digest == Hash256(Concat(pieces))
  {
    hide *;
    var ctx := new Context();
    assert Concat(pieces[..0]) == [] by {
      NoPieces(pieces);
    }
    for i := 0 to |pieces|
      invariant ctx.Valid() && fresh(ctx) && fresh(ctx.h) && fresh(ctx.block)
      invariant ctx.consumed == Concat(pieces[..i])
    {
      ConcatStep(pieces, i);
      ctx.Update(pieces[i]);
    }
    assert pieces[..|pieces|] == pieces;
    digest := ctx.Final();
    StreamDigest(Concat(pieces));
  }

  /** `sha256`, the one-call form. */
  method Sha256Of(message: seq<byte>) returns (digest: seq<byte>)
    requires |message| <= 0x8000_0000
    ensures |message| < 0x2000_0000 ==> digest == Hash256(message)
    ensures digest == Digest(Blocks(H0, message + StreamPadding(|message|)))
  {
    hide *;
    var ctx := new Context();
    ctx.Update(message);
    assert ctx.consumed == message;
    digest := ctx.Final();
    if |message| < 0x2000_0000 {
      StreamDigest(message);
    }
  }

  // ----- where the constants come from -----

  /** The first sixty-four primes. */
  const PA: seq<nat> := [2, 3, 5, 7, 11, 13, 17, 19, 23, 29, 31, 37, 41, 43, 47, 53]
  const PB: seq<nat> := [59, 61, 67, 71, 73, 79, 83, 89, 97, 101, 103, 107, 109, 113, 127, 131]
  const PC: seq<nat> := [137, 139, 149, 151, 157, 163, 167, 173, 179, 181, 191, 193, 197, 199, 211, 223]
  const PD: seq<nat> := [227, 229, 233, 239, 241, 251, 257, 263, 269, 271, 277, 281, 283, 293, 307, 311]
  const PRIMES: seq<nat> := PA + PB + PC + PD

  /** `x` is the first 32 bits of the fractional part of the `n`-th root of `p`. */
  ghost predicate IsFraction(x: word, p: nat, n: nat) {
    exists r: nat :: r % 0x1_0000_0000 == x as int && Pow(r, n) <= p * Pow(0x1_0000_0000, n) < Pow(r + 1, n)
  }

  lemma SquareRoot(p: nat, r: nat, x: word)
    requires r * r <= p * 0x1_0000_0000_0000_0000 < (r + 1) * (r + 1) && r % 0x1_0000_0000 == x as int
    ensures IsFraction(x, p, 2)
  {
    TwoOrThree(r);
    TwoOrThree(r + 1);
    TwoOrThree(0x1_0000_0000);
  }

  lemma CubeRoot(p: nat, r: nat, x: word)
    requires r * r * r <= p * 0x1_0000_0000_0000_0000_0000_0000 < (r + 1) * (r + 1) * (r + 1)
    requires r % 0x1_0000_0000 == x as int
    ensures IsFraction(x, p, 3)
  {
    TwoOrThree(r);
    TwoOrThree(r + 1);
    TwoOrThree(0x1_0000_0000);
  }

  lemma TwoOrThree(r: nat)
    ensures Pow(r, 2) == r * r && Pow(r, 3) == r * r * r
  {
    assert Pow(r, 1) == r;
    MulAssociative(r, r, r);
  }

  ghost predicate AreFractions(xs: seq<word>, ps: seq<nat>, n: nat) {
    |xs| == |ps| && forall i :: 0 <= i < |xs| ==> IsFraction(xs[i], ps[i], n)
  }

  lemma FractionsConcat(xs: seq<word>, ps: seq<nat>, ys: seq<word>, qs: seq<nat>, n: nat)
    requires AreFractions(xs, ps, n) && AreFractions(ys, qs, n)
    ensures AreFractions(xs + ys, ps + qs, n)
  {}

  /** Section 5.3.2: the initial state comes from the square roots of the first eight primes. */
  lemma InitialStateIsRoots()
    ensures AreFractions(H0, PRIMES[..8], 2)
  {
    hide IsFraction;
    SquareRoot(2, 0x16a09e667, 0x6a09e667);
    SquareRoot(3, 0x1bb67ae85, 0xbb67ae85);
    SquareRoot(5, 0x23c6ef372, 0x3c6ef372);
    SquareRoot(7, 0x2a54ff53a, 0xa54ff53a);
    SquareRoot(11, 0x3510e527f, 0x510e527f);
    SquareRoot(13, 0x39b05688c, 0x9b05688c);
    SquareRoot(17, 0x41f83d9ab, 0x1f83d9ab);
    SquareRoot(19, 0x45be0cd19, 0x5be0cd19);
    assert PRIMES[..8] == PA[..8];
  }

  lemma CubeRootsA()
    ensures AreFractions(KA, PA, 3)
  {
    hide IsFraction;
    CubeRoot(2, 0x1428a2f98, 0x428a2f98);
    CubeRoot(3, 0x171374491, 0x71374491);
    CubeRoot(5, 0x1b5c0fbcf, 0xb5c0fbcf);
    CubeRoot(7, 0x1e9b5dba5, 0xe9b5dba5);
    CubeRoot(11, 0x23956c25b, 0x3956c25b);
    CubeRoot(13, 0x259f111f1, 0x59f111f1);
    CubeRoot(17, 0x2923f82a4, 0x923f82a4);
    CubeRoot(19, 0x2ab1c5ed5, 0xab1c5ed5);
    CubeRoot(23, 0x2d807aa98, 0xd807aa98);
    CubeRoot(29, 0x312835b01, 0x12835b01);
    CubeRoot(31, 0x3243185be, 0x243185be);
    CubeRoot(37, 0x3550c7dc3, 0x550c7dc3);
    CubeRoot(41, 0x372be5d74, 0x72be5d74);
    CubeRoot(43, 0x380deb1fe, 0x80deb1fe);
    CubeRoot(47, 0x39bdc06a7, 0x9bdc06a7);
    CubeRoot(53, 0x3c19bf174, 0xc19bf174);
  }

  lemma CubeRootsB()
    ensures AreFractions(KB, PB, 3)
  {
    hide IsFraction;
    CubeRoot(59, 0x3e49b69c1, 0xe49b69c1);
    CubeRoot(61, 0x3efbe4786, 0xefbe4786);
    CubeRoot(67, 0x40fc19dc6, 0x0fc19dc6);
    CubeRoot(71, 0x4240ca1cc, 0x240ca1cc);
    CubeRoot(73, 0x42de92c6f, 0x2de92c6f);
    CubeRoot(79, 0x44a7484aa, 0x4a7484aa);
    CubeRoot(83, 0x45cb0a9dc, 0x5cb0a9dc);
    CubeRoot(89, 0x476f988da, 0x76f988da);
    CubeRoot(97, 0x4983e5152, 0x983e5152);
    CubeRoot(101, 0x4a831c66d, 0xa831c66d);
    CubeRoot(103, 0x4b00327c8, 0xb00327c8);
    CubeRoot(107, 0x4bf597fc7, 0xbf597fc7);
    CubeRoot(109, 0x4c6e00bf3, 0xc6e00bf3);
    CubeRoot(113, 0x4d5a79147, 0xd5a79147);
    CubeRoot(127, 0x506ca6351, 0x06ca6351);
    CubeRoot(131, 0x514292967, 0x14292967);
  }

  lemma CubeRootsC()
    ensures AreFractions(KC, PC, 3)
  {
    hide IsFraction;
    CubeRoot(137, 0x527b70a85, 0x27b70a85);
    CubeRoot(139, 0x52e1b2138, 0x2e1b2138);
    CubeRoot(149, 0x54d2c6dfc, 0x4d2c6dfc);
    CubeRoot(151, 0x553380d13, 0x53380d13);
    CubeRoot(157, 0x5650a7354, 0x650a7354);
    CubeRoot(163, 0x5766a0abb, 0x766a0abb);
    CubeRoot(167, 0x581c2c92e, 0x81c2c92e);
    CubeRoot(173, 0x592722c85, 0x92722c85);
    CubeRoot(179, 0x5a2bfe8a1, 0xa2bfe8a1);
    CubeRoot(181, 0x5a81a664b, 0xa81a664b);
    CubeRoot(191, 0x5c24b8b70, 0xc24b8b70);
    CubeRoot(193, 0x5c76c51a3, 0xc76c51a3);
    CubeRoot(197, 0x5d192e819, 0xd192e819);
    CubeRoot(199, 0x5d6990624, 0xd6990624);
    CubeRoot(211, 0x5f40e3585, 0xf40e3585);
    CubeRoot(223, 0x6106aa070, 0x106aa070);
  }

  lemma CubeRootsD()
    ensures AreFractions(KD, PD, 3)
  {
    hide IsFraction;
    CubeRoot(227, 0x619a4c116, 0x19a4c116);
    CubeRoot(229, 0x61e376c08, 0x1e376c08);
    CubeRoot(233, 0x62748774c, 0x2748774c);
    CubeRoot(239, 0x634b0bcb5, 0x34b0bcb5);
    CubeRoot(241, 0x6391c0cb3, 0x391c0cb3);
    CubeRoot(251, 0x64ed8aa4a, 0x4ed8aa4a);
    CubeRoot(257, 0x65b9cca4f, 0x5b9cca4f);
    CubeRoot(263, 0x6682e6ff3, 0x682e6ff3);
    CubeRoot(269, 0x6748f82ee, 0x748f82ee);
    CubeRoot(271, 0x678a5636f, 0x78a5636f);
    CubeRoot(277, 0x684c87814, 0x84c87814);
    CubeRoot(281, 0x68cc70208, 0x8cc70208);
    CubeRoot(283, 0x690befffa, 0x90befffa);
    CubeRoot(293, 0x6a4506ceb, 0xa4506ceb);
    CubeRoot(307, 0x6bef9a3f7, 0xbef9a3f7);
    CubeRoot(311, 0x6c67178f2, 0xc67178f2);
  }

  /** Section 4.2.2: the round constants come from the cube roots of the first sixty-four primes. */
  lemma ConstantsAreRoots()
    ensures AreFractions(K, PRIMES, 3)
  {
    hide AreFractions;
    CubeRootsA();
    CubeRootsB();
    CubeRootsC();
    CubeRootsD();
    FractionsConcat(KA, PA, KB, PB, 3);
    FractionsConcat(KA + KB, PA + PB, KC, PC, 3);
    FractionsConcat(KA + KB + KC, PA + PB + PC, KD, PD, 3);
  }

  // ----- the functions, by their values -----

  /** Section 4.1.2: choice and majority on all eight combinations of bits, and where the sums move the
      highest and the lowest bit to. */
  lemma FunctionTables()
    ensures Ch(0xf0f0f0f0, 0xcccccccc, 0xaaaaaaaa) == 0xcacacaca
    ensures Maj(0xf0f0f0f0, 0xcccccccc, 0xaaaaaaaa) == 0xe8e8e8e8
    ensures F1(1) == 0x40080400 && F2(1) == 0x04200080 && F3(1) == 0x02004000 && F4(1) == 0x0000a000
    ensures F3(0x80000000) == 0x11002000 && F4(0x80000000) == 0x00205000
  {}

  /** Words are packed and unpacked most significant byte first. */
  lemma WordsBigEndian()
    ensures Pack32([0x12, 0x34, 0x56, 0x78]) == 0x12345678
    ensures Unpack32(0x12345678) == [0x12, 0x34, 0x56, 0x78]
  {}

  /** The digest is the words of the state in order. */
  lemma DigestWords(s: State, i: nat)
    requires i < 8
    ensures Digest(s)[4 * i..4 * i + 4] == Unpack32(s[i])
  {
    hide Unpack32;
  }

  /** "abc" with its padding, the block of the first example in appendix B.1. */
  const ABC: Block := [97, 98, 99, 128] + Zeros(59) + [24]

  lemma AbcFour(t: nat)
    requires t < 16
    ensures ABC[4 * t..4 * t + 4] == if t == 0 then [97, 98, 99, 128] else if t == 15 then [0, 0, 0, 24] else [0, 0, 0, 0]
  {}

  lemma PackedText()
    ensures Pack32([97, 98, 99, 128]) == 0x61626380
  {
    assert 97 as word == 0x61 && 98 as word == 0x62 && 99 as word == 0x63 && 128 as word == 0x80;
  }

  lemma PackedLength()
    ensures Pack32([0, 0, 0, 24]) == 24 && Pack32([0, 0, 0, 0]) == 0
  {}

  lemma AbcFirst()
    ensures forall t :: 0 <= t < 16 ==> W(ABC, t) == if t == 0 then 0x61626380 else if t == 15 then 24 else 0
  {
    hide Pack32, ABC;
    PackedText();
    PackedLength();
    forall t | 0 <= t < 16
      ensures W(ABC, t) == if t == 0 then 0x61626380 else if t == 15 then 24 else 0
    {
      AbcFour(t);
    }
  }

  lemma NextWord(t: nat, w2: word, w7: word, w15: word, w16: word)
    requires 16 <= t < 64
    requires W(ABC, t - 2) == w2 && W(ABC, t - 7) == w7 && W(ABC, t - 15) == w15 && W(ABC, t - 16) == w16
    ensures W(ABC, t) == Expand(w2, w7, w15, w16)
  {
    hide Expand;
  }

  /** The schedule of the example, from its own first words. */
  lemma AbcSchedule()
    ensures W(ABC, 16) == 0x61626380 && W(ABC, 17) == 0x000f0000 && W(ABC, 18) == 0x7da86405 && W(ABC, 19) == 0x600003c6
    ensures W(ABC, 20) == 0x3e9d7b78 && W(ABC, 21) == 0x0183fc00 && W(ABC, 22) == 0x12dcbfdb && W(ABC, 23) == 0xe2e2c38e
  {
    hide W, ABC;
    AbcFirst();
    NextWord(16, 0, 0, 0, 0x61626380);
    NextWord(17, 0x00000018, 0, 0, 0);
    NextWord(18, 0x61626380, 0, 0, 0);
    NextWord(19, 0x000f0000, 0, 0, 0);
    NextWord(20, 0x7da86405, 0, 0, 0);
    NextWord(21, 0x600003c6, 0, 0, 0);
    NextWord(22, 0x3e9d7b78, 0x00000018, 0, 0);
    NextWord(23, 0x0183fc00, 0x61626380, 0, 0);
  }

  lemma FirstConstants()
    ensures K[0] == 0x428a2f98 && K[1] == 0x71374491 && K[2] == 0xb5c0fbcf
  {
    assert forall i :: 0 <= i < 3 ==> K[i] == KA[i];
  }

  lemma AbcValues0()
    ensures F2(0x510e527f) == 0x3587272b && Ch(0x510e527f, 0x9b05688c, 0x1f83d9ab) == 0x1f85c98c
    ensures F1(0x6a09e667) == 0xce20b47e && Maj(0x6a09e667, 0xbb67ae85, 0x3c6ef372) == 0x3a6fe667
  {}

  lemma AbcSums0()
    ensures T1(0x5be0cd19, 0x510e527f, 0x9b05688c, 0x1f83d9ab, 0x428a2f98, 0x61626380) == 0x54da50e8
    ensures T2(0x6a09e667, 0xbb67ae85, 0x3c6ef372) == 0x08909ae5
    ensures Add(0x54da50e8, 0x08909ae5) == 0x5d6aebcd && Add(0xa54ff53a, 0x54da50e8) == 0xfa2a4622
  {
    hide F1, F2, Ch, Maj;
    AbcValues0();
  }

  lemma AbcValues1()
    ensures F2(0xfa2a4622) == 0x5a94fd2d && Ch(0xfa2a4622, 0x510e527f, 0x9b05688c) == 0x510f6aae
    ensures F1(0x5d6aebcd) == 0xa29f64d1 && Maj(0x5d6aebcd, 0x6a09e667, 0xbb67ae85) == 0x7b6beec5
  {}

  lemma AbcSums1()
    ensures T1(0x1f83d9ab, 0xfa2a4622, 0x510e527f, 0x9b05688c, 0x71374491, 0) == 0x3c5f8617
    ensures T2(0x5d6aebcd, 0x6a09e667, 0xbb67ae85) == 0x1e0b5396
    ensures Add(0x3c5f8617, 0x1e0b5396) == 0x5a6ad9ad && Add(0x3c6ef372, 0x3c5f8617) == 0x78ce7989
  {
    hide F1, F2, Ch, Maj;
    AbcValues1();
  }

  lemma AbcValues2()
    ensures F2(0x78ce7989) == 0x73f0e495 && Ch(0x78ce7989, 0xfa2a4622, 0x510e527f) == 0x790a4276
    ensures F1(0x5a6ad9ad) == 0x3096d054 && Maj(0x5a6ad9ad, 0x5d6aebcd, 0x6a09e667) == 0x5a6aebed
  {}

  lemma AbcSums2()
    ensures T1(0x9b05688c, 0x78ce7989, 0xfa2a4622, 0x510e527f, 0xb5c0fbcf, 0) == 0x3dc18b66
    ensures T2(0x5a6ad9ad, 0x5d6aebcd, 0x6a09e667) == 0x8b01bc41
    ensures Add(0x3dc18b66, 0x8b01bc41) == 0xc8c347a7 && Add(0xbb67ae85, 0x3dc18b66) == 0xf92939eb
  {
    hide F1, F2, Ch, Maj;
    AbcValues2();
  }

  lemma NextVars(t: nat, k: word, w: word, v: Vars, t1: word, t2: word)
    requires t < 64 && K[t] == k && W(ABC, t) == w && Rounds(H0, ABC, t) == v
    requires T1(v.h, v.e, v.f, v.g, k, w) == t1 && T2(v.a, v.b, v.c) == t2
    ensures Rounds(H0, ABC, t + 1) == Vars(Add(t1, t2), v.a, v.b, v.c, Add(v.d, t1), v.e, v.f, v.g)
  {
    hide T1, T2, Add, K;
    RoundsNext(H0, ABC, t);
  }

  lemma AbcStart()
    ensures Rounds(H0, ABC, 0) == Vars(0x6a09e667, 0xbb67ae85, 0x3c6ef372, 0xa54ff53a, 0x510e527f, 0x9b05688c, 0x1f83d9ab, 0x5be0cd19)
  {}

  /** The working variables of the example after three rounds. */
  lemma AbcRounds()
    ensures Rounds(H0, ABC, 3) == Vars(0xc8c347a7, 0x5a6ad9ad, 0x5d6aebcd, 0x6a09e667, 0xf92939eb, 0x78ce7989, 0xfa2a4622, 0x510e527f)
  {
    hide Rounds, W, ABC, K, T1, T2, Add;
    AbcFirst();
    FirstConstants();
    AbcStart();
    AbcSums0();
    NextVars(0, 0x428a2f98, 0x61626380, Vars(0x6a09e667, 0xbb67ae85, 0x3c6ef372, 0xa54ff53a, 0x510e527f, 0x9b05688c, 0x1f83d9ab, 0x5be0cd19), 0x54da50e8, 0x08909ae5);
    AbcSums1();
    NextVars(1, 0x71374491, 0, Vars(0x5d6aebcd, 0x6a09e667, 0xbb67ae85, 0x3c6ef372, 0xfa2a4622, 0x510e527f, 0x9b05688c, 0x1f83d9ab), 0x3c5f8617, 0x1e0b5396);
    AbcSums2();
    NextVars(2, 0xb5c0fbcf, 0, Vars(0x5a6ad9ad, 0x5d6aebcd, 0x6a09e667, 0xbb67ae85, 0x78ce7989, 0xfa2a4622, 0x510e527f, 0x9b05688c), 0x3dc18b66, 0x8b01bc41);
  }

  /** The sum at the end of the example. */
  lemma AbcSum()
    ensures SumInto(H0, Vars(0x506e3058, 0xd39a2165, 0x04d24d6c, 0xb85e2ce9, 0x5ef50f24, 0xfb121210, 0x948d25b6, 0x961f4894)) ==
      [0xba7816bf, 0x8f01cfea, 0x414140de, 0x5dae2223, 0xb00361a3, 0x96177a9c, 0xb410ff61, 0xf20015ad]
  {}

  /** Section 5.1.1, with the length as a number of 64 bits: a one bit, zero bits, and the length in bits,
      most significant byte first, to the next multiple of 64 bytes that has room for them. */
  lemma PaddingIsStandard(len: nat)
    requires len < 0x2000_0000_0000_0000
    ensures var p := Padding(len);
      && 9 <= |p| < 73 && (len + |p|) % 64 == 0
      && p[0] == 128 && (forall i :: 1 <= i < |p| - 8 ==> p[i] == 0)
      && BigEndian(p[|p| - 8..]) == 8 * len
  {
    hide ToLittleEndian, BigEndian, Reverse;
    LengthField(len);
    var p, r := Padding(len), Reverse(ToLittleEndian(8 * len, 8));
    assert p[|p| - 8..] == r;
  }

  lemma LengthField(len: nat)
    requires len < 0x2000_0000_0000_0000
    ensures BigEndian(Reverse(ToLittleEndian(8 * len, 8))) == 8 * len
  {
    hide ToLittleEndian, BigEndian, LittleEndian, Pow;
    var n := ToLittleEndian(8 * len, 8);
    BigIsReversed(Reverse(n));
    assert Reverse(Reverse(n)) == n;
    PowersOf256();
    LittleEndianRoundTrip(8 * len, 8);
  }
}
