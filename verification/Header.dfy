/** The block header a share is hashed under. */
module Header {
  import opened Bytes
  import opened Bitwise
  import Hex

  // ----- the word and byte swaps of libckpool.h -----

  /** The words of four bytes in the opposite order. */
  function SwapWords(s: seq<byte>): (r: seq<byte>)
    requires |s| % 4 == 0
    ensures |r| == |s|
  {
    seq(|s|, i requires 0 <= i < |s| => s[|s| - 4 - i / 4 * 4 + i % 4])
  }

  /** The bytes of every word of four in the opposite order. */
  function FlipWords(s: seq<byte>): (r: seq<byte>)
    requires |s| % 4 == 0
    ensures |r| == |s|
  {
    seq(|s|, i requires 0 <= i < |s| => s[i / 4 * 4 + 3 - i % 4])
  }

  /** Word order and byte order reversed is the whole reversed. */
  lemma SwapFlipReverses(s: seq<byte>)
    requires |s| % 4 == 0
    ensures FlipWords(SwapWords(s)) == Reverse(s) && SwapWords(FlipWords(s)) == Reverse(s)
  {
    forall i | 0 <= i < |s|
      ensures FlipWords(SwapWords(s))[i] == s[|s| - 1 - i] && SwapWords(FlipWords(s))[i] == s[|s| - 1 - i]
    {
      WordIndex(i / 4, 3 - i % 4);
      var j := |s| - 4 - i / 4 * 4 + i % 4;
      assert j == 4 * (|s| / 4 - 1 - i / 4) + i % 4;
      WordIndex(|s| / 4 - 1 - i / 4, i % 4);
    }
  }

  lemma WordIndex(w: nat, b: nat)
    requires b < 4
    ensures (4 * w + b) / 4 == w && (4 * w + b) % 4 == b
  {}

  /** Flipping twice changes nothing. */
  lemma FlipTwice(s: seq<byte>)
    requires |s| % 4 == 0
    ensures FlipWords(FlipWords(s)) == s
  {
    forall i | 0 <= i < |s|
      ensures FlipWords(FlipWords(s))[i] == s[i]
    {
      WordIndex(i / 4, 3 - i % 4);
    }
  }

  lemma SwapTwice(s: seq<byte>)
    requires |s| % 4 == 0
    ensures SwapWords(SwapWords(s)) == s
  {
    forall i | 0 <= i < |s|
      ensures SwapWords(SwapWords(s))[i] == s[i]
    {
      WordIndex(|s| / 4 - 1 - i / 4, i % 4);
    }
  }

  lemma FlipConcat(a: seq<byte>, b: seq<byte>)
    requires |a| % 4 == 0 && |b| % 4 == 0
    ensures FlipWords(a + b) == FlipWords(a) + FlipWords(b)
  {
    hide FlipWords;
    forall i | 0 <= i < |a| + |b|
      ensures FlipWords(a + b)[i] == (FlipWords(a) + FlipWords(b))[i]
    {
      FlipAt(a + b, i);
      if i < |a| {
        FlipAt(a, i);
      } else {
        FlipAt(b, i - |a|);
        WordShift(i, |a| / 4);
      }
    }
  }

  lemma FlipAt(s: seq<byte>, i: nat)
    requires |s| % 4 == 0 && i < |s|
    ensures i / 4 * 4 + 3 - i % 4 < |s| && FlipWords(s)[i] == s[i / 4 * 4 + 3 - i % 4]
  {}

  lemma WordShift(i: nat, k: nat)
    requires i >= 4 * k
    ensures (i - 4 * k) / 4 == i / 4 - k && (i - 4 * k) % 4 == i % 4
  {}

  lemma FlipOneWord(w: seq<byte>)
    requires |w| == 4
    ensures FlipWords(w) == Reverse(w)
  {}

  /** Word `i` of a buffer is set. */
  method SetWord(dest: array<byte>, i: nat, w: seq<byte>)
    requires |w| == 4 && 4 * i + 4 <= dest.Length
    modifies dest
    ensures dest[..4 * i + 4] == old(dest[..4 * i]) + w
  {
    dest[4 * i], dest[4 * i + 1], dest[4 * i + 2], dest[4 * i + 3] := w[0], w[1], w[2], w[3];
  }

  /** Four words from word `i` on. */
  method SetFour(dest: array<byte>, i: nat, a: seq<byte>, b: seq<byte>, c: seq<byte>, d: seq<byte>)
    requires |a| == |b| == |c| == |d| == 4 && 4 * i + 16 <= dest.Length
    modifies dest
    ensures dest[..4 * i + 16] == old(dest[..4 * i]) + (a + b + c + d)
  {
    SetWord(dest, i, a);
    SetWord(dest, i + 1, b);
    SetWord(dest, i + 2, c);
    SetWord(dest, i + 3, d);
    Associate(old(dest[..4 * i]), a, b, c, d);
  }

  lemma Associate(p: seq<byte>, a: seq<byte>, b: seq<byte>, c: seq<byte>, d: seq<byte>)
    ensures p + a + b + c + d == p + (a + b + c + d)
  {}

  /** `swap_256`. */
  method Swap256(dest: array<byte>, src: array<byte>)
    requires dest != src && dest.Length == src.Length == 32
    modifies dest
    ensures dest[..] == SwapWords(src[..])
  {
    hide SwapWords;
    EightWords(src[..]);
    SetFour(dest, 0, src[28..32], src[24..28], src[20..24], src[16..20]);
    SetFour(dest, 4, src[12..16], src[8..12], src[4..8], src[0..4]);
    assert dest[..32] == dest[..];
  }

  /** `bswap_256`: as `swap_256`, with the bytes of each word turned round. */
  method Bswap256(dest: array<byte>, src: array<byte>)
    requires dest != src && dest.Length == src.Length == 32
    modifies dest
    ensures dest[..] == Reverse(src[..])
  {
    hide SwapWords, FlipWords, Reverse;
    EightReversed(src[..]);
    SetFour(dest, 0, Reverse(src[28..32]), Reverse(src[24..28]), Reverse(src[20..24]), Reverse(src[16..20]));
    SetFour(dest, 4, Reverse(src[12..16]), Reverse(src[8..12]), Reverse(src[4..8]), Reverse(src[0..4]));
    assert dest[..32] == dest[..];
  }

  lemma EightReversed(s: seq<byte>)
    requires |s| == 32
    ensures Reverse(s) ==
      (Reverse(s[28..32]) + Reverse(s[24..28]) + Reverse(s[20..24]) + Reverse(s[16..20])) +
      (Reverse(s[12..16]) + Reverse(s[8..12]) + Reverse(s[4..8]) + Reverse(s[0..4]))
  {
    hide SwapWords, FlipWords, Reverse;
    EightWords(FlipWords(s));
    EightFlips(s);
    SwapFlipReverses(s);
  }

  lemma EightWords(s: seq<byte>)
    requires |s| == 32
    ensures SwapWords(s) ==
      (s[28..32] + s[24..28] + s[20..24] + s[16..20]) + (s[12..16] + s[8..12] + s[4..8] + s[0..4])
  {}

  lemma EightFlips(s: seq<byte>)
    requires |s| == 32
    ensures forall w :: 0 <= w < 8 ==> FlipWords(s)[4 * w..4 * w + 4] == Reverse(s[4 * w..4 * w + 4])
  {}

  /** `flip_32` for eight words and `flip_80` for twenty. */
  method Flip(dest: array<byte>, src: array<byte>, words: nat)
    requires dest != src && dest.Length == src.Length == 4 * words
    modifies dest
    ensures dest[..] == FlipWords(src[..])
  {
    for i := 0 to words
      invariant dest[..4 * i] == FlipWords(src[..4 * i])
    {
      SetWord(dest, i, Reverse(src[4 * i..4 * i + 4]));
      FlipConcat(src[..4 * i], src[4 * i..4 * i + 4]);
      FlipOneWord(src[4 * i..4 * i + 4]);
      assert src[..4 * (i + 1)] == src[..4 * i] + src[4 * i..4 * i + 4];
    }
    assert src[..4 * words] == src[..] && dest[..4 * words] == dest[..];
  }

  // ----- version bits -----

  /** The check of `parse_submit` on a client's version bits. */
  function MaskAllowed(poolMask: nat, mask: nat): bool {
    !(mask != 0 && AndNot(mask, poolMask) != 0)
  }

  /** Bit `k` of the version is as it was, or one the pool lets clients change. */
  predicate KeptOrFree(poolMask: nat, mask: nat, version: nat, k: nat) {
    Bit(Or(version, mask), k) == Bit(version, k) || Bit(poolMask, k)
  }

  /** A mask passes exactly when no bit of any version can be changed by it outside the pool's mask. */
  lemma MaskOnlyWhereAllowed(poolMask: nat, mask: nat)
    ensures MaskAllowed(poolMask, mask) <==> forall version: nat, k: nat :: KeptOrFree(poolMask, mask, version, k)
  {
    hide Or, Bit, AndNot;
    AndNotZero(mask, poolMask);
    ZeroMask(poolMask);
    if MaskAllowed(poolMask, mask) {
      forall version: nat, k: nat
        ensures KeptOrFree(poolMask, mask, version, k)
      {
        OrBits(version, mask, k);
        NoBits(k);
      }
    } else {
      var k: nat :| Bit(mask, k) && !Bit(poolMask, k);
      OrBits(0, mask, k);
      NoBits(k);
      assert !KeptOrFree(poolMask, mask, 0, k);
    }
  }

  lemma ZeroMask(poolMask: nat)
    ensures AndNot(0, poolMask) == 0
  {}

  /** Or-ing numbers or-s their bytes. */
  function OrBytes(a: seq<byte>, b: seq<byte>): (r: seq<byte>)
    requires |a| == |b|
    ensures |r| == |a|
  {
    seq(|a|, i requires 0 <= i < |a| => OrByte(a[i], b[i]))
  }

  function OrByte(a: byte, b: byte): byte {
    ByteOr(a, b);
    Or(a, b)
  }

  lemma ByteOr(a: byte, b: byte)
    ensures Or(a, b) < 256
  {
    OrParts(0, 0, a, b, 8);
  }

  lemma {:induction false} OrLittleEndian(a: nat, b: nat, n: nat)
    ensures ToLittleEndian(Or(a, b), n) == OrBytes(ToLittleEndian(a, n), ToLittleEndian(b, n))
  {
    hide Or;
    if n > 0 {
      OrHighLow(a, b);
      var x, y := ToLittleEndian(a / 256, n - 1), ToLittleEndian(b / 256, n - 1);
      OrLittleEndian(a / 256, b / 256, n - 1);
      assert OrBytes([(a % 256) as byte] + x, [(b % 256) as byte] + y) == [OrByte(a % 256, b % 256)] + OrBytes(x, y);
    }
  }

  lemma OrHighLow(a: nat, b: nat)
    ensures Or(a, b) / 256 == Or(a / 256, b / 256) && Or(a, b) % 256 == Or(a % 256, b % 256)
  {
    hide Or;
    assert Pow(2, 8) == 256;
    OrParts(a / 256, b / 256, a % 256, b % 256, 8);
    var h, l := Or(a / 256, b / 256), Or(a % 256, b % 256);
    assert Or(a, b) == h * 256 + l;
  }

  // ----- the template of stratifier.c and what `submission_diff` puts into it -----

  /** A 32-bit number most significant byte first, as `htobe32` stores it and "%08x" writes it. */
  function BigEndian4(v: nat): (s: seq<byte>)
    ensures |s| == 4
  {
    Reverse(ToLittleEndian(v, 4))
  }

  /** The 80 bytes a block hash is taken of: version, previous block hash, Merkle root, time, target and
      nonce, numbers least significant byte first and hashes in the order they are computed in.
      `prevhash` is the previous hash as it is displayed. */
  function Canonical(version: nat, prevhash: Hash, root: Hash, ntime: nat, nbits: seq<byte>, nonce: seq<byte>): (h: seq<byte>)
    requires |nbits| == 4 && |nonce| == 4
    ensures |h| == 80
  {
    ToLittleEndian(version, 4) + Reverse(prevhash) + root + ToLittleEndian(ntime, 4) + Reverse(nbits) + Reverse(nonce)
  }

  /** The six fields of a header put together. */
  function Fields(version: seq<byte>, prevhash: seq<byte>, root: seq<byte>, ntime: seq<byte>, nbits: seq<byte>, nonce: seq<byte>): seq<byte> {
    version + prevhash + root + ntime + nbits + nonce
  }

  const ZERO4: seq<byte> := [0, 0, 0, 0]

  /** What the template of a job holds: its version, the previous hash with its words in the opposite
      order, an empty Merkle root, its time and target, and an empty nonce. */
  ghost predicate IsTemplate(headerbin: seq<byte>, version: nat, prevhash: Hash, ntime: nat, nbits: seq<byte>) {
    && |headerbin| == 112 && |nbits| == 4
    && headerbin[..80] == Fields(BigEndian4(version), SwapWords(prevhash), seq(32, _ => 0), BigEndian4(ntime), nbits, ZERO4)
  }

  /** The previous hash of a template as `gbt` turns it from the text bitcoind displays. */
  method GbtPrevhash(previousblockhash: string) returns (prevhash: string)
    requires Hex.IsHexOf(previousblockhash, 32)
    ensures Hex.IsHexOf(prevhash, 32) && Hex.HexDecode(prevhash) == SwapWords(Hex.HexDecode(previousblockhash))
  {
    hide SwapWords;
    var _, bytes := Hex.Hex2Bin(previousblockhash, 32);
    var hashSwap, tmp := new byte[32](i requires 0 <= i < 32 => bytes[i]), new byte[32](_ => 0);
    assert hashSwap[..] == bytes;
    Swap256(tmp, hashSwap);
    prevhash := Hex.Bin2Hex(tmp[..]);
  }

  /** On a new block `add_base` swaps the template's hash again: what it keeps to compare with bitcoind's
      best block is the hash bitcoind displays. */
  method LastSwapHash(previousblockhash: string) returns (lasthash: string, lastswaphash: string)
    requires Hex.IsHexOf(previousblockhash, 32)
    ensures Hex.IsHexOf(lasthash, 32) && Hex.HexDecode(lasthash) == SwapWords(Hex.HexDecode(previousblockhash))
    ensures Hex.IsHexOf(lastswaphash, 32) && Hex.HexDecode(lastswaphash) == Hex.HexDecode(previousblockhash)
  {
    hide SwapWords, Hex.HexDecode, Hex.AllHex;
    lasthash := GbtPrevhash(previousblockhash);
    lastswaphash := GbtPrevhash(lasthash);
    SwapTwice(Hex.HexDecode(previousblockhash));
  }

  const EMPTY_ROOT: string := seq(64, _ => '0')
  const WORKPADDING: string := "00000080" + seq(80, _ => '0') + "80020000"

  /** The end of `generate_coinbase`: the template is decoded from one text cut off at 112 bytes. */
  method GenerateHeader(bbversion: string, prevhash: string, ntime: string, nbit: string) returns (headerbin: seq<byte>)
    requires Hex.IsHexOf(bbversion, 4) && Hex.IsHexOf(prevhash, 32) && Hex.IsHexOf(ntime, 4) && Hex.IsHexOf(nbit, 4)
    ensures |headerbin| == 112
    ensures headerbin[..80] == Fields(Hex.HexDecode(bbversion), Hex.HexDecode(prevhash), seq(32, _ => 0),
                                      Hex.HexDecode(ntime), Hex.HexDecode(nbit), ZERO4)
  {
    hide Hex.HexDecode, Hex.AllHex;
    ZeroTexts();
    var fields := bbversion + prevhash + EMPTY_ROOT + ntime + nbit + "00000000";
    FieldsDecode(bbversion, prevhash, EMPTY_ROOT, ntime, nbit, "00000000");
    var header := (fields + WORKPADDING)[..224];
    assert header == fields + WORKPADDING[..64];
    Hex.DecodeConcat(fields, WORKPADDING[..64]);
    var ok, out := Hex.Hex2Bin(header, 112);
    headerbin := out;
    assert headerbin[..80] == Hex.HexDecode(fields);
  }

  /** From block template to header template: "%08x" writes version and time as the hex of their bytes,
      and the target's text is taken as it is. */
  method MakeTemplate(version: nat, previousblockhash: string, curtime: nat, bits: string) returns (headerbin: seq<byte>)
    requires Hex.IsHexOf(previousblockhash, 32) && Hex.IsHexOf(bits, 4)
    ensures |Hex.HexDecode(previousblockhash)| == 32
    ensures IsTemplate(headerbin, version, Hex.HexDecode(previousblockhash), curtime, Hex.HexDecode(bits))
  {
    hide Hex.HexDecode, Hex.AllHex, SwapWords;
    var prevhash := GbtPrevhash(previousblockhash);
    var bbversion := Hex.Bin2Hex(BigEndian4(version));
    var ntime := Hex.Bin2Hex(BigEndian4(curtime));
    headerbin := GenerateHeader(bbversion, prevhash, ntime, bits);
  }

  lemma FieldsDecode(a: string, b: string, c: string, d: string, e: string, f: string)
    requires Hex.IsHexOf(a, 4) && Hex.IsHexOf(b, 32) && Hex.IsHexOf(c, 32) && Hex.IsHexOf(d, 4) && Hex.IsHexOf(e, 4) && Hex.IsHexOf(f, 4)
    ensures Hex.IsHexOf(a + b + c + d + e + f, 80)
    ensures Hex.HexDecode(a + b + c + d + e + f) ==
      Fields(Hex.HexDecode(a), Hex.HexDecode(b), Hex.HexDecode(c), Hex.HexDecode(d), Hex.HexDecode(e), Hex.HexDecode(f))
  {
    hide Hex.HexDecode, Hex.AllHex;
    Hex.DecodeConcat(a, b);
    Hex.DecodeConcat(a + b, c);
    Hex.DecodeConcat(a + b + c, d);
    Hex.DecodeConcat(a + b + c + d, e);
    Hex.DecodeConcat(a + b + c + d + e, f);
  }

  lemma ZeroTexts()
    ensures Hex.IsHexOf(EMPTY_ROOT, 32) && Hex.HexDecode(EMPTY_ROOT) == seq(32, _ => 0)
    ensures Hex.IsHexOf("00000000", 4) && Hex.HexDecode("00000000") == ZERO4
    ensures |WORKPADDING| == 96 && Hex.AllHex(WORKPADDING[..64])
  {
    assert WORKPADDING[..64] == "00000080" + seq(56, _ => '0');
    assert "00000080"[6] == '8' && "00000080"[7] == '0';
  }

  /** The nonce a submission means: its first four bytes, whatever follows them. */
  ghost function NonceBytes(nonce: string): (b: seq<byte>)
    requires |nonce| >= 8 && Hex.AllHex(nonce[..8])
    ensures |b| == 4
  {
    Hex.HexDecode(nonce[..8])
  }

  /** The header `submission_diff` hashes for a submission: the folded root, the version bits, the
      nonce and the time go into the template, and every word is turned round. */
  method SubmittedHeader(headerbin: seq<byte>, root: Hash, ntime32: nat, versionMask: nat, nonce: string,
                         ghost version: nat, ghost prevhash: Hash, ghost ntime: nat, ghost nbits: seq<byte>)
    returns (swap: seq<byte>)
    requires |nbits| == 4 && |nonce| >= 8 && Hex.AllHex(nonce[..8])
    requires IsTemplate(headerbin, version, prevhash, ntime, nbits)
    ensures swap == Canonical(Or(version, versionMask), prevhash, root, ntime32, nbits, NonceBytes(nonce))
    ensures forall v :: Hex.Numeral(nonce[..8], v) ==> swap[76..80] == ToLittleEndian(v, 4)
  {
    hide Hex.HexDecode, Hex.AllHex, Canonical, SwapWords, FlipWords, Reverse, OrBytes, ToLittleEndian;
    var merkleSha, merkleRoot := new byte[32](i requires 0 <= i < 32 => root[i]), new byte[32](_ => 0);
    assert merkleSha[..] == root;
    Flip(merkleRoot, merkleSha, 8);
    var mask: seq<byte> := if versionMask != 0 then BigEndian4(versionMask) else ZERO4;
    var bytes := Nonce(nonce);
    TemplateParts(headerbin, version, prevhash, ntime, nbits);
    var data := Insert(headerbin, merkleRoot[..], mask, bytes, BigEndian4(ntime32), BigEndian4(version), SwapWords(prevhash), nbits);
    var turned := new byte[80](_ => 0);
    Flip(turned, data, 20);
    swap := turned[..];
    CanonicalTurned(version, versionMask, mask, prevhash, root, ntime32, nbits, bytes);
    CanonicalFields(Or(version, versionMask), prevhash, root, ntime32, nbits, bytes);
    forall v | Hex.Numeral(nonce[..8], v)
      ensures swap[76..80] == ToLittleEndian(v, 4)
    {
      NumeralTurned(nonce[..8], v);
    }
  }

  /** The fields of a header, by their places. */
  lemma CanonicalFields(version: nat, prevhash: Hash, root: Hash, ntime: nat, nbits: seq<byte>, nonce: seq<byte>)
    requires |nbits| == 4 && |nonce| == 4
    ensures var h := Canonical(version, prevhash, root, ntime, nbits, nonce);
      && h[..4] == ToLittleEndian(version, 4) && h[4..36] == Reverse(prevhash) && h[36..68] == root
      && h[68..72] == ToLittleEndian(ntime, 4) && h[72..76] == Reverse(nbits) && h[76..80] == Reverse(nonce)
  {
    hide ToLittleEndian, Reverse;
  }

  /** The bytes a numeral of eight digits decodes to, turned round, are those of its value. */
  lemma NumeralTurned(s: string, v: nat)
    requires |s| == 8 && Hex.Numeral(s, v)
    ensures Hex.AllHex(s) && Reverse(Hex.HexDecode(s)) == ToLittleEndian(v, 4)
  {
    hide Hex.AllHex, Hex.HexDecode, Hex.Numeral;
    Hex.DecodedNumeral(s, v);
    BigIsReversed(Hex.HexDecode(s));
    StoredAgain(Reverse(Hex.HexDecode(s)));
  }

  /** From a block template and a submission to the header that is hashed: little-endian version, time,
      target and nonce, whose texts are hexadecimal numerals, and the two hashes as they are computed,
      of which the previous one is displayed backwards. */
  method HashedHeader(version: nat, previousblockhash: string, curtime: nat, bits: string, root: Hash, ntime32: nat, versionMask: nat,
                      nonce: string, ghost prev: Hash, ghost target: nat, ghost v: nat)
    returns (swap: seq<byte>)
    requires Hex.IsHexOf(previousblockhash, 32) && Hex.HexDecode(previousblockhash) == Reverse(prev)
    requires |bits| == 8 && Hex.Numeral(bits, target)
    requires |nonce| >= 8 && Hex.Numeral(nonce[..8], v)
    ensures swap == ToLittleEndian(Or(version, versionMask), 4) + prev + root + ToLittleEndian(ntime32, 4)
                    + ToLittleEndian(target, 4) + ToLittleEndian(v, 4)
  {
    hide Hex.AllHex, Hex.HexDecode, Hex.Numeral, IsTemplate, ToLittleEndian, Or, NonceBytes;
    NumeralTurned(bits, target);
    NumeralTurned(nonce[..8], v);
    var headerbin := MakeTemplate(version, previousblockhash, curtime, bits);
    swap := SubmittedHeader(headerbin, root, ntime32, versionMask, nonce, version, Hex.HexDecode(previousblockhash), curtime, Hex.HexDecode(bits));
    ReverseTwice(prev);
  }

  lemma TemplateParts(headerbin: seq<byte>, version: nat, prevhash: Hash, ntime: nat, nbits: seq<byte>)
    requires IsTemplate(headerbin, version, prevhash, ntime, nbits)
    ensures headerbin[..4] == BigEndian4(version) && headerbin[4..36] == SwapWords(prevhash) && headerbin[72..76] == nbits
  {
    hide SwapWords, BigEndian4;
    var h := headerbin[..80];
    assert h[..4] == headerbin[..4] && h[4..36] == headerbin[4..36] && h[72..76] == headerbin[72..76];
  }

  /** `hex2bin` of the nonce. */
  method Nonce(nonce: string) returns (bytes: seq<byte>)
    requires |nonce| >= 8 && Hex.AllHex(nonce[..8])
    ensures bytes == NonceBytes(nonce)
  {
    var _, out := Hex.Hex2Bin(nonce, 4);
    bytes := out;
    HexInside(nonce);
  }

  lemma HexInside(nonce: string)
    requires |nonce| >= 8 && Hex.AllHex(nonce[..8])
    ensures forall k :: 0 <= k < 4 ==> Hex.AllHex(nonce[2 * k..2 * k + 2])
  {
    assert forall i :: 0 <= i < 8 ==> nonce[..8][i] == nonce[i];
  }

  /** The fields of a copy of the template are overwritten. */
  method Insert(headerbin: seq<byte>, root: seq<byte>, mask: seq<byte>, nonce: seq<byte>, ntime: seq<byte>,
                ghost version: seq<byte>, ghost prevhash: seq<byte>, ghost nbits: seq<byte>)
    returns (data: array<byte>)
    requires |headerbin| == 112 && |version| == 4 && |prevhash| == 32 && |nbits| == 4 && |root| == 32
    requires |mask| == 4 && |nonce| == 4 && |ntime| == 4
    requires headerbin[..4] == version && headerbin[4..36] == prevhash && headerbin[72..76] == nbits
    ensures fresh(data) && data.Length == 80
    ensures data[..] == Fields(OrBytes(version, mask), prevhash, root, ntime, nbits, nonce)
  {
    hide OrByte;
    data := new byte[80](i requires 0 <= i < 80 => headerbin[i]);
    forall i | 0 <= i < 32 {
      data[36 + i] := root[i];
    }
    forall i | 0 <= i < 4 {
      data[i] := OrByte(headerbin[i], mask[i]);
    }
    forall i | 0 <= i < 4 {
      data[76 + i] := nonce[i];
    }
    forall i | 0 <= i < 4 {
      data[68 + i] := ntime[i];
    }
    assert data[..4] == OrBytes(version, mask);
    assert data[4..36] == prevhash;
    assert data[36..68] == root;
    assert data[68..72] == ntime;
    assert data[72..76] == nbits;
    assert data[76..80] == nonce;
    assert data[..] == data[..4] + data[4..36] + data[36..68] + data[68..72] + data[72..76] + data[76..80];
  }

  /** Every word of the filled-in template turned round is the canonical header. */
  lemma CanonicalTurned(version: nat, versionMask: nat, mask: seq<byte>, prevhash: Hash, root: Hash, ntime: nat, nbits: seq<byte>, nonce: seq<byte>)
    requires |nbits| == 4 && |nonce| == 4 && mask == if versionMask != 0 then BigEndian4(versionMask) else ZERO4
    ensures FlipWords(Fields(OrBytes(BigEndian4(version), mask), SwapWords(prevhash), FlipWords(root), BigEndian4(ntime), nbits, nonce)) ==
            Canonical(Or(version, versionMask), prevhash, root, ntime, nbits, nonce)
  {
    hide FlipWords, SwapWords, OrBytes, Or, Reverse, ToLittleEndian;
    var v, p, r, t := OrBytes(BigEndian4(version), mask), SwapWords(prevhash), FlipWords(root), BigEndian4(ntime);
    FlipConcat(v, p);
    FlipConcat(v + p, r);
    FlipConcat(v + p + r, t);
    FlipConcat(v + p + r + t, nbits);
    FlipConcat(v + p + r + t + nbits, nonce);
    VersionTurned(version, versionMask, mask);
    SwapFlipReverses(prevhash);
    FlipTwice(root);
    FlipOneWord(t);
    FlipOneWord(nbits);
    FlipOneWord(nonce);
    ReverseTwice(ToLittleEndian(ntime, 4));
  }

  lemma ReverseTwice(s: seq<byte>)
    ensures Reverse(Reverse(s)) == s
  {}

  lemma VersionTurned(version: nat, versionMask: nat, mask: seq<byte>)
    requires mask == if versionMask != 0 then BigEndian4(versionMask) else ZERO4
    ensures FlipWords(OrBytes(BigEndian4(version), mask)) == ToLittleEndian(Or(version, versionMask), 4)
  {
    hide FlipWords, Or, ToLittleEndian;
    var a, b := ToLittleEndian(version, 4), ToLittleEndian(versionMask, 4);
    if versionMask == 0 {
      ZeroBytes();
    }
    assert mask == Reverse(b);
    FlipOneWord(OrBytes(Reverse(a), Reverse(b)));
    assert Reverse(OrBytes(Reverse(a), Reverse(b))) == OrBytes(a, b);
    OrLittleEndian(version, versionMask, 4);
  }

  lemma ZeroBytes()
    ensures ToLittleEndian(0, 4) == ZERO4 && Reverse(ZERO4) == ZERO4
  {
    assert ToLittleEndian(0, 2) == [0, 0];
  }
}
