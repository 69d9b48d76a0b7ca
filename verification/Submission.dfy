/** `submission_diff` of stratifier.c put together: from what a miner submits to the hash of its share. */
module Submission {
  import opened Bytes
  import opened Bitwise
  import opened CoinbaseBuild
  import Coinbase
  import Header
  import Hex
  import Merkle

  /** The loop over the Merkle branch, in a buffer of two hashes. */
  method FoldBranch(h: Hasher, coinbase: seq<byte>, merklebin: seq<Hash>) returns (root: Hash)
    ensures root == Merkle.Fold(h, h(coinbase), merklebin)
  {
    root := h(coinbase);
    var merkleSha := new byte[64](i requires 0 <= i < 64 => if i < 32 then root[i] else 0);
    assert merkleSha[..32] == root;
    assert merklebin[0..] == merklebin;
    for i := 0 to |merklebin|
      invariant Merkle.Fold(h, root, merklebin[i..]) == Merkle.Fold(h, h(coinbase), merklebin) && merkleSha[..32] == root
    {
      var _ := Put(merkleSha, 32, merklebin[i]);
      assert merkleSha[..64] == merkleSha[..] == root + merklebin[i];
      root := h(merkleSha[..]);
      assert merklebin[i..][0] == merklebin[i] && merklebin[i..][1..] == merklebin[i + 1..];
      ghost var r := root;
      var _ := Put(merkleSha, 0, root);
      assert merkleSha[..32] == r;
    }
    assert merklebin[|merklebin|..] == [];
  }

  /** The second extranonce as `parse_submit` makes it the right length: cut, or filled up with zeros. */
  function Fitted(nonce2: string, len: nat): (s: string)
    ensures |s| == len
  {
    if |nonce2| >= len then nonce2[..len] else nonce2 + seq(len - |nonce2|, _ => '0')
  }

  lemma FittedIsHex(nonce2: string, len: nat)
    requires Hex.AllHex(nonce2)
    ensures Hex.AllHex(Fitted(nonce2, len))
  {}

  /** Of a nonce2 that is too long the first bytes count, and one that is too short is followed by zero
      bytes. */
  lemma FittedDecodes(nonce2: string, n: nat)
    requires Hex.AllHex(nonce2)
    ensures Hex.AllHex(Fitted(nonce2, 2 * n))
    ensures |nonce2| >= 2 * n ==> Hex.HexDecode(Fitted(nonce2, 2 * n)) == Hex.HexDecode(nonce2[..2 * n])
    ensures |nonce2| <= 2 * n && |nonce2| % 2 == 0 ==>
      Hex.HexDecode(Fitted(nonce2, 2 * n)) == Hex.HexDecode(nonce2) + seq(n - |nonce2| / 2, _ => 0)
  {
    if |nonce2| >= 2 * n {
      assert Fitted(nonce2, 2 * n) == nonce2[..2 * n];
    } else if |nonce2| % 2 == 0 {
      var zeros := seq(2 * n - |nonce2|, _ => '0');
      assert Hex.HexDecode(zeros) == seq(n - |nonce2| / 2, _ => 0);
      Hex.DecodeConcat(nonce2, zeros);
    }
  }

  /** What the share is hashed from: the coinbase, and the canonical header whose Merkle root is that of
      the block with this coinbase and the template's transactions. */
  method SubmissionDiff(h: Hasher, wb: Workbase, src: Coinbase.Source, ghost flagbytes: seq<byte>, btcsolo: bool, pooltxn: seq<byte>,
                        userwbs: map<int, Userwb>, headerbin: seq<byte>, merklebin: seq<Hash>,
                        enonce1bin: seq<byte>, submitted: string, ntime32: nat, versionMask: nat, nonce: string,
                        ghost version: nat, ghost prevhash: Hash, ghost ntime: nat, ghost nbits: seq<byte>, ghost leaves: seq<Hash>)
    returns (coinbase: seq<byte>, swap: seq<byte>, hash: Hash)
    requires Coinbase.Fits(src) && |flagbytes| == |src.flags| / 2 && |pooltxn| <= 48
    requires Hex.AllHex(submitted) && |nbits| == 4 && |nonce| >= 8 && Hex.AllHex(nonce[..8])
    requires |enonce1bin| == src.nonce1length
    requires btcsolo && wb.id in userwbs ==> |userwbs[wb.id].coinb2bin| <= 512
    requires Header.IsTemplate(headerbin, version, prevhash, ntime, nbits)
    requires merklebin == Merkle.Branch(h, leaves)
    requires wb.Holds(src, flagbytes, btcsolo, pooltxn)
    ensures var nonce2 := Fitted(submitted, 2 * src.nonce2length);
      && Hex.IsHexOf(nonce2, src.nonce2length)
      && coinbase == wb.SubmittedBytes(src, flagbytes, btcsolo, pooltxn, userwbs, enonce1bin, nonce2)
    ensures swap == Header.Canonical(Or(version, versionMask), prevhash, Merkle.Root(h, [h(coinbase)] + leaves), ntime32, nbits,
                                     Header.NonceBytes(nonce))
    ensures forall v :: Hex.Numeral(nonce[..8], v) ==> swap[76..80] == ToLittleEndian(v, 4)
    ensures hash == h(swap)
  {
    hide Coinbase.Fits, Header.IsTemplate, Header.Canonical, Merkle.Branch, Merkle.Root, Merkle.Fold, Hex.AllHex;
    hide Hex.HexDecode, Header.NonceBytes, Or, Fitted, Workbase.SubmittedBytes, Workbase.Holds;
    FittedIsHex(submitted, 2 * src.nonce2length);
    var nonce2 := Fitted(submitted, 2 * src.nonce2length);
    coinbase := wb.SubmittedCoinbase(src, flagbytes, btcsolo, pooltxn, userwbs, enonce1bin, nonce2);
    var root := FoldBranch(h, coinbase, merklebin);
    Merkle.FoldIsRoot(h, h(coinbase), leaves);
    swap := Header.SubmittedHeader(headerbin, root, ntime32, versionMask, nonce, version, prevhash, ntime, nbits);
    hash := h(swap);
  }
}
