/** The stratum Merkle branch that `wb_merkle_bin_txns` reduces in place, and the fold that
    `submission_diff` runs through it. */
module Merkle {
  import opened Bytes
  import opened Hex

  // ----- Bitcoin's Merkle tree -----

  /** The node above two others. */
  function Node(h: Hasher, left: Hash, right: Hash): Hash {
    var both: seq<byte> := left;
    h(both + right)
  }

  /** The level above `level`: neighbours hashed in pairs, an odd last node paired with itself. */
  function LevelAbove(h: Hasher, level: seq<Hash>): (up: seq<Hash>)
    ensures |up| == (|level| + 1) / 2
  {
    seq((|level| + 1) / 2, i requires 0 <= i < (|level| + 1) / 2 =>
      Node(h, level[2 * i], level[if 2 * i + 1 < |level| then 2 * i + 1 else 2 * i]))
  }

  /** The Merkle root of a non-empty list of transaction ids. */
  function Root(h: Hasher, leaves: seq<Hash>): Hash
    requires |leaves| > 0
    decreases |leaves|
  {
    if |leaves| == 1 then leaves[0] else Root(h, LevelAbove(h, leaves))
  }

  // ----- the branch -----

  /** The level above `[x] + rest` without its first node, which is all that does not depend on `x`. */
  function RestAbove(h: Hasher, rest: seq<Hash>): (up: seq<Hash>)
    ensures |up| == |rest| / 2
  {
    seq(|rest| / 2, i requires 0 <= i < |rest| / 2 =>
      Node(h, rest[2 * i + 1], rest[if 2 * i + 2 < |rest| then 2 * i + 2 else 2 * i + 1]))
  }

  function Branch(h: Hasher, txids: seq<Hash>): seq<Hash>
    decreases |txids|
  {
    if |txids| == 0 then [] else [txids[0]] + Branch(h, RestAbove(h, txids))
  }

  /** Folds a coinbase hash through a branch. */
  function Fold(h: Hasher, coinbase: Hash, branch: seq<Hash>): Hash
    decreases |branch|
  {
    if |branch| == 0 then coinbase else Fold(h, Node(h, coinbase, branch[0]), branch[1..])
  }

  /** The branch stands for the whole tree: whatever coinbase is folded through it, the result is
      the root of the tree over that coinbase followed by the template's transactions. */
  lemma {:induction false} FoldIsRoot(h: Hasher, coinbase: Hash, txids: seq<Hash>)
    ensures Fold(h, coinbase, Branch(h, txids)) == Root(h, [coinbase] + txids)
    decreases |txids|
  {
    if |txids| > 0 {
      var up := RestAbove(h, txids);
      var first := Node(h, coinbase, txids[0]);
      assert LevelAbove(h, [coinbase] + txids) == [first] + up;
      FoldIsRoot(h, first, up);
      assert Branch(h, txids)[1..] == Branch(h, up);
    }
  }

  /** The branch has ceil(log2(transactions + 1)) nodes. */
  lemma {:induction false} BranchLength(h: Hasher, txids: seq<Hash>)
    ensures |txids| + 1 <= Pow(2, |Branch(h, txids)|)
    ensures if |txids| == 0 then |Branch(h, txids)| == 0 else |Branch(h, txids)| > 0 && Pow(2, |Branch(h, txids)| - 1) < |txids| + 1
    decreases |txids|
  {
    if |txids| > 0 {
      BranchLength(h, RestAbove(h, txids));
    }
  }

  lemma TwoToSixteen()
    ensures Pow(2, 16) == 65536
  {
    assert Pow(2, 8) == 256;
    PowAdd(2, 8, 8);
  }

  /** The sixteen `merklebin` slots of a workbase hold the branch of exactly the templates with at
      most 65535 transactions besides the coinbase. */
  lemma SixteenSlotsSuffice(h: Hasher, txids: seq<Hash>)
    ensures |Branch(h, txids)| <= 16 <==> |txids| <= 65535
  {
    var d := |Branch(h, txids)|;
    BranchLength(h, txids);
    TwoToSixteen();
    hide *;
    if d <= 16 {
      PowMonotone(2, d, 16);
    } else {
      PowMonotone(2, 16, d - 1);
    }
  }

  // ----- the in-place reduction -----

  ghost function Slot(buf: array<byte>, k: nat): (s: Hash)
    requires 32 * k + 32 <= buf.Length
    reads buf
  {
    buf[32 * k..32 * k + 32]
  }

  /** `memcpy` of 32 bytes to offset `ofs`, which is where slot `k` starts. */
  method CopyIntoSlot(buf: array<byte>, ofs: nat, src: Hash, ghost k: nat)
    requires ofs == 32 * k && ofs + 32 <= buf.Length
    modifies buf
    ensures Slot(buf, k) == src
    ensures forall m: nat :: m != k && 32 * m + 32 <= buf.Length ==> Slot(buf, m) == old(Slot(buf, m))
  {
    forall i | 0 <= i < 32 {
      buf[ofs + i] := src[i];
    }
  }

  lemma TwoSlots(buf: array<byte>, k: nat)
    requires 64 * k + 64 <= buf.Length
    ensures buf[64 * k..64 * k + 64] == Slot(buf, 2 * k) + Slot(buf, 2 * k + 1)
  {}

  lemma RestAboveAt(h: Hasher, rest: seq<Hash>, full: seq<Hash>, i: nat)
    requires |rest| > 0 && full == if |rest| % 2 == 1 then rest else rest + [rest[|rest| - 1]]
    requires i < |rest| / 2
    ensures RestAbove(h, rest)[i] == Node(h, full[2 * i + 1], full[2 * i + 2])
  {}

  /** The inner loop: hashes slots 2k and 2k + 1 into slot k. No slot is written before it is read. */
  method HashPairs(h: Hasher, hashbin: array<byte>, binlen: nat, ghost rest: seq<Hash>, ghost full: seq<Hash>)
    requires binlen % 64 == 0 && 64 <= binlen <= hashbin.Length
    requires |rest| > 0 && full == if |rest| % 2 == 1 then rest else rest + [rest[|rest| - 1]]
    requires 32 * |full| + 32 == binlen
    requires forall m: nat :: 1 <= m <= |full| ==> Slot(hashbin, m) == full[m - 1]
    modifies hashbin
    ensures forall m: nat :: 1 <= m < binlen / 64 ==> Slot(hashbin, m) == RestAbove(h, rest)[m - 1]
  {
    hide RestAbove, Slot;
    ghost var up := RestAbove(h, rest);
    var i, j := 32, 64;
    ghost var k := 1;
    while j < binlen
      invariant 1 <= k <= binlen / 64 && i == 32 * k && j == 64 * k
      invariant forall m: nat :: 1 <= m < k ==> Slot(hashbin, m) == up[m - 1]
      invariant forall m: nat :: 2 * k <= m <= |full| ==> Slot(hashbin, m) == full[m - 1]
    {
      TwoSlots(hashbin, k);
      RestAboveAt(h, rest, full, k - 1);
      CopyIntoSlot(hashbin, i, h(hashbin[j..j + 64]), k);
      i, j := i + 32, j + 64;
      k := k + 1;
    }
  }

  /** One round of the reduction: doubles an odd last node into the slack slot, then hashes pairs. */
  method ReduceLevel(h: Hasher, hashbin: array<byte>, binleft: nat, ghost level: seq<Hash>) returns (halved: nat)
    requires binleft == |level| + 1 >= 2 && 32 * binleft + 32 <= hashbin.Length
    requires forall k: nat :: 1 <= k < binleft ==> Slot(hashbin, k) == level[k - 1]
    modifies hashbin
    ensures halved == |RestAbove(h, level)| + 1
    ensures forall k: nat :: 1 <= k < halved ==> Slot(hashbin, k) == RestAbove(h, level)[k - 1]
  {
    hide Slot, RestAbove;
    var binlen := 32 * binleft;
    ghost var full := level;
    var left := binleft;
    if binleft % 2 == 1 {
      LastSlot(hashbin, binleft - 1);
      CopyIntoSlot(hashbin, binlen, hashbin[binlen - 32..binlen], binleft);
      full := level + [level[|level| - 1]];
      binlen := binlen + 32;
      left := binleft + 1;
    }
    HashPairs(h, hashbin, binlen, level, full);
    halved := left / 2;
  }

  lemma LastSlot(buf: array<byte>, k: nat)
    requires 32 * k + 32 <= buf.Length
    ensures buf[32 * (k + 1) - 32..32 * (k + 1)] == Slot(buf, k)
  {}

  /** The reduction loop of `wb_merkle_bin_txns`: records the first used slot and hashes the rest
      pairwise in place, until only the unused first slot is left. The buffer has one slot of slack
      beyond the leaves, which takes the copy of an odd last node. */
  method ReduceInPlace(h: Hasher, hashbin: array<byte>, ghost leaves: seq<Hash>) returns (merklebin: seq<Hash>)
    requires hashbin.Length == 32 * |leaves| + 64
    requires forall k: nat :: 1 <= k <= |leaves| ==> Slot(hashbin, k) == leaves[k - 1]
    modifies hashbin
    ensures merklebin == Branch(h, leaves)
  {
    merklebin := [];
    var binleft := hashbin.Length / 32 - 1;
    ghost var level := leaves;
    while binleft != 1
      invariant 1 <= binleft == |level| + 1 <= |leaves| + 1
      invariant forall k: nat :: 1 <= k < binleft ==> Slot(hashbin, k) == level[k - 1]
      invariant merklebin + Branch(h, level) == Branch(h, leaves)
      decreases binleft
    {
      var first: Hash := hashbin[32..64];
      assert first == Slot(hashbin, 1) == level[0];
      assert merklebin + Branch(h, level) == merklebin + [first] + Branch(h, RestAbove(h, level));
      merklebin := merklebin + [first];
      binleft := ReduceLevel(h, hashbin, binleft, level);
      level := RestAbove(h, level);
    }
  }

  /** `bswap_256` of the bytes a txid's hex text stands for: the order the tree is hashed in. */
  ghost function LeafHash(txid: string): Hash
    requires IsHexOf(txid, 32)
  {
    Reverse(HexDecode(txid))
  }

  ghost function LeafHashes(txids: seq<string>): (leaves: seq<Hash>)
    requires forall i :: 0 <= i < |txids| ==> IsHexOf(txids[i], 32)
    ensures |leaves| == |txids|
  {
    if |txids| == 0 then [] else LeafHashes(txids[..|txids| - 1]) + [LeafHash(txids[|txids| - 1])]
  }

  /** `wb_merkle_bin_txns`: decodes the txids into 32-byte slots behind an unused first slot and
      reduces them to the branch. A txid that is not 64 hex digits stops the function before any
      branch node is recorded. */
  method WbMerkleBinTxns(h: Hasher, txids: seq<string>) returns (ok: bool, merklebin: seq<Hash>)
    ensures ok <==> forall i :: 0 <= i < |txids| ==> IsHexOf(txids[i], 32)
    ensures ok ==> merklebin == Branch(h, LeafHashes(txids))
    ensures !ok ==> merklebin == []
  {
    var hashbin := new byte[|txids| * 32 + 64];
    for t := 0 to |txids|
      invariant forall i :: 0 <= i < t ==> IsHexOf(txids[i], 32)
      invariant forall k: nat :: 1 <= k <= t ==> Slot(hashbin, k) == LeafHashes(txids[..t])[k - 1]
    {
      var converted, binswap := Hex2Bin(txids[t], 32);
      if !converted {
        return false, [];
      }
      assert txids[..t + 1][..t] == txids[..t];
      CopyIntoSlot(hashbin, 32 + 32 * t, Reverse(binswap), t + 1);
    }
    assert txids[..|txids|] == txids;
    merklebin := ReduceInPlace(h, hashbin, LeafHashes(txids));
    ok := true;
  }

  /** The texts are the txids as they are displayed: the hex of the hashes read backwards. */
  ghost predicate Displayed(txids: seq<string>, ids: seq<Hash>) {
    && |txids| == |ids|
    && forall i :: 0 <= i < |ids| ==> IsHexOf(txids[i], 32) && HexDecode(txids[i]) == Reverse(ids[i])
  }

  lemma {:induction false} DisplayedLeaves(txids: seq<string>, ids: seq<Hash>)
    requires Displayed(txids, ids)
    ensures LeafHashes(txids) == ids
    decreases |txids|
  {
    if |txids| > 0 {
      var n := |txids| - 1;
      DisplayedLeaves(txids[..n], ids[..n]);
      LastLeaf(txids[n], ids[n]);
      assert ids == ids[..n] + [ids[n]];
    }
  }

  lemma LastLeaf(txid: string, id: Hash)
    requires IsHexOf(txid, 32) && HexDecode(txid) == Reverse(id)
    ensures LeafHash(txid) == id
  {
    hide IsHexOf, HexDecode;
  }

  /** From the txids a block template displays to the Merkle root: the branch is made, and whatever
      coinbase is folded through it gives the root over the hashes as they are computed. */
  method DisplayedRoot(h: Hasher, txids: seq<string>, ghost ids: seq<Hash>) returns (ok: bool, merklebin: seq<Hash>)
    requires Displayed(txids, ids)
    ensures ok && merklebin == Branch(h, ids)
    ensures forall coinbase :: Fold(h, coinbase, merklebin) == Root(h, [coinbase] + ids)
  {
    hide LeafHash, IsHexOf, HexDecode, Branch, Fold, Root;
    ok, merklebin := WbMerkleBinTxns(h, txids);
    DisplayedLeaves(txids, ids);
    forall coinbase
      ensures Fold(h, coinbase, merklebin) == Root(h, [coinbase] + ids)
    {
      FoldIsRoot(h, coinbase, ids);
    }
  }

  // ----- what a Merkle root is -----

  lemma {:induction false} LevelsConcat(h: Hasher, a: seq<Hash>, b: seq<Hash>)
    requires |a| % 2 == 0
    ensures LevelAbove(h, a + b) == LevelAbove(h, a) + LevelAbove(h, b)
  {
    var n := |a| / 2;
    forall i | 0 <= i < (|a| + |b| + 1) / 2
      ensures LevelAbove(h, a + b)[i] == (LevelAbove(h, a) + LevelAbove(h, b))[i]
    {
      if i >= n {
        assert (a + b)[2 * i] == b[2 * (i - n)];
      }
    }
  }

  /** The root over twice 2^k leaves is the node above the roots over the halves. */
  lemma {:induction false} RootOfHalves(h: Hasher, a: seq<Hash>, b: seq<Hash>, k: nat)
    requires |a| == |b| == Pow(2, k)
    ensures Root(h, a + b) == Node(h, Root(h, a), Root(h, b))
    decreases k
  {
    if k == 0 {
      assert a + b == [a[0], b[0]];
      assert LevelAbove(h, a + b) == [Node(h, a[0], b[0])];
    } else {
      LevelsConcat(h, a, b);
      RootOfHalves(h, LevelAbove(h, a), LevelAbove(h, b), k - 1);
    }
  }

  /** Where the number of leaves is no power of two, the last odd group of 2^k is taken twice. */
  lemma {:induction false} RootOfOdd(h: Hasher, leaves: seq<Hash>, k: nat)
    requires Pow(2, k) < |leaves| && |leaves| % (2 * Pow(2, k)) == Pow(2, k)
    ensures Root(h, leaves + leaves[|leaves| - Pow(2, k)..]) == Root(h, leaves)
    decreases k
  {
    hide LevelAbove;
    if k == 0 {
      OddLevel(h, leaves);
    } else {
      var d := Pow(2, k - 1);
      OddHalf(|leaves|, d);
      LastGroup(h, leaves, 2 * d);
      RootOfOdd(h, LevelAbove(h, leaves), k - 1);
    }
  }

  lemma OddLevel(h: Hasher, leaves: seq<Hash>)
    requires |leaves| % 2 == 1
    ensures LevelAbove(h, leaves + leaves[|leaves| - 1..]) == LevelAbove(h, leaves)
  {
    var twice := leaves + leaves[|leaves| - 1..];
    assert forall i :: 0 <= i < (|leaves| + 1) / 2 ==> LevelAbove(h, twice)[i] == LevelAbove(h, leaves)[i];
  }

  /** Of two levels the last group of the upper one is above that of the lower one. */
  lemma LastGroup(h: Hasher, leaves: seq<Hash>, d: nat)
    requires d % 2 == 0 && d < |leaves| && |leaves| % 2 == 0
    ensures var up := LevelAbove(h, leaves);
      LevelAbove(h, leaves + leaves[|leaves| - d..]) == up + up[|up| - d / 2..]
  {
    hide LevelAbove;
    var n := |leaves| - d;
    LevelsConcat(h, leaves, leaves[n..]);
    assert leaves == leaves[..n] + leaves[n..];
    LevelsConcat(h, leaves[..n], leaves[n..]);
  }

  lemma OddHalf(n: nat, d: nat)
    requires d > 0 && n % (2 * (2 * d)) == 2 * d
    ensures n % 2 == 0 && n / 2 % (2 * d) == d
  {
    HalfMod(n, 2 * d);
  }
}
