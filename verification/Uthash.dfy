/** The pointer-level hash table of uthash.h: bucket chains and the application-order list over the
    same elements. */
module Uthash {
  import opened Bytes
  import opened Bitwise
  import opened Elements
  import opened Sequences
  import MergeSort

  const INITIAL_NUM_BUCKETS := 32
  const BKT_CAPACITY_THRESH := 10

  datatype Bucket = Bucket(hhHead: Elem?, count: nat, expandMult: nat)

  // ----- bucket chains -----

  /** A bucket heads a chain linked by `hhNext` and `hhPrev` and counts it. */
  ghost predicate ChainOk(bkt: Bucket, c: seq<Elem>)
    reads c`hhNext, c`hhPrev
  {
    bkt.hhHead == At(c, 0) && bkt.count == |c| && Distinct(c) && NextLinked(c) && PrevLinked(c)
  }

  ghost predicate NextLinked(c: seq<Elem>)
    reads c`hhNext
  {
    forall i {:trigger c[i].hhNext} :: 0 <= i < |c| ==> c[i].hhNext == At(c, i + 1)
  }

  ghost predicate PrevLinked(c: seq<Elem>)
    reads c`hhPrev
  {
    forall i {:trigger c[i].hhPrev} :: 0 <= i < |c| ==> c[i].hhPrev == At(c, i - 1)
  }

  /** `HASH_TO_BKT`: the hash masked by the bucket count less one; the counts are powers of two. */
  function ToBkt(hashv: nat, numBkts: nat): (b: nat)
    requires numBkts > 0
    ensures b < numBkts
  {
    And(hashv, numBkts - 1)
  }

  /** One bucket: its chain is sound and holds only elements whose hash belongs there. */
  ghost predicate BktOk(bkt: Bucket, c: seq<Elem>, b: int, numBkts: nat, elems: set<Elem>)
    requires numBkts > 0
    reads elems`hhNext, elems`hhPrev, elems`hashv
  {
    && (forall i :: 0 <= i < |c| ==> c[i] in elems && ToBkt(c[i].hashv, numBkts) == b)
    && ChainOk(bkt, c)
  }

  /** All buckets are as `HASH_FSCK` wants them. */
  ghost predicate BktsOk(bkts: array<Bucket>, chains: seq<seq<Elem>>, elems: set<Elem>)
    reads bkts, elems`hhNext, elems`hhPrev, elems`hashv
  {
    && |chains| == bkts.Length > 0
    && (forall b :: 0 <= b < |chains| ==> BktOk(bkts[b], chains[b], b, bkts.Length, elems))
  }

  /** Pushes an element on one chain. */
  method PushChain(bkt: Bucket, ghost c: seq<Elem>, e: Elem) returns (r: Bucket)
    requires ChainOk(bkt, c) && e !in c
    modifies e`hhNext, e`hhPrev, c`hhPrev
    ensures ChainOk(r, [e] + c) && r.expandMult == bkt.expandMult
  {
    e.hhNext := bkt.hhHead;
    e.hhPrev := null;
    if bkt.hhHead != null {
      bkt.hhHead.hhPrev := e;
    }
    r := bkt.(hhHead := e, count := bkt.count + 1);
  }

  /** Takes an element out of one chain. */
  method UnlinkChain(bkt: Bucket, ghost c: seq<Elem>, e: Elem, ghost k: nat) returns (r: Bucket)
    requires ChainOk(bkt, c) && k < |c| && c[k] == e
    modifies c`hhNext, c`hhPrev
    ensures ChainOk(r, Without(c, k)) && r.expandMult == bkt.expandMult
  {
    var head := bkt.hhHead;
    if head == e {
      head := e.hhNext;
    }
    if e.hhPrev != null {
      e.hhPrev.hhNext := e.hhNext;
    }
    if e.hhNext != null {
      e.hhNext.hhPrev := e.hhPrev;
    }
    r := bkt.(hhHead := head, count := bkt.count - 1);
    WithoutLinked(c, k);
  }

  /** A chain whose links skip one element is the chain without it. */
  lemma WithoutLinked(c: seq<Elem>, k: nat)
    requires Distinct(c) && k < |c|
    requires forall i {:trigger c[i].hhNext} :: 0 <= i < |c| && i != k ==> c[i].hhNext == At(c, if i + 1 == k then i + 2 else i + 1)
    requires forall i {:trigger c[i].hhPrev} :: 0 <= i < |c| && i != k ==> c[i].hhPrev == At(c, if i - 1 == k then i - 2 else i - 1)
    ensures Distinct(Without(c, k)) && NextLinked(Without(c, k)) && PrevLinked(Without(c, k))
  {
    DistinctWithout(c, k);
    hide Distinct, Without;
    var w := Without(c, k);
    forall i | 0 <= i < |w|
      ensures w[i].hhNext == At(w, i + 1) && w[i].hhPrev == At(w, i - 1)
    {
      WithoutAt(c, k, i);
      if i + 1 < |w| {
        WithoutAt(c, k, i + 1);
      }
      if i > 0 {
        WithoutAt(c, k, i - 1);
      }
    }
  }

  /** `HASH_ADD_TO_BKT` up to the expansion test. */
  method PushBkt(bkts: array<Bucket>, ghost chains: seq<seq<Elem>>, ghost elems: set<Elem>, e: Elem, b: nat)
    requires BktsOk(bkts, chains, elems)
    requires e in elems && b < bkts.Length && ToBkt(e.hashv, bkts.Length) == b && e !in chains[b]
    modifies bkts, e`hhNext, e`hhPrev, chains[b]`hhPrev
    ensures BktsOk(bkts, chains[b := [e] + chains[b]], elems)
    ensures bkts[b].expandMult == old(bkts[b].expandMult)
  {
    hide ChainOk;
    assert BktOk(bkts[b], chains[b], b, bkts.Length, elems);
    forall d, i | 0 <= d < |chains| && d != b && 0 <= i < |chains[d]|
      ensures chains[d][i] !in chains[b] && chains[d][i] != e
    {
      assert BktOk(bkts[d], chains[d], d, bkts.Length, elems);
    }
    var r := PushChain(bkts[b], chains[b], e);
    forall d | 0 <= d < |chains| && d != b
      ensures BktOk(bkts[d], chains[d], d, bkts.Length, elems)
    {
      assert old(BktOk(bkts[d], chains[d], d, bkts.Length, elems));
    }
    bkts[b] := r;
  }

  /** `HASH_DEL_IN_BKT`. */
  method DelInBkt(bkts: array<Bucket>, ghost chains: seq<seq<Elem>>, ghost elems: set<Elem>, e: Elem, b: nat, ghost k: nat)
    requires BktsOk(bkts, chains, elems)
    requires b < bkts.Length && k < |chains[b]| && chains[b][k] == e
    modifies bkts, chains[b]`hhNext, chains[b]`hhPrev
    ensures BktsOk(bkts, chains[b := Without(chains[b], k)], elems)
  {
    hide ChainOk;
    assert BktOk(bkts[b], chains[b], b, bkts.Length, elems);
    forall d, i | 0 <= d < |chains| && d != b && 0 <= i < |chains[d]|
      ensures chains[d][i] !in chains[b] && chains[d][i] != e
    {
      assert BktOk(bkts[d], chains[d], d, bkts.Length, elems);
    }
    var r := UnlinkChain(bkts[b], chains[b], e, k);
    forall d | 0 <= d < |chains| && d != b
      ensures BktOk(bkts[d], chains[d], d, bkts.Length, elems)
    {
      assert old(BktOk(bkts[d], chains[d], d, bkts.Length, elems));
    }
    bkts[b] := r;
  }

  // ----- application-order list operations -----

  /** `HASH_APPEND_LIST`. */
  method AppendList(ghost s: seq<Elem>, tail: Elem, e: Elem)
    requires AppLinked(s) && |s| > 0 && tail == s[|s| - 1] && e !in s
    modifies tail`next, e`next, e`prev
    ensures AppLinked(s + [e])
  {
    e.next := null;
    e.prev := tail;
    tail.next := e;
  }

  lemma AppWithoutLinked(s: seq<Elem>, k: nat)
    requires Distinct(s) && k < |s|
    requires forall i {:trigger s[i].next} :: 0 <= i < |s| && i != k ==> s[i].next == At(s, if i + 1 == k then i + 2 else i + 1)
    requires forall i {:trigger s[i].prev} :: 0 <= i < |s| && i != k ==> s[i].prev == At(s, if i - 1 == k then i - 2 else i - 1)
    ensures AppLinked(Without(s, k))
  {
    DistinctWithout(s, k);
    hide Distinct, Without;
    var w := Without(s, k);
    forall i | 0 <= i < |w|
      ensures w[i].next == At(w, i + 1) && w[i].prev == At(w, i - 1)
    {
      WithoutAt(s, k, i);
      if i + 1 < |w| {
        WithoutAt(s, k, i + 1);
      }
      if i > 0 {
        WithoutAt(s, k, i - 1);
      }
    }
  }

  /** The application-order part of `HASH_DELETE_HH`. */
  method UnlinkList(ghost s: seq<Elem>, e: Elem, ghost k: nat)
    requires AppLinked(s) && k < |s| && s[k] == e
    modifies s`next, s`prev
    ensures AppLinked(Without(s, k))
    ensures e.next == old(e.next) && e.prev == old(e.prev)
  {
    if e.prev != null {
      e.prev.next := e.next;
    }
    if e.next != null {
      e.next.prev := e.prev;
    }
    AppWithoutLinked(s, k);
  }

  // ----- bucket expansion -----

  /** `e` is in the chain of its bucket. */
  ghost predicate Placed(e: Elem, chains: seq<seq<Elem>>)
    requires |chains| > 0
    reads e`hashv
  {
    e in chains[ToBkt(e.hashv, |chains|)]
  }

  lemma MultIrrelevant(bkt: Bucket, c: seq<Elem>, m: nat)
    requires ChainOk(bkt, c)
    ensures ChainOk(bkt.(expandMult := m), c)
  {}

  /** Moves one element into the new buckets and adjusts the bucket's expansion multiplier; tells
      whether the chain is now longer than ideal. */
  method PushExpanding(bkts: array<Bucket>, ghost chains: seq<seq<Elem>>, ghost elems: set<Elem>, e: Elem, ideal: nat)
    returns (over: bool, ghost r: seq<seq<Elem>>)
    requires BktsOk(bkts, chains, elems) && e in elems
    requires forall b :: 0 <= b < |chains| ==> e !in chains[b]
    modifies bkts, e`hhNext, e`hhPrev, chains[ToBkt(e.hashv, |chains|)]`hhPrev
    ensures |r| == |chains| && r == chains[ToBkt(e.hashv, |chains|) := [e] + chains[ToBkt(e.hashv, |chains|)]]
    ensures BktsOk(bkts, r, elems)
  {
    hide ChainOk;
    var b := ToBkt(e.hashv, bkts.Length);
    PushBkt(bkts, chains, elems, e, b);
    r := chains[b := [e] + chains[b]];
    var count := bkts[b].count;
    over := count > ideal;
    if over && count > bkts[b].expandMult * ideal {
      assert BktOk(bkts[b], r[b], b, bkts.Length, elems);
      MultIrrelevant(bkts[b], r[b], bkts[b].expandMult + 1);
      bkts[b] := bkts[b].(expandMult := bkts[b].expandMult + 1);
    }
  }

  /** The inner loop of `HASH_EXPAND_BUCKETS`: moves one old chain into the new buckets. Only
      elements of `placed` are touched. */
  method MoveChain(bkts: array<Bucket>, ghost chains: seq<seq<Elem>>, ghost elems: set<Elem>, ghost placed: set<Elem>,
                   start: Elem?, ghost c: seq<Elem>, ideal: nat)
    returns (nonideal: nat, ghost r: seq<seq<Elem>>)
    requires BktsOk(bkts, chains, elems)
    requires Distinct(c) && NextLinked(c) && start == At(c, 0)
    requires forall i :: 0 <= i < |c| ==> c[i] in elems && c[i] in placed
    requires forall b, i :: 0 <= b < |chains| && 0 <= i < |chains[b]| ==> chains[b][i] in placed && chains[b][i] !in c
    modifies bkts, placed`hhNext, placed`hhPrev
    ensures BktsOk(bkts, r, elems)
    ensures forall b, i :: 0 <= b < |r| && 0 <= i < |r[b]| ==> r[b][i] in placed
    ensures forall b, x :: 0 <= b < |r| && x in chains[b] ==> x in r[b]
    ensures forall i :: 0 <= i < |c| ==> Placed(c[i], r)
  {
    hide ChainOk, BktOk;
    r := chains;
    nonideal := 0;
    var thh := start;
    ghost var k := 0;
    while thh != null
      invariant 0 <= k <= |c| && thh == At(c, k)
      invariant BktsOk(bkts, r, elems) && |r| == |chains|
      invariant forall i {:trigger c[i].hhNext} :: k <= i < |c| ==> c[i].hhNext == At(c, i + 1)
      invariant forall b, i :: 0 <= b < |r| && 0 <= i < |r[b]| ==> r[b][i] in placed && r[b][i] !in c[k..]
      invariant forall b, x :: 0 <= b < |r| && x in chains[b] ==> x in r[b]
      invariant forall i :: 0 <= i < k ==> Placed(c[i], r)
      decreases |c| - k
    {
      var nxt := thh.hhNext;
      assert c[k..][0] == thh;
      var over;
      ghost var q := r;
      over, r := PushExpanding(bkts, r, elems, thh, ideal);
      if over {
        nonideal := nonideal + 1;
      }
      forall i | 0 <= i < k
        ensures Placed(c[i], r)
      {
        assert Placed(c[i], q);
      }
      thh := nxt;
      k := k + 1;
    }
  }

  /** The old buckets from `i` on are still sound. */
  ghost predicate OldLeft(bkts: array<Bucket>, chains: seq<seq<Elem>>, i: nat, elems: set<Elem>)
    reads bkts, elems`hhNext, elems`hhPrev, elems`hashv
  {
    && |chains| == bkts.Length > 0
    && (forall j :: i <= j < |chains| ==> BktOk(bkts[j], chains[j], j, bkts.Length, elems))
  }

  /** The new chains hold exactly the elements of the old buckets before `i`. */
  ghost predicate Moved(r: seq<seq<Elem>>, order: seq<Elem>, elems: set<Elem>, n: nat, i: nat)
    requires n > 0 && |r| > 0
    reads order`hashv, elems`hashv
  {
    && (forall b, m :: 0 <= b < |r| && 0 <= m < |r[b]| ==> r[b][m] in elems && ToBkt(r[b][m].hashv, n) < i)
    && (forall m :: 0 <= m < |order| && ToBkt(order[m].hashv, n) < i ==> Placed(order[m], r))
  }

  lemma NoneMoved(r: seq<seq<Elem>>, order: seq<Elem>, elems: set<Elem>, n: nat)
    requires n > 0 && |r| > 0 && forall b :: 0 <= b < |r| ==> r[b] == []
    ensures Moved(r, order, elems, n, 0)
  {}

  lemma AllMoved(r: seq<seq<Elem>>, order: seq<Elem>, elems: set<Elem>, n: nat)
    requires n > 0 && |r| > 0 && Moved(r, order, elems, n, n)
    ensures forall m :: 0 <= m < |order| ==> Placed(order[m], r)
  {}

  /** The body of the outer loop of `HASH_EXPAND_BUCKETS`. */
  method ExpandOne(bkts: array<Bucket>, ghost chains: seq<seq<Elem>>, newBkts: array<Bucket>, ghost was: seq<seq<Elem>>,
                   ghost elems: set<Elem>, ghost order: seq<Elem>, i: nat, ideal: nat)
    returns (nonideal: nat, ghost r: seq<seq<Elem>>)
    requires i < bkts.Length && bkts != newBkts && OldLeft(bkts, chains, i, elems)
    requires BktsOk(newBkts, was, elems) && Moved(was, order, elems, bkts.Length, i)
    requires forall m :: 0 <= m < |order| ==> order[m] in elems && Placed(order[m], chains)
    modifies newBkts, elems`hhNext, elems`hhPrev
    ensures |r| == |was| && BktsOk(newBkts, r, elems) && OldLeft(bkts, chains, i + 1, elems)
    ensures Moved(r, order, elems, bkts.Length, i + 1)
  {
    hide ChainOk;
    var n := bkts.Length;
    ghost var placed := set e | e in elems && ToBkt(e.hashv, n) <= i;
    ghost var c := chains[i];
    assert BktOk(bkts[i], c, i, n, elems);
    HeadOfChain(bkts[i], c);
    forall j, m | i < j < |chains| && 0 <= m < |chains[j]|
      ensures chains[j][m] !in placed
    {
      assert BktOk(bkts[j], chains[j], j, n, elems);
    }
    nonideal, r := MoveChain(newBkts, was, elems, placed, bkts[i].hhHead, c, ideal);
    forall j | i < j < |chains|
      ensures BktOk(bkts[j], chains[j], j, n, elems)
    {
      assert old(BktOk(bkts[j], chains[j], j, bkts.Length, elems));
    }
    MovedOne(was, r, order, elems, chains, n, i);
  }

  lemma MovedOne(was: seq<seq<Elem>>, r: seq<seq<Elem>>, order: seq<Elem>, elems: set<Elem>, chains: seq<seq<Elem>>, n: nat, i: nat)
    requires i < n == |chains| && |r| == |was| > 0 && Moved(was, order, elems, n, i)
    requires forall m :: 0 <= m < |order| ==> order[m] in elems && Placed(order[m], chains)
    requires forall b, m :: 0 <= b < |r| && 0 <= m < |r[b]| ==> r[b][m] in elems && ToBkt(r[b][m].hashv, n) <= i
    requires forall b, x :: 0 <= b < |r| && x in was[b] ==> x in r[b]
    requires forall m :: 0 <= m < |chains[i]| ==> chains[i][m] in elems && Placed(chains[i][m], r)
    ensures Moved(r, order, elems, n, i + 1)
  {
    forall m | 0 <= m < |order| && ToBkt(order[m].hashv, n) < i + 1
      ensures Placed(order[m], r)
    {
      if ToBkt(order[m].hashv, n) < i {
        assert Placed(order[m], was);
      } else {
        assert Placed(order[m], chains);
      }
    }
  }

  lemma AllLeft(bkts: array<Bucket>, chains: seq<seq<Elem>>, elems: set<Elem>)
    requires BktsOk(bkts, chains, elems)
    ensures OldLeft(bkts, chains, 0, elems) && bkts.Length > 0
  {}

  /** The loops of `HASH_EXPAND_BUCKETS`. */
  method Redistribute(bkts: array<Bucket>, ghost chains: seq<seq<Elem>>, ghost elems: set<Elem>, ghost order: seq<Elem>, ideal: nat)
    returns (newBkts: array<Bucket>, nonideal: nat, ghost r: seq<seq<Elem>>)
    requires OldLeft(bkts, chains, 0, elems)
    requires forall m :: 0 <= m < |order| ==> order[m] in elems && Placed(order[m], chains)
    modifies elems`hhNext, elems`hhPrev
    ensures fresh(newBkts) && newBkts.Length == 2 * bkts.Length && BktsOk(newBkts, r, elems)
    ensures forall m :: 0 <= m < |order| ==> Placed(order[m], r)
  {
    hide ChainOk, BktOk, Moved;
    var n := bkts.Length;
    newBkts := new Bucket[2 * n](_ => Bucket(null, 0, 0));
    r := seq(2 * n, _ => []);
    EmptyBkts(newBkts, r, elems);
    NoneMoved(r, order, elems, n);
    nonideal := 0;
    for i := 0 to n
      invariant |r| == 2 * n && BktsOk(newBkts, r, elems)
      invariant OldLeft(bkts, chains, i, elems)
      invariant Moved(r, order, elems, n, i)
    {
      var over;
      over, r := ExpandOne(bkts, chains, newBkts, r, elems, order, i, ideal);
      nonideal := nonideal + over;
    }
    AllMoved(r, order, elems, n);
  }

  // ----- the table -----

  ghost predicate DistinctKeys(s: seq<Elem>) {
    forall i, j :: 0 <= i < j < |s| ==> s[i].key != s[j].key
  }

  ghost predicate IsPowerOfTwo(n: nat) {
    exists k: nat :: n == Pow(2, k)
  }

  lemma DoublePower(n: nat)
    requires IsPowerOfTwo(n)
    ensures IsPowerOfTwo(2 * n)
  {
    var k: nat :| n == Pow(2, k);
    assert Pow(2, k + 1) == 2 * n;
  }

  lemma FirstPower()
    ensures IsPowerOfTwo(INITIAL_NUM_BUCKETS)
  {
    assert Pow(2, 5) == 32;
  }

  /** In a power of two of buckets the mask is a remainder, and every bucket is one some hash goes to. */
  lemma EveryBucketReached(numBkts: nat, hashv: nat)
    requires IsPowerOfTwo(numBkts)
    ensures numBkts > 0 && ToBkt(hashv, numBkts) == hashv % numBkts
    ensures hashv < numBkts ==> ToBkt(hashv, numBkts) == hashv
  {
    hide And;
    var k: nat :| numBkts == Pow(2, k);
    MaskIsRemainder(hashv, k);
    if hashv < numBkts {
      DivUnique(hashv, numBkts, 0, hashv);
    }
  }

  /** The counters that decide whether expansion still pays off. */
  datatype Growth = Growth(idealChainMaxlen: nat, nonidealItems: nat, ineffExpands: nat, noexpand: bool)

  class Table {
    const hashOf: seq<byte> -> nat
    var head: Elem?
    var tail: Elem?
    var buckets: array<Bucket>
    var numItems: nat
    var growth: Growth
    ghost var order: seq<Elem>
    ghost var chains: seq<seq<Elem>>

    /** Every element hashes as its key says and is in the chain of its bucket. */
    ghost predicate Hashed()
      reads this`chains, this`order, order`hashv
    {
      && |chains| > 0
      && (forall i :: 0 <= i < |order| ==> order[i].hashv == hashOf(order[i].key))
      && (forall i :: 0 <= i < |order| ==> Placed(order[i], chains))
    }

    /** The invariant `HASH_FSCK` checks, and that keys are unique and the buckets a power of two. An
        empty table has no buckets to speak of. */
    ghost predicate Valid()
      reads this, buckets, order
    {
      && head == At(order, 0)
      && (|order| > 0 ==>
            && tail == order[|order| - 1] && numItems == |order|
            && AppLinked(order) && DistinctKeys(order) && IsPowerOfTwo(buckets.Length)
            && BktsOk(buckets, chains, ElemsOf(order)) && Hashed())
    }

    constructor (hashOf: seq<byte> -> nat)
      ensures Valid() && order == [] && this.hashOf == hashOf
    {
      this.hashOf := hashOf;
      head, tail := null, null;
      buckets := new Bucket[0];
      numItems, growth := 0, Growth(0, 0, 0, false);
      order, chains := [], [];
    }

    /** `HASH_FIND`: finds the element with a key exactly when there is one. */
    method Find(key: seq<byte>) returns (out: Elem?)
      requires Valid()
      ensures out != null ==> out in order && out.key == key
      ensures out == null ==> forall i :: 0 <= i < |order| ==> order[i].key != key
    {
      out := null;
      if head == null {
        return;
      }
      var hashv := hashOf(key);
      var b := ToBkt(hashv, buckets.Length);
      ghost var c := chains[b];
      assert BktOk(buckets[b], c, b, buckets.Length, ElemsOf(order));
      out := buckets[b].hhHead;
      ghost var k := 0;
      while out != null && !(out.hashv == hashv && out.key == key)
        invariant 0 <= k <= |c| && out == At(c, k)
        invariant forall i :: 0 <= i < k ==> c[i].hashv != hashv || c[i].key != key
        decreases |c| - k
      {
        out := out.hhNext;
        k := k + 1;
      }
      if out == null {
        forall i | 0 <= i < |order|
          ensures order[i].key != key
        {
          assert Placed(order[i], chains);
        }
      }
    }

    /** The table's elements in new buckets; the application order is untouched. */
    method Rehash(ideal: nat) returns (newBkts: array<Bucket>, nonideal: nat, ghost r: seq<seq<Elem>>)
      requires Valid() && |order| > 0
      modifies order`hhNext, order`hhPrev
      ensures fresh(newBkts) && newBkts.Length == 2 * buckets.Length && BktsOk(newBkts, r, ElemsOf(order))
      ensures forall m :: 0 <= m < |order| ==> Placed(order[m], r)
      ensures AppLinked(order)
      ensures forall m :: 0 <= m < |order| ==> order[m].hashv == hashOf(order[m].key)
    {
      hide BktsOk, BktOk, ChainOk, NextLinked, PrevLinked, OldLeft, Moved, DistinctKeys, Distinct, At;
      AllLeft(buckets, chains, ElemsOf(order));
      newBkts, nonideal, r := Redistribute(buckets, chains, ElemsOf(order), order, ideal);
    }

    /** `HASH_EXPAND_BUCKETS`: doubles the buckets and redistributes every element; nothing in the
        application order changes. */
    method Expand()
      requires Valid() && |order| > 0
      modifies this`buckets, this`chains, this`growth, order`hhNext, order`hhPrev
      ensures Valid() && fresh(buckets) && buckets.Length == 2 * old(buckets.Length)
    {
      hide IsPowerOfTwo, DistinctKeys, ElemsOf, Distinct, At, ChainOk, BktOk, OldLeft, Placed, ToBkt;
      var n := buckets.Length;
      AllLeft(buckets, chains, ElemsOf(order));
      var ideal := numItems / (2 * n) + if numItems % (2 * n) != 0 then 1 else 0;
      var newBkts, nonideal;
      ghost var r;
      newBkts, nonideal, r := Rehash(ideal);
      DoublePower(n);
      var ineff := if nonideal > numItems / 2 then growth.ineffExpands + 1 else 0;
      growth := Growth(ideal, nonideal, ineff, growth.noexpand || ineff > 1);
      Install(newBkts, r);
    }

    /** Puts the new buckets in the place of the old ones. */
    method Install(newBkts: array<Bucket>, ghost r: seq<seq<Elem>>)
      requires |order| > 0 && head == At(order, 0) && tail == order[|order| - 1] && numItems == |order|
      requires AppLinked(order) && DistinctKeys(order) && BktsOk(newBkts, r, ElemsOf(order)) && IsPowerOfTwo(newBkts.Length)
      requires forall m :: 0 <= m < |order| ==> Placed(order[m], r)
      requires forall m :: 0 <= m < |order| ==> order[m].hashv == hashOf(order[m].key)
      modifies this`buckets, this`chains
      ensures Valid() && buckets == newBkts && chains == r
    {
      hide IsPowerOfTwo, DistinctKeys, ElemsOf, Distinct, At, BktOk;
      buckets := newBkts;
      chains := r;
    }

    /** `e` is the last of the application order, after `was`; no bucket holds it yet. */
    ghost predicate Linked(e: Elem, was: seq<Elem>)
      reads this, buckets, order, was
    {
      && order == was + [e] && head == At(order, 0) && tail == e && numItems == |was|
      && AppLinked(order) && |chains| > 0 && BktsOk(buckets, chains, ElemsOf(was)) && IsPowerOfTwo(buckets.Length)
      && (forall m :: 0 <= m < |order| ==> order[m].hashv == hashOf(order[m].key))
      && (forall m :: 0 <= m < |was| ==> Placed(was[m], chains))
    }

    /** `HASH_MAKE_TABLE`, for the first element. */
    method MakeTable(e: Elem)
      modifies this, e`next, e`prev, e`hashv
      ensures Linked(e, []) && fresh(buckets)
    {
      hide BktsOk, BktOk, AppLinked, IsPowerOfTwo, Distinct, ElemsOf;
      e.hashv := hashOf(e.key);
      e.next := null;
      e.prev := null;
      head, tail := e, e;
      numItems := 0;
      growth := Growth(0, 0, 0, false);
      buckets := new Bucket[INITIAL_NUM_BUCKETS](_ => Bucket(null, 0, 0));
      chains := seq(INITIAL_NUM_BUCKETS, _ => []);
      order := [e];
      EmptyBkts(buckets, chains, ElemsOf([]));
      FirstPower();
      SingleLinked(e);
    }

    /** `HASH_MAKE_TABLE` or `HASH_APPEND_LIST`: the element becomes the last of the application
        order. */
    method LinkElem(e: Elem)
      requires Valid() && e !in order
      modifies this, e`next, e`prev, e`hashv, order`next
      ensures Linked(e, old(order)) && (buckets == old(buckets) || fresh(buckets))
    {
      hide BktOk, ChainOk, Distinct, DistinctKeys;
      if head == null {
        MakeTable(e);
      } else {
        e.hashv := hashOf(e.key);
        AppendList(order, tail, e);
        tail := e;
        order := order + [e];
      }
    }

    /** `HASH_ADD_TO_TABLE`: counts the element, puts it in its bucket and expands when the bucket has
        grown past its threshold. */
    method AddToTable(e: Elem)
      requires |order| > 0 && Linked(e, order[..|order| - 1]) && DistinctKeys(order)
      modifies this`buckets, this`chains, this`growth, this`numItems, buckets, order`hhNext, order`hhPrev
      ensures Valid()
      ensures buckets == old(buckets) || fresh(buckets)
    {
      hide IsPowerOfTwo, DistinctKeys, BktsOk, BktOk, ChainOk, AppLinked, At;
      var long := PushLast(e);
      Install(buckets, chains);
      if long && !growth.noexpand {
        Expand();
      }
    }

    /** `HASH_ADD_TO_TABLE` up to the expansion; tells whether the bucket has outgrown its threshold. */
    method PushLast(e: Elem) returns (long: bool)
      requires |order| > 0 && Linked(e, order[..|order| - 1])
      modifies this`chains, this`numItems, buckets, order`hhNext, order`hhPrev
      ensures numItems == |order| && BktsOk(buckets, chains, ElemsOf(order))
      ensures |chains| > 0 && forall m :: 0 <= m < |order| ==> Placed(order[m], chains)
    {
      hide IsPowerOfTwo, DistinctKeys, ChainOk, AppLinked, At;
      ghost var elems := ElemsOf(order);
      LastUnplaced(buckets, chains, order);
      LargerElems(buckets, chains, order);
      var b := ToBkt(e.hashv, buckets.Length);
      ghost var c := chains[b];
      numItems := numItems + 1;
      PushBkt(buckets, chains, elems, e, b);
      ghost var r := chains[b := [e] + c];
      forall m | 0 <= m < |order|
        ensures Placed(order[m], r)
      {
        assert m < |order| - 1 ==> Placed(order[m], chains);
      }
      chains := r;
      long := buckets[b].count >= (buckets[b].expandMult + 1) * BKT_CAPACITY_THRESH;
    }

    /** `HASH_ADD`: the new element, whose key is not in the table, becomes the last one. */
    method Add(e: Elem)
      requires Valid() && e !in order && forall i :: 0 <= i < |order| ==> order[i].key != e.key
      modifies this, buckets, e, order
      ensures Valid() && order == old(order) + [e]
      ensures buckets == old(buckets) || fresh(buckets)
    {
      hide BktsOk, AppLinked;
      LinkElem(e);
      assert order[..|order| - 1] == old(order);
      AddToTable(e);
    }

    /** `HASH_SRT`: the application order becomes its stable sorting; the buckets stay as they are. */
    method Sort(cmp: (Elem, Elem) -> int)
      requires Valid() && |order| < 0x1_0000_0000 && MergeSort.TotalPreorder(cmp, ElemsOf(order))
      modifies this`head, this`tail, this`order, this`buckets, this`chains, order`next, order`prev
      ensures Valid() && MergeSort.StablySorted(cmp, ElemsOf(old(order)), old(order), order)
      ensures buckets == old(buckets) && chains == old(chains)
    {
      hide IsPowerOfTwo, DistinctKeys, BktsOk, MergeSort.StablySorted, MergeSort.TotalPreorder, Placed;
      if head == null {
        MergeSort.EmptySorted(cmp, order);
        return;
      }
      ghost var s, out := order, order;
      head, tail, out := MergeSort.Sort(cmp, s, head);
      SortedTable(cmp, s, out, chains, hashOf);
      order := out;
      Install(buckets, chains);
    }

    /** `HASH_DELETE`: takes exactly this element out. */
    method Delete(e: Elem, ghost k: nat)
      requires Valid() && k < |order| && order[k] == e
      modifies this, buckets, order
      ensures Valid() && order == Without(old(order), k)
      ensures buckets == old(buckets)
    {
      hide IsPowerOfTwo, DistinctKeys, ChainOk, BktsOk, Without;
      if e.prev == null && e.next == null {
        head := null;
        order := Without(order, k);
        return;
      }
      UnlinkElem(e, k);
      DelFromTable(e, k, Without(order, k));
      DropFromOrder(k);
    }

    /** Forgets an element that no list and no bucket holds any more. */
    ghost method DropFromOrder(k: nat)
      requires k < |order| && |order| > 1 && numItems == |order| - 1
      requires AppLinked(Without(order, k)) && DistinctKeys(order) && BktsOk(buckets, chains, ElemsOf(order))
      requires head == Without(order, k)[0] && tail == Without(order, k)[|order| - 2] && IsPowerOfTwo(buckets.Length)
      requires |chains| > 0 && forall b, i :: 0 <= b < |chains| && 0 <= i < |chains[b]| ==> chains[b][i] != order[k]
      requires forall i :: 0 <= i < |order| && order[i] != order[k] ==> Placed(order[i], chains)
      requires forall i :: 0 <= i < |order| ==> order[i].hashv == hashOf(order[i].key)
      modifies this`order
      ensures Valid() && order == Without(old(order), k)
    {
      hide IsPowerOfTwo, DistinctKeys, BktsOk, Without, Placed, AppLinked;
      OnlyOthers(buckets, chains, order, k, hashOf);
      WithoutDistinctKeys(order, k);
      order := Without(order, k);
    }

    /** The application-order part of `HASH_DELETE_HH`, for an element that is not alone. */
    method UnlinkElem(e: Elem, ghost k: nat)
      requires Valid() && k < |order| && order[k] == e && (e.prev != null || e.next != null)
      modifies this`head, this`tail, order`next, order`prev
      ensures |order| > 1 && AppLinked(Without(order, k))
      ensures head == Without(order, k)[0] && tail == Without(order, k)[|order| - 2]
      ensures numItems == |order| && DistinctKeys(order) && BktsOk(buckets, chains, ElemsOf(order)) && Hashed()
      ensures IsPowerOfTwo(buckets.Length)
    {
      hide IsPowerOfTwo, DistinctKeys, ChainOk, BktsOk, Without;
      if e == tail {
        tail := e.prev;
      }
      if e.prev == null {
        head := e.next;
      }
      WithoutEnds(order, k);
      UnlinkList(order, e, k);
    }

    /** The bucket part of `HASH_DELETE_HH`. */
    method DelFromTable(e: Elem, ghost k: nat, ghost rest: seq<Elem>)
      requires |order| > 0 && numItems == |order| && k < |order| && order[k] == e
      requires BktsOk(buckets, chains, ElemsOf(order)) && Hashed() && AppLinked(rest)
      modifies this`chains, this`numItems, buckets, order`hhNext, order`hhPrev
      ensures AppLinked(rest)
      ensures numItems == |order| - 1 && BktsOk(buckets, chains, ElemsOf(order)) && |chains| > 0
      ensures forall b, i :: 0 <= b < |chains| && 0 <= i < |chains[b]| ==> chains[b][i] != e
      ensures forall i :: 0 <= i < |order| && order[i] != e ==> Placed(order[i], chains)
    {
      hide ChainOk, DistinctKeys, AppLinked, At;
      var b := ToBkt(e.hashv, buckets.Length);
      assert Placed(order[k], chains);
      ghost var j :| 0 <= j < |chains[b]| && chains[b][j] == e;
      ghost var c := chains[b];
      OneBucket(buckets, chains, ElemsOf(order), b, j);
      DelInBkt(buckets, chains, ElemsOf(order), e, b, j);
      ghost var r := chains[b := Without(c, j)];
      forall i | 0 <= i < |order| && order[i] != e
        ensures Placed(order[i], r)
      {
        assert Placed(order[i], chains);
        WithoutKeeps(c, j, order[i]);
      }
      chains := r;
      numItems := numItems - 1;
    }
  }

  /** A sorting has the same elements, so what held of each of them still does. */
  lemma SortedTable(cmp: (Elem, Elem) -> int, s: seq<Elem>, out: seq<Elem>, chains: seq<seq<Elem>>, hashOf: seq<byte> -> nat)
    requires MergeSort.StablySorted(cmp, ElemsOf(s), s, out) && AppLinked(out) && DistinctKeys(s) && |chains| > 0
    requires forall i :: 0 <= i < |s| ==> s[i].hashv == hashOf(s[i].key) && Placed(s[i], chains)
    ensures |out| == |s| && ElemsOf(out) == ElemsOf(s) && DistinctKeys(out)
    ensures forall i :: 0 <= i < |out| ==> out[i].hashv == hashOf(out[i].key) && Placed(out[i], chains)
  {
    hide Placed;
    assert |multiset(out)| == |multiset(s)|;
    assert forall e :: e in out <==> e in multiset(out);
    assert forall e :: e in s <==> e in multiset(s);
    forall i | 0 <= i < |out|
      ensures out[i] in s && out[i].hashv == hashOf(out[i].key) && Placed(out[i], chains)
    {
      assert out[i] in multiset(out);
      assert out[i] in s;
    }
    forall i, j | 0 <= i < j < |out|
      ensures out[i].key != out[j].key
    {
      assert out[i] in s && out[j] in s && out[i] != out[j];
    }
  }

  lemma WithoutKeeps<T>(c: seq<T>, k: nat, x: T)
    requires k < |c| && x != c[k]
    ensures x in c ==> x in Without(c, k)
  {
    if x in c {
      var i :| 0 <= i < |c| && c[i] == x;
      assert Without(c, k)[if i < k then i else i - 1] == x;
    }
  }

  /** The first and the last element of a list of at least two once one is taken out. */
  lemma WithoutEnds<T>(s: seq<T>, k: nat)
    requires k < |s| && |s| > 1
    ensures Without(s, k)[0] == s[if k == 0 then 1 else 0]
    ensures Without(s, k)[|s| - 2] == s[if k == |s| - 1 then |s| - 2 else |s| - 1]
  {}

  lemma WithoutDistinctKeys(s: seq<Elem>, k: nat)
    requires DistinctKeys(s) && k < |s|
    ensures DistinctKeys(Without(s, k))
  {
    forall i | 0 <= i < |s| - 1
      ensures Without(s, k)[i] == s[if i < k then i else i + 1]
    {}
  }

  /** An element is in one chain only, and only once. */
  lemma OneBucket(bkts: array<Bucket>, chains: seq<seq<Elem>>, elems: set<Elem>, b: nat, j: nat)
    requires BktsOk(bkts, chains, elems) && b < |chains| && j < |chains[b]|
    ensures chains[b][j] !in Without(chains[b], j)
    ensures forall d, i :: 0 <= d < |chains| && d != b && 0 <= i < |chains[d]| ==> chains[d][i] != chains[b][j]
  {
    hide NextLinked, PrevLinked;
    assert BktOk(bkts[b], chains[b], b, bkts.Length, elems);
    DistinctWithout(chains[b], j);
    forall d, i | 0 <= d < |chains| && d != b && 0 <= i < |chains[d]|
      ensures chains[d][i] != chains[b][j]
    {
      assert BktOk(bkts[d], chains[d], d, bkts.Length, elems);
    }
  }

  /** With its element in no chain any more, a table is one over the other elements. */
  lemma OnlyOthers(bkts: array<Bucket>, chains: seq<seq<Elem>>, order: seq<Elem>, k: nat, hashOf: seq<byte> -> nat)
    requires k < |order| && BktsOk(bkts, chains, ElemsOf(order))
    requires forall b, i :: 0 <= b < |chains| && 0 <= i < |chains[b]| ==> chains[b][i] != order[k]
    requires forall i :: 0 <= i < |order| && order[i] != order[k] ==> Placed(order[i], chains)
    requires forall i :: 0 <= i < |order| ==> order[i].hashv == hashOf(order[i].key)
    requires DistinctKeys(order)
    ensures BktsOk(bkts, chains, ElemsOf(Without(order, k)))
    ensures forall i :: 0 <= i < |order| - 1 ==> Placed(Without(order, k)[i], chains)
    ensures forall i :: 0 <= i < |order| - 1 ==> Without(order, k)[i].hashv == hashOf(Without(order, k)[i].key)
  {
    hide ChainOk, AppLinked;
    var w := Without(order, k);
    forall b | 0 <= b < |chains|
      ensures BktOk(bkts[b], chains[b], b, bkts.Length, ElemsOf(w))
    {
      assert BktOk(bkts[b], chains[b], b, bkts.Length, ElemsOf(order));
      forall i | 0 <= i < |chains[b]|
        ensures chains[b][i] in w
      {
        WithoutKeeps(order, k, chains[b][i]);
      }
    }
    forall i | 0 <= i < |w|
      ensures Placed(w[i], chains) && w[i].hashv == hashOf(w[i].key)
    {
      WithoutAt(order, k, i);
    }
  }

  /** The newest element is in no chain yet. */
  lemma LastUnplaced(bkts: array<Bucket>, chains: seq<seq<Elem>>, order: seq<Elem>)
    requires |order| > 0 && BktsOk(bkts, chains, ElemsOf(order[..|order| - 1])) && AppLinked(order)
    ensures forall b :: 0 <= b < |chains| ==> order[|order| - 1] !in chains[b]
  {
    hide ChainOk;
    forall b | 0 <= b < |chains|
      ensures order[|order| - 1] !in chains[b]
    {
      assert BktOk(bkts[b], chains[b], b, bkts.Length, ElemsOf(order[..|order| - 1]));
    }
  }

  lemma LargerElems(bkts: array<Bucket>, chains: seq<seq<Elem>>, order: seq<Elem>)
    requires |order| > 0 && BktsOk(bkts, chains, ElemsOf(order[..|order| - 1]))
    ensures BktsOk(bkts, chains, ElemsOf(order))
  {
    hide ChainOk;
    forall b | 0 <= b < |chains|
      ensures BktOk(bkts[b], chains[b], b, bkts.Length, ElemsOf(order))
    {
      assert BktOk(bkts[b], chains[b], b, bkts.Length, ElemsOf(order[..|order| - 1]));
    }
  }

  lemma SingleLinked(e: Elem)
    requires e.next == null && e.prev == null
    ensures AppLinked([e])
  {}

  lemma EmptyBkts(bkts: array<Bucket>, chains: seq<seq<Elem>>, elems: set<Elem>)
    requires bkts.Length > 0 && chains == seq(bkts.Length, _ => [])
    requires forall b :: 0 <= b < bkts.Length ==> bkts[b] == Bucket(null, 0, 0)
    ensures BktsOk(bkts, chains, elems)
  {}

  lemma HeadOfChain(bkt: Bucket, c: seq<Elem>)
    requires ChainOk(bkt, c)
    ensures Distinct(c) && NextLinked(c) && bkt.hhHead == At(c, 0)
  {}

  // ----- the counts -----

  function CountSum(bkts: seq<Bucket>): (n: nat) {
    if bkts == [] then 0 else CountSum(bkts[..|bkts| - 1]) + bkts[|bkts| - 1].count
  }

  lemma {:induction false} DistinctCard<T>(s: seq<T>)
    requires Distinct(s)
    ensures |set e | e in s| == |s|
    decreases |s|
  {
    if s != [] {
      var front, last := s[..|s| - 1], s[|s| - 1];
      DistinctCard(front);
      assert (set e | e in s) == (set e | e in front) + {last};
    }
  }

  /** The elements whose bucket comes before bucket `i` of `n`. */
  ghost function Below(order: seq<Elem>, n: nat, i: nat): set<Elem>
    requires n > 0
    reads order`hashv
  {
    set e | e in order && ToBkt(e.hashv, n) < i
  }

  /** The bucket counts add up to the number of elements, as `HASH_FSCK` checks. */
  lemma CountsAddUp(t: Table)
    requires t.Valid() && |t.order| > 0
    ensures CountSum(t.buckets[..]) == t.numItems
  {
    var n := t.buckets.Length;
    assert t.buckets[..n] == t.buckets[..];
    CountsBelow(t.buckets, t.chains, t.order, n);
    DistinctCard(t.order);
    assert Below(t.order, n, n) == (set e | e in t.order);
  }

  lemma {:induction false} CountsBelow(bkts: array<Bucket>, chains: seq<seq<Elem>>, order: seq<Elem>, i: nat)
    requires BktsOk(bkts, chains, ElemsOf(order)) && i <= bkts.Length
    requires forall m :: 0 <= m < |order| ==> Placed(order[m], chains)
    ensures CountSum(bkts[..i]) == |Below(order, bkts.Length, i)|
    decreases i
  {
    if i == 0 {
      assert Below(order, bkts.Length, 0) == {};
    } else {
      hide BktOk, Below;
      CountsBelow(bkts, chains, order, i - 1);
      OneMoreBucket(bkts, chains, order, i - 1);
      assert bkts[..i][..i - 1] == bkts[..i - 1];
    }
  }

  lemma OneMoreBucket(bkts: array<Bucket>, chains: seq<seq<Elem>>, order: seq<Elem>, i: nat)
    requires BktsOk(bkts, chains, ElemsOf(order)) && i < bkts.Length
    requires forall m :: 0 <= m < |order| ==> Placed(order[m], chains)
    ensures |Below(order, bkts.Length, i + 1)| == |Below(order, bkts.Length, i)| + bkts[i].count
  {
    hide NextLinked, PrevLinked, ToBkt;
    var n, c := bkts.Length, chains[i];
    assert BktOk(bkts[i], c, i, n, ElemsOf(order));
    DistinctCard(c);
    var here := set e | e in c;
    forall e | e in order && ToBkt(e.hashv, n) == i
      ensures e in c
    {
      assert Placed(e, chains);
    }
    assert Below(order, n, i + 1) == Below(order, n, i) + here;
    assert Below(order, n, i) !! here;
  }
}
