/** The bottom-up merge sort of uthash.h, which relinks the application-order list in place. */
module MergeSort {
  import opened Sequences
  import opened Elements

  // ----- what it computes -----

  /** `cmp` compares the elements of `dom` as a total preorder; ties are allowed. */
  ghost predicate TotalPreorder<T>(cmp: (T, T) -> int, dom: set<T>) {
    && (forall x, y :: x in dom && y in dom ==> cmp(x, y) <= 0 || cmp(y, x) <= 0)
    && (forall x, y, z :: x in dom && y in dom && z in dom && cmp(x, y) <= 0 && cmp(y, z) <= 0 ==> cmp(x, z) <= 0)
  }

  ghost predicate Over<T>(s: seq<T>, dom: set<T>) {
    forall i :: 0 <= i < |s| ==> s[i] in dom
  }

  ghost predicate Sorted<T>(cmp: (T, T) -> int, s: seq<T>) {
    forall i, j :: 0 <= i < j < |s| ==> cmp(s[i], s[j]) <= 0
  }

  /** The elements of `s` that tie with `x`, in the order of `s`. */
  ghost function Ties<T>(cmp: (T, T) -> int, s: seq<T>, x: T): (r: seq<T>) {
    if s == [] then []
    else (if cmp(s[0], x) <= 0 && cmp(x, s[0]) <= 0 then [s[0]] else []) + Ties(cmp, s[1..], x)
  }

  /** `out` is the stable sorting of `s`: sorted, the same elements, and ties in their old order. */
  ghost predicate StablySorted<T>(cmp: (T, T) -> int, dom: set<T>, s: seq<T>, out: seq<T>) {
    && Sorted(cmp, out) && multiset(out) == multiset(s)
    && (forall x :: x in dom ==> Ties(cmp, out, x) == Ties(cmp, s, x))
  }

  ghost function Merge<T>(cmp: (T, T) -> int, a: seq<T>, b: seq<T>): (r: seq<T>)
    ensures |r| == |a| + |b|
    decreases |a| + |b|
  {
    if a == [] then b
    else if b == [] then a
    else if cmp(a[0], b[0]) <= 0 then [a[0]] + Merge(cmp, a[1..], b)
    else [b[0]] + Merge(cmp, a, b[1..])
  }

  function Min(a: nat, b: nat): (r: nat) {
    if a < b then a else b
  }

  /** One pass: neighbouring runs of `n` are merged two by two. */
  ghost function MergePass<T>(cmp: (T, T) -> int, s: seq<T>, n: nat): (r: seq<T>)
    requires n > 0
    ensures |r| == |s|
    decreases |s|
  {
    if s == [] then []
    else
      var m, e := Min(n, |s|), Min(2 * n, |s|);
      Merge(cmp, s[..m], s[m..e]) + MergePass(cmp, s[e..], n)
  }

  /** Every run of `n` is sorted. */
  ghost predicate SortedRuns<T>(cmp: (T, T) -> int, s: seq<T>, n: nat)
    requires n > 0
    decreases |s|
  {
    s == [] || (Sorted(cmp, s[..Min(n, |s|)]) && SortedRuns(cmp, s[Min(n, |s|)..], n))
  }

  // ----- why that sorts -----

  lemma HeadAndTail<T>(a: seq<T>)
    requires a != []
    ensures multiset(a) == multiset([a[0]]) + multiset(a[1..])
  {
    assert a == [a[0]] + a[1..];
  }

  lemma {:induction false} MergeKeepsElements<T>(cmp: (T, T) -> int, a: seq<T>, b: seq<T>)
    ensures multiset(Merge(cmp, a, b)) == multiset(a) + multiset(b)
    decreases |a| + |b|
  {
    if a != [] && b != [] {
      if cmp(a[0], b[0]) <= 0 {
        MergeKeepsElements(cmp, a[1..], b);
        HeadAndTail(a);
      } else {
        MergeKeepsElements(cmp, a, b[1..]);
        HeadAndTail(b);
      }
    }
  }

  lemma MergeMember<T>(cmp: (T, T) -> int, a: seq<T>, b: seq<T>, i: nat)
    requires i < |a| + |b|
    ensures Merge(cmp, a, b)[i] in a || Merge(cmp, a, b)[i] in b
  {
    MergeKeepsElements(cmp, a, b);
    var x := Merge(cmp, a, b)[i];
    assert x in multiset(Merge(cmp, a, b));
  }

  lemma {:induction false} MergeSorts<T>(cmp: (T, T) -> int, dom: set<T>, a: seq<T>, b: seq<T>)
    requires TotalPreorder(cmp, dom) && Over(a, dom) && Over(b, dom) && Sorted(cmp, a) && Sorted(cmp, b)
    ensures Sorted(cmp, Merge(cmp, a, b)) && Over(Merge(cmp, a, b), dom)
    decreases |a| + |b|
  {
    if a != [] && b != [] {
      if cmp(a[0], b[0]) <= 0 {
        MergeSorts(cmp, dom, a[1..], b);
        forall i | 0 <= i < |a| + |b| - 1
          ensures cmp(a[0], Merge(cmp, a[1..], b)[i]) <= 0
        {
          MergeMember(cmp, a[1..], b, i);
        }
      } else {
        MergeSorts(cmp, dom, a, b[1..]);
        forall i | 0 <= i < |a| + |b| - 1
          ensures cmp(b[0], Merge(cmp, a, b[1..])[i]) <= 0
        {
          MergeMember(cmp, a, b[1..], i);
        }
      }
    }
  }

  lemma {:induction false} TiesConcat<T>(cmp: (T, T) -> int, a: seq<T>, b: seq<T>, x: T)
    ensures Ties(cmp, a + b, x) == Ties(cmp, a, x) + Ties(cmp, b, x)
    decreases |a|
  {
    if a == [] {
      assert a + b == b;
    } else {
      TiesConcat(cmp, a[1..], b, x);
      assert (a + b)[1..] == a[1..] + b;
      ConcatAssociative(if cmp(a[0], x) <= 0 && cmp(x, a[0]) <= 0 then [a[0]] else [], Ties(cmp, a[1..], x), Ties(cmp, b, x));
    }
  }

  lemma {:induction false} NoTies<T>(cmp: (T, T) -> int, s: seq<T>, x: T)
    requires forall i :: 0 <= i < |s| ==> cmp(s[i], x) > 0
    ensures Ties(cmp, s, x) == []
    decreases |s|
  {
    if s != [] {
      NoTies(cmp, s[1..], x);
    }
  }

  /** If `b` goes before the first of a sorted run, nothing of the run ties with what `b` ties with. */
  lemma NoneTie<T>(cmp: (T, T) -> int, dom: set<T>, a: seq<T>, b: T, x: T)
    requires TotalPreorder(cmp, dom) && Over(a, dom) && Sorted(cmp, a) && x in dom && b in dom
    requires a != [] && cmp(a[0], b) > 0 && cmp(x, b) <= 0
    ensures Ties(cmp, a, x) == []
  {
    forall i | 0 <= i < |a|
      ensures cmp(a[i], x) > 0
    {
      assert cmp(a[0], x) > 0;
      assert i > 0 ==> cmp(a[0], a[i]) <= 0;
    }
    NoTies(cmp, a, x);
  }

  lemma TailSorted<T>(cmp: (T, T) -> int, dom: set<T>, a: seq<T>)
    requires a != [] && Over(a, dom)
    ensures Over(a[1..], dom) && a[0] in dom && (Sorted(cmp, a) ==> Sorted(cmp, a[1..]))
  {}

  /** Merging keeps ties in order, those of `a` before those of `b`. */
  lemma {:induction false} MergeIsStable<T>(cmp: (T, T) -> int, dom: set<T>, a: seq<T>, b: seq<T>, x: T)
    requires TotalPreorder(cmp, dom) && Over(a, dom) && Over(b, dom) && Sorted(cmp, a) && x in dom
    ensures Ties(cmp, Merge(cmp, a, b), x) == Ties(cmp, a, x) + Ties(cmp, b, x)
    decreases |a| + |b|
  {
    hide TotalPreorder, Over, Sorted, Ties, Merge;
    if a == [] || b == [] {
      MergeNothing(cmp, a, b, x);
    } else {
      TailSorted(cmp, dom, a);
      TailSorted(cmp, dom, b);
      MergeFirst(cmp, a, b);
      TiesFirst(cmp, a, x);
      TiesFirst(cmp, b, x);
      if cmp(a[0], b[0]) <= 0 {
        MergeIsStable(cmp, dom, a[1..], b, x);
        TiesConcat(cmp, [a[0]], Merge(cmp, a[1..], b), x);
        ConcatAssociative(Ties(cmp, [a[0]], x), Ties(cmp, a[1..], x), Ties(cmp, b, x));
      } else {
        MergeIsStable(cmp, dom, a, b[1..], x);
        TiesConcat(cmp, [b[0]], Merge(cmp, a, b[1..]), x);
        OneTies(cmp, b[0], x);
        if Ties(cmp, [b[0]], x) != [] {
          NoneTie(cmp, dom, a, b[0], x);
        }
      }
    }
  }

  lemma MergeNothing<T>(cmp: (T, T) -> int, a: seq<T>, b: seq<T>, x: T)
    requires a == [] || b == []
    ensures Ties(cmp, Merge(cmp, a, b), x) == Ties(cmp, a, x) + Ties(cmp, b, x)
  {}

  lemma MergeFirst<T>(cmp: (T, T) -> int, a: seq<T>, b: seq<T>)
    requires a != [] && b != []
    ensures Merge(cmp, a, b) == if cmp(a[0], b[0]) <= 0 then [a[0]] + Merge(cmp, a[1..], b) else [b[0]] + Merge(cmp, a, b[1..])
  {}

  lemma TiesFirst<T>(cmp: (T, T) -> int, a: seq<T>, x: T)
    requires a != []
    ensures Ties(cmp, a, x) == Ties(cmp, [a[0]], x) + Ties(cmp, a[1..], x)
  {
    hide Ties;
    TiesConcat(cmp, [a[0]], a[1..], x);
    assert [a[0]] + a[1..] == a;
  }

  lemma OneTies<T>(cmp: (T, T) -> int, y: T, x: T)
    ensures Ties(cmp, [y], x) == if cmp(y, x) <= 0 && cmp(x, y) <= 0 then [y] else []
  {
    assert [y][1..] == [];
  }

  lemma {:induction false} PassKeepsElements<T>(cmp: (T, T) -> int, s: seq<T>, n: nat)
    requires n > 0
    ensures multiset(MergePass(cmp, s, n)) == multiset(s)
    decreases |s|
  {
    hide Merge;
    if s != [] {
      var m, e := Min(n, |s|), Min(2 * n, |s|);
      PassKeepsElements(cmp, s[e..], n);
      MergeKeepsElements(cmp, s[..m], s[m..e]);
      assert s == s[..m] + s[m..e] + s[e..];
    }
  }

  lemma {:induction false} PassIsStable<T>(cmp: (T, T) -> int, dom: set<T>, s: seq<T>, n: nat, x: T)
    requires TotalPreorder(cmp, dom) && Over(s, dom) && n > 0 && SortedRuns(cmp, s, n) && x in dom
    ensures Ties(cmp, MergePass(cmp, s, n), x) == Ties(cmp, s, x)
    decreases |s|
  {
    hide Merge, Ties, Sorted, SortedRuns, TotalPreorder;
    if s != [] {
      var m, e := Min(n, |s|), Min(2 * n, |s|);
      RunsSplit(cmp, s, n);
      PassIsStable(cmp, dom, s[e..], n, x);
      MergeIsStable(cmp, dom, s[..m], s[m..e], x);
      assert s == s[..m] + s[m..e] + s[e..];
      TiesConcat(cmp, Merge(cmp, s[..m], s[m..e]), MergePass(cmp, s[e..], n), x);
      TiesConcat(cmp, s[..m] + s[m..e], s[e..], x);
      TiesConcat(cmp, s[..m], s[m..e], x);
    } else {
      assert MergePass(cmp, s, n) == s;
    }
  }

  lemma RunsSplit<T>(cmp: (T, T) -> int, s: seq<T>, n: nat)
    requires n > 0 && s != [] && SortedRuns(cmp, s, n)
    ensures Sorted(cmp, s[..Min(n, |s|)]) && Sorted(cmp, s[Min(n, |s|)..Min(2 * n, |s|)])
    ensures SortedRuns(cmp, s[Min(2 * n, |s|)..], n)
  {
    hide Sorted;
    var m, e := Min(n, |s|), Min(2 * n, |s|);
    if m < |s| {
      assert s[m..][..Min(n, |s| - m)] == s[m..e];
      assert s[m..][Min(n, |s| - m)..] == s[e..];
    } else {
      assert s[m..e] == s[m..] == s[e..] == [];
      NothingSorted(cmp, s[m..e]);
    }
  }

  lemma NothingSorted<T>(cmp: (T, T) -> int, s: seq<T>)
    requires s == []
    ensures Sorted(cmp, s)
  {}

  /** A pass doubles the length of the sorted runs. */
  lemma {:induction false} PassDoublesRuns<T>(cmp: (T, T) -> int, dom: set<T>, s: seq<T>, n: nat)
    requires TotalPreorder(cmp, dom) && Over(s, dom) && n > 0 && SortedRuns(cmp, s, n)
    ensures SortedRuns(cmp, MergePass(cmp, s, n), 2 * n)
    decreases |s|
  {
    hide Merge, Sorted, TotalPreorder;
    if s != [] {
      var m, e := Min(n, |s|), Min(2 * n, |s|);
      RunsSplit(cmp, s, n);
      PassDoublesRuns(cmp, dom, s[e..], n);
      MergeSorts(cmp, dom, s[..m], s[m..e]);
      var r, q := Merge(cmp, s[..m], s[m..e]), MergePass(cmp, s[e..], n);
      assert (r + q)[..e] == r && (r + q)[e..] == q;
      assert |r + q| == |s|;
    }
  }

  lemma {:induction false} RunsOfOne<T>(cmp: (T, T) -> int, s: seq<T>)
    ensures SortedRuns(cmp, s, 1)
    decreases |s|
  {
    if s != [] {
      RunsOfOne(cmp, s[1..]);
    }
  }

  lemma OneRun<T>(cmp: (T, T) -> int, s: seq<T>, n: nat)
    requires n > 0 && |s| <= n && SortedRuns(cmp, s, n)
    ensures Sorted(cmp, s)
  {
    if s != [] {
      assert s[..Min(n, |s|)] == s;
    }
  }

  /** The stable sorting is unique. */
  lemma {:induction false} StableSortingUnique<T>(cmp: (T, T) -> int, dom: set<T>, s: seq<T>, p: seq<T>, q: seq<T>)
    requires TotalPreorder(cmp, dom) && Over(p, dom) && Over(q, dom)
    requires StablySorted(cmp, dom, s, p) && StablySorted(cmp, dom, s, q)
    ensures p == q
  {
    assert |multiset(p)| == |multiset(q)|;
    SameTiesSame(cmp, dom, p, q);
  }

  lemma {:induction false} SameTiesSame<T>(cmp: (T, T) -> int, dom: set<T>, p: seq<T>, q: seq<T>)
    requires TotalPreorder(cmp, dom) && Over(p, dom) && Over(q, dom) && Sorted(cmp, p) && Sorted(cmp, q)
    requires |p| == |q| && forall x :: x in dom ==> Ties(cmp, p, x) == Ties(cmp, q, x)
    ensures p == q
    decreases |p|
  {
    if p != [] {
      FirstsTie(cmp, dom, p, q);
      assert Ties(cmp, p, p[0])[0] == p[0] && Ties(cmp, q, p[0])[0] == q[0];
      forall x | x in dom
        ensures Ties(cmp, p[1..], x) == Ties(cmp, q[1..], x)
      {
        assert Ties(cmp, p, x) == Ties(cmp, q, x);
        var d := if cmp(p[0], x) <= 0 && cmp(x, p[0]) <= 0 then 1 else 0;
        assert Ties(cmp, p, x)[d..] == Ties(cmp, p[1..], x);
        assert Ties(cmp, q, x)[d..] == Ties(cmp, q[1..], x);
      }
      SameTiesSame(cmp, dom, p[1..], q[1..]);
      assert p == [p[0]] + p[1..] && q == [q[0]] + q[1..];
    }
  }

  lemma {:induction false} TiesAreMembers<T>(cmp: (T, T) -> int, s: seq<T>, x: T)
    ensures forall e :: e in Ties(cmp, s, x) ==> e in s && cmp(e, x) <= 0 && cmp(x, e) <= 0
    decreases |s|
  {
    if s != [] {
      TiesAreMembers(cmp, s[1..], x);
    }
  }

  lemma FirstsTie<T>(cmp: (T, T) -> int, dom: set<T>, p: seq<T>, q: seq<T>)
    requires TotalPreorder(cmp, dom) && Over(p, dom) && Over(q, dom) && Sorted(cmp, p) && Sorted(cmp, q) && p != [] && q != []
    requires forall x :: x in dom ==> Ties(cmp, p, x) == Ties(cmp, q, x)
    ensures cmp(p[0], q[0]) <= 0 && cmp(q[0], p[0]) <= 0
  {
    assert p[0] in dom && q[0] in dom;
    TiesAreMembers(cmp, q, p[0]);
    TiesAreMembers(cmp, p, q[0]);
    assert Ties(cmp, p, p[0])[0] == p[0];
    assert p[0] in Ties(cmp, q, p[0]);
    assert Ties(cmp, q, q[0])[0] == q[0];
    assert q[0] in Ties(cmp, p, q[0]);
  }

  /** `out` has the elements of `s`, ties in the same order. */
  ghost predicate Permuted<T>(cmp: (T, T) -> int, dom: set<T>, s: seq<T>, out: seq<T>) {
    && Over(out, dom) && multiset(out) == multiset(s)
    && (forall x :: x in dom ==> Ties(cmp, out, x) == Ties(cmp, s, x))
  }

  lemma SortBegins(cmp: (Elem, Elem) -> int, s: seq<Elem>)
    ensures Permuted(cmp, ElemsOf(s), s, s) && SortedRuns(cmp, s, 1)
  {
    RunsOfOne(cmp, s);
  }

  lemma SortEnds(cmp: (Elem, Elem) -> int, s: seq<Elem>, out: seq<Elem>)
    requires Permuted(cmp, ElemsOf(s), s, out) && Sorted(cmp, out)
    ensures StablySorted(cmp, ElemsOf(s), s, out)
  {}

  lemma EmptySorted(cmp: (Elem, Elem) -> int, s: seq<Elem>)
    requires s == []
    ensures StablySorted(cmp, ElemsOf(s), s, s)
  {}

  lemma SameElements(cmp: (Elem, Elem) -> int, dom: set<Elem>, s: seq<Elem>, was: seq<Elem>)
    requires Permuted(cmp, dom, s, was)
    ensures forall i :: 0 <= i < |was| ==> was[i] in s
  {
    forall i | 0 <= i < |was|
      ensures was[i] in s
    {
      assert was[i] in multiset(was);
    }
  }

  /** One pass brings the sort one doubling further. */
  lemma PassSorts<T>(cmp: (T, T) -> int, dom: set<T>, s: seq<T>, was: seq<T>, n: nat)
    requires TotalPreorder(cmp, dom) && Permuted(cmp, dom, s, was) && n > 0 && SortedRuns(cmp, was, n)
    ensures Permuted(cmp, dom, s, MergePass(cmp, was, n)) && SortedRuns(cmp, MergePass(cmp, was, n), 2 * n)
  {
    hide TotalPreorder, SortedRuns, MergePass, Ties;
    PassDoublesRuns(cmp, dom, was, n);
    PassKeepsElements(cmp, was, n);
    var out := MergePass(cmp, was, n);
    forall i | 0 <= i < |out|
      ensures out[i] in dom
    {
      assert out[i] in multiset(out);
    }
    forall x | x in dom
      ensures Ties(cmp, out, x) == Ties(cmp, s, x)
    {
      PassIsStable(cmp, dom, was, n, x);
    }
  }

  // ----- the sort itself -----

  /** The list built so far: linked both ways except that its last `next` is not yet set. */
  ghost predicate Out(done: seq<Elem>, list: Elem?, tail: Elem?)
    reads done`next, done`prev
  {
    && Distinct(done) && list == At(done, 0) && tail == At(done, |done| - 1)
    && (forall m {:trigger done[m].next} :: 0 <= m < |done| - 1 ==> done[m].next == done[m + 1])
    && (forall m {:trigger done[m].prev} :: 0 <= m < |done| ==> done[m].prev == At(done, m - 1))
  }

  /** The old list from `lo` to `hi` still has its `next` links. */
  ghost predicate Ahead(s: seq<Elem>, lo: int, hi: int)
    reads s`next
  {
    forall m {:trigger s[m].next} :: 0 <= lo <= m < hi <= |s| ==> s[m].next == At(s, m + 1)
  }

  /** Nothing of `s` from `lo` to `hi` has been put out yet. */
  ghost predicate Untouched(done: seq<Elem>, s: seq<Elem>, lo: int, hi: int) {
    forall k, m :: 0 <= k < |done| && 0 <= lo <= m < hi <= |s| ==> done[k] != s[m]
  }

  /** Puts the next element out. */
  method Put(ghost done: seq<Elem>, list: Elem?, tail: Elem?, e: Elem) returns (first: Elem?)
    requires Out(done, list, tail) && e !in done
    modifies done`next, e`prev
    ensures Out(done + [e], first, e)
    ensures forall m :: 0 <= m < |done| - 1 ==> done[m].next == old(done[m].next)
  {
    if tail != null {
      tail.next := e;
      first := list;
    } else {
      first := e;
    }
    e.prev := tail;
  }

  /** The state between two elements of a merge: `done` is put out, and of `s` the elements from `i` to
      `mid` and from `j` on are still to come. */
  ghost predicate Between(s: seq<Elem>, done: seq<Elem>, list: Elem?, tail: Elem?, i: nat, mid: nat, j: nat)
    reads s`next, done`next, done`prev
  {
    && Distinct(s) && i <= mid <= j <= |s|
    && Out(done, list, tail) && Over(done, ElemsOf(s))
    && Untouched(done, s, i, mid) && Untouched(done, s, j, |s|) && Ahead(s, i, mid) && Ahead(s, j, |s|)
  }

  /** Puts out the next element of the first run and finds the one after it. */
  method TakeP(ghost s: seq<Elem>, ghost was: seq<Elem>, list: Elem?, tail: Elem?, e: Elem, ghost i: nat, ghost mid: nat, ghost j: nat)
    returns (first: Elem?, last: Elem?, next: Elem?)
    requires Between(s, was, list, tail, i, mid, j) && i < mid && e == s[i]
    modifies s`next, s`prev
    ensures next == At(s, i + 1) && Between(s, was + [e], first, last, i + 1, mid, j)
  {
    hide Out;
    next := e.next;
    first := Put(was, list, tail, e);
    last := e;
  }

  /** Puts out the next element of the second run and finds the one after it. */
  method TakeQ(ghost s: seq<Elem>, ghost was: seq<Elem>, list: Elem?, tail: Elem?, e: Elem, ghost i: nat, ghost mid: nat, ghost j: nat)
    returns (first: Elem?, last: Elem?, next: Elem?)
    requires Between(s, was, list, tail, i, mid, j) && j < |s| && e == s[j]
    modifies s`next, s`prev
    ensures next == At(s, j + 1) && Between(s, was + [e], first, last, i, mid, j + 1)
  {
    hide Out;
    next := e.next;
    first := Put(was, list, tail, e);
    last := e;
  }

  /** What is put out followed by the merge of what is left of two runs. */
  ghost function Goal(cmp: (Elem, Elem) -> int, s: seq<Elem>, done: seq<Elem>, i: nat, mid: nat, j: nat, end: nat): seq<Elem>
    requires i <= mid <= j <= end <= |s|
  {
    done + Merge(cmp, s[i..mid], s[j..end])
  }

  /** The element put out next does not change the goal. */
  lemma GoalKept(cmp: (Elem, Elem) -> int, s: seq<Elem>, done: seq<Elem>, i: nat, mid: nat, j: nat, end: nat)
    requires i <= mid <= j <= end <= |s|
    ensures i < mid && (j == end || cmp(s[i], s[j]) <= 0) ==>
      Goal(cmp, s, done + [s[i]], i + 1, mid, j, end) == Goal(cmp, s, done, i, mid, j, end)
    ensures j < end && (i == mid || cmp(s[i], s[j]) > 0) ==>
      Goal(cmp, s, done + [s[j]], i, mid, j + 1, end) == Goal(cmp, s, done, i, mid, j, end)
  {
    if i < mid {
      assert s[i..mid] == [s[i]] + s[i + 1..mid];
    }
    if j < end {
      assert s[j..end] == [s[j]] + s[j + 1..end];
    }
  }

  lemma GoalReached(cmp: (Elem, Elem) -> int, s: seq<Elem>, done: seq<Elem>, mid: nat, end: nat)
    requires mid <= end <= |s|
    ensures Goal(cmp, s, done, mid, mid, end, end) == done
  {}

  /** Merges the run of `s` from `i0` to `mid` with the one from `mid` to `end` onto the list put
      out so far. */
  method MergeRuns(cmp: (Elem, Elem) -> int, ghost s: seq<Elem>, ghost was: seq<Elem>, ghost i0: nat, ghost mid: nat,
                   list0: Elem?, tail0: Elem?, p0: Elem, psize0: nat, q0: Elem?, insize: nat)
    returns (list: Elem?, tail: Elem?, q: Elem?)
    requires i0 < mid <= |s| && insize > 0
    requires p0 == s[i0] && psize0 == mid - i0 && q0 == At(s, mid)
    requires Between(s, was, list0, tail0, i0, mid, mid)
    modifies s`next, s`prev
    ensures var end := Min(mid + insize, |s|);
      q == At(s, end) && Between(s, Goal(cmp, s, was, i0, mid, mid, end), list, tail, mid, mid, end)
  {
    hide Between, Goal;
    list, tail := list0, tail0;
    var p: Elem?, psize, qsize := p0, psize0, insize;
    q := q0;
    ghost var done: seq<Elem>, i, j := was, i0, mid;
    ghost var end := Min(mid + insize, |s|);
    while psize != 0 || (qsize != 0 && q != null)
      invariant i0 <= i <= mid <= j <= end
      invariant psize == mid - i && (psize != 0 ==> p == s[i]) && qsize == insize - (j - mid) && q == At(s, j)
      invariant Between(s, done, list, tail, i, mid, j)
      invariant Goal(cmp, s, done, i, mid, j, end) == Goal(cmp, s, was, i0, mid, mid, end)
      decreases psize + qsize
    {
      GoalKept(cmp, s, done, i, mid, j, end);
      if psize == 0 {
        ghost var e: Elem := q;
        list, tail, q := TakeQ(s, done, list, tail, q, i, mid, j);
        qsize, j := qsize - 1, j + 1;
        done := done + [e];
      } else if qsize == 0 || q == null || cmp(p, q) <= 0 {
        ghost var e: Elem := p;
        list, tail, p := TakeP(s, done, list, tail, p, i, mid, j);
        psize, i := psize - 1, i + 1;
        done := done + [e];
      } else {
        ghost var e: Elem := q;
        list, tail, q := TakeQ(s, done, list, tail, q, i, mid, j);
        qsize, j := qsize - 1, j + 1;
        done := done + [e];
      }
    }
    GoalReached(cmp, s, done, mid, end);
  }

  /** Goes up to `insize` elements along the list. */
  method SkipRun(ghost s: seq<Elem>, ghost k: nat, p: Elem, insize: nat) returns (q: Elem?, psize: nat)
    requires k < |s| && p == s[k] && insize > 0 && Ahead(s, k, |s|)
    ensures k + psize == Min(k + insize, |s|) && q == At(s, k + psize)
  {
    q, psize := p, 0;
    for i := 0 to insize
      invariant psize == i && k + psize < |s| && q == s[k + psize]
    {
      psize := psize + 1;
      q := q.next;
      if q == null {
        break;
      }
    }
  }

  /** One pass over the list; counts its merges. */
  method Pass(cmp: (Elem, Elem) -> int, ghost s: seq<Elem>, head: Elem, insize: nat)
    returns (list: Elem, tail: Elem, nmerges: nat, ghost done: seq<Elem>)
    requires AppLinked(s) && |s| > 0 && head == s[0] && insize > 0
    modifies s`next, s`prev
    ensures done == MergePass(cmp, s, insize) && AppLinked(done) && list == done[0] && tail == done[|s| - 1]
    ensures nmerges <= 1 <==> |s| <= 2 * insize
  {
    hide Between, Goal, Merge, MergePass, AppLinked, Ahead, Distinct, Out;
    var p: Elem?, first: Elem?, last: Elem? := head, null, null;
    NothingOut(s);
    ghost var k := 0;
    done, nmerges := [], 0;
    while p != null
      invariant 0 <= k <= |s| && p == At(s, k) && |done| == k
      invariant Between(s, done, first, last, k, k, k)
      invariant done + MergePass(cmp, s[k..], insize) == MergePass(cmp, s, insize)
      invariant nmerges == 0 <==> k == 0
      invariant nmerges == 1 ==> k == Min(2 * insize, |s|)
      invariant nmerges > 1 ==> k > 2 * insize
      decreases |s| - k
    {
      nmerges := nmerges + 1;
      StillAhead(s, done, first, last, k);
      var q, psize := SkipRun(s, k, p, insize);
      ghost var mid, end := k + psize, Min(k + psize + insize, |s|);
      BeforeMerge(s, done, first, last, k, mid);
      first, last, p := MergeRuns(cmp, s, done, k, mid, first, last, p, psize, q, insize);
      PassStep(cmp, s, done, insize, k);
      done := Goal(cmp, s, done, k, mid, mid, end);
      AfterMerge(s, done, first, last, mid, end);
      k := end;
    }
    Finished(cmp, s, done, first, last, k, insize);
    Close(done, first, last);
    list, tail := first, last;
  }

  /** Ends the list put out. */
  method Close(ghost done: seq<Elem>, list: Elem, tail: Elem)
    requires Out(done, list, tail)
    modifies tail`next
    ensures AppLinked(done)
  {
    tail.next := null;
  }

  lemma Finished(cmp: (Elem, Elem) -> int, s: seq<Elem>, done: seq<Elem>, list: Elem?, tail: Elem?, k: nat, insize: nat)
    requires k == |s| == |done| > 0 && insize > 0 && Between(s, done, list, tail, k, k, k)
    requires done + MergePass(cmp, s[k..], insize) == MergePass(cmp, s, insize)
    ensures Out(done, list, tail) && list == done[0] && tail == done[|s| - 1] && done == MergePass(cmp, s, insize)
    ensures forall i :: 0 <= i < |done| ==> done[i] in ElemsOf(s)
  {
    assert s[k..] == [];
  }

  lemma NothingOut(s: seq<Elem>)
    requires AppLinked(s)
    ensures Between(s, [], null, null, 0, 0, 0)
  {}

  lemma StillAhead(s: seq<Elem>, done: seq<Elem>, list: Elem?, tail: Elem?, k: nat)
    requires k <= |s| && Between(s, done, list, tail, k, k, k)
    ensures Ahead(s, k, |s|)
  {
    hide Out;
  }

  lemma BeforeMerge(s: seq<Elem>, done: seq<Elem>, list: Elem?, tail: Elem?, k: nat, mid: nat)
    requires k <= mid <= |s| && Between(s, done, list, tail, k, k, k)
    ensures Between(s, done, list, tail, k, mid, mid)
  {
    hide Out;
  }

  lemma AfterMerge(s: seq<Elem>, done: seq<Elem>, list: Elem?, tail: Elem?, mid: nat, end: nat)
    requires mid <= end <= |s| && Between(s, done, list, tail, mid, mid, end)
    ensures Between(s, done, list, tail, end, end, end)
  {
    hide Out;
  }

  lemma PassUnfolds<T>(cmp: (T, T) -> int, s: seq<T>, n: nat, k: nat)
    requires n > 0 && k < |s|
    ensures var mid, end := Min(k + n, |s|), Min(k + 2 * n, |s|);
      MergePass(cmp, s[k..], n) == Merge(cmp, s[k..mid], s[mid..end]) + MergePass(cmp, s[end..], n)
  {
    hide Merge;
    var mid, end := Min(k + n, |s|), Min(k + 2 * n, |s|);
    var r := s[k..];
    assert r != [] && Min(n, |r|) == mid - k && Min(2 * n, |r|) == end - k;
    assert s[k..][..mid - k] == s[k..mid] && s[k..][mid - k..end - k] == s[mid..end] && s[k..][end - k..] == s[end..];
  }

  lemma PassStep(cmp: (Elem, Elem) -> int, s: seq<Elem>, done: seq<Elem>, n: nat, k: nat)
    requires n > 0 && k < |s|
    ensures var mid, end := Min(k + n, |s|), Min(k + 2 * n, |s|); var next := Goal(cmp, s, done, k, mid, mid, end);
      && |next| == |done| + end - k
      && next + MergePass(cmp, s[end..], n) == done + MergePass(cmp, s[k..], n)
  {
    hide Merge, MergePass;
    PassUnfolds(cmp, s, n, k);
    var mid, end := Min(k + n, |s|), Min(k + 2 * n, |s|);
    ConcatAssociative(done, Merge(cmp, s[k..mid], s[mid..end]), MergePass(cmp, s[end..], n));
  }

  /** `HASH_SRT` on a list `s`: the new head and tail of the stable sorting. The run length is an
      `unsigned int`, which is wide enough for any list an `unsigned int` can count. */
  method Sort(cmp: (Elem, Elem) -> int, ghost s: seq<Elem>, head: Elem) returns (list: Elem, tail: Elem, ghost out: seq<Elem>)
    requires AppLinked(s) && 0 < |s| < 0x1_0000_0000 && head == s[0] && TotalPreorder(cmp, ElemsOf(s))
    modifies s`next, s`prev
    ensures StablySorted(cmp, ElemsOf(s), s, out) && |out| == |s|
    ensures AppLinked(out) && list == out[0] && tail == out[|s| - 1]
  {
    hide AppLinked, SortedRuns, MergePass, TotalPreorder, Over, Ties;
    ghost var dom := ElemsOf(s);
    var insize, looping := 1, true;
    list, tail, out := head, head, s;
    SortBegins(cmp, s);
    while looping
      invariant |out| == |s| && list == out[0] && AppLinked(out) && (!looping ==> tail == out[|s| - 1])
      invariant Permuted(cmp, dom, s, out)
      invariant looping ==> 0 < insize < 0x1_0000_0000 && SortedRuns(cmp, out, insize)
      invariant !looping ==> Sorted(cmp, out)
      decreases looping, if insize < |s| then |s| - insize else 0
    {
      ghost var was := out;
      SameElements(cmp, dom, s, was);
      var nmerges;
      list, tail, nmerges, out := Pass(cmp, was, list, insize);
      PassSorts(cmp, dom, s, was, insize);
      if nmerges <= 1 {
        looping := false;
        OneRun(cmp, out, 2 * insize);
      }
      insize := insize * 2 % 0x1_0000_0000;
    }
    SortEnds(cmp, s, out);
  }
}
