/** The doubly linked lists of utlist.h, whose head's `prev` is the last element: the send queues and the
    dead and recycled clients are such lists. */
module Utlist {
  import opened Sequences

  class Node {
    var next: Node?
    var prev: Node?
  }

  ghost function At(s: seq<Node>, i: int): Node? {
    if 0 <= i < |s| then s[i] else null
  }

  /** The element before `i`, for the first one the last. */
  ghost function Before(s: seq<Node>, i: nat): Node
    requires i < |s|
  {
    if i == 0 then s[|s| - 1] else s[i - 1]
  }

  ghost predicate Disjoint(s: seq<Node>, t: seq<Node>) {
    forall i, j :: 0 <= i < |s| && 0 <= j < |t| ==> s[i] != t[j]
  }

  /** `head` is a list of the elements of `s` in order. */
  ghost predicate Linked(head: Node?, s: seq<Node>)
    reads s`next, s`prev
  {
    && Distinct(s) && head == At(s, 0)
    && (forall i {:trigger s[i].next} :: 0 <= i < |s| ==> s[i].next == At(s, i + 1))
    && (forall i {:trigger s[i].prev} :: 0 <= i < |s| ==> s[i].prev == Before(s, i))
  }

  /** `DL_APPEND2`. */
  method Append(head: Node?, ghost s: seq<Node>, add: Node) returns (h: Node)
    requires Linked(head, s) && add !in s
    modifies s`next, s`prev, add`next, add`prev
    ensures Linked(h, s + [add])
  {
    if head != null {
      add.prev := head.prev;
      head.prev.next := add;
      head.prev := add;
      add.next := null;
      h := head;
    } else {
      h := add;
      h.prev := h;
      h.next := null;
    }
  }

  /** `DL_CONCAT2`. */
  method Concat(head1: Node?, ghost s: seq<Node>, head2: Node?, ghost t: seq<Node>) returns (h: Node?)
    requires Linked(head1, s) && Linked(head2, t) && Disjoint(s, t)
    modifies s`next, s`prev, t`prev
    ensures Linked(h, s + t)
  {
    h := head1;
    if head2 != null {
      if head1 != null {
        var tmp := head2.prev;
        head2.prev := head1.prev;
        head1.prev.next := head2;
        head1.prev := tmp;
      } else {
        h := head2;
        assert s + t == t;
      }
    } else {
      assert s + t == s;
    }
  }

  /** `DL_DELETE2`. */
  method Delete(head: Node?, ghost s: seq<Node>, del: Node, ghost k: nat) returns (h: Node?)
    requires Linked(head, s) && k < |s| && s[k] == del
    modifies s`next, s`prev
    ensures Linked(h, Without(s, k)) && del.next == old(del.next)
  {
    h := head;
    if del.prev == del {
      h := null;
      assert |s| == 1;
    } else if del == head {
      del.next.prev := del.prev;
      h := del.next;
      RestLinked(h, s, k);
    } else {
      del.prev.next := del.next;
      if del.next != null {
        del.next.prev := del.prev;
      } else {
        head.prev := del.prev;
      }
      RestLinked(h, s, k);
    }
  }

  /** A list whose links skip one element is the list without it. */
  lemma RestLinked(h: Node?, s: seq<Node>, k: nat)
    requires Distinct(s) && k < |s| && |s| > 1 && h == s[if k == 0 then 1 else 0]
    requires forall i {:trigger s[i].next} :: 0 <= i < |s| && i != k ==> s[i].next == At(s, if i + 1 == k then i + 2 else i + 1)
    requires forall i {:trigger s[i].prev} :: 0 <= i < |s| && i != k ==> s[i].prev == BeforeBut(s, i, k)
    ensures Linked(h, Without(s, k))
  {
    DistinctWithout(s, k);
    hide Distinct, Without;
    var w := Without(s, k);
    WithoutAt(s, k, 0);
    WithoutAt(s, k, |w| - 1);
    forall i | 0 <= i < |w|
      ensures w[i].next == At(w, i + 1) && w[i].prev == Before(w, i)
    {
      WithoutAt(s, k, i);
      if i + 1 < |w| {
        WithoutAt(s, k, i + 1);
      }
      if i > 0 {
        WithoutAt(s, k, i - 1);
      }
    }
  }

  /** The element before `i` once element `k` is out. */
  ghost function BeforeBut(s: seq<Node>, i: nat, k: nat): Node
    requires i < |s| && k < |s| && i != k && |s| > 1
  {
    if Before(s, i) == s[k] then Before(s, k) else Before(s, i)
  }

  // ----- removing while iterating -----

  /** The elements that stay. */
  ghost function Kept(s: seq<Node>, gone: Node -> bool): seq<Node> {
    if s == [] then [] else if gone(s[0]) then Kept(s[1..], gone) else [s[0]] + Kept(s[1..], gone)
  }

  /** A `DL_FOREACH_SAFE` loop that deletes: exactly the elements asked for leave, and the rest stay in
      order, although links change under the iteration. */
  method DeleteWhere(head: Node?, ghost s: seq<Node>, gone: Node -> bool) returns (h: Node?)
    requires Linked(head, s)
    modifies s`next, s`prev
    ensures Linked(h, Kept(s, gone))
  {
    hide Linked, Distinct, Kept, Without;
    h := head;
    var el := head;
    ghost var front: seq<Node>, rest: seq<Node> := [], s;
    assert front + rest == s;
    AtCursor(h, front, rest);
    KeptNext(front, rest, gone);
    while el != null
      invariant Linked(h, front + rest) && el == At(rest, 0)
      invariant front + Kept(rest, gone) == Kept(s, gone)
      invariant (forall i :: 0 <= i < |front| ==> front[i] in s) && (forall i :: 0 <= i < |rest| ==> rest[i] in s)
      decreases |rest|
    {
      AtCursor(h, front, rest);
      KeptNext(front, rest, gone);
      assert forall i :: 0 <= i < |front + rest| ==> (front + rest)[i] in s;
      var tmp := el.next;
      if gone(el) {
        h := Delete(h, front + rest, el, |front|);
        rest := rest[1..];
      } else {
        front, rest := front + [el], rest[1..];
      }
      el := tmp;
    }
    KeptNext(front, rest, gone);
  }

  /** Where the iteration is in the list. */
  lemma AtCursor(h: Node?, front: seq<Node>, rest: seq<Node>)
    requires Linked(h, front + rest)
    ensures front == [] ==> h == At(rest, 0)
    ensures rest != [] ==> (front + rest)[|front|] == rest[0] && rest[0].next == At(rest[1..], 0)
    ensures rest != [] ==> Without(front + rest, |front|) == front + rest[1..] && front + rest == front + [rest[0]] + rest[1..]
  {
    if rest != [] {
      assert (front + rest)[|front|].next == At(front + rest, |front| + 1);
    }
  }

  lemma KeptNext(front: seq<Node>, rest: seq<Node>, gone: Node -> bool)
    ensures rest == [] ==> front + Kept(rest, gone) == front == front + rest
    ensures rest != [] && gone(rest[0]) ==> front + Kept(rest, gone) == front + Kept(rest[1..], gone)
    ensures rest != [] && !gone(rest[0]) ==> front + Kept(rest, gone) == front + [rest[0]] + Kept(rest[1..], gone)
  {
    if rest == [] {
      assert front + [] == front;
    } else {
      ConcatAssociative(front, [rest[0]], Kept(rest[1..], gone));
    }
  }
}
