/** The elements of a uthash table and their application-order list. */
module Elements {
  import opened Bytes
  import opened Sequences

  /** An element with its hash handle. */
  class Elem {
    const key: seq<byte>
    var hashv: nat
    var next: Elem?
    var prev: Elem?
    var hhNext: Elem?
    var hhPrev: Elem?

    constructor (key: seq<byte>)
      ensures this.key == key
    {
      this.key := key;
      hashv := 0;
      next, prev, hhNext, hhPrev := null, null, null, null;
    }
  }

  // ----- the application-order list -----

  ghost function ElemsOf(s: seq<Elem>): set<Elem> {
    set e | e in s
  }

  ghost function At(s: seq<Elem>, i: int): Elem? {
    if 0 <= i < |s| then s[i] else null
  }

  /** `s` is linked by `next` and `prev`, null at both ends. */
  ghost predicate AppLinked(s: seq<Elem>)
    reads s`next, s`prev
  {
    && Distinct(s)
    && (forall i {:trigger s[i].next} :: 0 <= i < |s| ==> s[i].next == At(s, i + 1))
    && (forall i {:trigger s[i].prev} :: 0 <= i < |s| ==> s[i].prev == At(s, i - 1))
  }
}
