/** Lines and what is left over: the specification of the two line readers. */
module Lines {
  import opened Sequences
  import opened Bytes

  const NL: byte := 10
  const PAGESIZE := 4096

  /** The position of the first newline, or the length. */
  function FindNewline(s: seq<byte>): (k: nat)
    ensures k <= |s| && NL !in s[..k] && (k < |s| ==> s[k] == NL)
  {
    if s == [] || s[0] == NL then 0 else 1 + FindNewline(s[1..])
  }

  /** The complete lines of a stream, without their newlines. */
  function LinesOf(s: seq<byte>): seq<seq<byte>>
    decreases |s|
  {
    var k := FindNewline(s);
    if k == |s| then [] else [s[..k]] + LinesOf(s[k + 1..])
  }

  /** What follows the last newline. */
  function Tail(s: seq<byte>): (t: seq<byte>)
    ensures NL !in t && |t| <= |s|
    decreases |s|
  {
    var k := FindNewline(s);
    if k == |s| then s else Tail(s[k + 1..])
  }

  function Joined(ls: seq<seq<byte>>): seq<byte> {
    if ls == [] then [] else ls[0] + [NL] + Joined(ls[1..])
  }

  ghost predicate NoNewlines(ls: seq<seq<byte>>) {
    forall i :: 0 <= i < |ls| ==> NL !in ls[i]
  }

  lemma {:induction false} FirstNewline(s: seq<byte>, k: nat)
    requires k <= |s| && NL !in s[..k] && (k < |s| ==> s[k] == NL)
    ensures FindNewline(s) == k
  {
    if k > 0 {
      assert s[..k][0] != NL && s[..k][1..] == s[1..][..k - 1];
      FirstNewline(s[1..], k - 1);
    }
  }

  lemma FirstLine(l: seq<byte>, s: seq<byte>)
    requires NL !in l
    ensures LinesOf(l + [NL] + s) == [l] + LinesOf(s) && Tail(l + [NL] + s) == Tail(s)
  {
    var w := l + [NL] + s;
    assert w[..|l|] == l && w[|l| + 1..] == s;
    FirstNewline(w, |l|);
  }

  lemma NoLine(s: seq<byte>)
    requires NL !in s
    ensures LinesOf(s) == [] && Tail(s) == s
  {
    FirstNewline(s, |s|);
  }

  /** Lines that were joined are split again, whatever follows them. */
  lemma {:induction false} LinesOfJoined(ls: seq<seq<byte>>, p: seq<byte>)
    requires NoNewlines(ls)
    ensures LinesOf(Joined(ls) + p) == ls + LinesOf(p) && Tail(Joined(ls) + p) == Tail(p)
    decreases |ls|
  {
    if ls == [] {
      assert Joined(ls) + p == p;
    } else {
      hide LinesOf, Tail;
      LinesOfJoined(ls[1..], p);
      FirstLine(ls[0], Joined(ls[1..]) + p);
      ConcatAssociative(ls[0] + [NL], Joined(ls[1..]), p);
      ConcatAssociative([ls[0]], ls[1..], LinesOf(p));
      assert ls == [ls[0]] + ls[1..];
    }
  }

  lemma OneMoreJoined(l: seq<byte>, ls: seq<seq<byte>>)
    ensures Joined([l] + ls) == l + [NL] + Joined(ls)
  {
    assert ([l] + ls)[1..] == ls;
  }

  /** Lines and tail are the whole stream. */
  lemma {:induction false} JoinedLines(s: seq<byte>)
    ensures Joined(LinesOf(s)) + Tail(s) == s && NoNewlines(LinesOf(s))
    decreases |s|
  {
    hide LinesOf, Tail;
    var k := FindNewline(s);
    if k < |s| {
      var rest := s[k + 1..];
      JoinedLines(rest);
      assert s == s[..k] + [NL] + rest;
      FirstLine(s[..k], rest);
      OneMoreJoined(s[..k], LinesOf(rest));
      ConcatAssociative(s[..k] + [NL], Joined(LinesOf(rest)), Tail(rest));
    } else {
      NoLine(s);
    }
  }

  /** Only the tail matters for what comes later. */
  lemma LinesConcat(a: seq<byte>, b: seq<byte>)
    ensures LinesOf(a + b) == LinesOf(a) + LinesOf(Tail(a) + b) && Tail(a + b) == Tail(Tail(a) + b)
  {
    hide LinesOf, Tail, Joined;
    JoinedLines(a);
    LinesOfJoined(LinesOf(a), Tail(a) + b);
    ConcatAssociative(Joined(LinesOf(a)), Tail(a), b);
  }

  lemma {:induction false} JoinedConcat(a: seq<seq<byte>>, b: seq<seq<byte>>)
    ensures Joined(a + b) == Joined(a) + Joined(b)
    decreases |a|
  {
    if a == [] {
      assert a + b == b;
    } else {
      JoinedConcat(a[1..], b);
      assert (a + b)[1..] == a[1..] + b;
    }
  }

  lemma JoinedOne(ls: seq<seq<byte>>, l: seq<byte>)
    ensures Joined(ls + [l]) == Joined(ls) + l + [NL]
  {
    JoinedConcat(ls, [l]);
    assert [l][1..] == [];
  }

  lemma FlattenNext(a: seq<byte>, chunks: seq<seq<byte>>, i: nat)
    requires i < |chunks|
    ensures a + Flatten(chunks[i..]) == a + chunks[i] + Flatten(chunks[i + 1..])
    ensures |Flatten(chunks[i..])| == |chunks[i]| + |Flatten(chunks[i + 1..])|
  {
    assert chunks[i..][1..] == chunks[i + 1..];
    ConcatAssociative(a, chunks[i], Flatten(chunks[i + 1..]));
  }

  lemma FlattenNone(a: seq<byte>, chunks: seq<seq<byte>>)
    ensures Flatten(chunks[|chunks|..]) == [] && a + [] == a && chunks[0..] == chunks
  {}

  lemma HandedOut(ls: seq<seq<byte>>, l: seq<byte>, p: seq<byte>)
    ensures Joined(ls + [l]) + p == Joined(ls) + (l + [NL] + p)
  {
    JoinedOne(ls, l);
  }

  lemma OneMoreLine(ls: seq<seq<byte>>, l: seq<byte>)
    requires NoNewlines(ls) && NL !in l
    ensures NoNewlines(ls + [l])
  {}

  lemma SplitAt(s: seq<byte>, k: nat)
    requires k < |s| && s[k] == NL
    ensures s == s[..k] + [NL] + s[k + 1..]
  {}

  /** The lines handed out and the bytes pending are what was received. */
  ghost predicate Received(lines: seq<seq<byte>>, pending: seq<byte>, got: seq<byte>) {
    NoNewlines(lines) && Joined(lines) + pending == got
  }

  lemma NothingReceived()
    ensures Received([], [], [])
  {}

  lemma MoreReceived(lines: seq<seq<byte>>, pending: seq<byte>, got: seq<byte>, more: seq<byte>)
    requires Received(lines, pending, got)
    ensures Received(lines, pending + more, got + more)
  {
    hide Joined;
    ConcatAssociative(Joined(lines), pending, more);
  }

  lemma LineOut(lines: seq<seq<byte>>, line: seq<byte>, pending: seq<byte>, got: seq<byte>)
    requires Received(lines, line + [NL] + pending, got) && NL !in line
    ensures Received(lines + [line], pending, got)
  {
    hide Joined;
    OneMoreLine(lines, line);
    HandedOut(lines, line, pending);
  }

  /** The lines handed out are the first lines of the stream, and what is pending is the rest of it,
      however it came in. */
  lemma HandedOutInOrder(lines: seq<seq<byte>>, pending: seq<byte>, got: seq<byte>)
    requires Received(lines, pending, got)
    ensures lines + LinesOf(pending) == LinesOf(got) && Tail(pending) == Tail(got)
  {
    LinesOfJoined(lines, pending);
  }

  function Flatten(chunks: seq<seq<byte>>): seq<byte> {
    if chunks == [] then [] else chunks[0] + Flatten(chunks[1..])
  }
}

/** `read_socket_line` of ckpool.c. */
module SocketLines {
  import opened Sequences
  import opened Bytes
  import opened Lines

  /** What `wait_read_select` reports, and whether the time left had run out before it was asked. */
  datatype Wait = Ready | TimedOut | Failed

  /** One turn of the waiting loop: the outcome of the wait and what `recv` then delivers. */
  datatype Round = Round(expired: bool, wait: Wait, batch: seq<seq<byte>>)

  /** The bytes received when the first `k` turns got as far as receiving. */
  function Arrived(rounds: seq<Round>, k: nat): seq<byte>
    requires k <= |rounds|
  {
    if k == 0 then [] else Arrived(rounds, k - 1) + Flatten(rounds[k - 1].batch)
  }

  lemma ArrivedNext(a: seq<byte>, rounds: seq<Round>, k: nat)
    requires k < |rounds|
    ensures a + Arrived(rounds, k + 1) == a + Arrived(rounds, k) + Flatten(rounds[k].batch)
  {
    ConcatAssociative(a, Arrived(rounds, k), Flatten(rounds[k].batch));
  }

  lemma NoneArrived(a: seq<byte>, rounds: seq<Round>)
    ensures a + Arrived(rounds, 0) == a
  {}

  function RoundUpPage(len: nat): (r: nat)
    ensures r >= len && r % PAGESIZE == 0 && r < len + PAGESIZE
  {
    var rem := len % PAGESIZE;
    if rem != 0 then len + (PAGESIZE - rem) else len
  }

  /** A connection's read buffer. `got` is everything received since the buffer was made, `lines` what
      was handed out of it. */
  class Connsock {
    var buf: array?<byte>
    var bufofs: nat
    var buflen: nat
    ghost var got: seq<byte>
    ghost var lines: seq<seq<byte>>

    /** The bytes received and not handed out. */
    ghost function Pending(): seq<byte>
      reads this, buf
      requires buf != null ==> bufofs + buflen <= buf.Length
    {
      if buf == null then [] else if buflen > 0 then buf[bufofs..bufofs + buflen] else buf[..bufofs]
    }

    /** Nothing is lost, doubled or out of order. */
    ghost predicate Valid()
      reads this, buf
    {
      && (buf == null ==> got == [] && lines == [])
      && (buf != null ==> bufofs + buflen < buf.Length && (buflen > 0 ==> bufofs > 0))
      && Received(lines, Pending(), got)
    }

    constructor ()
      ensures Valid() && got == [] && lines == []
    {
      buf, bufofs, buflen := null, 0, 0;
      got, lines := [], [];
      NothingReceived();
    }

    /** `clear_bufline`: what is pending goes to the front. */
    method ClearBufline()
      requires Valid()
      modifies this, buf
      ensures Valid() && buf != null && (buf == old(buf) || fresh(buf)) && buflen == 0
      ensures got == old(got) && lines == old(lines) && Pending() == old(Pending())
    {
      hide Received;
      if buf == null {
        buf := new byte[PAGESIZE](_ => 0);
        bufofs, buflen := 0, 0;
      } else if buflen > 0 {
        ghost var pending := Pending();
        MoveDown(buf, bufofs, buflen);
        bufofs := buflen;
        buflen := 0;
        assert buf[..bufofs] == pending;
      }
    }

    /** The `memmove` and `memset` of `clear_bufline`. */
    static method MoveDown(a: array<byte>, ofs: nat, len: nat)
      requires ofs + len < a.Length
      modifies a
      ensures a[..len] == old(a[ofs..ofs + len]) && a[len] == 0
    {
      forall i | 0 <= i < len {
        a[i] := a[ofs + i];
      }
      forall i | len <= i <= len + ofs {
        a[i] := 0;
      }
    }

    /** `add_buflen`: appends what was received, in a larger buffer when it does not fit. */
    method AddBuflen(readbuf: seq<byte>)
      requires Valid() && buf != null && buflen == 0
      modifies this, buf
      ensures Valid() && buf != null && (buf == old(buf) || fresh(buf)) && buflen == 0 && lines == old(lines)
      ensures got == old(got) + readbuf && Pending() == old(Pending()) + readbuf
    {
      hide Received;
      ghost var pending := Pending();
      var size := RoundUpPage(bufofs + |readbuf| + 1);
      if buf.Length < size {
        var old' := buf;
        buf := new byte[size](i requires 0 <= i < size reads this, old' => if i < old'.Length then old'[i] else 0);
      }
      assert buf[..bufofs] == pending;
      forall i | 0 <= i < |readbuf| {
        buf[bufofs + i] := readbuf[i];
      }
      bufofs := bufofs + |readbuf|;
      buf[bufofs] := 0;
      got := got + readbuf;
      assert buf[..bufofs] == pending + readbuf;
      MoreReceived(lines, pending, old(got), readbuf);
    }

    /** `recv_available`: everything there is to receive at once. */
    method RecvAvailable(batch: seq<seq<byte>>) returns (len: nat)
      requires Valid() && buf != null && buflen == 0
      modifies this, buf
      ensures Valid() && buf != null && (buf == old(buf) || fresh(buf)) && buflen == 0 && lines == old(lines)
      ensures got == old(got) + Flatten(batch) && Pending() == old(Pending()) + Flatten(batch)
      ensures len == |Flatten(batch)|
    {
      hide Received, Flatten;
      len := 0;
      var i := 0;
      ghost var pending, goal := Pending(), Flatten(batch);
      FlattenNone(Pending(), batch);
      while i < |batch|
        invariant i <= |batch| && Valid() && buf != null && (buf == old(buf) || fresh(buf)) && buflen == 0
        invariant lines == old(lines)
        invariant got + Flatten(batch[i..]) == old(got) + goal
        invariant Pending() + Flatten(batch[i..]) == pending + goal
        invariant len + |Flatten(batch[i..])| == |goal|
      {
        FlattenNext(got, batch, i);
        FlattenNext(Pending(), batch, i);
        AddBuflen(batch[i]);
        len := len + |batch[i]|;
        i := i + 1;
      }
      FlattenNone(Pending(), batch);
      FlattenNone(got, batch);
    }

    /** `memchr` for a newline in the pending bytes. */
    method FindEol() returns (eom: nat)
      requires Valid() && buf != null && buflen == 0
      ensures eom == FindNewline(Pending())
    {
      eom := 0;
      while eom < bufofs && buf[eom] != NL
        invariant eom <= bufofs && NL !in buf[..eom]
      {
        eom := eom + 1;
      }
      assert Pending()[..eom] == buf[..eom];
      FirstNewline(Pending(), eom);
    }

    /** `empty_buffer`, and the buffer itself is freed. */
    method GiveUp()
      modifies this
      ensures Valid() && buf == null
    {
      buf := null;
      bufofs, buflen, got, lines := 0, 0, [], [];
      NothingReceived();
    }

    /** `read_socket_line`: hands out the first line, or returns 0 on a timeout and less on an error,
        when the buffer is given up. `eol` tells an empty line from a timeout, `k` how many turns
        received something. With no turn left the wait times out. */
    method ReadSocketLine(first: seq<seq<byte>>, rounds: seq<Round>) returns (ret: int, line: seq<byte>, eol: bool, k: nat)
      requires Valid()
      modifies this, buf
      ensures Valid() && k <= |rounds|
      ensures ret >= 0 ==> got == old(got) + Flatten(first) + Arrived(rounds, k)
      ensures eol ==> ret == |line| && lines == old(lines) + [line]
      ensures eol ==> old(Pending()) + Flatten(first) + Arrived(rounds, k) == line + [NL] + Pending()
      ensures !eol && ret >= 0 ==> ret == 0 && lines == old(lines) && NL !in Pending()
      ensures !eol && ret >= 0 ==> old(Pending()) + Flatten(first) + Arrived(rounds, k) == Pending()
      ensures ret < 0 ==> !eol && buf == null
    {
      hide Received, Flatten, Arrived;
      line, eol := [], false;
      Fill(first);
      var eom;
      ret, eom, k := WaitForEol(rounds);
      if ret > 0 {
        ret, eol := eom, true;
        line := HandOut(eom);
      }
    }

    /** The start of `read_socket_line`. */
    method Fill(first: seq<seq<byte>>)
      requires Valid()
      modifies this, buf
      ensures Valid() && buf != null && (buf == old(buf) || fresh(buf)) && buflen == 0 && lines == old(lines)
      ensures got == old(got) + Flatten(first) && Pending() == old(Pending()) + Flatten(first)
    {
      hide Received, Flatten;
      ClearBufline();
      var _ := RecvAvailable(first);
    }

    /** The waiting loop of `read_socket_line`: returns 1 once there is a newline, at `eom`. */
    method WaitForEol(rounds: seq<Round>) returns (ret: int, eom: nat, k: nat)
      requires Valid() && buf != null && buflen == 0
      modifies this, buf
      ensures Valid() && k <= |rounds| && (ret < 0 ==> buf == null)
      ensures ret >= 0 ==> buf != null && buflen == 0 && lines == old(lines) && got == old(got) + Arrived(rounds, k)
      ensures ret >= 0 ==> Pending() == old(Pending()) + Arrived(rounds, k) && eom == FindNewline(Pending())
      ensures ret >= 0 ==> (buf == old(buf) || fresh(buf)) && (ret > 0 <==> eom < bufofs)
    {
      hide Received, Flatten, Arrived;
      k := 0;
      eom := FindEol();
      NoneArrived(Pending(), rounds);
      NoneArrived(got, rounds);
      while eom == bufofs
        invariant Valid() && buf != null && (buf == old(buf) || fresh(buf)) && buflen == 0 && lines == old(lines)
        invariant k <= |rounds| && eom == FindNewline(Pending())
        invariant got == old(got) + Arrived(rounds, k)
        invariant Pending() == old(Pending()) + Arrived(rounds, k)
        decreases |rounds| - k
      {
        if k == |rounds| || rounds[k].expired || rounds[k].wait.TimedOut? {
          ret := 0;
          return;
        }
        var len := 0;
        if rounds[k].wait.Ready? {
          len := RecvAvailable(rounds[k].batch);
        }
        if len < 1 {
          ret := -1;
          GiveUp();
          return;
        }
        ArrivedNext(old(Pending()), rounds, k);
        ArrivedNext(old(got), rounds, k);
        k := k + 1;
        eom := FindEol();
      }
      ret := 1;
    }

    /** The end of `read_socket_line`: the line goes out, the rest stays pending behind it. */
    method HandOut(eom: nat) returns (line: seq<byte>)
      requires Valid() && buf != null && buflen == 0 && eom == FindNewline(Pending()) < bufofs
      modifies this`bufofs, this`buflen, this`lines, buf
      ensures Valid() && |line| == eom && lines == old(lines) + [line]
      ensures old(Pending()) == line + [NL] + Pending()
    {
      hide Received, FindNewline;
      ghost var all := buf[..bufofs];
      assert Pending() == all && all[eom] == buf[eom] && all[..eom] == buf[..eom];
      line := TakeOut(eom);
      LineOut(lines, line, Pending(), got);
      lines := lines + [line];
    }

    method TakeOut(eom: nat) returns (line: seq<byte>)
      requires buf != null && bufofs < buf.Length && eom < bufofs && buf[eom] == NL && NL !in buf[..eom]
      modifies this`bufofs, this`buflen, buf
      ensures bufofs + buflen < buf.Length && (buflen > 0 ==> bufofs > 0) && |line| == eom && NL !in line
      ensures old(buf[..bufofs]) == line + [NL] + Pending()
    {
      ghost var all := buf[..bufofs];
      line := buf[..eom];
      assert line == all[..eom];
      buflen := bufofs - eom - 1;
      bufofs := if buflen > 0 then eom + 1 else 0;
      buf[eom] := 0;
      assert Pending() == all[eom + 1..];
      SplitAt(all, eom);
    }
  }
}
