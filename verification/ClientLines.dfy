/** `parse_client_msg` of connector.c for ordinary clients. */
module ClientLines {
  import opened Bytes
  import opened Lines
  import opened Sequences
  import opened Wrappers

  const MAX_MSGSIZE := 1024

  // ----- the buffer -----

  /** A client's read buffer, all of its memory, with the messages handed on and whether the client is
      still connected. */
  datatype Client<T> = Client(mem: seq<byte>, bufofs: nat, messages: seq<T>, alive: bool)

  /** The C string that starts a piece of memory. */
  function CString(mem: seq<byte>): (s: seq<byte>)
    ensures |s| <= |mem| && s == mem[..|s|]
  {
    if mem == [] || mem[0] == 0 then [] else [mem[0]] + CString(mem[1..])
  }

  ghost predicate ZeroFrom(mem: seq<byte>, n: nat) {
    forall i :: n <= i < |mem| ==> mem[i] == 0
  }

  ghost predicate WellFormed<T>(c: Client<T>) {
    |c.mem| == PAGESIZE && c.bufofs <= 2 * MAX_MSGSIZE && ZeroFrom(c.mem, 2 * MAX_MSGSIZE)
  }

  function Fresh<T>(): Client<T> {
    Client(seq(PAGESIZE, _ => 0), 0, [], true)
  }

  /** A `read` behind what the buffer holds; what lay there further on stays. */
  function ReadStep<T>(c: Client<T>, chunk: seq<byte>): (r: Client<T>)
    requires c.bufofs + |chunk| <= |c.mem|
    ensures |r.mem| == |c.mem|
  {
    c.(mem := c.mem[..c.bufofs] + chunk + c.mem[c.bufofs + |chunk|..], bufofs := c.bufofs + |chunk|)
  }

  /** The first `n` bytes of the buffer go, and a zero is stored behind the rest. */
  function Drop<T>(c: Client<T>, n: nat): (r: Client<T>)
    requires n <= c.bufofs < |c.mem|
    ensures |r.mem| == |c.mem| && r.bufofs == c.bufofs - n && r.messages == c.messages && r.alive == c.alive
  {
    var rest := c.bufofs - n;
    c.(mem := c.mem[n..c.bufofs] + [0] + c.mem[rest + 1..], bufofs := rest)
  }

  /** The lines in the buffer, one after the other. Each hands the buffer on to the JSON parser, which reads
      up to a zero byte, not up to the end of the line. */
  function Reparse<T>(parse: seq<byte> -> Option<T>, c: Client<T>): Client<T>
    requires c.bufofs < |c.mem|
    decreases c.bufofs
  {
    var eol := FindNewline(c.mem[..c.bufofs]);
    if eol == c.bufofs then c
    else if eol + 1 > MAX_MSGSIZE then c.(alive := false)
    else
      match parse(CString(c.mem))
      case None => c.(alive := false)
      case Some(val) => Reparse(parse, Drop(c, eol + 1).(messages := c.messages + [val]))
  }

  predicate Sized(chunks: seq<seq<byte>>) {
    forall i :: 0 <= i < |chunks| ==> 1 <= |chunks[i]| <= MAX_MSGSIZE
  }

  /** `parse_client_msg` with what each `read` gives until one would block. */
  function Feed<T>(parse: seq<byte> -> Option<T>, c: Client<T>, chunks: seq<seq<byte>>): Client<T>
    requires |c.mem| == PAGESIZE && Sized(chunks)
    decreases |chunks|
  {
    if !c.alive then c
    else if c.bufofs > MAX_MSGSIZE then c.(alive := false)
    else if chunks == [] then c
    else
      ReparseSize(parse, ReadStep(c, chunks[0]));
      Feed(parse, Reparse(parse, ReadStep(c, chunks[0])), chunks[1..])
  }

  lemma {:induction false} ReparseSize<T>(parse: seq<byte> -> Option<T>, c: Client<T>)
    requires c.bufofs < |c.mem|
    ensures c.messages <= Reparse(parse, c).messages && |Reparse(parse, c).mem| == |c.mem|
    decreases c.bufofs
  {
    hide CString, Drop, FindNewline;
    var eol := FindNewline(c.mem[..c.bufofs]);
    if eol < c.bufofs && eol + 1 <= MAX_MSGSIZE {
      match parse(CString(c.mem))
      case None =>
      case Some(val) => ReparseSize(parse, Drop(c, eol + 1).(messages := c.messages + [val]));
    }
  }

  // ----- what a stream means -----

  /** What a line says by itself: nothing when it is longer than MAX_MSGSIZE with its newline. */
  function Verdict<T>(parse: seq<byte> -> Option<T>, l: seq<byte>): Option<T> {
    if |l| + 1 > MAX_MSGSIZE then None else parse(CString(l + [NL]))
  }

  /** The messages of the lines before the first one that is none. */
  function Delivered<T>(parse: seq<byte> -> Option<T>, ls: seq<seq<byte>>): (r: seq<T>) {
    if ls == [] || Verdict(parse, ls[0]).None? then []
    else [Verdict(parse, ls[0]).value] + Delivered(parse, ls[1..])
  }

  predicate AllGood<T>(parse: seq<byte> -> Option<T>, ls: seq<seq<byte>>) {
    forall i :: 0 <= i < |ls| ==> Verdict(parse, ls[i]).Some?
  }

  /** Whether a client that has sent `s` is still connected. */
  predicate Alive<T>(parse: seq<byte> -> Option<T>, s: seq<byte>) {
    AllGood(parse, LinesOf(s)) && |Tail(s)| <= MAX_MSGSIZE
  }

  /** A line of 1024 bytes is too long, and so is a rest without newline of more than 1024. */
  lemma LengthLimits<T>(parse: seq<byte> -> Option<T>, s: seq<byte>)
    requires NL !in s
    ensures |s| >= 1024 ==> !Alive(parse, s + [NL])
    ensures |s| < 1024 ==> (Alive(parse, s + [NL]) <==> parse(CString(s + [NL])).Some?)
    ensures Alive(parse, s) <==> |s| <= 1024
  {
    hide CString, LinesOf, Tail;
    NoLine(s);
    NoLine([]);
    FirstLine(s, []);
    assert s + [NL] + [] == s + [NL] && [s] + [] == [s];
    assert LinesOf(s + [NL])[0] == s;
  }

  /** What follows a line in the buffer, up to `room` bytes in all, makes no difference to the parser. */
  ghost predicate Local<T>(parse: seq<byte> -> Option<T>, l: seq<byte>, room: nat) {
    forall x: seq<byte> :: |l| + 1 + |x| <= room ==> parse(CString(l + [NL] + x)) == parse(CString(l + [NL]))
  }

  /** So it is for every line up to the first that is no message by itself. */
  ghost predicate LocalLines<T>(parse: seq<byte> -> Option<T>, ls: seq<seq<byte>>, room: nat) {
    ls != [] && |ls[0]| + 1 <= MAX_MSGSIZE ==>
      && Local(parse, ls[0], room)
      && (Verdict(parse, ls[0]).Some? ==> LocalLines(parse, ls[1..], room))
  }

  // ----- lines that are no message end it -----

  lemma {:induction false} AllDelivered<T>(parse: seq<byte> -> Option<T>, a: seq<seq<byte>>, b: seq<seq<byte>>)
    requires AllGood(parse, a)
    ensures Delivered(parse, a + b) == Delivered(parse, a) + Delivered(parse, b)
    decreases |a|
  {
    hide Verdict;
    if a == [] {
      assert a + b == b;
    } else {
      AllDelivered(parse, a[1..], b);
      assert (a + b)[1..] == a[1..] + b;
      ConcatAssociative([Verdict(parse, a[0]).value], Delivered(parse, a[1..]), Delivered(parse, b));
    }
  }

  lemma {:induction false} BadStops<T>(parse: seq<byte> -> Option<T>, a: seq<seq<byte>>, b: seq<seq<byte>>)
    requires !AllGood(parse, a)
    ensures Delivered(parse, a + b) == Delivered(parse, a) && !AllGood(parse, a + b)
    decreases |a|
  {
    hide Verdict;
    var i :| 0 <= i < |a| && Verdict(parse, a[i]).None?;
    assert (a + b)[i] == a[i];
    assert (a + b)[1..] == a[1..] + b;
    if Verdict(parse, a[0]).Some? {
      assert a[1..][i - 1] == a[i];
      BadStops(parse, a[1..], b);
    }
  }

  /** A tail that is too long grows into an oversize line, or into a longer tail. */
  lemma LongTail<T>(parse: seq<byte> -> Option<T>, t: seq<byte>, more: seq<byte>)
    requires NL !in t && |t| > MAX_MSGSIZE
    ensures Delivered(parse, LinesOf(t + more)) == []
    ensures !AllGood(parse, LinesOf(t + more)) || |Tail(t + more)| > MAX_MSGSIZE
  {
    var w := t + more;
    var k := FindNewline(w);
    assert forall i :: 0 <= i < |t| ==> w[i] == t[i] && t[i] != NL;
    if k < |w| {
      assert LinesOf(w)[0] == w[..k];
      assert Verdict(parse, LinesOf(w)[0]).None?;
    }
  }

  /** Once a client is disconnected nothing it sent after makes a difference. */
  lemma DeadStaysDead<T>(parse: seq<byte> -> Option<T>, s: seq<byte>, more: seq<byte>)
    requires !Alive(parse, s)
    ensures !Alive(parse, s + more) && Delivered(parse, LinesOf(s + more)) == Delivered(parse, LinesOf(s))
  {
    hide LinesOf, Tail, Delivered, Verdict;
    LinesConcat(s, more);
    var ls, rest := LinesOf(s), LinesOf(Tail(s) + more);
    if !AllGood(parse, ls) {
      BadStops(parse, ls, rest);
    } else {
      LongTail(parse, Tail(s), more);
      AllDelivered(parse, ls, rest);
      if !AllGood(parse, rest) {
        var i :| 0 <= i < |rest| && Verdict(parse, rest[i]).None?;
        assert (ls + rest)[|ls| + i] == rest[i];
      }
    }
  }

  // ----- the buffer and the stream -----

  lemma {:induction false} LocalPrefix<T>(parse: seq<byte> -> Option<T>, a: seq<seq<byte>>, b: seq<seq<byte>>, room: nat)
    requires LocalLines(parse, a + b, room)
    ensures LocalLines(parse, a, room)
    decreases |a|
  {
    hide Local, Verdict;
    if a != [] {
      assert (a + b)[0] == a[0] && (a + b)[1..] == a[1..] + b;
      if |a[0]| + 1 <= MAX_MSGSIZE && Verdict(parse, a[0]).Some? {
        LocalPrefix(parse, a[1..], b, room);
      }
    }
  }

  lemma {:induction false} LocalAt<T>(parse: seq<byte> -> Option<T>, a: seq<seq<byte>>, b: seq<seq<byte>>, room: nat)
    requires LocalLines(parse, a + b, room) && AllGood(parse, a) && b != [] && |b[0]| + 1 <= MAX_MSGSIZE
    ensures Local(parse, b[0], room)
    decreases |a|
  {
    hide Local;
    if a == [] {
      assert a + b == b;
    } else {
      assert (a + b)[0] == a[0] && (a + b)[1..] == a[1..] + b;
      LocalAt(parse, a[1..], b, room);
    }
  }

  /** Zeros behind the first `n` bytes do not belong to the string. */
  lemma {:induction false} CStringEnds(mem: seq<byte>, n: nat)
    requires n < |mem| && ZeroFrom(mem, n)
    ensures CString(mem) == CString(mem[..n])
    decreases |mem|
  {
    if n > 0 && mem[0] != 0 {
      assert ZeroFrom(mem[1..], n - 1);
      CStringEnds(mem[1..], n - 1);
      assert mem[..n][1..] == mem[1..][..n - 1];
    }
  }

  /** What the parser says of the buffer is what it says of its first line. */
  lemma FirstLineDecides<T>(parse: seq<byte> -> Option<T>, mem: seq<byte>, l: seq<byte>, room: nat)
    requires |l| < room < |mem| && ZeroFrom(mem, room) && mem[..|l|] == l && mem[|l|] == NL && Local(parse, l, room)
    ensures parse(CString(mem)) == parse(CString(l + [NL]))
  {
    hide CString, ZeroFrom, Local;
    CStringEnds(mem, room);
    LineAndRest(mem, l, room);
    SameVerdict(parse, l, mem[|l| + 1..room], room);
  }

  lemma LineAndRest(mem: seq<byte>, l: seq<byte>, room: nat)
    requires |l| < room <= |mem| && mem[..|l|] == l && mem[|l|] == NL
    ensures mem[..room] == l + [NL] + mem[|l| + 1..room]
  {}

  lemma SameVerdict<T>(parse: seq<byte> -> Option<T>, l: seq<byte>, x: seq<byte>, room: nat)
    requires Local(parse, l, room) && |l| + 1 + |x| <= room
    ensures parse(CString(l + [NL] + x)) == parse(CString(l + [NL]))
  {
    hide CString;
  }

  /** The client has handed on the messages of the lines `ls` of the stream `got` and holds the rest. */
  ghost predicate Sync<T>(parse: seq<byte> -> Option<T>, c: Client<T>, got: seq<byte>, ls: seq<seq<byte>>, room: nat) {
    && c.alive && |c.mem| == PAGESIZE && c.bufofs <= room <= 2 * MAX_MSGSIZE && ZeroFrom(c.mem, room)
    && NoNewlines(ls) && Joined(ls) + c.mem[..c.bufofs] == got
    && AllGood(parse, ls) && c.messages == Delivered(parse, ls)
  }

  lemma TakeLine<T>(parse: seq<byte> -> Option<T>, c: Client<T>, got: seq<byte>, ls: seq<seq<byte>>, room: nat, eol: nat, val: T)
    requires Sync(parse, c, got, ls, room) && eol < c.bufofs && NL !in c.mem[..eol] && c.mem[eol] == NL
    requires Verdict(parse, c.mem[..eol]) == Some(val)
    ensures Sync(parse, Drop(c, eol + 1).(messages := c.messages + [val]), got, ls + [c.mem[..eol]], room)
  {
    hide Joined, Delivered, Verdict;
    var l, d := c.mem[..eol], Drop(c, eol + 1);
    var was := c.mem[..c.bufofs];
    assert d.mem[..d.bufofs] == was[eol + 1..];
    SplitAt(was, eol);
    assert was[..eol] == l;
    HandedOut(ls, l, d.mem[..d.bufofs]);
    AllDelivered(parse, ls, [l]);
    OneDelivered(parse, l);
  }

  lemma OneDelivered<T>(parse: seq<byte> -> Option<T>, l: seq<byte>)
    requires Verdict(parse, l).Some?
    ensures Delivered(parse, [l]) == [Verdict(parse, l).value]
  {
    assert [l][1..] == [];
  }

  lemma {:induction false} ReparseSync<T>(parse: seq<byte> -> Option<T>, c: Client<T>, got: seq<byte>, ls: seq<seq<byte>>, room: nat)
    requires Sync(parse, c, got, ls, room) && LocalLines(parse, LinesOf(got), room)
    ensures var d := Reparse(parse, c);
      if d.alive then Sync(parse, d, got, LinesOf(got), room) && NL !in d.mem[..d.bufofs] && Tail(got) == d.mem[..d.bufofs]
      else !Alive(parse, got) && d.messages == Delivered(parse, LinesOf(got))
    decreases c.bufofs
  {
    hide Joined, LinesOf, Tail, Delivered, LocalLines, Local, CString, Verdict, AllGood, ZeroFrom, FindNewline;
    var pending := c.mem[..c.bufofs];
    var eol := FindNewline(pending);
    LinesOfJoined(ls, pending);
    if eol == c.bufofs {
      NoLine(pending);
      assert ls + [] == ls;
    } else {
      var l, more := c.mem[..eol], LinesOf(pending);
      FirstOfBuffer(pending, eol);
      assert pending[..eol] == l;
      LineVerdict(parse, c.mem, l, ls, more, room);
      if Verdict(parse, l).None? {
        StopsHere(parse, ls, more);
        assert !Alive(parse, got);
      } else {
        var val := Verdict(parse, l).value;
        TakeLine(parse, c, got, ls, room, eol, val);
        ReparseSync(parse, Drop(c, eol + 1).(messages := c.messages + [val]), got, ls + [l], room);
      }
    }
  }

  /** What the loop finds out about the first line in the buffer is the verdict on it. */
  lemma LineVerdict<T>(parse: seq<byte> -> Option<T>, mem: seq<byte>, l: seq<byte>, ls: seq<seq<byte>>, more: seq<seq<byte>>, room: nat)
    requires |l| < room < |mem| && ZeroFrom(mem, room) && mem[..|l|] == l && mem[|l|] == NL
    requires LocalLines(parse, ls + more, room) && AllGood(parse, ls) && more != [] && more[0] == l
    ensures Verdict(parse, l) == if |l| + 1 > MAX_MSGSIZE then None else parse(CString(mem))
  {
    hide LocalLines, Local, CString, ZeroFrom, AllGood;
    if |l| + 1 <= MAX_MSGSIZE {
      LocalAt(parse, ls, more, room);
      FirstLineDecides(parse, mem, l, room);
    }
  }

  lemma FirstOfBuffer(s: seq<byte>, k: nat)
    requires k < |s| && k == FindNewline(s)
    ensures LinesOf(s) != [] && LinesOf(s)[0] == s[..k]
  {}

  lemma StopsHere<T>(parse: seq<byte> -> Option<T>, ls: seq<seq<byte>>, rest: seq<seq<byte>>)
    requires AllGood(parse, ls) && rest != [] && Verdict(parse, rest[0]).None?
    ensures Delivered(parse, ls + rest) == Delivered(parse, ls) && !AllGood(parse, ls + rest)
  {
    AllDelivered(parse, ls, rest);
    assert (ls + rest)[|ls|] == rest[0];
  }

  // ----- independence of how the bytes are cut up -----

  /** If what follows a line makes no difference to the parser, then what is delivered and whether the
      client stays depend only on the bytes. */
  lemma {:induction false} FeedSync<T>(parse: seq<byte> -> Option<T>, c: Client<T>, got: seq<byte>, chunks: seq<seq<byte>>, room: nat)
    requires Sync(parse, c, got, LinesOf(got), room) && Tail(got) == c.mem[..c.bufofs] && Sized(chunks)
    requires LocalLines(parse, LinesOf(got + Flatten(chunks)), room)
    requires room == 2 * MAX_MSGSIZE || |got + Flatten(chunks)| <= room
    ensures var total := got + Flatten(chunks); var d := Feed(parse, c, chunks);
      d.messages == Delivered(parse, LinesOf(total)) && d.alive == Alive(parse, total)
    decreases |chunks|
  {
    hide Joined, LinesOf, Tail, Delivered, LocalLines, CString, Verdict, Reparse, Flatten;
    FlattenStep(got, chunks);
    if c.bufofs > MAX_MSGSIZE {
      DeadStaysDead(parse, got, Flatten(chunks));
    } else if chunks != [] {
      var more, d := got + chunks[0], ReadStep(c, chunks[0]);
      var rest := Flatten(chunks[1..]);
      ReadSync(parse, c, got, chunks[0], room);
      LinesConcat(more, rest);
      LocalPrefix(parse, LinesOf(more), LinesOf(Tail(more) + rest), room);
      ReparseSync(parse, d, more, LinesOf(got), room);
      ReparseSize(parse, d);
      var e := Reparse(parse, d);
      if e.alive {
        FeedSync(parse, e, more, chunks[1..], room);
      } else {
        DeadFeed(parse, e, chunks[1..]);
        DeadStaysDead(parse, more, rest);
      }
    }
  }

  lemma FlattenStep(got: seq<byte>, chunks: seq<seq<byte>>)
    ensures chunks == [] ==> got + Flatten(chunks) == got
    ensures chunks != [] ==> got + Flatten(chunks) == got + chunks[0] + Flatten(chunks[1..])
  {
    if chunks != [] {
      ConcatAssociative(got, chunks[0], Flatten(chunks[1..]));
    }
  }

  lemma DeadFeed<T>(parse: seq<byte> -> Option<T>, c: Client<T>, chunks: seq<seq<byte>>)
    requires |c.mem| == PAGESIZE && Sized(chunks) && !c.alive
    ensures Feed(parse, c, chunks) == c
  {}

  lemma ReadSync<T>(parse: seq<byte> -> Option<T>, c: Client<T>, got: seq<byte>, chunk: seq<byte>, room: nat)
    requires Sync(parse, c, got, LinesOf(got), room) && c.bufofs + |chunk| <= room
    ensures Sync(parse, ReadStep(c, chunk), got + chunk, LinesOf(got), room)
  {
    hide Joined, Delivered, LinesOf;
    var d := ReadStep(c, chunk);
    assert d.mem[..d.bufofs] == c.mem[..c.bufofs] + chunk;
    ConcatAssociative(Joined(LinesOf(got)), c.mem[..c.bufofs], chunk);
  }

  lemma FreshSync<T>(parse: seq<byte> -> Option<T>, room: nat)
    requires room <= 2 * MAX_MSGSIZE
    ensures LinesOf([]) == [] && Tail([]) == [] && Fresh<T>().mem[..0] == []
    ensures Sync(parse, Fresh<T>(), [], [], room)
  {}

  /** For every stream of any length, however it is cut up: if what follows makes no difference to the
      parser for each line up to the first that is no message by itself, then exactly the lines before
      that one are delivered, and the client stays exactly when there is none and the rest is not too
      long. */
  lemma LocalStream<T>(parse: seq<byte> -> Option<T>, chunks: seq<seq<byte>>)
    requires Sized(chunks) && LocalLines(parse, LinesOf(Flatten(chunks)), 2 * MAX_MSGSIZE)
    ensures var d := Feed(parse, Fresh<T>(), chunks);
      && d.messages == Delivered(parse, LinesOf(Flatten(chunks))) && d.alive == Alive(parse, Flatten(chunks))
  {
    hide LinesOf, Tail, Feed, Delivered, LocalLines, Sync, Flatten, Alive;
    FreshSync(parse, 2 * MAX_MSGSIZE);
    assert [] + Flatten(chunks) == Flatten(chunks);
    FeedSync(parse, Fresh<T>(), [], chunks, 2 * MAX_MSGSIZE);
  }

  ghost predicate SameOutcome<T>(parse: seq<byte> -> Option<T>, a: seq<seq<byte>>, b: seq<seq<byte>>)
    requires Sized(a) && Sized(b)
  {
    var c, d := Feed(parse, Fresh<T>(), a), Feed(parse, Fresh<T>(), b);
    c.messages == d.messages && c.alive == d.alive
  }

  /** What was handed on stays so; a disconnected client is handed nothing more. */
  lemma {:induction false} FeedGrows<T>(parse: seq<byte> -> Option<T>, c: Client<T>, chunks: seq<seq<byte>>)
    requires |c.mem| == PAGESIZE && Sized(chunks)
    ensures c.messages <= Feed(parse, c, chunks).messages
    ensures !c.alive ==> Feed(parse, c, chunks) == c
    decreases |chunks|
  {
    hide Reparse;
    if c.alive && c.bufofs <= MAX_MSGSIZE && chunks != [] {
      ReparseSize(parse, ReadStep(c, chunks[0]));
      FeedGrows(parse, Reparse(parse, ReadStep(c, chunks[0])), chunks[1..]);
    }
  }

  /** The first thing a client is handed when its first read ends a line. */
  lemma FirstMessage<T>(parse: seq<byte> -> Option<T>, w: seq<byte>, chunks: seq<seq<byte>>)
    requires Sized([w] + chunks) && FindNewline(w) < |w|
    ensures var d := Feed(parse, Fresh<T>(), [w] + chunks);
      match parse(CString(w))
      case None => d.messages == []
      case Some(val) => d.messages != [] && d.messages[0] == val
  {
    hide CString, Reparse;
    var c := ReadStep(Fresh<T>(), w);
    assert 1 <= |([w] + chunks)[0]| <= MAX_MSGSIZE;
    assert ([w] + chunks)[0] == w && ([w] + chunks)[1..] == chunks;
    assert c.mem[..|w|] == w && c.bufofs == |w|;
    CStringEnds(c.mem, |w|);
    FirstOfReparse(parse, c);
    ReparseSize(parse, c);
    FeedGrows(parse, Reparse(parse, c), chunks);
  }

  lemma FirstOfReparse<T>(parse: seq<byte> -> Option<T>, c: Client<T>)
    requires c.bufofs < |c.mem| && c.messages == [] && FindNewline(c.mem[..c.bufofs]) < c.bufofs <= MAX_MSGSIZE
    ensures match parse(CString(c.mem))
      case None => !Reparse(parse, c).alive && Reparse(parse, c).messages == []
      case Some(val) => [val] <= Reparse(parse, c).messages
  {
    hide CString, Drop, FindNewline;
    match parse(CString(c.mem))
    case None =>
    case Some(val) =>
      ReparseSize(parse, Drop(c, FindNewline(c.mem[..c.bufofs]) + 1).(messages := c.messages + [val]));
  }

  /** One stream in one read and in two. */
  lemma TwoCuttings(w: seq<byte>, x: seq<byte>)
    requires w != [] && x != [] && |w| + |x| <= MAX_MSGSIZE
    ensures Sized([w + x]) && Sized([w, x]) && Flatten([w + x]) == Flatten([w, x]) == w + x
  {
    assert [w + x][1..] == [] && [w, x][1..] == [x] && [x][1..] == [];
    assert Flatten([x]) == x && Flatten([w + x]) == w + x;
  }

  /** A line on which the parser is swayed by what follows: two cuttings of one stream deliver
      different messages. */
  lemma CutsDiffer<T>(parse: seq<byte> -> Option<T>, l: seq<byte>, x: seq<byte>)
    requires NL !in l && x != [] && |l| + 1 + |x| <= MAX_MSGSIZE
    ensures Sized([l + [NL] + x]) && Sized([l + [NL], x])
    ensures parse(CString(l + [NL] + x)) != parse(CString(l + [NL])) ==>
      Feed(parse, Fresh<T>(), [l + [NL] + x]).messages != Feed(parse, Fresh<T>(), [l + [NL], x]).messages
  {
    hide CString, Feed, Flatten, FindNewline;
    var w := l + [NL];
    TwoCuttings(w, x);
    FirstNewlineOf(l, x);
    FirstNewlineOf(l, []);
    Joins(w, x);
    FirstMessage(parse, w + x, []);
    FirstMessage(parse, w, [x]);
  }

  lemma Joins(w: seq<byte>, x: seq<byte>)
    ensures w + [] == w && [w + x] + [] == [w + x] && [w] + [x] == [w, x]
  {}

  lemma FirstNewlineOf(l: seq<byte>, x: seq<byte>)
    requires NL !in l
    ensures FindNewline(l + [NL] + x) == |l|
  {
    var w := l + [NL] + x;
    assert w[..|l|] == l && w[|l|] == NL;
    FirstNewline(w, |l|);
  }

  /** No line is judged by what follows it in one read. */
  ghost predicate Uniform<T>(parse: seq<byte> -> Option<T>) {
    forall l: seq<byte> :: NL !in l && |l| + 1 <= MAX_MSGSIZE ==> Local(parse, l, MAX_MSGSIZE)
  }

  /** No stream of up to MAX_MSGSIZE bytes has an outcome that depends on how it is cut up. */
  ghost predicate CuttingIrrelevant<T>(parse: seq<byte> -> Option<T>) {
    forall a: seq<seq<byte>>, b: seq<seq<byte>> ::
      Sized(a) && Sized(b) && Flatten(a) == Flatten(b) && |Flatten(a)| <= MAX_MSGSIZE ==> SameOutcome(parse, a, b)
  }

  /** Exactly for parsers that are not swayed by what follows a line is the cutting irrelevant. */
  lemma CuttingIrrelevantExactly<T>(parse: seq<byte> -> Option<T>)
    ensures CuttingIrrelevant(parse) <==> Uniform(parse)
  {
    hide Local, Flatten, CString, Feed, LinesOf, Tail;
    if Uniform(parse) {
      forall a: seq<seq<byte>>, b: seq<seq<byte>> |
        Sized(a) && Sized(b) && Flatten(a) == Flatten(b) && |Flatten(a)| <= MAX_MSGSIZE
        ensures SameOutcome(parse, a, b)
      {
        ShortStream(parse, a);
        ShortStream(parse, b);
      }
    }
    if CuttingIrrelevant(parse) {
      forall l: seq<byte> | NL !in l && |l| + 1 <= MAX_MSGSIZE
        ensures Local(parse, l, MAX_MSGSIZE)
      {
        LocalFromCuts(parse, l);
      }
    }
  }

  lemma ShortStream<T>(parse: seq<byte> -> Option<T>, chunks: seq<seq<byte>>)
    requires Uniform(parse) && Sized(chunks) && |Flatten(chunks)| <= MAX_MSGSIZE
    ensures var d := Feed(parse, Fresh<T>(), chunks);
      d.messages == Delivered(parse, LinesOf(Flatten(chunks))) && d.alive == Alive(parse, Flatten(chunks))
  {
    hide Feed, Delivered, Sync, Flatten, Alive, Local, LinesOf, Tail;
    FreshSync(parse, MAX_MSGSIZE);
    assert [] + Flatten(chunks) == Flatten(chunks);
    JoinedLines(Flatten(chunks));
    AllLocal(parse, LinesOf(Flatten(chunks)));
    FeedSync(parse, Fresh<T>(), [], chunks, MAX_MSGSIZE);
  }

  lemma {:induction false} AllLocal<T>(parse: seq<byte> -> Option<T>, ls: seq<seq<byte>>)
    requires Uniform(parse) && NoNewlines(ls)
    ensures LocalLines(parse, ls, MAX_MSGSIZE)
    decreases |ls|
  {
    hide Local, Verdict;
    if ls != [] {
      AllLocal(parse, ls[1..]);
    }
  }

  lemma LocalFromCuts<T>(parse: seq<byte> -> Option<T>, l: seq<byte>)
    requires CuttingIrrelevant(parse) && NL !in l && |l| + 1 <= MAX_MSGSIZE
    ensures Local(parse, l, MAX_MSGSIZE)
  {
    hide Flatten, CString, Feed;
    forall x: seq<byte> | |l| + 1 + |x| <= MAX_MSGSIZE
      ensures parse(CString(l + [NL] + x)) == parse(CString(l + [NL]))
    {
      var w := l + [NL];
      if x == [] {
        assert w + x == w;
      } else {
        TwoCuttings(w, x);
        CutsDiffer(parse, l, x);
        assert SameOutcome(parse, [w + x], [w, x]);
      }
    }
  }

  /** A parser that takes an object once its brace is closed, as any JSON parser does. */
  function ClosedObject(text: seq<byte>): Option<nat> {
    if text != [] && text[0] == '{' as int && '}' as int in text then Some(|text|) else None
  }

  function Text(s: string): (b: seq<byte>)
    ensures |b| == |s|
  {
    seq(|s|, i requires 0 <= i < |s| => s[i] as int % 256)
  }

  /** An object spread over two lines. */
  const OPENING := Text("{\"id\":1,")
  const CLOSING := Text("\"method\":null}") + [NL]

  lemma SpreadTexts()
    ensures NL !in OPENING && CLOSING != [] && |OPENING| + 1 + |CLOSING| <= MAX_MSGSIZE
    ensures 0 !in OPENING + [NL] && 0 !in OPENING + [NL] + CLOSING && (OPENING + [NL])[0] == '{' as int
    ensures '}' as int !in OPENING + [NL] && '}' as int in CLOSING
  {
    assert CLOSING[13] == '}' as int;
  }

  /** In one read it is delivered, in two nothing is. */
  lemma SpreadObject()
    ensures Sized([OPENING + [NL] + CLOSING]) && Sized([OPENING + [NL], CLOSING])
    ensures Flatten([OPENING + [NL] + CLOSING]) == Flatten([OPENING + [NL], CLOSING])
    ensures Feed(ClosedObject, Fresh<nat>(), [OPENING + [NL] + CLOSING]).messages != []
    ensures Feed(ClosedObject, Fresh<nat>(), [OPENING + [NL], CLOSING]).messages == []
  {
    hide Feed, Flatten, FindNewline, CString, OPENING, CLOSING;
    SpreadTexts();
    var w := OPENING + [NL];
    TwoCuttings(w, CLOSING);
    FirstNewlineOf(OPENING, CLOSING);
    FirstNewlineOf(OPENING, []);
    Joins(w, CLOSING);
    FirstMessage(ClosedObject, w + CLOSING, []);
    FirstMessage(ClosedObject, w, [CLOSING]);
    NoZeros(w);
    NoZeros(w + CLOSING);
    assert (w + CLOSING)[0] == w[0];
  }

  lemma {:induction false} NoZeros(s: seq<byte>)
    requires 0 !in s
    ensures CString(s) == s
    decreases |s|
  {
    if s != [] {
      NoZeros(s[1..]);
    }
  }

  // ----- the code -----

  lemma DropKeeps<T>(c: Client<T>, n: nat, messages: seq<T>)
    requires n <= c.bufofs < |c.mem|
    ensures Drop(c.(messages := messages), n) == Drop(c, n).(messages := messages)
  {}

  class ClientBuffer<T> {
    const buf: array<byte>
    var bufofs: nat
    var messages: seq<T>
    ghost var connected: bool

    ghost function View(): Client<T>
      reads this, buf
    {
      Client(buf[..], bufofs, messages, connected)
    }

    constructor ()
      ensures View() == Fresh<T>() && fresh(buf)
    {
      buf := new byte[PAGESIZE](_ => 0);
      bufofs, messages, connected := 0, [], true;
      new;
      assert buf[..] == seq(PAGESIZE, _ => 0);
    }

    /** A `read` behind what the buffer holds. */
    method Read(chunk: seq<byte>)
      requires bufofs + |chunk| <= buf.Length
      modifies this`bufofs, buf
      ensures View() == ReadStep(old(View()), chunk)
    {
      forall i | 0 <= i < |chunk| {
        buf[bufofs + i] := chunk[i];
      }
      bufofs := bufofs + |chunk|;
    }

    /** The `memmove` after a message, and the zero behind what is left. */
    method MoveDown(buflen: nat)
      requires buflen <= bufofs < buf.Length
      modifies this`bufofs, buf
      ensures View() == Drop(old(View()), buflen)
    {
      bufofs := bufofs - buflen;
      forall i | 0 <= i < bufofs {
        buf[i] := buf[buflen + i];
      }
      buf[bufofs] := 0;
    }

    /** `memchr` for the end of the first line. */
    method FindEol() returns (eol: nat)
      requires bufofs <= buf.Length
      ensures eol == FindNewline(buf[..bufofs])
    {
      eol := 0;
      while eol < bufofs && buf[eol] != NL
        invariant eol <= bufofs && NL !in buf[..eol]
      {
        eol := eol + 1;
      }
      assert buf[..bufofs][..eol] == buf[..eol];
      FirstNewline(buf[..bufofs], eol);
    }

    /** The inner loop: the lines in the buffer, as long as the parser takes them. */
    method HandOnLines(parse: seq<byte> -> Option<T>) returns (fine: bool)
      requires bufofs < buf.Length && connected
      modifies this`bufofs, this`messages, this`connected, buf
      ensures View() == Reparse(parse, old(View())) && fine == connected
    {
      hide CString, Drop;
      while true
        invariant bufofs < buf.Length && connected
        invariant Reparse(parse, View()) == Reparse(parse, old(View()))
        decreases bufofs
      {
        var eol := FindEol();
        assert buf[..][..bufofs] == buf[..bufofs];
        if eol == bufofs {
          return true;
        }
        if eol + 1 > MAX_MSGSIZE {
          connected := false;
          return false;
        }
        var val := parse(CString(buf[..]));
        if val.None? {
          connected := false;
          return false;
        }
        DropKeeps(View(), eol + 1, messages + [val.value]);
        messages := messages + [val.value];
        MoveDown(eol + 1);
      }
    }

    /** `parse_client_msg`, with what each `read` gives until one would block: whether the client will
        still be read from. */
    method ParseClientMsg(parse: seq<byte> -> Option<T>, chunks: seq<seq<byte>>) returns (alive: bool)
      requires buf.Length == PAGESIZE && Sized(chunks) && connected
      modifies this`bufofs, this`messages, this`connected, buf
      ensures View() == Feed(parse, old(View()), chunks) && alive == connected
    {
      hide Reparse, CString;
      ghost var goal := Feed(parse, View(), chunks);
      var i := 0;
      assert chunks[0..] == chunks;
      while true
        invariant i <= |chunks| && connected && buf.Length == PAGESIZE
        invariant Feed(parse, View(), chunks[i..]) == goal
        decreases |chunks| - i
      {
        if bufofs > MAX_MSGSIZE {
          connected := false;
          return false;
        }
        if i == |chunks| {
          return true;
        }
        assert chunks[i..][0] == chunks[i] && chunks[i..][1..] == chunks[i + 1..];
        Read(chunks[i]);
        i := i + 1;
        var fine := HandOnLines(parse);
        if !fine {
          DeadFeed(parse, View(), chunks[i..]);
          return false;
        }
      }
    }
  }
}
