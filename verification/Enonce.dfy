/** Extranonces of stratifier.c: `new_enonce1`, saved sessions, and the strings miners get. */
module Enonce {
  import opened Bytes
  import opened Sequences
  import Hex

  /** A stratum client. `enonce` is its 64-bit extranonce, 0 while it has none. */
  datatype Client = Client(enonce: nat, sessionId: int, subscribed: bool, authorised: bool, dropped: bool)

  /** A disconnected session that can be taken up again. */
  datatype Session = Session(sessionId: int, enonce: nat, added: int)

  datatype State = State(counter: nat, clients: map<int, Client>, sessions: seq<Session>)

  /** A new connection gets some session id; a subscription may name an old one, or 0. */
  datatype Event =
    | Connect(id: int, sessionId: int)
    | Subscribe(id: int, resume: int)
    | Authorise(id: int)
    | Drop(id: int, now: int)
    | Reap(id: int)

  const WIDTH := 0x1_0000_0000_0000_0000

  // ----- the steps -----

  function FindSession(ss: seq<Session>, sessionId: int): (k: nat)
    ensures k <= |ss|
    ensures k < |ss| ==> ss[k].sessionId == sessionId
    ensures forall i :: 0 <= i < k ==> ss[i].sessionId != sessionId
  {
    if ss == [] || ss[0].sessionId == sessionId then 0 else 1 + FindSession(ss[1..], sessionId)
  }

  /** Sessions at most 600 seconds old. */
  function Fresh(ss: seq<Session>, now: int): (r: seq<Session>) {
    if ss == [] then [] else (if now - ss[0].added > 600 then [] else [ss[0]]) + Fresh(ss[1..], now)
  }

  /** A subscription: the extranonce of the session taken up, or the next new one. */
  function SubscribeStep(s: State, id: int, resume: int): State
    requires id in s.clients && !s.clients[id].subscribed
  {
    var k := FindSession(s.sessions, resume);
    var c := s.clients[id].(subscribed := true);
    if resume != 0 && k < |s.sessions| && s.sessions[k].enonce != 0 then
      s.(clients := s.clients[id := c.(enonce := s.sessions[k].enonce)], sessions := Without(s.sessions, k))
    else
      var rest := if resume != 0 && k < |s.sessions| then Without(s.sessions, k) else s.sessions;
      var next := (s.counter + 1) % WIDTH;
      State(next, s.clients[id := c.(enonce := next)], rest)
  }

  /** `__disconnect_session`: old sessions expire, and an authorised client's session is saved. */
  function SaveStep(s: State, id: int, now: int): seq<Session>
    requires id in s.clients
  {
    var c, kept := s.clients[id], Fresh(s.sessions, now);
    if c.enonce == 0 || !c.authorised || FindSession(kept, c.sessionId) < |kept| then kept
    else kept + [Session(c.sessionId, c.enonce, now)]
  }

  function Step(s: State, e: Event): State {
    match e
    case Connect(id, sessionId) =>
      if id in s.clients then s else s.(clients := s.clients[id := Client(0, sessionId, false, false, false)])
    case Subscribe(id, resume) =>
      if id in s.clients && !s.clients[id].subscribed then SubscribeStep(s, id, resume) else s
    case Authorise(id) =>
      if id in s.clients then s.(clients := s.clients[id := s.clients[id].(authorised := true)]) else s
    case Drop(id, now) =>
      if id in s.clients && !s.clients[id].dropped then
        State(s.counter, s.clients[id := s.clients[id].(dropped := true)], SaveStep(s, id, now))
      else s
    case Reap(id) =>
      if id in s.clients && s.clients[id].dropped then s.(clients := s.clients - {id}) else s
  }

  function Run(s: State, events: seq<Event>): State {
    if events == [] then s else Step(Run(s, events[..|events| - 1]), events[|events| - 1])
  }

  function Initial(start: nat): State {
    State(start, map[], [])
  }

  // ----- extranonces are unique -----

  /** A client that is connected and has an extranonce. */
  predicate Holds(s: State, id: int) {
    id in s.clients && !s.clients[id].dropped && s.clients[id].enonce != 0
  }

  /** No two among the live clients and the saved sessions have the same extranonce. */
  ghost predicate Unshared(s: State) {
    && (forall i, j :: i != j && Holds(s, i) && Holds(s, j) ==> s.clients[i].enonce != s.clients[j].enonce)
    && (forall i, k :: Holds(s, i) && 0 <= k < |s.sessions| ==> s.clients[i].enonce != s.sessions[k].enonce)
    && (forall k, l :: 0 <= k < l < |s.sessions| ==> s.sessions[k].enonce != s.sessions[l].enonce)
  }

  /** Every extranonce about was counted after the start. */
  ghost predicate Counted(s: State, start: nat) {
    && start <= s.counter
    && (forall i :: Holds(s, i) ==> start < s.clients[i].enonce <= s.counter)
    && (forall k :: 0 <= k < |s.sessions| ==> start < s.sessions[k].enonce <= s.counter)
  }

  lemma {:induction false} FreshAreOld(ss: seq<Session>, now: int)
    requires forall k, l :: 0 <= k < l < |ss| ==> ss[k].enonce != ss[l].enonce
    ensures var r := Fresh(ss, now);
      && (forall k :: 0 <= k < |r| ==> r[k] in ss)
      && (forall k, l :: 0 <= k < l < |r| ==> r[k].enonce != r[l].enonce)
      && (forall x :: x in r <==> x in ss && now - x.added <= 600)
    decreases |ss|
  {
    if ss != [] {
      FreshAreOld(ss[1..], now);
      var r := Fresh(ss[1..], now);
      forall l | 0 <= l < |r|
        ensures r[l].enonce != ss[0].enonce
      {
        assert r[l] in ss[1..];
      }
      assert forall x :: x in ss <==> x == ss[0] || x in ss[1..];
    }
  }

  lemma StepKeepsDistinct(s: State, e: Event, start: nat)
    requires Unshared(s) && Counted(s, start) && s.counter + 1 < WIDTH
    ensures Unshared(Step(s, e)) && Counted(Step(s, e), start) && Step(s, e).counter <= s.counter + 1
  {
    hide SubscribeStep, SaveStep;
    match e
    case Drop(id, now) =>
      if id in s.clients && !s.clients[id].dropped {
        SaveKeepsDistinct(s, id, now, start);
      }
    case Subscribe(id, resume) =>
      if id in s.clients && !s.clients[id].subscribed {
        SubscribeKeepsDistinct(s, id, resume, start);
      }
    case _ =>
      assert forall i :: Holds(Step(s, e), i) ==> Holds(s, i) && Step(s, e).clients[i].enonce == s.clients[i].enonce;
  }

  lemma SubscribeKeepsDistinct(s: State, id: int, resume: int, start: nat)
    requires Unshared(s) && Counted(s, start) && s.counter + 1 < WIDTH && id in s.clients && !s.clients[id].subscribed
    ensures Unshared(SubscribeStep(s, id, resume)) && Counted(SubscribeStep(s, id, resume), start)
    ensures SubscribeStep(s, id, resume).counter <= s.counter + 1
  {
    hide Unshared, Counted, Holds;
    var t, k := SubscribeStep(s, id, resume), FindSession(s.sessions, resume);
    if resume != 0 && k < |s.sessions| {
      Removed(s, k);
      var u := s.(sessions := Without(s.sessions, k));
      CountedLess(s, k, start);
      if s.sessions[k].enonce != 0 {
        GiveEnonce(u, t, id, s.sessions[k].enonce, start);
      } else {
        NewEnonce(u, start);
        GiveEnonce(u, t, id, t.counter, start);
      }
    } else {
      NewEnonce(s, start);
      GiveEnonce(s, t, id, t.counter, start);
    }
  }

  /** `v` is nobody's extranonce. */
  ghost predicate Unused(s: State, v: nat) {
    && (forall i :: Holds(s, i) ==> s.clients[i].enonce != v)
    && (forall k :: 0 <= k < |s.sessions| ==> s.sessions[k].enonce != v)
  }

  lemma NewEnonce(s: State, start: nat)
    requires Counted(s, start)
    ensures Unused(s, s.counter + 1) && start < s.counter + 1
  {}

  /** A session taken out frees its extranonce. */
  lemma Removed(s: State, k: nat)
    requires Unshared(s) && k < |s.sessions|
    ensures var u := s.(sessions := Without(s.sessions, k)); Unshared(u) && Unused(u, s.sessions[k].enonce)
  {
    var u := s.(sessions := Without(s.sessions, k));
    assert forall m :: 0 <= m < |u.sessions| ==> u.sessions[m] == s.sessions[if m < k then m else m + 1];
    assert forall i :: Holds(u, i) <==> Holds(s, i);
  }

  lemma CountedLess(s: State, k: nat, start: nat)
    requires Counted(s, start) && k < |s.sessions|
    ensures Counted(s.(sessions := Without(s.sessions, k)), start) && start < s.sessions[k].enonce <= s.counter
  {
    var u := s.(sessions := Without(s.sessions, k));
    assert forall m :: 0 <= m < |u.sessions| ==> u.sessions[m] == s.sessions[if m < k then m else m + 1];
    assert forall i :: Holds(u, i) <==> Holds(s, i);
  }

  /** A client may be given an extranonce nobody else has. */
  lemma GiveEnonce(s: State, t: State, id: int, v: nat, start: nat)
    requires Unshared(s) && Counted(s, start) && id in s.clients && Unused(s, v) && start < v <= t.counter && s.counter <= t.counter
    requires t.sessions == s.sessions && t.clients == s.clients[id := s.clients[id].(subscribed := true, enonce := v)]
    ensures Unshared(t) && Counted(t, start)
  {
    assert forall i :: i != id && Holds(t, i) ==> Holds(s, i) && t.clients[i] == s.clients[i];
  }

  lemma SaveKeepsDistinct(s: State, id: int, now: int, start: nat)
    requires Unshared(s) && Counted(s, start) && id in s.clients && !s.clients[id].dropped
    ensures Unshared(Step(s, Drop(id, now))) && Counted(Step(s, Drop(id, now)), start)
  {
    FreshAreOld(s.sessions, now);
    hide Fresh;
    var kept, t := Fresh(s.sessions, now), Step(s, Drop(id, now));
    forall k | 0 <= k < |kept|
      ensures start < kept[k].enonce <= s.counter && forall i :: Holds(s, i) ==> s.clients[i].enonce != kept[k].enonce
    {
      assert kept[k] in s.sessions;
    }
    assert forall i :: Holds(t, i) ==> Holds(s, i) && i != id && t.clients[i] == s.clients[i];
  }

  /** In every run short of the counter's width no extranonce is shared. */
  lemma {:induction false} EnoncesUnique(start: nat, events: seq<Event>)
    requires start + |events| < WIDTH
    ensures var s := Run(Initial(start), events);
      Unshared(s) && Counted(s, start) && s.counter <= start + |events|
    decreases |events|
  {
    if events != [] {
      EnoncesUnique(start, events[..|events| - 1]);
      StepKeepsDistinct(Run(Initial(start), events[..|events| - 1]), events[|events| - 1], start);
    }
  }

  lemma {:induction false} RunKeepsDistinct(s: State, events: seq<Event>, start: nat)
    requires Unshared(s) && Counted(s, start) && s.counter + |events| < WIDTH
    ensures var t := Run(s, events); Unshared(t) && Counted(t, start) && t.counter <= s.counter + |events|
    decreases |events|
  {
    hide Unshared, Counted, Step;
    if events != [] {
      RunKeepsDistinct(s, events[..|events| - 1], start);
      StepKeepsDistinct(Run(s, events[..|events| - 1]), events[|events| - 1], start);
    }
  }

  /** `x` is saved, and is the only session with its id. */
  ghost predicate Saved(s: State, x: Session) {
    x in s.sessions && forall y :: y in s.sessions && y.sessionId == x.sessionId ==> y == x
  }

  /** Events within 600 seconds of `x` being saved, none of which takes it up. */
  ghost predicate Quiet(events: seq<Event>, x: Session) {
    forall e :: e in events ==> (e.Drop? ==> e.now - x.added <= 600) && (e.Subscribe? ==> e.resume != x.sessionId)
  }

  lemma {:induction false} FreshKeeps(ss: seq<Session>, now: int, x: Session)
    ensures x in Fresh(ss, now) <==> x in ss && now - x.added <= 600
    decreases |ss|
  {
    if ss != [] {
      FreshKeeps(ss[1..], now, x);
      assert x in ss <==> x == ss[0] || x in ss[1..];
    }
  }

  lemma StaysSaved(s: State, e: Event, x: Session)
    requires Saved(s, x) && Quiet([e], x)
    ensures Saved(Step(s, e), x)
  {
    hide Fresh;
    assert e in [e];
    match e
    case Drop(id, now) =>
      if id in s.clients && !s.clients[id].dropped {
        var kept := Fresh(s.sessions, now);
        forall y
          ensures y in kept ==> y in s.sessions
        {
          FreshKeeps(s.sessions, now, y);
        }
        FreshKeeps(s.sessions, now, x);
        if FindSession(kept, s.clients[id].sessionId) == |kept| {
          NoSuchSession(kept, s.clients[id].sessionId, x);
        }
      }
    case Subscribe(id, resume) =>
      var k := FindSession(s.sessions, resume);
      if k < |s.sessions| {
        var i :| 0 <= i < |s.sessions| && s.sessions[i] == x;
        assert Without(s.sessions, k)[if i < k then i else i - 1] == x;
        assert forall y :: y in Without(s.sessions, k) ==> y in s.sessions;
      }
    case _ =>
  }

  lemma NoSuchSession(ss: seq<Session>, sessionId: int, x: Session)
    requires FindSession(ss, sessionId) == |ss| && x in ss
    ensures x.sessionId != sessionId
  {
    var i :| 0 <= i < |ss| && ss[i] == x;
  }

  lemma {:induction false} StaysSavedOver(s: State, events: seq<Event>, x: Session)
    requires Saved(s, x) && Quiet(events, x)
    ensures Saved(Run(s, events), x)
    decreases |events|
  {
    hide Saved, Step;
    if events != [] {
      StaysSavedOver(s, events[..|events| - 1], x);
      StaysSaved(Run(s, events[..|events| - 1]), events[|events| - 1], x);
    }
  }

  /** A drop leaves the sessions that are at most 600 seconds old, and adds none but that of an authorised
      client with an extranonce. */
  lemma DropSaves(s: State, id: int, now: int, x: Session)
    requires id in s.clients && !s.clients[id].dropped
    ensures
      var c, after := s.clients[id], Step(s, Drop(id, now)).sessions;
      && (x in s.sessions && now - x.added <= 600 ==> x in after)
      && (x in after ==> now - x.added <= 600)
      && (x in after && x !in s.sessions ==> x == Session(c.sessionId, c.enonce, now) && c.authorised && c.enonce != 0)
  {
    FreshKeeps(s.sessions, now, x);
    hide Fresh;
  }

  /** An authorised client is dropped; whatever happens in between, if it comes back within 600 seconds,
      naming its session as nobody did before, it gets its extranonce again, which nobody else had in
      the meantime. */
  lemma ResumedEnonce(s: State, id: int, now: int, events: seq<Event>, other: int, start: nat)
    requires Unshared(s) && Counted(s, start) && s.counter + |events| + 1 < WIDTH
    requires Holds(s, id) && s.clients[id].authorised && s.clients[id].sessionId != 0
    requires forall y :: y in Fresh(s.sessions, now) ==> y.sessionId != s.clients[id].sessionId
    requires Quiet(events, Session(s.clients[id].sessionId, s.clients[id].enonce, now))
    requires var t := Run(Step(s, Drop(id, now)), events); other in t.clients && !t.clients[other].subscribed
    ensures var t := Run(Step(s, Drop(id, now)), events); var enonce := s.clients[id].enonce;
      && (forall i :: Holds(t, i) ==> t.clients[i].enonce != enonce)
      && Step(t, Subscribe(other, s.clients[id].sessionId)).clients[other].enonce == enonce
  {
    var x := Session(s.clients[id].sessionId, s.clients[id].enonce, now);
    var d := Step(s, Drop(id, now));
    JustSaved(s, id, now);
    StepKeepsDistinct(s, Drop(id, now), start);
    assert d.counter == s.counter;
    RunKeepsDistinct(d, events, start);
    StaysSavedOver(d, events, x);
    TakenUp(Run(d, events), x, other);
  }

  lemma JustSaved(s: State, id: int, now: int)
    requires Holds(s, id) && s.clients[id].authorised
    requires forall y :: y in Fresh(s.sessions, now) ==> y.sessionId != s.clients[id].sessionId
    ensures Saved(Step(s, Drop(id, now)), Session(s.clients[id].sessionId, s.clients[id].enonce, now))
  {
    hide Fresh;
    var kept := Fresh(s.sessions, now);
    NotFound(kept, s.clients[id].sessionId);
  }

  lemma {:induction false} NotFound(ss: seq<Session>, sessionId: int)
    requires forall y :: y in ss ==> y.sessionId != sessionId
    ensures FindSession(ss, sessionId) == |ss|
    decreases |ss|
  {
    if ss != [] {
      NotFound(ss[1..], sessionId);
    }
  }

  lemma TakenUp(t: State, x: Session, other: int)
    requires Unshared(t) && Saved(t, x) && x.sessionId != 0 && x.enonce != 0 && other in t.clients && !t.clients[other].subscribed
    ensures forall i :: Holds(t, i) ==> t.clients[i].enonce != x.enonce
    ensures Step(t, Subscribe(other, x.sessionId)).clients[other].enonce == x.enonce
  {
    var i :| 0 <= i < |t.sessions| && t.sessions[i] == x;
    var k := FindSession(t.sessions, x.sessionId);
    assert k < |t.sessions| ==> t.sessions[k] in t.sessions;
  }

  // ----- the strings -----

  /** `enonce1bin`: the first `n` bytes of the little endian number. */
  function EnonceBytes(enonce: nat, n: nat): (b: seq<byte>)
    requires n <= 8
    ensures |b| == n
  {
    ToLittleEndian(enonce, 8)[..n]
  }

  lemma {:induction false} SameBytes(a: nat, b: nat, m: nat, n: nat)
    requires n <= m
    ensures ToLittleEndian(a, m)[..n] == ToLittleEndian(b, m)[..n] <==> a % Pow(256, n) == b % Pow(256, n)
    decreases n
  {
    if n > 0 {
      var p := Pow(256, n - 1);
      SameBytes(a / 256, b / 256, m - 1, n - 1);
      SplitRemainder(a, p);
      SplitRemainder(b, p);
      var x, y := ToLittleEndian(a, m), ToLittleEndian(b, m);
      assert x[..n] == [x[0]] + ToLittleEndian(a / 256, m - 1)[..n - 1];
      assert y[..n] == [y[0]] + ToLittleEndian(b / 256, m - 1)[..n - 1];
      assert x[..n] == y[..n] ==> x[..n][1..] == y[..n][1..] && x[..n][0] == y[..n][0];
    }
  }

  lemma SplitRemainder(a: nat, p: nat)
    requires p > 0
    ensures a % (256 * p) == 256 * (a / 256 % p) + a % 256
  {
    var q, r := a / 256 / p, a / 256 % p;
    assert a / 256 == q * p + r;
    MulAssociative(q, 256, p);
    assert a == q * (256 * p) + (256 * r + a % 256);
    DivUnique(a, 256 * p, q, 256 * r + a % 256);
  }

  /** Two extranonces give the same bytes exactly when they differ by a multiple of 256^n; so any two
      less than that apart give different ones. */
  lemma EnonceStringsDiffer(a: nat, b: nat, n: nat)
    requires n <= 8
    ensures EnonceBytes(a, n) == EnonceBytes(b, n) <==> a % Pow(256, n) == b % Pow(256, n)
    ensures a < b < a + Pow(256, n) ==> EnonceBytes(a, n) != EnonceBytes(b, n)
  {
    SameBytes(a, b, 8, n);
    if a < b < a + Pow(256, n) {
      CloseDiffer(a, b, Pow(256, n));
    }
  }

  lemma CloseDiffer(a: nat, b: nat, d: nat)
    requires d > 0 && a < b < a + d
    ensures a % d != b % d
  {
    var q, r := a / d, a % d;
    assert a == q * d + r;
    if r + (b - a) < d {
      DivUnique(b, d, q, r + (b - a));
    } else {
      assert b == (q + 1) * d + (r + (b - a) - d);
      DivUnique(b, d, q + 1, r + (b - a) - d);
    }
  }

  // ----- the pool's data -----

  class Sdata {
    var enonce1_64: nat
    var instances: map<int, Client>
    var disconnected: seq<Session>

    ghost function S(): State
      reads this
    {
      State(enonce1_64, instances, disconnected)
    }

    constructor (randomiser: nat)
      ensures S() == Initial(randomiser)
    {
      enonce1_64, instances, disconnected := randomiser, map[], [];
    }

    /** `disconnected_sessionid_exists`: takes a session off the list and returns its extranonce, or 0. */
    method DisconnectedSessionidExists(sessionId: int) returns (enonce: nat)
      modifies this`disconnected
      ensures var ss := old(disconnected); var k := FindSession(ss, sessionId);
        enonce == (if k < |ss| then ss[k].enonce else 0) && disconnected == if k < |ss| then Without(ss, k) else ss
    {
      var k := 0;
      while k < |disconnected| && disconnected[k].sessionId != sessionId
        invariant k <= |disconnected| && forall i :: 0 <= i < k ==> disconnected[i].sessionId != sessionId
      {
        k := k + 1;
      }
      FoundSession(disconnected, sessionId, k);
      if k == |disconnected| {
        return 0;
      }
      enonce := disconnected[k].enonce;
      disconnected := Without(disconnected, k);
    }

    /** `parse_subscribe` for a client that has not subscribed. */
    method ParseSubscribe(id: int, sessionId: int)
      requires id in instances && !instances[id].subscribed
      modifies this
      ensures S() == SubscribeStep(old(S()), id, sessionId)
    {
      var enonce := 0;
      if sessionId != 0 {
        enonce := DisconnectedSessionidExists(sessionId);
      }
      if enonce == 0 {
        enonce1_64 := (enonce1_64 + 1) % WIDTH;
        enonce := enonce1_64;
      }
      instances := instances[id := instances[id].(subscribed := true, enonce := enonce)];
    }

    /** The ageing loop of `__disconnect_session`. */
    method AgeSessions(now: int)
      modifies this`disconnected
      ensures disconnected == Fresh(old(disconnected), now)
    {
      var todo, kept := disconnected, [];
      while todo != []
        invariant kept + Fresh(todo, now) == Fresh(disconnected, now)
        decreases |todo|
      {
        if now - todo[0].added <= 600 {
          kept := kept + [todo[0]];
        }
        todo := todo[1..];
      }
      disconnected := kept;
    }

    /** `__disconnect_session`. */
    method DisconnectSession(id: int, now: int)
      requires id in instances
      modifies this`disconnected
      ensures disconnected == SaveStep(old(S()), id, now)
    {
      AgeSessions(now);
      var client := instances[id];
      if client.enonce == 0 || !client.authorised {
        return;
      }
      var k := 0;
      while k < |disconnected| && disconnected[k].sessionId != client.sessionId
        invariant k <= |disconnected| && forall i :: 0 <= i < k ==> disconnected[i].sessionId != client.sessionId
      {
        k := k + 1;
      }
      FoundSession(disconnected, client.sessionId, k);
      if k < |disconnected| {
        return;
      }
      disconnected := disconnected + [Session(client.sessionId, client.enonce, now)];
    }

    /** `drop_client`. */
    method DropClient(id: int, now: int)
      modifies this
      ensures S() == Step(old(S()), Drop(id, now))
    {
      if id in instances && !instances[id].dropped {
        DisconnectSession(id, now);
        instances := instances[id := instances[id].(dropped := true)];
      }
    }

    /** `__fill_enonce1data`: the text a miner is sent stands for the first bytes of its extranonce. */
    method FillEnonce1Data(id: int, enonce1varlen: nat) returns (enonce1bin: seq<byte>, enonce1: string)
      requires id in instances && enonce1varlen <= 8
      ensures enonce1bin == EnonceBytes(instances[id].enonce, enonce1varlen)
      ensures Hex.IsHexOf(enonce1, enonce1varlen) && Hex.HexDecode(enonce1) == enonce1bin
    {
      enonce1bin := ToLittleEndian(instances[id].enonce, 8)[..enonce1varlen];
      enonce1 := Hex.Bin2Hex(enonce1bin);
    }
  }

  lemma {:induction false} FoundSession(ss: seq<Session>, sessionId: int, k: nat)
    requires k <= |ss| && (k < |ss| ==> ss[k].sessionId == sessionId)
    requires forall i :: 0 <= i < k ==> ss[i].sessionId != sessionId
    ensures FindSession(ss, sessionId) == k
    decreases |ss|
  {
    if k > 0 {
      FoundSession(ss[1..], sessionId, k - 1);
    }
  }
}
