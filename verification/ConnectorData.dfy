/** The connector's shared data and the functions of connector.c that change it, each proved against
    the steps of module Connector. */
module ConnectorData {
  import opened Sequences
  import opened Bytes
  import opened Wrappers
  import opened Connector

  /** What a `write` to a non-blocking socket does: it takes some bytes, would block, or fails. */
  datatype WriteResult = Took(n: nat) | WouldBlock | Error

  /** What `accept` does: it connects a client, fails for now, or fails for good. */
  datatype AcceptResult = Connected | Unregistered | TryAgain | Refused

  /** The write loop of `send_sender_send` on the spec's state; with no result left it would block. */
  function Attempt(s: State, results: seq<WriteResult>, now: int): State
    requires Enabled(s, Fail)
    decreases |results|
  {
    if results == [] || results[0].WouldBlock? || (results[0].Took? && results[0].n == 0) then
      if TimedOut(s.mem[s.sends[s.cur].client], now) then Step(s, Fail) else Step(s, Block(now))
    else if results[0].Error? then Step(s, Fail)
    else
      var n := if results[0].n < s.sends[s.cur].len then results[0].n else s.sends[s.cur].len;
      var t := Step(s, Write(n));
      if t.phase.Clearing? then t else Attempt(t, results[1..], now)
  }

  /** The loop is a run of steps. */
  lemma {:induction false} AttemptIsRun(s: State, results: seq<WriteResult>, now: int) returns (events: seq<Event>)
    requires Enabled(s, Fail)
    ensures Attempt(s, results, now) == Run(s, events)
    decreases |results|
  {
    hide Step;
    if results == [] || results[0].WouldBlock? || (results[0].Took? && results[0].n == 0) {
      var e := if TimedOut(s.mem[s.sends[s.cur].client], now) then Fail else Block(now);
      events := [e];
      RunOne(s, e);
    } else if results[0].Error? {
      events := [Fail];
      RunOne(s, Fail);
    } else {
      var n := if results[0].n < s.sends[s.cur].len then results[0].n else s.sends[s.cur].len;
      var t := Step(s, Write(n));
      events := [Write(n)];
      RunOne(s, Write(n));
      StillWriting(s, n);
      if !t.phase.Clearing? {
        var more := AttemptIsRun(t, results[1..], now);
        RunConcat(s, events, more);
        events := events + more;
      }
    }
  }

  lemma StillWriting(s: State, n: nat)
    requires Enabled(s, Fail)
    ensures Step(s, Write(n)).phase.Clearing? || Enabled(Step(s, Write(n)), Fail)
  {}

  lemma WrotePhase(s: State, n: nat)
    requires s.cur < |s.sends| && s.sends[s.cur].client < |s.mem|
    requires n <= s.sends[s.cur].len && s.sends[s.cur].ofs + s.sends[s.cur].len == |s.sends[s.cur].buf|
    ensures WriteStep(s, n).phase.Clearing? <==> n == s.sends[s.cur].len || s.phase.Clearing?
    ensures Wrote(s, n).cur < |Wrote(s, n).sends| && Wrote(s, n).sends[s.cur].client < |Wrote(s, n).mem|
    ensures Wrote(s, n).phase == s.phase && Wrote(s, n).cur == s.cur
  {}

  /** One turn of the loop after a `write` that took bytes. */
  lemma AttemptTook(s: State, results: seq<WriteResult>, i: nat, now: int)
    requires i < |results| && results[i].Took? && results[i].n > 0
    requires s.phase == Writing && s.cur < |s.sends| && s.sends[s.cur].client < |s.mem| && !s.mem[s.sends[s.cur].client].invalid
    requires s.sends[s.cur].ofs + s.sends[s.cur].len == |s.sends[s.cur].buf| && s.sends[s.cur].len > 0
    ensures var n := if results[i].n < s.sends[s.cur].len then results[i].n else s.sends[s.cur].len; var t := Wrote(s, n);
      Attempt(s, results[i..], now) == if n == s.sends[s.cur].len then Done(t) else Attempt(t, results[i + 1..], now)
  {
    hide Done, Wrote, AcceptStep, RefStep, CullStep, DropAllStep, FailStep, VisitStep, QueueStep, SpliceStep, ClearStep;
    assert results[i..][1..] == results[i + 1..];
    var n := if results[i].n < s.sends[s.cur].len then results[i].n else s.sends[s.cur].len;
    assert Step(s, Write(n)) == WriteStep(s, n);
    WrotePhase(s, n);
  }

  /** How the loop stops before the message is written. */
  lemma AttemptEnds(s: State, results: seq<WriteResult>, i: nat, now: int)
    requires Enabled(s, Fail) && i <= |results|
    ensures i < |results| && results[i].Error? ==> Attempt(s, results[i..], now) == FailStep(s)
    ensures i == |results| || results[i].WouldBlock? || (results[i].Took? && results[i].n == 0) ==>
      Attempt(s, results[i..], now) == if TimedOut(s.mem[s.sends[s.cur].client], now) then FailStep(s) else BlockStep(s, now)
  {}

  lemma RunOne(s: State, e: Event)
    ensures Run(s, [e]) == Step(s, e)
  {
    assert [e][..0] == [];
  }

  lemma {:induction false} RunConcat(s: State, a: seq<Event>, b: seq<Event>)
    ensures Run(s, a + b) == Run(Run(s, a), b)
    decreases |b|
  {
    if b == [] {
      assert a + b == a;
    } else {
      RunConcat(s, a, b[..|b| - 1]);
      assert (a + b)[..|a + b| - 1] == a + b[..|b| - 1];
    }
  }

  class Cdata {
    var mem: seq<Client>
    var live: seq<nat>
    var dead: seq<nat>
    var recycled: seq<nat>
    var clientIds: int
    ghost var issued: seq<int>
    var sends: seq<Send>
    var incoming: seq<Send>
    var cur: nat
    var phase: Phase
    var nextSid: nat

    ghost function S(): State
      reads this
    {
      State(mem, live, dead, recycled, clientIds, issued, sends, incoming, cur, phase, nextSid)
    }

    constructor (servers: nat)
      ensures S() == Initial(servers)
    {
      mem, live, dead, recycled := [], [], [], [];
      clientIds, issued := servers, [];
      sends, incoming, cur, phase, nextSid := [], [], 0, Scanning, 0;
    }

    /** `recruit_client` and `accept_client`, for every outcome of `accept` and of the registration with
        epoll. */
    method AcceptClient(outcome: AcceptResult, ghost servers: nat) returns (p: nat)
      requires Inv(S(), servers)
      modifies this
      ensures S() == match outcome
        case Connected => Step(old(S()), Accept)
        case Unregistered => UnregisteredStep(old(S()))
        case TryAgain => Step(old(S()), AcceptRetry)
        case Refused => Step(old(S()), AcceptFail)
      ensures p < |mem| && p !in old(live + dead) && (outcome.Connected? ==> mem[p].id == old(clientIds))
    {
      hide Inv, AcceptStep, AcceptRetryStep, AcceptFailStep, UnregisteredStep, Recruit;
      AcceptFrom(S(), servers);
      p := RecruitClient();
      match outcome
      case TryAgain => mem := mem[p := mem[p].(lost := true)];
      case Refused => RecycleClient(p);
      case Connected => AddClient(p);
      case Unregistered =>
        AddClient(p);
        mem := mem[p := mem[p].(ref := mem[p].ref - 1)];
    }

    /** `__recycle_client`. */
    method RecycleClient(p: nat)
      requires p < |mem|
      modifies this`mem, this`recycled
      ensures mem == old(mem[p := BLANK]) && recycled == old(recycled) + [p]
    {
      mem := mem[p := BLANK];
      recycled := recycled + [p];
    }

    /** The end of `accept_client`: id, live table, and the reference of the epoll entry. */
    method AddClient(p: nat)
      requires p < |mem|
      modifies this`mem, this`live, this`clientIds, this`issued
      ensures mem == old(mem[p := mem[p].(id := clientIds, ref := mem[p].ref + 1)]) && live == old(live) + [p]
      ensures clientIds == old(clientIds) + 1 && issued == old(issued) + [old(clientIds)]
    {
      mem := mem[p := mem[p].(id := clientIds)];
      issued := issued + [clientIds];
      clientIds := clientIds + 1;
      live := live + [p];
      mem := mem[p := mem[p].(ref := mem[p].ref + 1)];
    }

    /** `recruit_client`. */
    method RecruitClient() returns (p: nat)
      requires recycled != [] ==> recycled[0] < |mem|
      modifies this`mem, this`recycled
      ensures p == Recruit(old(S())) < |mem|
      ensures mem == old(if recycled != [] then mem else mem + [BLANK])
      ensures recycled == old(if recycled != [] then recycled[1..] else [])
    {
      if recycled != [] {
        p := recycled[0];
        recycled := recycled[1..];
      } else {
        p := |mem|;
        mem := mem + [BLANK];
      }
    }

    /** `ref_client_by_id`: a reference to the live client with an id, if there is one. */
    method RefClientById(id: int, ghost servers: nat) returns (client: Option<nat>)
      requires Inv(S(), servers)
      modifies this`mem
      ensures S() == Step(old(S()), Ref(id))
      ensures client.None? ==> forall i :: 0 <= i < |live| ==> live[i] < |mem| && mem[live[i]].id != id
      ensures client.Some? ==> client.value in live && client.value < |mem| && mem[client.value].id == id
    {
      hide Core, Unfinished, NoneDangling;
      LiveOnes(S(), servers);
      var k := 0;
      while k < |live| && mem[live[k]].id != id
        invariant k <= |live|
        invariant forall i :: 0 <= i < k ==> mem[live[i]].id != id
      {
        k := k + 1;
      }
      FoundLive(mem, live, id, k);
      if k < |live| {
        var p := live[k];
        mem := mem[p := mem[p].(ref := mem[p].ref + 1, held := mem[p].held + 1)];
        client := Some(p);
      } else {
        client := None;
      }
    }

    /** `__drop_client`. */
    method DropClient(p: nat) returns (dropped: bool)
      requires p < |mem|
      modifies this`mem, this`live, this`dead
      ensures S() == DropStep(old(S()), p) && dropped == !old(mem[p].invalid)
    {
      dropped := !mem[p].invalid;
      if dropped {
        mem := mem[p := mem[p].(invalid := true)];
        live := Remove(live, p);
        dead := dead + [p];
        mem := mem[p := mem[p].(ref := mem[p].ref - 1)];
      }
    }

    /** `drop_all_clients`. */
    method DropAllClients()
      requires forall i :: 0 <= i < |live| ==> live[i] < |mem|
      modifies this`mem, this`live, this`dead
      ensures S() == Step(old(S()), DropAll)
    {
      hide DropStep;
      ghost var goal := DropAllStep(S(), live);
      var todo: seq<nat> := live;
      while todo != []
        invariant DropAllStep(S(), todo) == goal
        invariant forall i :: 0 <= i < |todo| ==> todo[i] < |mem|
        decreases |todo|
      {
        DropLength(S(), todo[0]);
        var _ := DropClient(todo[0]);
        todo := todo[1..];
      }
    }

    /** `invalidate_client`: drops a client and culls those dead ones nothing refers to. */
    method InvalidateClient(p: nat, ghost servers: nat)
      requires Inv(S(), servers) && p < |mem| && InUse(mem[p])
      modifies this`mem, this`live, this`dead, this`recycled
      ensures S() == CullStep(DropStep(old(S()), p))
    {
      var _ := DropClient(p);
      DropKeeps(old(S()), servers, p);
      DeadOnes(S(), servers);
      CullDead();
    }

    /** The culling loop of `invalidate_client`. */
    method CullDead()
      requires Distinct(dead) && forall i :: 0 <= i < |dead| ==> dead[i] < |mem|
      modifies this`mem, this`dead, this`recycled
      ensures S() == CullStep(old(S()))
    {
      hide Pick, CulledUpTo, Idle, Distinct;
      ghost var s := S();
      var todo, kept := dead, [];
      ghost var k: nat, gone := 0, [];
      NoneCulled(s.mem, s.dead);
      while todo != []
        invariant k <= |s.dead| && todo == s.dead[k..]
        invariant kept == Pick(s.mem, s.dead[..k], false) && gone == Pick(s.mem, s.dead[..k], true)
        invariant recycled == s.recycled + gone && |mem| == |s.mem|
        invariant CulledUpTo(s.mem, mem, s.dead, k)
        decreases |todo|
      {
        var client := todo[0];
        todo := todo[1..];
        PickNext(s.mem, s.dead, k, false);
        PickNext(s.mem, s.dead, k, true);
        CullOne(s.mem, mem, s.dead, k);
        if mem[client].ref == 0 {
          RecycleClient(client);
          gone := gone + [client];
        } else {
          kept := kept + [client];
        }
        k := k + 1;
      }
      assert s.dead[..k] == s.dead;
      dead := kept;
      CulledAll(s, mem, k);
    }

    /** The end of `send_client`: the caller's reference goes to the new message. */
    method QueueSend(p: nat, buf: seq<byte>)
      requires p < |mem| && mem[p].held > 0 && buf != []
      modifies this`mem, this`incoming, this`nextSid
      ensures S() == Step(old(S()), Queue(p, buf))
      ensures |incoming| == |old(incoming)| + 1 && incoming[..|old(incoming)|] == old(incoming)
      ensures incoming[|old(incoming)|] == Send(old(nextSid), p, old(mem[p].id), buf, 0, |buf|)
    {
      incoming := incoming + [Send(nextSid, p, mem[p].id, buf, 0, |buf|)];
      nextSid := nextSid + 1;
      mem := mem[p := mem[p].(held := mem[p].held - 1, queued := mem[p].queued + buf)];
    }

    /** `send_sender_send` on message `cur`: whether it is finished with. */
    method SendSenderSend(results: seq<WriteResult>, now: int) returns (done: bool)
      requires phase == Scanning && cur < |sends| && sends[cur].client < |mem|
      requires sends[cur].ofs + sends[cur].len == |sends[cur].buf| && sends[cur].len > 0
      modifies this
      ensures S() == var t := Step(old(S()), Visit); if t.phase == Writing then Attempt(t, results, now) else t
      ensures done <==> phase.Clearing?
      ensures if done then sends == Without(old(sends), old(cur)) && cur == old(cur)
              else cur == old(cur) + 1 && |sends| == |old(sends)| && Without(sends, old(cur)) == Without(old(sends), old(cur))
    {
      var p := sends[cur].client;
      if mem[p].invalid {
        EndSend();
        return true;
      }
      if mem[p].sending.Some? && mem[p].sending.value != sends[cur].sid {
        cur := cur + 1;
        return false;
      }
      mem := mem[p := mem[p].(sending := Some(sends[cur].sid))];
      phase := Writing;
      assert results[0..] == results;
      done := WriteOut(results, now);
    }

    /** The write loop of `send_sender_send`. */
    method WriteOut(results: seq<WriteResult>, now: int) returns (done: bool)
      requires phase == Writing && cur < |sends| && sends[cur].client < |mem| && !mem[sends[cur].client].invalid
      requires sends[cur].ofs + sends[cur].len == |sends[cur].buf| && sends[cur].len > 0
      modifies this`mem, this`live, this`dead, this`sends, this`cur, this`phase
      ensures S() == Attempt(old(S()), results, now) && (done <==> phase.Clearing?)
      ensures if done then sends == Without(old(sends), old(cur)) && cur == old(cur)
              else cur == old(cur) + 1 && |sends| == |old(sends)| && Without(sends, old(cur)) == Without(old(sends), old(cur))
    {
      hide Attempt, Done, BlockStep;
      var p, i := sends[cur].client, 0;
      ghost var goal := Attempt(S(), results, now);
      assert results[0..] == results;
      while sends[cur].len != 0
        invariant i <= |results| && phase == Writing && cur < |sends| && sends[cur].client == p < |mem|
        invariant sends[cur].ofs + sends[cur].len == |sends[cur].buf|
        invariant !mem[p].invalid
        invariant cur == old(cur) && |sends| == |old(sends)| && Without(sends, cur) == Without(old(sends), cur)
        invariant if sends[cur].len == 0 then Done(S()) == goal else Attempt(S(), results[i..], now) == goal
        decreases |results| - i, sends[cur].len
      {
        var ret := if i < |results| then results[i] else WouldBlock;
        AttemptEnds(S(), results, i, now);
        var took := ret.Took? && ret.n > 0;
        if !took && TimedOut(mem[p], now) {
          var _ := DropClient(p);
          EndSend();
          return true;
        }
        if ret.Error? {
          var _ := DropClient(p);
          EndSend();
          return true;
        }
        if !took {
          NoteBlocked(now);
          return false;
        }
        AttemptTook(S(), results, i, now);
        WriteOnce(if ret.n < sends[cur].len then ret.n else sends[cur].len);
        i := i + 1;
      }
      EndSend();
      return true;
    }

    /** The way out of the write loop when a client blocks. */
    method NoteBlocked(now: int)
      requires cur < |sends| && sends[cur].client < |mem|
      modifies this`mem, this`cur, this`phase
      ensures S() == BlockStep(old(S()), now) && phase == Scanning && sends == old(sends) && cur == old(cur) + 1
    {
      var p := sends[cur].client;
      if mem[p].blockedTime == 0 {
        mem := mem[p := mem[p].(blockedTime := now)];
      }
      cur := cur + 1;
      phase := Scanning;
    }

    /** A `write` that takes `n` bytes of message `cur`. */
    method WriteOnce(n: nat)
      requires cur < |sends| && sends[cur].client < |mem|
      requires n <= sends[cur].len && sends[cur].ofs + sends[cur].len == |sends[cur].buf|
      modifies this`mem, this`sends
      ensures S() == Wrote(old(S()), n)
    {
      var m := sends[cur];
      mem := mem[m.client := mem[m.client].(written := mem[m.client].written + m.buf[m.ofs..m.ofs + n], blockedTime := 0)];
      sends := sends[cur := m.(ofs := m.ofs + n, len := m.len - n)];
    }

    /** A message is taken off the list; its client's reference is still to be dropped. */
    method EndSend()
      requires cur < |sends| && sends[cur].client < |mem|
      modifies this`mem, this`sends, this`phase
      ensures S() == Done(old(S())) && phase.Clearing? && sends == Without(old(sends), cur) && cur == old(cur)
    {
      var p := sends[cur].client;
      mem := mem[p := mem[p].(sending := None)];
      sends := sends[..cur] + sends[cur + 1..];
      phase := Clearing(p);
    }
  }

  /** The first `k` of the dead structures have been blanked where idle. */
  ghost predicate CulledUpTo(was: seq<Client>, mem: seq<Client>, dead: seq<nat>, k: nat)
    requires k <= |dead|
  {
    && |mem| == |was|
    && (forall q :: 0 <= q < |mem| ==> mem[q] == if q in dead[..k] && was[q].ref == 0 then BLANK else was[q])
  }

  lemma CullOne(was: seq<Client>, mem: seq<Client>, dead: seq<nat>, k: nat)
    requires k < |dead| && dead[k] < |was| && Distinct(dead) && CulledUpTo(was, mem, dead, k)
    ensures |mem| == |was| && mem[dead[k]] == was[dead[k]] && (Idle(was, dead[k]) <==> was[dead[k]].ref == 0)
    ensures CulledUpTo(was, if was[dead[k]].ref == 0 then mem[dead[k] := BLANK] else mem, dead, k + 1)
  {
    assert dead[k] !in dead[..k];
    assert forall q :: q in dead[..k + 1] <==> q in dead[..k] || q == dead[k];
  }

  lemma CulledAll(s: State, mem: seq<Client>, k: nat)
    requires k == |s.dead| && CulledUpTo(s.mem, mem, s.dead, k)
    ensures mem == CullStep(s).mem
  {
    assert s.dead[..k] == s.dead;
  }

  lemma NoneCulled(mem: seq<Client>, dead: seq<nat>)
    ensures CulledUpTo(mem, mem, dead, 0)
    ensures Pick(mem, dead[..0], false) == [] && Pick(mem, dead[..0], true) == []
  {}

  lemma DropLength(s: State, p: nat)
    requires p < |s.mem|
    ensures |DropStep(s, p).mem| == |s.mem|
  {}

  /** The outcomes of an accept, in terms of the structure recruited. */
  lemma AcceptFrom(s: State, servers: nat)
    requires Inv(s, servers)
    ensures s.recycled != [] ==> s.recycled[0] < |s.mem|
    ensures Recruit(s) !in s.live && Recruit(s) !in s.dead
    ensures
      var p := Recruit(s);
      var mem := if s.recycled != [] then s.mem else s.mem + [BLANK];
      var t := s.(mem := mem, recycled := if s.recycled != [] then s.recycled[1..] else []);
      && p < |mem|
      && AcceptRetryStep(s) == t.(mem := mem[p := mem[p].(lost := true)])
      && AcceptFailStep(s) == t.(mem := mem[p := BLANK], recycled := t.recycled + [p])
      && AcceptStep(s) == t.(mem := mem[p := mem[p].(id := s.clientIds, ref := mem[p].ref + 1)], live := s.live + [p],
                             clientIds := s.clientIds + 1, issued := s.issued + [s.clientIds])
      && UnregisteredStep(s) == AcceptStep(s).(mem := AcceptStep(s).mem[p := mem[p].(id := s.clientIds)])
  {
    hide Refs, Ids, Sends, Turns, Conserved, Unfinished, NoneDangling, Count, Remaining;
  }

  lemma LiveOnes(s: State, servers: nat)
    requires Inv(s, servers)
    ensures forall i :: 0 <= i < |s.live| ==> s.live[i] < |s.mem| && !s.mem[s.live[i]].invalid
  {}

  lemma DeadOnes(s: State, servers: nat)
    requires Core(s, servers)
    ensures Distinct(s.dead) && forall i :: 0 <= i < |s.dead| ==> s.dead[i] < |s.mem|
  {}

  lemma {:induction false} FoundLive(mem: seq<Client>, live: seq<nat>, id: int, k: nat)
    requires forall i :: 0 <= i < |live| ==> live[i] < |mem|
    requires k <= |live| && (k < |live| ==> mem[live[k]].id == id)
    requires forall i :: 0 <= i < k ==> mem[live[i]].id != id
    ensures FindLive(mem, live, id) == k
    decreases |live|
  {
    if k > 0 {
      FoundLive(mem, live[1..], id, k - 1);
    }
  }

  lemma {:induction false} PickConcat(mem: seq<Client>, a: seq<nat>, b: seq<nat>, idle: bool)
    ensures Pick(mem, a + b, idle) == Pick(mem, a, idle) + Pick(mem, b, idle)
    decreases |a|
  {
    if a == [] {
      assert a + b == b;
    } else {
      PickConcat(mem, a[1..], b, idle);
      ConcatAssociative(if Idle(mem, a[0]) == idle then [a[0]] else [], Pick(mem, a[1..], idle), Pick(mem, b, idle));
      assert (a + b)[1..] == a[1..] + b;
    }
  }

  lemma PickNext(mem: seq<Client>, l: seq<nat>, k: nat, idle: bool)
    requires k < |l|
    ensures Pick(mem, l[..k + 1], idle) == Pick(mem, l[..k], idle) + if Idle(mem, l[k]) == idle then [l[k]] else []
  {
    assert l[..k + 1] == l[..k] + [l[k]];
    PickConcat(mem, l[..k], [l[k]], idle);
    assert [l[k]][1..] == [];
  }

  // ----- nothing is left behind -----

  /** The sender's visits to `n` messages it is finished with at once. */
  function Visits(n: nat): seq<Event> {
    if n == 0 then [] else [Visit, Clear] + Visits(n - 1)
  }

  /** Dropping every client, two passes of the sender, and culling. */
  function Shutdown(s: State): seq<Event>
    requires s.cur <= |s.sends|
  {
    [DropAll] + Visits(|s.sends| - s.cur) + [Splice] + Visits(s.cur + |s.incoming|) + [Cull]
  }

  /** All but the sender's list and the references of its messages. */
  predicate SameButSends(s: State, t: State) {
    && t.incoming == s.incoming && t.live == s.live && t.dead == s.dead && t.recycled == s.recycled
    && t.cur == s.cur && t.phase == s.phase && |t.mem| == |s.mem|
    && forall p :: 0 <= p < |s.mem| ==>
         t.mem[p].held == s.mem[p].held && t.mem[p].invalid == s.mem[p].invalid && t.mem[p].lost == s.mem[p].lost
  }

  ghost predicate AllInvalid(s: State) {
    forall m :: m in All(s) ==> m.client < |s.mem| && s.mem[m.client].invalid
  }

  /** A visit to a message for a dropped client takes it off the list and gives its reference back. */
  lemma ClearsOne(s: State)
    requires s.phase == Scanning && s.cur < |s.sends| && AllInvalid(s)
    ensures var t := Step(Step(s, Visit), Clear);
      && SameButSends(s, t) && t.sends == Without(s.sends, s.cur) && AllInvalid(t)
  {
    assert s.sends[s.cur] in All(s);
    var t := Step(Step(s, Visit), Clear);
    assert forall m :: m in All(t) ==> m in All(s);
  }

  lemma {:induction false} ClearsAll(s: State, n: nat)
    requires s.phase == Scanning && s.cur + n == |s.sends| && AllInvalid(s)
    ensures var t := Run(s, Visits(n));
      SameButSends(s, t) && t.sends == s.sends[..s.cur] && AllInvalid(t)
    decreases n
  {
    hide AllInvalid, Step;
    if n == 0 {
      assert Visits(0) == [] && s.sends[..s.cur] == s.sends;
    } else {
      ClearsOne(s);
      var t := Step(Step(s, Visit), Clear);
      TwoSteps(s, Visit, Clear);
      RunConcat(s, [Visit, Clear], Visits(n - 1));
      ClearsAll(t, n - 1);
      assert t.sends[..s.cur] == s.sends[..s.cur];
    }
  }

  lemma TwoSteps(s: State, d: Event, e: Event)
    ensures Run(s, [d, e]) == Step(Step(s, d), e)
  {
    RunOne(s, d);
    assert [d, e][..1] == [d];
  }

  lemma {:induction false} DropAllRest(s: State, todo: seq<nat>)
    ensures var t := DropAllStep(s, todo);
      && t.cur == s.cur && t.phase == s.phase && t.recycled == s.recycled && |t.mem| == |s.mem|
      && forall p :: 0 <= p < |s.mem| ==> t.mem[p].held == s.mem[p].held && t.mem[p].lost == s.mem[p].lost
    decreases |todo|
  {
    if todo != [] && todo[0] < |s.mem| {
      DropAllRest(DropStep(s, todo[0]), todo[1..]);
    }
  }

  lemma NoneLive(s: State, servers: nat)
    requires Inv(s, servers) && s.live == []
    ensures AllInvalid(s)
  {
    hide Count, Remaining, Turns, Conserved, NoneDangling, Unfinished, Refs, Ids;
    forall m | m in All(s)
      ensures m.client < |s.mem| && s.mem[m.client].invalid
    {
      var k :| 0 <= k < |All(s)| && All(s)[k] == m;
      assert SendOk(All(s)[k], s.mem, s.nextSid);
    }
  }

  lemma DeadIdle(s: State)
    requires Lists(s) && Refs(s) && All(s) == [] && s.phase == Scanning
    requires forall p :: 0 <= p < |s.mem| ==> s.mem[p].held == 0
    ensures forall i :: 0 <= i < |s.dead| ==> Idle(s.mem, s.dead[i])
  {
    hide Remaining, Distinct;
    forall i | 0 <= i < |s.dead|
      ensures Idle(s.mem, s.dead[i])
    {
      assert Pending(s, s.dead[i]) == 0;
    }
  }

  /** With no message left and no reference held, a cull recycles every dead structure. */
  lemma CullsAll(s: State, servers: nat)
    requires Inv(s, servers) && s.live == [] && All(s) == [] && s.phase == Scanning
    requires forall p :: 0 <= p < |s.mem| ==> s.mem[p].held == 0
    ensures var t := Step(s, Cull);
      t.live == [] && t.dead == [] && All(t) == [] && forall p :: 0 <= p < |t.mem| ==> p in t.recycled || t.mem[p].lost
  {
    hide Inv, Core, Lists, Refs, Sends, Turns, Conserved, Ids, Idle, Pick;
    CoreOf(s, servers);
    CoreParts(s, servers);
    DeadIdle(s);
    NonePicked(s.mem, s.dead);
    StepKeeps(s, Cull, servers);
    CoreOfCull(Step(s, Cull), servers);
  }

  lemma CoreOfCull(t: State, servers: nat)
    requires Inv(t, servers) && t.live == [] && t.dead == []
    ensures forall p :: 0 <= p < |t.mem| ==> p in t.recycled || t.mem[p].lost
  {
    hide Count, Remaining, Turns, Conserved, NoneDangling, Unfinished, Sends, Ids, Refs;
    forall p | 0 <= p < |t.mem|
      ensures p in t.recycled || t.mem[p].lost
    {
      assert KindOf(t.mem[p]) == Live ==> p in t.live;
      assert KindOf(t.mem[p]) == Dead ==> p in t.dead;
    }
  }

  lemma {:induction false} NonePicked(mem: seq<Client>, l: seq<nat>)
    requires forall i :: 0 <= i < |l| ==> Idle(mem, l[i])
    ensures Pick(mem, l, false) == []
  {
    if l != [] {
      NonePicked(mem, l[1..]);
    }
  }

  /** No reference and no message is ever leaked: from any state in which the sender is between messages
      and no thread holds a reference, dropping all clients, two passes of the sender and a cull recycle
      every structure that a failed accept has not lost. */
  lemma NothingLeaks(servers: nat, events: seq<Event>)
    requires var s := Run(Initial(servers), events);
      s.phase == Scanning && forall p :: 0 <= p < |s.mem| ==> s.mem[p].held == 0
    ensures var s := Run(Initial(servers), events);
      && s.cur <= |s.sends|
      && var t := Run(s, Shutdown(s));
      && t.live == [] && t.dead == [] && All(t) == []
      && forall p :: 0 <= p < |t.mem| ==> p in t.recycled || t.mem[p].lost
  {
    hide Step, Inv, Core, Visits, AllInvalid, Run, Initial;
    var s := Run(Initial(servers), events);
    RunKeeps(servers, events);
    InRange(s, servers);
    DroppedAll(s, servers);
    var n, m := |s.sends| - s.cur, s.cur + |s.incoming|;
    var before := [DropAll] + Visits(n) + [Splice] + Visits(m);
    EmptiesQueues(s, n, m);
    RunConcat(Initial(servers), events, before);
    RunKeeps(servers, events + before);
    CullsAll(Run(s, before), servers);
    ThenCull(s, before);
  }

  lemma ThenCull(s: State, before: seq<Event>)
    ensures Run(s, before + [Cull]) == Step(Run(s, before), Cull)
  {
    hide Step;
    RunConcat(s, before, [Cull]);
    RunOne(Run(s, before), Cull);
  }

  /** Two passes of the sender over messages for dropped clients leave none. */
  lemma EmptiesQueues(s: State, n: nat, m: nat)
    requires var a := Step(s, DropAll);
      a.phase == Scanning && AllInvalid(a) && a.cur + n == |a.sends| && m == a.cur + |a.incoming|
    ensures var a, d := Step(s, DropAll), Run(s, [DropAll] + Visits(n) + [Splice] + Visits(m));
      && d.live == a.live && All(d) == [] && d.phase == Scanning && |d.mem| == |a.mem|
      && forall p :: 0 <= p < |d.mem| ==> d.mem[p].held == a.mem[p].held
  {
    hide Step, Visits, AllInvalid, Run;
    var a := Step(s, DropAll);
    ClearsAll(a, n);
    var b := Run(a, Visits(n));
    Spliced(b);
    var c := Step(b, Splice);
    ClearsAll(c, m);
    FourParts(s, n, m);
  }

  lemma FourParts(s: State, n: nat, m: nat)
    ensures Run(s, [DropAll] + Visits(n) + [Splice] + Visits(m)) == Run(Step(Run(Step(s, DropAll), Visits(n)), Splice), Visits(m))
  {
    hide Step, Visits, Run;
    RunOne(s, DropAll);
    RunConcat(s, [DropAll], Visits(n));
    RunOne(Run(Step(s, DropAll), Visits(n)), Splice);
    RunConcat(s, [DropAll] + Visits(n), [Splice]);
    RunConcat(s, [DropAll] + Visits(n) + [Splice], Visits(m));
  }

  lemma InRange(s: State, servers: nat)
    requires Inv(s, servers)
    ensures s.cur <= |s.sends|
  {}

  lemma DroppedAll(s: State, servers: nat)
    requires Inv(s, servers) && s.phase == Scanning && forall p :: 0 <= p < |s.mem| ==> s.mem[p].held == 0
    ensures var a := Step(s, DropAll);
      && Inv(a, servers) && a.live == [] && AllInvalid(a) && a.phase == Scanning && a.cur == s.cur
      && a.sends == s.sends && a.incoming == s.incoming
      && forall p :: 0 <= p < |a.mem| ==> a.mem[p].held == 0
  {
    hide Inv, Core, AllInvalid, DropAllStep;
    StepKeeps(s, DropAll, servers);
    assert Core(s, servers) by {
      CoreOf(s, servers);
    }
    DropAllEmpties(s, servers);
    DropAllSends(s, s.live);
    DropAllRest(s, s.live);
    NoneLive(Step(s, DropAll), servers);
  }

  lemma CoreOf(s: State, servers: nat)
    requires Inv(s, servers)
    ensures Core(s, servers)
  {}

  lemma Spliced(b: State)
    requires b.phase == Scanning && b.cur == |b.sends| && AllInvalid(b)
    ensures var c := Step(b, Splice);
      && AllInvalid(c) && c.phase == Scanning && c.cur == 0 && c.sends == b.sends + b.incoming && c.incoming == []
      && c.live == b.live && c.mem == b.mem
  {}
}
