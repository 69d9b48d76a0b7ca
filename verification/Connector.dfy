/** Client structures and pending sends of connector.c. */
module Connector {
  import opened Sequences
  import opened Bytes
  import opened Wrappers

  /** A client structure, named by its address. `held` counts the references threads hold; `lost` marks
      one left on no list; `queued` and `written` are the history of its connection: all the bytes of
      the messages queued for it and all the bytes its socket took. */
  datatype Client = Client(id: int, ref: int, invalid: bool, sending: Option<nat>, blockedTime: int, held: nat, lost: bool,
                           queued: seq<byte>, written: seq<byte>)

  /** A pending message, named by `sid`; `owner` is the id its client had when it was queued. */
  datatype Send = Send(sid: nat, client: nat, owner: int, buf: seq<byte>, ofs: nat, len: nat)

  /** Where the sender thread is: between messages, inside the write loop of message `cur`, or about
      to drop the reference of a message it has taken off the list. */
  datatype Phase = Scanning | Writing | Clearing(client: nat)

  /** `issued` is the history of the ids given to clients and subclients. */
  datatype State = State(
    mem: seq<Client>, live: seq<nat>, dead: seq<nat>, recycled: seq<nat>, clientIds: int, issued: seq<int>,
    sends: seq<Send>, incoming: seq<Send>, cur: nat, phase: Phase, nextSid: nat)

  /** Every atomic section of the connector's threads is one step: what a thread does under the connector
      lock, and each `write` of the sender thread. `AcceptRetry` and `AcceptFail` are an `accept` that
      failed, for now or for good. `Write(n)` is a `write` that took `n` bytes, `Block(now)` one that would
      block, `Fail` one that failed or has blocked for too long. */
  datatype Event =
    | NewClientId | Accept | AcceptRetry | AcceptFail | Ref(id: int) | Unref(p: nat) | Drop(p: nat) | Cull | DropAll
    | Queue(p: nat, buf: seq<byte>) | Visit | Write(n: nat) | Block(now: int) | Fail | Clear | Splice

  const BLANK := Client(-1, 0, false, None, 0, 0, false, [], [])

  // ----- the steps -----

  /** A list without its first occurrence of `p`. */
  function Remove(l: seq<nat>, p: nat): (r: seq<nat>) {
    if l == [] then [] else if l[0] == p then l[1..] else [l[0]] + Remove(l[1..], p)
  }

  /** The live structure with an id, as a position in the live table. */
  function FindLive(mem: seq<Client>, live: seq<nat>, id: int): (k: nat)
    requires forall i :: 0 <= i < |live| ==> live[i] < |mem|
    ensures k <= |live|
    ensures k < |live| ==> mem[live[k]].id == id
    ensures k == |live| ==> forall i :: 0 <= i < |live| ==> mem[live[i]].id != id
  {
    if live == [] then 0 else if mem[live[0]].id == id then 0 else 1 + FindLive(mem, live[1..], id)
  }

  function AcceptStep(s: State): State {
    if s.recycled != [] && s.recycled[0] < |s.mem| then
      var p := s.recycled[0];
      s.(mem := s.mem[p := s.mem[p].(id := s.clientIds, ref := s.mem[p].ref + 1)], recycled := s.recycled[1..],
         live := s.live + [p], clientIds := s.clientIds + 1, issued := s.issued + [s.clientIds])
    else
      s.(mem := s.mem + [BLANK.(id := s.clientIds, ref := 1)], live := s.live + [|s.mem|],
         clientIds := s.clientIds + 1, issued := s.issued + [s.clientIds])
  }

  /** A recoverable error leaves the recruited structure on no list. */
  function AcceptRetryStep(s: State): State {
    if s.recycled != [] && s.recycled[0] < |s.mem| then
      s.(mem := s.mem[s.recycled[0] := s.mem[s.recycled[0]].(lost := true)], recycled := s.recycled[1..])
    else
      s.(mem := s.mem + [BLANK.(lost := true)])
  }

  /** A fatal one puts it back, behind the others. */
  function AcceptFailStep(s: State): State {
    if s.recycled != [] && s.recycled[0] < |s.mem| then
      s.(mem := s.mem[s.recycled[0] := BLANK], recycled := s.recycled[1..] + [s.recycled[0]])
    else
      s.(mem := s.mem + [BLANK], recycled := s.recycled + [|s.mem|])
  }

  /** `__drop_client`. */
  function DropStep(s: State, p: nat): State
    requires p < |s.mem|
  {
    var c := s.mem[p];
    if c.invalid then s
    else s.(mem := s.mem[p := c.(invalid := true, ref := c.ref - 1)], live := Remove(s.live, p), dead := s.dead + [p])
  }

  function RefStep(s: State, id: int): State {
    if forall i :: 0 <= i < |s.live| ==> s.live[i] < |s.mem| then
      var k := FindLive(s.mem, s.live, id);
      if k < |s.live| && !s.mem[s.live[k]].invalid then
        var c := s.mem[s.live[k]];
        s.(mem := s.mem[s.live[k] := c.(ref := c.ref + 1, held := c.held + 1)])
      else s
    else s
  }

  function UnrefStep(s: State, p: nat): State
    requires p < |s.mem| && s.mem[p].held > 0
  {
    s.(mem := s.mem[p := s.mem[p].(ref := s.mem[p].ref - 1, held := s.mem[p].held - 1)])
  }

  /** Whether a dead client can be reused. */
  function Idle(mem: seq<Client>, p: nat): bool {
    p < |mem| && mem[p].ref == 0
  }

  /** The structures of `l` that are idle, or that are not. */
  function Pick(mem: seq<Client>, l: seq<nat>, idle: bool): (r: seq<nat>) {
    if l == [] then [] else (if Idle(mem, l[0]) == idle then [l[0]] else []) + Pick(mem, l[1..], idle)
  }

  /** The culling loop of `invalidate_client`: idle dead structures are blanked for reuse. */
  function CullStep(s: State): State {
    s.(mem := seq(|s.mem|, p requires 0 <= p < |s.mem| => if p in s.dead && s.mem[p].ref == 0 then BLANK else s.mem[p]),
       dead := Pick(s.mem, s.dead, false),
       recycled := s.recycled + Pick(s.mem, s.dead, true))
  }

  /** `drop_all_clients`. */
  function DropAllStep(s: State, todo: seq<nat>): State
    decreases |todo|
  {
    if todo == [] then s
    else if todo[0] < |s.mem| then DropAllStep(DropStep(s, todo[0]), todo[1..])
    else s
  }

  function QueueStep(s: State, p: nat, buf: seq<byte>): State
    requires p < |s.mem| && s.mem[p].held > 0
  {
    var c := s.mem[p];
    s.(mem := s.mem[p := c.(held := c.held - 1, queued := c.queued + buf)],
       incoming := s.incoming + [Send(s.nextSid, p, c.id, buf, 0, |buf|)],
       nextSid := s.nextSid + 1)
  }

  /** The start of `send_sender_send` for message `cur`. */
  function VisitStep(s: State): State
    requires s.cur < |s.sends| && s.sends[s.cur].client < |s.mem|
  {
    var m := s.sends[s.cur];
    var c := s.mem[m.client];
    if c.invalid then Done(s)
    else if c.sending.Some? && c.sending.value != m.sid then s.(cur := s.cur + 1)
    else s.(mem := s.mem[m.client := c.(sending := Some(m.sid))], phase := Writing)
  }

  /** The end of `send_sender_send` when the message is finished with. */
  function Done(s: State): State
    requires s.cur < |s.sends| && s.sends[s.cur].client < |s.mem|
  {
    var p := s.sends[s.cur].client;
    s.(mem := s.mem[p := s.mem[p].(sending := None)],
       sends := s.sends[..s.cur] + s.sends[s.cur + 1..], phase := Clearing(p))
  }

  /** A `write` takes the next `n` bytes of message `cur`. */
  function Wrote(s: State, n: nat): State
    requires s.cur < |s.sends| && s.sends[s.cur].client < |s.mem|
    requires n <= s.sends[s.cur].len && s.sends[s.cur].ofs + s.sends[s.cur].len == |s.sends[s.cur].buf|
  {
    var m := s.sends[s.cur];
    var c := s.mem[m.client];
    s.(mem := s.mem[m.client := c.(written := c.written + m.buf[m.ofs..m.ofs + n], blockedTime := 0)],
       sends := s.sends[s.cur := m.(ofs := m.ofs + n, len := m.len - n)])
  }

  function WriteStep(s: State, n: nat): State
    requires s.cur < |s.sends| && s.sends[s.cur].client < |s.mem|
    requires n <= s.sends[s.cur].len && s.sends[s.cur].ofs + s.sends[s.cur].len == |s.sends[s.cur].buf|
  {
    if n == s.sends[s.cur].len then Done(Wrote(s, n)) else Wrote(s, n)
  }

  /** Whether a client has blocked for a minute. */
  predicate TimedOut(c: Client, now: int) {
    c.blockedTime != 0 && now - c.blockedTime >= 60
  }

  /** A `write` that would block: the sender goes on to the next message, and notes since when. */
  function BlockStep(s: State, now: int): State
    requires s.cur < |s.sends| && s.sends[s.cur].client < |s.mem|
  {
    var p := s.sends[s.cur].client;
    var c := s.mem[p];
    s.(mem := s.mem[p := c.(blockedTime := if c.blockedTime == 0 then now else c.blockedTime)],
       cur := s.cur + 1, phase := Scanning)
  }

  function FailStep(s: State): State
    requires s.cur < |s.sends| && s.sends[s.cur].client < |s.mem|
  {
    Done(DropStep(s, s.sends[s.cur].client))
  }

  function ClearStep(s: State): State
    requires s.phase.Clearing? && s.phase.client < |s.mem|
  {
    var p := s.phase.client;
    s.(mem := s.mem[p := s.mem[p].(ref := s.mem[p].ref - 1)], phase := Scanning)
  }

  function SpliceStep(s: State): State {
    s.(sends := s.sends + s.incoming, incoming := [], cur := 0)
  }

  /** When a step can happen: a thread uses only references it holds, and the sender only the message
      it is at. A closed socket takes nothing. */
  predicate Enabled(s: State, e: Event) {
    match e
    case Unref(p) => p < |s.mem| && s.mem[p].held > 0
    case Drop(p) => p < |s.mem| && s.mem[p].held > 0
    case Queue(p, buf) => p < |s.mem| && s.mem[p].held > 0 && buf != []
    case Visit => s.phase == Scanning && s.cur < |s.sends| && s.sends[s.cur].client < |s.mem|
    case Write(n) =>
      && s.phase == Writing && s.cur < |s.sends| && s.sends[s.cur].client < |s.mem|
      && 0 < n <= s.sends[s.cur].len && s.sends[s.cur].ofs + s.sends[s.cur].len == |s.sends[s.cur].buf|
      && !s.mem[s.sends[s.cur].client].invalid
    case Block(now) =>
      && s.phase == Writing && s.cur < |s.sends| && s.sends[s.cur].client < |s.mem|
      && !TimedOut(s.mem[s.sends[s.cur].client], now)
    case Fail => s.phase == Writing && s.cur < |s.sends| && s.sends[s.cur].client < |s.mem|
    case Clear => s.phase.Clearing? && s.phase.client < |s.mem|
    case Splice => s.phase == Scanning && s.cur == |s.sends|
    case _ => true
  }

  function Step(s: State, e: Event): State {
    if !Enabled(s, e) then s
    else match e
      case NewClientId => s.(clientIds := s.clientIds + 1, issued := s.issued + [s.clientIds])
      case Accept => AcceptStep(s)
      case AcceptRetry => AcceptRetryStep(s)
      case AcceptFail => AcceptFailStep(s)
      case Ref(id) => RefStep(s, id)
      case Unref(p) => UnrefStep(s, p)
      case Drop(p) => DropStep(s, p)
      case Cull => CullStep(s)
      case DropAll => DropAllStep(s, s.live)
      case Queue(p, buf) => QueueStep(s, p, buf)
      case Visit => VisitStep(s)
      case Write(n) => WriteStep(s, n)
      case Block(now) => BlockStep(s, now)
      case Fail => FailStep(s)
      case Clear => ClearStep(s)
      case Splice => SpliceStep(s)
  }

  function Run(s: State, events: seq<Event>): State {
    if events == [] then s else Step(Run(s, events[..|events| - 1]), events[|events| - 1])
  }

  /** Client ids start at the number of server sockets. */
  function Initial(servers: nat): State {
    State([], [], [], [], servers, [], [], [], 0, Scanning, 0)
  }

  // ----- what every step keeps -----

  datatype Kind = Live | Dead | Free | Lost

  function KindOf(c: Client): Kind {
    if c.lost then Lost else if c.invalid then Dead else if c.id >= 0 then Live else Free
  }

  predicate InUse(c: Client) {
    KindOf(c) == Live || KindOf(c) == Dead
  }

  /** A list holds exactly the structures of one kind, each once. */
  ghost predicate ListOf(l: seq<nat>, mem: seq<Client>, kind: Kind) {
    && Distinct(l)
    && (forall i :: 0 <= i < |l| ==> l[i] < |mem| && KindOf(mem[l[i]]) == kind)
    && (forall p :: 0 <= p < |mem| && KindOf(mem[p]) == kind ==> p in l)
  }

  /** Every structure but a lost one is in exactly one of the live table, the dead list and the recycled
      list. */
  ghost predicate Lists(s: State) {
    ListOf(s.live, s.mem, Live) && ListOf(s.dead, s.mem, Dead) && ListOf(s.recycled, s.mem, Free)
  }

  function Count(ms: seq<Send>, p: nat): (n: nat) {
    if ms == [] then 0 else (if ms[0].client == p then 1 else 0) + Count(ms[1..], p)
  }

  function All(s: State): seq<Send> {
    s.sends + s.incoming
  }

  /** The references to `p` of messages not yet cleared. */
  function Pending(s: State, p: nat): nat {
    Count(All(s), p) + if s.phase == Clearing(p) then 1 else 0
  }

  /** The reference counts say exactly who refers to a structure; one that is free or lost is blank. */
  ghost predicate Refs(s: State) {
    forall p :: 0 <= p < |s.mem| ==>
      && s.mem[p].ref == (if KindOf(s.mem[p]) == Live then 1 else 0) + Pending(s, p) + s.mem[p].held
      && (!InUse(s.mem[p]) ==> s.mem[p].(lost := false) == BLANK)
  }

  /** Ids only grow, and clients have ids given out, no two the same. */
  ghost predicate Ids(s: State, servers: nat) {
    && s.clientIds == servers + |s.issued|
    && (forall i :: 0 <= i < |s.issued| ==> s.issued[i] == servers + i)
    && (forall p :: 0 <= p < |s.mem| && InUse(s.mem[p]) ==> s.mem[p].id in s.issued)
    && (forall p, q :: 0 <= p < q < |s.mem| && InUse(s.mem[p]) && InUse(s.mem[q]) ==>
          s.mem[p].id != s.mem[q].id)
  }

  /** A pending message points at the structure of the client it is for. */
  ghost predicate SendOk(m: Send, mem: seq<Client>, nextSid: nat) {
    && m.client < |mem| && InUse(mem[m.client]) && mem[m.client].id == m.owner
    && m.ofs + m.len == |m.buf| && m.sid < nextSid
  }

  ghost predicate Sends(s: State) {
    && (forall k :: 0 <= k < |All(s)| ==> SendOk(All(s)[k], s.mem, s.nextSid))
    && (forall j, k :: 0 <= j < k < |All(s)| ==> All(s)[j].sid != All(s)[k].sid)
    && (forall p :: 0 <= p < |s.mem| && s.mem[p].sending.Some? ==> s.mem[p].sending.value < s.nextSid)
    && s.cur <= |s.sends|
    && (s.phase == Writing ==> s.cur < |s.sends|)
    && (s.phase.Clearing? ==> s.phase.client < |s.mem|)
  }

  /** Of a live client's messages only the one it is sending can be partly written; it is the first,
      and when there is none the sender has not passed any. */
  ghost predicate InTurn(ms: seq<Send>, k: nat, c: Client, cur: nat)
    requires k < |ms|
  {
    if c.sending == Some(ms[k].sid) then forall j :: 0 <= j < k ==> ms[j].client != ms[k].client
    else ms[k].ofs == 0 && (c.sending == None ==> cur <= k)
  }

  ghost predicate Turns(s: State) {
    && (forall k :: 0 <= k < |All(s)| && All(s)[k].client < |s.mem| && !s.mem[All(s)[k].client].invalid ==>
          InTurn(All(s), k, s.mem[All(s)[k].client], s.cur))
    && (s.phase == Writing && s.cur < |s.sends| && s.sends[s.cur].client < |s.mem| &&
          !s.mem[s.sends[s.cur].client].invalid ==>
          s.mem[s.sends[s.cur].client].sending == Some(s.sends[s.cur].sid))
  }

  function Rest(m: Send, p: nat): seq<byte> {
    if m.client == p && m.ofs <= |m.buf| then m.buf[m.ofs..] else []
  }

  /** What is left to write to a client, in queue order. */
  function Remaining(ms: seq<Send>, p: nat): (r: seq<byte>) {
    if ms == [] then [] else Rest(ms[0], p) + Remaining(ms[1..], p)
  }

  /** A live client's queued bytes are those written and those remaining; a dropped one's written
      bytes are a prefix of them. */
  ghost predicate Conserved(s: State) {
    forall p :: 0 <= p < |s.mem| ==>
      && (KindOf(s.mem[p]) == Live ==> s.mem[p].queued == s.mem[p].written + Remaining(All(s), p))
      && s.mem[p].written <= s.mem[p].queued
  }

  ghost predicate Core(s: State, servers: nat) {
    Lists(s) && Refs(s) && Ids(s, servers) && Sends(s) && Turns(s) && Conserved(s)
  }

  /** Every pending message has something left to write. */
  ghost predicate Unfinished(s: State) {
    && (forall k :: 0 <= k < |s.sends| ==> s.sends[k].len > 0)
    && (forall k :: 0 <= k < |s.incoming| ==> s.incoming[k].len > 0)
  }

  ghost predicate IsSending(sends: seq<Send>, p: nat, sid: nat) {
    exists k :: 0 <= k < |sends| && sends[k].sid == sid && sends[k].client == p
  }

  /** What a client is sending is one of its messages on the sender's list. */
  ghost predicate NoneDangling(s: State) {
    forall p :: 0 <= p < |s.mem| && KindOf(s.mem[p]) == Live && s.mem[p].sending.Some? ==>
      IsSending(s.sends, p, s.mem[p].sending.value)
  }

  ghost predicate Inv(s: State, servers: nat) {
    Core(s, servers) && Unfinished(s) && NoneDangling(s)
  }

  // ----- every run -----

  /** The invariant holds in every reachable state. */
  lemma {:induction false} RunKeeps(servers: nat, events: seq<Event>)
    ensures Inv(Run(Initial(servers), events), servers)
    decreases |events|
  {
    hide Step;
    if events != [] {
      RunKeeps(servers, events[..|events| - 1]);
      StepKeeps(Run(Initial(servers), events[..|events| - 1]), events[|events| - 1], servers);
    }
  }

  /** Every structure is in exactly one of the live table, the dead list and the recycled list, or in
      none if it is lost, with one reference for each of those that refer to it. */
  lemma StructureAccounted(servers: nat, events: seq<Event>, p: nat)
    requires p < |Run(Initial(servers), events).mem|
    ensures var s := Run(Initial(servers), events);
      && (if p in s.live then 1 else 0) + (if p in s.dead then 1 else 0) + (if p in s.recycled then 1 else 0)
         == (if s.mem[p].lost then 0 else 1)
      && s.mem[p].ref == (if p in s.live then 1 else 0) + Pending(s, p) + s.mem[p].held
  {
    hide Run;
    RunKeeps(servers, events);
  }

  /** A pending message points at the structure of the very client it was queued for. */
  lemma SendsPointAtTheirClient(servers: nat, events: seq<Event>, k: nat)
    requires k < |All(Run(Initial(servers), events))|
    ensures var s := Run(Initial(servers), events); var m := All(s)[k];
      m.client < |s.mem| && s.mem[m.client].id == m.owner && m.client !in s.recycled
  {
    hide Run;
    RunKeeps(servers, events);
    var s := Run(Initial(servers), events);
    assert SendOk(All(s)[k], s.mem, s.nextSid);
  }

  /** What a step adds to the bytes queued for the client with an id. */
  function QueuedBy(s: State, e: Event, id: int): seq<byte> {
    if e.Queue? && Enabled(s, e) && s.mem[e.p].id == id then e.buf else []
  }

  /** The bytes that callers have queued for the client with an id, one message after the other. */
  ghost function Passed(servers: nat, events: seq<Event>, id: int): seq<byte>
    decreases |events|
  {
    if events == [] then []
    else
      var before := events[..|events| - 1];
      Passed(servers, before, id) + QueuedBy(Run(Initial(servers), before), events[|events| - 1], id)
  }

  /** Whether a step is a `write` to the client with an id. */
  predicate IsWriteTo(s: State, e: Event, id: int) {
    (e.Write? || e.Block?) && Enabled(s, e) && s.mem[s.sends[s.cur].client].id == id
  }

  /** The time of the first `write` to a client that blocked since one took something, or 0. */
  function BlockedBy(s: State, e: Event, id: int, since: int): int {
    if !IsWriteTo(s, e, id) then since else if e.Write? then 0 else if since == 0 then e.now else since
  }

  ghost function BlockedSince(servers: nat, events: seq<Event>, id: int): int
    decreases |events|
  {
    if events == [] then 0
    else
      var before := events[..|events| - 1];
      BlockedBy(Run(Initial(servers), before), events[|events| - 1], id, BlockedSince(servers, before, id))
  }

  /** What a client's socket took is a prefix of what callers queued for it, message after message; as
      long as it is live the rest is exactly what remains. */
  lemma WrittenInOrder(servers: nat, events: seq<Event>, p: nat)
    requires Id(Run(Initial(servers), events), p) >= 0
    ensures var s := Run(Initial(servers), events);
      var passed := Passed(servers, events, s.mem[p].id);
      && s.mem[p].written <= passed
      && (p in s.live ==> s.mem[p].written + Remaining(All(s), p) == passed)
  {
    hide Run, Passed, BlockedSince;
    RunKeeps(servers, events);
    HistoryIsPassed(servers, events, p);
  }

  /** A visit whose write takes nothing leaves a live client connected exactly when its socket has not
      blocked for a minute. */
  lemma MinuteToUnblock(servers: nat, events: seq<Event>, now: int)
    requires var s := Run(Initial(servers), events);
      s.phase == Writing && s.cur < |s.sends| && s.sends[s.cur].client in s.live
    ensures
      var s := Run(Initial(servers), events);
      var p := s.sends[s.cur].client;
      p < |s.mem| && var since := BlockedSince(servers, events, s.mem[p].id);
      Enabled(s, Block(now)) <==> since == 0 || now - since < 60
  {
    hide Run, Passed, BlockedSince;
    RunKeeps(servers, events);
    var s := Run(Initial(servers), events);
    HistoryIsPassed(servers, events, s.sends[s.cur].client);
  }

  function Id(s: State, p: nat): int {
    if p < |s.mem| then s.mem[p].id else -1
  }

  /** A structure changes hands only when nothing refers to it: it gives up its id only in a cull, at
      reference count zero, with no message pending and no reference held. */
  lemma RecycledUnused(servers: nat, events: seq<Event>, e: Event, p: nat)
    requires p < |Run(Initial(servers), events).mem|
    requires var s := Run(Initial(servers), events); Id(s, p) >= 0 && Id(Step(s, e), p) != Id(s, p)
    ensures var s := Run(Initial(servers), events);
      && e == Cull && p in s.dead && s.mem[p].ref == 0 && s.mem[p].held == 0
      && (forall k :: 0 <= k < |All(s)| ==> All(s)[k].client != p)
  {
    hide Run;
    RunKeeps(servers, events);
    var s := Run(Initial(servers), events);
    IdChanges(s, e, p);
    forall k | 0 <= k < |All(s)|
      ensures All(s)[k].client != p
    {
      Counted(All(s), k);
    }
  }

  /** Ids are given out one after the other from the number of servers on, so none is given twice and no
      client's is a server index; the next one is new. */
  lemma IdsNeverReused(servers: nat, events: seq<Event>)
    ensures var s := Run(Initial(servers), events);
      && s.clientIds == servers + |s.issued|
      && (forall i :: 0 <= i < |s.issued| ==> s.issued[i] == servers + i)
      && (forall p :: 0 <= p < |s.mem| && p !in s.recycled && !s.mem[p].lost ==> s.mem[p].id in s.issued)
  {
    hide Run;
    RunKeeps(servers, events);
  }

  /** `drop_all_clients` empties the live table. */
  lemma {:induction false} DropAllEmpties(s: State, servers: nat)
    requires Core(s, servers)
    ensures DropAllStep(s, s.live).live == []
    decreases |s.live|
  {
    if s.live != [] {
      DropKeeps(s, servers, s.live[0]);
      DropAllEmpties(DropStep(s, s.live[0]), servers);
    }
  }

  /** An accept whose client cannot be registered with epoll: the reference of the entry is given back,
      but the client stays in the live table. */
  function UnregisteredStep(s: State): State {
    var t := AcceptStep(s);
    var p := Recruit(s);
    if p < |t.mem| then t.(mem := t.mem[p := t.mem[p].(ref := t.mem[p].ref - 1)]) else t
  }

  /** Registration is what the invariant hangs on: an accept keeps it exactly when the client is
      registered. If it is not, the structure can be recycled while a thread holds a reference to it:
      the thread looks the client up, drops it and culls. */
  lemma RegistrationDecides(servers: nat, events: seq<Event>)
    ensures var s := Run(Initial(servers), events);
      && Inv(AcceptStep(s), servers)
      && !Inv(UnregisteredStep(s), servers)
      && var v := Step(Step(UnregisteredStep(s), Ref(s.clientIds)), Drop(Recruit(s)));
      && |v.mem| > Recruit(s) && v.mem[Recruit(s)].held == 1
      && Recruit(s) in Step(v, Cull).recycled
  {
    hide Run, Count, Remaining, Turns, Conserved, Core, NoneDangling, Unfinished, RefStep, DropStep, CullStep;
    RunKeeps(servers, events);
    var s := Run(Initial(servers), events);
    StepKeeps(s, Accept, servers);
    NewAlone(s, servers);
    var u := UnregisteredStep(s);
    var p := Recruit(s);
    DroppedIdle(u, p);
    var v := Step(Step(u, Ref(s.clientIds)), Drop(p));
    PickHas(v.mem, v.dead, p);
    assert p in Step(v, Cull).recycled by {
      CullRecycles(v, p);
    }
  }

  // ----- lists -----

  lemma SameKinds(s: State, t: State)
    requires Lists(s) && t.live == s.live && t.dead == s.dead && t.recycled == s.recycled && |t.mem| == |s.mem|
    requires forall p :: 0 <= p < |s.mem| ==> KindOf(t.mem[p]) == KindOf(s.mem[p])
    ensures Lists(t)
  {}

  lemma ListGains(l: seq<nat>, mem: seq<Client>, mem': seq<Client>, kind: Kind, p: nat)
    requires ListOf(l, mem, kind) && |mem| <= |mem'| && p < |mem'| && (p < |mem| ==> KindOf(mem[p]) != kind)
    requires forall q :: 0 <= q < |mem| && q != p ==> KindOf(mem'[q]) == KindOf(mem[q])
    requires |mem'| == |mem| || |mem'| == |mem| + 1 == p + 1
    requires KindOf(mem'[p]) == kind
    ensures ListOf(l + [p], mem', kind)
  {
    assert p !in l;
    forall q | 0 <= q < |mem'| && KindOf(mem'[q]) == kind
      ensures q in l + [p]
    {
      if q != p {
        assert KindOf(mem[q]) == kind;
      }
    }
  }

  lemma {:induction false} RemoveIs(l: seq<nat>, p: nat)
    requires Distinct(l)
    ensures Distinct(Remove(l, p)) && forall q :: q in Remove(l, p) <==> q in l && q != p
    decreases |l|
  {
    if l != [] {
      assert forall q :: q in l <==> q == l[0] || q in l[1..];
      assert l[0] !in l[1..];
      RemoveIs(l[1..], p);
    }
  }

  lemma ListLoses(l: seq<nat>, mem: seq<Client>, mem': seq<Client>, kind: Kind, p: nat)
    requires ListOf(l, mem, kind) && |mem| == |mem'| && p < |mem|
    requires forall q :: 0 <= q < |mem| && q != p ==> KindOf(mem'[q]) == KindOf(mem[q])
    requires KindOf(mem'[p]) != kind
    ensures ListOf(Remove(l, p), mem', kind)
  {
    RemoveIs(l, p);
    var r := Remove(l, p);
    forall i | 0 <= i < |r|
      ensures r[i] < |mem'| && KindOf(mem'[r[i]]) == kind
    {
      assert r[i] in r;
    }
  }

  lemma ListStays(l: seq<nat>, mem: seq<Client>, mem': seq<Client>, kind: Kind, p: nat)
    requires ListOf(l, mem, kind) && |mem| <= |mem'| && p < |mem'| && (p < |mem| ==> KindOf(mem[p]) != kind)
    requires forall q :: 0 <= q < |mem| && q != p ==> KindOf(mem'[q]) == KindOf(mem[q])
    requires |mem'| == |mem| || |mem'| == |mem| + 1 == p + 1
    requires KindOf(mem'[p]) != kind
    ensures ListOf(l, mem', kind)
  {}

  // ----- pending messages -----

  lemma {:induction false} CountConcat(a: seq<Send>, b: seq<Send>, p: nat)
    ensures Count(a + b, p) == Count(a, p) + Count(b, p)
    decreases |a|
  {
    if a == [] {
      assert a + b == b;
    } else {
      CountConcat(a[1..], b, p);
      assert (a + b)[1..] == a[1..] + b;
    }
  }

  lemma {:induction false} RemainingConcat(a: seq<Send>, b: seq<Send>, p: nat)
    ensures Remaining(a + b, p) == Remaining(a, p) + Remaining(b, p)
    decreases |a|
  {
    hide Rest;
    if a == [] {
      assert a + b == b;
    } else {
      RemainingConcat(a[1..], b, p);
      assert a + b == [a[0]] + (a[1..] + b);
      ConcatAssociative(Rest(a[0], p), Remaining(a[1..], p), Remaining(b, p));
    }
  }

  lemma {:induction false} NothingRemains(ms: seq<Send>, p: nat)
    requires forall k :: 0 <= k < |ms| ==> ms[k].client != p
    ensures Remaining(ms, p) == [] && Count(ms, p) == 0
    decreases |ms|
  {
    if ms != [] {
      NothingRemains(ms[1..], p);
    }
  }

  lemma {:induction false} Counted(ms: seq<Send>, k: nat)
    requires k < |ms|
    ensures Count(ms, ms[k].client) > 0
  {
    CountConcat(ms[..k], ms[k..], ms[k].client);
    assert ms == ms[..k] + ms[k..];
  }

  lemma CountSplit(ms: seq<Send>, k: nat, p: nat)
    requires k < |ms|
    ensures Count(ms, p) == Count(ms[..k], p) + (if ms[k].client == p then 1 else 0) + Count(ms[k + 1..], p)
  {
    assert ms == ms[..k] + ms[k..];
    CountConcat(ms[..k], ms[k..], p);
  }

  lemma RemainingSplit(ms: seq<Send>, k: nat, p: nat)
    requires k < |ms|
    ensures Remaining(ms, p) == Remaining(ms[..k], p) + (Rest(ms[k], p) + Remaining(ms[k + 1..], p))
  {
    assert ms == ms[..k] + ms[k..];
    RemainingConcat(ms[..k], ms[k..], p);
  }

  /** Where message `cur` is in the list of all. */
  lemma AllSplit(s: State)
    requires s.cur < |s.sends|
    ensures All(s)[s.cur] == s.sends[s.cur] && All(s)[..s.cur] == s.sends[..s.cur]
    ensures All(s)[s.cur + 1..] == s.sends[s.cur + 1..] + s.incoming
  {}

  // ----- every step keeps the invariant -----

  lemma NewClientIdKeeps(s: State, servers: nat)
    requires Core(s, servers)
    ensures Core(Step(s, NewClientId), servers)
  {
    hide Count, Remaining, ListOf;
    var t := Step(s, NewClientId);
    assert All(t) == All(s);
    forall x | x in s.issued
      ensures x in t.issued
    {}
  }

  lemma UnrefKeeps(s: State, servers: nat, p: nat)
    requires Core(s, servers) && p < |s.mem| && s.mem[p].held > 0
    ensures Core(UnrefStep(s, p), servers)
  {
    hide Count, Remaining, ListOf;
    var t := UnrefStep(s, p);
    assert All(t) == All(s);
    SameKinds(s, t);
  }

  lemma RefKeeps(s: State, servers: nat, id: int)
    requires Core(s, servers)
    ensures Core(RefStep(s, id), servers)
  {
    hide Count, Remaining, Turns, Conserved, Refs;
    var t := RefStep(s, id);
    var k := FindLive(s.mem, s.live, id);
    if k < |s.live| && !s.mem[s.live[k]].invalid {
      HoldKeeps(s, servers, s.live[k]);
    }
  }

  lemma HoldKeeps(s: State, servers: nat, p: nat)
    requires Core(s, servers) && p < |s.mem| && KindOf(s.mem[p]) == Live
    ensures Core(s.(mem := s.mem[p := s.mem[p].(ref := s.mem[p].ref + 1, held := s.mem[p].held + 1)]), servers)
  {
    hide Count, Remaining, ListOf;
    var t := s.(mem := s.mem[p := s.mem[p].(ref := s.mem[p].ref + 1, held := s.mem[p].held + 1)]);
    assert All(t) == All(s);
    SameKinds(s, t);
  }

  lemma ClearKeeps(s: State, servers: nat)
    requires Core(s, servers) && s.phase.Clearing? && s.phase.client < |s.mem|
    ensures Core(ClearStep(s), servers)
  {
    hide Count, Remaining, ListOf;
    var t := ClearStep(s);
    assert All(t) == All(s);
    SameKinds(s, t);
  }

  lemma BlockKeeps(s: State, servers: nat, now: int)
    requires Core(s, servers) && Enabled(s, Block(now))
    ensures Core(BlockStep(s, now), servers)
  {
    hide Count, Remaining, ListOf, Sends, Turns;
    var t := BlockStep(s, now);
    assert All(t) == All(s);
    SentInUse(s);
    BlockTurns(s, now);
    SameKinds(s, t);
  }

  lemma BlockTurns(s: State, now: int)
    requires Sends(s) && Turns(s) && Enabled(s, Block(now))
    ensures Sends(BlockStep(s, now)) && Turns(BlockStep(s, now))
  {
    assert All(BlockStep(s, now)) == All(s);
    AllSplit(s);
  }

  lemma SpliceKeeps(s: State, servers: nat)
    requires Core(s, servers) && s.phase == Scanning
    ensures Core(SpliceStep(s), servers)
  {
    hide Count, Remaining, ListOf;
    var t := SpliceStep(s);
    assert All(t) == All(s);
  }

  lemma VisitKeeps(s: State, servers: nat)
    requires Core(s, servers) && Enabled(s, Visit) && !s.mem[s.sends[s.cur].client].invalid
    ensures Core(VisitStep(s), servers)
  {
    hide Count, Remaining, ListOf, Turns, Sends;
    var t := VisitStep(s);
    assert All(t) == All(s);
    VisitTurns(s);
    SentInUse(s);
    SameKinds(s, t);
  }

  lemma SentInUse(s: State)
    requires Sends(s) && s.cur < |s.sends|
    ensures s.sends[s.cur].client < |s.mem| && InUse(s.mem[s.sends[s.cur].client])
  {
    AllSplit(s);
    assert SendOk(All(s)[s.cur], s.mem, s.nextSid);
  }

  lemma VisitTurns(s: State)
    requires Sends(s) && Turns(s) && Enabled(s, Visit) && !s.mem[s.sends[s.cur].client].invalid
    ensures Sends(VisitStep(s)) && Turns(VisitStep(s))
  {
    hide Sends, Turns;
    var m, c := s.sends[s.cur], s.mem[s.sends[s.cur].client];
    if c.sending.Some? && c.sending.value != m.sid {
      SkipTurns(s);
    } else {
      PickTurns(s);
    }
  }

  /** The message waits its turn. */
  lemma SkipTurns(s: State)
    requires Sends(s) && Turns(s) && s.phase == Scanning && s.cur < |s.sends| && s.sends[s.cur].client < |s.mem|
    requires s.mem[s.sends[s.cur].client].sending.Some?
    ensures Sends(s.(cur := s.cur + 1)) && Turns(s.(cur := s.cur + 1))
  {
    var t := s.(cur := s.cur + 1);
    assert All(t) == All(s);
    AllSplit(s);
    hide All;
  }

  /** The message is the one being sent, or becomes it. */
  lemma PickTurns(s: State)
    requires Sends(s) && Turns(s) && s.phase == Scanning && s.cur < |s.sends| && s.sends[s.cur].client < |s.mem|
    requires var c := s.mem[s.sends[s.cur].client]; !c.invalid && (c.sending == None || c.sending == Some(s.sends[s.cur].sid))
    ensures
      var m := s.sends[s.cur];
      var t := s.(mem := s.mem[m.client := s.mem[m.client].(sending := Some(m.sid))], phase := Writing);
      Sends(t) && Turns(t)
  {
    var m := s.sends[s.cur];
    var t := s.(mem := s.mem[m.client := s.mem[m.client].(sending := Some(m.sid))], phase := Writing);
    assert All(t) == All(s);
    AllSplit(s);
    hide All;
  }

  lemma DropKeeps(s: State, servers: nat, p: nat)
    requires Core(s, servers) && p < |s.mem| && InUse(s.mem[p])
    ensures Core(DropStep(s, p), servers)
  {
    hide Count, Remaining, ListOf;
    var t := DropStep(s, p);
    assert All(t) == All(s);
    if t != s {
      ListLoses(s.live, s.mem, t.mem, Live, p);
      ListGains(s.dead, s.mem, t.mem, Dead, p);
      ListStays(s.recycled, s.mem, t.mem, Free, p);
    }
  }

  lemma OneMessage(m: Send, q: nat)
    requires m.ofs <= |m.buf|
    ensures Count([m], q) == (if q == m.client then 1 else 0) && Remaining([m], q) == Rest(m, q)
  {
    assert [m][1..] == [];
  }

  /** One message more at the end of the queue. */
  lemma Queued(ms: seq<Send>, m: Send, q: nat)
    requires m.ofs <= |m.buf|
    ensures Count(ms + [m], q) == Count(ms, q) + (if q == m.client then 1 else 0)
    ensures Remaining(ms + [m], q) == Remaining(ms, q) + Rest(m, q)
  {
    CountConcat(ms, [m], q);
    RemainingConcat(ms, [m], q);
    OneMessage(m, q);
  }

  lemma QueueKeeps(s: State, servers: nat, p: nat, buf: seq<byte>)
    requires Core(s, servers) && Enabled(s, Queue(p, buf))
    ensures Core(QueueStep(s, p, buf), servers)
  {
    hide Count, Remaining, ListOf, Sends, Turns, Refs, Conserved;
    var t := QueueStep(s, p, buf);
    SameKinds(s, t);
    var m := Send(s.nextSid, p, s.mem[p].id, buf, 0, |buf|);
    assert All(t) == All(s) + [m];
    HeldInUse(s, p);
    QueueAccounts(s, t, p, m);
    QueueTurns(s, t, p, m);
  }

  lemma HeldInUse(s: State, p: nat)
    requires Refs(s) && p < |s.mem| && s.mem[p].held > 0
    ensures InUse(s.mem[p])
  {}

  lemma QueueAccounts(s: State, t: State, p: nat, m: Send)
    requires Refs(s) && Conserved(s) && Enabled(s, Queue(p, m.buf)) && All(t) == All(s) + [m] && t.phase == s.phase
    requires m.client == p && m.ofs == 0
    requires t.mem == s.mem[p := s.mem[p].(held := s.mem[p].held - 1, queued := s.mem[p].queued + m.buf)]
    ensures Refs(t) && Conserved(t)
  {
    hide Count, Remaining;
    forall q | 0 <= q < |s.mem|
      ensures Pending(t, q) == Pending(s, q) + (if q == p then 1 else 0)
      ensures Remaining(All(t), q) == Remaining(All(s), q) + (if q == p then m.buf else [])
    {
      Queued(All(s), m, q);
    }
  }

  lemma QueueTurns(s: State, t: State, p: nat, m: Send)
    requires Sends(s) && Turns(s) && Enabled(s, Queue(p, m.buf)) && All(t) == All(s) + [m] && t.phase == s.phase
    requires t.cur == s.cur && t.sends == s.sends && t.nextSid == s.nextSid + 1 && InUse(s.mem[p])
    requires m.client == p && m.ofs == 0 && m.len == |m.buf| && m.sid == s.nextSid && m.owner == s.mem[p].id
    requires t.mem == s.mem[p := s.mem[p].(held := s.mem[p].held - 1, queued := s.mem[p].queued + m.buf)]
    ensures Sends(t) && Turns(t)
  {}

  lemma AcceptKeeps(s: State, servers: nat)
    requires Core(s, servers)
    ensures Core(AcceptStep(s), servers)
  {
    hide Count, Remaining, Distinct, Sends, Turns, Refs, Conserved, Ids;
    var t := AcceptStep(s);
    var p := Recruit(s);
    FreeUnused(s, p);
    RecruitAccounts(s, servers, t, p);
    RecruitTurns(s, t, p);
    ListGains(s.live, s.mem, t.mem, Live, p);
    ListStays(s.dead, s.mem, t.mem, Dead, p);
    RecycledTaken(s, t.mem, p);
  }

  lemma AcceptRetryKeeps(s: State, servers: nat)
    requires Core(s, servers)
    ensures Core(AcceptRetryStep(s), servers)
  {
    hide Count, Remaining, Distinct, Sends, Turns, Refs, Conserved, Ids;
    var t := AcceptRetryStep(s);
    var p := Recruit(s);
    FreeUnused(s, p);
    RecruitAccounts(s, servers, t, p);
    RecruitTurns(s, t, p);
    ListStays(s.live, s.mem, t.mem, Live, p);
    ListStays(s.dead, s.mem, t.mem, Dead, p);
    RecycledTaken(s, t.mem, p);
  }

  lemma AcceptFailKeeps(s: State, servers: nat)
    requires Core(s, servers)
    ensures Core(AcceptFailStep(s), servers)
  {
    hide Count, Remaining, Sends, Turns, Refs, Conserved, Ids;
    var t := AcceptFailStep(s);
    var p := Recruit(s);
    FreeUnused(s, p);
    RecruitAccounts(s, servers, t, p);
    RecruitTurns(s, t, p);
    ListStays(s.live, s.mem, t.mem, Live, p);
    ListStays(s.dead, s.mem, t.mem, Dead, p);
    if s.recycled == [] {
      ListGains(s.recycled, s.mem, t.mem, Free, p);
    } else {
      PutBack(s.recycled, s.mem, t.mem);
    }
  }

  /** `recruit_client`: the first structure of the recycled list, or a new one. */
  function Recruit(s: State): nat {
    if s.recycled != [] then s.recycled[0] else |s.mem|
  }

  lemma RecycledTaken(s: State, mem': seq<Client>, p: nat)
    requires ListOf(s.recycled, s.mem, Free) && p == Recruit(s) < |mem'| && KindOf(mem'[p]) != Free
    requires |mem'| == if s.recycled != [] then |s.mem| else |s.mem| + 1
    requires forall q :: 0 <= q < |s.mem| && q != p ==> KindOf(mem'[q]) == KindOf(s.mem[q])
    ensures ListOf(if s.recycled != [] then s.recycled[1..] else [], mem', Free)
  {
    if s.recycled != [] {
      ListLoses(s.recycled, s.mem, mem', Free, p);
    } else {
      ListStays(s.recycled, s.mem, mem', Free, p);
    }
  }

  lemma PutBack(l: seq<nat>, mem: seq<Client>, mem': seq<Client>)
    requires ListOf(l, mem, Free) && l != [] && |mem'| == |mem| && KindOf(mem'[l[0]]) == Free
    requires forall q :: 0 <= q < |mem| && q != l[0] ==> KindOf(mem'[q]) == KindOf(mem[q])
    ensures ListOf(l[1..] + [l[0]], mem', Free)
  {
    var r := l[1..] + [l[0]];
    assert forall q :: q in l <==> q in r;
    assert l[0] !in l[1..];
  }

  /** Nothing refers to a free structure, or to one not there yet. */
  lemma FreeUnused(s: State, p: nat)
    requires Sends(s) && Refs(s) && (p < |s.mem| ==> KindOf(s.mem[p]) == Free)
    ensures forall k :: 0 <= k < |All(s)| ==> All(s)[k].client != p
    ensures Remaining(All(s), p) == [] && Count(All(s), p) == 0
    ensures s.phase != Clearing(p) && (p < |s.mem| ==> s.mem[p] == BLANK)
  {
    assert p < |s.mem| ==> s.mem[p] == s.mem[p].(lost := false);
    NothingRemains(All(s), p);
  }

  /** `t` is `s` with structure `p` just recruited: accepted with the next id, lost, or put back. */
  ghost predicate Recruited(s: State, t: State, p: nat) {
    && (p < |s.mem| ==> s.mem[p] == BLANK && |t.mem| == |s.mem|)
    && (p >= |s.mem| ==> p == |s.mem| && |t.mem| == p + 1)
    && (forall q :: 0 <= q < |s.mem| && q != p ==> t.mem[q] == s.mem[q])
    && t.sends == s.sends && t.incoming == s.incoming && t.cur == s.cur && t.phase == s.phase && t.nextSid == s.nextSid
    && (|| (t.mem[p] == BLANK.(id := s.clientIds, ref := 1)
            && t.clientIds == s.clientIds + 1 && t.issued == s.issued + [s.clientIds])
        || (t.mem[p].(lost := false) == BLANK && t.clientIds == s.clientIds && t.issued == s.issued))
  }

  lemma RecruitAccounts(s: State, servers: nat, t: State, p: nat)
    requires Refs(s) && Conserved(s) && Ids(s, servers) && Recruited(s, t, p)
    requires Remaining(All(s), p) == [] && Count(All(s), p) == 0 && s.phase != Clearing(p)
    ensures Refs(t) && Conserved(t) && Ids(t, servers)
    ensures t.mem[p].ref == 1 ==> KindOf(t.mem[p]) == Live
  {
    hide Count, Remaining;
    assert All(t) == All(s);
    RecruitIds(s, servers, t, p);
    hide Ids;
  }

  lemma RecruitIds(s: State, servers: nat, t: State, p: nat)
    requires Ids(s, servers) && Recruited(s, t, p)
    ensures Ids(t, servers) && s.clientIds >= 0
  {
    forall x | x in s.issued || x == s.clientIds
      ensures x in t.issued || t.issued == s.issued
    {}
  }

  lemma RecruitTurns(s: State, t: State, p: nat)
    requires Sends(s) && Turns(s) && Recruited(s, t, p)
    requires forall k :: 0 <= k < |All(s)| ==> All(s)[k].client != p
    ensures Sends(t) && Turns(t)
  {
    assert All(t) == All(s);
    if s.cur < |s.sends| {
      AllSplit(s);
    }
  }

  // ----- the end of a message -----

  /** Message `cur` is done with: its client is gone, or it is written and was the one being sent. */
  ghost predicate Spent(s: State) {
    && s.cur < |s.sends| && s.sends[s.cur].client < |s.mem| && !s.phase.Clearing?
    && (|| s.mem[s.sends[s.cur].client].invalid
        || (s.sends[s.cur].len == 0 && s.mem[s.sends[s.cur].client].sending == Some(s.sends[s.cur].sid)))
  }

  lemma DoneKeeps(s: State, servers: nat)
    requires Core(s, servers) && Spent(s)
    ensures Core(Done(s), servers)
  {
    hide Count, Remaining, ListOf, Sends, Turns, Refs, Conserved;
    var t := Done(s);
    SameKinds(s, t);
    DoneAccounts(s);
    DoneTurns(s);
  }

  lemma DoneAll(s: State)
    requires s.cur < |s.sends| && s.sends[s.cur].client < |s.mem|
    ensures All(Done(s)) == All(s)[..s.cur] + All(s)[s.cur + 1..] && All(s)[s.cur] == s.sends[s.cur]
  {
    AllSplit(s);
  }

  lemma DoneAccounts(s: State)
    requires Refs(s) && Conserved(s) && Sends(s) && Spent(s)
    ensures Refs(Done(s)) && Conserved(Done(s))
  {
    hide Count, Remaining;
    var t, m := Done(s), s.sends[s.cur];
    DoneAll(s);
    forall q: nat
      ensures Pending(t, q) == Pending(s, q)
      ensures Rest(m, q) == [] ==> Remaining(All(t), q) == Remaining(All(s), q)
    {
      DoneCounts(All(s), s.cur, q);
    }
  }

  lemma DoneCounts(ms: seq<Send>, k: nat, q: nat)
    requires k < |ms|
    ensures Count(ms, q) == Count(ms[..k] + ms[k + 1..], q) + if q == ms[k].client then 1 else 0
    ensures Rest(ms[k], q) == [] ==> Remaining(ms[..k] + ms[k + 1..], q) == Remaining(ms, q)
  {
    hide Count, Remaining, Rest;
    CountSplit(ms, k, q);
    CountConcat(ms[..k], ms[k + 1..], q);
    RemainingSplit(ms, k, q);
    RemainingConcat(ms[..k], ms[k + 1..], q);
  }

  lemma DoneTurns(s: State)
    requires Sends(s) && Turns(s) && Spent(s)
    ensures Sends(Done(s)) && Turns(Done(s))
  {
    var t := Done(s);
    DoneAll(s);
    OneLess(All(s), All(t), s.cur);
    hide All;
    DoneSends(s, t);
  }

  /** Positions once message `c` is taken out. */
  lemma OneLess(ms: seq<Send>, rest: seq<Send>, c: nat)
    requires c < |ms| && rest == ms[..c] + ms[c + 1..]
    ensures |rest| == |ms| - 1
    ensures forall k :: 0 <= k < |rest| ==> rest[k] == ms[if k < c then k else k + 1]
  {}

  lemma DoneSends(s: State, t: State)
    requires Sends(s) && Spent(s) && t == Done(s) && |All(t)| == |All(s)| - 1
    requires forall k :: 0 <= k < |All(t)| ==> All(t)[k] == All(s)[if k < s.cur then k else k + 1]
    ensures Sends(t)
  {
    hide All;
  }

  // ----- writes -----

  lemma WroteKeeps(s: State, servers: nat, n: nat)
    requires Core(s, servers) && Enabled(s, Write(n))
    ensures Core(Wrote(s, n), servers)
  {
    hide Count, Remaining, ListOf, Sends, Turns, Refs, Conserved;
    var t := Wrote(s, n);
    SameKinds(s, t);
    WroteAccounts(s, n);
    WroteTurns(s, n);
  }

  lemma WroteAll(s: State, n: nat)
    requires Enabled(s, Write(n))
    ensures All(Wrote(s, n)) == All(s)[s.cur := Wrote(s, n).sends[s.cur]] && All(s)[s.cur] == s.sends[s.cur]
  {}

  lemma WroteAccounts(s: State, n: nat)
    requires Refs(s) && Conserved(s) && Sends(s) && Turns(s) && Enabled(s, Write(n))
    ensures Refs(Wrote(s, n)) && Conserved(Wrote(s, n))
  {
    hide Count, Remaining, Rest;
    var t, m := Wrote(s, n), s.sends[s.cur];
    WroteAll(s, n);
    forall q: nat
      ensures Pending(t, q) == Pending(s, q)
      ensures q != m.client ==> Remaining(All(t), q) == Remaining(All(s), q)
      ensures q == m.client ==> Remaining(All(s), q) == m.buf[m.ofs..m.ofs + n] + Remaining(All(t), q)
    {
      WroteCounts(All(s), s.cur, t.sends[s.cur], q);
      if q == m.client {
        WroteRemains(All(s), s.cur, t.sends[s.cur], n);
      }
    }
  }

  lemma WroteCounts(ms: seq<Send>, k: nat, m: Send, q: nat)
    requires k < |ms| && m.client == ms[k].client
    ensures Count(ms[k := m], q) == Count(ms, q)
    ensures q != m.client ==> Remaining(ms[k := m], q) == Remaining(ms, q)
  {
    hide Count, Remaining;
    CountSplit(ms, k, q);
    CountSplit(ms[k := m], k, q);
    RemainingSplit(ms, k, q);
    RemainingSplit(ms[k := m], k, q);
    assert ms[k := m][..k] == ms[..k] && ms[k := m][k + 1..] == ms[k + 1..];
  }

  /** The bytes written are the first of those that remained, for the message is the client's first. */
  lemma WroteRemains(ms: seq<Send>, k: nat, m: Send, n: nat)
    requires k < |ms| && forall j :: 0 <= j < k ==> ms[j].client != ms[k].client
    requires ms[k].ofs + n <= |ms[k].buf| && m == ms[k].(ofs := ms[k].ofs + n, len := m.len)
    ensures Remaining(ms, m.client) == ms[k].buf[ms[k].ofs..ms[k].ofs + n] + Remaining(ms[k := m], m.client)
  {
    hide Count, Remaining;
    var q := m.client;
    NothingRemains(ms[..k], q);
    RemainingSplit(ms, k, q);
    RemainingSplit(ms[k := m], k, q);
    assert ms[k := m][..k] == ms[..k] && ms[k := m][k + 1..] == ms[k + 1..];
    assert Rest(ms[k], q) == ms[k].buf[ms[k].ofs..ms[k].ofs + n] + Rest(m, q);
  }

  lemma WroteTurns(s: State, n: nat)
    requires Sends(s) && Turns(s) && Enabled(s, Write(n))
    ensures Sends(Wrote(s, n)) && Turns(Wrote(s, n))
  {
    WroteAll(s, n);
    hide All;
  }

  lemma WriteKeeps(s: State, servers: nat, n: nat)
    requires Core(s, servers) && Enabled(s, Write(n))
    ensures Core(WriteStep(s, n), servers)
  {
    hide Core;
    WroteKeeps(s, servers, n);
    if n == s.sends[s.cur].len {
      assert s.mem[s.sends[s.cur].client].sending == Some(s.sends[s.cur].sid) by {
        InWrite(s, servers);
      }
      DoneKeeps(Wrote(s, n), servers);
    }
  }

  lemma InWrite(s: State, servers: nat)
    requires Core(s, servers) && s.phase == Writing
    ensures s.cur < |s.sends| && s.sends[s.cur].client < |s.mem| && InUse(s.mem[s.sends[s.cur].client])
    ensures !s.mem[s.sends[s.cur].client].invalid ==> s.mem[s.sends[s.cur].client].sending == Some(s.sends[s.cur].sid)
  {
    hide Lists, Refs, Ids, Conserved;
    AllSplit(s);
  }

  lemma FailKeeps(s: State, servers: nat)
    requires Core(s, servers) && Enabled(s, Fail)
    ensures Core(FailStep(s), servers)
  {
    hide Core;
    var p := s.sends[s.cur].client;
    InWrite(s, servers);
    DropKeeps(s, servers, p);
    DoneKeeps(DropStep(s, p), servers);
  }

  // ----- dropping and recycling -----

  lemma {:induction false} PickIs(mem: seq<Client>, l: seq<nat>, idle: bool)
    requires Distinct(l)
    ensures Distinct(Pick(mem, l, idle)) && forall q :: q in Pick(mem, l, idle) <==> q in l && Idle(mem, q) == idle
    decreases |l|
  {
    hide Idle;
    if l != [] {
      assert l[0] !in l[1..];
      PickIs(mem, l[1..], idle);
      assert forall q :: q in l <==> q == l[0] || q in l[1..];
    }
  }

  lemma CullKeeps(s: State, servers: nat)
    requires Core(s, servers)
    ensures Core(CullStep(s), servers)
  {
    hide Count, Remaining, ListOf, Sends, Turns, Refs, Conserved, Ids;
    CullLists(s);
    CullAccounts(s, servers);
    CullTurns(s, servers);
  }

  lemma CullLists(s: State)
    requires Lists(s) && Refs(s)
    ensures Lists(CullStep(s))
  {
    hide Count, Remaining, Pick;
    PickIs(s.mem, s.dead, false);
    PickIs(s.mem, s.dead, true);
    CulledDead(s, CullStep(s).mem, Pick(s.mem, s.dead, false));
    CulledFree(s, CullStep(s).mem, Pick(s.mem, s.dead, true));
  }

  lemma CulledDead(s: State, mem': seq<Client>, kept: seq<nat>)
    requires Lists(s) && mem' == CullStep(s).mem && Distinct(kept)
    requires forall q :: q in kept <==> q in s.dead && !Idle(s.mem, q)
    ensures ListOf(kept, mem', Dead) && ListOf(s.live, mem', Live)
  {
    forall i | 0 <= i < |kept|
      ensures kept[i] < |mem'| && KindOf(mem'[kept[i]]) == Dead
    {
      assert kept[i] in kept;
    }
  }

  lemma CulledFree(s: State, mem': seq<Client>, gone: seq<nat>)
    requires Lists(s) && mem' == CullStep(s).mem && Distinct(gone)
    requires forall q :: q in gone <==> q in s.dead && Idle(s.mem, q)
    ensures ListOf(s.recycled + gone, mem', Free)
  {
    var l := s.recycled + gone;
    forall i | 0 <= i < |gone|
      ensures gone[i] < |mem'| && KindOf(s.mem[gone[i]]) == Dead && KindOf(mem'[gone[i]]) == Free
    {
      assert gone[i] in gone;
    }
    forall q | 0 <= q < |mem'| && KindOf(mem'[q]) == Free
      ensures q in l
    {
      assert q in s.dead ==> Idle(s.mem, q);
      assert q in s.dead || q in s.recycled;
    }
  }

  lemma CullAccounts(s: State, servers: nat)
    requires Lists(s) && Refs(s) && Conserved(s) && Ids(s, servers)
    ensures Refs(CullStep(s)) && Conserved(CullStep(s)) && Ids(CullStep(s), servers)
  {
    hide Count, Remaining, Distinct, Pick;
    var t := CullStep(s);
    assert All(t) == All(s);
    assert forall p :: 0 <= p < |s.mem| ==> t.mem[p] == s.mem[p] || (t.mem[p] == BLANK && s.mem[p].ref == 0 && KindOf(s.mem[p]) == Dead);
    CulledRefs(s, t);
    CulledIds(s, t, servers);
  }

  lemma CulledRefs(s: State, t: State)
    requires Refs(s) && Conserved(s) && All(t) == All(s) && t.phase == s.phase && |t.mem| == |s.mem|
    requires forall p :: 0 <= p < |s.mem| ==> t.mem[p] == s.mem[p] || (t.mem[p] == BLANK && s.mem[p].ref == 0 && KindOf(s.mem[p]) == Dead)
    ensures Refs(t) && Conserved(t)
  {
    hide Count, Remaining;
  }

  lemma CulledIds(s: State, t: State, servers: nat)
    requires Ids(s, servers) && t.issued == s.issued && t.clientIds == s.clientIds && |t.mem| == |s.mem|
    requires forall p :: 0 <= p < |s.mem| ==> t.mem[p] == s.mem[p] || t.mem[p] == BLANK
    ensures Ids(t, servers)
  {}

  lemma CullTurns(s: State, servers: nat)
    requires Lists(s) && Refs(s) && Sends(s) && Turns(s)
    ensures Sends(CullStep(s)) && Turns(CullStep(s))
  {
    hide Count, Remaining;
    var t := CullStep(s);
    assert All(t) == All(s);
    forall k | 0 <= k < |All(s)|
      ensures t.mem[All(s)[k].client] == s.mem[All(s)[k].client]
    {
      Counted(All(s), k);
      assert SendOk(All(s)[k], s.mem, s.nextSid);
    }
    if s.cur < |s.sends| {
      AllSplit(s);
    }
  }

  lemma {:induction false} DropAllKeeps(s: State, servers: nat, todo: seq<nat>)
    requires Core(s, servers) && forall i :: 0 <= i < |todo| ==> todo[i] < |s.mem| && InUse(s.mem[todo[i]])
    ensures Core(DropAllStep(s, todo), servers)
    decreases |todo|
  {
    hide Core;
    if todo != [] {
      DropKeeps(s, servers, todo[0]);
      DropAllKeeps(DropStep(s, todo[0]), servers, todo[1..]);
    }
  }

  // ----- all steps together -----

  lemma StepKeepsCore(s: State, e: Event, servers: nat)
    requires Core(s, servers) && Enabled(s, e)
    ensures Core(Step(s, e), servers)
  {
    hide Lists, Refs, Ids, Turns, Conserved;
    match e
    case NewClientId => NewClientIdKeeps(s, servers);
    case Accept => AcceptKeeps(s, servers);
    case AcceptRetry => AcceptRetryKeeps(s, servers);
    case AcceptFail => AcceptFailKeeps(s, servers);
    case Ref(id) => RefKeeps(s, servers, id);
    case Unref(p) => UnrefKeeps(s, servers, p);
    case Drop(p) => HeldInUse(s, p); DropKeeps(s, servers, p);
    case Cull => CullKeeps(s, servers);
    case DropAll => LiveInUse(s); DropAllKeeps(s, servers, s.live);
    case Queue(p, buf) => QueueKeeps(s, servers, p, buf);
    case Visit => VisitAnyKeeps(s, servers);
    case Write(n) => WriteKeeps(s, servers, n);
    case Block(now) => BlockKeeps(s, servers, now);
    case Fail => FailKeeps(s, servers);
    case Clear => ClearKeeps(s, servers);
    case Splice => SpliceKeeps(s, servers);
  }

  lemma LiveInUse(s: State)
    requires Lists(s)
    ensures forall i :: 0 <= i < |s.live| ==> s.live[i] < |s.mem| && InUse(s.mem[s.live[i]])
  {}

  lemma VisitAnyKeeps(s: State, servers: nat)
    requires Core(s, servers) && Enabled(s, Visit)
    ensures Core(VisitStep(s), servers)
  {
    hide Core;
    if s.mem[s.sends[s.cur].client].invalid {
      DoneKeeps(s, servers);
    } else {
      VisitKeeps(s, servers);
    }
  }

  lemma DoneKeepsUnfinished(s: State)
    requires s.cur < |s.sends| && s.sends[s.cur].client < |s.mem|
    requires forall k :: 0 <= k < |s.sends| && k != s.cur ==> s.sends[k].len > 0
    requires forall k :: 0 <= k < |s.incoming| ==> s.incoming[k].len > 0
    ensures Unfinished(Done(s))
  {}

  lemma StepKeepsUnfinished(s: State, e: Event)
    requires Unfinished(s) && Enabled(s, e)
    ensures Unfinished(Step(s, e))
  {
    hide Count, Remaining, DropStep, RefStep, DropAllStep, CullStep, AcceptStep, AcceptRetryStep, AcceptFailStep, Done;
    match e
    case Visit => DoneKeepsUnfinished(s);
    case Write(n) =>
      if n == s.sends[s.cur].len {
        DoneKeepsUnfinished(Wrote(s, n));
      }
    case Fail =>
      DropSends(s, s.sends[s.cur].client);
      DoneKeepsUnfinished(DropStep(s, s.sends[s.cur].client));
    case Drop(p) => DropSends(s, p);
    case DropAll => DropAllSends(s, s.live);
    case Ref(id) => OtherSends(s, id);
    case Cull => OtherSends(s, 0);
    case Accept => OtherSends(s, 0);
    case AcceptRetry => OtherSends(s, 0);
    case AcceptFail => OtherSends(s, 0);
    case _ =>
  }

  lemma DropSends(s: State, p: nat)
    requires p < |s.mem|
    ensures DropStep(s, p).sends == s.sends && DropStep(s, p).incoming == s.incoming && DropStep(s, p).cur == s.cur
    ensures |DropStep(s, p).mem| == |s.mem|
  {}

  lemma OtherSends(s: State, id: int)
    ensures RefStep(s, id).sends == s.sends && RefStep(s, id).incoming == s.incoming
    ensures CullStep(s).sends == s.sends && CullStep(s).incoming == s.incoming
    ensures AcceptStep(s).sends == s.sends && AcceptStep(s).incoming == s.incoming
    ensures AcceptRetryStep(s).sends == s.sends && AcceptRetryStep(s).incoming == s.incoming
    ensures AcceptFailStep(s).sends == s.sends && AcceptFailStep(s).incoming == s.incoming
  {}

  lemma {:induction false} DropAllSends(s: State, todo: seq<nat>)
    ensures DropAllStep(s, todo).sends == s.sends && DropAllStep(s, todo).incoming == s.incoming
    decreases |todo|
  {
    if todo != [] && todo[0] < |s.mem| {
      DropAllSends(DropStep(s, todo[0]), todo[1..]);
    }
  }

  lemma StillSending(sends: seq<Send>, sends': seq<Send>, k: nat)
    requires k < |sends|
    requires sends' == sends[..k] + sends[k + 1..]
    ensures forall p, sid :: IsSending(sends, p, sid) && p != sends[k].client ==> IsSending(sends', p, sid)
  {
    forall p, sid | IsSending(sends, p, sid) && p != sends[k].client
      ensures IsSending(sends', p, sid)
    {
      var j :| 0 <= j < |sends| && sends[j].sid == sid && sends[j].client == p;
      assert sends'[if j < k then j else j - 1] == sends[j];
    }
  }

  lemma DoneKeepsNoneDangling(s: State)
    requires NoneDangling(s) && s.cur < |s.sends| && s.sends[s.cur].client < |s.mem|
    ensures NoneDangling(Done(s))
  {
    hide IsSending;
    StillSending(s.sends, Done(s).sends, s.cur);
  }

  lemma WroteKeepsNoneDangling(s: State, n: nat)
    requires NoneDangling(s) && Enabled(s, Write(n))
    ensures NoneDangling(Wrote(s, n))
  {
    var t := Wrote(s, n);
    forall p: nat, sid | IsSending(s.sends, p, sid)
      ensures IsSending(t.sends, p, sid)
    {
      var j :| 0 <= j < |s.sends| && s.sends[j].sid == sid && s.sends[j].client == p;
      assert t.sends[j].sid == sid && t.sends[j].client == p;
    }
  }

  lemma SpliceKeepsNoneDangling(s: State)
    requires NoneDangling(s)
    ensures NoneDangling(SpliceStep(s))
  {
    var t := SpliceStep(s);
    forall p: nat, sid | IsSending(s.sends, p, sid)
      ensures IsSending(t.sends, p, sid)
    {
      var j :| 0 <= j < |s.sends| && s.sends[j].sid == sid && s.sends[j].client == p;
      assert t.sends[j].sid == sid && t.sends[j].client == p;
    }
  }

  lemma {:induction false} DropAllKeepsNoneDangling(s: State, todo: seq<nat>)
    requires NoneDangling(s)
    ensures NoneDangling(DropAllStep(s, todo))
    decreases |todo|
  {
    hide IsSending;
    if todo != [] && todo[0] < |s.mem| {
      DropAllKeepsNoneDangling(DropStep(s, todo[0]), todo[1..]);
    }
  }

  lemma StepKeepsNoneDangling(s: State, e: Event, servers: nat)
    requires NoneDangling(s) && Enabled(s, e) && Refs(s) && Lists(s)
    ensures NoneDangling(Step(s, e))
  {
    hide IsSending, Count, Remaining, Distinct, ListOf, Refs, DropAllStep, DropStep, CullStep, RefStep, AcceptStep,
      AcceptRetryStep, AcceptFailStep, QueueStep, UnrefStep, ClearStep, BlockStep, Pick;
    match e
    case Visit =>
      var m := s.sends[s.cur];
      assert IsSending(s.sends, m.client, m.sid) by {
        Sent(s.sends, s.cur);
      }
      DoneKeepsNoneDangling(s);
    case Write(n) =>
      WroteKeepsNoneDangling(s, n);
      if n == s.sends[s.cur].len {
        DoneKeepsNoneDangling(Wrote(s, n));
      }
    case Fail =>
      DropKeepsNoneDangling(s, s.sends[s.cur].client);
      DoneKeepsNoneDangling(DropStep(s, s.sends[s.cur].client));
    case Drop(p) => DropKeepsNoneDangling(s, p);
    case Splice => SpliceKeepsNoneDangling(s);
    case DropAll => DropAllKeepsNoneDangling(s, s.live);
    case _ => OthersKeepNoneDangling(s, e);
  }

  lemma DropKeepsNoneDangling(s: State, p: nat)
    requires NoneDangling(s) && p < |s.mem|
    ensures NoneDangling(DropStep(s, p)) && DropStep(s, p).sends == s.sends && DropStep(s, p).cur == s.cur
    ensures |DropStep(s, p).mem| == |s.mem|
  {
    hide IsSending, Remove;
  }

  /** The steps that touch neither the sender's list nor what a live client is sending. */
  lemma OthersKeepNoneDangling(s: State, e: Event)
    requires NoneDangling(s) && Refs(s) && Lists(s) && Enabled(s, e)
    requires !e.Visit? && !e.Write? && !e.Fail? && !e.Splice? && !e.DropAll? && !e.Drop?
    ensures NoneDangling(Step(s, e))
  {
    hide IsSending, Count, Remaining, Distinct, Remove, Pick;
    match e
    case Cull => CullKeepsNoneDangling(s);
    case _ =>
  }

  lemma CullKeepsNoneDangling(s: State)
    requires NoneDangling(s)
    ensures NoneDangling(CullStep(s))
  {
    hide IsSending, Pick;
  }

  lemma Sent(sends: seq<Send>, k: nat)
    requires k < |sends|
    ensures IsSending(sends, sends[k].client, sends[k].sid)
  {}

  lemma CoreParts(s: State, servers: nat)
    requires Core(s, servers)
    ensures Lists(s) && Refs(s) && Ids(s, servers) && Sends(s) && Turns(s) && Conserved(s)
  {}

  lemma StepKeeps(s: State, e: Event, servers: nat)
    requires Inv(s, servers)
    ensures Inv(Step(s, e), servers)
  {
    hide Core, Unfinished, NoneDangling;
    if Enabled(s, e) {
      StepKeepsCore(s, e, servers);
      StepKeepsUnfinished(s, e);
      CoreParts(s, servers);
      StepKeepsNoneDangling(s, e, servers);
    }
  }

  // ----- who gives up an id -----

  lemma IdChanges(s: State, e: Event, p: nat)
    requires Lists(s) && p < |s.mem| && Id(s, p) >= 0 && Id(Step(s, e), p) != Id(s, p)
    ensures e == Cull && p in s.dead && s.mem[p].ref == 0
  {
    hide Distinct, RefStep, DropAllStep, Remove, Pick, WriteStep, VisitStep, FailStep;
    match e
    case Visit => SenderIds(s, p);
    case Write(n) => WriteIds(s, n, p);
    case Fail => SenderIds(s, p);
    case DropAll => DropAllIds(s, s.live, p);
    case Ref(id) => RefIds(s, id, p);
    case _ =>
  }

  lemma SenderIds(s: State, p: nat)
    requires p < |s.mem| && s.cur < |s.sends| && s.sends[s.cur].client < |s.mem|
    ensures Id(VisitStep(s), p) == Id(s, p) && Id(FailStep(s), p) == Id(s, p)
  {}

  lemma WriteIds(s: State, n: nat, p: nat)
    requires p < |s.mem| && Enabled(s, Write(n))
    ensures Id(WriteStep(s, n), p) == Id(s, p)
  {}

  lemma RefIds(s: State, id: int, p: nat)
    requires p < |s.mem|
    ensures |RefStep(s, id).mem| == |s.mem| && RefStep(s, id).mem[p].id == s.mem[p].id
  {}

  lemma {:induction false} DropAllIds(s: State, todo: seq<nat>, p: nat)
    requires p < |s.mem|
    ensures |DropAllStep(s, todo).mem| == |s.mem| && DropAllStep(s, todo).mem[p].id == s.mem[p].id
    decreases |todo|
  {
    if todo != [] && todo[0] < |s.mem| {
      DropAllIds(DropStep(s, todo[0]), todo[1..], p);
    }
  }

  // ----- the history of a connection -----

  /** A step adds to the history of a structure's connection what it queues for its client; only an accept
      starts a new one. */
  ghost predicate Continues(s: State, e: Event, t: State, p: nat)
    requires p < |t.mem|
  {
    if t.mem[p].id == s.clientIds then t.mem[p].queued == [] && t.mem[p].blockedTime == 0
    else
      && p < |s.mem| && s.mem[p].id == t.mem[p].id
      && t.mem[p].queued == s.mem[p].queued + QueuedBy(s, e, t.mem[p].id)
      && t.mem[p].blockedTime == BlockedBy(s, e, t.mem[p].id, s.mem[p].blockedTime)
  }

  lemma {:induction false} HistoryIsPassed(servers: nat, events: seq<Event>, p: nat)
    requires Id(Run(Initial(servers), events), p) >= 0
    ensures var c := Run(Initial(servers), events).mem[p];
      c.queued == Passed(servers, events, c.id) && c.blockedTime == BlockedSince(servers, events, c.id)
    decreases |events|
  {
    hide Step, Inv, QueuedBy, BlockedBy;
    if events != [] {
      var before, e := events[..|events| - 1], events[|events| - 1];
      var s := Run(Initial(servers), before);
      RunKeeps(servers, before);
      StepContinues(s, e, servers, p);
      var id := Step(s, e).mem[p].id;
      if id == s.clientIds {
        NothingPassed(servers, before, id);
        NotForNew(s, e, servers);
      } else {
        HistoryIsPassed(servers, before, p);
      }
    }
  }

  /** No step is for an id that has not been given out. */
  lemma NotForNew(s: State, e: Event, servers: nat)
    requires Inv(s, servers)
    ensures forall id :: id >= s.clientIds ==> QueuedBy(s, e, id) == [] && BlockedBy(s, e, id, 0) == 0
  {
    hide Count, Remaining, Turns, Conserved, NoneDangling, Unfinished;
    if e.Queue? && Enabled(s, e) {
      HeldInUse(s, e.p);
    }
    if (e.Write? || e.Block?) && Enabled(s, e) {
      assert All(s)[s.cur] == s.sends[s.cur];
      assert SendOk(All(s)[s.cur], s.mem, s.nextSid);
    }
  }

  lemma {:induction false} NothingPassed(servers: nat, events: seq<Event>, id: int)
    requires id >= Run(Initial(servers), events).clientIds
    ensures Passed(servers, events, id) == [] && BlockedSince(servers, events, id) == 0
    decreases |events|
  {
    hide Step, Inv, QueuedBy, BlockedBy;
    if events != [] {
      var before, e := events[..|events| - 1], events[|events| - 1];
      RunKeeps(servers, before);
      NotForNew(Run(Initial(servers), before), e, servers);
      IdsGrow(Run(Initial(servers), before), e);
      NothingPassed(servers, before, id);
    }
  }

  /** The client ids given out stay, and no structure goes. */
  predicate Grown(s: State, t: State) {
    s.clientIds <= t.clientIds && |s.mem| <= |t.mem|
  }

  lemma IdsGrow(s: State, e: Event)
    ensures Grown(s, Step(s, e))
  {
    hide DropAllStep, FindLive, Pick, Remove;
    DropAllSame(s, s.live);
  }

  predicate SameHistory(s: State, t: State) {
    && t.clientIds == s.clientIds && |t.mem| == |s.mem|
    && forall p :: 0 <= p < |s.mem| ==> t.mem[p].id == s.mem[p].id && t.mem[p].queued == s.mem[p].queued && t.mem[p].blockedTime == s.mem[p].blockedTime
  }

  lemma {:induction false} DropAllSame(s: State, todo: seq<nat>)
    ensures SameHistory(s, DropAllStep(s, todo))
    decreases |todo|
  {
    if todo != [] && todo[0] < |s.mem| {
      DropAllSame(DropStep(s, todo[0]), todo[1..]);
    }
  }

  /** The steps that touch no connection. */
  lemma OthersSame(s: State, e: Event)
    requires e.Ref? || e.Unref? || e.Drop? || e.DropAll? || e.Visit? || e.Fail? || e.Clear? || e.Splice?
    ensures SameHistory(s, Step(s, e))
  {
    hide DropAllStep, FindLive, Remove;
    DropAllSame(s, s.live);
  }

  /** Only the message at `cur` is written. */
  lemma WriteHistory(s: State, e: Event)
    requires (e.Write? || e.Block?) && Enabled(s, e)
    ensures var p := s.sends[s.cur].client; var t := Step(s, e);
      && t.clientIds == s.clientIds && |t.mem| == |s.mem|
      && (forall q :: 0 <= q < |s.mem| && q != p ==> t.mem[q] == s.mem[q])
      && t.mem[p].id == s.mem[p].id && t.mem[p].queued == s.mem[p].queued
      && t.mem[p].blockedTime == (if e.Write? then 0 else if s.mem[p].blockedTime == 0 then e.now else s.mem[p].blockedTime)
  {}

  lemma SameContinues(s: State, e: Event, servers: nat, p: nat)
    requires Ids(s, servers) && SameHistory(s, Step(s, e)) && Id(Step(s, e), p) >= 0
    requires forall q :: 0 <= q < |s.mem| && s.mem[q].id >= 0 ==> InUse(s.mem[q])
    requires QueuedBy(s, e, s.mem[p].id) == [] && !IsWriteTo(s, e, s.mem[p].id)
    ensures Continues(s, e, Step(s, e), p)
  {
    hide Step, QueuedBy, IsWriteTo;
  }

  lemma UsedHaveIds(s: State, servers: nat)
    requires Inv(s, servers)
    ensures forall q :: 0 <= q < |s.mem| && s.mem[q].id >= 0 ==> InUse(s.mem[q])
    ensures Refs(s) && Lists(s) && Ids(s, servers) && Sends(s)
  {
    hide Count, Remaining, Turns, Conserved, NoneDangling, Unfinished, Ids, Lists, Sends;
  }

  lemma StepContinues(s: State, e: Event, servers: nat, p: nat)
    requires Inv(s, servers) && Id(Step(s, e), p) >= 0
    ensures Continues(s, e, Step(s, e), p)
  {
    hide Inv, Lists, Refs, Ids, Sends, Step, InUse, Continues;
    UsedHaveIds(s, servers);
    match e
    case NewClientId => MovesNothing(s, e, servers, p);
    case Accept => AcceptContinues(s, e, servers, p);
    case AcceptRetry => AcceptContinues(s, e, servers, p);
    case AcceptFail => AcceptContinues(s, e, servers, p);
    case Cull => CullContinues(s, servers, p);
    case Queue(_, _) => QueueContinues(s, e, servers, p);
    case Write(_) => WriteContinues(s, e, servers, p);
    case Block(_) => WriteContinues(s, e, servers, p);
    case _ => OthersSame(s, e); SameContinues(s, e, servers, p);
  }

  lemma MovesNothing(s: State, e: Event, servers: nat, p: nat)
    requires Ids(s, servers) && Id(Step(s, e), p) >= 0 && (!Enabled(s, e) || e.NewClientId?)
    requires forall q :: 0 <= q < |s.mem| && s.mem[q].id >= 0 ==> InUse(s.mem[q])
    ensures Continues(s, e, Step(s, e), p)
  {}

  lemma AcceptContinues(s: State, e: Event, servers: nat, p: nat)
    requires Refs(s) && Lists(s) && Ids(s, servers) && Id(Step(s, e), p) >= 0 && (e.Accept? || e.AcceptRetry? || e.AcceptFail?)
    requires forall q :: 0 <= q < |s.mem| && s.mem[q].id >= 0 ==> InUse(s.mem[q])
    ensures Continues(s, e, Step(s, e), p)
  {
    hide Count, Remaining;
    if s.recycled != [] {
      assert s.mem[s.recycled[0]].(lost := false) == BLANK;
    }
  }

  lemma CullContinues(s: State, servers: nat, p: nat)
    requires Ids(s, servers) && Id(Step(s, Cull), p) >= 0
    requires forall q :: 0 <= q < |s.mem| && s.mem[q].id >= 0 ==> InUse(s.mem[q])
    ensures Continues(s, Cull, Step(s, Cull), p)
  {
    hide Pick;
  }

  lemma QueueContinues(s: State, e: Event, servers: nat, p: nat)
    requires e.Queue? && Refs(s) && Ids(s, servers) && Id(Step(s, e), p) >= 0
    requires forall q :: 0 <= q < |s.mem| && s.mem[q].id >= 0 ==> InUse(s.mem[q])
    ensures Continues(s, e, Step(s, e), p)
  {
    hide Count;
    if Enabled(s, e) {
      HeldInUse(s, e.p);
    }
  }

  lemma WriteContinues(s: State, e: Event, servers: nat, p: nat)
    requires (e.Write? || e.Block?) && Sends(s) && Ids(s, servers) && Id(Step(s, e), p) >= 0
    requires forall q :: 0 <= q < |s.mem| && s.mem[q].id >= 0 ==> InUse(s.mem[q])
    ensures Continues(s, e, Step(s, e), p)
  {
    if Enabled(s, e) {
      WriteHistory(s, e);
      assert All(s)[s.cur] == s.sends[s.cur];
      assert SendOk(All(s)[s.cur], s.mem, s.nextSid);
      hide Sends, Step, InTurn;
    } else {
      MovesNothing(s, e, servers, p);
    }
  }

  // ----- a client that epoll does not take -----

  /** The new client is found by its id. */
  lemma FoundNew(mem: seq<Client>, live: seq<nat>, p: nat)
    requires live != [] && live[|live| - 1] == p
    requires forall i :: 0 <= i < |live| ==> live[i] < |mem|
    requires forall i :: 0 <= i < |live| - 1 ==> mem[live[i]].id != mem[p].id
    ensures FindLive(mem, live, mem[p].id) == |live| - 1
  {}

  /** Dropped by the first thread that looks it up, it has count zero while that thread holds it. */
  lemma DroppedIdle(u: State, p: nat)
    requires u.live != [] && u.live[|u.live| - 1] == p < |u.mem|
    requires !u.mem[p].invalid && u.mem[p].ref == 0 && u.mem[p].held == 0
    requires forall i :: 0 <= i < |u.live| ==> u.live[i] < |u.mem|
    requires forall i :: 0 <= i < |u.live| - 1 ==> u.mem[u.live[i]].id != u.mem[p].id
    ensures
      var v := Step(Step(u, Ref(u.mem[p].id)), Drop(p));
      |v.mem| == |u.mem| && p in v.dead && v.mem[p].ref == 0 && v.mem[p].held == 1
  {
    FoundNew(u.mem, u.live, p);
  }

  lemma {:induction false} PickHas(mem: seq<Client>, l: seq<nat>, p: nat)
    requires p in l && Idle(mem, p)
    ensures p in Pick(mem, l, true)
  {
    if l[0] != p {
      PickHas(mem, l[1..], p);
    }
  }

  lemma CullRecycles(v: State, p: nat)
    requires p in Pick(v.mem, v.dead, true)
    ensures p in Step(v, Cull).recycled
  {}

  lemma NewAlone(s: State, servers: nat)
    requires Inv(s, servers)
    ensures
      var u := UnregisteredStep(s);
      var p := Recruit(s);
      && p < |u.mem| && u.live == s.live + [p] && !u.mem[p].invalid && u.mem[p].ref == 0 && u.mem[p].held == 0
      && u.mem[p].id == s.clientIds
      && (forall i :: 0 <= i < |u.live| ==> u.live[i] < |u.mem|)
      && (forall i :: 0 <= i < |s.live| ==> u.mem[s.live[i]].id != s.clientIds)
      && !Inv(u, servers)
  {
    hide Count, Remaining, Turns, Conserved, NoneDangling, Unfinished, Sends;
    if s.recycled != [] {
      assert s.mem[s.recycled[0]].(lost := false) == BLANK;
    }
    var u := UnregisteredStep(s);
    var p := Recruit(s);
    assert KindOf(u.mem[p]) == Live;
  }
}
