/** Jobs and share accounting of stratifier.c. */
module Shares {
  import opened Bytes
  import opened Sequences
  import opened Wrappers

  datatype Workbase = Workbase(id: nat, gentime: int, ntime32: nat, readcount: nat)

  /** A `struct timeval`. */
  datatype Time = Time(sec: int, usec: int)

  /** What `parse_submit` works from: job id, hash and time of the share, its difficulty, when it came
      in, and the client's latency in milliseconds, 0 except for clients of remote nodes. */
  datatype Submission = Submission(id: nat, hash: Hash, ntime32: nat, sdiff: real, now: Time, latency: int)

  datatype Verdict = NoWorkbase | InvalidJobId | Stale | NtimeInvalid | LowDiff | Dupe | Accepted

  /** An accepted share: job id and hash. */
  datatype Share = Share(id: nat, hash: Hash)

  /** The pool's job and share state: what `add_base`, `get_workbase` and `parse_submit` work on, with the
      share table that is purged on block changes and aged with old jobs. `retired` says when a job
      stopped being the current one. `accepted` is the history of every accepted share, which the pool
      itself does not keep. */
  datatype State = State(
    mindiff: int, workbaseId: nat, blockchangeId: nat, lasthash: string, workbases: seq<Workbase>,
    retired: map<nat, Time>, shares: map<Hash, nat>, accepted: seq<Share>)

  datatype Event =
    | AddBase(prevhash: string, gentime: int, ntime32: nat, now: Time)
    | Submit(sub: Submission)
    | GetBase(id: nat)
    | PutBase(id: nat)

  // ----- one step -----

  ghost predicate HasId(ws: seq<Workbase>, id: nat) {
    exists w :: w in ws && w.id == id
  }

  ghost predicate Live(s: State, id: nat) {
    HasId(s.workbases, id)
  }

  /** Whether a workbase is dropped when `newest` is added. */
  function TooOld(wb: Workbase, newest: Workbase): bool {
    wb.id != newest.id && wb.readcount == 0 && wb.gentime < newest.gentime - 600
  }

  /** The ageing loop over the workbases in insertion order, while at least three are left. */
  function Survivors(todo: seq<Workbase>, count: nat, newest: Workbase): (kept: seq<Workbase>) {
    if |todo| == 0 || count < 3 then todo
    else if TooOld(todo[0], newest) then Survivors(todo[1..], count - 1, newest)
    else [todo[0]] + Survivors(todo[1..], count, newest)
  }

  /** The shares that stay in the table: those of dropped workbases go, and on a block change all
      those of earlier jobs. */
  ghost function SharesLeft(shares: map<Hash, nat>, all: seq<Workbase>, kept: seq<Workbase>, from: nat): map<Hash, nat> {
    map h | h in shares && !(HasId(all, shares[h]) && !HasId(kept, shares[h])) && shares[h] >= from :: shares[h]
  }

  /** The newest workbase is the current one, and is retired when another is added. */
  function Retire(retired: map<nat, Time>, ws: seq<Workbase>, now: Time): map<nat, Time> {
    if ws == [] then retired else retired[ws[|ws| - 1].id := now]
  }

  /** `add_base`. */
  ghost function AddBaseStep(s: State, prevhash: string, gentime: int, ntime32: nat, now: Time): State {
    var wb := Workbase(s.workbaseId, gentime, ntime32, 0);
    var all := s.workbases + [wb];
    var kept := Survivors(all, |all|, wb);
    var newBlock := prevhash != s.lasthash;
    State(s.mindiff,
          s.workbaseId + 1,
          if newBlock then wb.id else s.blockchangeId,
          prevhash,
          kept,
          Retire(s.retired, s.workbases, now),
          SharesLeft(s.shares, all, kept, if newBlock then wb.id else 0),
          s.accepted)
  }

  function FindBase(ws: seq<Workbase>, id: nat): (k: nat)
    ensures k <= |ws|
    ensures k < |ws| ==> ws[k].id == id
    ensures k == |ws| ==> forall i :: 0 <= i < |ws| ==> ws[i].id != id
  {
    if |ws| == 0 then 0 else if ws[0].id == id then 0 else 1 + FindBase(ws[1..], id)
  }

  /** The 32-bit time window of `parse_submit`. */
  function NtimeOk(ntime32: nat, base: nat): bool {
    !(ntime32 < base || ntime32 > (base + 7000) % 0x1_0000_0000)
  }

  /** C's division, which truncates toward zero. */
  function Truncated(a: int, d: nat): int
    requires d > 0
  {
    if a >= 0 then a / d else -(-a / d)
  }

  /** `ms_tvdiff`: the milliseconds between two times, at most an hour. */
  function MsTvdiff(end: Time, start: Time): int {
    if end.sec - start.sec > 3600 then 3600000
    else (end.sec - start.sec) * 1000 + Truncated(end.usec - start.usec, 1000)
  }

  /** Whether a stale share is excused: the client's latency covers the time since its job was
      retired. A job that never was has a zero time. */
  function Late(s: State, sub: Submission): bool {
    var retired := if sub.id in s.retired then s.retired[sub.id] else Time(0, 0);
    sub.latency != 0 && MsTvdiff(sub.now, retired) < sub.latency
  }

  function MeetsMindiff(s: State, sub: Submission): bool {
    sub.sdiff >= s.mindiff as real
  }

  /** What `parse_submit` finds wrong with a job and time, or `Accepted`. */
  function JobVerdict(s: State, sub: Submission): Verdict {
    var k := FindBase(s.workbases, sub.id);
    if k == |s.workbases| then InvalidJobId
    else if sub.id < s.blockchangeId && !Late(s, sub) then Stale
    else if !NtimeOk(sub.ntime32, s.workbases[k].ntime32) then NtimeInvalid
    else Accepted
  }

  /** The verdict of `parse_submit`, consulting the share table last. */
  function VerdictOf(s: State, sub: Submission): Verdict {
    if |s.workbases| == 0 then NoWorkbase
    else if JobVerdict(s, sub) != Accepted then JobVerdict(s, sub)
    else if !MeetsMindiff(s, sub) then LowDiff
    else if sub.hash in s.shares then Dupe
    else Accepted
  }

  ghost function SubmitStep(s: State, sub: Submission): State {
    if VerdictOf(s, sub) == Accepted then
      s.(shares := s.shares[sub.hash := sub.id], accepted := s.accepted + [Share(sub.id, sub.hash)])
    else s
  }

  function WithReadcount(ws: seq<Workbase>, id: nat, delta: int): (r: seq<Workbase>)
    ensures |r| == |ws| && forall k :: 0 <= k < |ws| ==> r[k].id == ws[k].id
  {
    var k := FindBase(ws, id);
    if k < |ws| && ws[k].readcount + delta >= 0 then
      ws[k := ws[k].(readcount := ws[k].readcount + delta)]
    else ws
  }

  ghost function Step(s: State, e: Event): State {
    match e
    case AddBase(prevhash, gentime, ntime32, now) => AddBaseStep(s, prevhash, gentime, ntime32, now)
    case Submit(sub) => SubmitStep(s, sub)
    case GetBase(id) => s.(workbases := WithReadcount(s.workbases, id, 1))
    case PutBase(id) => s.(workbases := WithReadcount(s.workbases, id, -1))
  }

  ghost function Run(s: State, events: seq<Event>): State {
    if |events| == 0 then s else Step(Run(s, events[..|events| - 1]), events[|events| - 1])
  }

  /** The pool starts counting ids anywhere. */
  ghost function Initial(mindiff: int, start: nat): State {
    State(mindiff, start, start, "", [], map[], map[], [])
  }

  // ----- what every step keeps -----

  ghost predicate Ascending(ws: seq<Workbase>) {
    forall i, j :: 0 <= i < j < |ws| ==> ws[i].id < ws[j].id
  }

  /** The table holds accepted shares of live jobs, among them all those of jobs that are not stale. */
  ghost predicate TableIsHistory(s: State) {
    && (forall h :: h in s.shares ==> Share(s.shares[h], h) in s.accepted && Live(s, s.shares[h]))
    && (forall x :: x in s.accepted && Live(s, x.id) && x.id >= s.blockchangeId
          ==> x.hash in s.shares && s.shares[x.hash] == x.id)
  }

  ghost predicate NoDuplicates(accepted: seq<Share>) {
    forall i, j :: 0 <= i < j < |accepted| ==> accepted[i] != accepted[j]
  }

  ghost predicate Inv(s: State) {
    && Ascending(s.workbases)
    && (forall w :: w in s.workbases ==> w.id < s.workbaseId)
    && (forall x :: x in s.accepted ==> x.id < s.workbaseId)
    && s.blockchangeId <= s.workbaseId
    && TableIsHistory(s)
  }

  /** No share of a stale job is in the table. */
  ghost predicate NoStaleEntries(s: State) {
    forall h :: h in s.shares ==> s.shares[h] >= s.blockchangeId
  }

  lemma {:induction false} SurvivorsKeep(todo: seq<Workbase>, count: nat, newest: Workbase)
    requires Ascending(todo)
    ensures
      var kept := Survivors(todo, count, newest);
      && Ascending(kept)
      && (forall w :: w in kept ==> w in todo)
      && (forall w :: w in todo && !TooOld(w, newest) ==> w in kept)
      && (count >= |todo| && count >= 2 ==> |kept| + (count - |todo|) >= 2)
  {
    if |todo| == 0 || count < 3 {
    } else {
      assert todo == [todo[0]] + todo[1..];
      assert forall w :: w in todo[1..] ==> todo[0].id < w.id;
      if TooOld(todo[0], newest) {
        SurvivorsKeep(todo[1..], count - 1, newest);
      } else {
        SurvivorsKeep(todo[1..], count, newest);
      }
    }
  }

  lemma AddBaseKeeps(s: State, prevhash: string, gentime: int, ntime32: nat, now: Time)
    requires Inv(s)
    ensures Inv(AddBaseStep(s, prevhash, gentime, ntime32, now))
  {
    hide TableIsHistory, Survivors, SharesLeft;
    var t := AddBaseStep(s, prevhash, gentime, ntime32, now);
    var wb := Workbase(s.workbaseId, gentime, ntime32, 0);
    var all := s.workbases + [wb];
    SurvivorsKeep(all, |all|, wb);
    forall id: nat | Live(s, id)
      ensures HasId(all, id) && id < s.workbaseId
    {
      var w :| w in s.workbases && w.id == id;
      assert w in all;
    }
    forall id: nat | Live(t, id) && id != wb.id
      ensures Live(s, id)
    {
      var w :| w in t.workbases && w.id == id;
      assert w in s.workbases;
    }
    TableKeeps(s, t, all, wb.id);
  }

  lemma TableKeeps(s: State, t: State, all: seq<Workbase>, newId: nat)
    requires TableIsHistory(s) && t.accepted == s.accepted
    requires forall x :: x in s.accepted ==> x.id < newId
    requires forall id: nat :: Live(s, id) ==> HasId(all, id)
    requires forall id: nat :: Live(t, id) && id != newId ==> Live(s, id)
    requires t.blockchangeId == s.blockchangeId || t.blockchangeId == newId
    requires t.shares == SharesLeft(s.shares, all, t.workbases, if t.blockchangeId == newId then newId else 0)
          || (t.blockchangeId == s.blockchangeId && t.shares == SharesLeft(s.shares, all, t.workbases, 0))
    ensures TableIsHistory(t)
  {
    forall h | h in t.shares
      ensures Live(t, t.shares[h])
    {
      assert h in s.shares && Live(s, s.shares[h]);
    }
    forall x | x in t.accepted && Live(t, x.id) && x.id >= t.blockchangeId
      ensures x.hash in t.shares && t.shares[x.hash] == x.id
    {
      assert Live(s, x.id);
    }
  }

  lemma AcceptedInTable(s: State, sub: Submission)
    requires TableIsHistory(s) && VerdictOf(s, sub) == Accepted
    ensures TableIsHistory(SubmitStep(s, sub))
  {
    var k := FindBase(s.workbases, sub.id);
    assert s.workbases[k] in s.workbases;
    assert Live(s, sub.id);
    assert SubmitStep(s, sub).workbases == s.workbases;
  }

  lemma SubmitKeeps(s: State, sub: Submission)
    requires Inv(s)
    ensures Inv(SubmitStep(s, sub))
  {
    hide TableIsHistory;
    if VerdictOf(s, sub) == Accepted {
      AcceptedInTable(s, sub);
      var k := FindBase(s.workbases, sub.id);
      assert s.workbases[k] in s.workbases;
    }
  }

  lemma ReadcountKeeps(s: State, id: nat, delta: int)
    requires Inv(s)
    ensures Inv(s.(workbases := WithReadcount(s.workbases, id, delta)))
  {
    hide TableIsHistory;
    var t := s.(workbases := WithReadcount(s.workbases, id, delta));
    SameIds(s, t);
  }

  lemma SameIds(s: State, t: State)
    requires TableIsHistory(s) && t == s.(workbases := t.workbases)
    requires |t.workbases| == |s.workbases| && forall k :: 0 <= k < |s.workbases| ==> t.workbases[k].id == s.workbases[k].id
    ensures TableIsHistory(t)
  {
    forall i: nat
      ensures Live(t, i) <==> Live(s, i)
    {
      assert forall k :: 0 <= k < |s.workbases| ==> t.workbases[k] in t.workbases && s.workbases[k] in s.workbases;
    }
  }

  lemma StepKeeps(s: State, e: Event)
    requires Inv(s)
    ensures Inv(Step(s, e))
  {
    match e
    case AddBase(prevhash, gentime, ntime32, now) => AddBaseKeeps(s, prevhash, gentime, ntime32, now);
    case Submit(sub) => SubmitKeeps(s, sub);
    case GetBase(id) => ReadcountKeeps(s, id, 1);
    case PutBase(id) => ReadcountKeeps(s, id, -1);
  }

  // ----- whole runs -----

  lemma {:induction false} RunKeeps(mindiff: int, start: nat, events: seq<Event>)
    ensures Inv(Run(Initial(mindiff, start), events))
  {
    if |events| > 0 {
      RunKeeps(mindiff, start, events[..|events| - 1]);
      StepKeeps(Run(Initial(mindiff, start), events[..|events| - 1]), events[|events| - 1]);
    }
  }

  /** Whatever happened before, late shares included, a share accepted for a job that is not stale
      was never accepted before. */
  lemma AcceptedIsNew(mindiff: int, start: nat, events: seq<Event>, sub: Submission)
    ensures
      var s := Run(Initial(mindiff, start), events);
      VerdictOf(s, sub) == Accepted && sub.id >= s.blockchangeId ==> Share(sub.id, sub.hash) !in s.accepted
  {
    hide Run, Initial;
    RunKeeps(mindiff, start, events);
    var s := Run(Initial(mindiff, start), events);
    if VerdictOf(s, sub) == Accepted {
      LiveJob(s, sub.id);
    }
  }

  lemma LiveJob(s: State, id: nat)
    requires FindBase(s.workbases, id) < |s.workbases|
    ensures Live(s, id)
  {
    assert s.workbases[FindBase(s.workbases, id)] in s.workbases;
  }

  /** The submissions of a run that were answered with `Accepted`. */
  ghost function Answered(mindiff: int, start: nat, events: seq<Event>): seq<Share> {
    if |events| == 0 then []
    else
      var before, e := events[..|events| - 1], events[|events| - 1];
      Answered(mindiff, start, before) +
        if e.Submit? && VerdictOf(Run(Initial(mindiff, start), before), e.sub) == Accepted then [Share(e.sub.id, e.sub.hash)] else []
  }

  /** The history is what was submitted and answered with `Accepted`, in order. */
  lemma {:induction false} AcceptedAreAnswered(mindiff: int, start: nat, events: seq<Event>)
    ensures Run(Initial(mindiff, start), events).accepted == Answered(mindiff, start, events)
  {
    if |events| > 0 {
      AcceptedAreAnswered(mindiff, start, events[..|events| - 1]);
      hide Initial, VerdictOf, Survivors;
    }
  }

  /** A run in which no client has a latency, as all clients of the pool itself. */
  ghost predicate OnTime(events: seq<Event>) {
    forall e :: e in events && e.Submit? ==> e.sub.latency == 0
  }

  /** In every run without late shares no (job id, hash) pair is accepted twice, although shares are
      purged and aged, and the table holds no share of a stale job. */
  lemma {:induction false} AcceptedOnce(mindiff: int, start: nat, events: seq<Event>)
    requires OnTime(events)
    ensures NoDuplicates(Run(Initial(mindiff, start), events).accepted)
    ensures NoStaleEntries(Run(Initial(mindiff, start), events))
  {
    if |events| > 0 {
      var before, e := events[..|events| - 1], events[|events| - 1];
      AcceptedOnce(mindiff, start, before);
      if e.Submit? {
        AcceptedIsNew(mindiff, start, before, e.sub);
      }
      hide Initial, Survivors;
    }
  }

  /** Exactly when a pair that was accepted is accepted again, after any run: its job is kept although
      stale, the client's latency excuses it, time and difficulty are good, and the table has lost the
      hash. */
  lemma RepeatedExactlyWhen(mindiff: int, start: nat, events: seq<Event>, sub: Submission)
    requires Share(sub.id, sub.hash) in Run(Initial(mindiff, start), events).accepted
    ensures
      var s := Run(Initial(mindiff, start), events);
      var k := FindBase(s.workbases, sub.id);
      VerdictOf(s, sub) == Accepted <==>
        && k < |s.workbases| && sub.id < s.blockchangeId && Late(s, sub)
        && NtimeOk(sub.ntime32, s.workbases[k].ntime32) && MeetsMindiff(s, sub) && sub.hash !in s.shares
  {
    hide Run, Initial, Late, NtimeOk;
    AcceptedIsNew(mindiff, start, events, sub);
  }

  /** And that does happen: whenever a block change keeps the job of an accepted share, the share is
      accepted again from a client whose latency excuses it, for the purge has forgotten it. */
  lemma LateShareRepeats(s: State, prevhash: string, gentime: int, ntime32: nat, now: Time, sub: Submission)
    requires Inv(s) && Share(sub.id, sub.hash) in s.accepted && prevhash != s.lasthash
    requires
      var t := AddBaseStep(s, prevhash, gentime, ntime32, now);
      var k := FindBase(t.workbases, sub.id);
      && k < |t.workbases| && Late(t, sub)
      && NtimeOk(sub.ntime32, t.workbases[k].ntime32) && MeetsMindiff(t, sub)
    ensures VerdictOf(AddBaseStep(s, prevhash, gentime, ntime32, now), sub) == Accepted
  {
    hide Survivors, Late, NtimeOk, MeetsMindiff;
    var t := AddBaseStep(s, prevhash, gentime, ntime32, now);
    forall h
      ensures h !in t.shares
    {
      if h in s.shares {
        assert Share(s.shares[h], h) in s.accepted;
      }
    }
  }

  /** The shortest such run. */
  lemma OneLateRepeat(hash: Hash)
    ensures
      var share := Submission(0, hash, 0, 1.0, Time(1, 0), 500);
      var events := [AddBase("a", 0, 0, Time(1, 0)), Submit(share), AddBase("b", 0, 0, Time(1, 0)), Submit(share)];
      Run(Initial(1, 0), events).accepted == [Share(0, hash), Share(0, hash)]
  {
    var share := Submission(0, hash, 0, 1.0, Time(1, 0), 500);
    var events := [AddBase("a", 0, 0, Time(1, 0)), Submit(share), AddBase("b", 0, 0, Time(1, 0)), Submit(share)];
    var s1 := Step(Initial(1, 0), events[0]);
    var s2 := Step(s1, events[1]);
    var s3 := Step(s2, events[2]);
    var s4 := Step(s3, events[3]);
    assert s1.workbases == [Workbase(0, 0, 0, 0)];
    assert s2.accepted == [Share(0, hash)];
    assert s3.workbases == [Workbase(0, 0, 0, 0), Workbase(1, 0, 0, 0)] && s3.shares == map[];
    assert s3.retired == map[0 := Time(1, 0)];
    assert s4.accepted == [Share(0, hash), Share(0, hash)];
    assert events[..3][..2][..1][..0] == [] && events[..3][..2][..1] == [events[0]];
    assert events[..3][..2] == [events[0], events[1]];
    assert Run(Initial(1, 0), events[..3][..2][..1]) == s1;
    assert Run(Initial(1, 0), events[..3][..2]) == s2;
    assert Run(Initial(1, 0), events[..3]) == s3;
  }

  /** In every run without late shares the table decides like a memory of every share ever accepted:
      a share for a good job that meets the difficulty is a duplicate exactly when the pair was
      accepted before. The hash covers the job, so that no hash is shared by two jobs. */
  lemma TableDecidesLikeHistory(mindiff: int, start: nat, events: seq<Event>, sub: Submission)
    requires OnTime(events) && sub.latency == 0
    requires
      var s := Run(Initial(mindiff, start), events);
      && |s.workbases| > 0 && JobVerdict(s, sub) == Accepted && MeetsMindiff(s, sub)
      && forall x :: x in s.accepted && x.hash == sub.hash ==> x.id == sub.id
    ensures
      var s := Run(Initial(mindiff, start), events);
      VerdictOf(s, sub) == if Share(sub.id, sub.hash) in s.accepted then Dupe else Accepted
  {
    hide Run, Initial, MeetsMindiff, NtimeOk;
    RunKeeps(mindiff, start, events);
    var s := Run(Initial(mindiff, start), events);
    LiveJob(s, sub.id);
    if sub.hash in s.shares {
      assert Share(s.shares[sub.hash], sub.hash) in s.accepted;
    }
  }

  /** A hash that two jobs share is the only other way to a duplicate: then the verdict is that of the
      hashes alone, among the jobs that are live and not stale. */
  lemma TableDecidesByHash(mindiff: int, start: nat, events: seq<Event>, sub: Submission)
    requires OnTime(events)
    requires
      var s := Run(Initial(mindiff, start), events);
      |s.workbases| > 0 && JobVerdict(s, sub) == Accepted && MeetsMindiff(s, sub)
    ensures
      var s := Run(Initial(mindiff, start), events);
      VerdictOf(s, sub) == Dupe <==>
        exists x :: x in s.accepted && x.hash == sub.hash && Live(s, x.id) && x.id >= s.blockchangeId
  {
    hide Run, Initial, MeetsMindiff, NtimeOk;
    RunKeeps(mindiff, start, events);
    AcceptedOnce(mindiff, start, events);
    var s := Run(Initial(mindiff, start), events);
    if sub.hash in s.shares {
      assert Share(s.shares[sub.hash], sub.hash) in s.accepted;
    }
  }

  /** A new template takes a fresh id, becomes the last workbase, and drops no workbase that is in
      use or was made in the last ten minutes; at least two are kept. */
  lemma AddBaseSpares(s: State, prevhash: string, gentime: int, ntime32: nat, now: Time)
    requires Inv(s)
    ensures
      var t := AddBaseStep(s, prevhash, gentime, ntime32, now);
      && |t.workbases| >= 1 && t.workbases[|t.workbases| - 1] == Workbase(s.workbaseId, gentime, ntime32, 0)
      && (|s.workbases| >= 1 ==> |t.workbases| >= 2)
      && (forall w :: w in s.workbases && (w.readcount > 0 || w.gentime >= gentime - 600) ==> w in t.workbases)
      && (forall w :: w in t.workbases ==> w in s.workbases || w.id == s.workbaseId)
      && s.workbaseId < t.workbaseId && s.blockchangeId <= t.blockchangeId
  {
    hide TableIsHistory, SharesLeft, Survivors;
    var t := AddBaseStep(s, prevhash, gentime, ntime32, now);
    var wb := Workbase(s.workbaseId, gentime, ntime32, 0);
    var all := s.workbases + [wb];
    SurvivorsKeep(all, |all|, wb);
    assert wb in t.workbases;
    assert t.workbases[|t.workbases| - 1] in all;
    assert forall w :: w in s.workbases ==> w in all;
  }

  // ----- what decides, from the templates alone -----

  ghost predicate Templates(bases: seq<Event>) {
    forall k :: 0 <= k < |bases| ==> bases[k].AddBase?
  }

  /** The templates added so far. */
  ghost function Bases(events: seq<Event>): (bases: seq<Event>)
    ensures Templates(bases)
  {
    if |events| == 0 then []
    else
      var e := events[|events| - 1];
      Bases(events[..|events| - 1]) + if e.AddBase? then [e] else []
  }

  /** The block has changed since template `i`. */
  ghost predicate Outdated(bases: seq<Event>, i: int)
    requires Templates(bases)
  {
    exists j :: 0 <= i < j < |bases| && bases[j].prevhash != bases[j - 1].prevhash
  }

  /** A job is the template with its number. */
  ghost predicate JobOf(w: Workbase, start: nat, bases: seq<Event>)
    requires Templates(bases)
  {
    && start <= w.id < start + |bases|
    && w.ntime32 == bases[w.id - start].ntime32 && w.gentime == bases[w.id - start].gentime
  }

  /** Template `i` is retired when the next one comes. */
  ghost predicate RetiredByNext(retired: map<nat, Time>, start: nat, bases: seq<Event>, i: nat)
    requires Templates(bases) && i + 1 < |bases|
  {
    start + i in retired && retired[start + i] == bases[i + 1].now
  }

  /** The state's jobs are the templates numbered from `start`, each but the last retired when the next
      one came, and stale when the block has changed since. */
  ghost predicate FromBases(s: State, start: nat, bases: seq<Event>)
    requires Templates(bases)
  {
    && s.workbaseId == start + |bases|
    && s.lasthash == (if |bases| == 0 then "" else bases[|bases| - 1].prevhash)
    && (|s.workbases| == 0 <==> |bases| == 0)
    && (|bases| > 0 ==> s.workbases[|s.workbases| - 1].id == start + |bases| - 1)
    && (forall w :: w in s.workbases ==> JobOf(w, start, bases))
    && (forall i: nat :: i + 1 < |bases| ==> RetiredByNext(s.retired, start, bases, i))
    && start <= s.blockchangeId
    && (forall i :: 0 <= i < |bases| ==> (start + i < s.blockchangeId <==> Outdated(bases, i)))
  }

  lemma {:induction false} RunFromBases(mindiff: int, start: nat, events: seq<Event>)
    ensures FromBases(Run(Initial(mindiff, start), events), start, Bases(events))
    ensures Run(Initial(mindiff, start), events).mindiff == mindiff
  {
    hide FromBases, Inv, AddBaseStep, SubmitStep, WithReadcount;
    if |events| == 0 {
      NoBases(mindiff, start);
    } else {
      var before, e := events[..|events| - 1], events[|events| - 1];
      RunFromBases(mindiff, start, before);
      RunKeeps(mindiff, start, before);
      hide Initial, Run;
      StepFromBases(Run(Initial(mindiff, start), before), start, Bases(before), e);
    }
  }

  lemma NoBases(mindiff: int, start: nat)
    ensures FromBases(Initial(mindiff, start), start, [])
  {}

  lemma StepFromBases(s: State, start: nat, bases: seq<Event>, e: Event)
    requires Templates(bases) && FromBases(s, start, bases) && Inv(s)
    ensures FromBases(Step(s, e), start, bases + if e.AddBase? then [e] else [])
    ensures Step(s, e).mindiff == s.mindiff
  {
    hide Inv, VerdictOf, WithReadcount, Outdated, JobOf, RetiredByNext;
    if e.AddBase? {
      AddsBase(s, start, bases, e.prevhash, e.gentime, e.ntime32, e.now);
    } else {
      assert bases + [] == bases;
      if e.GetBase? {
        SameTemplates(s, start, bases, e.id, 1);
      } else if e.PutBase? {
        SameTemplates(s, start, bases, e.id, -1);
      }
    }
  }

  lemma SameTemplates(s: State, start: nat, bases: seq<Event>, id: nat, delta: int)
    requires Templates(bases) && FromBases(s, start, bases)
    ensures FromBases(s.(workbases := WithReadcount(s.workbases, id, delta)), start, bases)
  {
    hide Outdated, RetiredByNext;
    var ws := WithReadcount(s.workbases, id, delta);
    forall w | w in ws
      ensures JobOf(w, start, bases)
    {
      var k :| 0 <= k < |ws| && ws[k] == w;
      assert JobOf(s.workbases[k], start, bases);
    }
  }

  lemma AddsBase(s: State, start: nat, bases: seq<Event>, prevhash: string, gentime: int, ntime32: nat, now: Time)
    requires Templates(bases) && Inv(s) && FromBases(s, start, bases)
    ensures FromBases(AddBaseStep(s, prevhash, gentime, ntime32, now), start, bases + [AddBase(prevhash, gentime, ntime32, now)])
  {
    hide Inv, Outdated, Survivors, SharesLeft, JobOf, RetiredByNext;
    var t := AddBaseStep(s, prevhash, gentime, ntime32, now);
    var e := AddBase(prevhash, gentime, ntime32, now);
    AddBaseSpares(s, prevhash, gentime, ntime32, now);
    ChangeNoted(s, start, bases, e);
    JobsNumbered(s, t, start, bases, e);
    AllRetired(s, t, start, bases, e);
  }

  lemma JobsNumbered(s: State, t: State, start: nat, bases: seq<Event>, e: Event)
    requires Templates(bases) && e.AddBase? && FromBases(s, start, bases) && Inv(s)
    requires t == AddBaseStep(s, e.prevhash, e.gentime, e.ntime32, e.now)
    ensures forall w :: w in t.workbases ==> JobOf(w, start, bases + [e])
  {
    hide TableIsHistory, Outdated, RetiredByNext, Survivors, SharesLeft;
    var wb := Workbase(s.workbaseId, e.gentime, e.ntime32, 0);
    SurvivorsKeep(s.workbases + [wb], |s.workbases| + 1, wb);
    forall w | w in t.workbases
      ensures JobOf(w, start, bases + [e])
    {
      assert w in s.workbases + [wb];
      assert w in s.workbases ==> JobOf(w, start, bases);
    }
  }

  lemma AllRetired(s: State, t: State, start: nat, bases: seq<Event>, e: Event)
    requires Templates(bases) && e.AddBase? && FromBases(s, start, bases)
    requires t.retired == Retire(s.retired, s.workbases, e.now)
    ensures forall i: nat :: i + 1 < |bases| + 1 ==> RetiredByNext(t.retired, start, bases + [e], i)
  {
    hide Outdated, JobOf;
    forall i: nat | i + 1 < |bases| + 1
      ensures RetiredByNext(t.retired, start, bases + [e], i)
    {
      assert i + 1 < |bases| ==> RetiredByNext(s.retired, start, bases, i);
    }
  }

  /** The block change is noted with the first template after it. */
  lemma ChangeNoted(s: State, start: nat, bases: seq<Event>, e: Event)
    requires Templates(bases) && e.AddBase? && FromBases(s, start, bases) && Inv(s)
    ensures
      var change := if e.prevhash != s.lasthash then s.workbaseId else s.blockchangeId;
      && start <= change
      && forall i :: 0 <= i <= |bases| ==> (start + i < change <==> Outdated(bases + [e], i))
  {
    hide JobOf, RetiredByNext, TableIsHistory;
    var more := bases + [e];
    forall i | 0 <= i <= |bases|
      ensures Outdated(more, i) <==> i < |bases| && (e.prevhash != bases[|bases| - 1].prevhash || Outdated(bases, i))
    {
      OutdatedNext(bases, e, i);
    }
  }

  lemma OutdatedNext(bases: seq<Event>, e: Event, i: nat)
    requires Templates(bases) && e.AddBase? && i <= |bases|
    ensures Outdated(bases + [e], i) <==> i < |bases| && (e.prevhash != bases[|bases| - 1].prevhash || Outdated(bases, i))
  {
    var more := bases + [e];
    if i < |bases| {
      assert more[|bases|] == e && more[|bases| - 1] == bases[|bases| - 1];
      if Outdated(bases, i) {
        var j :| i < j < |bases| && bases[j].prevhash != bases[j - 1].prevhash;
        assert more[j].prevhash != more[j - 1].prevhash;
      }
      if Outdated(more, i) {
        var j :| i < j < |more| && more[j].prevhash != more[j - 1].prevhash;
        assert j < |bases| ==> bases[j].prevhash != bases[j - 1].prevhash;
      }
    }
  }

  /** Less than `latency` whole milliseconds have gone by, counted up to an hour; a client of the pool
      itself has no latency. */
  ghost predicate WithinLatency(now: Time, retired: Time, latency: int) {
    var micros := 1000000 * (now.sec - retired.sec) + now.usec - retired.usec;
    && latency != 0
    && if now.sec - retired.sec > 3600 then latency > 3600000
       else if 1000 * (now.sec - retired.sec) < latency then micros < 1000 * latency
       else micros <= 1000 * (latency - 1)
  }

  lemma LateMeans(now: Time, retired: Time, latency: int)
    ensures latency != 0 && MsTvdiff(now, retired) < latency <==> WithinLatency(now, retired, latency)
  {
    var d := now.usec - retired.usec;
    TruncatedBelow(d, latency - 1000 * (now.sec - retired.sec));
  }

  lemma TruncatedBelow(d: int, m: int)
    ensures Truncated(d, 1000) < m <==> if m > 0 then d < 1000 * m else d <= 1000 * (m - 1)
  {}

  /** After any run the verdict on a share, from the templates added and the table: the job must be kept,
      its block must be the current one or its retirement no longer ago than the latency, the time at
      most 7000 seconds ahead of the template's, the difficulty sufficient and the hash new. Where the
      end of the time window does not fit 32 bits, no time is good. */
  lemma VerdictFromHistory(mindiff: int, start: nat, events: seq<Event>, sub: Submission)
    requires forall e :: e in Bases(events) ==> e.AddBase? && e.ntime32 < 0x1_0000_0000
    ensures
      var s := Run(Initial(mindiff, start), events);
      var bases := Bases(events);
      var i := sub.id - start;
      if |bases| == 0 then VerdictOf(s, sub) == NoWorkbase
      else if forall w :: w in s.workbases ==> w.id != sub.id then VerdictOf(s, sub) == InvalidJobId
      else
        && 0 <= i < |bases|
        && (Outdated(bases, i) ==> i + 1 < |bases|)
        && VerdictOf(s, sub) ==
             if Outdated(bases, i) && !WithinLatency(sub.now, bases[i + 1].now, sub.latency) then Stale
             else if sub.ntime32 < bases[i].ntime32 || sub.ntime32 > bases[i].ntime32 + 7000
                  || bases[i].ntime32 + 7000 >= 0x1_0000_0000 then NtimeInvalid
             else if sub.sdiff < mindiff as real then LowDiff
             else if sub.hash in s.shares then Dupe
             else Accepted
  {
    hide Run, Initial, Outdated, WithinLatency, MsTvdiff, Bases;
    RunFromBases(mindiff, start, events);
    var s := Run(Initial(mindiff, start), events);
    var bases := Bases(events);
    var k := FindBase(s.workbases, sub.id);
    if k < |s.workbases| {
      assert s.workbases[k] in s.workbases;
      var i := sub.id - start;
      assert JobOf(s.workbases[k], start, bases);
      assert bases[i] in bases;
      if Outdated(bases, i) {
        LastIsCurrent(bases, i);
        assert RetiredByNext(s.retired, start, bases, i);
        LateMeans(sub.now, bases[i + 1].now, sub.latency);
      }
    }
  }

  lemma LastIsCurrent(bases: seq<Event>, i: nat)
    requires Templates(bases) && Outdated(bases, i)
    ensures i + 1 < |bases|
  {}

  // ----- which workbases are kept -----

  /** How many of the first `i` workbases are unused and made more than ten minutes before `gentime`. */
  function Expired(all: seq<Workbase>, i: nat, gentime: int): (n: nat)
    requires i <= |all|
    ensures n <= i
  {
    if i == 0 then 0
    else Expired(all, i - 1, gentime) + if all[i - 1].readcount == 0 && all[i - 1].gentime + 600 < gentime then 1 else 0
  }

  lemma {:induction false} ExpiredTail(all: seq<Workbase>, i: nat, gentime: int)
    requires 1 <= i <= |all|
    ensures Expired(all, i, gentime) == Expired(all, 1, gentime) + Expired(all[1..], i - 1, gentime)
  {
    if i > 1 {
      ExpiredTail(all, i - 1, gentime);
    }
  }

  /** One round of the ageing loop. */
  lemma FirstSurvives(todo: seq<Workbase>, count: nat, newest: Workbase, k: nat)
    requires Ascending(todo) && k < |todo| && count >= 3
    ensures
      var fewer := if TooOld(todo[0], newest) then count - 1 else count;
      todo[k] in Survivors(todo, count, newest) <==>
        if k == 0 then !TooOld(todo[0], newest) else todo[k] in Survivors(todo[1..], fewer, newest)
  {
    hide TooOld;
    var rest := todo[1..];
    var fewer := if TooOld(todo[0], newest) then count - 1 else count;
    assert forall w :: w in rest ==> w.id > todo[0].id;
    SurvivorsKeep(rest, fewer, newest);
    hide Survivors;
  }

  lemma {:induction false} SurvivorsExactly(todo: seq<Workbase>, count: nat, newest: Workbase, k: nat)
    requires Ascending(todo) && k < |todo| && forall w :: w in todo && w.id == newest.id ==> w.gentime + 600 >= newest.gentime
    ensures todo[k] in Survivors(todo, count, newest) <==>
      todo[k].readcount > 0 || todo[k].gentime + 600 >= newest.gentime || count < Expired(todo, k, newest.gentime) + 3
  {
    if count >= 3 {
      FirstSurvives(todo, count, newest, k);
      hide Survivors;
      if k > 0 {
        var rest := todo[1..];
        assert forall w :: w in rest ==> w in todo;
        ExpiredTail(todo, k, newest.gentime);
        FirstExpired(todo, newest);
        hide Expired;
        SurvivorsExactly(rest, if TooOld(todo[0], newest) then count - 1 else count, newest, k - 1);
      }
    }
  }

  lemma FirstExpired(todo: seq<Workbase>, newest: Workbase)
    requires |todo| > 0 && forall w :: w in todo && w.id == newest.id ==> w.gentime + 600 >= newest.gentime
    ensures Expired(todo, 1, newest.gentime) == if TooOld(todo[0], newest) then 1 else 0
  {
    assert todo[0] in todo;
    assert Expired(todo, 0, newest.gentime) == 0;
  }

  /** A new template drops exactly the unused workbases more than ten minutes older than itself, oldest
      first, while at least three are left. */
  lemma AgedExactly(s: State, prevhash: string, gentime: int, ntime32: nat, now: Time, k: nat)
    requires Inv(s) && k < |s.workbases|
    ensures
      var all := s.workbases + [Workbase(s.workbaseId, gentime, ntime32, 0)];
      s.workbases[k] !in AddBaseStep(s, prevhash, gentime, ntime32, now).workbases <==>
        s.workbases[k].readcount == 0 && s.workbases[k].gentime < gentime - 600 && |all| - Expired(all, k, gentime) >= 3
  {
    hide TableIsHistory, SharesLeft, Survivors, Expired;
    var wb := Workbase(s.workbaseId, gentime, ntime32, 0);
    var all := s.workbases + [wb];
    NewestAscends(s, wb);
    assert forall w :: w in all && w.id == wb.id ==> w == wb;
    SurvivorsExactly(all, |all|, wb, k);
    assert all[k] == s.workbases[k];
  }

  // ----- workbases in use -----

  /** How often a job was taken less how often it was put back. */
  function Taken(events: seq<Event>, id: nat): int {
    if |events| == 0 then 0
    else
      var e := events[|events| - 1];
      Taken(events[..|events| - 1], id) + (if e == GetBase(id) then 1 else if e == PutBase(id) then -1 else 0)
  }

  ghost predicate InUse(ws: seq<Workbase>, id: nat, n: int) {
    exists k :: 0 <= k < |ws| && ws[k].id == id && ws[k].readcount == n
  }

  /** A job that is in use stays, whatever happens, for as long as it is put back less often than it was
      taken, and its count says how often it is in use. */
  lemma {:induction false} InUseStays(s: State, events: seq<Event>, id: nat, n: nat)
    requires Inv(s) && InUse(s.workbases, id, n)
    requires forall k :: 0 <= k <= |events| ==> n + Taken(events[..k], id) >= 1
    ensures Inv(Run(s, events)) && InUse(Run(s, events).workbases, id, n + Taken(events, id))
  {
    hide Inv, InUse, Step;
    if |events| > 0 {
      var before, e := events[..|events| - 1], events[|events| - 1];
      forall k | 0 <= k <= |before|
        ensures n + Taken(before[..k], id) >= 1
      {
        assert before[..k] == events[..k];
      }
      InUseStays(s, before, id, n);
      assert events[..|events|] == events;
      assert n + Taken(events[..|before|], id) >= 1;
      StepKeeps(Run(s, before), e);
      UseCounted(Run(s, before), e, id, n + Taken(before, id));
    }
  }

  lemma UseCounted(s: State, e: Event, id: nat, n: int)
    requires Inv(s) && InUse(s.workbases, id, n) && n >= 1
    ensures InUse(Step(s, e).workbases, id, n + (if e == GetBase(id) then 1 else if e == PutBase(id) then -1 else 0))
  {
    hide TableIsHistory, Survivors, SharesLeft, VerdictOf;
    var k :| 0 <= k < |s.workbases| && s.workbases[k].id == id && s.workbases[k].readcount == n;
    assert s.workbases[k] in s.workbases;
    match e
    case AddBase(prevhash, gentime, ntime32, now) =>
      AddBaseSpares(s, prevhash, gentime, ntime32, now);
      var t := AddBaseStep(s, prevhash, gentime, ntime32, now);
      var j :| 0 <= j < |t.workbases| && t.workbases[j] == s.workbases[k];
    case Submit(sub) =>
    case GetBase(i) => FoundAt(s.workbases, i, id, k); assert WithReadcount(s.workbases, i, 1)[k].id == id;
    case PutBase(i) => FoundAt(s.workbases, i, id, k); assert WithReadcount(s.workbases, i, -1)[k].id == id;
  }

  lemma FoundAt(ws: seq<Workbase>, i: nat, id: nat, k: nat)
    requires Ascending(ws) && k < |ws| && ws[k].id == id
    ensures i == id ==> FindBase(ws, i) == k
    ensures i != id ==> FindBase(ws, i) != k
  {}

  // ----- the code -----

  class Jobs {
    var workbaseId: nat
    var blockchangeId: nat
    var lasthash: string
    var workbases: seq<Workbase>
    const mindiff: int
    var current: Option<nat>
    var retired: map<nat, Time>
    var shares: map<Hash, nat>
    ghost var accepted: seq<Share>

    ghost function View(): State
      reads this
    {
      State(mindiff, workbaseId, blockchangeId, lasthash, workbases, retired, shares, accepted)
    }

    /** The current workbase is the newest one. */
    ghost predicate Valid()
      reads this
    {
      && Inv(View())
      && current == if |workbases| == 0 then None else Some(workbases[|workbases| - 1].id)
    }

    constructor (mindiff: int, randomiser: nat)
      ensures Valid() && View() == Initial(mindiff, randomiser)
    {
      this.mindiff := mindiff;
      workbaseId, blockchangeId, lasthash := randomiser, randomiser, "";
      workbases, current := [], None;
      retired, shares := map[], map[];
      accepted := [];
    }

    /** `purge_share_hashtable`. */
    method PurgeShareHashtable(wbId: nat)
      modifies this`shares
      ensures shares == map h | h in old(shares) && old(shares)[h] >= wbId :: old(shares)[h]
    {
      var todo := shares.Keys;
      while todo != {}
        invariant todo <= shares.Keys <= old(shares).Keys
        invariant forall h :: h in old(shares) ==> (h in shares <==> h in todo || old(shares)[h] >= wbId)
        invariant forall h :: h in shares ==> shares[h] == old(shares)[h]
        decreases |todo|
      {
        var h :| h in todo;
        todo := todo - {h};
        if shares[h] < wbId {
          shares := shares - {h};
        }
      }
    }

    /** `age_share_hashtable`. */
    method AgeShareHashtable(wbId: nat)
      modifies this`shares
      ensures shares == map h | h in old(shares) && old(shares)[h] != wbId :: old(shares)[h]
    {
      var todo := shares.Keys;
      while todo != {}
        invariant todo <= shares.Keys <= old(shares).Keys
        invariant forall h :: h in old(shares) ==> (h in shares <==> h in todo || old(shares)[h] != wbId)
        invariant forall h :: h in shares ==> shares[h] == old(shares)[h]
        decreases |todo|
      {
        var h :| h in todo;
        todo := todo - {h};
        if shares[h] == wbId {
          shares := shares - {h};
        }
      }
    }

    /** The ageing loop of `add_base`. */
    method AgeWorkbases(wb: Workbase)
      requires Ascending(workbases)
      modifies this`workbases, this`shares
      ensures workbases == Survivors(old(workbases), |old(workbases)|, wb)
      ensures shares == SharesLeft(old(shares), old(workbases), workbases, 0)
    {
      hide HasId, Ascending, SharesLeft, Survivors, AgedTo;
      ghost var all := workbases;
      var i := 0;
      NothingDropped(shares, all);
      AgeStart(workbases, wb);
      while i < |workbases| && |workbases| >= 3
        invariant 0 <= i <= |workbases| && Ascending(workbases)
        invariant forall w :: w in workbases ==> w in all
        invariant AgedTo(workbases, i, wb) == Survivors(all, |all|, wb)
        invariant shares == SharesLeft(old(shares), all, workbases, 0)
        decreases |workbases| - i
      {
        var tmp := workbases[i];
        ghost var was := workbases;
        AgeNext(was, i, wb);
        if tmp.id != wb.id && tmp.readcount == 0 && tmp.gentime < wb.gentime - 600 {
          workbases := Without(workbases, i);
          AgeShareHashtable(tmp.id);
          IdsWithout(was, i);
          OwnId(all, was[i]);
          DropOne(old(shares), all, was, i);
        } else {
          i := i + 1;
        }
      }
      AgeEnd(workbases, i, wb);
    }

    /** `add_base` in pool mode. */
    method AddBase(prevhash: string, gentime: int, ntime32: nat, now: Time) returns (newBlock: bool)
      requires Valid()
      modifies this
      ensures Valid() && View() == AddBaseStep(old(View()), prevhash, gentime, ntime32, now)
      ensures newBlock <==> prevhash != old(lasthash)
      ensures current == Some(old(workbaseId))
    {
      hide SharesLeft, Survivors, TableIsHistory, Retire;
      ghost var was := View();
      AddBaseKeeps(was, prevhash, gentime, ntime32, now);
      AddBaseSpares(was, prevhash, gentime, ntime32, now);
      NewestAscends(was, Workbase(workbaseId, gentime, ntime32, 0));
      hide Inv, Ascending;
      var wb := Workbase(workbaseId, gentime, ntime32, 0);
      newBlock := EnterBase(prevhash, wb, now);
      AgeWorkbases(wb);
      if newBlock {
        PurgeAfterAge(was.shares, was.workbases + [wb], workbases, wb.id);
        PurgeShareHashtable(wb.id);
      }
      assert View() == AddBaseStep(was, prevhash, gentime, ntime32, now);
    }

    /** The part of `add_base` before the ageing: the template gets its id and becomes the current one. */
    method EnterBase(prevhash: string, wb: Workbase, now: Time) returns (newBlock: bool)
      requires current == if |workbases| == 0 then None else Some(workbases[|workbases| - 1].id)
      modifies this`workbaseId, this`lasthash, this`blockchangeId, this`workbases, this`retired, this`current
      ensures newBlock <==> prevhash != old(lasthash)
      ensures workbaseId == old(workbaseId) + 1 && lasthash == prevhash
      ensures blockchangeId == if newBlock then wb.id else old(blockchangeId)
      ensures workbases == old(workbases) + [wb] && current == Some(wb.id)
      ensures retired == Retire(old(retired), old(workbases), now)
    {
      workbaseId := workbaseId + 1;
      newBlock := prevhash != lasthash;
      if newBlock {
        lasthash := prevhash;
        blockchangeId := wb.id;
      }
      workbases := workbases + [wb];
      if current.Some? {
        retired := retired[current.value := now];
      }
      current := Some(wb.id);
    }

    /** `get_workbase`. */
    method GetWorkbase(id: nat) returns (found: bool)
      requires Valid()
      modifies this`workbases
      ensures Valid() && View() == Step(old(View()), GetBase(id))
      ensures found <==> FindBase(old(workbases), id) < |old(workbases)|
    {
      hide Inv;
      ReadcountKeeps(View(), id, 1);
      var k := FindBase(workbases, id);
      found := k < |workbases|;
      if found {
        workbases := workbases[k := workbases[k].(readcount := workbases[k].readcount + 1)];
      }
    }

    /** `put_workbase`, by a holder of a reference. */
    method PutWorkbase(id: nat)
      requires Valid()
      requires FindBase(workbases, id) < |workbases| && workbases[FindBase(workbases, id)].readcount > 0
      modifies this`workbases
      ensures Valid() && View() == Step(old(View()), PutBase(id))
    {
      hide Inv;
      ReadcountKeeps(View(), id, -1);
      var k := FindBase(workbases, id);
      workbases := workbases[k := workbases[k].(readcount := workbases[k].readcount - 1)];
    }

    /** `new_share`. */
    method NewShare(hash: Hash, wbId: nat) returns (isNew: bool)
      modifies this`shares, this`accepted
      ensures isNew <==> hash !in old(shares)
      ensures shares == if isNew then old(shares)[hash := wbId] else old(shares)
      ensures accepted == if isNew then old(accepted) + [Share(wbId, hash)] else old(accepted)
    {
      isNew := hash !in shares;
      if isNew {
        shares := shares[hash := wbId];
        accepted := accepted + [Share(wbId, hash)];
      }
    }

    /** The part of `parse_submit` that holds the workbase: looks it up, checks the job for
        staleness and the time window, and puts it back. */
    method JudgeJob(sub: Submission) returns (verdict: Verdict)
      requires Valid()
      modifies this`workbases
      ensures View() == old(View())
      ensures verdict == JobVerdict(old(View()), sub)
    {
      hide Inv, MsTvdiff, WithReadcount;
      ghost var was := workbases;
      GetPut(was, sub.id);
      var found := GetWorkbase(sub.id);
      if !found {
        return InvalidJobId;
      }
      var wb := workbases[FindBase(workbases, sub.id)];
      var stale := sub.id < blockchangeId;
      var excused := false;
      if stale && sub.latency != 0 {
        var latency := MsTvdiff(sub.now, if sub.id in retired then retired[sub.id] else Time(0, 0));
        excused := latency < sub.latency;
      }
      if stale && !excused {
        verdict := Stale;
      } else if sub.ntime32 < wb.ntime32 || sub.ntime32 > (wb.ntime32 + 7000) % 0x1_0000_0000 {
        verdict := NtimeInvalid;
      } else {
        verdict := Accepted;
      }
      PutWorkbase(sub.id);
      assert workbases == was;
    }

    /** The part of `parse_submit` that judges a share. */
    method ParseSubmit(sub: Submission) returns (verdict: Verdict)
      requires Valid()
      modifies this
      ensures Valid() && View() == SubmitStep(old(View()), sub)
      ensures verdict == VerdictOf(old(View()), sub)
    {
      hide Inv, JobVerdict;
      SubmitKeeps(View(), sub);
      if current.None? {
        return NoWorkbase;
      }
      verdict := JudgeJob(sub);
      var invalid := verdict != Accepted;
      if !invalid {
        if sub.sdiff >= mindiff as real {
          var isNew := NewShare(sub.hash, sub.id);
          verdict := if isNew then Accepted else Dupe;
        } else {
          verdict := LowDiff;
        }
      }
    }
  }

  lemma IdsWithout(ws: seq<Workbase>, i: nat)
    requires Ascending(ws) && i < |ws|
    ensures Ascending(Without(ws, i)) && forall id: nat :: HasId(Without(ws, i), id) <==> HasId(ws, id) && id != ws[i].id
    ensures forall w :: w in Without(ws, i) ==> w in ws
  {
    var rest := Without(ws, i);
    assert forall w :: w in rest ==> w in ws && w.id != ws[i].id;
    assert forall w :: w in ws && w != ws[i] ==> w in rest;
  }

  lemma NewestAscends(s: State, wb: Workbase)
    requires Inv(s) && wb.id == s.workbaseId
    ensures Ascending(s.workbases + [wb])
  {}

  lemma OwnId(ws: seq<Workbase>, w: Workbase)
    requires w in ws
    ensures HasId(ws, w.id)
  {}

  lemma NothingDropped(shares: map<Hash, nat>, all: seq<Workbase>)
    ensures SharesLeft(shares, all, all, 0) == shares
  {}

  /** Where the ageing loop will get to from position `i`. */
  ghost function AgedTo(ws: seq<Workbase>, i: nat, wb: Workbase): seq<Workbase>
    requires i <= |ws|
  {
    ws[..i] + Survivors(ws[i..], |ws|, wb)
  }

  lemma AgeStart(ws: seq<Workbase>, wb: Workbase)
    ensures AgedTo(ws, 0, wb) == Survivors(ws, |ws|, wb)
  {
    assert ws[0..] == ws;
  }

  lemma AgeNext(ws: seq<Workbase>, i: nat, wb: Workbase)
    requires i < |ws| && |ws| >= 3
    ensures TooOld(ws[i], wb) ==> AgedTo(Without(ws, i), i, wb) == AgedTo(ws, i, wb)
    ensures !TooOld(ws[i], wb) ==> AgedTo(ws, i + 1, wb) == AgedTo(ws, i, wb)
  {
    hide TooOld;
    var rest := Without(ws, i);
    assert ws[i..][0] == ws[i] && ws[i..][1..] == ws[i + 1..];
    assert rest[i..] == ws[i + 1..] && rest[..i] == ws[..i];
    if !TooOld(ws[i], wb) {
      assert ws[..i + 1] == ws[..i] + [ws[i]];
      ConcatAssociative(ws[..i], [ws[i]], Survivors(ws[i + 1..], |ws|, wb));
    }
  }

  lemma AgeEnd(ws: seq<Workbase>, i: nat, wb: Workbase)
    requires i <= |ws| && (i == |ws| || |ws| < 3)
    ensures AgedTo(ws, i, wb) == ws
  {
    assert ws[..i] + ws[i..] == ws;
  }

  /** Dropping one workbase and ageing its shares. */
  lemma DropOne(shares: map<Hash, nat>, all: seq<Workbase>, was: seq<Workbase>, i: nat)
    requires i < |was|
    requires forall id: nat :: HasId(Without(was, i), id) <==> HasId(was, id) && id != was[i].id
    ensures
      var left := SharesLeft(shares, all, was, 0);
      HasId(all, was[i].id) ==>
        (map h | h in left && left[h] != was[i].id :: left[h]) == SharesLeft(shares, all, Without(was, i), 0)
  {}

  lemma PurgeAfterAge(shares: map<Hash, nat>, all: seq<Workbase>, kept: seq<Workbase>, from: nat)
    ensures
      var left := SharesLeft(shares, all, kept, 0);
      (map h | h in left && left[h] >= from :: left[h]) == SharesLeft(shares, all, kept, from)
  {}

  lemma GetPut(ws: seq<Workbase>, id: nat)
    ensures
      var held := WithReadcount(ws, id, 1);
      && WithReadcount(held, id, -1) == ws && (FindBase(ws, id) == |ws| ==> held == ws)
      && FindBase(held, id) == FindBase(ws, id)
      && (FindBase(ws, id) < |ws| ==> held[FindBase(ws, id)] == ws[FindBase(ws, id)].(readcount := ws[FindBase(ws, id)].readcount + 1))
  {
    FindSame(ws, WithReadcount(ws, id, 1), id);
  }

  lemma {:induction false} FindSame(ws: seq<Workbase>, vs: seq<Workbase>, id: nat)
    requires |ws| == |vs| && forall k :: 0 <= k < |ws| ==> ws[k].id == vs[k].id
    ensures FindBase(ws, id) == FindBase(vs, id)
  {
    if |ws| > 0 {
      FindSame(ws[1..], vs[1..], id);
    }
  }
}
