/** The write-biased lock of libckpool.c, a mutex in front of a reader-writer lock, as steps of any
    number of threads. */
module Cklock {
  import opened Wrappers

  /** Where a thread is in the lock functions, named by what it has done so far:
      `_ck_rlock` goes RWant, RMutex, RBoth, Reading; `_ck_wlock` goes WWant, WMutex, Writing;
      `_ck_wunlock` goes Releasing; `_ck_dwlock` goes Gap, DwBoth, DwReading; and `_ck_dwilock` leaves a
      thread Intermediate. */
  datatype Pc = Idle | RWant | RMutex | RBoth | Reading | WWant | WMutex | Writing | Releasing
              | Gap | DwBoth | DwReading | Intermediate

  /** What a thread does when it has a choice; `Go` is the next call inside a lock function. `Store`
      changes the data the lock protects. */
  datatype Action = RLock | WLock | RUnlock | WUnlock | Downgrade | DowngradeHalf | Store(value: int) | Go

  datatype State = State(pc: seq<Pc>, mutex: Option<nat>, writer: Option<nat>, readers: set<nat>, data: int)

  datatype Event = Event(thread: nat, action: Action)

  // ----- the steps -----

  function At(s: State, t: nat, p: Pc): State
    requires t < |s.pc|
  {
    s.(pc := s.pc[t := p])
  }

  /** One call on the mutex or the reader-writer lock; a thread that would have to wait stays where it
      is. */
  function Step(s: State, e: Event): State {
    var t := e.thread;
    if t >= |s.pc| then s
    else match (s.pc[t], e.action)
      case (Idle, RLock) => At(s, t, RWant)
      case (Idle, WLock) => At(s, t, WWant)
      case (RWant, Go) => if s.mutex == None then At(s, t, RMutex).(mutex := Some(t)) else s
      case (RMutex, Go) => if s.writer == None then At(s, t, RBoth).(readers := s.readers + {t}) else s
      case (RBoth, Go) => At(s, t, Reading).(mutex := None)
      case (Reading, RUnlock) => At(s, t, Idle).(readers := s.readers - {t})
      case (WWant, Go) => if s.mutex == None then At(s, t, WMutex).(mutex := Some(t)) else s
      case (WMutex, Go) => if s.writer == None && s.readers == {} then At(s, t, Writing).(writer := Some(t)) else s
      case (Writing, Store(v)) => s.(data := v)
      case (Writing, WUnlock) => At(s, t, Releasing).(writer := None)
      case (Releasing, Go) => At(s, t, Idle).(mutex := None)
      case (Writing, Downgrade) => At(s, t, Gap).(writer := None)
      case (Gap, Go) => if s.writer == None then At(s, t, DwBoth).(readers := s.readers + {t}) else s
      case (DwBoth, Go) => At(s, t, DwReading).(mutex := None)
      case (DwReading, RUnlock) => At(s, t, Idle).(readers := s.readers - {t})
      case (Writing, DowngradeHalf) => At(s, t, Intermediate).(writer := None)
      case _ => s
  }

  function Run(s: State, events: seq<Event>): State {
    if events == [] then s else Step(Run(s, events[..|events| - 1]), events[|events| - 1])
  }

  function Initial(threads: nat, data: int): State {
    State(seq(threads, _ => Idle), None, None, {}, data)
  }

  // ----- what every step keeps -----

  predicate HasMutex(p: Pc) {
    p in {RMutex, RBoth, WMutex, Writing, Releasing, Gap, DwBoth, Intermediate}
  }

  predicate HasRead(p: Pc) {
    p in {RBoth, Reading, DwBoth, DwReading}
  }

  /** From the write lock through the downgrade to the end of the read lock it became. */
  predicate InWindow(p: Pc) {
    p in {Writing, Gap, DwBoth, DwReading}
  }

  /** The locks are held by the threads whose code says so, and the reader-writer lock keeps writers
      alone. */
  ghost predicate Inv(s: State) {
    && (forall t :: 0 <= t < |s.pc| ==> (HasMutex(s.pc[t]) <==> s.mutex == Some(t)))
    && (forall t :: 0 <= t < |s.pc| ==> (s.pc[t] == Writing <==> s.writer == Some(t)))
    && (forall t :: 0 <= t < |s.pc| ==> (HasRead(s.pc[t]) <==> t in s.readers))
    && (s.mutex.Some? ==> s.mutex.value < |s.pc|)
    && (s.writer.Some? ==> s.writer.value < |s.pc| && s.readers == {})
    && (forall t :: t in s.readers ==> t < |s.pc|)
  }

  /** Thread `t` alone has moved, and has or has not taken or given up a lock. */
  ghost predicate Moved(s: State, r: State, t: nat) {
    && t < |s.pc| && |r.pc| == |s.pc| && r.pc == s.pc[t := r.pc[t]]
    && (r.mutex == s.mutex || (s.mutex in {None, Some(t)} && r.mutex in {None, Some(t)}))
    && (r.writer == s.writer || (s.writer in {None, Some(t)} && r.writer in {None, Some(t)}))
    && (r.readers == s.readers || r.readers == s.readers + {t} || r.readers == s.readers - {t})
    && (HasMutex(r.pc[t]) <==> r.mutex == Some(t))
    && (r.pc[t] == Writing <==> r.writer == Some(t))
    && (HasRead(r.pc[t]) <==> t in r.readers)
    && (r.writer.Some? ==> r.readers == {})
  }

  lemma MovedKeeps(s: State, r: State, t: nat)
    requires Inv(s) && Moved(s, r, t)
    ensures Inv(r)
  {}

  lemma StepMoves(s: State, e: Event)
    requires Inv(s)
    ensures Step(s, e) == s || Moved(s, Step(s, e), e.thread)
  {
    var t := e.thread;
    if t < |s.pc| {
      assert HasMutex(s.pc[t]) <==> s.mutex == Some(t);
      assert s.pc[t] == Writing <==> s.writer == Some(t);
      assert HasRead(s.pc[t]) <==> t in s.readers;
    }
    hide Inv;
  }

  lemma StepKeeps(s: State, e: Event)
    requires Inv(s)
    ensures Inv(Step(s, e)) && |Step(s, e).pc| == |s.pc|
  {
    hide Step, Inv;
    StepMoves(s, e);
    if Step(s, e) != s {
      MovedKeeps(s, Step(s, e), e.thread);
    }
  }

  lemma {:induction false} RunKeeps(threads: nat, data: int, events: seq<Event>)
    ensures Inv(Run(Initial(threads, data), events)) && |Run(Initial(threads, data), events).pc| == threads
    decreases |events|
  {
    hide Step;
    if events != [] {
      RunKeeps(threads, data, events[..|events| - 1]);
      StepKeeps(Run(Initial(threads, data), events[..|events| - 1]), events[|events| - 1]);
    }
  }

  // ----- what that means -----

  /** A writer is never admitted beside any other holder. */
  lemma WriterAlone(threads: nat, data: int, events: seq<Event>, t: nat, u: nat)
    requires t < threads && u < threads && t != u
    ensures var s := Run(Initial(threads, data), events);
      |s.pc| == threads && (s.pc[t] == Writing ==> s.pc[u] != Writing && !HasRead(s.pc[u]))
  {
    hide Run, Step;
    RunKeeps(threads, data, events);
  }

  /** While a writer has the mutex no other thread becomes a reader, so those there were can only grow
      fewer. */
  lemma NoNewReaders(s: State, e: Event, t: nat)
    requires Inv(s) && t < |s.pc| && s.pc[t] in {WMutex, Writing, Releasing, Gap, Intermediate} && e.thread != t
    ensures Step(s, e).readers <= s.readers && Step(s, e).pc[t] == s.pc[t] && Step(s, e).mutex == Some(t)
  {}

  /** From the write lock through the downgrade to the end of the read lock, the gap between the two
      included, no other thread is a writer. */
  lemma NoWriterInWindow(threads: nat, data: int, events: seq<Event>, t: nat, u: nat)
    requires t < threads && u < threads && t != u
    ensures var s := Run(Initial(threads, data), events);
      |s.pc| == threads && (InWindow(s.pc[t]) ==> s.pc[u] != Writing)
  {
    hide Run, Step;
    RunKeeps(threads, data, events);
  }

  /** Thread `t` stays in its window, without writing itself, at every step of a run. */
  ghost predicate StaysInWindow(s: State, events: seq<Event>, t: nat) {
    && (forall k :: 0 <= k <= |events| ==> t < |Run(s, events[..k]).pc| && InWindow(Run(s, events[..k]).pc[t]))
    && (forall k :: 0 <= k < |events| ==> !(events[k].thread == t && events[k].action.Store?))
  }

  /** What a thread wrote is still what it reads after the downgrade, whatever the others do. */
  lemma {:induction false} DataSurvivesDowngrade(s: State, events: seq<Event>, t: nat)
    requires Inv(s) && StaysInWindow(s, events, t)
    ensures Inv(Run(s, events)) && Run(s, events).data == s.data
    decreases |events|
  {
    if events != [] {
      var front := events[..|events| - 1];
      forall k | 0 <= k <= |front|
        ensures t < |Run(s, front[..k]).pc| && InWindow(Run(s, front[..k]).pc[t])
      {
        assert front[..k] == events[..k];
      }
      DataSurvivesDowngrade(s, front, t);
      StepKeeps(Run(s, front), events[|events| - 1]);
      assert InWindow(Run(s, events[..|front|]).pc[t]);
      OthersStore(Run(s, front), events[|events| - 1], t);
    }
  }

  lemma OthersStore(s: State, e: Event, t: nat)
    requires Inv(s) && t < |s.pc| && InWindow(s.pc[t]) && !(e.thread == t && e.action.Store?)
    ensures Step(s, e).data == s.data
  {}

  // ----- what a call ends with -----

  predicate OfOthers(events: seq<Event>, t: nat) {
    forall e :: e in events ==> e.thread != t
  }

  /** Other threads do not move thread `t`. */
  lemma {:induction false} OthersRun(s: State, events: seq<Event>, t: nat)
    requires Inv(s) && OfOthers(events, t) && t < |s.pc|
    ensures var r := Run(s, events); Inv(r) && |r.pc| == |s.pc| && r.pc[t] == s.pc[t]
    decreases |events|
  {
    hide Inv;
    if events != [] {
      var front := events[..|events| - 1];
      OthersRun(s, front, t);
      StepKeeps(Run(s, front), events[|events| - 1]);
    }
  }

  /** A downgrade ends with the read lock and without the mutex, whatever other threads do between its
      three calls and after them: none of the calls has to wait. */
  lemma DowngradeEndsReading(s: State, t: nat, a: seq<Event>, b: seq<Event>, c: seq<Event>)
    requires Inv(s) && t < |s.pc| && s.writer == Some(t) && OfOthers(a, t) && OfOthers(b, t) && OfOthers(c, t)
    ensures
      var gap := Run(Step(s, Event(t, Downgrade)), a);
      var both := Run(Step(gap, Event(t, Go)), b);
      var r := Run(Step(both, Event(t, Go)), c);
      && gap.writer == None && gap.mutex == Some(t) && t !in gap.readers
      && t in both.readers && both.mutex == Some(t)
      && t in r.readers && r.mutex != Some(t) && r.writer != Some(t)
  {
    hide Inv, Step, Run;
    LocksAt(s, t);
    CallThen(s, Event(t, Downgrade), a);
    var gap := Run(Step(s, Event(t, Downgrade)), a);
    LocksAt(gap, t);
    CallThen(gap, Event(t, Go), b);
    var both := Run(Step(gap, Event(t, Go)), b);
    LocksAt(both, t);
    CallThen(both, Event(t, Go), c);
    LocksAt(Run(Step(both, Event(t, Go)), c), t);
  }

  /** The locks a thread has, by where it is. */
  lemma LocksAt(s: State, t: nat)
    requires Inv(s) && t < |s.pc|
    ensures s.mutex == Some(t) <==> HasMutex(s.pc[t])
    ensures s.writer == Some(t) <==> s.pc[t] == Writing
    ensures t in s.readers <==> HasRead(s.pc[t])
    ensures s.pc[t] == Gap ==> s.writer == None
  {}

  /** One call of the downgrade, and what others do after it. */
  lemma CallThen(s: State, e: Event, others: seq<Event>)
    requires Inv(s) && e.thread < |s.pc| && OfOthers(others, e.thread)
    ensures var r := Run(Step(s, e), others);
      && Inv(r) && |r.pc| == |s.pc|
      && (s.pc[e.thread] == Writing && e.action == Downgrade ==> r.pc[e.thread] == Gap)
      && (s.pc[e.thread] == Gap && e.action == Go ==> r.pc[e.thread] == DwBoth)
      && (s.pc[e.thread] == DwBoth && e.action == Go ==> r.pc[e.thread] == DwReading)
  {
    StepKeeps(s, e);
    OthersRun(Step(s, e), others, e.thread);
    hide Run;
  }

  /** Unlocking ends with nothing held. */
  lemma UnlocksEndFree(s: State, t: nat, a: seq<Event>)
    requires Inv(s) && t < |s.pc| && OfOthers(a, t)
    ensures s.writer == Some(t) ==>
      var r := Step(Run(Step(s, Event(t, WUnlock)), a), Event(t, Go));
      r.writer != Some(t) && r.mutex != Some(t) && t !in r.readers
    ensures t in s.readers && s.mutex != Some(t) ==>
      var r := Step(s, Event(t, RUnlock));
      r.writer != Some(t) && r.mutex != Some(t) && t !in r.readers
  {
    if s.writer == Some(t) {
      StepKeeps(s, Event(t, WUnlock));
      OthersRun(Step(s, Event(t, WUnlock)), a, t);
      var r := Run(Step(s, Event(t, WUnlock)), a);
      hide Run;
      StepKeeps(r, Event(t, Go));
    }
  }

  /** Only who has the lock stores, unlocks or downgrades; who unlocks a read lock has long given up the
      mutex. */
  lemma ActionsNeedTheLock(s: State, t: nat, action: Action)
    requires Inv(s) && Step(s, Event(t, action)) != s
    ensures action in {WUnlock, Downgrade, DowngradeHalf} || action.Store? ==> s.writer == Some(t) && s.mutex == Some(t)
    ensures action == RUnlock ==> t in s.readers && s.mutex != Some(t)
  {}

  /** When no other thread is about, a thread that asks for a lock has it after its calls. */
  lemma FreeLockIsTaken(s: State, t: nat)
    requires t < |s.pc| && s.pc[t] == Idle && s.mutex == None && s.writer == None
    ensures
      var r := Step(Step(Step(Step(s, Event(t, RLock)), Event(t, Go)), Event(t, Go)), Event(t, Go));
      r.readers == s.readers + {t} && r.mutex == None && r.writer == None
    ensures s.readers == {} ==>
      var w := Step(Step(Step(s, Event(t, WLock)), Event(t, Go)), Event(t, Go));
      w.writer == Some(t) && w.mutex == Some(t)
  {}

  // ----- no deadlock -----

  /** What a thread does next when it does not want to wait on its own account. */
  function Next(p: Pc): Action {
    match p
    case Reading => RUnlock
    case DwReading => RUnlock
    case Writing => WUnlock
    case _ => Go
  }

  predicate CanMove(s: State, t: nat) {
    t < |s.pc| && Step(s, Event(t, Next(s.pc[t]))) != s
  }

  /** Unless a thread keeps the intermediate lock, which no function gives back, some thread that is
      inside the lock functions can always move on. */
  lemma NoDeadlock(s: State, t: nat)
    requires Inv(s) && t < |s.pc| && s.pc[t] != Idle
    requires forall u :: 0 <= u < |s.pc| ==> s.pc[u] != Intermediate
    ensures exists u :: CanMove(s, u)
  {
    if s.writer.Some? {
      assert CanMove(s, s.writer.value);
    } else if s.readers != {} {
      var u :| u in s.readers;
      assert CanMove(s, u);
    } else if s.mutex.Some? {
      assert CanMove(s, s.mutex.value);
    } else {
      assert CanMove(s, t);
    }
  }

  /** A thread that keeps the intermediate lock blocks the others for good: no later step of theirs gets
      past the mutex. */
  lemma IntermediateBlocks(s: State, e: Event, t: nat)
    requires Inv(s) && t < |s.pc| && s.pc[t] == Intermediate
    ensures Step(s, e).pc[t] == Intermediate && Step(s, e).mutex == Some(t)
  {}
}
