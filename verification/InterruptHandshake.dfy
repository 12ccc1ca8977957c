/** One thread that pauses and any number of calls of `interrupt`, interleaved step by step. */
module InterruptHandshake {

  /** Where the pausing thread is: outside `pause`; asking for the lock; about to read the flag; having
      read false and about to wait; waiting; woken and asking for the lock again; about to release. */
  datatype Pauser = Idle | Asking | Reading | Committed | Waiting | Woken | Leaving

  /** Where a call of `interrupt` is: not begun; returned at once because the flag was set; about to call
      `stop`; asking for the lock; about to notify; about to release; returned. */
  datatype Call = Fresh | Lost | Won | Stopped | Locked | Signalled | Returned

  datatype Owner = Free | ByPauser | ByCall(id: nat)

  /** `winner` records the call whose exchange found the flag clear, and `stops` counts `stop()`. */
  datatype State = State(interrupted: bool, lock: Owner, pauser: Pauser, calls: map<nat, Call>,
                         winner: int, stops: nat)

  datatype Action =
    | BeginPause | TakeLock | ReadFlag | Wait | Wake | Retake | EndPause
    | Exchange(id: nat) | Stop(id: nat) | Lock(id: nat) | Notify(id: nat) | Unlock(id: nat)

  function Initial(ids: set<nat>): State {
    State(false, Free, Idle, map i | i in ids :: Fresh, -1, 0)
  }

  predicate At(s: State, id: nat, where: Call) {
    id in s.calls && s.calls[id] == where
  }

  predicate Enabled(s: State, a: Action) {
    match a
    case BeginPause => s.pauser == Idle
    case TakeLock => s.pauser == Asking && s.lock == Free
    case ReadFlag => s.pauser == Reading
    case Wait => s.pauser == Committed
    case Wake => s.pauser == Waiting      // the timeout passes, or a spurious wakeup
    case Retake => s.pauser == Woken && s.lock == Free
    case EndPause => s.pauser == Leaving
    case Exchange(i) => At(s, i, Fresh)
    case Stop(i) => At(s, i, Won)
    case Lock(i) => At(s, i, Stopped) && s.lock == Free
    case Notify(i) => At(s, i, Locked)
    case Unlock(i) => At(s, i, Signalled)
  }

  function Next(s: State, a: Action): State
    requires Enabled(s, a)
  {
    match a
    case BeginPause => s.(pauser := Asking)
    case TakeLock => s.(pauser := Reading, lock := ByPauser)
    case ReadFlag => s.(pauser := if s.interrupted then Leaving else Committed)
    case Wait => s.(pauser := Waiting, lock := Free)
    case Wake => s.(pauser := Woken)
    case Retake => s.(pauser := Leaving, lock := ByPauser)
    case EndPause => s.(pauser := Idle, lock := Free)
    case Exchange(i) =>
      if s.interrupted then s.(calls := s.calls[i := Lost])
      else s.(calls := s.calls[i := Won], interrupted := true, winner := i)
    case Stop(i) => s.(calls := s.calls[i := Stopped], stops := s.stops + 1)
    case Lock(i) => s.(calls := s.calls[i := Locked], lock := ByCall(i))
    case Notify(i) => s.(calls := s.calls[i := Signalled], pauser := if s.pauser == Waiting then Woken else s.pauser)
    case Unlock(i) => s.(calls := s.calls[i := Returned], lock := Free)
  }

  predicate HoldsLock(p: Pauser) {
    p in {Reading, Committed, Leaving}
  }

  predicate Inside(c: Call) {
    c in {Won, Stopped, Locked, Signalled, Returned}
  }

  ghost predicate Inv(s: State) {
    && (s.lock == ByPauser <==> HoldsLock(s.pauser))
    && (forall i :: s.lock == ByCall(i) <==> At(s, i, Locked) || At(s, i, Signalled))
    && (forall i :: i in s.calls && Inside(s.calls[i]) <==> s.interrupted && i == s.winner)
    && (!s.interrupted ==> s.stops == 0 && forall i :: i in s.calls ==> s.calls[i] == Fresh)
    && (s.interrupted ==>
          && s.winner >= 0 && s.winner in s.calls
          && s.stops == (if s.calls[s.winner] == Won then 0 else 1)
          && (s.calls[s.winner] in {Locked, Signalled, Returned} ==> s.pauser != Committed)
          && (s.calls[s.winner] in {Signalled, Returned} ==> s.pauser != Waiting))
  }

  lemma InitialInv(ids: set<nat>)
    ensures Inv(Initial(ids))
  {
  }

  predicate ByThread(a: Action) {
    a in {BeginPause, TakeLock, ReadFlag, Wait, Wake, Retake, EndPause}
  }

  lemma ThreadKeeps(s: State, a: Action)
    requires Inv(s) && Enabled(s, a) && ByThread(a)
    ensures Inv(Next(s, a))
  {
  }

  lemma CallKeeps(s: State, a: Action)
    requires Inv(s) && Enabled(s, a) && !ByThread(a)
    ensures Inv(Next(s, a))
  {
  }

  lemma StepKeeps(s: State, a: Action)
    requires Inv(s) && Enabled(s, a)
    ensures Inv(Next(s, a))
  {
    hide Inv, Enabled, Next;
    if ByThread(a) {
      ThreadKeeps(s, a);
    } else {
      CallKeeps(s, a);
    }
  }

  // ----- whole runs -----

  predicate Possible(s: State, run: seq<Action>)
    decreases run
  {
    run == [] || (Enabled(s, run[0]) && Possible(Next(s, run[0]), run[1..]))
  }

  function Exec(s: State, run: seq<Action>): State
    requires Possible(s, run)
    decreases run
  {
    if run == [] then s else Exec(Next(s, run[0]), run[1..])
  }

  lemma {:induction false} ExecKeeps(s: State, run: seq<Action>)
    requires Inv(s) && Possible(s, run)
    ensures Inv(Exec(s, run))
    decreases run
  {
    if run != [] {
      StepKeeps(s, run[0]);
      hide Inv, Enabled, Next;
      ExecKeeps(Next(s, run[0]), run[1..]);
    }
  }

  /** `stop()` runs at most once, and exactly once when the winning call has returned. At that time the
      pausing thread is not waiting and not about to wait. */
  lemma NoLostWakeup(ids: set<nat>, run: seq<Action>)
    requires Possible(Initial(ids), run)
    ensures var s := Exec(Initial(ids), run);
            && s.stops <= 1
            && (forall i :: At(s, i, Returned) ==> s.stops == 1 && s.pauser != Waiting && s.pauser != Committed)
  {
    InitialInv(ids);
    ExecKeeps(Initial(ids), run);
    var s := Exec(Initial(ids), run);
    forall i | At(s, i, Returned)
      ensures s.interrupted && i == s.winner
    {
      assert Inside(s.calls[i]);
    }
  }

  predicate Waits(run: seq<Action>) {
    exists k :: 0 <= k < |run| && run[k] == Wait
  }

  predicate PastWaiting(s: State) {
    s.interrupted && s.pauser != Committed
  }

  lemma {:induction false} NeverWaitsAgain(s: State, run: seq<Action>)
    requires PastWaiting(s) && Possible(s, run)
    ensures !Waits(run)
    decreases run
  {
    if run != [] {
      NeverWaitsAgain(Next(s, run[0]), run[1..]);
      forall k | 0 <= k < |run|
        ensures run[k] != Wait
      {
        assert k > 0 ==> run[k] == run[1..][k - 1];
      }
    }
  }

  /** Once the winning call has returned, and likewise for every pause that begins after the flag was set,
      no continuation of the run ever waits. */
  lemma NoLaterPauseWaits(ids: set<nat>, before: seq<Action>, after: seq<Action>, i: nat)
    requires Possible(Initial(ids), before) && Possible(Exec(Initial(ids), before), after)
    requires var s := Exec(Initial(ids), before);
             At(s, i, Returned) || (s.interrupted && s.pauser in {Idle, Asking, Reading})
    ensures !Waits(after)
  {
    InitialInv(ids);
    ExecKeeps(Initial(ids), before);
    var s := Exec(Initial(ids), before);
    assert At(s, i, Returned) ==> Inside(s.calls[i]);
    NeverWaitsAgain(s, after);
  }

  /** A thread that waits in an interrupted runnable always has a wakeup ahead of it: the winning call has
      not notified yet, and some step of the two threads can be taken. */
  lemma WakeupIsComing(ids: set<nat>, run: seq<Action>)
    requires Possible(Initial(ids), run)
    ensures var s := Exec(Initial(ids), run);
            s.interrupted && s.pauser == Waiting ==>
              && s.winner >= 0
              && (Enabled(s, Stop(s.winner)) || Enabled(s, Lock(s.winner)) || Enabled(s, Notify(s.winner)))
  {
    InitialInv(ids);
    ExecKeeps(Initial(ids), run);
    var s := Exec(Initial(ids), run);
    if s.interrupted && s.pauser == Waiting {
      assert Inside(s.calls[s.winner]);
      if s.calls[s.winner] == Stopped && s.lock.ByCall? {
        var j := s.lock.id;
        assert At(s, j, Locked) || At(s, j, Signalled);
        assert Inside(s.calls[j]);
      }
    }
  }

  // ----- what a call and a pause achieve -----

  lemma {:induction false} FlagStays(s: State, run: seq<Action>, i: nat)
    requires Possible(s, run) && (s.interrupted || Exchange(i) in run)
    ensures Exec(s, run).interrupted
    decreases run
  {
    if run != [] {
      assert Exchange(i) in run ==> run[0] == Exchange(i) || Exchange(i) in run[1..];
      FlagStays(Next(s, run[0]), run[1..], i);
    }
  }

  /** In every run, once any call of `interrupt` has reached its exchange the runnable is interrupted. */
  lemma InterruptTakesEffect(ids: set<nat>, run: seq<Action>, i: nat)
    requires Possible(Initial(ids), run) && Exchange(i) in run
    ensures Exec(Initial(ids), run).interrupted
  {
    FlagStays(Initial(ids), run, i);
  }

  lemma {:induction false} CallsStay(s: State, run: seq<Action>)
    requires Possible(s, run)
    ensures Exec(s, run).calls.Keys == s.calls.Keys
    decreases run
  {
    if run != [] {
      CallsStay(Next(s, run[0]), run[1..]);
    }
  }

  /** When there were calls and all of them are over, `stop()` ran exactly once and the thread is neither
      waiting nor about to wait. */
  lemma AllCallsOver(ids: set<nat>, run: seq<Action>)
    requires ids != {} && Possible(Initial(ids), run)
    requires var s := Exec(Initial(ids), run); forall i :: i in ids ==> At(s, i, Lost) || At(s, i, Returned)
    ensures var s := Exec(Initial(ids), run);
            s.interrupted && s.stops == 1 && s.pauser != Waiting && s.pauser != Committed
  {
    InitialInv(ids);
    ExecKeeps(Initial(ids), run);
    CallsStay(Initial(ids), run);
    var s := Exec(Initial(ids), run);
    var i :| i in ids;
    assert At(s, i, Lost) || At(s, i, Returned);
    assert s.interrupted;
    assert s.winner in ids;
    assert Inside(s.calls[s.winner]);
  }

  /** A pause that finds the lock free waits, without the lock, exactly when the runnable is not interrupted,
      and otherwise leaves at once. */
  lemma PauseIs(s: State)
    requires s.pauser == Idle && s.lock == Free
    ensures Possible(s, [BeginPause, TakeLock, ReadFlag])
    ensures var t := Exec(s, [BeginPause, TakeLock, ReadFlag]);
            && (Enabled(t, Wait) <==> !s.interrupted)
            && (Enabled(t, Wait) ==> Next(t, Wait) == s.(pauser := Waiting))
            && (s.interrupted ==> Enabled(t, EndPause) && Next(t, EndPause) == s)
  {
    var a, b, c := BeginPause, TakeLock, ReadFlag;
    assert [a, b, c][1..] == [b, c] && [b, c][1..] == [c] && [c][1..] == [];
    var s1 := Next(s, a);
    var s2 := Next(s1, b);
    var s3 := Next(s2, c);
    assert Possible(s3, []) && Exec(s3, []) == s3;
    assert Possible(s2, [c]) && Exec(s2, [c]) == s3;
    assert Possible(s1, [b, c]) && Exec(s1, [b, c]) == s3;
  }

  /** After a timeout or a notification, with the lock free, the pause returns. */
  lemma PauseReturns(s: State)
    requires s.lock == Free && (s.pauser == Waiting || s.pauser == Woken)
    ensures var t := if s.pauser == Waiting then Next(s, Wake) else s;
            && Enabled(t, Retake) && Enabled(Next(t, Retake), EndPause)
            && Next(Next(t, Retake), EndPause) == s.(pauser := Idle)
  {
  }

  predicate Over(s: State, i: nat) {
    At(s, i, Lost) || At(s, i, Returned)
  }

  /** The step that brings call i forward: its own, or that of the thread that holds the lock it asks for. */
  function StepFor(s: State, i: nat): Action
    requires i in s.calls
  {
    match s.calls[i]
    case Fresh => Exchange(i)
    case Won => Stop(i)
    case Stopped =>
      if s.lock == Free then Lock(i)
      else if s.pauser == Reading then ReadFlag
      else if s.pauser == Committed then Wait
      else EndPause
    case Locked => Notify(i)
    case _ => Unlock(i)
  }

  /** How many such steps are left at most. */
  function StepsLeft(s: State, i: nat): nat
    requires i in s.calls
  {
    match s.calls[i]
    case Fresh => 8
    case Won => 7
    case Stopped => if s.lock == Free then 3 else if s.pauser == Reading then 5 else 4
    case Locked => 2
    case Signalled => 1
    case _ => 0
  }

  lemma StepForMoves(s: State, i: nat)
    requires Inv(s) && i in s.calls && !Over(s, i)
    ensures Enabled(s, StepFor(s, i))
    ensures var n := Next(s, StepFor(s, i)); i in n.calls && StepsLeft(n, i) < StepsLeft(s, i)
  {
    if s.calls[i] == Stopped && s.lock.ByCall? {
      var j := s.lock.id;
      assert At(s, j, Locked) || At(s, j, Signalled);
    }
  }

  /** No call of `interrupt` can get stuck: from every state of every run it can be brought to its end. */
  lemma {:induction false} CallCanEnd(s: State, i: nat)
    requires Inv(s) && i in s.calls
    ensures exists rest :: Possible(s, rest) && Over(Exec(s, rest), i)
    decreases StepsLeft(s, i)
  {
    if Over(s, i) {
      assert Possible(s, []) && Over(Exec(s, []), i);
    } else {
      var a := StepFor(s, i);
      StepForMoves(s, i);
      StepKeeps(s, a);
      hide Inv, Enabled, Next, StepFor, StepsLeft, Over;
      CallCanEnd(Next(s, a), i);
      var rest :| Possible(Next(s, a), rest) && Over(Exec(Next(s, a), rest), i);
      assert ([a] + rest)[1..] == rest;
      assert Possible(s, [a] + rest) && Over(Exec(s, [a] + rest), i);
    }
  }

  lemma NoCallIsStuck(ids: set<nat>, run: seq<Action>, i: nat)
    requires Possible(Initial(ids), run) && i in ids
    ensures exists rest :: Possible(Exec(Initial(ids), run), rest) && Over(Exec(Exec(Initial(ids), run), rest), i)
  {
    hide Inv, Possible, Exec, Over;
    InitialInv(ids);
    ExecKeeps(Initial(ids), run);
    CallsStay(Initial(ids), run);
    CallCanEnd(Exec(Initial(ids), run), i);
  }
}
