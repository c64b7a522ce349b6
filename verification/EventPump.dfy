/** The terminal event pump: the main thread hands the terminal to a suspended
    child while one reader thread is parked. Every step below is one atomic
    access or one terminal call; the two threads interleave freely. */
module EventPump {

  /** The reader thread, named by what it does next. */
  datatype Reader =
    | NotSpawned
    | LoadPause        // top of the loop
    | StoreParked
    | WaitUnpaused     // the inner sleep loop
    | ClearParked
    | Poll
    | Read
    | Exited

  /** The main thread, named by what it does next. */
  datatype Main =
    | SwapStarted      // start_event_pump
    | RestoreStarted
    | Unpause
    | StoreStarted
    | UnpauseFirst
    | Spawn
    | Running
    | LoadStarted      // stop_event_pump
    | Pause
    | AwaitParked(tries: nat)
    | ChildRuns

  /** How `stop_event_pump` was last left. */
  datatype Exit = Never | NotStarted | SawParked | TimedOut

  datatype State = State(pause: bool, parked: bool, started: bool, main: Main, reader: Reader, exit: Exit, spawned: nat)

  const MAX_TRIES := 50

  predicate Initial(s: State) {
    s == State(false, false, false, SwapStarted, NotSpawned, Never, 0)
  }

  predicate MainStep(s: State, t: State) {
    match s.main
    case SwapStarted => t == s.(started := false, main := if s.started then RestoreStarted else StoreStarted)
    case RestoreStarted => t == s.(started := true, main := Unpause)
    case Unpause => t == s.(pause := false, main := Running)
    case StoreStarted => t == s.(started := true, main := UnpauseFirst)
    case UnpauseFirst => t == s.(pause := false, main := Spawn)
    case Spawn => t == s.(main := Running, reader := LoadPause, spawned := s.spawned + 1)
    case Running => t == s.(main := LoadStarted)
    case LoadStarted => t == if s.started then s.(main := Pause) else s.(main := ChildRuns, exit := NotStarted)
    case Pause => t == s.(pause := true, main := AwaitParked(0))
    case AwaitParked(tries) =>
      t == if tries == MAX_TRIES then s.(main := ChildRuns, exit := TimedOut)
           else if s.parked then s.(main := ChildRuns, exit := SawParked)
           else s.(main := AwaitParked(tries + 1))
    case ChildRuns => t == s.(main := SwapStarted)
  }

  predicate ReaderStep(s: State, t: State) {
    match s.reader
    case NotSpawned => false
    case LoadPause => t == s.(reader := if s.pause then StoreParked else Poll)
    case StoreParked => t == s.(parked := true, reader := WaitUnpaused)
    case WaitUnpaused => t == s.(reader := if s.pause then WaitUnpaused else ClearParked)
    case ClearParked => t == s.(parked := false, reader := LoadPause)
    case Poll => t == s.(reader := t.reader) && t.reader in {Read, LoadPause, Exited}
    case Read => t == s.(reader := t.reader) && t.reader in {LoadPause, Exited}
    case Exited => false
  }

  predicate Next(s: State, t: State) {
    MainStep(s, t) || ReaderStep(s, t)
  }

  ghost predicate IsRun(run: seq<State>) {
    && run != [] && Initial(run[0])
    && forall i :: 0 <= i < |run| - 1 ==> Next(run[i], run[i + 1])
  }

  /** The terminal call a reader step makes. */
  predicate UsesTerminal(r: Reader) {
    r == Poll || r == Read
  }

  /** From the moment stop saw `parked` until start clears `pause`. */
  predicate HandedOver(s: State) {
    s.exit == SawParked && s.main in {ChildRuns, SwapStarted, RestoreStarted, Unpause}
  }

  predicate Inv(s: State) {
    && s.spawned == (if s.reader == NotSpawned then 0 else 1)
    && (s.parked <==> s.reader == WaitUnpaused || s.reader == ClearParked)
    && (match s.main
        case SwapStarted => s.started == (s.spawned == 1) && (s.spawned == 1 ==> s.pause)
        case RestoreStarted => !s.started && s.spawned == 1 && s.pause
        case Unpause => s.started && s.spawned == 1 && s.pause
        case StoreStarted => !s.started && s.spawned == 0
        case UnpauseFirst => s.started && s.spawned == 0
        case Spawn => s.started && s.spawned == 0 && !s.pause
        case Running | LoadStarted | Pause => s.started && s.spawned == 1 && !s.pause
        case AwaitParked(_) | ChildRuns => s.started && s.spawned == 1 && s.pause)
    && s.exit != NotStarted && (s.exit != Never ==> s.spawned == 1)
    && (HandedOver(s) ==> !UsesTerminal(s.reader))
  }

  lemma NextKeepsInv(s: State, t: State)
    requires Inv(s) && Next(s, t)
    ensures Inv(t)
  {
  }

  lemma {:induction false} RunsKeepInv(run: seq<State>, i: nat)
    requires IsRun(run) && i < |run|
    ensures Inv(run[i])
  {
    if i > 0 {
      hide Inv, Next;
      RunsKeepInv(run, i - 1);
      NextKeepsInv(run[i - 1], run[i]);
    }
  }

  /** Hand-off: in every run, while the terminal is handed over the reader thread
      makes no terminal call, at most one reader was ever spawned, and stop never
      returns without having asked for the pause. */
  lemma HandOffIsSafe(run: seq<State>, i: nat)
    requires IsRun(run) && i < |run|
    ensures run[i].exit == SawParked && run[i].main in {ChildRuns, SwapStarted, RestoreStarted, Unpause} ==>
      run[i].reader != Poll && run[i].reader != Read && run[i].pause
    ensures run[i].spawned <= 1 && run[i].exit != NotStarted
  {
    RunsKeepInv(run, i);
  }

  /** A hand-over ends only with the step that clears `pause`. */
  lemma HandOverLastsUntilUnpaused(run: seq<State>, i: nat)
    requires IsRun(run) && i + 1 < |run| && HandedOver(run[i]) && !HandedOver(run[i + 1])
    ensures run[i].main == Unpause && !run[i + 1].pause
  {
    RunsKeepInv(run, i);
    assert Next(run[i], run[i + 1]);
    assert run[i].spawned == 1;
  }

  lemma {:induction false} TriesAreCounted(run: seq<State>, i: nat)
    requires IsRun(run) && i < |run|
    ensures run[i].main.AwaitParked? ==> run[i].main.tries <= 50
  {
    if i > 0 {
      TriesAreCounted(run, i - 1);
      assert Next(run[i - 1], run[i]);
    }
  }

  /** Stop looks at `parked` fifty times: it gives up after that, never before. */
  lemma StopTriesFiftyTimes(run: seq<State>, i: nat)
    requires IsRun(run) && i + 1 < |run| && run[i].main.AwaitParked? && run[i + 1].main != run[i].main
    ensures run[i].main.tries < 50 && !run[i].parked ==> run[i + 1].main == AwaitParked(run[i].main.tries + 1)
    ensures run[i + 1].main == ChildRuns ==>
      run[i + 1].exit == if run[i].main.tries == 50 then TimedOut else SawParked
  {
    TriesAreCounted(run, i);
    assert Next(run[i], run[i + 1]);
  }

  // ----- what the reader can still take -----

  /** The step from `run[k]` makes the reader's call `which`. */
  predicate Makes(run: seq<State>, k: nat, which: Reader)
    requires k + 1 < |run|
  {
    run[k].reader == which && run[k + 1].reader != which
  }

  /** How often the reader makes the call `which` in the steps from `i` to `j`. */
  function Calls(run: seq<State>, i: nat, j: nat, which: Reader): nat
    requires i <= j < |run|
    decreases j
  {
    if i == j then 0 else Calls(run, i, j - 1, which) + if Makes(run, j - 1, which) then 1 else 0
  }

  /** A reader on its way to the call `which` makes it at most once before it
      looks at `pause` again. */
  function Left(r: Reader, which: Reader): nat {
    if r == which || (r == Poll && which == Read) then 1 else 0
  }

  lemma PausedStepSpends(s: State, t: State, which: Reader)
    requires Inv(s) && Next(s, t) && s.pause && UsesTerminal(which)
    ensures Left(t.reader, which) + (if s.reader == which && t.reader != which then 1 else 0) <= Left(s.reader, which)
  {
  }

  /** While `pause` is set the reader makes at most one more poll and one more
      read, whether or not stop waited for it: a child that gets the terminal
      loses one event at most. */
  lemma {:induction false} PauseLeavesOneCall(run: seq<State>, i: nat, j: nat, which: Reader)
    requires IsRun(run) && i <= j < |run| && (forall k :: i <= k < j ==> run[k].pause) && UsesTerminal(which)
    ensures Calls(run, i, j, which) + Left(run[j].reader, which) <= Left(run[i].reader, which) <= 1
    decreases j
  {
    hide Inv, Next;
    if i < j {
      PauseLeavesOneCall(run, i, j - 1, which);
      RunsKeepInv(run, j - 1);
      assert Next(run[j - 1], run[j]);
      PausedStepSpends(run[j - 1], run[j], which);
    }
  }

  // ----- what a run can reach -----

  ghost predicate Reachable(s: State) {
    exists run :: IsRun(run) && run[|run| - 1] == s
  }

  lemma Reach(s: State, t: State)
    requires Reachable(s) && Next(s, t)
    ensures Reachable(t)
  {
    var run :| IsRun(run) && run[|run| - 1] == s;
    var longer := run + [t];
    forall i | 0 <= i < |longer| - 1 ensures Next(longer[i], longer[i + 1]) {
      if i < |run| - 1 {
        assert Next(run[i], run[i + 1]);
      }
    }
    assert IsRun(longer);
  }

  lemma ReachRunning() returns (s: State)
    ensures Reachable(s) && s == State(false, false, true, Running, LoadPause, Never, 1)
  {
    s := State(false, false, false, SwapStarted, NotSpawned, Never, 0);
    assert IsRun([s]);
    s := Step(s, s.(main := StoreStarted));
    s := Step(s, s.(started := true, main := UnpauseFirst));
    s := Step(s, s.(main := Spawn));
    s := Step(s, s.(main := Running, reader := LoadPause, spawned := 1));
  }

  lemma Step(s: State, t: State) returns (u: State)
    requires Reachable(s) && Next(s, t)
    ensures u == t && Reachable(u)
  {
    Reach(s, t);
    u := t;
  }

  /** A stale `parked` can satisfy stop before the reader is back in its loop:
      the flag seen is the one of the previous round. It is safe all the same. */
  lemma StaleParkedIsPossible() returns (s: State)
    ensures Reachable(s) && s.main == ChildRuns && s.exit == SawParked && s.reader == ClearParked
  {
    s := ReachRunning();
    s := Step(s, s.(main := LoadStarted));
    s := Step(s, s.(main := Pause));
    s := Step(s, s.(pause := true, main := AwaitParked(0)));
    s := Step(s, s.(reader := StoreParked));
    s := Step(s, s.(parked := true, reader := WaitUnpaused));
    s := Step(s, s.(main := ChildRuns, exit := SawParked));
    s := Step(s, s.(main := SwapStarted));
    s := Step(s, s.(started := false, main := RestoreStarted));
    s := Step(s, s.(started := true, main := Unpause));
    s := Step(s, s.(pause := false, main := Running));
    s := Step(s, s.(reader := ClearParked));
    s := Step(s, s.(main := LoadStarted));
    s := Step(s, s.(main := Pause));
    s := Step(s, s.(pause := true, main := AwaitParked(0)));
    s := Step(s, s.(main := ChildRuns, exit := SawParked));
  }

  lemma {:induction false} KeepWaiting(s: State, n: nat) returns (t: State)
    requires Reachable(s) && s.main == AwaitParked(0) && !s.parked && n <= MAX_TRIES
    ensures Reachable(t) && t == s.(main := AwaitParked(n))
  {
    if n == 0 {
      t := s;
    } else {
      t := KeepWaiting(s, n - 1);
      t := Step(t, t.(main := AwaitParked(n)));
    }
  }

  /** Leaving by the time-out promises nothing: the reader may sit in a read. */
  lemma TimeoutPromisesNothing() returns (s: State)
    ensures Reachable(s) && s.main == ChildRuns && s.exit == TimedOut && s.reader == Read
  {
    s := ReachRunning();
    s := Step(s, s.(reader := Poll));
    s := Step(s, s.(main := LoadStarted));
    s := Step(s, s.(main := Pause));
    s := Step(s, s.(pause := true, main := AwaitParked(0)));
    s := KeepWaiting(s, MAX_TRIES);
    s := Step(s, s.(main := ChildRuns, exit := TimedOut));
    s := Step(s, s.(reader := Read));
  }

  lemma ExitedStays(s: State, t: State)
    requires Inv(s) && Next(s, t) && s.reader == Exited
    ensures t.reader == Exited
  {
  }

  /** A reader that gave up is never replaced: later starts only unpause it. */
  lemma {:induction false} ExitedReaderIsFinal(run: seq<State>, i: nat, j: nat)
    requires IsRun(run) && i <= j < |run| && run[i].reader == Exited
    ensures run[j].reader == Exited
    decreases j
  {
    hide Inv, Next;
    if i < j {
      ExitedReaderIsFinal(run, i, j - 1);
      RunsKeepInv(run, j - 1);
      assert Next(run[j - 1], run[j]);
      ExitedStays(run[j - 1], run[j]);
    }
  }
}
