/** The table watch: watcher events become debounced re-fetches of the table.
    Times are the instants at which the loop reads its clock. */
module TableRefresh {
  import opened Options

  /** A fetch that is awaited from `start` to `done`. */
  datatype Fetch = Fetch(start: int, done: int)

  datatype TableEvent = Table | FetchError | Live | Reconnecting

  /** What `select!` hands the loop. `sent` is what `send` returns in that branch. */
  datatype Input =
    | Stop
    | ResyncTick
    | Due(done: int, fetched: bool, sent: bool)
    | Init
    | InitApply
    | InitDone(sent: bool)
    | Apply
    | Delete
    | Failure(sent: bool)
    | StreamEnd

  datatype Timed = Timed(at: int, input: Input)

  datatype State = State(
    now: int,
    firstRelist: bool,
    deadline: Option<int>,
    fetches: seq<Fetch>,
    sent: seq<TableEvent>,
    over: bool)

  function Reply(fetched: bool): TableEvent {
    if fetched then Table else FetchError
  }

  function Begin(first: Timed): State
    requires first.input.Due?
  {
    State(first.input.done, true, None, [Fetch(first.at, first.input.done)],
          [Reply(first.input.fetched)], !first.input.sent)
  }

  /** A deadline that is already pending stays. */
  function Armed(s: State, at: int, debounce: int): State {
    s.(deadline := if s.deadline.Some? then s.deadline else Some(at + debounce))
  }

  /** What the runtime guarantees: time does not run back, and a sleep ends no
      earlier than its deadline. Resync ticks may come at any time. */
  predicate Enabled(s: State, t: Timed) {
    && !s.over && s.now <= t.at
    && (t.input.Due? ==> s.deadline.Some? && s.deadline.value <= t.at <= t.input.done)
  }

  function Step(s: State, t: Timed, debounce: int): State {
    var s := s.(now := t.at);
    match t.input
    case Stop => s.(over := true)
    case ResyncTick => Armed(s, t.at, debounce)
    case Due(done, fetched, sent) =>
      s.(now := done, deadline := None, fetches := s.fetches + [Fetch(t.at, done)],
         sent := s.sent + [Reply(fetched)], over := !sent)
    case Init => s
    case InitApply => s
    case InitDone(sent) =>
      var s := s.(sent := s.sent + [Live], over := !sent);
      if !sent then s else if s.firstRelist then s.(firstRelist := false) else Armed(s, t.at, debounce)
    case Apply => Armed(s, t.at, debounce)
    case Delete => Armed(s, t.at, debounce)
    case Failure(sent) => s.(sent := s.sent + [Reconnecting], over := !sent)
    case StreamEnd => s.(over := true)
  }

  function Run(first: Timed, ts: seq<Timed>, debounce: int): State
    requires first.input.Due?
  {
    if ts == [] then Begin(first) else Step(Run(first, ts[..|ts| - 1], debounce), ts[|ts| - 1], debounce)
  }

  predicate IsRun(first: Timed, ts: seq<Timed>, debounce: int) {
    && first.input.Due? && first.at <= first.input.done
    && (ts != [] ==>
         && IsRun(first, ts[..|ts| - 1], debounce)
         && Enabled(Run(first, ts[..|ts| - 1], debounce), ts[|ts| - 1]))
  }

  /** While the watch runs, any input may come next at any later time, and a sleep
      may end once its deadline has passed. */
  lemma AnyInputMayCome(first: Timed, ts: seq<Timed>, t: Timed, debounce: int)
    requires IsRun(first, ts, debounce) && !Run(first, ts, debounce).over && Run(first, ts, debounce).now <= t.at
    ensures var d := Run(first, ts, debounce).deadline;
      IsRun(first, ts + [t], debounce) <==> (t.input.Due? ==> d.Some? && d.value <= t.at <= t.input.done)
  {
    assert (ts + [t])[..|ts|] == ts;
    hide Run;
  }

  // ----- latency -----

  /** An input that calls for a fresh table. The first relist does not: the
      first fetch covered it. */
  predicate Calls(ts: seq<Timed>, k: nat)
    requires k < |ts|
  {
    || ts[k].input.Apply? || ts[k].input.Delete? || ts[k].input.ResyncTick?
    || (ts[k].input.InitDone? && exists j :: 0 <= j < k && ts[j].input.InitDone?)
  }

  /** Consumed, and no fetch has started since. */
  predicate Unserved(ts: seq<Timed>, k: nat)
    requires k < |ts|
  {
    Calls(ts, k) && forall j :: k < j < |ts| ==> !ts[j].input.Due?
  }

  lemma UnservedBefore(ts: seq<Timed>, k: nat)
    requires k + 1 < |ts|
    ensures var n := |ts| - 1; Unserved(ts, k) <==> (Unserved(ts[..n], k) && !ts[n].input.Due?)
  {
    var n := |ts| - 1;
    assert Calls(ts, k) <==> Calls(ts[..n], k);
    assert forall j :: k < j < n ==> ts[..n][j] == ts[j];
  }

  lemma {:induction false} FirstRelistFlag(first: Timed, ts: seq<Timed>, debounce: int)
    requires IsRun(first, ts, debounce) && !Run(first, ts, debounce).over
    ensures Run(first, ts, debounce).firstRelist <==> forall j :: 0 <= j < |ts| ==> !ts[j].input.InitDone?
  {
    if ts != [] {
      var n := |ts| - 1;
      FirstRelistFlag(first, ts[..n], debounce);
      assert forall j :: 0 <= j < n ==> ts[..n][j] == ts[j];
      assert ts == ts[..n] + [ts[n]];
    }
  }

  /** The oldest call that no fetch has served sets the deadline, and nothing
      else does: while the watch runs, every unserved call is due at most
      `debounce` after it was consumed, and a pending deadline is exactly
      `debounce` after some unserved call. */
  lemma {:induction false} ChangesAreDueInTime(first: Timed, ts: seq<Timed>, debounce: int)
    requires IsRun(first, ts, debounce) && !Run(first, ts, debounce).over && 0 <= debounce
    ensures var d := Run(first, ts, debounce).deadline;
      && (forall k :: 0 <= k < |ts| && Unserved(ts, k) ==> d.Some? && d.value <= ts[k].at + debounce)
      && (d.Some? ==> exists k :: 0 <= k < |ts| && Unserved(ts, k) && d.value == ts[k].at + debounce)
  {
    if ts != [] {
      var n := |ts| - 1;
      var before := Run(first, ts[..n], debounce);
      ChangesAreDueInTime(first, ts[..n], debounce);
      FirstRelistFlag(first, ts[..n], debounce);
      forall k | 0 <= k < n ensures Unserved(ts, k) <==> Unserved(ts[..n], k) && !ts[n].input.Due? {
        UnservedBefore(ts, k);
      }
      assert Calls(ts, n) <==> ArmsDeadline(before, ts[n].input);
      assert forall k :: 0 <= k < n ==> ts[..n][k] == ts[k];
      TimesGrow(first, ts[..n], debounce);
      hide IsRun, Run;
      StepDeadline(before, ts[n], debounce);
      if before.deadline.Some? && !ts[n].input.Due? {
        var k :| 0 <= k < n && Unserved(ts[..n], k) && before.deadline.value == ts[..n][k].at + debounce;
        assert Unserved(ts, k);
      } else if Calls(ts, n) {
        assert Unserved(ts, n);
      }
    }
  }

  predicate ArmsDeadline(s: State, i: Input) {
    i.Apply? || i.Delete? || i.ResyncTick? || (i.InitDone? && !s.firstRelist)
  }

  lemma StepDeadline(s: State, t: Timed, debounce: int)
    requires !Step(s, t, debounce).over
    ensures Step(s, t, debounce).deadline ==
      if t.input.Due? then None
      else if ArmsDeadline(s, t.input) && s.deadline.None? then Some(t.at + debounce)
      else s.deadline
  {
  }

  lemma {:induction false} TimesGrow(first: Timed, ts: seq<Timed>, debounce: int)
    requires IsRun(first, ts, debounce)
    ensures forall k :: 0 <= k < |ts| ==> ts[k].at <= Run(first, ts, debounce).now
  {
    if ts != [] {
      var n := |ts| - 1;
      TimesGrow(first, ts[..n], debounce);
      assert forall k :: 0 <= k < n ==> ts[k] == ts[..n][k];
    }
  }

  // ----- rate -----

  /** Each fetch starts at least `debounce` after the one before it ended. */
  ghost predicate Spaced(fs: seq<Fetch>, debounce: int) {
    && (forall i :: 0 <= i < |fs| ==> fs[i].start <= fs[i].done)
    && forall i, j :: 0 <= i < j < |fs| ==> fs[i].done + debounce <= fs[j].start
  }

  ghost predicate Paced(s: State, debounce: int) {
    && Spaced(s.fetches, debounce)
    && (forall i :: 0 <= i < |s.fetches| ==> s.fetches[i].done <= s.now)
    && (s.deadline.Some? ==> forall i :: 0 <= i < |s.fetches| ==> s.fetches[i].done + debounce <= s.deadline.value)
  }

  lemma StepKeepsPace(s: State, t: Timed, debounce: int)
    requires Paced(s, debounce) && Enabled(s, t) && 0 <= debounce
    ensures Paced(Step(s, t, debounce), debounce)
  {
    if !t.input.Due? {
      assert Step(s, t, debounce).fetches == s.fetches && Step(s, t, debounce).now == t.at;
      hide Spaced;
    }
  }

  lemma {:induction false} FetchesAreSpaced(first: Timed, ts: seq<Timed>, debounce: int)
    requires IsRun(first, ts, debounce) && 0 <= debounce
    ensures Paced(Run(first, ts, debounce), debounce)
  {
    if ts != [] {
      FetchesAreSpaced(first, ts[..|ts| - 1], debounce);
      StepKeepsPace(Run(first, ts[..|ts| - 1], debounce), ts[|ts| - 1], debounce);
      hide Paced, Step;
    }
  }

  function StartedWithin(fs: seq<Fetch>, from: int, width: nat): nat {
    if fs == [] then 0
    else StartedWithin(fs[..|fs| - 1], from, width) + if from <= fs[|fs| - 1].start <= from + width then 1 else 0
  }

  /** The time `n` gaps take. */
  function Gaps(n: nat, debounce: nat): nat {
    if n == 0 then 0 else Gaps(n - 1, debounce) + debounce
  }

  lemma {:induction false} LastInWindow(fs: seq<Fetch>, debounce: nat, from: int, width: nat) returns (k: nat)
    requires Spaced(fs, debounce) && StartedWithin(fs, from, width) > 0
    ensures k < |fs| && from + Gaps(StartedWithin(fs, from, width) - 1, debounce) <= fs[k].start <= from + width
  {
    k := |fs| - 1;
    var before := StartedWithin(fs[..k], from, width);
    if !(from <= fs[k].start <= from + width) {
      k := LastInWindow(fs[..k], debounce, from, width);
    } else if before > 0 {
      var j := LastInWindow(fs[..k], debounce, from, width);
      assert fs[..k][j] == fs[j] && fs[j].start + debounce <= fs[k].start;
    }
  }

  lemma {:induction false} GapsMultiply(n: nat, debounce: nat)
    ensures Gaps(n, debounce) == n * debounce
  {
    if n > 0 {
      GapsMultiply(n - 1, debounce);
      assert n * debounce == (n - 1) * debounce + debounce;
    }
  }

  lemma WindowHolds(fs: seq<Fetch>, debounce: nat, from: int, width: nat)
    requires Spaced(fs, debounce) && StartedWithin(fs, from, width) > 0
    ensures (StartedWithin(fs, from, width) - 1) * debounce <= width
  {
    var k := LastInWindow(fs, debounce, from, width);
    GapsMultiply(StartedWithin(fs, from, width) - 1, debounce);
    hide *;
  }

  /** However fast the changes come, the fetches that start in a window of
      `width` number at most `width / debounce + 1`: all but one of them take
      up `debounce` each. */
  lemma FetchRateIsBounded(first: Timed, ts: seq<Timed>, debounce: int, from: int, width: nat)
    requires IsRun(first, ts, debounce) && 0 <= debounce
    ensures var n := StartedWithin(Run(first, ts, debounce).fetches, from, width); n > 0 ==> (n - 1) * debounce <= width
  {
    var fs := Run(first, ts, debounce).fetches;
    FetchesAreSpaced(first, ts, debounce);
    hide IsRun, Run, StartedWithin, Spaced;
    if StartedWithin(fs, from, width) > 0 {
      WindowHolds(fs, debounce, from, width);
    }
  }

  // ----- replies -----

  predicate IsReply(e: TableEvent) {
    e.Table? || e.FetchError?
  }

  function Replies(sent: seq<TableEvent>): nat {
    if sent == [] then 0
    else Replies(sent[..|sent| - 1]) + if IsReply(sent[|sent| - 1]) then 1 else 0
  }

  lemma RepliesSnoc(sent: seq<TableEvent>, e: TableEvent)
    ensures Replies(sent + [e]) == Replies(sent) + if IsReply(e) then 1 else 0
  {
    assert (sent + [e])[..|sent|] == sent;
  }

  lemma StepReplies(s: State, t: Timed, debounce: int)
    ensures Replies(Step(s, t, debounce).sent) - Replies(s.sent) == |Step(s, t, debounce).fetches| - |s.fetches|
  {
    RepliesSnoc(s.sent, Table);
    RepliesSnoc(s.sent, FetchError);
    RepliesSnoc(s.sent, Live);
    RepliesSnoc(s.sent, Reconnecting);
    hide Replies;
  }

  /** Every fetch is answered by one table or one error; statuses answer none. */
  lemma {:induction false} OneReplyPerFetch(first: Timed, ts: seq<Timed>, debounce: int)
    requires first.input.Due?
    ensures var s := Run(first, ts, debounce); Replies(s.sent) == |s.fetches|
  {
    if ts == [] {
      RepliesSnoc([], Reply(first.input.fetched));
      assert Begin(first).sent == [] + [Reply(first.input.fetched)];
    } else {
      OneReplyPerFetch(first, ts[..|ts| - 1], debounce);
      StepReplies(Run(first, ts[..|ts| - 1], debounce), ts[|ts| - 1], debounce);
      hide Step, Replies;
    }
  }

  /** What each input sends: a fetch its table or its error, the end of a relist
      that the watch is live, a failure that it reconnects. The watch goes on
      after every accepted send and ends with a refused one, with a stop and with
      its stream. */
  lemma TurnSends(first: Timed, ts: seq<Timed>, t: Timed, debounce: int)
    requires first.input.Due?
    ensures var s, u := Run(first, ts, debounce), Run(first, ts + [t], debounce);
      && u.sent == s.sent + (match t.input
           case Due(_, fetched, _) => [if fetched then Table else FetchError]
           case InitDone(_) => [Live]
           case Failure(_) => [Reconnecting]
           case _ => [])
      && (match t.input
          case Due(_, _, sent) => u.over == !sent
          case InitDone(sent) => u.over == !sent
          case Failure(sent) => u.over == !sent
          case Stop => u.over
          case StreamEnd => u.over
          case _ => u.over == s.over)
  {
    assert (ts + [t])[..|ts|] == ts;
    assert Run(first, ts, debounce).sent + [] == Run(first, ts, debounce).sent;
  }

  /** The first fetch is answered at once, and a refused answer ends the watch. */
  lemma FirstReply(first: Timed, debounce: int)
    requires first.input.Due?
    ensures var s := Run(first, [], debounce);
      && s.sent == [if first.input.fetched then Table else FetchError]
      && s.fetches == [Fetch(first.at, first.input.done)]
      && s.over == !first.input.sent && s.deadline == None
  {
  }

  // ----- the loop -----

  /** The loop's variables, with a record of its fetches and of what it sent. */
  class TableWatch {
    const debounce: int
    var clock: int
    var firstRelist: bool
    var deadline: Option<int>
    var fetches: seq<Fetch>
    var sent: seq<TableEvent>
    var over: bool

    function Now(): State
      reads this
    {
      State(clock, firstRelist, deadline, fetches, sent, over)
    }

    constructor (debounce: int)
      ensures this.debounce == debounce && Now() == State(0, true, None, [], [], false)
    {
      this.debounce := debounce;
      clock, firstRelist, deadline, fetches, sent, over := 0, true, None, [], [], false;
    }

    /** Fetches, then sends the table or the error; a refused send ends the watch. */
    method EmitTable(due: Timed)
      requires due.input.Due?
      modifies this
      ensures Now() == old(Now()).(now := due.input.done, fetches := old(fetches) + [Fetch(due.at, due.input.done)],
                                   sent := old(sent) + [Reply(due.input.fetched)], over := !due.input.sent)
    {
      fetches := fetches + [Fetch(due.at, due.input.done)];
      clock := due.input.done;
      sent := sent + [if due.input.fetched then Table else FetchError];
      over := !due.input.sent;
    }

    method Arm()
      modifies this`deadline
      ensures Now() == Armed(old(Now()), clock, debounce)
    {
      if deadline.None? {
        deadline := Some(clock + debounce);
      }
    }

    /** One pass of the `select!` loop. */
    method Turn(t: Timed)
      requires Enabled(Now(), t)
      modifies this
      ensures Now() == Step(old(Now()), t, debounce)
    {
      clock := t.at;
      match t.input {
        case Stop => over := true;
        case ResyncTick => Arm();
        case Due(_, _, _) =>
          deadline := None;
          EmitTable(t);
        case Init =>
        case InitApply =>
        case InitDone(ok) =>
          sent := sent + [Live];
          if !ok {
            over := true;
          } else if firstRelist {
            firstRelist := false;
          } else {
            Arm();
          }
        case Apply => Arm();
        case Delete => Arm();
        case Failure(ok) =>
          sent := sent + [Reconnecting];
          over := !ok;
        case StreamEnd => over := true;
      }
    }

    method DriveTableEvents(first: Timed, ts: seq<Timed>)
      requires IsRun(first, ts, debounce) && Now() == State(0, true, None, [], [], false)
      modifies this
      ensures Now() == Run(first, ts, debounce)
    {
      EmitTable(first);
      var i := 0;
      assert ts[..0] == [];
      while i < |ts|
        invariant i <= |ts| && IsRun(first, ts[..i], debounce) && Now() == Run(first, ts[..i], debounce)
      {
        RunSplits(first, ts, i, debounce);
        Turn(ts[i]);
        i := i + 1;
      }
      assert ts[..|ts|] == ts;
    }
  }

  lemma {:induction false} RunSplits(first: Timed, ts: seq<Timed>, i: nat, debounce: int)
    requires i < |ts| && IsRun(first, ts, debounce)
    ensures IsRun(first, ts[..i + 1], debounce) && ts[..i + 1][..i] == ts[..i]
    ensures Enabled(Run(first, ts[..i], debounce), ts[i])
    ensures Run(first, ts[..i + 1], debounce) == Step(Run(first, ts[..i], debounce), ts[i], debounce)
    decreases |ts|
  {
    var n := |ts| - 1;
    assert ts[..i + 1][..i] == ts[..i];
    if i < n {
      RunSplits(first, ts[..n], i, debounce);
      assert ts[..n][..i + 1] == ts[..i + 1] && ts[..n][..i] == ts[..i];
    } else {
      assert ts[..i + 1] == ts;
    }
  }
}
