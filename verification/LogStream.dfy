/** The batching loop of the log stream. */
module LogStream {
  const BATCH := 50

  datatype Input = Stop | Tick | Line(text: string) | Eof | Failure(message: string)

  datatype LogEvent = Lines(lines: seq<string>) | End | Error(message: string)

  /** An input, and what `send` returns if this turn of the loop calls it:
      false once the receiver is gone. */
  datatype Turn = Turn(input: Input, accepted: bool)

  datatype State = State(batch: seq<string>, sent: seq<LogEvent>, over: bool)

  const START := State([], [], false)

  /** Sends the pending batch, which is taken out even if the receiver is gone. */
  function Flushed(s: State): State {
    s.(batch := [], sent := s.sent + [Lines(s.batch)])
  }

  function Closing(s: State, last: LogEvent): State {
    var t := if s.batch == [] then s else Flushed(s);
    t.(sent := t.sent + [last], over := true)
  }

  function Step(s: State, t: Turn): State {
    match t.input
    case Stop => s.(over := true)
    case Tick => if s.batch == [] then s else Flushed(s).(over := !t.accepted)
    case Line(l) =>
      var u := s.(batch := s.batch + [l]);
      if |u.batch| >= BATCH then Flushed(u).(over := !t.accepted) else u
    case Eof => Closing(s, End)
    case Failure(m) => Closing(s, Error(m))
  }

  /** The inputs up to the one that ends the loop; later ones are never read. */
  function Run(ts: seq<Turn>): State {
    if ts == [] then START
    else
      var s := Run(ts[..|ts| - 1]);
      if s.over then s else Step(s, ts[|ts| - 1])
  }

  class LogPump {
    var batch: seq<string>
    var sent: seq<LogEvent>

    constructor ()
      ensures batch == [] && sent == []
    {
      batch, sent := [], [];
    }

    method SendBatch()
      modifies this
      ensures batch == [] && sent == old(sent) + [Lines(old(batch))]
    {
      sent := sent + [Lines(batch)];
      batch := [];
    }

    method SendLast(last: LogEvent)
      modifies this
      ensures State(batch, sent, true) == Closing(State(old(batch), old(sent), false), last)
    {
      if batch != [] {
        SendBatch();
      }
      sent := sent + [last];
    }

    /** `over` tells whether the loop returned; otherwise it waits for more. */
    method RunLogStream(ts: seq<Turn>) returns (over: bool)
      requires batch == [] && sent == []
      modifies this
      ensures State(batch, sent, over) == Run(ts)
    {
      over := false;
      var i := 0;
      while i < |ts| && !over
        invariant i <= |ts| && State(batch, sent, over) == Run(ts[..i])
      {
        assert ts[..i + 1][..i] == ts[..i];
        match ts[i].input {
          case Stop => over := true;
          case Tick =>
            if batch != [] {
              SendBatch();
              over := !ts[i].accepted;
            }
          case Line(l) =>
            batch := batch + [l];
            if |batch| >= BATCH {
              SendBatch();
              over := !ts[i].accepted;
            }
          case Eof =>
            SendLast(End);
            over := true;
          case Failure(m) =>
            SendLast(Error(m));
            over := true;
        }
        i := i + 1;
      }
      OverStays(ts, i);
    }
  }

  lemma {:induction false} OverStays(ts: seq<Turn>, i: nat)
    requires i <= |ts| && (i < |ts| ==> Run(ts[..i]).over)
    ensures Run(ts) == Run(ts[..i])
    decreases |ts|
  {
    if i < |ts| {
      assert ts[..|ts| - 1][..i] == ts[..i];
      OverStays(ts[..|ts| - 1], i);
    } else {
      assert ts[..i] == ts;
    }
  }

  // ----- conservation -----

  /** The lines of the events, in order. */
  function Delivered(sent: seq<LogEvent>): seq<string> {
    if sent == [] then []
    else Delivered(sent[..|sent| - 1]) + if sent[|sent| - 1].Lines? then sent[|sent| - 1].lines else []
  }

  lemma DeliveredSnoc(sent: seq<LogEvent>, e: LogEvent)
    ensures Delivered(sent + [e]) == Delivered(sent) + if e.Lines? then e.lines else []
  {
    assert (sent + [e])[..|sent|] == sent;
  }

  /** How many inputs the loop consumes. */
  function Consumed(ts: seq<Turn>): (n: nat)
    ensures n <= |ts|
  {
    if ts == [] then 0
    else if Run(ts[..|ts| - 1]).over then Consumed(ts[..|ts| - 1])
    else |ts|
  }

  /** The lines among the inputs. */
  function Read(ts: seq<Turn>): seq<string> {
    if ts == [] then []
    else Read(ts[..|ts| - 1]) + if ts[|ts| - 1].input.Line? then [ts[|ts| - 1].input.text] else []
  }

  ghost predicate BatchesFit(sent: seq<LogEvent>) {
    forall i :: 0 <= i < |sent| && sent[i].Lines? ==> 1 <= |sent[i].lines| <= BATCH
  }

  /** How many events close the log. */
  function Terminal(sent: seq<LogEvent>): nat {
    if sent == [] then 0 else Terminal(sent[..|sent| - 1]) + if sent[|sent| - 1].Lines? then 0 else 1
  }

  lemma TerminalSnoc(sent: seq<LogEvent>, e: LogEvent)
    ensures Terminal(sent + [e]) == Terminal(sent) + if e.Lines? then 0 else 1
  {
    assert (sent + [e])[..|sent|] == sent;
  }

  lemma FlushConserves(s: State)
    requires BatchesFit(s.sent) && 1 <= |s.batch| <= BATCH
    ensures var u := Flushed(s); Delivered(u.sent) == Delivered(s.sent) + s.batch && BatchesFit(u.sent)
  {
    DeliveredSnoc(s.sent, Lines(s.batch));
  }

  lemma ClosingConserves(s: State, last: LogEvent)
    requires BatchesFit(s.sent) && |s.batch| <= BATCH && !last.Lines?
    ensures var u := Closing(s, last);
      && u.batch == [] && Delivered(u.sent) == Delivered(s.sent) + s.batch && BatchesFit(u.sent)
      && Terminal(u.sent) == Terminal(s.sent) + 1
  {
    if s.batch != [] {
      FlushConserves(s);
      TerminalSnoc(s.sent, Lines(s.batch));
    }
    var mid := if s.batch == [] then s else Flushed(s);
    DeliveredSnoc(mid.sent, last);
    TerminalSnoc(mid.sent, last);
    hide Delivered, Terminal;
  }

  lemma StepConserves(s: State, t: Turn)
    requires !s.over && |s.batch| < BATCH && BatchesFit(s.sent)
    ensures var u := Step(s, t);
      && Delivered(u.sent) + u.batch == Delivered(s.sent) + s.batch + (if t.input.Line? then [t.input.text] else [])
      && BatchesFit(u.sent) && |u.batch| < BATCH
  {
    hide Delivered, BatchesFit, Closing, Terminal;
    match t.input {
      case Stop =>
      case Tick => if s.batch != [] { FlushConserves(s); }
      case Line(l) =>
        if |s.batch| + 1 >= BATCH {
          FlushConserves(s.(batch := s.batch + [l]));
        }
      case Eof => ClosingConserves(s, End);
      case Failure(m) => ClosingConserves(s, Error(m));
    }
  }

  /** At every turn the batches sent and the pending one hold exactly the lines
      read, in order; every batch has one to fifty lines. */
  lemma {:induction false} LinesAreConserved(ts: seq<Turn>)
    ensures var s := Run(ts);
      && Delivered(s.sent) + s.batch == Read(ts[..Consumed(ts)])
      && (forall i :: 0 <= i < |s.sent| && s.sent[i].Lines? ==> 1 <= |s.sent[i].lines| <= 50) && |s.batch| < 50
  {
    if ts != [] {
      var n := |ts| - 1;
      LinesAreConserved(ts[..n]);
      if Run(ts[..n]).over {
        assert ts[..n][..Consumed(ts[..n])] == ts[..Consumed(ts[..n])];
      } else {
        NotOverConsumesAll(ts[..n]);
        assert ts[..|ts|] == ts && ts[..n][..n] == ts[..n];
        StepConserves(Run(ts[..n]), ts[n]);
        hide Step, Delivered, BatchesFit;
      }
    }
  }

  lemma {:induction false} NotOverConsumesAll(ts: seq<Turn>)
    requires !Run(ts).over
    ensures Consumed(ts) == |ts|
  {
  }

  lemma {:induction false} NoTerminalBefore(ts: seq<Turn>)
    requires !Run(ts).over
    ensures Terminal(Run(ts).sent) == 0
  {
    if ts != [] {
      var s := Run(ts[..|ts| - 1]);
      NoTerminalBefore(ts[..|ts| - 1]);
      if Run(ts).sent != s.sent {
        TerminalSnoc(s.sent, Run(ts).sent[|s.sent|]);
      }
    }
  }

  // ----- what each turn sends -----

  lemma RunNext(ts: seq<Turn>, t: Turn)
    requires !Run(ts).over
    ensures Run(ts + [t]) == Step(Run(ts), t)
  {
    assert (ts + [t])[..|ts|] == ts;
  }

  /** A tick leaves nothing behind: everything read so far has been sent. */
  lemma TickDeliversAll(ts: seq<Turn>, t: Turn)
    requires !Run(ts).over && t.input.Tick?
    ensures Run(ts + [t]).batch == [] && Delivered(Run(ts + [t]).sent) == Read(ts)
  {
    RunNext(ts, t);
    LinesAreConserved(ts);
    NotOverConsumesAll(ts);
    assert ts[..|ts|] == ts;
    var s := Run(ts);
    DeliveredSnoc(s.sent, Lines(s.batch));
    hide Delivered, Read;
  }

  /** A line waits for company until there are fifty; nothing is sent before. */
  lemma LineWaits(ts: seq<Turn>, t: Turn)
    requires !Run(ts).over && t.input.Line?
    ensures var s, u := Run(ts), Run(ts + [t]);
      if |s.batch| < 49 then u == State(s.batch + [t.input.text], s.sent, false)
      else u == State([], s.sent + [Lines(s.batch + [t.input.text])], !t.accepted)
  {
    RunNext(ts, t);
    LinesAreConserved(ts);
    hide Delivered, Read, BatchesFit;
  }

  /** The loop returns when it is stopped, which sends nothing, when the stream
      ends, and when a send that this turn made is refused; never otherwise. */
  lemma WhenItReturns(ts: seq<Turn>, t: Turn)
    requires !Run(ts).over
    ensures var s, u := Run(ts), Run(ts + [t]);
      && (u.over <==> t.input.Stop? || t.input.Eof? || t.input.Failure? || (u.sent != s.sent && !t.accepted))
      && (t.input.Stop? ==> u.sent == s.sent)
      && (t.input.Tick? && s.batch == [] ==> u.sent == s.sent)
      && (t.input.Tick? && s.batch != [] ==> u.sent == s.sent + [Lines(s.batch)])
  {
    RunNext(ts, t);
  }

  predicate Ends(i: Input) {
    i.Eof? || i.Failure?
  }

  /** If the loop is still running when the stream ends, everything read is
      delivered, and then exactly one terminal event closes the log. */
  lemma StreamEndDeliversAll(ts: seq<Turn>, end: Turn)
    requires !Run(ts).over && Ends(end.input)
    ensures var s := Run(ts + [end]);
      && s.over && s.batch == [] && s.sent != []
      && Delivered(s.sent) == Read(ts)
      && s.sent[|s.sent| - 1] == (if end.input.Eof? then End else Error(end.input.message))
      && Terminal(s.sent) == 1
  {
    assert (ts + [end])[..|ts|] == ts && ts[..|ts|] == ts;
    LinesAreConserved(ts);
    NotOverConsumesAll(ts);
    NoTerminalBefore(ts);
    ClosingConserves(Run(ts), if end.input.Eof? then End else Error(end.input.message));
    hide Delivered, Terminal, Read;
  }

  /** While every send is accepted and nobody stops it, the loop runs on until
      the stream ends. */
  lemma {:induction false} RunsUntilStreamEnds(ts: seq<Turn>)
    requires forall i :: 0 <= i < |ts| ==> ts[i].accepted && !ts[i].input.Stop? && !Ends(ts[i].input)
    ensures !Run(ts).over
  {
    if ts != [] {
      RunsUntilStreamEnds(ts[..|ts| - 1]);
    }
  }
}
