/** The pod watch: `Batcher` and `drive_pod_events` on the server side of the
    channel, the client's `PodTable` on the other. */
module PodWatch {
  import opened Options
  import opened Sequences

  /** A row and the columns that only travel with it. */
  datatype PodRow = PodRow(key: string, columns: seq<string>)

  datatype PodEvent =
    | Snapshot(rows: seq<PodRow>)
    | Upsert(rows: seq<PodRow>)
    | Delete(keys: seq<string>)
    | Status(state: string, message: Option<string>)

  datatype WatchEvent =
    | Init
    | InitApply(row: PodRow)
    | InitDone
    | Applied(row: PodRow)
    | Deleted(key: string)
    | Failed(message: string)

  /** What the loop can be woken by: a flush tick or the next watch event. */
  datatype Input = Tick | Watch(event: WatchEvent)

  type Table = map<string, PodRow>

  // ----- the client -----

  function SetRows(t: Table, rows: seq<PodRow>): Table {
    if rows == [] then t
    else
      var last := rows[|rows| - 1];
      SetRows(t, rows[..|rows| - 1])[last.key := last]
  }

  function ClientStep(t: Table, ev: PodEvent): Table {
    match ev
    case Snapshot(rows) => SetRows(map[], rows)
    case Upsert(rows) => SetRows(t, rows)
    case Delete(keys) => t - (set k | k in keys)
    case Status(_, _) => t
  }

  function Client(t: Table, evs: seq<PodEvent>): Table {
    if evs == [] then t else ClientStep(Client(t, evs[..|evs| - 1]), evs[|evs| - 1])
  }

  class PodTable {
    var rows: Table

    constructor ()
      ensures rows == map[]
    {
      rows := map[];
    }

    method Apply(ev: PodEvent)
      modifies this
      ensures rows == ClientStep(old(rows), ev)
    {
      match ev
      case Snapshot(list) =>
        rows := map[];
        for i := 0 to |list|
          invariant rows == SetRows(map[], list[..i])
        {
          assert list[..i + 1][..i] == list[..i];
          rows := rows[list[i].key := list[i]];
        }
        assert list[..|list|] == list;
      case Upsert(list) =>
        for i := 0 to |list|
          invariant rows == SetRows(old(rows), list[..i])
        {
          assert list[..i + 1][..i] == list[..i];
          rows := rows[list[i].key := list[i]];
        }
        assert list[..|list|] == list;
      case Delete(keys) =>
        for i := 0 to |keys|
          invariant rows == old(rows) - (set k | k in keys[..i])
        {
          assert keys[..i + 1] == keys[..i] + [keys[i]];
          rows := rows - {keys[i]};
        }
        assert keys[..|keys|] == keys;
      case Status(_, _) =>
    }
  }

  // ----- the batcher -----

  /** A table with a pending batch applied to it. */
  function Patched(t: Table, upserts: Table, deletes: set<string>): Table {
    t + upserts - deletes
  }

  ghost predicate Keyed(upserts: Table) {
    forall k :: k in upserts ==> upserts[k].key == k
  }

  lemma {:induction false} ClientAppend(t: Table, evs: seq<PodEvent>, more: seq<PodEvent>)
    ensures Client(t, evs + more) == Client(Client(t, evs), more)
  {
    if more == [] {
      assert evs + more == evs;
    } else {
      var n := |more| - 1;
      assert (evs + more)[..|evs| + n] == evs + more[..n];
      ClientAppend(t, evs, more[..n]);
    }
  }

  /** The rows are the table's, in some order. */
  ghost predicate Lists(rows: seq<PodRow>, m: Table) {
    forall r :: r in rows <==> r.key in m && m[r.key] == r
  }

  /** Some row of the list has this key. */
  ghost predicate HasKey(rows: seq<PodRow>, k: string) {
    exists r :: r in rows && r.key == k
  }

  lemma HasKeySnoc(rows: seq<PodRow>, last: PodRow, k: string)
    ensures HasKey(rows + [last], k) <==> HasKey(rows, k) || last.key == k
  {
    if last.key == k {
      assert last in rows + [last];
    }
    if HasKey(rows, k) {
      var r :| r in rows && r.key == k;
      assert r in rows + [last];
    }
  }

  lemma {:induction false} SetRowsAgree(t: Table, rows: seq<PodRow>, m: Table, k: string)
    requires forall r :: r in rows ==> r.key in m && m[r.key] == r
    ensures k in SetRows(t, rows) <==> k in t || HasKey(rows, k)
    ensures HasKey(rows, k) ==> k in m
    ensures k in SetRows(t, rows) ==> SetRows(t, rows)[k] == if HasKey(rows, k) then m[k] else t[k]
  {
    if rows != [] {
      var n := |rows| - 1;
      SetRowsAgree(t, rows[..n], m, k);
      assert rows == rows[..n] + [rows[n]];
      HasKeySnoc(rows[..n], rows[n], k);
      hide HasKey;
    }
  }

  lemma SetRowsIsUpdate(t: Table, rows: seq<PodRow>, m: Table)
    requires Keyed(m) && Lists(rows, m)
    ensures SetRows(t, rows) == t + m
  {
    forall k ensures k in SetRows(t, rows) <==> k in t + m
             ensures k in SetRows(t, rows) ==> SetRows(t, rows)[k] == (t + m)[k]
    {
      SetRowsAgree(t, rows, m, k);
      assert k in m ==> m[k] in rows;
    }
  }

  class Batcher {
    var upserts: Table
    var deletes: set<string>

    ghost predicate Valid()
      reads this
    {
      Keyed(upserts) && upserts.Keys !! deletes
    }

    constructor ()
      ensures Valid() && upserts == map[] && deletes == {}
    {
      upserts, deletes := map[], {};
    }

    method Upsert(row: PodRow)
      requires Valid()
      modifies this
      ensures Valid() && upserts == old(upserts)[row.key := row] && deletes == old(deletes) - {row.key}
    {
      deletes := deletes - {row.key};
      upserts := upserts[row.key := row];
    }

    method Delete(key: string)
      requires Valid()
      modifies this
      ensures Valid() && upserts == old(upserts) - {key} && deletes == old(deletes) + {key}
    {
      upserts := upserts - {key};
      deletes := deletes + {key};
    }

    /** Takes the batch out as at most one upsert event and then one delete event. */
    method Flush() returns (out: seq<PodEvent>)
      requires Valid()
      modifies this
      ensures Valid() && upserts == map[] && deletes == {}
      ensures forall t :: Client(t, out) == Patched(t, old(upserts), old(deletes))
      ensures |out| <= 2
    {
      out := [];
      ghost var batch, gone := upserts, deletes;
      if upserts != map[] {
        var rows := TakeRows(upserts);
        out := [PodEvent.Upsert(rows)];
        UpsertsSent(rows, batch);
      }
      if deletes != {} {
        var keys := TakeKeys(deletes);
        DeletesSent(out, keys, batch, gone);
        out := out + [PodEvent.Delete(keys)];
      }
      upserts, deletes := map[], {};
    }
  }

  lemma UpsertsSent(rows: seq<PodRow>, batch: Table)
    requires Keyed(batch) && Lists(rows, batch)
    ensures forall t :: Client(t, [PodEvent.Upsert(rows)]) == t + batch
  {
    forall t ensures Client(t, [PodEvent.Upsert(rows)]) == t + batch {
      SetRowsIsUpdate(t, rows, batch);
      assert [PodEvent.Upsert(rows)][..0] == [];
    }
  }

  lemma DeletesSent(out: seq<PodEvent>, keys: seq<string>, batch: Table, gone: set<string>)
    requires forall t :: Client(t, out) == t + batch
    requires forall k :: k in keys <==> k in gone
    ensures forall t :: Client(t, out + [PodEvent.Delete(keys)]) == t + batch - gone
  {
    forall t ensures Client(t, out + [PodEvent.Delete(keys)]) == t + batch - gone {
      assert (out + [PodEvent.Delete(keys)])[..|out|] == out;
      assert (set k | k in keys) == gone;
    }
  }

  /** The elements of a set, each once. */
  method TakeKeys(s: set<string>) returns (keys: seq<string>)
    ensures |keys| == |s| && forall k :: k in keys <==> k in s
  {
    keys := [];
    var todo := s;
    while todo != {}
      invariant todo <= s && |keys| + |todo| == |s|
      invariant forall k :: k in keys <==> k in s && k !in todo
    {
      var k :| k in todo;
      keys := keys + [k];
      todo := todo - {k};
    }
  }

  method TakeRows(m: Table) returns (rows: seq<PodRow>)
    requires Keyed(m)
    ensures Lists(rows, m) && |rows| == |m|
  {
    var keys := TakeKeys(m.Keys);
    rows := seq(|keys|, i requires 0 <= i < |keys| => m[keys[i]]);
    forall r ensures r in rows <==> r.key in m && m[r.key] == r {
      if r.key in m && m[r.key] == r {
        var i :| 0 <= i < |keys| && keys[i] == r.key;
        assert rows[i] == r;
      }
    }
  }

  // ----- the driver -----

  /** The loop's variables, the table the client holds, and the table that would
      result from applying each watch event directly. */
  datatype State = State(upserts: Table, deletes: set<string>, buffer: Option<seq<PodRow>>,
                         client: Table, direct: Table)

  const START := State(map[], {}, None, map[], map[])

  function Step(s: State, input: Input): State {
    match input
    case Tick => s.(upserts := map[], deletes := {}, client := Patched(s.client, s.upserts, s.deletes))
    case Watch(Init) => s.(upserts := map[], deletes := {}, buffer := Some([]))
    case Watch(InitApply(row)) => if s.buffer.Some? then s.(buffer := Some(s.buffer.value + [row])) else s
    case Watch(InitDone) =>
      var rows := if s.buffer.Some? then s.buffer.value else [];
      s.(buffer := None, client := SetRows(map[], rows), direct := SetRows(map[], rows))
    case Watch(Applied(row)) =>
      s.(upserts := s.upserts[row.key := row], deletes := s.deletes - {row.key}, direct := s.direct[row.key := row])
    case Watch(Deleted(key)) =>
      s.(upserts := s.upserts - {key}, deletes := s.deletes + {key}, direct := s.direct - {key})
    case Watch(Failed(_)) => s
  }

  function Run(inputs: seq<Input>): State {
    if inputs == [] then START else Step(Run(inputs[..|inputs| - 1]), inputs[|inputs| - 1])
  }

  /** The receiving end of the channel: it takes `capacity` events and is then gone. */
  class Receiver {
    var got: seq<PodEvent>
    const capacity: nat

    constructor (capacity: nat)
      ensures got == [] && this.capacity == capacity
    {
      got := [];
      this.capacity := capacity;
    }

    method Send(ev: PodEvent) returns (ok: bool)
      modifies this
      ensures ok == (|old(got)| < capacity)
      ensures got == if ok then old(got) + [ev] else old(got)
    {
      ok := |got| < capacity;
      if ok {
        got := got + [ev];
      }
    }

    method SendAll(evs: seq<PodEvent>) returns (ok: bool)
      requires |got| <= capacity
      modifies this
      ensures |got| <= capacity && old(got) <= got <= old(got) + evs
      ensures ok ==> got == old(got) + evs
      ensures !ok ==> |got| == capacity
    {
      for i := 0 to |evs|
        invariant got == old(got) + evs[..i] && |got| <= capacity
      {
        ok := Send(evs[i]);
        if !ok {
          return false;
        }
        assert evs[..i + 1] == evs[..i] + [evs[i]];
      }
      assert evs[..|evs|] == evs;
      return true;
    }
  }

  /** Returns whether the stream ended with the receiver still there; then what
      it got builds exactly the client table of the run. */
  method DrivePodEvents(inputs: seq<Input>, receiver: Receiver) returns (open: bool)
    requires receiver.got == []
    modifies receiver
    ensures open ==> Client(map[], receiver.got) == Run(inputs).client
    ensures !open ==> |receiver.got| == receiver.capacity
  {
    var batcher := new Batcher();
    var buffer: Option<seq<PodRow>> := None;
    open := true;
    for i := 0 to |inputs|
      invariant fresh(batcher) && batcher.Valid() && open && |receiver.got| <= receiver.capacity
      invariant var s := Run(inputs[..i]);
        s.upserts == batcher.upserts && s.deletes == batcher.deletes && s.buffer == buffer
      invariant Client(map[], receiver.got) == Run(inputs[..i]).client
    {
      assert inputs[..i + 1][..i] == inputs[..i];
      ghost var before := receiver.got;
      var out: seq<PodEvent> := [];
      match inputs[i] {
      case Tick =>
        out := batcher.Flush();
      case Watch(Init) =>
        buffer := Some([]);
        batcher := new Batcher();
      case Watch(InitApply(row)) =>
        if buffer.Some? {
          buffer := Some(buffer.value + [row]);
        }
      case Watch(InitDone) =>
        var rows := if buffer.Some? then buffer.value else [];
        buffer := None;
        out := [Snapshot(rows), Status("live", None)];
        SnapshotReplaces(Client(map[], before), rows);
      case Watch(Applied(row)) => batcher.Upsert(row);
      case Watch(Deleted(key)) => batcher.Delete(key);
      case Watch(Failed(message)) =>
        out := [Status("reconnecting", Some(message))];
        assert out[..0] == [];
      }
      assert Client(Client(map[], before), out) == Run(inputs[..i + 1]).client;
      open := receiver.SendAll(out);
      if !open {
        return;
      }
      ClientAppend(map[], before, out);
    }
    assert inputs[..|inputs|] == inputs;
  }

  lemma SnapshotReplaces(t: Table, rows: seq<PodRow>)
    ensures Client(t, [Snapshot(rows), Status("live", None)]) == SetRows(map[], rows)
  {
    var evs := [Snapshot(rows), Status("live", None)];
    assert evs[..1] == [Snapshot(rows)] && evs[..1][..0] == [];
  }

  // ----- the client agrees with the cluster -----

  /** What the watcher delivers: changes only outside a relist, and the end of a
      relist only after its start. A failed relist may start over. */
  predicate Expected(buffer: Option<seq<PodRow>>, input: Input) {
    match input
    case Watch(Applied(_)) => buffer.None?
    case Watch(Deleted(_)) => buffer.None?
    case Watch(InitDone) => buffer.Some?
    case _ => true
  }

  predicate WellFormed(inputs: seq<Input>) {
    inputs == [] ||
    (WellFormed(inputs[..|inputs| - 1]) && Expected(Run(inputs[..|inputs| - 1]).buffer, inputs[|inputs| - 1]))
  }

  ghost predicate Refines(s: State) {
    && s.upserts.Keys !! s.deletes
    && (s.buffer.None? ==> Patched(s.client, s.upserts, s.deletes) == s.direct)
    && (s.buffer.Some? ==> s.upserts == map[] && s.deletes == {})
  }

  lemma PatchedUpsert(t: Table, upserts: Table, deletes: set<string>, row: PodRow)
    ensures Patched(t, upserts[row.key := row], deletes - {row.key}) == Patched(t, upserts, deletes)[row.key := row]
  {
  }

  lemma PatchedDelete(t: Table, upserts: Table, deletes: set<string>, key: string)
    ensures Patched(t, upserts - {key}, deletes + {key}) == Patched(t, upserts, deletes) - {key}
  {
  }

  lemma NothingPending(t: Table)
    ensures Patched(t, map[], {}) == t
  {
  }

  lemma StepRefines(s: State, input: Input)
    requires Refines(s) && Expected(s.buffer, input)
    ensures Refines(Step(s, input))
  {
    hide Patched, SetRows;
    NothingPending(Step(s, input).client);
    match input
    case Watch(Applied(row)) => PatchedUpsert(s.client, s.upserts, s.deletes, row);
    case Watch(Deleted(key)) => PatchedDelete(s.client, s.upserts, s.deletes, key);
    case _ =>
  }

  /** Refinement: outside a relist the client's table with the pending batch is
      the table of applying each event directly; during one nothing is pending. */
  lemma {:induction false} ClientRefinesDirect(inputs: seq<Input>)
    requires WellFormed(inputs)
    ensures Refines(Run(inputs))
  {
    if inputs != [] {
      var n := |inputs| - 1;
      ClientRefinesDirect(inputs[..n]);
      StepRefines(Run(inputs[..n]), inputs[n]);
    }
  }

  /** How much of a run the client shows: all of it up to the last snapshot or
      the last tick outside a relist. */
  function Shown(inputs: seq<Input>): nat {
    if inputs == [] then 0
    else
      var n := |inputs| - 1;
      if inputs[n] == Watch(InitDone) || (inputs[n].Tick? && Run(inputs[..n]).buffer.None?) then |inputs|
      else Shown(inputs[..n])
  }

  lemma StepShows(s: State, input: Input)
    requires Refines(s) && Expected(s.buffer, input)
    ensures Step(s, input).client ==
      if input == Watch(InitDone) || (input.Tick? && s.buffer.None?) then Step(s, input).direct else s.client
  {
    hide SetRows;
    if input.Tick? {
      NothingPending(s.client);
    }
    hide Patched;
  }

  /** The client is never a mixture: at every moment, relists included, its table
      is the one that applying each event directly gave at some earlier moment,
      and that moment never moves back. */
  lemma {:induction false} ClientShowsAMoment(inputs: seq<Input>)
    requires WellFormed(inputs)
    ensures Shown(inputs) <= |inputs| && Run(inputs).client == Run(inputs[..Shown(inputs)]).direct
    ensures inputs != [] ==> Shown(inputs[..|inputs| - 1]) <= Shown(inputs)
  {
    if inputs != [] {
      var n := |inputs| - 1;
      ClientShowsAMoment(inputs[..n]);
      ClientRefinesDirect(inputs[..n]);
      StepShows(Run(inputs[..n]), inputs[n]);
      assert Run(inputs) == Step(Run(inputs[..n]), inputs[n]);
      hide Step, Refines, Run;
      assert inputs[..|inputs|] == inputs;
      assert inputs[..n][..Shown(inputs[..n])] == inputs[..Shown(inputs[..n])];
    }
  }

  function Events(inputs: seq<Input>): seq<WatchEvent> {
    if inputs == [] then []
    else
      var rest, last := Events(inputs[..|inputs| - 1]), inputs[|inputs| - 1];
      if last.Tick? then rest else rest + [last.event]
  }

  lemma StepDirect(s: State, u: State, input: Input)
    requires s.direct == u.direct && s.buffer == u.buffer
    ensures Step(s, input).direct == Step(u, input).direct && Step(s, input).buffer == Step(u, input).buffer
    ensures input.Tick? ==> Step(s, input).direct == s.direct && Step(s, input).buffer == s.buffer
  {
    hide SetRows, Patched;
    match input {
      case Tick =>
      case Watch(event) =>
        match event {
          case Init | InitDone | Failed(_) =>
          case InitApply(_) =>
          case Applied(_) | Deleted(_) =>
        }
    }
  }

  /** The direct table and the relist buffer do not depend on the ticks. */
  lemma {:induction false} TicksDoNotMatter(a: seq<Input>, b: seq<Input>)
    requires Events(a) == Events(b)
    ensures Run(a).direct == Run(b).direct && Run(a).buffer == Run(b).buffer
    decreases |a| + |b|
  {
    hide Step;
    if a != [] && a[|a| - 1].Tick? {
      TicksDoNotMatter(a[..|a| - 1], b);
      StepDirect(Run(a[..|a| - 1]), Run(b), Tick);
    } else if b != [] && b[|b| - 1].Tick? {
      TicksDoNotMatter(a, b[..|b| - 1]);
      StepDirect(Run(b[..|b| - 1]), Run(a), Tick);
    } else if a != [] && b != [] {
      var ea, eb := Events(a[..|a| - 1]), Events(b[..|b| - 1]);
      assert Events(a)[..|Events(a)| - 1] == ea && Events(b)[..|Events(b)| - 1] == eb;
      TicksDoNotMatter(a[..|a| - 1], b[..|b| - 1]);
      StepDirect(Run(a[..|a| - 1]), Run(b[..|b| - 1]), a[|a| - 1]);
    }
  }

  /** Any two placements of flush ticks show the client the same table once flushed. */
  lemma TickPlacementIsInvisible(a: seq<Input>, b: seq<Input>)
    requires Events(a) == Events(b) && WellFormed(a) && WellFormed(b) && Run(a).buffer.None?
    ensures Run(a + [Tick]).client == Run(b + [Tick]).client == Run(a).direct
  {
    TicksDoNotMatter(a, b);
    ClientRefinesDirect(a);
    ClientRefinesDirect(b);
    assert (a + [Tick])[..|a|] == a && (b + [Tick])[..|b|] == b;
  }

  // ----- what each event shows -----

  /** Input `i` delivers a row for the key during a relist. */
  predicate Delivers(mid: seq<Input>, i: nat, k: string)
    requires i < |mid|
  {
    mid[i].Watch? && mid[i].event.InitApply? && mid[i].event.row.key == k
  }

  /** What may come between the start and the end of a relist. */
  predicate InRelist(input: Input) {
    input.Tick? || input.event.InitApply? || input.event.Failed?
  }

  /** A table holds exactly the keys that were delivered, each with the row that
      was delivered last. */
  ghost predicate HoldsLast(t: Table, mid: seq<Input>, k: string) {
    && (k in t <==> exists i :: 0 <= i < |mid| && Delivers(mid, i, k))
    && forall i :: 0 <= i < |mid| && Delivers(mid, i, k) && (forall j :: i < j < |mid| ==> !Delivers(mid, j, k)) ==>
      k in t && t[k] == mid[i].event.row
  }

  lemma HoldsLastNext(t: Table, mid: seq<Input>, input: Input, k: string)
    requires HoldsLast(t, mid, k)
    ensures HoldsLast(if input.Watch? && input.event.InitApply? then t[input.event.row.key := input.event.row] else t,
                      mid + [input], k)
  {
    var more := mid + [input];
    assert forall i :: 0 <= i < |mid| ==> Delivers(more, i, k) == Delivers(mid, i, k);
    if input.Watch? && input.event.InitApply? && input.event.row.key == k {
      assert Delivers(more, |mid|, k);
    }
  }

  lemma SetRowsNext(t: Table, rows: seq<PodRow>, row: PodRow)
    ensures SetRows(t, rows + [row]) == SetRows(t, rows)[row.key := row]
  {
    assert (rows + [row])[..|rows|] == rows;
  }

  lemma RunNext(inputs: seq<Input>, input: Input)
    ensures Run(inputs + [input]) == Step(Run(inputs), input)
  {
    assert (inputs + [input])[..|inputs|] == inputs;
    hide Step;
  }

  lemma RelistStep(s: State, mid: seq<Input>, input: Input, k: string)
    requires s.buffer.Some? && InRelist(input) && HoldsLast(SetRows(map[], s.buffer.value), mid, k)
    ensures var t := Step(s, input); t.buffer.Some? && HoldsLast(SetRows(map[], t.buffer.value), mid + [input], k)
  {
    hide HoldsLast, SetRows;
    if input.Watch? && input.event.InitApply? {
      SetRowsNext(map[], s.buffer.value, input.event.row);
    }
    HoldsLastNext(SetRows(map[], s.buffer.value), mid, input, k);
  }

  lemma RelistStarts(inputs: seq<Input>, k: string)
    ensures var s := Run(inputs + [Watch(Init)]); s.buffer == Some([]) && HoldsLast(SetRows(map[], []), [], k)
  {
    RunNext(inputs, Watch(Init));
  }

  lemma {:induction false} BufferHoldsRelist(inputs: seq<Input>, mid: seq<Input>, k: string)
    requires forall i :: 0 <= i < |mid| ==> InRelist(mid[i])
    ensures var s := Run(inputs + [Watch(Init)] + mid);
      s.buffer.Some? && HoldsLast(SetRows(map[], s.buffer.value), mid, k)
  {
    hide HoldsLast, SetRows, Step, Run;
    var start := inputs + [Watch(Init)];
    if mid == [] {
      RelistStarts(inputs, k);
      assert start + [] == start;
    } else {
      var n := |mid| - 1;
      BufferHoldsRelist(inputs, mid[..n], k);
      RelistStep(Run(start + mid[..n]), mid[..n], mid[n], k);
      assert mid[..n] + [mid[n]] == mid;
      Associative(start, mid[..n], [mid[n]]);
      RunNext(start + mid[..n], mid[n]);
    }
  }

  /** After a relist, whatever came before it and wherever ticks and failures fall
      in it, the client shows exactly the keys that were delivered, each with the
      row delivered last. */
  lemma RelistShows(inputs: seq<Input>, mid: seq<Input>, k: string)
    requires forall i :: 0 <= i < |mid| ==> InRelist(mid[i])
    ensures Run(inputs + [Watch(Init)] + mid + [Watch(InitDone)]).buffer == None
    ensures var t := Run(inputs + [Watch(Init)] + mid + [Watch(InitDone)]).client;
      && (k in t <==> exists i :: 0 <= i < |mid| && Delivers(mid, i, k))
      && forall i :: 0 <= i < |mid| && Delivers(mid, i, k) && (forall j :: i < j < |mid| ==> !Delivers(mid, j, k)) ==>
        t[k] == mid[i].event.row
  {
    var before := inputs + [Watch(Init)] + mid;
    BufferHoldsRelist(inputs, mid, k);
    RunNext(before, Watch(InitDone));
    assert HoldsLast(Run(before + [Watch(InitDone)]).client, mid, k);
  }

  /** What may come outside a relist. */
  predicate IsChange(input: Input) {
    input.Tick? || input.event.Applied? || input.event.Deleted? || input.event.Failed?
  }

  lemma WellFormedNext(inputs: seq<Input>, input: Input)
    ensures WellFormed(inputs + [input]) <==> WellFormed(inputs) && Expected(Run(inputs).buffer, input)
  {
    assert (inputs + [input])[..|inputs|] == inputs;
    hide Run, Expected;
  }

  lemma {:induction false} RelistIsExpected(inputs: seq<Input>, mid: seq<Input>)
    requires WellFormed(inputs) && forall i :: 0 <= i < |mid| ==> InRelist(mid[i])
    ensures WellFormed(inputs + [Watch(Init)] + mid) && Run(inputs + [Watch(Init)] + mid).buffer.Some?
  {
    hide Run, WellFormed;
    var start := inputs + [Watch(Init)];
    if mid == [] {
      RunNext(inputs, Watch(Init));
      WellFormedNext(inputs, Watch(Init));
      assert start + [] == start;
    } else {
      var n := |mid| - 1;
      RelistIsExpected(inputs, mid[..n]);
      assert mid[..n] + [mid[n]] == mid;
      Associative(start, mid[..n], [mid[n]]);
      RunNext(start + mid[..n], mid[n]);
      WellFormedNext(start + mid[..n], mid[n]);
    }
  }

  lemma {:induction false} ChangesAreExpected(inputs: seq<Input>, changes: seq<Input>)
    requires WellFormed(inputs) && Run(inputs).buffer.None?
    requires forall i :: 0 <= i < |changes| ==> IsChange(changes[i])
    ensures WellFormed(inputs + changes) && Run(inputs + changes).buffer.None?
  {
    hide Run, WellFormed;
    if changes == [] {
      assert inputs + [] == inputs;
    } else {
      var n := |changes| - 1;
      ChangesAreExpected(inputs, changes[..n]);
      assert changes[..n] + [changes[n]] == changes;
      Associative(inputs, changes[..n], [changes[n]]);
      RunNext(inputs + changes[..n], changes[n]);
      WellFormedNext(inputs + changes[..n], changes[n]);
    }
  }

  /** Every stream a watcher delivers is well-formed: a relist, then changes, and
      again, with ticks and failures anywhere. */
  lemma WatcherStreamsAreWellFormed(inputs: seq<Input>, mid: seq<Input>, changes: seq<Input>)
    requires WellFormed(inputs)
    requires forall i :: 0 <= i < |mid| ==> mid[i].Tick? || mid[i].event.InitApply? || mid[i].event.Failed?
    requires forall i :: 0 <= i < |changes| ==>
      changes[i].Tick? || changes[i].event.Applied? || changes[i].event.Deleted? || changes[i].event.Failed?
    ensures WellFormed([]) && WellFormed(inputs + [Watch(Init)] + mid + [Watch(InitDone)] + changes)
  {
    var before := inputs + [Watch(Init)] + mid;
    RelistIsExpected(inputs, mid);
    WellFormedNext(before, Watch(InitDone));
    RunNext(before, Watch(InitDone));
    assert WellFormed([]);
    hide Run, WellFormed;
    ChangesAreExpected(before + [Watch(InitDone)], changes);
  }

  /** A change shows with the next tick, and changes no other row; a failure
      changes nothing. */
  lemma ChangesShow(inputs: seq<Input>, row: PodRow, key: string, message: string)
    ensures Run(inputs + [Watch(Applied(row))] + [Tick]).client == Run(inputs + [Tick]).client[row.key := row]
    ensures Run(inputs + [Watch(Deleted(key))] + [Tick]).client == Run(inputs + [Tick]).client - {key}
    ensures Run(inputs + [Watch(Failed(message))] + [Tick]).client == Run(inputs + [Tick]).client
  {
    var s := Run(inputs);
    TwoMore(inputs, Watch(Applied(row)));
    TwoMore(inputs, Watch(Deleted(key)));
    TwoMore(inputs, Watch(Failed(message)));
    PatchedUpsert(s.client, s.upserts, s.deletes, row);
    PatchedDelete(s.client, s.upserts, s.deletes, key);
    hide Run, Patched;
  }

  lemma TwoMore(inputs: seq<Input>, input: Input)
    ensures Run(inputs + [Tick]) == Step(Run(inputs), Tick)
    ensures Run(inputs + [input] + [Tick]) == Step(Step(Run(inputs), input), Tick)
  {
    RunNext(inputs, Tick);
    RunNext(inputs, input);
    RunNext(inputs + [input], Tick);
  }

  lemma {:induction false} SetRowsKeys(t: Table, rows: seq<PodRow>)
    ensures SetRows(t, rows).Keys == t.Keys + set r | r in rows :: r.key
  {
    if rows != [] {
      var n := |rows| - 1;
      SetRowsKeys(t, rows[..n]);
      assert rows == rows[..n] + [rows[n]];
    }
  }

  /** The watcher's order is needed: a change inside a relist shows afterwards or
      not depending on where the tick falls, because the snapshot keeps the batch. */
  lemma ChangeDuringRelistDependsOnTicks(s: State, row: PodRow)
    requires s.buffer.Some? && forall r :: r in s.buffer.value ==> r.key != row.key
    ensures var changed := Step(s, Watch(Applied(row)));
      && row.key !in Step(Step(Step(changed, Tick), Watch(InitDone)), Tick).client
      && row.key in Step(Step(changed, Watch(InitDone)), Tick).client
  {
    SetRowsKeys(map[], s.buffer.value);
  }
}
