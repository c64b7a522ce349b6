/** The desktop app's session map: each tab's handle holds the stop senders of
    its streams, while streams prune their own entries whenever they end. */
module StreamRegistry {
  import opened Options

  const U32 := 0x1_0000_0000

  /** The 32-bit id counters wrap. */
  function After(id: nat): nat {
    if id + 1 == U32 then 0 else id + 1
  }

  datatype Kind = Pods | Logs | Tables

  /** Where a handle keeps a stop sender: the one pod watch, or the id's entry
      of the log or table map. */
  datatype Slot = Slot(kind: Kind, id: nat)

  const POD_SLOT := Slot(Pods, 0)

  datatype Phase = Running | Ended | Pruned

  /** A spawned stream. It is signalled once its stop sender was used or dropped:
      either wakes it. */
  datatype Stream = Stream(tab: nat, slot: Slot, signalled: bool, phase: Phase)

  /** A handle's senders, each standing for the stream it belongs to. */
  type Handle = map<Slot, int>

  datatype State = State(sessions: map<nat, Handle>, nextLog: nat, nextTable: nat, streams: seq<Stream>)

  datatype Command =
    | Open(tab: nat)
    | Close(tab: nat)
    | WatchPods(tab: nat)
    | StreamLogs(tab: nat)
    | WatchTable(tab: nat)
    | StopLogs(tab: nat, id: nat)
    | StopTable(tab: nat, id: nat)
    | Finish(stream: nat)
    | Prune(stream: nat)

  function Signal(streams: seq<Stream>, who: set<int>): (r: seq<Stream>)
    ensures |r| == |streams|
    ensures forall i :: 0 <= i < |r| ==> r[i] == if i in who then streams[i].(signalled := true) else streams[i]
  {
    seq(|streams|, i requires 0 <= i < |streams| => if i in who then streams[i].(signalled := true) else streams[i])
  }

  lemma NobodySignalled(streams: seq<Stream>)
    ensures Signal(streams, {}) == streams
  {
  }

  function Entry(s: State, tab: nat, slot: Slot): Option<int> {
    if tab in s.sessions && slot in s.sessions[tab] then Some(s.sessions[tab][slot]) else None
  }

  /** The stream whose sender sits in a slot, if any. */
  function Holder(s: State, tab: nat, slot: Slot): set<int> {
    if Entry(s, tab, slot).Some? then {Entry(s, tab, slot).value} else {}
  }

  /** Takes a slot out of a tab's handle; its sender is used or dropped. */
  function Vacate(s: State, tab: nat, slot: Slot): State {
    if tab !in s.sessions then s
    else s.(sessions := s.sessions[tab := s.sessions[tab] - {slot}], streams := Signal(s.streams, Holder(s, tab, slot)))
  }

  /** Puts a new stream into a slot; a sender that was there is used or dropped. */
  function Occupy(s: State, tab: nat, slot: Slot): State
    requires tab in s.sessions
  {
    s.(sessions := s.sessions[tab := s.sessions[tab][slot := |s.streams|]],
       streams := Signal(s.streams, Holder(s, tab, slot)) + [Stream(tab, slot, false, Running)])
  }

  function Step(s: State, c: Command): State {
    match c
    case Open(tab) =>
      s.(sessions := s.sessions[tab := map[]],
         streams := Signal(s.streams, if tab in s.sessions then s.sessions[tab].Values else {}))
    case Close(tab) =>
      if tab !in s.sessions then s
      else s.(sessions := s.sessions - {tab}, streams := Signal(s.streams, s.sessions[tab].Values))
    case WatchPods(tab) => if tab in s.sessions then Occupy(s, tab, POD_SLOT) else s
    case StreamLogs(tab) =>
      if tab in s.sessions then Occupy(s, tab, Slot(Logs, s.nextLog)).(nextLog := After(s.nextLog)) else s
    case WatchTable(tab) =>
      if tab in s.sessions then Occupy(s, tab, Slot(Tables, s.nextTable)).(nextTable := After(s.nextTable)) else s
    case StopLogs(tab, id) => Vacate(s, tab, Slot(Logs, id))
    case StopTable(tab, id) => Vacate(s, tab, Slot(Tables, id))
    case Finish(i) =>
      if i < |s.streams| && s.streams[i].phase == Running
      then s.(streams := s.streams[i := s.streams[i].(phase := Ended)]) else s
    case Prune(i) =>
      if i < |s.streams| && s.streams[i].phase == Ended then
        var st := s.streams[i];
        var t := s.(streams := s.streams[i := st.(phase := Pruned)]);
        if st.slot.kind == Pods then t else Vacate(t, st.tab, st.slot)
      else s
  }

  const EMPTY := State(map[], 0, 0, [])

  // ----- the invariant -----

  predicate Registered(s: State, i: nat)
    requires i < |s.streams|
  {
    Entry(s, s.streams[i].tab, s.streams[i].slot) == Some(i)
  }

  /** Log and table streams prune themselves; until then their id is live. */
  predicate Live(st: Stream) {
    st.slot.kind != Pods && st.phase != Pruned
  }

  /** An entry leads to a stream of its own tab and slot that has not pruned itself. */
  ghost predicate EntriesMatch(s: State) {
    forall tab, slot :: Entry(s, tab, slot).Some? ==> EntryMatches(s, tab, slot, Entry(s, tab, slot).value)
  }

  predicate EntryMatches(s: State, tab: nat, slot: Slot, i: int) {
    && 0 <= i < |s.streams| && s.streams[i].tab == tab && s.streams[i].slot == slot
    && (slot.kind == Pods || Live(s.streams[i]))
  }

  ghost predicate RegisteredOrSignalled(s: State) {
    forall i :: 0 <= i < |s.streams| && !s.streams[i].signalled ==> Registered(s, i)
  }

  /** A log or table id sits in at most one tab's handle. */
  ghost predicate OneHandle(s: State) {
    forall a, b, slot: Slot :: slot.kind != Pods && Entry(s, a, slot).Some? && Entry(s, b, slot).Some? ==> a == b
  }

  /** Two live streams with the same kind and id belong to different tabs. */
  ghost predicate OwnersDiffer(s: State) {
    forall i, j :: 0 <= i < j < |s.streams| ==> !SameOwner(s.streams[i], s.streams[j])
  }

  predicate SameOwner(a: Stream, b: Stream) {
    Live(a) && Live(b) && a.slot == b.slot && a.tab == b.tab
  }

  ghost predicate Inv(s: State) {
    EntriesMatch(s) && OwnersDiffer(s) && OneHandle(s)
  }

  /** The entry that the stream would remove is its own, or there is none. */
  predicate PrunesOnlyItself(s: State, i: nat)
    requires i < |s.streams|
  {
    Holder(s, s.streams[i].tab, s.streams[i].slot) <= {i}
  }

  /** What the registry promises: a log or table id sits in at most one tab's
      handle, a stream that prunes itself takes its own entry or nothing, and
      every stream is registered in its tab's current handle or was signalled. */
  ghost predicate Safe(s: State) {
    && OneHandle(s)
    && (forall i :: 0 <= i < |s.streams| && Live(s.streams[i]) ==> PrunesOnlyItself(s, i))
    && RegisteredOrSignalled(s)
  }

  /** The slot a command gives to a new log or table stream. */
  function Allocated(s: State, c: Command): Option<Slot> {
    match c
    case StreamLogs(tab) => if tab in s.sessions then Some(Slot(Logs, s.nextLog)) else None
    case WatchTable(tab) => if tab in s.sessions then Some(Slot(Tables, s.nextTable)) else None
    case _ => None
  }

  /** A live stream that has the slot belongs to another tab and has lost its entry. */
  ghost predicate SlotIsFree(s: State, tab: nat, slot: Slot) {
    forall i :: 0 <= i < |s.streams| && Live(s.streams[i]) && s.streams[i].slot == slot ==>
      s.streams[i].tab != tab && !Registered(s, i)
  }

  ghost predicate Harmless(s: State, c: Command) {
    Allocated(s, c).Some? ==> SlotIsFree(s, c.tab, Allocated(s, c).value)
  }

  lemma VacateEffect(s: State, tab: nat, slot: Slot)
    ensures var t := Vacate(s, tab, slot);
      && (forall u, l :: Entry(t, u, l) == if u == tab && l == slot then None else Entry(s, u, l))
      && t.nextLog == s.nextLog && t.nextTable == s.nextTable && |t.streams| == |s.streams|
      && t.streams == Signal(s.streams, Holder(s, tab, slot))
  {
  }

  lemma OccupyEffect(s: State, tab: nat, slot: Slot)
    requires tab in s.sessions
    ensures var t := Occupy(s, tab, slot);
      && (forall u, l :: Entry(t, u, l) == if u == tab && l == slot then Some(|s.streams|) else Entry(s, u, l))
      && |t.streams| == |s.streams| + 1 && t.streams[|s.streams|] == Stream(tab, slot, false, Running)
      && forall i :: 0 <= i < |s.streams| ==>
        t.streams[i] == if i in Holder(s, tab, slot) then s.streams[i].(signalled := true) else s.streams[i]
  {
  }

  /** Only the entries and the streams decide the properties, not the counters. */
  ghost predicate SameRegistry(s: State, t: State) {
    t.sessions == s.sessions && t.streams == s.streams
  }

  lemma CountersDoNotMatter(s: State, t: State)
    requires SameRegistry(s, t)
    ensures Inv(t) <==> Inv(s)
    ensures RegisteredOrSignalled(t) <==> RegisteredOrSignalled(s)
  {
    assert forall v, l :: Entry(t, v, l) == Entry(s, v, l);
    assert forall i :: 0 <= i < |s.streams| ==> (Registered(t, i) <==> Registered(s, i));
  }

  // ----- what each command does -----

  /** Signalled are exactly the streams in `who`; nothing else about the streams
      changes. */
  ghost predicate OnlySignals(s: State, t: State, who: set<int>) {
    && |t.streams| == |s.streams|
    && forall i :: 0 <= i < |s.streams| ==>
      t.streams[i] == if i in who then s.streams[i].(signalled := true) else s.streams[i]
  }

  ghost predicate SameCounters(s: State, t: State) {
    t.nextLog == s.nextLog && t.nextTable == s.nextTable
  }

  /** Stopping a stream takes its entry out of the tab's handle and signals the
      stream that held it, and no other. */
  lemma StopEffect(s: State, tab: nat, id: nat, kind: Kind)
    requires kind == Logs || kind == Tables
    ensures var slot := Slot(kind, id);
      var t := Step(s, if kind == Logs then StopLogs(tab, id) else StopTable(tab, id));
      && Entry(t, tab, slot) == None
      && (forall u, l :: u != tab || l != slot ==> Entry(t, u, l) == Entry(s, u, l))
      && OnlySignals(s, t, if Entry(s, tab, slot).Some? then {Entry(s, tab, slot).value} else {})
      && SameCounters(s, t) && t.sessions.Keys == s.sessions.Keys
  {
    var slot := Slot(kind, id);
    assert Step(s, if kind == Logs then StopLogs(tab, id) else StopTable(tab, id)) == Vacate(s, tab, slot);
    hide Step;
    VacateEffect(s, tab, slot);
    VacateKeepsTabs(s, tab, slot);
    hide Vacate, Entry, Signal;
  }

  lemma VacateKeepsTabs(s: State, tab: nat, slot: Slot)
    ensures Vacate(s, tab, slot).sessions.Keys == s.sessions.Keys
  {
  }

  /** The streams that a tab's handle holds. */
  ghost predicate HeldBy(s: State, tab: nat, i: int) {
    exists slot :: Entry(s, tab, slot) == Some(i)
  }

  lemma HandleHolds(s: State, tab: nat, i: int)
    requires tab in s.sessions
    ensures i in s.sessions[tab].Values <==> HeldBy(s, tab, i)
  {
    if i in s.sessions[tab].Values {
      var slot :| slot in s.sessions[tab] && s.sessions[tab][slot] == i;
      assert Entry(s, tab, slot) == Some(i);
    }
  }

  /** Opening a session gives the tab an empty handle, and closing one takes it
      away; either signals exactly the streams of the handle that was there. */
  lemma OpenAndCloseEffect(s: State, tab: nat, opens: bool)
    ensures var t := Step(s, if opens then Open(tab) else Close(tab));
      && t.sessions.Keys == (if opens then s.sessions.Keys + {tab} else s.sessions.Keys - {tab})
      && (forall u, l :: Entry(t, u, l) == if u == tab then None else Entry(s, u, l))
      && |t.streams| == |s.streams|
      && (forall i :: 0 <= i < |s.streams| ==>
           t.streams[i] == if HeldBy(s, tab, i) then s.streams[i].(signalled := true) else s.streams[i])
      && SameCounters(s, t)
  {
    var t := Step(s, if opens then Open(tab) else Close(tab));
    if opens || tab in s.sessions {
      DropEffect(s, tab, t);
    }
    forall i | 0 <= i < |s.streams|
      ensures |t.streams| == |s.streams|
      ensures t.streams[i] == if HeldBy(s, tab, i) then s.streams[i].(signalled := true) else s.streams[i]
    {
      if tab in s.sessions {
        HandleHolds(s, tab, i);
      }
    }
  }

  /** With a session, a start puts a new running stream of the tab into its slot
      and signals the stream it takes the slot from; ids count up and wrap at
      2^32. Without one, nothing happens. */
  lemma StartEffect(s: State, c: Command, slot: Slot)
    requires
      || (c.WatchPods? && slot == POD_SLOT)
      || (c.StreamLogs? && slot == Slot(Logs, s.nextLog))
      || (c.WatchTable? && slot == Slot(Tables, s.nextTable))
    ensures var t, n := Step(s, c), |s.streams|;
      if c.tab !in s.sessions then t == s else
        && (forall u, l :: Entry(t, u, l) == if u == c.tab && l == slot then Some(n) else Entry(s, u, l))
        && |t.streams| == n + 1 && t.streams[n] == Stream(c.tab, slot, false, Running)
        && (forall i :: 0 <= i < n ==>
             t.streams[i] ==
             if Entry(s, c.tab, slot) == Some(i) then s.streams[i].(signalled := true) else s.streams[i])
        && t.nextLog ==
           (if !c.StreamLogs? then s.nextLog else if s.nextLog == 0xFFFF_FFFF then 0 else s.nextLog + 1)
        && t.nextTable ==
           (if !c.WatchTable? then s.nextTable else if s.nextTable == 0xFFFF_FFFF then 0 else s.nextTable + 1)
  {
    if c.tab in s.sessions {
      OccupyEffect(s, c.tab, slot);
      OccupyCounters(s, c.tab, slot);
      var t, u := Step(s, c), Occupy(s, c.tab, slot);
      assert t.sessions == u.sessions && t.streams == u.streams;
      assert forall v, l :: Entry(t, v, l) == Entry(u, v, l);
      hide Occupy, Entry;
    }
  }

  /** A stream that ends keeps its entry for the time being. */
  lemma FinishEffect(s: State, i: nat)
    requires i < |s.streams|
    ensures var t := Step(s, Finish(i));
      && t.sessions == s.sessions && SameCounters(s, t)
      && t.streams == if s.streams[i].phase == Running then s.streams[i := s.streams[i].(phase := Ended)] else s.streams
  {
  }

  /** Then it prunes itself: it removes what sits under its own id in its tab's
      handle. Pod watches never do. */
  lemma PruneEffect(s: State, i: nat)
    requires i < |s.streams| && s.streams[i].phase == Ended
    ensures var t, st := Step(s, Prune(i)), s.streams[i];
      && SameCounters(s, t) && |t.streams| == |s.streams| && t.streams[i].phase == Pruned
      && (forall u, l :: Entry(t, u, l) ==
           if st.slot.kind != Pods && u == st.tab && l == st.slot then None else Entry(s, u, l))
  {
    var st := s.streams[i];
    var mid := s.(streams := s.streams[i := st.(phase := Pruned)]);
    assert forall u, l :: Entry(mid, u, l) == Entry(s, u, l);
    assert Step(s, Prune(i)) == if st.slot.kind == Pods then mid else Vacate(mid, st.tab, st.slot);
    hide Step;
    VacateEffect(mid, st.tab, st.slot);
    hide Vacate, Entry, Signal;
  }

  // ----- registered or signalled, whatever the ids -----

  lemma VacateRegisters(s: State, tab: nat, slot: Slot)
    requires RegisteredOrSignalled(s)
    ensures RegisteredOrSignalled(Vacate(s, tab, slot))
  {
    VacateEffect(s, tab, slot);
    hide Vacate, Entry;
    var t := Vacate(s, tab, slot);
    forall i | 0 <= i < |t.streams| && !t.streams[i].signalled ensures Registered(t, i) {
      assert Registered(s, i);
    }
  }

  lemma OccupyRegisters(s: State, tab: nat, slot: Slot)
    requires RegisteredOrSignalled(s) && tab in s.sessions
    ensures RegisteredOrSignalled(Occupy(s, tab, slot))
  {
    OccupyEffect(s, tab, slot);
    hide Occupy, Entry, Signal;
    var t := Occupy(s, tab, slot);
    forall i | 0 <= i < |t.streams| && !t.streams[i].signalled ensures Registered(t, i) {
      if i < |s.streams| {
        assert Registered(s, i) && i !in Holder(s, tab, slot);
      }
    }
  }

  /** A handle that is dropped or replaced by an empty one takes its entries along. */
  lemma DropEffect(s: State, tab: nat, t: State)
    requires t.sessions == s.sessions - {tab} || t.sessions == s.sessions[tab := map[]]
    ensures forall u, l :: Entry(t, u, l) == if u == tab then None else Entry(s, u, l)
  {
  }

  lemma DropRegisters(s: State, tab: nat, t: State)
    requires RegisteredOrSignalled(s)
    requires t.sessions == s.sessions - {tab} || t.sessions == s.sessions[tab := map[]]
    requires t.streams == Signal(s.streams, if tab in s.sessions then s.sessions[tab].Values else {})
    ensures RegisteredOrSignalled(t)
  {
    DropEffect(s, tab, t);
    forall i | 0 <= i < |s.streams| && Registered(s, i) && s.streams[i].tab == tab
      ensures t.streams[i].signalled
    {
      assert s.sessions[tab][s.streams[i].slot] in s.sessions[tab].Values;
    }
    forall i | 0 <= i < |t.streams| && !t.streams[i].signalled ensures Registered(t, i) {
      assert Registered(s, i);
    }
  }

  lemma PhaseRegisters(s: State, i: nat, phase: Phase)
    requires RegisteredOrSignalled(s) && i < |s.streams|
    ensures RegisteredOrSignalled(s.(streams := s.streams[i := s.streams[i].(phase := phase)]))
  {
    var t := s.(streams := s.streams[i := s.streams[i].(phase := phase)]);
    forall j | 0 <= j < |t.streams| && !t.streams[j].signalled ensures Registered(t, j) {
      assert Registered(s, j);
    }
  }

  lemma StepRegisters(s: State, c: Command)
    requires RegisteredOrSignalled(s)
    ensures RegisteredOrSignalled(Step(s, c))
  {
    hide RegisteredOrSignalled, Vacate, Occupy, Signal;
    match c
    case Open(tab) => DropRegisters(s, tab, Step(s, c));
    case Close(tab) => if tab in s.sessions { DropRegisters(s, tab, Step(s, c)); }
    case WatchPods(tab) => if tab in s.sessions { OccupyRegisters(s, tab, POD_SLOT); }
    case StreamLogs(tab) => if tab in s.sessions { StartRegisters(s, c); }
    case WatchTable(tab) => if tab in s.sessions { StartRegisters(s, c); }
    case StopLogs(tab, id) => VacateRegisters(s, tab, Slot(Logs, id));
    case StopTable(tab, id) => VacateRegisters(s, tab, Slot(Tables, id));
    case Finish(i) => if i < |s.streams| && s.streams[i].phase == Running { PhaseRegisters(s, i, Ended); }
    case Prune(i) =>
      if i < |s.streams| && s.streams[i].phase == Ended {
        PhaseRegisters(s, i, Pruned);
        var mid := s.(streams := s.streams[i := s.streams[i].(phase := Pruned)]);
        VacateRegisters(mid, s.streams[i].tab, s.streams[i].slot);
      }
  }

  lemma StartRegisters(s: State, c: Command)
    requires RegisteredOrSignalled(s) && Allocated(s, c).Some?
    ensures RegisteredOrSignalled(Step(s, c))
  {
    OccupyRegisters(s, c.tab, Allocated(s, c).value);
    CountersDoNotMatter(Occupy(s, c.tab, Allocated(s, c).value), Step(s, c));
    hide RegisteredOrSignalled, Occupy;
  }

  // ----- entries and their owners -----

  lemma VacateKeepsInv(s: State, tab: nat, slot: Slot)
    requires Inv(s)
    ensures Inv(Vacate(s, tab, slot))
  {
    VacateEffect(s, tab, slot);
    hide Vacate, Entry;
  }

  lemma OccupyKeepsInv(s: State, tab: nat, slot: Slot)
    requires Inv(s) && tab in s.sessions
    requires slot.kind == Pods || SlotIsFree(s, tab, slot)
    ensures Inv(Occupy(s, tab, slot))
  {
    OccupyEffect(s, tab, slot);
    hide Occupy, Entry;
    OccupyMatches(s, tab, slot);
    assert OneHandle(Occupy(s, tab, slot)) by {
      if slot.kind != Pods {
        FreeSlotHasNoEntry(s, tab, slot);
      }
    }
  }

  /** An entry would belong to a registered live stream. */
  lemma FreeSlotHasNoEntry(s: State, tab: nat, slot: Slot)
    requires EntriesMatch(s) && slot.kind != Pods && SlotIsFree(s, tab, slot)
    ensures forall u :: Entry(s, u, slot).None?
  {
  }

  lemma OccupyMatches(s: State, tab: nat, slot: Slot)
    requires EntriesMatch(s) && tab in s.sessions
    ensures EntriesMatch(Occupy(s, tab, slot))
  {
    OccupyEffect(s, tab, slot);
    hide Occupy, Entry;
  }

  lemma SignalKeepsOwners(s: State, t: State, who: set<int>)
    requires OwnersDiffer(s) && t.streams == Signal(s.streams, who)
    ensures OwnersDiffer(t)
  {
    forall i, j | 0 <= i < j < |t.streams| ensures !SameOwner(t.streams[i], t.streams[j]) {
      assert !SameOwner(s.streams[i], s.streams[j]);
    }
  }

  lemma DropKeepsInv(s: State, tab: nat, t: State)
    requires Inv(s)
    requires t.sessions == s.sessions - {tab} || t.sessions == s.sessions[tab := map[]]
    requires t.streams == Signal(s.streams, if tab in s.sessions then s.sessions[tab].Values else {})
    ensures Inv(t)
  {
    DropEffect(s, tab, t);
    SignalKeepsOwners(s, t, if tab in s.sessions then s.sessions[tab].Values else {});
    hide Entry, OwnersDiffer;
    assert OneHandle(t);
    hide OneHandle;
    forall u, l | Entry(t, u, l).Some? ensures EntryMatches(t, u, l, Entry(t, u, l).value) {
      assert EntryMatches(s, u, l, Entry(s, u, l).value);
    }
  }

  lemma PhaseKeepsInv(s: State, i: nat, phase: Phase)
    requires Inv(s) && i < |s.streams| && s.streams[i].phase != Pruned
    requires phase == Pruned && s.streams[i].slot.kind != Pods ==> Entry(s, s.streams[i].tab, s.streams[i].slot) == None
    ensures Inv(s.(streams := s.streams[i := s.streams[i].(phase := phase)]))
  {
    var t := s.(streams := s.streams[i := s.streams[i].(phase := phase)]);
    assert forall u, l :: Entry(t, u, l) == Entry(s, u, l);
    hide Entry;
  }

  /** A stream that prunes itself finds its own entry or none. */
  lemma PruneTakesOwnEntry(s: State, i: nat)
    requires Inv(s) && i < |s.streams| && Live(s.streams[i])
    ensures PrunesOnlyItself(s, i)
  {
    var st := s.streams[i];
    if Entry(s, st.tab, st.slot).Some? {
      assert EntryMatches(s, st.tab, st.slot, Entry(s, st.tab, st.slot).value);
    }
  }

  /** Marking the stream and taking its entry can be done in either order. */
  lemma PruneSteps(s: State, i: nat)
    requires i < |s.streams| && s.streams[i].phase == Ended && s.streams[i].slot.kind != Pods
    ensures var st := s.streams[i]; var u := Vacate(s, st.tab, st.slot);
      |u.streams| == |s.streams| && Step(s, Prune(i)) == u.(streams := u.streams[i := u.streams[i].(phase := Pruned)])
  {
    var st := s.streams[i];
    var mid := s.(streams := s.streams[i := st.(phase := Pruned)]);
    assert Holder(mid, st.tab, st.slot) == Holder(s, st.tab, st.slot);
    assert Step(s, Prune(i)) == Vacate(mid, st.tab, st.slot);
    var u := Vacate(s, st.tab, st.slot);
    assert Vacate(mid, st.tab, st.slot).streams == u.streams[i := u.streams[i].(phase := Pruned)];
  }

  lemma PruneKeepsInv(s: State, i: nat)
    requires Inv(s) && i < |s.streams| && s.streams[i].phase == Ended && s.streams[i].slot.kind != Pods
    ensures Inv(Step(s, Prune(i)))
  {
    var st := s.streams[i];
    PruneSteps(s, i);
    VacateKeepsInv(s, st.tab, st.slot);
    VacateEffect(s, st.tab, st.slot);
    hide Vacate, Step, Inv;
    PhaseKeepsInv(Vacate(s, st.tab, st.slot), i, Pruned);
  }

  lemma StartKeepsInv(s: State, c: Command)
    requires Inv(s) && Allocated(s, c).Some? && Harmless(s, c)
    ensures Inv(Step(s, c))
  {
    OccupyKeepsInv(s, c.tab, Allocated(s, c).value);
    CountersDoNotMatter(Occupy(s, c.tab, Allocated(s, c).value), Step(s, c));
    hide Inv, Occupy;
  }

  lemma StepKeepsInv(s: State, c: Command)
    requires Inv(s) && Harmless(s, c)
    ensures Inv(Step(s, c))
  {
    hide Inv, Vacate, Occupy, Signal, Harmless;
    match c
    case Open(tab) => DropKeepsInv(s, tab, Step(s, c));
    case Close(tab) => if tab in s.sessions { DropKeepsInv(s, tab, Step(s, c)); }
    case WatchPods(tab) => if tab in s.sessions { OccupyKeepsInv(s, tab, POD_SLOT); }
    case StreamLogs(tab) => if tab in s.sessions { StartKeepsInv(s, c); }
    case WatchTable(tab) => if tab in s.sessions { StartKeepsInv(s, c); }
    case StopLogs(tab, id) => VacateKeepsInv(s, tab, Slot(Logs, id));
    case StopTable(tab, id) => VacateKeepsInv(s, tab, Slot(Tables, id));
    case Finish(i) => if i < |s.streams| && s.streams[i].phase == Running { PhaseKeepsInv(s, i, Ended); }
    case Prune(i) =>
      if i < |s.streams| && s.streams[i].phase == Ended {
        if s.streams[i].slot.kind == Pods { PhaseKeepsInv(s, i, Pruned); } else { PruneKeepsInv(s, i); }
      }
  }

  // ----- what makes a start safe -----

  lemma InvIsSafe(s: State)
    requires Inv(s) && RegisteredOrSignalled(s)
    ensures Safe(s)
  {
    forall i | 0 <= i < |s.streams| && Live(s.streams[i])
      ensures PrunesOnlyItself(s, i)
    {
      PruneTakesOwnEntry(s, i);
    }
  }

  /** A harmful start breaks the promise at once: a live stream of the tab loses
      its entry to the new one, or two handles hold the id. */
  lemma HarmfulStartIsUnsafe(s: State, c: Command)
    requires !Harmless(s, c)
    ensures !Safe(Step(s, c))
  {
    var slot := Allocated(s, c).value;
    var t, u := Step(s, c), Occupy(s, c.tab, slot);
    OccupyEffect(s, c.tab, slot);
    assert SameRegistry(u, t);
    assert forall v, l :: Entry(t, v, l) == Entry(u, v, l);
    var i :| && 0 <= i < |s.streams| && Live(s.streams[i]) && s.streams[i].slot == slot
             && (s.streams[i].tab == c.tab || Registered(s, i));
    hide Step, Occupy, Entry, Harmless;
    var st := s.streams[i];
    assert Live(t.streams[i]) && t.streams[i].tab == st.tab && t.streams[i].slot == slot;
    if st.tab == c.tab {
      assert Holder(t, st.tab, slot) == {|s.streams|};
      assert !PrunesOnlyItself(t, i);
    } else {
      assert Entry(t, st.tab, slot).Some? && Entry(t, c.tab, slot).Some?;
    }
  }

  lemma SafeStepWasHarmless(s: State, c: Command)
    requires Safe(Step(s, c))
    ensures Harmless(s, c)
  {
    hide Safe, Harmless, Step;
    if !Harmless(s, c) {
      HarmfulStartIsUnsafe(s, c);
    }
  }

  /** The condition is exact: starting a stream leaves the registry safe if and
      only if every live stream that has the new id already belongs to another
      tab and has lost its entry. */
  lemma StartIsSafe(s: State, c: Command)
    requires Inv(s) && RegisteredOrSignalled(s) && Allocated(s, c).Some?
    ensures Safe(Step(s, c)) <==> Harmless(s, c)
  {
    hide Inv, Safe, Harmless, RegisteredOrSignalled, Step;
    if Harmless(s, c) {
      StartKeepsInv(s, c);
      StepRegisters(s, c);
      InvIsSafe(Step(s, c));
    } else {
      HarmfulStartIsUnsafe(s, c);
    }
  }

  // ----- runs -----

  ghost predicate StepAt(states: seq<State>, cs: seq<Command>, k: nat)
    requires k < |cs| && |states| == |cs| + 1
  {
    states[k + 1] == Step(states[k], cs[k])
  }

  /** Any interleaving of commands and late prunes, from the start of the app. */
  ghost predicate IsRun(states: seq<State>, cs: seq<Command>) {
    && |states| == |cs| + 1 && states[0] == EMPTY
    && forall k :: 0 <= k < |cs| ==> StepAt(states, cs, k)
  }

  ghost predicate HarmlessAt(states: seq<State>, cs: seq<Command>, k: nat)
    requires k < |cs| && |states| == |cs| + 1
  {
    Harmless(states[k], cs[k])
  }

  /** In every run, wrapped ids or not, every stream is registered in its tab's
      current handle or was signalled: no running stream is out of reach. */
  lemma {:induction false} NoStreamIsOutOfReach(states: seq<State>, cs: seq<Command>, k: nat)
    requires IsRun(states, cs) && k <= |cs|
    ensures RegisteredOrSignalled(states[k])
  {
    hide Step;
    if k > 0 {
      hide RegisteredOrSignalled;
      NoStreamIsOutOfReach(states, cs, k - 1);
      assert StepAt(states, cs, k - 1);
      StepRegisters(states[k - 1], cs[k - 1]);
    }
  }

  lemma {:induction false} HarmlessRunsKeepInv(states: seq<State>, cs: seq<Command>, k: nat)
    requires IsRun(states, cs) && k <= |cs| && forall j :: 0 <= j < k ==> HarmlessAt(states, cs, j)
    ensures Inv(states[k])
  {
    hide Step, Harmless;
    if k > 0 {
      hide Inv;
      HarmlessRunsKeepInv(states, cs, k - 1);
      assert StepAt(states, cs, k - 1) && HarmlessAt(states, cs, k - 1);
      StepKeepsInv(states[k - 1], cs[k - 1]);
    }
  }

  lemma SafeStepWasHarmlessAt(states: seq<State>, cs: seq<Command>, k: nat)
    requires k < |cs| && |states| == |cs| + 1 && StepAt(states, cs, k) && Safe(states[k + 1])
    ensures HarmlessAt(states, cs, k)
  {
    hide Safe, Harmless, Step;
    SafeStepWasHarmless(states[k], cs[k]);
  }

  /** Registry safety, over every interleaving of commands and late prunes: a run
      is safe throughout if and only if each of its starts is harmless. */
  lemma RegistryIsSafe(states: seq<State>, cs: seq<Command>)
    requires IsRun(states, cs)
    ensures (forall k :: 0 <= k <= |cs| ==> Safe(states[k]))
       <==> forall k :: 0 <= k < |cs| ==> HarmlessAt(states, cs, k)
  {
    hide Safe, Inv, Step, HarmlessAt, RegisteredOrSignalled;
    if forall k :: 0 <= k < |cs| ==> HarmlessAt(states, cs, k) {
      forall k | 0 <= k <= |cs| ensures Safe(states[k]) {
        HarmlessRunsKeepInv(states, cs, k);
        NoStreamIsOutOfReach(states, cs, k);
        InvIsSafe(states[k]);
      }
    }
    if forall k :: 0 <= k <= |cs| ==> Safe(states[k]) {
      forall k | 0 <= k < |cs| ensures HarmlessAt(states, cs, k) {
        SafeStepWasHarmlessAt(states, cs, k);
      }
    }
  }

  /** Ids are handed out in order: with fewer than 2^32 of a kind each one is new. */
  ghost predicate Numbered(s: State, n: nat) {
    && s.nextLog <= n && s.nextTable <= n
    && forall i :: 0 <= i < |s.streams| ==> IdBelow(s.streams[i].slot, s.nextLog, s.nextTable)
  }

  predicate IdBelow(slot: Slot, log: nat, table: nat) {
    (slot.kind == Logs ==> slot.id < log) && (slot.kind == Tables ==> slot.id < table)
  }

  lemma {:induction false} RunsNumber(states: seq<State>, cs: seq<Command>, k: nat)
    requires IsRun(states, cs) && k <= |cs| < U32
    ensures Numbered(states[k], k)
  {
    hide Step, Numbered;
    if k > 0 {
      RunsNumber(states, cs, k - 1);
      assert StepAt(states, cs, k - 1);
      StepNumbers(states[k - 1], cs[k - 1], k - 1);
    } else {
      NothingToNumber();
    }
  }

  lemma NothingToNumber()
    ensures Numbered(EMPTY, 0)
  {
  }

  /** In a run of fewer than 2^32 steps a start never takes an id that any stream,
      live or not, has had. */
  lemma ShortRunsAreFresh(states: seq<State>, cs: seq<Command>, k: nat)
    requires IsRun(states, cs) && k < |cs| < U32 && Allocated(states[k], cs[k]).Some?
    ensures forall st :: st in states[k].streams ==> st.slot != Allocated(states[k], cs[k]).value
  {
    RunsNumber(states, cs, k);
    var s := states[k];
    assert forall i :: 0 <= i < |s.streams| ==> IdBelow(s.streams[i].slot, s.nextLog, s.nextTable);
  }

  /** So every such run is safe throughout. */
  lemma ShortRunsAreSafe(states: seq<State>, cs: seq<Command>, k: nat)
    requires IsRun(states, cs) && k <= |cs| < U32
    ensures Safe(states[k])
  {
    hide Safe, Step, Allocated;
    forall j | 0 <= j < |cs| ensures HarmlessAt(states, cs, j) {
      if Allocated(states[j], cs[j]).Some? {
        ShortRunsAreFresh(states, cs, j);
      }
    }
    RegistryIsSafe(states, cs);
  }

  lemma SameSlots(s: State, c: Command)
    requires Allocated(s, c).None? && !c.WatchPods?
    ensures var t := Step(s, c);
      && t.nextLog == s.nextLog && t.nextTable == s.nextTable && |t.streams| == |s.streams|
      && forall i :: 0 <= i < |s.streams| ==> t.streams[i].slot == s.streams[i].slot
  {
  }

  lemma StepNumbers(s: State, c: Command, n: nat)
    requires Numbered(s, n) && n + 1 < U32
    ensures Numbered(Step(s, c), n + 1)
  {
    if c.WatchPods? || Allocated(s, c).Some? {
      hide Occupy;
      if c.tab in s.sessions {
        OccupyCounters(s, c.tab, if c.WatchPods? then POD_SLOT else Allocated(s, c).value);
      }
    } else {
      SameSlots(s, c);
      hide Step;
    }
  }

  lemma OccupyCounters(s: State, tab: nat, slot: Slot)
    requires tab in s.sessions
    ensures var t := Occupy(s, tab, slot);
      && t.nextLog == s.nextLog && t.nextTable == s.nextTable && |t.streams| == |s.streams| + 1
      && forall i :: 0 <= i < |t.streams| ==> t.streams[i].slot == if i < |s.streams| then s.streams[i].slot else slot
  {
  }

  // ----- a run that is not safe -----

  ghost predicate Reached(s: State, steps: nat) {
    exists states, cs :: IsRun(states, cs) && |cs| == steps && states[steps] == s
  }

  lemma Reach(s: State, steps: nat, c: Command) returns (t: State)
    requires Reached(s, steps)
    ensures t == Step(s, c) && Reached(t, steps + 1)
  {
    hide Step;
    t := Step(s, c);
    var states, cs :| IsRun(states, cs) && |cs| == steps && states[steps] == s;
    var states', cs' := states + [t], cs + [c];
    forall k | 0 <= k < |cs'| ensures StepAt(states', cs', k) {
      if k < steps {
        assert StepAt(states, cs, k);
      }
    }
    assert IsRun(states', cs');
  }

  /** Tab 1 follows a log under id 0 while tab 2 goes on opening others. */
  ghost predicate FollowsLog(s: State, next: nat) {
    && 1 in s.sessions && 2 in s.sessions && s.nextLog == next
    && |s.streams| > 0 && s.streams[0] == Stream(1, Slot(Logs, 0), false, Running)
    && forall slot :: slot in s.sessions[2] ==> s.sessions[2][slot] != 0
  }

  lemma NextLog(s: State, next: nat)
    requires FollowsLog(s, next) && 0 < next < U32
    ensures FollowsLog(Step(s, StreamLogs(2)), After(next))
  {
  }

  lemma {:induction false} IdsRunUp(n: nat) returns (s: State)
    requires 1 <= n < U32
    ensures Reached(s, 2 + n) && FollowsLog(s, n)
    decreases n
  {
    if n == 1 {
      assert IsRun([EMPTY], []);
      s := Reach(EMPTY, 0, Open(1));
      s := Reach(s, 1, Open(2));
      s := Reach(s, 2, StreamLogs(1));
    } else {
      s := IdsRunUp(n - 1);
      NextLog(s, n - 1);
      s := Reach(s, 1 + n, StreamLogs(2));
    }
  }

  /** The bound is real: once the ids have wrapped, tab 1 opens a second log and
      the first, still running one loses its entry to it. */
  lemma WrappedIdsAreUnsafe() returns (s: State)
    ensures Reached(s, U32 + 3) && !Safe(s)
  {
    s := IdsRunUp(U32 - 1);
    NextLog(s, U32 - 1);
    s := Reach(s, U32 + 1, StreamLogs(2));
    assert Live(s.streams[0]) && s.streams[0].slot == Allocated(s, StreamLogs(1)).value;
    HarmfulStartIsUnsafe(s, StreamLogs(1));
    s := Reach(s, U32 + 2, StreamLogs(1));
  }

  // ----- the commands -----

  /** The session map behind its lock, the id counters and the spawned streams.
      Each command runs while it holds the lock. */
  class Sessions {
    var map_: map<nat, Handle>
    var nextLogId: nat
    var nextTableId: nat
    var streams: seq<Stream>

    function Now(): State
      reads this
    {
      State(map_, nextLogId, nextTableId, streams)
    }

    constructor ()
      ensures Now() == EMPTY
    {
      map_, nextLogId, nextTableId, streams := map[], 0, 0, [];
    }

    /** Using or dropping a stop sender wakes its stream. */
    method Wake(i: int)
      modifies this`streams
      ensures streams == Signal(old(streams), {i})
    {
      if 0 <= i < |streams| {
        streams := streams[i := streams[i].(signalled := true)];
      }
      assert streams == Signal(old(streams), {i});
    }

    ghost predicate Holds(h: Handle, slots: set<Slot>, i: int) {
      exists slot :: slot in slots && slot in h && h[slot] == i
    }

    method StopAll(h: Handle)
      modifies this`streams
      ensures streams == Signal(old(streams), h.Values)
    {
      ghost var before := streams;
      var todo := h.Keys;
      while todo != {}
        invariant todo <= h.Keys && |streams| == |before|
        invariant forall i :: 0 <= i < |streams| ==>
          streams[i] == if Holds(h, h.Keys - todo, i) then before[i].(signalled := true) else before[i]
      {
        var slot :| slot in todo;
        Wake(h[slot]);
        todo := todo - {slot};
      }
      assert forall i :: Holds(h, h.Keys, i) <==> i in h.Values;
      assert streams == Signal(before, h.Values);
    }

    method OpenSession(tab: nat)
      modifies this
      ensures Now() == Step(old(Now()), Open(tab))
    {
      var replaced := if tab in map_ then Some(map_[tab]) else None;
      map_ := map_[tab := map[]];
      if replaced.Some? {
        StopAll(replaced.value);
      } else {
        NobodySignalled(streams);
      }
    }

    method CloseSession(tab: nat)
      modifies this
      ensures Now() == Step(old(Now()), Close(tab))
    {
      if tab in map_ {
        var handle := map_[tab];
        map_ := map_ - {tab};
        StopAll(handle);
      }
    }

    /** Inserts the sender of a new stream and spawns it. */
    method Insert(tab: nat, slot: Slot)
      requires tab in map_
      modifies this
      ensures Now() == Occupy(old(Now()), tab, slot)
    {
      var replaced := if slot in map_[tab] then Some(map_[tab][slot]) else None;
      map_ := map_[tab := map_[tab][slot := |streams|]];
      if replaced.Some? {
        Wake(replaced.value);
      } else {
        NobodySignalled(streams);
      }
      streams := streams + [Stream(tab, slot, false, Running)];
    }

    method Remove(tab: nat, slot: Slot)
      modifies this
      ensures Now() == Vacate(old(Now()), tab, slot)
    {
      if tab in map_ {
        if slot in map_[tab] {
          var sender := map_[tab][slot];
          map_ := map_[tab := map_[tab] - {slot}];
          Wake(sender);
        } else {
          assert map_[tab] - {slot} == map_[tab];
          assert map_[tab := map_[tab]] == map_;
          NobodySignalled(streams);
        }
      }
    }

    method WatchPods(tab: nat) returns (ok: bool)
      modifies this
      ensures Now() == Step(old(Now()), Command.WatchPods(tab)) && ok == (tab in old(map_))
    {
      hide Occupy;
      ok := tab in map_;
      if ok {
        Insert(tab, POD_SLOT);
      }
    }

    method StreamLogs(tab: nat) returns (id: Option<nat>)
      modifies this
      ensures Now() == Step(old(Now()), Command.StreamLogs(tab))
      ensures id == if tab in old(map_) then Some(old(nextLogId)) else None
    {
      if tab !in map_ {
        return None;
      }
      id := Some(nextLogId);
      nextLogId := After(nextLogId);
      Insert(tab, Slot(Logs, id.value));
    }

    method WatchResourceTable(tab: nat) returns (id: Option<nat>)
      modifies this
      ensures Now() == Step(old(Now()), WatchTable(tab))
      ensures id == if tab in old(map_) then Some(old(nextTableId)) else None
    {
      if tab !in map_ {
        return None;
      }
      id := Some(nextTableId);
      nextTableId := After(nextTableId);
      Insert(tab, Slot(Tables, id.value));
    }

    method StopLogs(tab: nat, id: nat)
      modifies this
      ensures Now() == Step(old(Now()), Command.StopLogs(tab, id))
    {
      hide Vacate;
      Remove(tab, Slot(Logs, id));
    }

    method StopResourceTable(tab: nat, id: nat)
      modifies this
      ensures Now() == Step(old(Now()), StopTable(tab, id))
    {
      hide Vacate;
      Remove(tab, Slot(Tables, id));
    }

    /** The end of a stream's task: a log or table stream prunes its own entry. */
    method PruneSelf(i: nat)
      requires i < |streams| && streams[i].phase == Ended
      modifies this
      ensures Now() == Step(old(Now()), Prune(i))
    {
      var st := streams[i];
      streams := streams[i := st.(phase := Pruned)];
      if st.slot.kind != Pods {
        Remove(st.tab, st.slot);
      }
    }
  }
}
