/** The terminal app's bounded memories: namespace favourites and the command history. */
module RecencyLists {
  import opened Options
  import opened Sequences
  import opened Whitespace

  const FAVOURITES: nat := 9
  const HISTORY: nat := 50

  function First(s: seq<string>, n: nat): seq<string> {
    if |s| <= n then s else s[..n]
  }

  function Last(s: seq<string>, n: nat): seq<string> {
    if |s| <= n then s else s[|s| - n..]
  }

  lemma FirstOfConcat(s: seq<string>, t: seq<string>, n: nat)
    requires |s| >= n
    ensures First(s + t, n) == First(s, n)
  {
  }

  // ----- namespace favourites -----

  /** Takes out the first occurrence of a name. */
  function DropFirst(s: seq<string>, x: string): seq<string> {
    if s == [] then [] else if s[0] == x then s[1..] else [s[0]] + DropFirst(s[1..], x)
  }

  /** Takes out every occurrence of a name. */
  function Without(s: seq<string>, x: string): (r: seq<string>)
    ensures x !in r && forall y :: y in r <==> y in s && y != x
  {
    if s == [] then []
    else if s[0] == x then Without(s[1..], x)
    else [s[0]] + Without(s[1..], x)
  }

  /** A list after names were moved to its front one by one, without a bound. */
  function MovedUp(start: seq<string>, names: seq<string>): seq<string> {
    if names == [] then start
    else
      var n := |names| - 1;
      [names[n]] + DropFirst(MovedUp(start, names[..n]), names[n])
  }

  /** Names by how recently they were used, the last one first, without a bound. */
  function Recent(names: seq<string>): seq<string> {
    if names == [] then [] else [names[|names| - 1]] + Without(Recent(names[..|names| - 1]), names[|names| - 1])
  }

  function Reversed(s: seq<string>): seq<string> {
    if s == [] then [] else Reversed(s[1..]) + [s[0]]
  }

  /** The namespace in force after some requests. */
  function InForce(start: Option<string>, requests: seq<Option<string>>): Option<string> {
    if requests == [] then start else requests[|requests| - 1]
  }

  /** The requests that change the namespace: those that differ from the one
      before them, or from the namespace at the start. */
  function Changes(start: Option<string>, requests: seq<Option<string>>): seq<Option<string>> {
    if requests == [] then []
    else
      var n := |requests| - 1;
      Changes(start, requests[..n]) + if requests[n] == InForce(start, requests[..n]) then [] else [requests[n]]
  }

  function Named(requests: seq<Option<string>>): seq<string> {
    if requests == [] then []
    else
      var n := |requests| - 1;
      Named(requests[..n]) + if requests[n].Some? then [requests[n].value] else []
  }

  datatype Memory = Memory(namespace: Option<string>, favourites: seq<string>)

  datatype Session = Session(name: string, namespace: Option<string>)

  /** What a memory becomes when the namespace is switched. */
  function Remembered(m: Memory, ns: Option<string>): Memory {
    Memory(ns, if ns.None? then m.favourites else First([ns.value] + DropFirst(m.favourites, ns.value), FAVOURITES))
  }

  const NO_MEMORY := Memory(None, [])

  function Recall(contexts: map<string, Memory>, context: string): Memory {
    if context in contexts then contexts[context] else NO_MEMORY
  }

  /** The memory of each context; a context without a name has none. */
  function RememberedIn(contexts: map<string, Memory>, context: string, ns: Option<string>): map<string, Memory> {
    if context == "" then contexts else contexts[context := Remembered(Recall(contexts, context), ns)]
  }

  /** A memory and the session's namespace after a run of requests. */
  function Switched(start: Memory, requests: seq<Option<string>>): Memory {
    if requests == [] then start
    else
      var m := Switched(start, requests[..|requests| - 1]);
      var ns := requests[|requests| - 1];
      if ns == m.namespace then m else Remembered(m, ns)
  }

  class NamespaceSwitcher {
    var active: Option<Session>
    var contexts: map<string, Memory>
    /** What the header shows and the digit keys pick from. */
    var shown: seq<string>

    constructor (active: Option<Session>, contexts: map<string, Memory>)
      ensures this.active == active && this.contexts == contexts && shown == []
    {
      this.active, this.contexts, shown := active, contexts, [];
    }

    /** Brings the header's favourites up to date with the active context. */
    method SyncChrome()
      modifies this`shown
      ensures shown == if active.Some? then Recall(contexts, active.value.name).favourites else old(shown)
    {
      if active.Some? {
        shown := if active.value.name in contexts then contexts[active.value.name].favourites else [];
      }
    }

    /** A namespace that is active already, or no session: nothing happens. */
    method SetNamespace(ns: Option<string>) returns (changed: bool)
      modifies this
      ensures changed == (old(active).Some? && old(active).value.namespace != ns)
      ensures !changed ==> active == old(active) && contexts == old(contexts) && shown == old(shown)
      ensures changed ==>
        && active == Some(old(active).value.(namespace := ns))
        && contexts == RememberedIn(old(contexts), active.value.name, ns)
        && shown == Recall(contexts, active.value.name).favourites
    {
      if active.None? || active.value.namespace == ns {
        return false;
      }
      active := Some(active.value.(namespace := ns));
      SyncChrome();
      RememberNamespace(active.value.name, ns);
      SyncChrome();
      changed := true;
    }

    method RememberNamespace(context: string, ns: Option<string>)
      modifies this`contexts
      ensures contexts == RememberedIn(old(contexts), context, ns)
    {
      if context == "" {
        return;
      }
      hide DropFirst, First;
      var favourites := if context in contexts then contexts[context].favourites else [];
      if ns.Some? {
        favourites := MoveToFront(favourites, ns.value);
      }
      contexts := contexts[context := Memory(ns, favourites)];
    }

    /** Any run of requests in one session: its context's favourites are those of
        the untruncated list, and no other context's memory changes. */
    method Switches(requests: seq<Option<string>>)
      modifies this
      ensures old(active).None? ==> active.None? && contexts == old(contexts)
      ensures old(active).Some? ==>
        active == Some(old(active).value.(namespace := InForce(old(active).value.namespace, requests)))
      ensures old(active).Some? && old(active).value.name == "" ==> contexts == old(contexts)
      ensures old(active).Some? && old(active).value.name != "" ==>
        var start := Memory(old(active).value.namespace, Recall(old(contexts), old(active).value.name).favourites);
        BoundedList(Recall(contexts, old(active).value.name).favourites, start, requests)
      ensures old(active).Some? ==>
        forall c :: c != old(active).value.name ==> Recall(contexts, c) == Recall(old(contexts), c)
    {
      if active.None? {
        return;
      }
      ghost var name := active.value.name;
      ghost var start := Memory(active.value.namespace, Recall(contexts, name).favourites);
      hide BoundedList, DropFirst, First;
      var i := 0;
      while i < |requests|
        invariant i <= |requests| && active.Some? && active.value.name == name && name == old(active).value.name
        invariant active == Some(old(active).value.(namespace := InForce(start.namespace, requests[..i])))
        invariant name == "" ==> contexts == old(contexts)
        invariant name != "" ==>
          Memory(active.value.namespace, Recall(contexts, name).favourites) == Switched(start, requests[..i])
        invariant forall c :: c != name ==> Recall(contexts, c) == Recall(old(contexts), c)
      {
        assert requests[..i + 1] == requests[..i] + [requests[i]];
        SwitchedStep(start, requests[..i], requests[i]);
        var _ := SetNamespace(requests[i]);
        i := i + 1;
      }
      assert requests[..|requests|] == requests;
      FavouritesAreTheMostRecent(start, requests);
    }
  }

  method MoveToFront(names: seq<string>, x: string) returns (r: seq<string>)
    ensures r == First([x] + DropFirst(names, x), FAVOURITES)
  {
    r := names;
    var i := 0;
    while i < |r| && r[i] != x
      invariant i <= |r| && x !in r[..i]
    {
      i := i + 1;
    }
    DropFirstAt(r, i, x);
    hide DropFirst;
    if i < |r| {
      r := r[..i] + r[i + 1..];
    }
    r := [x] + r;
    if |r| > FAVOURITES {
      r := r[..FAVOURITES];
    }
  }

  lemma {:induction false} DropFirstAt(s: seq<string>, i: nat, x: string)
    requires i <= |s| && x !in s[..i] && (i < |s| ==> s[i] == x)
    ensures DropFirst(s, x) == if i < |s| then s[..i] + s[i + 1..] else s
  {
    if 0 < i {
      assert s[0] == s[..i][0] && s[1..][..i - 1] == s[..i][1..];
      DropFirstAt(s[1..], i - 1, x);
      hide DropFirst;
      if i < |s| {
        Associative([s[0]], s[1..][..i - 1], s[1..][i..]);
        assert s[1..][i..] == s[i + 1..] && [s[0]] + s[1..][..i - 1] == s[..i];
      } else {
        assert [s[0]] + s[1..] == s;
      }
    }
  }

  // ----- the bounded list is the front of the unbounded one -----

  lemma DropFirstCons(c: string, s: seq<string>, x: string)
    ensures DropFirst([c] + s, x) == if c == x then s else [c] + DropFirst(s, x)
  {
    assert ([c] + s)[1..] == s;
  }

  lemma {:induction false} DropFirstConcat(s: seq<string>, t: seq<string>, x: string)
    ensures DropFirst(s + t, x) == if x in s then DropFirst(s, x) + t else s + DropFirst(t, x)
    ensures |s| - 1 <= |DropFirst(s, x)| && (x !in s ==> DropFirst(s, x) == s)
  {
    if s == [] {
      assert s + t == t;
    } else {
      hide DropFirst;
      var c, rest := s[0], s[1..];
      assert s == [c] + rest;
      DropFirstConcat(rest, t, x);
      DropFirstCons(c, rest, x);
      DropFirstCons(c, rest + t, x);
      Associative([c], rest, t);
      Associative([c], DropFirst(rest, x), t);
      Associative([c], rest, DropFirst(t, x));
    }
  }

  /** Dropping what lies beyond the bound first makes no difference. */
  lemma BoundCommutes(s: seq<string>, x: string, n: nat)
    ensures First([x] + DropFirst(First(s, n), x), n) == First([x] + DropFirst(s, x), n)
  {
    if |s| > n {
      var t, rest := s[..n], s[n..];
      assert t + rest == s;
      DropFirstConcat(t, rest, x);
      var more := if x in t then rest else DropFirst(rest, x);
      hide DropFirst;
      Associative([x], DropFirst(t, x), more);
      FirstOfConcat([x] + DropFirst(t, x), more, n);
    }
  }

  function Used(start: Memory, requests: seq<Option<string>>): seq<string> {
    Named(Changes(start.namespace, requests))
  }

  /** Before the first name is used the list is as it was; afterwards it is the
      front of the unbounded list. */
  ghost predicate BoundedList(favourites: seq<string>, start: Memory, requests: seq<Option<string>>) {
    var names := Used(start, requests);
    favourites == if names == [] then start.favourites else First(MovedUp(start.favourites, names), FAVOURITES)
  }

  lemma MovedUpNext(start: seq<string>, names: seq<string>, x: string)
    ensures MovedUp(start, names + [x]) == [x] + DropFirst(MovedUp(start, names), x)
  {
    assert (names + [x])[..|names|] == names;
  }

  lemma ChangesStep(start: Option<string>, requests: seq<Option<string>>, ns: Option<string>)
    ensures Changes(start, requests + [ns]) ==
      Changes(start, requests) + if ns == InForce(start, requests) then [] else [ns]
  {
    assert (requests + [ns])[..|requests|] == requests;
  }

  lemma NamedStep(changes: seq<Option<string>>, ns: Option<string>)
    ensures Named(changes + [ns]) == Named(changes) + if ns.Some? then [ns.value] else []
  {
    assert (changes + [ns])[..|changes|] == changes;
  }

  lemma UsedStep(start: Memory, requests: seq<Option<string>>, ns: Option<string>)
    ensures Used(start, requests + [ns]) ==
      if ns != InForce(start.namespace, requests) && ns.Some? then Used(start, requests) + [ns.value]
      else Used(start, requests)
  {
    hide Changes, Named;
    var changes := Changes(start.namespace, requests);
    ChangesStep(start.namespace, requests, ns);
    NamedStep(changes, ns);
    assert changes + [] == changes && Named(changes) + [] == Named(changes);
  }

  lemma SwitchedStep(start: Memory, requests: seq<Option<string>>, ns: Option<string>)
    ensures Switched(start, requests + [ns]) ==
      if ns == Switched(start, requests).namespace then Switched(start, requests)
      else Remembered(Switched(start, requests), ns)
  {
    assert (requests + [ns])[..|requests|] == requests;
  }

  lemma NameKeepsBounded(favourites: seq<string>, start: Memory, requests: seq<Option<string>>, x: string)
    requires BoundedList(favourites, start, requests) && Some(x) != InForce(start.namespace, requests)
    ensures BoundedList(First([x] + DropFirst(favourites, x), FAVOURITES), start, requests + [Some(x)])
  {
    hide Used, First, DropFirst, MovedUp;
    UsedStep(start, requests, Some(x));
    var names := Used(start, requests);
    MovedUpNext(start.favourites, names, x);
    if names == [] {
      NothingMoved(start.favourites);
    } else {
      BoundCommutes(MovedUp(start.favourites, names), x, FAVOURITES);
    }
  }

  lemma NothingMoved(start: seq<string>)
    ensures MovedUp(start, []) == start
  {
  }

  lemma OneMoreSwitch(start: Memory, requests: seq<Option<string>>, ns: Option<string>)
    requires Switched(start, requests).namespace == InForce(start.namespace, requests)
    requires BoundedList(Switched(start, requests).favourites, start, requests)
    ensures Switched(start, requests + [ns]).namespace == ns
    ensures BoundedList(Switched(start, requests + [ns]).favourites, start, requests + [ns])
  {
    hide Switched;
    SwitchedStep(start, requests, ns);
    var m := Switched(start, requests);
    if ns != m.namespace && ns.Some? {
      hide BoundedList, First, DropFirst;
      NameKeepsBounded(m.favourites, start, requests, ns.value);
    } else {
      hide Used;
      UsedStep(start, requests, ns);
    }
  }

  lemma {:induction false} SwitchesAreBounded(start: Memory, requests: seq<Option<string>>)
    ensures Switched(start, requests).namespace == InForce(start.namespace, requests)
    ensures BoundedList(Switched(start, requests).favourites, start, requests)
  {
    if requests != [] {
      var n := |requests| - 1;
      assert requests == requests[..n] + [requests[n]];
      SwitchesAreBounded(start, requests[..n]);
      hide Switched, BoundedList;
      OneMoreSwitch(start, requests[..n], requests[n]);
    }
  }

  /** Over any run of switches, and from any list, the favourites are the front of
      the list that is never truncated. From at most nine names without repeats
      they are the nine most recently used ones. */
  lemma FavouritesAreTheMostRecent(start: Memory, requests: seq<Option<string>>)
    ensures var m := Switched(start, requests);
      && m.namespace == InForce(start.namespace, requests)
      && BoundedList(m.favourites, start, requests)
      && (Distinct(start.favourites) && |start.favourites| <= FAVOURITES ==>
           && m.favourites == First(Recent(Reversed(start.favourites) + Used(start, requests)), 9)
           && Distinct(m.favourites) && |m.favourites| <= 9)
  {
    hide Switched, Used, Recent, First, Distinct;
    SwitchesAreBounded(start, requests);
    if Distinct(start.favourites) && |start.favourites| <= FAVOURITES {
      DistinctListIsRecent(start.favourites, Used(start, requests));
    }
  }

  lemma DistinctListIsRecent(start: seq<string>, names: seq<string>)
    requires Distinct(start) && |start| <= FAVOURITES
    ensures var list := First(Recent(Reversed(start) + names), FAVOURITES);
      && list == (if names == [] then start else First(MovedUp(start, names), FAVOURITES))
      && Distinct(list) && |list| <= FAVOURITES
  {
    MovedUpIsRecent(start, names);
    RecentIsDistinct(Reversed(start) + names);
    NothingMoved(start);
    hide Recent, MovedUp;
    FirstKeepsDistinct(Recent(Reversed(start) + names), FAVOURITES);
    hide Distinct;
  }

  lemma {:induction false} MovedUpIsRecent(start: seq<string>, names: seq<string>)
    requires Distinct(start)
    ensures MovedUp(start, names) == Recent(Reversed(start) + names)
  {
    if names == [] {
      ReversedIsRecent(start);
      assert Reversed(start) + names == Reversed(start);
    } else {
      hide Distinct, Recent, MovedUp, Reversed;
      var n := |names| - 1;
      var before := Reversed(start) + names[..n];
      assert names == names[..n] + [names[n]];
      Associative(Reversed(start), names[..n], [names[n]]);
      MovedUpIsRecent(start, names[..n]);
      MovedUpNext(start, names[..n], names[n]);
      RecentNext(before, names[n]);
      RecentIsDistinct(before);
      DropFirstIsWithout(Recent(before), names[n]);
    }
  }

  lemma {:induction false} DropFirstIsWithout(s: seq<string>, x: string)
    requires Distinct(s)
    ensures DropFirst(s, x) == Without(s, x)
  {
    if s != [] {
      if s[0] == x {
        WithoutNothing(s[1..], x);
      } else {
        DropFirstIsWithout(s[1..], x);
      }
    }
  }

  lemma {:induction false} WithoutNothing(s: seq<string>, x: string)
    requires x !in s
    ensures Without(s, x) == s
  {
    if s != [] {
      WithoutNothing(s[1..], x);
    }
  }

  lemma HeadKeepsDistinct(x: string, s: seq<string>)
    requires Distinct(s) && x !in s
    ensures Distinct([x] + s)
  {
  }

  lemma {:induction false} WithoutKeepsDistinct(s: seq<string>, x: string)
    requires Distinct(s)
    ensures Distinct(Without(s, x))
  {
    if s != [] {
      WithoutKeepsDistinct(s[1..], x);
      assert s[0] !in s[1..];
      HeadKeepsDistinct(s[0], Without(s[1..], x));
    }
  }

  lemma {:induction false} RecentIsDistinct(names: seq<string>)
    ensures Distinct(Recent(names)) && forall x :: x in Recent(names) <==> x in names
  {
    if names != [] {
      var n := |names| - 1;
      RecentIsDistinct(names[..n]);
      WithoutKeepsDistinct(Recent(names[..n]), names[n]);
      HeadKeepsDistinct(names[n], Without(Recent(names[..n]), names[n]));
      assert names == names[..n] + [names[n]];
      hide Distinct;
    }
  }

  /** A list without repeats is what its names, used from the last to the
      first, would have left. */
  lemma {:induction false} ReversedIsRecent(s: seq<string>)
    requires Distinct(s)
    ensures Recent(Reversed(s)) == s
  {
    if s != [] {
      ReversedIsRecent(s[1..]);
      assert Reversed(s)[..|Reversed(s)| - 1] == Reversed(s[1..]);
      WithoutNothing(s[1..], s[0]);
    }
  }

  lemma FirstKeepsDistinct(s: seq<string>, n: nat)
    requires Distinct(s)
    ensures Distinct(First(s, n)) && |First(s, n)| <= n
  {
  }

  /** Favourites without repeats stay so, whatever their number. */
  lemma RememberedStaysDistinct(m: Memory, ns: Option<string>)
    requires Distinct(m.favourites)
    ensures Distinct(Remembered(m, ns).favourites)
  {
    if ns.Some? {
      DropFirstIsWithout(m.favourites, ns.value);
      WithoutKeepsDistinct(m.favourites, ns.value);
      HeadKeepsDistinct(ns.value, Without(m.favourites, ns.value));
      FirstKeepsDistinct([ns.value] + Without(m.favourites, ns.value), FAVOURITES);
      hide Distinct, DropFirst, Without, First;
    }
  }

  lemma {:induction false} WithoutConcat(s: seq<string>, t: seq<string>, x: string)
    ensures Without(s + t, x) == Without(s, x) + Without(t, x)
  {
    if s == [] {
      assert s + t == t;
    } else {
      WithoutConcat(s[1..], t, x);
      assert (s + t)[1..] == s[1..] + t;
      Associative([s[0]], Without(s[1..], x), Without(t, x));
    }
  }

  /** What stands before a name in the recency list is the list of the names
      used since it was last used. */
  lemma {:induction false} NamesSinceComeFirst(names: seq<string>, k: nat)
    requires k < |names| && names[k] !in names[k + 1..]
    ensures Recent(names[k + 1..]) + [names[k]] <= Recent(names)
  {
    var n := |names| - 1;
    if k == n {
      assert names[k + 1..] == [];
    } else {
      var since, x := names[k + 1..n], names[n];
      assert names[..n][k + 1..] == since && names[k + 1..] == since + [x];
      NamesSinceComeFirst(names[..n], k);
      RecentNext(since, x);
      RecentNext(names[..n], x);
      assert names == names[..n] + [x];
      WithoutNothing([names[k]], x);
      hide Recent;
      WithoutPrefix(Recent(since), names[k], Recent(names[..n]), x);
    }
  }

  lemma RecentNext(names: seq<string>, x: string)
    ensures Recent(names + [x]) == [x] + Without(Recent(names), x)
  {
    assert (names + [x])[..|names|] == names;
  }

  lemma WithoutPrefix(before: seq<string>, y: string, all: seq<string>, x: string)
    requires before + [y] <= all && y != x
    ensures [x] + Without(before, x) + [y] <= [x] + Without(all, x)
  {
    var head := before + [y];
    var rest := all[|head|..];
    assert all == head + rest;
    WithoutConcat(head, rest, x);
    WithoutConcat(before, [y], x);
    WithoutNothing([y], x);
    hide Without;
    Associative([x], Without(before, x), [y]);
    Associative([x], Without(head, x), Without(rest, x));
  }

  /** So a name stays a favourite until nine others were used after it. */
  lemma FavouriteUntilNineOthers(names: seq<string>, k: nat)
    requires k < |names| && names[k] !in names[k + 1..]
    ensures names[k] in First(Recent(names), 9) <==> |Recent(names[k + 1..])| < 9
  {
    var since := |Recent(names[k + 1..])|;
    NamesSinceComeFirst(names, k);
    RecentIsDistinct(names);
    assert Recent(names)[since] == names[k];
    hide Recent;
  }

  // ----- the command history -----

  /** Adjacent repeats count once. */
  function Collapsed(texts: seq<string>): (r: seq<string>)
    ensures texts != [] ==> r != [] && r[|r| - 1] == texts[|texts| - 1]
    ensures texts == [] ==> r == []
  {
    if texts == [] then []
    else
      var n := |texts| - 1;
      if n > 0 && texts[n - 1] == texts[n] then Collapsed(texts[..n]) else Collapsed(texts[..n]) + [texts[n]]
  }

  datatype Key = Submit(text: string) | Repeat | Move(delta: int)

  datatype History = History(entries: seq<string>, pos: nat)

  function Submitted(keys: seq<Key>): seq<string> {
    if keys == [] then []
    else
      var k := keys[|keys| - 1];
      Submitted(keys[..|keys| - 1]) + if k.Submit? then [Trim(k.text)] else []
  }

  function Clamped(pos: int, last: nat): nat {
    if pos < 0 then 0 else if pos > last then last else pos
  }

  /** The position after a move in a history of the given length. */
  function Moved(pos: nat, length: nat, delta: int): nat
    requires length > 0
  {
    Clamped((if pos < length then pos else length - 1) + delta, length - 1)
  }

  /** A repeat of the last command adds nothing; beyond the bound a history stops
      growing and its oldest entry goes. */
  function Recorded(h: seq<string>, text: string): seq<string> {
    if h != [] && h[|h| - 1] == text then h else Last(h + [text], |h| + if |h| < HISTORY then 1 else 0)
  }

  function After(h: History, k: Key): History {
    match k
    case Submit(text) => History(Recorded(h.entries, Trim(text)), |Recorded(h.entries, Trim(text))|)
    case Repeat => if h.entries == [] then h else h.(pos := |h.entries|)
    case Move(delta) => if h.entries == [] then h else h.(pos := Moved(h.pos, |h.entries|, delta))
  }

  /** The command that `-`, `[` or `]` runs again. */
  function Rerun(h: History, k: Key): Option<string>
    requires !k.Submit?
  {
    if h.entries == [] then None
    else if k.Repeat? then Some(h.entries[|h.entries| - 1])
    else Some(h.entries[Moved(h.pos, |h.entries|, k.delta)])
  }

  const NO_HISTORY := History([], 0)

  function Handled(keys: seq<Key>): History {
    if keys == [] then NO_HISTORY else After(Handled(keys[..|keys| - 1]), keys[|keys| - 1])
  }

  class CommandHistory {
    var history: seq<string>
    var historyPos: nat

    function Now(): History
      reads this
    {
      History(history, historyPos)
    }

    constructor ()
      ensures Now() == NO_HISTORY
    {
      history, historyPos := [], 0;
    }

    method RememberCommand(text: string)
      modifies this
      ensures history == Recorded(old(history), text) && historyPos == |history|
      ensures history ==
        if old(history) != [] && old(history)[|old(history)| - 1] == text then old(history)
        else if |old(history)| < 50 then old(history) + [text]
        else old(history)[1..] + [text]
    {
      if history != [] && history[|history| - 1] == text {
        historyPos := |history|;
        return;
      }
      history := history + [text];
      if |history| > HISTORY {
        history := history[1..];
      }
      historyPos := |history|;
    }

    method HistoryRepeat() returns (command: Option<string>)
      modifies this`historyPos
      ensures Now() == After(old(Now()), Repeat) && command == Rerun(old(Now()), Repeat)
      ensures history == [] ==> command == None && historyPos == old(historyPos)
      ensures history != [] ==> command == Some(history[|history| - 1]) && historyPos == |history|
    {
      if history == [] {
        return None;
      }
      historyPos := |history|;
      command := Some(history[|history| - 1]);
    }

    method HistoryStep(delta: int) returns (command: Option<string>)
      modifies this`historyPos
      ensures Now() == After(old(Now()), Move(delta)) && command == Rerun(old(Now()), Move(delta))
      ensures history == [] ==> command == None && historyPos == old(historyPos)
      ensures history != [] ==> historyPos < |history| && command == Some(history[historyPos])
      ensures history != [] ==>
        var target := delta + if old(historyPos) < |history| then old(historyPos) else |history| - 1;
        historyPos == if target < 0 then 0 else if target < |history| then target else |history| - 1
    {
      if history == [] {
        return None;
      }
      var last := |history| - 1;
      var pos := (if historyPos < last then historyPos else last) + delta;
      historyPos := if pos < 0 then 0 else if pos > last then last else pos;
      command := Some(history[historyPos]);
    }

    /** Any run of keys from an empty history. */
    method HandleKeys(keys: seq<Key>)
      requires Now() == NO_HISTORY
      modifies this
      ensures Now() == Handled(keys)
    {
      hide Trim, Recorded, Rerun;
      var i := 0;
      while i < |keys|
        invariant i <= |keys| && Now() == Handled(keys[..i])
      {
        assert keys[..i + 1][..i] == keys[..i];
        match keys[i] {
          case Submit(text) => RememberCommand(Trim(text));
          case Repeat => var _ := HistoryRepeat();
          case Move(delta) => var _ := HistoryStep(delta);
        }
        i := i + 1;
      }
      assert keys[..|keys|] == keys;
    }
  }

  /** The last fifty of some submissions after collapsing adjacent repeats, with
      a position that does not pass their end. */
  ghost predicate LastFifty(h: History, texts: seq<string>) {
    h.entries == Last(Collapsed(texts), HISTORY) && h.pos <= |h.entries| <= HISTORY
  }

  lemma KeyKeepsLastFifty(h: History, texts: seq<string>, k: Key)
    requires LastFifty(h, texts)
    ensures LastFifty(After(h, k), if k.Submit? then texts + [Trim(k.text)] else texts)
  {
    hide Collapsed, Trim, Last, Recorded;
    if k.Submit? {
      HistoryGrows(texts, Trim(k.text));
      LastLength(Collapsed(texts + [Trim(k.text)]), HISTORY);
    }
  }

  /** Over any run of keys. */
  lemma {:induction false} HistoryIsTheLastFifty(keys: seq<Key>)
    ensures LastFifty(Handled(keys), Submitted(keys))
    ensures var h := Handled(keys); h.entries == Last(Collapsed(Submitted(keys)), 50) && h.pos <= |h.entries| <= 50
  {
    if keys != [] {
      var n := |keys| - 1;
      hide LastFifty, Submitted, After, Trim;
      HistoryIsTheLastFifty(keys[..n]);
      assert keys[..n] + [keys[n]] == keys;
      SubmittedNext(keys[..n], keys[n]);
      KeyKeepsLastFifty(Handled(keys[..n]), Submitted(keys[..n]), keys[n]);
    }
  }

  lemma LastLength(s: seq<string>, n: nat)
    ensures |Last(s, n)| <= n
  {
  }

  lemma SubmittedNext(keys: seq<Key>, k: Key)
    ensures Submitted(keys + [k]) == if k.Submit? then Submitted(keys) + [Trim(k.text)] else Submitted(keys)
  {
    assert (keys + [k])[..|keys|] == keys;
    assert Submitted(keys) + [] == Submitted(keys);
  }

  /** The history after `[` was pressed some times. */
  function SteppedBack(h: History, times: nat): History {
    if times == 0 then h else After(SteppedBack(h, times - 1), Move(-1))
  }

  lemma {:induction false} StepsBackStop(h: History, times: nat)
    requires h.entries != [] && h.pos == |h.entries| && times > 0
    ensures var n := |h.entries|;
      SteppedBack(h, times) == History(h.entries, if times < n then n - 1 - times else 0)
  {
    if times > 1 {
      StepsBackStop(h, times - 1);
    } else {
      assert SteppedBack(h, 0) == h;
    }
  }

  lemma StepsBackRun(h: History, times: nat)
    requires h.entries != [] && h.pos == |h.entries| && times > 0
    ensures var n := |h.entries|;
      Rerun(SteppedBack(h, times - 1), Move(-1)) == Some(h.entries[if times < n then n - 1 - times else 0])
  {
    StepsBackStop(h, times);
    if times > 1 {
      StepsBackStop(h, times - 1);
    } else {
      assert SteppedBack(h, 0) == h;
    }
  }

  /** The command so many steps before the last, or the oldest one kept. */
  function Earlier(commands: seq<string>, times: nat): string
    requires commands != []
  {
    var oldest := if |commands| <= HISTORY then 0 else |commands| - HISTORY;
    commands[if |commands| - 1 - times >= oldest then |commands| - 1 - times else oldest]
  }

  lemma EarlierInLast(commands: seq<string>, times: nat)
    requires commands != []
    ensures var h := Last(commands, HISTORY); var n := |h|;
      n > 0 && h[if times < n then n - 1 - times else 0] == Earlier(commands, times)
  {
  }

  /** After a submission the presses of `[` run older commands one by one, past
      the one just submitted, and stay at the oldest one that is kept. */
  lemma StepsBackReach(keys: seq<Key>, text: string, times: nat)
    requires times > 0
    ensures var h, commands := Handled(keys + [Submit(text)]), Collapsed(Submitted(keys + [Submit(text)]));
      commands != [] && Rerun(SteppedBack(h, times - 1), Move(-1)) == Some(Earlier(commands, times))
  {
    hide Recorded, Trim, Collapsed, Submitted, Rerun, SteppedBack, Earlier;
    var all := keys + [Submit(text)];
    assert all[..|keys|] == keys;
    SubmittedNext(keys, Submit(text));
    HistoryIsTheLastFifty(all);
    EarlierInLast(Collapsed(Submitted(all)), times);
    hide Last;
    StepsBackRun(Handled(all), times);
  }

  /** The history after `]` was pressed some times. */
  function SteppedForward(h: History, times: nat): History {
    if times == 0 then h else After(SteppedForward(h, times - 1), Move(1))
  }

  /** The presses of `]` run the same commands again on the way back, up to the
      last one and no further. */
  lemma {:induction false} StepsForwardReach(h: History, times: nat)
    requires h.pos < |h.entries| && times > 0
    ensures var n := |h.entries|; var at := if h.pos + times < n then h.pos + times else n - 1;
      && SteppedForward(h, times) == History(h.entries, at)
      && Rerun(SteppedForward(h, times - 1), Move(1)) == Some(h.entries[at])
  {
    if times > 1 {
      StepsForwardReach(h, times - 1);
    } else {
      assert SteppedForward(h, 0) == h;
    }
  }

  lemma HistoryGrows(texts: seq<string>, text: string)
    ensures var h := Last(Collapsed(texts), HISTORY);
      Last(Collapsed(texts + [text]), HISTORY) == Recorded(h, text)
  {
    hide Collapsed, Last;
    CollapsedSnoc(texts, text);
    LastKeepsEnd(Collapsed(texts), HISTORY);
    LastGrows(Collapsed(texts), text, HISTORY);
  }

  lemma LastKeepsEnd(s: seq<string>, n: nat)
    requires n > 0
    ensures s == [] <==> Last(s, n) == []
    ensures s != [] ==> Last(s, n)[|Last(s, n)| - 1] == s[|s| - 1]
  {
  }

  lemma LastGrows(s: seq<string>, x: string, n: nat)
    ensures Last(s + [x], n) == Last(Last(s, n) + [x], |Last(s, n)| + if |Last(s, n)| < n then 1 else 0)
  {
    if |s| >= n && n > 0 {
      var h := s[|s| - n..];
      assert (h + [x])[1..] == h[1..] + [x];
      assert (s + [x])[|s| + 1 - n..] == h[1..] + [x];
    }
  }

  lemma CollapsedSnoc(texts: seq<string>, text: string)
    ensures Collapsed(texts + [text]) ==
      if texts != [] && texts[|texts| - 1] == text then Collapsed(texts) else Collapsed(texts) + [text]
  {
    var longer := texts + [text];
    assert longer[..|texts|] == texts && longer[|texts|] == text;
    assert texts != [] ==> longer[|texts| - 1] == texts[|texts| - 1];
  }

  /** Collapsing leaves no two adjacent commands equal. */
  lemma {:induction false} CollapsedHasNoRepeats(texts: seq<string>)
    ensures forall i :: 0 < i < |Collapsed(texts)| ==> Collapsed(texts)[i - 1] != Collapsed(texts)[i]
  {
    if texts != [] {
      CollapsedHasNoRepeats(texts[..|texts| - 1]);
    }
  }
}
