/** `strip_server_fields`, `identity_of` and the decision part of `apply_edit`:
    what is sent to the server, and what the document then holds. */
module EditApply {
  import opened Options
  import opened JsonDocs
  import opened MergeDiff
  import opened PatchPaths

  const SERVER_OWNED := ["resourceVersion", "uid", "generation", "creationTimestamp", "managedFields"]

  const OWNED_KEYS := set k | k in SERVER_OWNED

  function Strip(patch: Json): Json {
    if !patch.Obj? then patch
    else
      var m := patch.members - {"status"};
      if "metadata" in m && m["metadata"].Obj? then
        var md := m["metadata"].members - OWNED_KEYS;
        if md == map[] then Obj(m - {"metadata"}) else Obj(m["metadata" := Obj(md)])
      else Obj(m)
  }

  /** The patch that `apply_edit` strips in place before sending it. */
  class PatchDocument {
    var value: Json

    constructor (v: Json)
      ensures value == v
    {
      value := v;
    }

    method StripServerFields()
      modifies this
      ensures value == Strip(old(value))
    {
      if !value.Obj? {
        return;
      }
      value := Obj(value.members - {"status"});
      var mdEmpty := false;
      if "metadata" in value.members && value.members["metadata"].Obj? {
        ghost var whole := value;
        var md := value.members["metadata"].members;
        for i := 0 to |SERVER_OWNED|
          invariant md == whole.members["metadata"].members - (set k | k in SERVER_OWNED[..i])
        {
          assert SERVER_OWNED[..i + 1] == SERVER_OWNED[..i] + [SERVER_OWNED[i]];
          md := md - {SERVER_OWNED[i]};
        }
        assert SERVER_OWNED[..|SERVER_OWNED|] == SERVER_OWNED;
        value := Obj(value.members["metadata" := Obj(md)]);
        mdEmpty := md == map[];
      }
      if mdEmpty {
        value := Obj(value.members - {"metadata"});
      }
    }
  }

  predicate ServerOwned(p: Path) {
    || (|p| >= 1 && p[0] == "status")
    || (|p| >= 2 && p[0] == "metadata" && p[1] in SERVER_OWNED)
  }

  lemma OwnedNames(k: string)
    ensures k in SERVER_OWNED <==>
      k in {"resourceVersion", "uid", "generation", "creationTimestamp", "managedFields"}
  {
  }

  /** The fields that must never be sent: `status` and five of the metadata. */
  lemma ServerOwnsThese(p: Path)
    ensures ServerOwned(p) <==>
      || (p != [] && p[0] == "status")
      || (|p| >= 2 && p[0] == "metadata"
          && p[1] in {"resourceVersion", "uid", "generation", "creationTimestamp", "managedFields"})
  {
    if |p| >= 2 {
      OwnedNames(p[1]);
    }
  }

  /** Stripping leaves exactly the touched paths the server does not own, unless
      the patch sets `metadata` to `{}`: that path is dropped with them. */
  lemma StripPaths(patch: Json)
    ensures (forall p :: InPaths(Strip(patch), p) <==> InPaths(patch, p) && !ServerOwned(p))
       <==> ValueAt(patch, ["metadata"]) != Some(EMPTY)
  {
    AtKey(patch, "metadata");
    if ValueAt(patch, ["metadata"]) != Some(EMPTY) {
      forall p ensures InPaths(Strip(patch), p) <==> InPaths(patch, p) && !ServerOwned(p) {
        StripPath(patch, p);
      }
    } else {
      var p := ["metadata"];
      assert p[1..] == [] && InPaths(patch, p) && !ServerOwned(p) && !InPaths(Strip(patch), p);
    }
  }

  lemma StripPath(patch: Json, p: Path)
    ensures InPaths(Strip(patch), p) ==>
      InPaths(patch, p) && !ServerOwned(p) && ValueAt(Strip(patch), p) == ValueAt(patch, p)
    ensures ValueAt(patch, ["metadata"]) != Some(EMPTY) && InPaths(patch, p) && !ServerOwned(p) ==>
      InPaths(Strip(patch), p)
  {
    AtKey(patch, "metadata");
    if patch.Obj? && p != [] && p[0] in patch.members {
      var rest, sub := p[1..], patch.members[p[0]];
      assert Touches(patch, p) <==> Touches(sub, rest);
      if p[0] == "metadata" {
        if sub.Obj? {
          StripMetadataPath(sub, rest);
        }
        assert |p| >= 2 ==> rest[0] == p[1];
        assert Touches(sub, rest) && (!sub.Obj? || sub == EMPTY) ==> rest == [];
      } else if p[0] != "status" {
        assert Strip(patch).members[p[0]] == sub;
      }
    }
  }

  lemma StripMetadataPath(md: Json, rest: Path)
    requires md.Obj?
    ensures var kept := Obj(md.members - OWNED_KEYS);
      && (kept != EMPTY && Touches(kept, rest) ==>
           Touches(md, rest) && rest != [] && rest[0] !in OWNED_KEYS && ValueAt(kept, rest) == ValueAt(md, rest))
      && (md != EMPTY && Touches(md, rest) && rest[0] !in OWNED_KEYS ==> kept != EMPTY && Touches(kept, rest))
  {
    var kept := Obj(md.members - OWNED_KEYS);
    if rest != [] && rest[0] in md.members && rest[0] !in OWNED_KEYS {
      assert kept.members[rest[0]] == md.members[rest[0]];
    }
  }

  function Identity(v: Json): (Option<Json>, Option<Json>, Option<Json>, Option<Json>) {
    (ValueAt(v, ["apiVersion"]), ValueAt(v, ["kind"]),
     ValueAt(v, ["metadata", "name"]), ValueAt(v, ["metadata", "namespace"]))
  }

  datatype Decision =
    | IdentityChanged
    | NothingToSend
    | Conflict(stale: seq<Path>)
    | Send(patch: Json)

  predicate Contested(base: Json, latest: Json, p: Path) {
    ValueAt(base, p) != ValueAt(latest, p)
  }

  method StalePaths(paths: seq<Path>, base: Json, latest: Json) returns (stale: seq<Path>)
    ensures forall p :: p in stale <==> p in paths && Contested(base, latest, p)
  {
    stale := [];
    for i := 0 to |paths|
      invariant forall p :: p in stale <==> p in paths[..i] && Contested(base, latest, p)
    {
      if Contested(base, latest, paths[i]) {
        stale := stale + [paths[i]];
      }
    }
    assert paths[..|paths|] == paths;
  }

  method PreparePatch(base: Json, edited: Json) returns (patch: Json)
    ensures patch == Strip(Diff(base, edited))
  {
    var diff := MergePatchDiff(base, edited);
    var doc := new PatchDocument(diff);
    doc.StripServerFields();
    patch := doc.value;
  }

  method CheckPatch(patch: Json, base: Json, latest: Json) returns (d: Decision)
    ensures !d.IdentityChanged? && (d.NothingToSend? <==> patch == EMPTY)
    ensures d.Conflict? ==>
      d.stale != [] && forall p :: p in d.stale <==> InPaths(patch, p) && Contested(base, latest, p)
    ensures d.Send? <==> patch != EMPTY && forall p :: InPaths(patch, p) ==> !Contested(base, latest, p)
    ensures d.Send? ==> d.patch == patch
  {
    hide ValueAt, Touches;
    var paths := PatchPaths.PatchPaths(patch);
    NoPathsOnlyForEmptyPatch(patch);
    assert paths != [] ==> paths[0] in paths;
    if paths == [] {
      return NothingToSend;
    }
    var stale := StalePaths(paths, base, latest);
    assert stale != [] ==> stale[0] in stale;
    return if stale != [] then Conflict(stale) else Send(patch);
  }

  /** What the editor must not change. */
  lemma IdentityIs(v: Json, w: Json)
    ensures Identity(v) == Identity(w) <==>
      && ValueAt(v, ["apiVersion"]) == ValueAt(w, ["apiVersion"]) && ValueAt(v, ["kind"]) == ValueAt(w, ["kind"])
      && ValueAt(v, ["metadata", "name"]) == ValueAt(w, ["metadata", "name"])
      && ValueAt(v, ["metadata", "namespace"]) == ValueAt(w, ["metadata", "namespace"])
  {
    hide ValueAt;
  }

  /** The edit is sent: same identity, something to send, and every touched path
      still has on the server the value it had when the editor was opened. */
  ghost predicate Accepted(base: Json, edited: Json, latest: Json) {
    var patch := Strip(Diff(base, edited));
    && Identity(base) == Identity(edited)
    && patch != EMPTY
    && forall p :: InPaths(patch, p) ==> !Contested(base, latest, p)
  }

  lemma AcceptedIs(base: Json, edited: Json, latest: Json)
    ensures Accepted(base, edited, latest) <==>
      && ValueAt(base, ["apiVersion"]) == ValueAt(edited, ["apiVersion"])
      && ValueAt(base, ["kind"]) == ValueAt(edited, ["kind"])
      && ValueAt(base, ["metadata", "name"]) == ValueAt(edited, ["metadata", "name"])
      && ValueAt(base, ["metadata", "namespace"]) == ValueAt(edited, ["metadata", "namespace"])
      && Strip(Diff(base, edited)) != EMPTY
      && forall p :: InPaths(Strip(Diff(base, edited)), p) ==> ValueAt(base, p) == ValueAt(latest, p)
  {
    IdentityIs(base, edited);
    hide Strip, Diff, ValueAt, InPaths, Identity;
  }

  method PlanEdit(base: Json, edited: Json, latest: Json) returns (d: Decision)
    ensures d.IdentityChanged? <==>
      || ValueAt(base, ["apiVersion"]) != ValueAt(edited, ["apiVersion"])
      || ValueAt(base, ["kind"]) != ValueAt(edited, ["kind"])
      || ValueAt(base, ["metadata", "name"]) != ValueAt(edited, ["metadata", "name"])
      || ValueAt(base, ["metadata", "namespace"]) != ValueAt(edited, ["metadata", "namespace"])
    ensures d.NothingToSend? <==> !d.IdentityChanged? && Strip(Diff(base, edited)) == EMPTY
    ensures d.Conflict? ==>
      && d.stale != []
      && forall p :: p in d.stale <==> InPaths(Strip(Diff(base, edited)), p) && ValueAt(base, p) != ValueAt(latest, p)
    ensures d.Send? <==> Accepted(base, edited, latest)
    ensures d.Send? <==>
      && !d.IdentityChanged? && Strip(Diff(base, edited)) != EMPTY
      && forall p :: InPaths(Strip(Diff(base, edited)), p) ==> ValueAt(base, p) == ValueAt(latest, p)
    ensures d.Send? ==> d.patch == Strip(Diff(base, edited))
  {
    hide Strip, Diff, Identity, InPaths, ValueAt, Accepted;
    IdentityIs(base, edited);
    AcceptedIs(base, edited, latest);
    if Identity(base) != Identity(edited) {
      return IdentityChanged;
    }
    var patch := PreparePatch(base, edited);
    d := CheckPatch(patch, base, latest);
  }

  /** The document after the server merges the patch into its latest version. */
  function Outcome(base: Json, edited: Json, latest: Json): Json {
    MergePatch(latest, Strip(Diff(base, edited)))
  }

  /** A leaf of any patch decides the merged value at its path; only `{}` leaves
      an object that is there already. */
  lemma {:induction false} LeafWins(target: Json, patch: Json, p: Path)
    requires Touches(patch, p)
    ensures ValueAt(MergePatch(target, patch), p) ==
      if p != [] && ValueAt(patch, p) == Some(Null) then None
      else if ValueAt(patch, p) == Some(EMPTY) && HasObjectAt(target, p) then ValueAt(target, p)
      else ValueAt(patch, p)
    decreases |p|
  {
    if p != [] {
      LeafWins(Member(target, p[0]), patch.members[p[0]], p[1..]);
    } else if patch == EMPTY {
      assert MergePatch(target, patch).members == if target.Obj? then target.members else map[];
    }
  }

  predicate Comparable(p: Path, q: Path) {
    p <= q || q <= p
  }

  ghost predicate Clear(patch: Json, q: Path) {
    forall p :: Touches(patch, p) ==> !Comparable(p, q)
  }

  /** A merge keeps the target's value at every path clear of the patch. */
  lemma {:induction false} ClearPathsKept(target: Json, patch: Json, q: Path)
    requires Clear(patch, q)
    ensures ValueAt(MergePatch(target, patch), q) == ValueAt(target, q)
    decreases |q|
  {
    var leaf := SomeLeaf(patch);
    assert !Comparable(leaf, q);
    assert !Comparable([], q) || !Touches(patch, []);
    var k, rest := q[0], q[1..];
    if k in patch.members {
      var sub := patch.members[k];
      forall p | Touches(sub, p) ensures !Comparable(p, rest) {
        var whole := [k] + p;
        assert whole[1..] == p && Touches(patch, whole) && !Comparable(whole, q);
        assert q == [k] + rest;
      }
      var inner := SomeLeaf(sub);
      assert !Comparable(inner, rest);
      ClearPathsKept(Member(target, k), sub, rest);
      assert sub != Null;
    }
  }

  lemma {:induction false} ValueAtSplit(v: Json, p: Path, q: Path)
    requires p <= q
    ensures ValueAt(v, q) == if ValueAt(v, p) == None then None else ValueAt(ValueAt(v, p).value, q[|p|..])
    decreases |p|
  {
    if p == [] {
      assert q[0..] == q;
    } else if v.Obj? && p[0] in v.members {
      ValueAtSplit(v.members[p[0]], p[1..], q[1..]);
      assert q[1..][|p| - 1..] == q[|p|..];
      assert p == [p[0]] + p[1..] && q == [q[0]] + q[1..];
    }
  }

  /** A leaf of the stripped patch carries the edited value, or null where the
      edit has none. */
  lemma PatchCarriesTheEdit(base: Json, edited: Json, p: Path)
    requires InPaths(Strip(Diff(base, edited)), p)
    ensures ValueAt(Strip(Diff(base, edited)), p) ==
      if ValueAt(edited, p) == None then Some(Null) else ValueAt(edited, p)
    ensures ValueAt(edited, p) == Some(EMPTY) ==> !HasObjectAt(base, p)
  {
    StripPath(Diff(base, edited), p);
    EmptyDiff(base, edited);
    if base == edited {
      assert !edited.Obj?;
    } else {
      DiffLeaf(base, edited, p);
    }
  }

  /** At every touched path the outcome holds the edited value. */
  lemma TouchedPathsTakeTheEdit(base: Json, edited: Json, latest: Json, p: Path)
    requires Accepted(base, edited, latest) && InPaths(Strip(Diff(base, edited)), p)
    ensures ValueAt(Outcome(base, edited, latest), p)
         == if p != [] && ValueAt(edited, p) == Some(Null) then None else ValueAt(edited, p)
  {
    assert !Contested(base, latest, p);
    PatchCarriesTheEdit(base, edited, p);
    LeafWins(latest, Strip(Diff(base, edited)), p);
  }

  /** At every path the edit left alone the outcome holds the server's value. */
  lemma UneditedPathsStay(base: Json, edited: Json, latest: Json, q: Path)
    requires Accepted(base, edited, latest)
    requires ValueAt(base, q) == ValueAt(edited, q)
    ensures ValueAt(Outcome(base, edited, latest), q) == ValueAt(latest, q)
  {
    var diff, patch := Diff(base, edited), Strip(Diff(base, edited));
    EmptyDiff(base, edited);
    if p :| Touches(patch, p) && Comparable(p, q) {
      StripPath(diff, p);
      TouchedPathsTakeTheEdit(base, edited, latest, p);
      assert !Contested(base, latest, p);
      if p <= q {
        ValueAtSplit(base, p, q);
        ValueAtSplit(edited, p, q);
        ValueAtSplit(latest, p, q);
        ValueAtSplit(Outcome(base, edited, latest), p, q);
        if base != edited {
          DiffLeaf(base, edited, p);
          LeafValue(patch, p);
        }
      } else {
        ValueAtSplit(base, q, p);
        ValueAtSplit(edited, q, p);
        if base != edited {
          DiffLeaf(base, edited, p);
        }
      }
    } else {
      ClearPathsKept(latest, patch, q);
    }
  }

  lemma IdentityStays(base: Json, edited: Json, latest: Json)
    requires Accepted(base, edited, latest)
    ensures var m := Outcome(base, edited, latest);
      && ValueAt(m, ["apiVersion"]) == ValueAt(latest, ["apiVersion"])
      && ValueAt(m, ["kind"]) == ValueAt(latest, ["kind"])
      && ValueAt(m, ["metadata", "name"]) == ValueAt(latest, ["metadata", "name"])
      && ValueAt(m, ["metadata", "namespace"]) == ValueAt(latest, ["metadata", "namespace"])
  {
    IdentityIs(base, edited);
    hide MergePatch, Strip, Diff, ValueAt, InPaths;
    UneditedPathsStay(base, edited, latest, ["apiVersion"]);
    UneditedPathsStay(base, edited, latest, ["kind"]);
    UneditedPathsStay(base, edited, latest, ["metadata", "name"]);
    UneditedPathsStay(base, edited, latest, ["metadata", "namespace"]);
  }

  /** Three-way merge. An accepted edit leaves the edited value at every touched
      path, the server's value wherever the edit changed nothing or the patch
      does not reach, and the object's identity. */
  lemma ThreeWayMerge(base: Json, edited: Json, latest: Json)
    requires Accepted(base, edited, latest)
    ensures var m, patch := Outcome(base, edited, latest), Strip(Diff(base, edited));
      && (forall p :: InPaths(patch, p) && ValueAt(edited, p) != Some(Null) ==> ValueAt(m, p) == ValueAt(edited, p))
      && (forall q :: ValueAt(base, q) == ValueAt(edited, q) ==> ValueAt(m, q) == ValueAt(latest, q))
      && (forall q :: Clear(patch, q) ==> ValueAt(m, q) == ValueAt(latest, q))
      && (forall p :: p in [["apiVersion"], ["kind"], ["metadata", "name"], ["metadata", "namespace"]] ==>
           ValueAt(m, p) == ValueAt(latest, p))
  {
    hide MergePatch, Strip, Diff, ValueAt, Touches, Identity, Accepted;
    var m, patch := Outcome(base, edited, latest), Strip(Diff(base, edited));
    IdentityStays(base, edited, latest);
    forall p | InPaths(patch, p) && ValueAt(edited, p) != Some(Null)
      ensures ValueAt(m, p) == ValueAt(edited, p)
    {
      TouchedPathsTakeTheEdit(base, edited, latest, p);
    }
    forall q | ValueAt(base, q) == ValueAt(edited, q)
      ensures ValueAt(m, q) == ValueAt(latest, q)
    {
      UneditedPathsStay(base, edited, latest, q);
    }
    forall q | Clear(patch, q) ensures ValueAt(m, q) == ValueAt(latest, q) {
      ClearPathsKept(latest, patch, q);
    }
  }

  /** The edit leaves `status` and the five server-owned metadata fields alone. */
  ghost predicate KeepsServerFields(base: Json, edited: Json) {
    forall q :: ServerOwned(q) ==> ValueAt(base, q) == ValueAt(edited, q)
  }

  lemma NothingToStrip(base: Json, edited: Json)
    requires base.Obj? && edited.Obj? && HasObjectAt(base, ["metadata"]) && KeepsServerFields(base, edited)
    ensures Strip(Diff(base, edited)) == Diff(base, edited)
  {
    var m := Diff(base, edited).members;
    DiffMembers(base, edited);
    assert ServerOwned(["status"]) && "status" !in m;
    assert m - {"status"} == m;
    AtKey(base, "metadata");
    AtKey(edited, "metadata");
    if "metadata" in m && m["metadata"].Obj? {
      MetadataKept(base.members["metadata"], edited.members["metadata"], base, edited);
      var md := m["metadata"].members;
      assert md - OWNED_KEYS == md;
      assert m["metadata" := Obj(md)] == m;
    }
  }

  lemma MetadataKept(bmd: Json, emd: Json, base: Json, edited: Json)
    requires ValueAt(base, ["metadata"]) == Some(bmd) && ValueAt(edited, ["metadata"]) == Some(emd)
    requires bmd != emd && bmd.Obj? && emd.Obj? && KeepsServerFields(base, edited)
    ensures Diff(bmd, emd) != EMPTY && Diff(bmd, emd).members.Keys !! OWNED_KEYS
  {
    EmptyDiff(bmd, emd);
    DiffMembers(bmd, emd);
    forall k | k in SERVER_OWNED ensures ValueAt(bmd, [k]) == ValueAt(emd, [k]) {
      var q := ["metadata", k];
      assert ServerOwned(q) && q[1..] == [k];
      ValueAtSplit(base, ["metadata"], q);
      ValueAtSplit(edited, ["metadata"], q);
    }
  }

  lemma AboveAnOwnedPath(p: Path, q: Path)
    ensures ServerOwned(q) && p <= q ==> p == [] || p == ["metadata"] || ServerOwned(p)
  {
    if ServerOwned(q) && p <= q && |p| == 1 {
      assert p == [q[0]];
    }
  }

  /** No touched path of a stripped diff meets a path the server owns. */
  lemma OwnedPathsAreClear(base: Json, edited: Json, q: Path)
    requires HasObjectAt(base, ["metadata"]) && HasObjectAt(edited, ["metadata"]) && ServerOwned(q)
    requires Strip(Diff(base, edited)) != EMPTY
    ensures Clear(Strip(Diff(base, edited)), q)
  {
    var diff, patch := Diff(base, edited), Strip(Diff(base, edited));
    EmptyDiff(base, edited);
    forall p | Touches(patch, p) ensures !Comparable(p, q) {
      StripPath(diff, p);
      DiffLeaf(base, edited, p);
      LeafValue(diff, p);
      assert p != [] && p != ["metadata"];
      AboveAnOwnedPath(p, q);
    }
  }

  /** What the stripping is for: a merge leaves every field the server owns as
      the server has it. */
  lemma OwnedFieldsKept(base: Json, edited: Json, latest: Json, q: Path)
    requires HasObjectAt(base, ["metadata"]) && HasObjectAt(edited, ["metadata"]) && ServerOwned(q)
    requires latest.Obj? || Strip(Diff(base, edited)) != EMPTY
    ensures ValueAt(Outcome(base, edited, latest), q) == ValueAt(latest, q)
  {
    var patch := Strip(Diff(base, edited));
    if patch == EMPTY {
      assert MergePatch(latest, EMPTY).members == latest.members;
    } else {
      OwnedPathsAreClear(base, edited, q);
      ClearPathsKept(latest, patch, q);
    }
  }

  /** With nobody else writing, the outcome is the edited document itself exactly
      when the edit leaves the server's fields alone and introduces no null. */
  lemma UncontestedEdit(base: Json, edited: Json)
    requires HasObjectAt(base, ["metadata"]) && HasObjectAt(edited, ["metadata"])
    ensures Outcome(base, edited, base) == edited <==> KeepsServerFields(base, edited) && Expressible(base, edited)
  {
    DiffRoundTrip(base, edited);
    if KeepsServerFields(base, edited) {
      NothingToStrip(base, edited);
    } else {
      var q :| ServerOwned(q) && ValueAt(base, q) != ValueAt(edited, q);
      OwnedFieldsKept(base, edited, base, q);
    }
  }

  /** The server may change between the check and the patch. Whatever document
      is current when the patch arrives, a touched path takes the edited value
      unless that is `{}` and an object with members has appeared there, and
      every clear path keeps its current value. */
  lemma LatePatch(base: Json, edited: Json, latest: Json, current: Json)
    requires Accepted(base, edited, latest)
    ensures var m, patch := Outcome(base, edited, current), Strip(Diff(base, edited));
      && (forall p :: InPaths(patch, p) && ValueAt(edited, p) != Some(Null) ==>
           (ValueAt(m, p) == ValueAt(edited, p) <==> !Reappeared(edited, current, p)))
      && (forall q :: Clear(patch, q) ==> ValueAt(m, q) == ValueAt(current, q))
  {
    var patch := Strip(Diff(base, edited));
    forall p | InPaths(patch, p) && ValueAt(edited, p) != Some(Null)
      ensures ValueAt(Outcome(base, edited, current), p) == ValueAt(edited, p) <==> !Reappeared(edited, current, p)
    {
      PatchCarriesTheEdit(base, edited, p);
      LeafWins(current, patch, p);
    }
    forall q | Clear(patch, q) ensures ValueAt(Outcome(base, edited, current), q) == ValueAt(current, q) {
      ClearPathsKept(current, patch, q);
    }
  }

  /** The edit empties or adds an object where the current document has members. */
  predicate Reappeared(edited: Json, current: Json, p: Path) {
    && ValueAt(edited, p) == Some(EMPTY) && ValueAt(current, p).Some?
    && ValueAt(current, p).value.Obj? && ValueAt(current, p).value != EMPTY
  }

  lemma {:induction false} AboveALeafIsAnObject(target: Json, patch: Json, p: Path, q: Path)
    requires Touches(patch, p) && q < p
    ensures HasObjectAt(MergePatch(target, patch), q)
    decreases |q|
  {
    if q != [] {
      var k := q[0];
      assert p[0] == k && q[1..] < p[1..];
      AboveALeafIsAnObject(Member(target, k), patch.members[k], p[1..], q[1..]);
    }
  }

  /** The path `p` runs through `q` to something below it. */
  predicate Through(p: Path, q: Path) {
    q < p
  }

  /** Where the server has no object, its value, or its absence, survives a merge
      that touches nothing at or above it exactly when no touched path runs
      through it. */
  lemma ServerValueSurvives(latest: Json, patch: Json, q: Path)
    requires !HasObjectAt(latest, q)
    requires forall p :: Touches(patch, p) ==> !(p <= q)
    ensures ValueAt(MergePatch(latest, patch), q) == ValueAt(latest, q)
       <==> forall p :: Touches(patch, p) ==> !Through(p, q)
  {
    if p :| Touches(patch, p) && Through(p, q) {
      AboveALeafIsAnObject(latest, patch, p, q);
      assert ValueAt(MergePatch(latest, patch), q) != ValueAt(latest, q);
    } else {
      forall p | Touches(patch, p) ensures !Comparable(p, q) {
        assert !Through(p, q) && !(p <= q);
      }
      ClearPathsKept(latest, patch, q);
    }
  }

  ghost predicate Runs(patch: Json, q: Path) {
    exists p :: InPaths(patch, p) && Through(p, q)
  }

  /** Someone else changed `q` since the editor was opened, to a plain value or to
      nothing, and the merge does not keep that. */
  ghost predicate Lost(base: Json, latest: Json, m: Json, q: Path) {
    Contested(base, latest, q) && !HasObjectAt(latest, q) && ValueAt(m, q) != ValueAt(latest, q)
  }

  /** What the conflict check does not see. An accepted edit loses nobody's change
      exactly when every changed path above a touched one still is an object. */
  lemma NothingIsLost(base: Json, edited: Json, latest: Json)
    requires Accepted(base, edited, latest)
    ensures (forall q :: !Lost(base, latest, Outcome(base, edited, latest), q))
       <==> forall q :: Runs(Strip(Diff(base, edited)), q) && Contested(base, latest, q) ==> HasObjectAt(latest, q)
  {
    hide Strip, Diff, ValueAt, MergePatch, Touches;
    var m, patch := Outcome(base, edited, latest), Strip(Diff(base, edited));
    forall q ensures Lost(base, latest, m, q) <==>
      Runs(patch, q) && Contested(base, latest, q) && !HasObjectAt(latest, q)
    {
      LostAt(base, edited, latest, q);
    }
  }

  lemma LostAt(base: Json, edited: Json, latest: Json, q: Path)
    requires Accepted(base, edited, latest)
    ensures Lost(base, latest, Outcome(base, edited, latest), q)
       <==> Runs(Strip(Diff(base, edited)), q) && Contested(base, latest, q) && !HasObjectAt(latest, q)
  {
    hide Strip, Diff, Touches, MergePatch;
    var patch := Strip(Diff(base, edited));
    if Contested(base, latest, q) && !HasObjectAt(latest, q) {
      forall p | Touches(patch, p) ensures !(p <= q) {
        assert InPaths(patch, p) && !Contested(base, latest, p);
        if p <= q {
          ValueAtSplit(base, p, q);
          ValueAtSplit(latest, p, q);
        }
      }
      ServerValueSurvives(latest, patch, q);
    }
  }

  /** What a patch with the touched path `p` leaves at a path `q` at or below it. */
  function Put(edited: Json, current: Json, p: Path, q: Path): Option<Json> {
    if Reappeared(edited, current, p) then ValueAt(current, q)
    else if p != [] && ValueAt(edited, p) == Some(Null) then None
    else ValueAt(edited, q)
  }

  lemma BelowATouchedPath(base: Json, edited: Json, current: Json, p: Path, q: Path)
    requires InPaths(Strip(Diff(base, edited)), p) && p <= q
    ensures ValueAt(Outcome(base, edited, current), q) == Put(edited, current, p, q)
  {
    var patch, m := Strip(Diff(base, edited)), Outcome(base, edited, current);
    PatchCarriesTheEdit(base, edited, p);
    LeafWins(current, patch, p);
    ValueAtSplit(m, p, q);
    ValueAtSplit(current, p, q);
    ValueAtSplit(edited, p, q);
    hide Strip, Diff, MergePatch, Touches;
  }

  lemma OnePathAbove(patch: Json, p: Path, r: Path, q: Path)
    requires Touches(patch, p) && Touches(patch, r) && p <= q && r <= q
    ensures p == r
  {
    if |p| <= |r| {
      PathsArePrefixFree(patch, p, r);
    } else {
      PathsArePrefixFree(patch, r, p);
    }
  }

  /** What happens to a change that arrives before the patch does, checked or
      not: where the current document has a plain value or nothing, the merge
      keeps that exactly when no touched path runs through it and a touched path
      at or above it puts the same there. */
  lemma LateChangeSurvives(base: Json, edited: Json, current: Json, q: Path)
    requires Strip(Diff(base, edited)) != EMPTY && !HasObjectAt(current, q)
    ensures var patch := Strip(Diff(base, edited));
      ValueAt(Outcome(base, edited, current), q) == ValueAt(current, q)
      <==>
      && !Runs(patch, q)
      && forall p :: InPaths(patch, p) && p <= q ==> Put(edited, current, p, q) == ValueAt(current, q)
  {
    hide Strip, Diff, Touches, MergePatch, Put, ValueAt;
    var patch := Strip(Diff(base, edited));
    if p :| InPaths(patch, p) && p <= q {
      BelowATouchedPath(base, edited, current, p, q);
      forall r | InPaths(patch, r) && r <= q ensures r == p {
        OnePathAbove(patch, p, r, q);
      }
      forall r | InPaths(patch, r) ensures !Through(r, q) {
        if Through(r, q) {
          PathsArePrefixFree(patch, p, r);
        }
      }
    } else {
      forall p | Touches(patch, p) ensures !(p <= q) {
        assert InPaths(patch, p) || !InPaths(patch, p);
      }
      ServerValueSurvives(current, patch, q);
    }
  }

  function Spec(v: Json): Json {
    Obj(map["spec" := v])
  }

  const ADDED := Obj(map["a" := Bool(true)])

  lemma SpecPatch(q: Path)
    requires Touches(Spec(ADDED), q)
    ensures q == ["spec", "a"]
  {
    assert "spec" in Spec(ADDED).members && "a" in ADDED.members;
    assert Touches(ADDED, q[1..]);
    assert Touches(Bool(true), q[1..][1..]);
    assert q == ["spec"] + (["a"] + []);
  }

  lemma SpecDiff()
    ensures Diff(Spec(EMPTY), Spec(ADDED)) == Spec(ADDED)
  {
    var d := Diff(EMPTY, ADDED);
    assert "a" in ADDED.members;
    assert d.members == ADDED.members;
    var m := Diff(Spec(EMPTY), Spec(ADDED)).members;
    assert "spec" in Spec(EMPTY).members && "spec" in Spec(ADDED).members;
    assert m.Keys == {"spec"} && m["spec"] == d;
  }

  lemma SpecStrip()
    ensures Strip(Spec(ADDED)) == Spec(ADDED)
  {
    var m := Spec(ADDED).members;
    assert |"spec"| != |"status"| && |"spec"| != |"metadata"|;
    assert m - {"status"} == m;
  }

  lemma SpecAt(v: Json)
    ensures ValueAt(Spec(v), ["spec"]) == Some(v)
    ensures ValueAt(Spec(v), ["spec", "a"]) == if v.Obj? && "a" in v.members then Some(v.members["a"]) else None
  {
    AtKey(Spec(v), "spec");
    AtKey(v, "a");
    assert ["spec", "a"][1..] == ["a"];
  }

  /** Whatever the server did otherwise, an absent `spec.a` is no conflict. */
  lemma SpecAccepted(latest: Json)
    ensures Strip(Diff(Spec(EMPTY), Spec(ADDED))) == Spec(ADDED)
    ensures Accepted(Spec(EMPTY), Spec(ADDED), latest) <==> ValueAt(latest, ["spec", "a"]) == None
  {
    SpecDiff();
    SpecStrip();
    SpecAt(EMPTY);
    SpecTouched();
    forall q | InPaths(Spec(ADDED), q) ensures q == ["spec", "a"] {
      SpecPatch(q);
    }
    assert "spec" in Spec(ADDED).members;
    SpecIdentity(EMPTY);
    SpecIdentity(ADDED);
    hide ValueAt, Diff, Strip, Touches, Identity;
  }

  lemma SpecTouched()
    ensures InPaths(Spec(ADDED), ["spec", "a"])
  {
    var q := SomeLeaf(Spec(ADDED));
    SpecPatch(q);
    assert "spec" in Spec(ADDED).members;
  }

  /** Such a loss passes the conflict check: the edit adds `spec.a` under an
      object the server meanwhile replaced by a number. */
  lemma OverwritesAConcurrentScalar()
    ensures Accepted(Spec(EMPTY), Spec(ADDED), Spec(Num(Whole(7))))
    ensures Outcome(Spec(EMPTY), Spec(ADDED), Spec(Num(Whole(7)))) == Spec(ADDED)
    ensures Lost(Spec(EMPTY), Spec(Num(Whole(7))), Spec(ADDED), ["spec"])
  {
    SpecAt(Num(Whole(7)));
    SpecAt(EMPTY);
    SpecAt(ADDED);
    SpecAccepted(Spec(Num(Whole(7))));
    SpecMerge(Spec(Num(Whole(7))));
  }

  /** So does this one: the server meanwhile deleted that object, and the edit
      brings it back. */
  lemma UndoesAConcurrentDeletion()
    ensures Accepted(Spec(EMPTY), Spec(ADDED), EMPTY)
    ensures Outcome(Spec(EMPTY), Spec(ADDED), EMPTY) == Spec(ADDED)
    ensures Lost(Spec(EMPTY), EMPTY, Spec(ADDED), ["spec"])
  {
    AtKey(EMPTY, "spec");
    SpecAt(EMPTY);
    SpecAt(ADDED);
    SpecAccepted(EMPTY);
    SpecMerge(EMPTY);
  }

  const LATE := Obj(map["a" := Num(Whole(7))])

  /** And a change at the very path of the edit, for which the check would have
      refused it, is overwritten if it arrives after the check. */
  lemma OverwritesALateChange()
    ensures Accepted(Spec(EMPTY), Spec(ADDED), Spec(EMPTY)) && !Accepted(Spec(EMPTY), Spec(ADDED), Spec(LATE))
    ensures Outcome(Spec(EMPTY), Spec(ADDED), Spec(LATE)) == Spec(ADDED)
    ensures Lost(Spec(EMPTY), Spec(LATE), Spec(ADDED), ["spec", "a"])
  {
    assert "a" in LATE.members && "a" in ADDED.members;
    SpecAt(EMPTY);
    SpecAt(LATE);
    SpecAt(ADDED);
    SpecAccepted(Spec(EMPTY));
    SpecAccepted(Spec(LATE));
    SpecMerge(Spec(LATE));
    hide Accepted, Strip, Diff;
  }

  lemma SpecMerge(latest: Json)
    requires latest.Obj? && Keys(latest) <= {"spec"} && Keys(Member(latest, "spec")) <= {"a"}
    ensures MergePatch(latest, Spec(ADDED)) == Spec(ADDED)
  {
    MergeOneMember(Member(latest, "spec"), "a", Bool(true));
    MergeOneMember(latest, "spec", ADDED);
  }

  lemma MergeOneMember(target: Json, k: string, v: Json)
    requires Keys(target) <= {k} && v != Null
    ensures MergePatch(target, Obj(map[k := v])) == Obj(map[k := MergePatch(Member(target, k), v)])
  {
    var patch := Obj(map[k := v]);
    assert k in patch.members && patch.members[k] == v;
    var m := MergePatch(target, patch).members;
    assert forall j :: j in m <==> j == k;
    assert m[k] == MergePatch(Member(target, k), v);
    hide MergePatch;
    assert m == map[k := m[k]];
  }

  lemma SpecIdentity(v: Json)
    ensures Identity(Spec(v)) == (None, None, None, None)
  {
    assert |"spec"| != |"apiVersion"| && |"spec"| != |"metadata"|;
    assert "kind"[0] != "spec"[0];
  }
}
