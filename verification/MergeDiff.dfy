/** `merge_patch_diff`: the merge patch that turns one document into another. */
module MergeDiff {
  import opened Options
  import opened JsonDocs

  function Diff(base: Json, edited: Json): Json
    decreases base
  {
    if !base.Obj? || !edited.Obj? then edited
    else
      var b, e := base.members, edited.members;
      Obj(map k | k in b.Keys + e.Keys
                  && (k in b && k in e ==> b[k] != e[k] && !Vacuous(b[k], Diff(b[k], e[k])))
          :: if k !in e then Null else if k in b then Diff(b[k], e[k]) else e[k])
  }

  /** The guard under which the source leaves a changed member out of the patch. */
  predicate Vacuous(old_: Json, sub: Json) {
    sub == EMPTY && old_.Obj?
  }

  method MergePatchDiff(base: Json, edited: Json) returns (patch: Json)
    ensures patch == Diff(base, edited)
    decreases base
  {
    if !base.Obj? || !edited.Obj? {
      return edited;
    }
    var b, e := base.members, edited.members;
    var out: map<string, Json> := map[];
    ghost var full := Diff(base, edited).members;
    var todo := b.Keys;
    while todo != {}
      invariant todo <= b.Keys
      invariant forall k :: k in out <==> k in full && k in b.Keys - todo
      invariant forall k :: k in out ==> out[k] == full[k]
    {
      var k :| k in todo;
      if k !in e {
        out := out[k := Null];
      } else if b[k] != e[k] {
        var sub := MergePatchDiff(b[k], e[k]);
        if !Vacuous(b[k], sub) {
          out := out[k := sub];
        }
      }
      todo := todo - {k};
    }
    todo := e.Keys;
    while todo != {}
      invariant todo <= e.Keys
      invariant forall k :: k in out <==> k in full && (k in b || k !in todo)
      invariant forall k :: k in out ==> out[k] == full[k]
    {
      var k :| k in todo;
      if k !in b {
        out := out[k := e[k]];
      }
      todo := todo - {k};
    }
    assert out == full;
    return Obj(out);
  }

  /** The diff is `{}` exactly for equal objects, and for `{}` replacing a non-object. */
  lemma {:induction false} EmptyDiff(base: Json, edited: Json)
    ensures Diff(base, edited) == EMPTY <==> edited.Obj? && (if base.Obj? then base == edited else edited == EMPTY)
    decreases base
  {
    if base.Obj? && edited.Obj? {
      var b, e := base.members, edited.members;
      var d := Diff(base, edited).members;
      if base != edited {
        var k :| k in b.Keys + e.Keys && (k !in b || k !in e || b[k] != e[k]);
        if k in b && k in e {
          EmptyDiff(b[k], e[k]);
        }
        assert k in d;
      } else {
        assert d == map[];
      }
    }
  }

  /** So the vacuous guard never drops a change: the patch has a member for
      exactly the keys whose value differs. */
  lemma DiffMembers(base: Json, edited: Json)
    requires base.Obj? && edited.Obj?
    ensures Diff(base, edited).members.Keys ==
      set k | k in base.members.Keys + edited.members.Keys && ValueAt(base, [k]) != ValueAt(edited, [k])
  {
    var b, e := base.members, edited.members;
    forall k | k in b.Keys + e.Keys
      ensures k in Diff(base, edited).members <==> ValueAt(base, [k]) != ValueAt(edited, [k])
    {
      if k in b && k in e {
        EmptyDiff(b[k], e[k]);
      }
    }
  }

  /** Every null member of `edited` was already there: the edit introduces none. */
  ghost predicate Expressible(base: Json, edited: Json)
    decreases edited, 1
  {
    edited.Obj? ==> forall k :: k in edited.members ==> MemberExpressible(base, edited, k)
  }

  ghost predicate MemberExpressible(base: Json, edited: Json, k: string)
    requires edited.Obj?
    decreases edited, 0
  {
    k in edited.members ==>
      || (base.Obj? && k in base.members && base.members[k] == edited.members[k])
      || (edited.members[k] != Null && Expressible(Member(base, k), edited.members[k]))
  }

  lemma {:induction false} NoNullsAreExpressible(base: Json, edited: Json)
    requires NoNullMembers(edited)
    ensures Expressible(base, edited)
    decreases edited
  {
    if edited.Obj? {
      forall k | k in edited.members ensures Expressible(Member(base, k), edited.members[k]) {
        NoNullsAreExpressible(Member(base, k), edited.members[k]);
      }
    }
  }

  lemma {:induction false} ExpressibleFromNothing(base: Json, edited: Json)
    requires !base.Obj?
    ensures Expressible(base, edited) <==> NoNullMembers(edited)
    decreases edited
  {
    if edited.Obj? {
      forall k | k in edited.members
        ensures Expressible(Member(base, k), edited.members[k]) <==> NoNullMembers(edited.members[k])
      {
        ExpressibleFromNothing(Null, edited.members[k]);
      }
    }
  }

  /** Round trip: merging the diff into the base gives the edited document
      exactly when the edit introduces no explicit null member. */
  lemma {:induction false} DiffRoundTrip(base: Json, edited: Json)
    ensures MergePatch(base, Diff(base, edited)) == edited <==> Expressible(base, edited)
    decreases base
  {
    if !edited.Obj? {
    } else if !base.Obj? {
      MergeOntoNothing(base, edited);
      ExpressibleFromNothing(base, edited);
    } else {
      var b, e := base.members, edited.members;
      DiffMembers(base, edited);
      var d := Diff(base, edited).members;
      var m := MergePatch(base, Obj(d)).members;
      forall k | k in b.Keys + e.Keys
        ensures ValueAt(Obj(m), [k]) == ValueAt(edited, [k]) <==> MemberExpressible(base, edited, k)
      {
        MemberRoundTrip(base, edited, k);
      }
      if forall k :: k in e ==> MemberExpressible(base, edited, k) {
        forall k ensures ValueAt(Obj(m), [k]) == ValueAt(edited, [k]) {
          assert k in b.Keys + e.Keys || (k !in m && k !in e);
        }
        SameMembers(Obj(m), edited);
      }
    }
  }

  lemma {:induction false} MemberRoundTrip(base: Json, edited: Json, k: string)
    requires base.Obj? && edited.Obj? && k in base.members.Keys + edited.members.Keys
    ensures ValueAt(MergePatch(base, Diff(base, edited)), [k]) == ValueAt(edited, [k])
       <==> MemberExpressible(base, edited, k)
    decreases base, 0
  {
    var b, e := base.members, edited.members;
    DiffMembers(base, edited);
    var d := Diff(base, edited).members;
    if k in b && k in e && b[k] != e[k] {
      DiffRoundTrip(b[k], e[k]);
      assert d[k] == Diff(b[k], e[k]);
    } else if k in e && k !in b {
      MergeOntoNothing(Null, e[k]);
      ExpressibleFromNothing(Null, e[k]);
    }
  }

  lemma SameMembers(v: Json, w: Json)
    requires v.Obj? && w.Obj?
    requires forall k :: ValueAt(v, [k]) == ValueAt(w, [k])
    ensures v == w
  {
    forall k ensures k in v.members <==> k in w.members
             ensures k in v.members ==> v.members[k] == w.members[k]
    {
      AtKey(v, k);
      AtKey(w, k);
    }
    assert v.members == w.members;
  }

  lemma AtKey(v: Json, k: string)
    ensures ValueAt(v, [k]) == if v.Obj? && k in v.members then Some(v.members[k]) else None
  {
    assert [k][0] == k && [k][1..] == [];
  }
}
