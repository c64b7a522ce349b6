/** `patch_paths`: the leaf paths a merge patch touches. */
module PatchPaths {
  import opened Options
  import opened Sequences
  import opened JsonDocs
  import opened MergeDiff

  /** `p` leads to a leaf of `patch`: anything but an object with members. */
  predicate Touches(patch: Json, p: Path) {
    if p == [] then !patch.Obj? || patch == EMPTY
    else patch.Obj? && p[0] in patch.members && Touches(patch.members[p[0]], p[1..])
  }

  /** The empty patch has no path at all, although it is a leaf. */
  predicate InPaths(patch: Json, p: Path) {
    patch != EMPTY && Touches(patch, p)
  }

  lemma DistinctConcat(ps: seq<Path>, qs: seq<Path>)
    requires Distinct(ps) && Distinct(qs)
    requires forall q :: q in ps ==> q !in qs
    ensures Distinct(ps + qs)
  {
    forall i, j | 0 <= i < j < |ps + qs| ensures (ps + qs)[i] != (ps + qs)[j] {
      if i < |ps| <= j {
        assert ps[i] in ps && qs[j - |ps|] in qs;
      }
    }
  }

  /** `q` continues `prefix` through a key of `keys` to a leaf of `v`. */
  ghost predicate Below(q: Path, prefix: Path, v: Json, keys: set<string>)
  {
    && prefix < q && v.Obj? && q[|prefix|] in keys && q[|prefix|] in v.members
    && Touches(v.members[q[|prefix|]], q[|prefix| + 1..])
  }

  class PathWalker {
    var prefix: Path
    var out: seq<Path>

    constructor ()
      ensures prefix == [] && out == []
    {
      prefix, out := [], [];
    }

    method Walk(v: Json)
      modifies this
      ensures prefix == old(prefix) && old(out) <= out
      ensures Distinct(out[|old(out)|..])
      ensures forall q :: q in out[|old(out)|..] <==> prefix <= q && Touches(v, q[|prefix|..])
      decreases v
    {
      ghost var start := |out|;
      if v.Obj? && v != EMPTY {
        var todo := v.members.Keys;
        while todo != {}
          invariant todo <= v.members.Keys
          invariant prefix == old(prefix) && start <= |out| && out[..start] == old(out)
          invariant Distinct(out[start..])
          invariant forall q :: q in out[start..] <==> Below(q, prefix, v, v.members.Keys - todo)
        {
          var k :| k in todo;
          ghost var done, mid := v.members.Keys - todo, |out|;
          ghost var before := out[start..];
          prefix := prefix + [k];
          Walk(v.members[k]);
          ghost var added := out[mid..];
          assert out[start..] == before + added;
          forall q ensures q in added <==> Below(q, old(prefix), v, {k}) {
            if prefix <= q {
              assert q[|prefix|..] == q[|old(prefix)| + 1..];
            }
          }
          prefix := prefix[..|prefix| - 1];
          todo := todo - {k};
          forall q ensures q in out[start..] <==> Below(q, prefix, v, v.members.Keys - todo) {
            assert q in out[start..] <==> q in before || q in added;
          }
          DistinctConcat(before, added);
        }
        forall q ensures Below(q, prefix, v, v.members.Keys) <==> prefix <= q && Touches(v, q[|prefix|..]) {
          if prefix < q {
            assert q[|prefix|..][0] == q[|prefix|] && q[|prefix|..][1..] == q[|prefix| + 1..];
          }
        }
      } else {
        out := out + [prefix];
        assert out[start..] == [prefix];
        forall q ensures q == prefix <==> prefix <= q && Touches(v, q[|prefix|..]) {
          if prefix <= q && |q| == |prefix| {
            assert q == prefix;
          }
        }
      }
    }
  }

  method PatchPaths(patch: Json) returns (out: seq<Path>)
    ensures Distinct(out)
    ensures forall p :: p in out <==> InPaths(patch, p)
  {
    if patch == EMPTY {
      return [];
    }
    var w := new PathWalker();
    w.Walk(patch);
    assert w.out[0..] == w.out;
    forall p ensures p in w.out <==> Touches(patch, p) {
      assert p[0..] == p;
    }
    return w.out;
  }

  /** No touched path is a proper prefix of another one. */
  lemma {:induction false} PathsArePrefixFree(patch: Json, p: Path, q: Path)
    requires Touches(patch, p) && Touches(patch, q) && p <= q
    ensures p == q
    decreases |p|
  {
    if p != [] {
      PathsArePrefixFree(patch.members[p[0]], p[1..], q[1..]);
      assert p == [p[0]] + p[1..] && q == [q[0]] + q[1..];
    }
  }

  /** Every patch reaches some leaf. */
  lemma {:induction false} SomeLeaf(patch: Json) returns (p: Path)
    ensures Touches(patch, p)
    decreases patch
  {
    if patch.Obj? && patch != EMPTY {
      var k :| k in patch.members;
      var rest := SomeLeaf(patch.members[k]);
      p := [k] + rest;
      assert p[1..] == rest;
    } else {
      p := [];
    }
  }

  lemma NoPathsOnlyForEmptyPatch(patch: Json)
    ensures (exists p :: InPaths(patch, p)) <==> patch != EMPTY
  {
    var p := SomeLeaf(patch);
    assert patch != EMPTY ==> InPaths(patch, p);
  }

  /** For two objects the diff has no path exactly when they are equal. */
  lemma UntouchedMeansEqual(base: Json, edited: Json)
    requires base.Obj? && edited.Obj?
    ensures (forall p :: !InPaths(Diff(base, edited), p)) <==> base == edited
  {
    NoPathsOnlyForEmptyPatch(Diff(base, edited));
    EmptyDiff(base, edited);
  }

  lemma {:induction false} LeafValue(v: Json, p: Path)
    requires Touches(v, p)
    ensures ValueAt(v, p).Some? && (!ValueAt(v, p).value.Obj? || ValueAt(v, p).value == EMPTY)
    decreases |p|
  {
    if p != [] {
      LeafValue(v.members[p[0]], p[1..]);
    }
  }

  ghost predicate HasObjectAt(v: Json, p: Path) {
    ValueAt(v, p).Some? && ValueAt(v, p).value.Obj?
  }

  /** A leaf of the diff is a real change and carries the edited value: `Null`
      where the edit has no member (or an explicit null), the value itself
      elsewhere, and never `{}` over an object. */
  lemma {:induction false} DiffLeaf(base: Json, edited: Json, p: Path)
    requires base != edited && Touches(Diff(base, edited), p)
    ensures ValueAt(base, p) != ValueAt(edited, p)
    ensures ValueAt(Diff(base, edited), p) == if ValueAt(edited, p) == None then Some(Null) else ValueAt(edited, p)
    ensures ValueAt(edited, p) == Some(EMPTY) ==> !HasObjectAt(base, p)
    decreases |p|
  {
    if !base.Obj? || !edited.Obj? {
      LeafValue(edited, p);
    } else {
      EmptyDiff(base, edited);
      var k, rest := p[0], p[1..];
      var b, e := base.members, edited.members;
      DiffMembers(base, edited);
      if k in b && k in e {
        DiffLeaf(b[k], e[k], rest);
      } else if k in e {
        LeafValue(e[k], rest);
      }
    }
  }
}
