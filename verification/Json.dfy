/** JSON documents, lookup by path, and the server side of an edit: the merge
    patch of section 2 of RFC 7386. */
module JsonDocs {
  import opened Options

  /** Integers and floats stay distinct, as `1` and `1.0` do in the source's library. */
  datatype Number = Whole(n: int) | Float(r: real)

  datatype Json =
    | Null
    | Bool(b: bool)
    | Num(num: Number)
    | Str(s: string)
    | Arr(items: seq<Json>)
    | Obj(members: map<string, Json>)

  type Path = seq<string>

  const EMPTY := Obj(map[])

  function ValueAt(v: Json, path: Path): Option<Json> {
    if path == [] then Some(v)
    else if v.Obj? && path[0] in v.members then ValueAt(v.members[path[0]], path[1..])
    else None
  }

  /** What a merge sees under key `k`: an absent member behaves like any non-object. */
  function Member(v: Json, k: string): Json {
    if v.Obj? && k in v.members then v.members[k] else Null
  }

  function Keys(v: Json): set<string> {
    if v.Obj? then v.members.Keys else {}
  }

  function MergePatch(target: Json, patch: Json): Json
    decreases patch
  {
    if !patch.Obj? then patch
    else
      Obj(map k | k in Keys(target) + patch.members.Keys
                  && (k in patch.members ==> patch.members[k] != Null)
          :: if k in patch.members
             then MergePatch(Member(target, k), patch.members[k])
             else Member(target, k))
  }

  /** No object member, at any depth outside arrays, is an explicit null. */
  ghost predicate NoNullMembers(v: Json) {
    v.Obj? ==> forall k :: k in v.members ==> v.members[k] != Null && NoNullMembers(v.members[k])
  }

  /** Merging onto a non-object rebuilds exactly the documents without null members. */
  lemma {:induction false} MergeOntoNothing(target: Json, v: Json)
    requires !target.Obj?
    ensures MergePatch(target, v) == v <==> NoNullMembers(v)
    decreases v
  {
    if v.Obj? {
      var m := MergePatch(target, v).members;
      forall k | k in v.members
        ensures MergePatch(Null, v.members[k]) == v.members[k] <==> NoNullMembers(v.members[k])
      {
        MergeOntoNothing(Null, v.members[k]);
      }
      if NoNullMembers(v) {
        assert m == v.members;
      } else {
        var k :| k in v.members && (v.members[k] == Null || !NoNullMembers(v.members[k]));
        assert k !in m || m[k] != v.members[k];
      }
    }
  }
}
