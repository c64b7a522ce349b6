/** The fuzzy row filter: a greedy subsequence test. */
module FuzzyMatch {
  /** Consumes `chars` up to and including the first `c`, or all of it. */
  method AnyIs(hay: string, from: nat, c: char) returns (found: bool, rest: nat)
    requires from <= |hay|
    ensures from <= rest <= |hay| && (found ==> from < rest && hay[rest - 1] == c)
    ensures forall i :: from <= i < rest - (if found then 1 else 0) ==> hay[i] != c
    ensures !found ==> rest == |hay|
  {
    rest := from;
    while rest < |hay|
      invariant from <= rest <= |hay| && forall i :: from <= i < rest ==> hay[i] != c
    {
      rest := rest + 1;
      if hay[rest - 1] == c {
        return true, rest;
      }
    }
    found := false;
  }

  method FuzzyMatch(hay: string, needle: string) returns (r: bool)
    ensures r <==> exists at :: Spells(hay, needle, at)
  {
    var rest := 0;
    var k := 0;
    ghost var at: seq<nat> := [];
    while k < |needle|
      invariant k <= |needle| && rest <= |hay| && Spells(hay, needle[..k], at)
      invariant rest == if k == 0 then 0 else at[k - 1] + 1
      invariant forall other :: Spells(hay, needle[..k], other) && k > 0 ==> rest <= other[k - 1] + 1
    {
      var found, next := AnyIs(hay, rest, needle[k]);
      NextIsEarliest(hay, needle, k, rest, next, found);
      if !found {
        NoneSpellsTheRest(hay, needle, needle[..k + 1]);
        return false;
      }
      at := at + [next - 1];
      rest := next;
      k := k + 1;
    }
    assert needle[..k] == needle;
    r := true;
  }

  /** Strictly increasing positions in `hay` that spell `needle`. */
  ghost predicate Spells(hay: string, needle: string, at: seq<nat>) {
    && |at| == |needle|
    && (forall i :: 0 <= i < |at| ==> at[i] < |hay| && hay[at[i]] == needle[i])
    && (forall i, j :: 0 <= i < j < |at| ==> at[i] < at[j])
  }

  lemma SpellsPrefix(hay: string, needle: string, at: seq<nat>, k: nat)
    requires Spells(hay, needle, at) && k <= |needle|
    ensures Spells(hay, needle[..k], at[..k])
  {
  }

  /** No choice of positions can finish the next character sooner. */
  lemma NextIsEarliest(hay: string, needle: string, k: nat, rest: nat, next: nat, found: bool)
    requires k < |needle| && rest <= next <= |hay|
    requires forall other :: Spells(hay, needle[..k], other) && k > 0 ==> rest <= other[k - 1] + 1
    requires k == 0 ==> rest == 0
    requires forall i :: rest <= i < next - (if found then 1 else 0) ==> hay[i] != needle[k]
    requires !found ==> next == |hay|
    ensures forall other :: Spells(hay, needle[..k + 1], other) ==> found && next <= other[k] + 1
  {
    forall other | Spells(hay, needle[..k + 1], other) ensures found && next <= other[k] + 1 {
      SpellsPrefix(hay, needle[..k + 1], other, k);
      assert needle[..k + 1][..k] == needle[..k] && needle[..k + 1][k] == needle[k];
      assert k > 0 ==> rest <= other[..k][k - 1] + 1 <= other[k];
      assert hay[other[k]] == needle[k];
    }
  }

  lemma NoneSpellsTheRest(hay: string, needle: string, prefix: string)
    requires prefix <= needle && !exists other :: Spells(hay, prefix, other)
    ensures !exists at :: Spells(hay, needle, at)
  {
    assert needle[..|prefix|] == prefix;
    forall at | Spells(hay, needle, at) ensures false {
      SpellsPrefix(hay, needle, at, |prefix|);
    }
  }
}
