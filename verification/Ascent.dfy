/** Finite sets: their sizes, and numbers visited in ascending order. */
module Ascent {

  lemma SubsetSize<T>(a: set<T>, b: set<T>)
    requires a <= b
    ensures |a| <= |b|
  {
    assert b == a + (b - a);
  }

  predicate IsLeast(m: nat, ids: set<nat>) {
    m in ids && forall x :: x in ids ==> m <= x
  }

  lemma {:induction false} LeastOf(ids: set<nat>) returns (m: nat)
    requires ids != {}
    ensures IsLeast(m, ids)
    decreases ids
  {
    var k :| k in ids;
    var rest := ids - {k};
    assert ids == rest + {k};
    m := k;
    if rest != {} {
      var least := LeastOf(rest);
      if least < k {
        m := least;
      }
    }
  }

  function Least(ids: set<nat>): (m: nat)
    requires ids != {}
    ensures IsLeast(m, ids)
  {
    assert exists m :: IsLeast(m, ids) by { var m := LeastOf(ids); }
    var m :| IsLeast(m, ids);
    m
  }

  function Ascending(ids: set<nat>): seq<nat> {
    if ids == {} then [] else [Least(ids)] + Ascending(ids - {Least(ids)})
  }

  ghost predicate Rising(s: seq<nat>) {
    forall i, j :: 0 <= i < j < |s| ==> s[i] < s[j]
  }

  ghost predicate Lists(s: seq<nat>, ids: set<nat>) {
    forall x :: x in s <==> x in ids
  }

  lemma RisingFrom(m: nat, rest: seq<nat>, ids: set<nat>)
    requires IsLeast(m, ids) && Rising(rest) && Lists(rest, ids - {m})
    ensures Rising([m] + rest) && Lists([m] + rest, ids)
  {
    forall j | 0 <= j < |rest| ensures m < rest[j] {
      assert rest[j] in rest;
    }
  }

  lemma {:induction false} AscendingSorted(ids: set<nat>)
    ensures Rising(Ascending(ids)) && Lists(Ascending(ids), ids)
    decreases ids
  {
    if ids != {} {
      var m := Least(ids);
      AscendingSorted(ids - {m});
      RisingFrom(m, Ascending(ids - {m}), ids);
    }
  }
}
