/** Clauses and formulas in disjunctive normal form. */
module Formulas {
  import opened Dag

  /** A conjunction of key literals. Several keys may share a name. */
  type Clause = set<Key>

  /** A disjunction of clauses, plus `shared`: advisory sub-clauses that recur across
      the disjuncts. `shared` carries no truth value. */
  datatype Formula = Formula(clauses: set<Clause>, shared: set<Clause>)

  /** The number of clauses of a formula (`len(f)` in the source). */
  function Size(f: Formula): nat {
    |f.clauses|
  }

  /** Canonicalisation is an external routine that is not part of this model;
      it stands here as the identity, so every property below is stated of the
      formula that would be handed to it. */
  function Normalize(f: Formula): Formula {
    f
  }

  /** The single clause of a one-clause set (`first()` of a one-clause formula). */
  function Only(cs: set<Clause>): (c: Clause)
    requires |cs| == 1
    ensures cs == {c}
  {
    SingletonHasOneElement(cs);
    var c :| c in cs;
    c
  }

  lemma SingletonHasOneElement(cs: set<Clause>)
    requires |cs| == 1
    ensures forall x, y | x in cs && y in cs :: x == y
  {
    forall x, y | x in cs && y in cs
      ensures x == y
    {
      if x != y {
        assert {x, y} <= cs;
        assert |{x, y}| == 2;
        SubsetCard({x, y}, cs);
      }
    }
  }

  lemma SubsetCard<T>(a: set<T>, b: set<T>)
    requires a <= b
    ensures |a| <= |b|
  {
    assert b == a + (b - a);
  }

  /** The union of a sequence of sets. */
  function UnionOf<T(!new)>(ss: seq<set<T>>): (u: set<T>)
    ensures forall x :: x in u <==> exists i :: 0 <= i < |ss| && x in ss[i]
  {
    if |ss| == 0 then {}
    else
      var rest := UnionOf(ss[1..]);
      assert forall x :: x in rest <==> exists i :: 1 <= i < |ss| && x in ss[i] by {
        forall x | x in rest ensures exists i :: 1 <= i < |ss| && x in ss[i] {
          var j :| 0 <= j < |ss| - 1 && x in ss[1..][j];
          assert x in ss[j + 1];
        }
      }
      ss[0] + rest
  }

  /** Every literal of the clause holds under `a`. */
  predicate ClauseHolds(c: Clause, a: Assignment) {
    forall k | k in c :: Matches(k, a)
  }

  /** Some clause of the formula holds under `a`. */
  predicate Satisfies(f: Formula, a: Assignment) {
    exists c | c in f.clauses :: ClauseHolds(c, a)
  }
}
