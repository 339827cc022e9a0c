/** Properties of `expand`: the clauses of the cross product, its size bound, the
    classification pass, and the contents of the `shared` set. */
module ExpandProps {
  import opened Dag
  import opened Formulas
  import opened Dnf

  // ---------------------------------------------------------------------------
  // Reference definitions
  // ---------------------------------------------------------------------------

  /** `picks` chooses exactly one clause from each operand, in operand order. */
  predicate IsPick(picks: seq<Clause>, forms: seq<Formula>) {
    |picks| == |forms| && forall i | 0 <= i < |forms| :: picks[i] in forms[i].clauses
  }

  /** Some operand has a clause count other than one. */
  predicate HasNontrivial(forms: seq<Formula>) {
    exists i | 0 <= i < |forms| :: Size(forms[i]) != 1
  }

  /** Two different operands have a clause count other than one. */
  predicate TwoNontrivial(forms: seq<Formula>) {
    exists i, j | 0 <= i < j < |forms| :: Size(forms[i]) != 1 && Size(forms[j]) != 1
  }

  /** Every literal of every single-clause operand. */
  function CommonLiterals(forms: seq<Formula>): Clause {
    set i, c, k | 0 <= i < |forms| && Size(forms[i]) == 1 && c in forms[i].clauses && k in c :: k
  }

  // ---------------------------------------------------------------------------
  // The cross product
  // ---------------------------------------------------------------------------

  lemma UnionOfCons(c: Clause, picks: seq<Clause>)
    ensures UnionOf([c] + picks) == c + UnionOf(picks)
  {
    assert ([c] + picks)[1..] == picks;
  }

  /** The clauses of the expansion are exactly the unions of one clause from each
      operand; with no operands that is the single empty clause. */
  lemma {:induction false} ExprecClauses(forms: seq<Formula>)
    ensures |forms| == 0 ==> Exprec(forms).clauses == {{}}
    ensures forall c :: c in Exprec(forms).clauses <==> exists picks :: IsPick(picks, forms) && UnionOf(picks) == c
    decreases |forms|
  {
    if |forms| == 0 {
      forall c ensures c in Exprec(forms).clauses <==> exists picks :: IsPick(picks, forms) && UnionOf(picks) == c {
        assert IsPick([], forms) && UnionOf<Key>([]) == {};
      }
    } else {
      ExprecClauses(forms[1..]);
      forall c ensures c in Exprec(forms).clauses <==> exists picks :: IsPick(picks, forms) && UnionOf(picks) == c {
        if c in Exprec(forms).clauses {
          CrossToPick(forms, c);
        }
        if exists picks :: IsPick(picks, forms) && UnionOf(picks) == c {
          var picks :| IsPick(picks, forms) && UnionOf(picks) == c;
          PickToCross(forms, picks);
        }
      }
    }
  }

  lemma CrossToPick(forms: seq<Formula>, c: Clause)
    requires |forms| > 0
    requires forall c :: c in Exprec(forms[1..]).clauses <==>
      exists picks :: IsPick(picks, forms[1..]) && UnionOf(picks) == c
    requires c in Exprec(forms).clauses
    ensures exists picks :: IsPick(picks, forms) && UnionOf(picks) == c
  {
    var rest := forms[1..];
    var c1, c2 :| c1 in forms[0].clauses && c2 in Exprec(rest).clauses && c == c1 + c2;
    var ps :| IsPick(ps, rest) && UnionOf(ps) == c2;
    UnionOfCons(c1, ps);
    assert IsPick([c1] + ps, forms);
  }

  lemma PickToCross(forms: seq<Formula>, picks: seq<Clause>)
    requires |forms| > 0
    requires forall c :: c in Exprec(forms[1..]).clauses <==>
      exists picks :: IsPick(picks, forms[1..]) && UnionOf(picks) == c
    requires IsPick(picks, forms)
    ensures UnionOf(picks) in Exprec(forms).clauses
  {
    var ps := picks[1..];
    assert IsPick(ps, forms[1..]);
    assert picks == [picks[0]] + ps;
    UnionOfCons(picks[0], ps);
    assert UnionOf(ps) in Exprec(forms[1..]).clauses;
  }

  /** The unions of one fixed clause with each clause of `b`. */
  function Row(x: Clause, b: set<Clause>): set<Clause> {
    set c | c in b :: x + c
  }

  lemma {:induction false} RowCard(x: Clause, b: set<Clause>)
    ensures |Row(x, b)| <= |b|
    decreases b
  {
    if b != {} {
      var y :| y in b;
      RowCard(x, b - {y});
      assert Row(x, b) == Row(x, b - {y}) + {x + y};
    }
  }

  /** One more row of `m` adds `m` to the product, kept apart so that the cardinality
      proofs below stay linear. */
  lemma MulStep(n: nat, m: nat)
    ensures (n + 1) * m == n * m + m
  {
  }

  lemma DisjointCard(p: set<Clause>, q: set<Clause>)
    requires p !! q
    ensures |p + q| == |p| + |q|
  {
  }

  /** The cross product splits into the row of one clause and the product of the rest. */
  lemma CrossSplit(a: set<Clause>, b: set<Clause>, x: Clause)
    requires x in a
    ensures Cross(a, b) == Cross(a - {x}, b) + Row(x, b)
  {
  }

  lemma UnionCard(p: set<Clause>, q: set<Clause>)
    ensures |p + q| <= |p| + |q|
  {
    assert p + q == p + (q - p);
  }

  /** The cross product of two clause sets has at most the product of their sizes. */
  lemma {:induction false} CrossCard(a: set<Clause>, b: set<Clause>)
    ensures |Cross(a, b)| <= |a| * |b|
    decreases a
  {
    if a == {} {
      assert Cross(a, b) == {};
    } else {
      var x :| x in a;
      var a' := a - {x};
      CrossCard(a', b);
      RowCard(x, b);
      CrossSplit(a, b, x);
      CardStepAtMost(Cross(a, b), Cross(a', b), Row(x, b), |a'|, |b|);
      assert |a| == |a'| + 1;
    }
  }

  /** A union of at most n * m elements and at most m more has at most (n + 1) * m. */
  lemma CardStepAtMost(total: set<Clause>, p: set<Clause>, q: set<Clause>, n: nat, m: nat)
    requires total == p + q
    requires |p| <= n * m && |q| <= m
    ensures |total| <= (n + 1) * m
  {
    UnionCard(p, q);
    MulStep(n, m);
  }

  lemma MulMono(n: nat, x: nat, y: nat)
    requires x <= y
    ensures n * x <= n * y
  {
  }

  /** The expansion has at most as many clauses as the product of the operands'
      clause counts (fewer when some unions coincide). */
  lemma {:induction false} ExprecSize(forms: seq<Formula>)
    ensures |Exprec(forms).clauses| <= Product(forms)
    decreases |forms|
  {
    if |forms| > 0 {
      var rest := forms[1..];
      ExprecSize(rest);
      CrossCard(forms[0].clauses, Exprec(rest).clauses);
      MulMono(Size(forms[0]), |Exprec(rest).clauses|, Product(rest));
    } else {
      assert Exprec(forms).clauses == {{}};
    }
  }

  /** Every clause of one set shares no literal with any clause of the other. */
  predicate Apart(a: set<Clause>, b: set<Clause>) {
    forall x, y | x in a && y in b :: x !! y
  }

  /** No two operands share a literal. */
  predicate Independent(forms: seq<Formula>) {
    forall i, j | 0 <= i < |forms| && 0 <= j < |forms| && i != j :: Apart(forms[i].clauses, forms[j].clauses)
  }

  /** When the sets are apart, a union determines the two clauses it came from. */
  lemma UnionDetermines(a: set<Clause>, b: set<Clause>, x: Clause, y: Clause, x': Clause, y': Clause)
    requires Apart(a, b)
    requires x in a && x' in a && y in b && y' in b
    requires x + y == x' + y'
    ensures x == x' && y == y'
  {
    assert x !! y' && x' !! y && x !! y && x' !! y';
  }

  lemma {:induction false} RowCardExact(a: set<Clause>, x: Clause, b: set<Clause>)
    requires Apart(a, b) && x in a
    ensures |Row(x, b)| == |b|
    decreases b
  {
    if b != {} {
      var y :| y in b;
      var b' := b - {y};
      RowCardExact(a, x, b');
      assert Row(x, b) == Row(x, b') + {x + y};
      forall z | z in Row(x, b') ensures z != x + y {
        var y' :| y' in b' && z == x + y';
        if z == x + y {
          UnionDetermines(a, b, x, y', x, y);
        }
      }
    }
  }

  lemma ApartShrinks(a: set<Clause>, b: set<Clause>, x: Clause)
    requires Apart(a, b)
    ensures Apart(a - {x}, b)
  {
  }

  /** The row of one clause shares no union with the cross product of the others. */
  lemma RowApart(a: set<Clause>, b: set<Clause>, x: Clause)
    requires Apart(a, b) && x in a
    ensures Cross(a - {x}, b) !! Row(x, b)
  {
    forall z | z in Cross(a - {x}, b) ensures z !in Row(x, b) {
      var x', y' :| x' in a - {x} && y' in b && z == x' + y';
      forall y | y in b ensures z != x + y {
        if z == x + y {
          UnionDetermines(a, b, x', y', x, y);
        }
      }
    }
  }

  /** Apart clause sets have exactly the product of their sizes as cross product. */
  lemma {:induction false} CrossCardExact(a: set<Clause>, b: set<Clause>)
    requires Apart(a, b)
    ensures |Cross(a, b)| == |a| * |b|
    decreases a
  {
    if a == {} {
      assert Cross(a, b) == {};
    } else {
      var x :| x in a;
      var a' := a - {x};
      ApartShrinks(a, b, x);
      CrossCardExact(a', b);
      RowCardExact(a, x, b);
      CrossSplit(a, b, x);
      RowApart(a, b, x);
      CardStep(Cross(a, b), Cross(a', b), Row(x, b), |a'|, |b|);
      assert |a| == |a'| + 1;
    }
  }

  /** A disjoint union of n rows of m elements and one more such row has (n + 1) * m elements. */
  lemma CardStep(total: set<Clause>, p: set<Clause>, q: set<Clause>, n: nat, m: nat)
    requires total == p + q && p !! q
    requires |p| == n * m && |q| == m
    ensures |total| == (n + 1) * m
  {
    DisjointCard(p, q);
    MulStep(n, m);
  }

  /** With independent operands, every clause of the expansion of the later operands
      is apart from every clause of the first. */
  lemma RestApart(forms: seq<Formula>)
    requires |forms| > 0 && Independent(forms)
    ensures Apart(forms[0].clauses, Exprec(forms[1..]).clauses)
  {
    var rest := forms[1..];
    ExprecClauses(rest);
    forall x, y | x in forms[0].clauses && y in Exprec(rest).clauses ensures x !! y {
      var picks :| IsPick(picks, rest) && UnionOf(picks) == y;
      forall k | k in y ensures k !in x {
        var i :| 0 <= i < |picks| && k in picks[i];
        assert rest[i] == forms[i + 1];
        assert Apart(forms[0].clauses, forms[i + 1].clauses);
      }
    }
  }

  /** With independent operands no two unions coincide: the expansion has exactly
      the product of the clause counts. */
  lemma {:induction false} ExprecSizeExact(forms: seq<Formula>)
    requires Independent(forms)
    ensures |Exprec(forms).clauses| == Product(forms)
    decreases |forms|
  {
    if |forms| > 0 {
      var rest := forms[1..];
      assert Independent(rest) by {
        forall i, j | 0 <= i < |rest| && 0 <= j < |rest| && i != j
          ensures Apart(rest[i].clauses, rest[j].clauses)
        {
          assert rest[i] == forms[i + 1] && rest[j] == forms[j + 1];
        }
      }
      ExprecSizeExact(rest);
      RestApart(forms);
      CrossCardExact(forms[0].clauses, Exprec(rest).clauses);
    } else {
      assert Exprec(forms).clauses == {{}};
    }
  }

  // ---------------------------------------------------------------------------
  // The classification pass
  // ---------------------------------------------------------------------------

  /** The count of the classification pass is positive exactly when some operand
      does not have one clause, and above one exactly when two operands do not. */
  lemma {:induction false} ClassifyNontrivial(forms: seq<Formula>)
    ensures Classify(forms).nontrivial > 0 <==> HasNontrivial(forms)
    ensures Classify(forms).nontrivial > 1 <==> TwoNontrivial(forms)
  {
    ClassifySome(forms);
    ClassifyTwo(forms);
  }

  lemma {:induction false} ClassifySome(forms: seq<Formula>)
    ensures Classify(forms).nontrivial > 0 <==> HasNontrivial(forms)
    decreases |forms|
  {
    if |forms| > 0 {
      var n := |forms| - 1;
      var init := forms[..n];
      ClassifySome(init);
      assert forall i | 0 <= i < n :: init[i] == forms[i];
      if Size(forms[n]) == 1 && HasNontrivial(forms) {
        var i :| 0 <= i < |forms| && Size(forms[i]) != 1;
        assert Size(init[i]) != 1;
      }
    }
  }

  lemma {:induction false} ClassifyTwo(forms: seq<Formula>)
    ensures Classify(forms).nontrivial > 1 <==> TwoNontrivial(forms)
    decreases |forms|
  {
    if |forms| > 0 {
      var n := |forms| - 1;
      var init := forms[..n];
      ClassifyTwo(init);
      ClassifySome(init);
      assert forall i | 0 <= i < n :: init[i] == forms[i];
      if Size(forms[n]) == 1 {
        if TwoNontrivial(forms) {
          var i, j :| 0 <= i < j < |forms| && Size(forms[i]) != 1 && Size(forms[j]) != 1;
          assert Size(init[i]) != 1 && Size(init[j]) != 1;
        }
      } else {
        if TwoNontrivial(forms) {
          var i, j :| 0 <= i < j < |forms| && Size(forms[i]) != 1 && Size(forms[j]) != 1;
          assert Size(init[i]) != 1;
        }
        if HasNontrivial(init) {
          var i :| 0 <= i < n && Size(init[i]) != 1;
          assert Size(forms[i]) != 1 && Size(forms[n]) != 1;
        }
      }
    }
  }

  /** The common clause of the classification pass is the union of the single
      clauses of the single-clause operands. */
  lemma {:induction false} ClassifyCommon(forms: seq<Formula>)
    ensures Classify(forms).common == CommonLiterals(forms)
    decreases |forms|
  {
    if |forms| > 0 {
      var n := |forms| - 1;
      var init := forms[..n];
      var f := forms[n];
      ClassifyCommon(init);
      assert forall i | 0 <= i < n :: init[i] == forms[i];
      var own := if Size(f) == 1 then Only(f.clauses) else {};
      assert Classify(forms).common == CommonLiterals(init) + own;
      forall k ensures k in CommonLiterals(forms) <==> k in CommonLiterals(init) + own {
        if k in CommonLiterals(forms) {
          var i, c :| 0 <= i < |forms| && Size(forms[i]) == 1 && c in forms[i].clauses && k in c;
          if i < n {
            assert Size(init[i]) == 1 && c in init[i].clauses;
          }
        }
        if k in CommonLiterals(init) {
          var i, c :| 0 <= i < n && Size(init[i]) == 1 && c in init[i].clauses && k in c;
          assert Size(forms[i]) == 1 && c in forms[i].clauses;
        }
        if k in own {
          assert Only(f.clauses) in forms[n].clauses;
        }
      }
    }
  }

  // ---------------------------------------------------------------------------
  // expand
  // ---------------------------------------------------------------------------

  /** Within the limit, `expand` succeeds with every union of one clause per operand
      and nothing else, and with no more clauses than the product, hence the limit. */
  lemma ExpandClauses(limit: int, forms: seq<Formula>)
    requires Product(forms) <= limit
    ensures Expand(limit, forms).Ok?
    ensures |Expand(limit, forms).value.clauses| <= Product(forms) <= limit
    ensures forall c :: c in Expand(limit, forms).value.clauses <==>
      exists picks :: IsPick(picks, forms) && UnionOf(picks) == c
  {
    ClassifySize(forms);
    ExprecClauses(forms);
    ExprecSize(forms);
  }

  /** Within the limit and with independent operands, `expand` produces exactly the
      product of the clause counts. */
  lemma ExpandSizeExact(limit: int, forms: seq<Formula>)
    requires Product(forms) <= limit
    requires Independent(forms)
    ensures Expand(limit, forms).Ok?
    ensures |Expand(limit, forms).value.clauses| == Product(forms)
  {
    ClassifySize(forms);
    ExprecSizeExact(forms);
  }

  /** The `shared` set of a successful `expand`: the operands' own shared clauses,
      the common clause when some operand branches and it has several literals, and,
      when two operands branch, every multi-literal clause of a branching operand. */
  lemma ExpandShared(limit: int, forms: seq<Formula>)
    requires Product(forms) <= limit
    ensures Expand(limit, forms).Ok?
    ensures forall c :: c in Expand(limit, forms).value.shared <==>
      || (exists i | 0 <= i < |forms| :: c in forms[i].shared)
      || (HasNontrivial(forms) && |CommonLiterals(forms)| > 1 && c == CommonLiterals(forms))
      || (TwoNontrivial(forms) &&
          exists i | 0 <= i < |forms| :: Size(forms[i]) > 1 && c in forms[i].clauses && |c| > 1)
  {
    ClassifySize(forms);
    ClassifyNontrivial(forms);
    ClassifyCommon(forms);
  }
}
