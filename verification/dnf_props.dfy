/** Properties of `to_dnf` as a whole: the formula it returns means what the
    expression means, OR nodes pass `shared` through, failures propagate from the
    first failing child, and three worked examples. */
module DnfProps {
  import opened Dag
  import opened Ast
  import opened Formulas
  import opened Results
  import opened Dnf
  import FlattenProps
  import ExpandProps

  // ---------------------------------------------------------------------------
  // Meaning
  // ---------------------------------------------------------------------------

  /** A union of two clauses holds exactly when both clauses hold. */
  lemma CrossSatisfies(x: set<Clause>, y: set<Clause>, a: Assignment)
    ensures Satisfies(Formula(Cross(x, y), {}), a) <==>
      Satisfies(Formula(x, {}), a) && Satisfies(Formula(y, {}), a)
  {
    if Satisfies(Formula(Cross(x, y), {}), a) {
      var c :| c in Cross(x, y) && ClauseHolds(c, a);
      var c1, c2 :| c1 in x && c2 in y && c == c1 + c2;
      assert ClauseHolds(c1, a) && ClauseHolds(c2, a);
    }
    if Satisfies(Formula(x, {}), a) && Satisfies(Formula(y, {}), a) {
      var c1 :| c1 in x && ClauseHolds(c1, a);
      var c2 :| c2 in y && ClauseHolds(c2, a);
      assert c1 + c2 in Cross(x, y);
      assert ClauseHolds(c1 + c2, a);
    }
  }

  /** The expansion holds exactly when every operand holds: AND over formulas. */
  lemma {:induction false} ExprecSatisfies(forms: seq<Formula>, a: Assignment)
    ensures Satisfies(Exprec(forms), a) <==> forall i | 0 <= i < |forms| :: Satisfies(forms[i], a)
    decreases |forms|
  {
    if |forms| == 0 {
      assert ClauseHolds({}, a);
      assert {} in Exprec(forms).clauses;
    } else {
      var rest := forms[1..];
      ExprecSatisfies(rest, a);
      CrossSatisfies(forms[0].clauses, Exprec(rest).clauses, a);
      assert Satisfies(forms[0], a) <==> Satisfies(Formula(forms[0].clauses, {}), a);
      assert Satisfies(Exprec(rest), a) <==> Satisfies(Formula(Exprec(rest).clauses, {}), a);
      assert Satisfies(Exprec(forms), a) <==> Satisfies(Formula(Exprec(forms).clauses, {}), a);
      assert forall i | 1 <= i < |forms| :: forms[i] == rest[i - 1];
    }
  }

  /** The merge holds exactly when some operand holds: OR over formulas. */
  lemma MergeSatisfies(forms: seq<Formula>, a: Assignment)
    ensures Satisfies(Merge(forms), a) <==> exists i | 0 <= i < |forms| :: Satisfies(forms[i], a)
  {
    if Satisfies(Merge(forms), a) {
      var c :| c in Merge(forms).clauses && ClauseHolds(c, a);
      var i :| 0 <= i < |forms| && c in forms[i].clauses;
      assert Satisfies(forms[i], a);
    }
    if exists i | 0 <= i < |forms| :: Satisfies(forms[i], a) {
      var i :| 0 <= i < |forms| && Satisfies(forms[i], a);
      var c :| c in forms[i].clauses && ClauseHolds(c, a);
      assert c in Merge(forms).clauses;
    }
  }

  /** Whenever `to_dnf` succeeds, its formula accepts exactly the assignments the
      expression accepts. */
  lemma {:induction false} ToDnfSound(e: Expr, limit: int, a: Assignment)
    requires ToDnf(e, limit).Ok?
    ensures Satisfies(ToDnf(e, limit).value, a) <==> Eval(e, a)
    decreases e
  {
    match e
    case Literal(k) =>
      var f := ToDnf(e, limit).value;
      assert {k} in f.clauses;
      assert ClauseHolds({k}, a) <==> Matches(k, a);
    case Node(op, cs) =>
      var forms := ToDnfAll(cs, limit).value;
      forall i | 0 <= i < |cs| ensures Satisfies(forms[i], a) <==> Eval(cs[i], a) {
        ToDnfSound(cs[i], limit, a);
      }
      if op == Or {
        MergeSatisfies(forms, a);
      } else {
        ExprecSatisfies(forms, a);
      }
  }

  /** Flattening first changes nothing about the meaning of the result. */
  lemma FlattenThenToDnfSound(e: Expr, limit: int, a: Assignment)
    requires ToDnf(Flatten(e), limit).Ok?
    ensures Satisfies(ToDnf(Flatten(e), limit).value, a) <==> Eval(e, a)
  {
    ToDnfSound(Flatten(e), limit, a);
    FlattenProps.FlattenEval(e, a);
  }

  // ---------------------------------------------------------------------------
  // shared and failures
  // ---------------------------------------------------------------------------

  /** An OR node's `shared` set is the union of its children's. */
  lemma OrSharedIsUnion(cs: seq<Expr>, limit: int)
    requires ToDnf(Node(Or, cs), limit).Ok?
    ensures forall c :: c in ToDnf(Node(Or, cs), limit).value.shared <==>
      exists i | 0 <= i < |cs| :: ToDnf(cs[i], limit).Ok? && c in ToDnf(cs[i], limit).value.shared
  {
    var forms := ToDnfAll(cs, limit).value;
    assert forall i | 0 <= i < |cs| :: ToDnf(cs[i], limit) == Ok(forms[i]);
  }

  /** The children are converted left to right and the first failing child's error
      is the one reported. */
  lemma {:induction false} ToDnfAllFirstError(cs: seq<Expr>, limit: int, i: int)
    requires 0 <= i < |cs|
    requires ToDnfAll(cs[..i], limit).Ok?
    requires ToDnf(cs[i], limit).Err?
    ensures ToDnfAll(cs, limit) == Err(ToDnf(cs[i], limit).error)
    decreases i
  {
    if i == 0 {
      ToDnfAllHeadErr(cs, limit);
    } else {
      var rest := cs[1..];
      ShiftPrefix(cs, limit, i);
      ToDnfAllFirstError(rest, limit, i - 1);
      ToDnfAllSkipsOk(cs, limit);
    }
  }

  /** A failing first child is the failure of the whole sequence. */
  lemma ToDnfAllHeadErr(cs: seq<Expr>, limit: int)
    requires |cs| > 0 && ToDnf(cs[0], limit).Err?
    ensures ToDnfAll(cs, limit) == Err(ToDnf(cs[0], limit).error)
  {
  }

  /** A converting prefix of length i starts with a converting child and leaves a
      converting prefix of length i - 1 of the rest. */
  lemma ShiftPrefix(cs: seq<Expr>, limit: int, i: int)
    requires 0 < i < |cs|
    requires ToDnfAll(cs[..i], limit).Ok?
    ensures ToDnf(cs[0], limit).Ok?
    ensures ToDnfAll(cs[1..][..i - 1], limit).Ok?
    ensures cs[1..][i - 1] == cs[i]
  {
    var p := cs[..i];
    assert p[0] == cs[0];
    assert p[1..] == cs[1..][..i - 1];
  }

  /** When the first child converts, the children convert as the rest do, with that
      child's formula in front. */
  lemma ToDnfAllSkipsOk(cs: seq<Expr>, limit: int)
    requires |cs| > 0 && ToDnf(cs[0], limit).Ok?
    ensures ToDnfAll(cs[1..], limit).Err? ==> ToDnfAll(cs, limit) == ToDnfAll(cs[1..], limit)
  {
  }

  /** A failure anywhere below an operator node is the node's failure: the error of
      its first failing child. */
  lemma ToDnfPropagates(op: Op, cs: seq<Expr>, limit: int, i: int)
    requires 0 <= i < |cs|
    requires ToDnfAll(cs[..i], limit).Ok?
    requires ToDnf(cs[i], limit).Err?
    ensures ToDnf(Node(op, cs), limit) == Err(ToDnf(cs[i], limit).error)
  {
    ToDnfAllFirstError(cs, limit, i);
  }

  /** When every child converts, the children convert together, in order. */
  lemma {:induction false} ToDnfAllOk(cs: seq<Expr>, limit: int, forms: seq<Formula>)
    requires |forms| == |cs|
    requires forall i | 0 <= i < |cs| :: ToDnf(cs[i], limit) == Ok(forms[i])
    ensures ToDnfAll(cs, limit) == Ok(forms)
    decreases |cs|
  {
    if |cs| > 0 {
      ShiftConverted(cs, limit, forms);
      ToDnfAllOk(cs[1..], limit, forms[1..]);
      ToDnfAllCons(cs, limit, forms[0], forms[1..]);
      assert [forms[0]] + forms[1..] == forms;
    }
  }

  /** Children that convert one by one still do after dropping the first. */
  lemma ShiftConverted(cs: seq<Expr>, limit: int, forms: seq<Formula>)
    requires |forms| == |cs| > 0
    requires forall i | 0 <= i < |cs| :: ToDnf(cs[i], limit) == Ok(forms[i])
    ensures ToDnf(cs[0], limit) == Ok(forms[0])
    ensures forall i | 0 <= i < |cs| - 1 :: ToDnf(cs[1..][i], limit) == Ok(forms[1..][i])
  {
    forall i | 0 <= i < |cs| - 1 ensures ToDnf(cs[1..][i], limit) == Ok(forms[1..][i]) {
      assert cs[1..][i] == cs[i + 1] && forms[1..][i] == forms[i + 1];
    }
  }

  /** A converting first child in front of converting children. */
  lemma ToDnfAllCons(cs: seq<Expr>, limit: int, f: Formula, fs: seq<Formula>)
    requires |cs| > 0 && ToDnf(cs[0], limit) == Ok(f) && ToDnfAll(cs[1..], limit) == Ok(fs)
    ensures ToDnfAll(cs, limit) == Ok([f] + fs)
  {
  }

  /** An AND node whose children convert expands their formulas. */
  lemma AndOfConverted(cs: seq<Expr>, limit: int, forms: seq<Formula>)
    requires ToDnfAll(cs, limit) == Ok(forms)
    ensures ToDnf(Node(And, cs), limit) == Expand(limit, forms)
  {
  }

  /** An AND node whose children all convert fails exactly when the product of their
      clause counts exceeds the limit, and then reports that product and the limit. */
  lemma AndGuard(cs: seq<Expr>, limit: int)
    requires ToDnfAll(cs, limit).Ok?
    ensures ToDnf(Node(And, cs), limit).Err? <==> Product(ToDnfAll(cs, limit).value) > limit
    ensures ToDnf(Node(And, cs), limit).Err? ==>
      ToDnf(Node(And, cs), limit).error == CapacityExceeded(Product(ToDnfAll(cs, limit).value), limit)
  {
  }

  // ---------------------------------------------------------------------------
  // Worked examples
  // ---------------------------------------------------------------------------

  /** Two literals on one name under OR become one literal with both values; the
      OR node itself stays, with that literal as its only child. */
  lemma FlattenMergesRoles()
    ensures Flatten(Node(Or, [Literal(Key("role", {"web"})), Literal(Key("role", {"db"}))]))
         == Node(Or, [Literal(Key("role", {"web", "db"}))])
  {
    var e := Node(Or, [Literal(Key("role", {"web"})), Literal(Key("role", {"db"}))]);
    var fs := FlattenAll(e.children);
    assert fs == e.children;
    assert Inline(Or, fs) == fs;
    assert {"web"} + {"db"} == {"web", "db"};
  }

  /** AND(OR(a, b), OR(c, d)) with four distinct literals: four clauses fit a limit
      of four and fail a limit of three. */
  lemma CapacityBoundary()
    ensures var a, b, c, d := Key("x", {"1"}), Key("x", {"2"}), Key("y", {"1"}), Key("y", {"2"});
            var e := Node(And, [Node(Or, [Literal(a), Literal(b)]), Node(Or, [Literal(c), Literal(d)])]);
            && ToDnf(e, 3) == Err(CapacityExceeded(4, 3))
            && ToDnf(e, 4).Ok?
  {
    var a, b, c, d := Key("x", {"1"}), Key("x", {"2"}), Key("y", {"1"}), Key("y", {"2"});
    var forms := [Formula({{a}, {b}}, {}), Formula({{c}, {d}}, {})];
    TwoOrsConvert(a, b, c, d, 3);
    TwoOrsConvert(a, b, c, d, 4);
    TwoPairsProduct(a, b, c, d);
  }

  /** Both operands of the example convert to two single-literal clauses. */
  lemma TwoOrsConvert(a: Key, b: Key, c: Key, d: Key, limit: int)
    ensures ToDnfAll([Node(Or, [Literal(a), Literal(b)]), Node(Or, [Literal(c), Literal(d)])], limit)
         == Ok([Formula({{a}, {b}}, {}), Formula({{c}, {d}}, {})])
  {
    var cs := [Node(Or, [Literal(a), Literal(b)]), Node(Or, [Literal(c), Literal(d)])];
    OrOfTwoLiterals(a, b, limit);
    OrOfTwoLiterals(c, d, limit);
    ToDnfAllOk(cs, limit, [Formula({{a}, {b}}, {}), Formula({{c}, {d}}, {})]);
  }

  /** The example's operands have two clauses each, so their product is four. */
  lemma TwoPairsProduct(a: Key, b: Key, c: Key, d: Key)
    requires a == Key("x", {"1"}) && b == Key("x", {"2"}) && c == Key("y", {"1"}) && d == Key("y", {"2"})
    ensures Product([Formula({{a}, {b}}, {}), Formula({{c}, {d}}, {})]) == 4
  {
    assert a != b && c != d by {
      assert "1" in a.values && "1" !in b.values;
      assert "1" in c.values && "1" !in d.values;
    }
    assert |{{a}, {b}}| == 2 && |{{c}, {d}}| == 2;
    var forms := [Formula({{a}, {b}}, {}), Formula({{c}, {d}}, {})];
    assert forms[1..] == [forms[1]] && [forms[1]][1..] == [];
    assert Product([forms[1]]) == 2;
  }

  lemma OrOfTwoLiterals(a: Key, b: Key, limit: int)
    ensures ToDnf(Node(Or, [Literal(a), Literal(b)]), limit) == Ok(Formula({{a}, {b}}, {}))
  {
    var cs := [Literal(a), Literal(b)];
    assert cs[1..] == [Literal(b)];
    assert [Literal(b)][1..] == [];
    assert ToDnfAll([], limit) == Ok([]);
    assert [Formula({{b}}, {})] + [] == [Formula({{b}}, {})];
    assert ToDnfAll([Literal(b)], limit) == Ok([Formula({{b}}, {})]);
    assert [Formula({{a}}, {})] + [Formula({{b}}, {})] == [Formula({{a}}, {}), Formula({{b}}, {})];
    assert ToDnfAll(cs, limit) == Ok([Formula({{a}}, {}), Formula({{b}}, {})]);
    var r := Merge([Formula({{a}}, {}), Formula({{b}}, {})]);
    assert r.clauses == {{a}, {b}};
    assert r.shared == {};
  }
}
