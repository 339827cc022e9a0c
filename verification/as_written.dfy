/** `to_dnf` exactly as written, where the OR branch hands `merge` a one-shot
    iterator over the converted children. `merge` walks its argument twice: once for
    the clauses and again for `shared`. The second walk finds the iterator exhausted,
    so every OR node comes back with an empty `shared` set. The rest of the model
    uses the corrected `Dnf.ToDnf`, whose OR nodes keep their children's `shared`
    clauses (`DnfProps.OrSharedIsUnion`). */
module AsWritten {
  import opened Dag
  import opened Ast
  import opened Formulas
  import opened Results
  import opened Dnf
  import ExpandProps
  import DnfProps

  /** `merge` given a one-shot iterator: the clause pass sees every formula, the
      `shared` pass sees none. */
  function MergeOnce(forms: seq<Formula>): (r: Formula)
    ensures r.clauses == Merge(forms).clauses
    ensures r.shared == {}
  {
    var remaining: seq<Formula> := [];
    Normalize(Formula(UnionOf(ClausesOf(forms)), UnionOf(SharedOf(remaining))))
  }

  function ToDnfAsWritten(e: Expr, limit: int): (r: Result<Formula, CapacityError>)
    decreases e
    ensures e.Node? && e.op == Or && r.Ok? ==> r.value.shared == {}
  {
    match e
    case Literal(k) => Ok(Formula({{k}}, {}))
    case Node(op, cs) =>
      match ToDnfAllAsWritten(cs, limit)
      case Err(err) => Err(err)
      case Ok(forms) =>
        match op
        case Or => Ok(MergeOnce(forms))
        case And => Expand(limit, forms)
  }

  function ToDnfAllAsWritten(cs: seq<Expr>, limit: int): (r: Result<seq<Formula>, CapacityError>)
    decreases cs
    ensures r.Ok? ==> |r.value| == |cs| && forall i | 0 <= i < |cs| :: ToDnfAsWritten(cs[i], limit) == Ok(r.value[i])
  {
    if |cs| == 0 then Ok([])
    else
      match ToDnfAsWritten(cs[0], limit)
      case Err(err) => Err(err)
      case Ok(f) =>
        match ToDnfAllAsWritten(cs[1..], limit)
        case Err(err) => Err(err)
        case Ok(fs) => Ok([f] + fs)
  }

  lemma {:induction false} ToDnfAllAsWrittenOk(cs: seq<Expr>, limit: int, forms: seq<Formula>)
    requires |forms| == |cs|
    requires forall i | 0 <= i < |cs| :: ToDnfAsWritten(cs[i], limit) == Ok(forms[i])
    ensures ToDnfAllAsWritten(cs, limit) == Ok(forms)
    decreases |cs|
  {
    if |cs| > 0 {
      forall i | 0 <= i < |cs| - 1 ensures ToDnfAsWritten(cs[1..][i], limit) == Ok(forms[1..][i]) {
        assert cs[1..][i] == cs[i + 1] && forms[1..][i] == forms[i + 1];
      }
      ToDnfAllAsWrittenOk(cs[1..], limit, forms[1..]);
      assert ToDnfAsWritten(cs[0], limit) == Ok(forms[0]);
      assert forms == [forms[0]] + forms[1..];
    }
  }

  // ---------------------------------------------------------------------------
  // Agreement with the corrected conversion
  // ---------------------------------------------------------------------------

  /** Two lists of formulas with the same clauses, position by position. */
  predicate SameClauses(fs: seq<Formula>, gs: seq<Formula>) {
    |fs| == |gs| && forall i | 0 <= i < |fs| :: fs[i].clauses == gs[i].clauses
  }

  /** The conversion as written fails exactly when the corrected one does, with the
      same error, and otherwise produces the same clauses: only `shared` differs. */
  lemma {:induction false} AgreesWithCorrected(e: Expr, limit: int)
    ensures ToDnfAsWritten(e, limit).Ok? <==> ToDnf(e, limit).Ok?
    ensures ToDnfAsWritten(e, limit).Err? ==> ToDnfAsWritten(e, limit).error == ToDnf(e, limit).error
    ensures ToDnf(e, limit).Ok? ==> ToDnfAsWritten(e, limit).value.clauses == ToDnf(e, limit).value.clauses
    decreases e
  {
    match e
    case Literal(k) =>
    case Node(op, cs) =>
      AgreesWithCorrectedAll(cs, limit);
      if ToDnfAll(cs, limit).Ok? {
        var ws, fs := ToDnfAllAsWritten(cs, limit).value, ToDnfAll(cs, limit).value;
        if op == Or {
          MergeSameClauses(ws, fs);
        } else {
          ExpandSameClauses(limit, ws, fs);
        }
      }
  }

  /** The same agreement for a list of children, converted left to right. */
  lemma {:induction false} AgreesWithCorrectedAll(cs: seq<Expr>, limit: int)
    ensures ToDnfAllAsWritten(cs, limit).Ok? <==> ToDnfAll(cs, limit).Ok?
    ensures ToDnfAllAsWritten(cs, limit).Err? ==> ToDnfAllAsWritten(cs, limit).error == ToDnfAll(cs, limit).error
    ensures ToDnfAll(cs, limit).Ok? ==> SameClauses(ToDnfAllAsWritten(cs, limit).value, ToDnfAll(cs, limit).value)
    decreases cs
  {
    if |cs| > 0 {
      AgreesWithCorrected(cs[0], limit);
      AgreesWithCorrectedAll(cs[1..], limit);
    }
  }

  /** Merging lists with the same clauses gives the same clauses. */
  lemma MergeSameClauses(fs: seq<Formula>, gs: seq<Formula>)
    requires SameClauses(fs, gs)
    ensures MergeOnce(fs).clauses == Merge(gs).clauses
  {
    forall c ensures c in Merge(fs).clauses <==> c in Merge(gs).clauses {
      if c in Merge(fs).clauses {
        var i :| 0 <= i < |fs| && c in fs[i].clauses;
        assert c in gs[i].clauses;
      }
      if c in Merge(gs).clauses {
        var i :| 0 <= i < |gs| && c in gs[i].clauses;
        assert c in fs[i].clauses;
      }
    }
  }

  /** The product of the clause counts depends only on the clauses. */
  lemma {:induction false} ProductSameClauses(fs: seq<Formula>, gs: seq<Formula>)
    requires SameClauses(fs, gs)
    ensures Product(fs) == Product(gs)
    decreases |fs|
  {
    if |fs| > 0 {
      assert SameClauses(fs[1..], gs[1..]) by {
        forall i | 0 <= i < |fs| - 1 ensures fs[1..][i].clauses == gs[1..][i].clauses {
          assert fs[1..][i] == fs[i + 1] && gs[1..][i] == gs[i + 1];
        }
      }
      ProductSameClauses(fs[1..], gs[1..]);
      assert Size(fs[0]) == Size(gs[0]);
    }
  }

  /** Expanding lists with the same clauses fails alike, or succeeds with the same
      clauses. */
  lemma ExpandSameClauses(limit: int, fs: seq<Formula>, gs: seq<Formula>)
    requires SameClauses(fs, gs)
    ensures Expand(limit, fs).Ok? <==> Expand(limit, gs).Ok?
    ensures Expand(limit, fs).Err? ==> Expand(limit, fs).error == Expand(limit, gs).error
    ensures Expand(limit, fs).Ok? ==> Expand(limit, fs).value.clauses == Expand(limit, gs).value.clauses
  {
    ProductSameClauses(fs, gs);
    if Product(fs) <= limit {
      ExpandProps.ExpandClauses(limit, fs);
      ExpandProps.ExpandClauses(limit, gs);
      forall picks ensures ExpandProps.IsPick(picks, fs) <==> ExpandProps.IsPick(picks, gs) {}
      var x, y := Expand(limit, fs).value.clauses, Expand(limit, gs).value.clauses;
      forall c ensures c in x <==> c in y {}
    }
  }

  /** The program's own `to_dnf`, when it succeeds, accepts exactly the assignments
      the expression accepts. */
  lemma ToDnfAsWrittenSound(e: Expr, limit: int, a: Assignment)
    requires ToDnfAsWritten(e, limit).Ok?
    ensures Satisfies(ToDnfAsWritten(e, limit).value, a) <==> Eval(e, a)
  {
    AgreesWithCorrected(e, limit);
    DnfProps.ToDnfSound(e, limit, a);
  }

  /** The program's own `to_dnf` of an AND whose children convert fails exactly when
      the product of their clause counts exceeds the limit, with that product and
      the limit in the error. */
  lemma AndGuardAsWritten(cs: seq<Expr>, limit: int)
    requires ToDnfAllAsWritten(cs, limit).Ok?
    ensures var forms := ToDnfAllAsWritten(cs, limit).value;
            && (ToDnfAsWritten(Node(And, cs), limit).Err? <==> Product(forms) > limit)
            && (Product(forms) > limit ==>
                  ToDnfAsWritten(Node(And, cs), limit) == Err(CapacityExceeded(Product(forms), limit)))
  {
  }

  /** An OR around AND(a, b, OR(c, d)): the AND records its common clause {a, b} as
      shared, the corrected conversion passes it up through the outer OR, and the
      conversion as written drops it there. */
  lemma SharedLostUnderOr()
    ensures var a, b, c, d := Key("a", {"1"}), Key("b", {"1"}), Key("c", {"1"}), Key("d", {"1"});
            var inner := Node(And, [Literal(a), Literal(b), Node(Or, [Literal(c), Literal(d)])]);
            var e := Node(Or, [inner]);
            && ToDnf(e, 100).Ok? && {a, b} in ToDnf(e, 100).value.shared
            && ToDnfAsWritten(e, 100).Ok? && ToDnfAsWritten(e, 100).value.shared == {}
  {
    var a, b, c, d := Key("a", {"1"}), Key("b", {"1"}), Key("c", {"1"}), Key("d", {"1"});
    var inner := Node(And, [Literal(a), Literal(b), Node(Or, [Literal(c), Literal(d)])]);
    var f := InnerAnd(a, b, c, d);
    OrOfOne(inner, 100, f);
    OrOfOneAsWritten(inner, 100, f);
  }

  /** An OR of one converting child keeps that child's clauses and shared clauses. */
  lemma OrOfOne(x: Expr, limit: int, f: Formula)
    requires ToDnf(x, limit) == Ok(f)
    ensures ToDnf(Node(Or, [x]), limit).Ok?
    ensures ToDnf(Node(Or, [x]), limit).value.shared == f.shared
  {
    DnfProps.ToDnfAllOk([x], limit, [f]);
  }

  /** An OR of one converting child, as written, succeeds with no shared clauses. */
  lemma OrOfOneAsWritten(x: Expr, limit: int, f: Formula)
    requires ToDnfAsWritten(x, limit) == Ok(f)
    ensures ToDnfAsWritten(Node(Or, [x]), limit).Ok?
  {
    ToDnfAllAsWrittenOk([x], limit, [f]);
  }

  /** AND(a, b, OR(c, d)) converts, by either conversion, to a formula whose shared
      set holds the common clause {a, b}. */
  lemma InnerAnd(a: Key, b: Key, c: Key, d: Key) returns (f: Formula)
    requires a == Key("a", {"1"}) && b == Key("b", {"1"}) && c == Key("c", {"1"}) && d == Key("d", {"1"})
    ensures var inner := Node(And, [Literal(a), Literal(b), Node(Or, [Literal(c), Literal(d)])]);
            ToDnf(inner, 100) == Ok(f) && ToDnfAsWritten(inner, 100) == Ok(f) && {a, b} in f.shared
  {
    var forms := [Formula({{a}}, {}), Formula({{b}}, {}), Formula({{c}, {d}}, {})];
    InnerAndCorrected(a, b, c, d);
    InnerAndAsWritten(a, b, c, d);
    CommonClauseShared(a, b, c, d);
    f := Expand(100, forms).value;
  }

  /** The corrected conversion of AND(a, b, OR(c, d)) expands its three operands. */
  lemma InnerAndCorrected(a: Key, b: Key, c: Key, d: Key)
    ensures var inner := Node(And, [Literal(a), Literal(b), Node(Or, [Literal(c), Literal(d)])]);
            ToDnf(inner, 100) == Expand(100, [Formula({{a}}, {}), Formula({{b}}, {}), Formula({{c}, {d}}, {})])
  {
    TwoLiteralOr(c, d);
    AndOfThree(Literal(a), Literal(b), Node(Or, [Literal(c), Literal(d)]), 100,
      Formula({{a}}, {}), Formula({{b}}, {}), Formula({{c}, {d}}, {}));
  }

  /** The conversion as written of AND(a, b, OR(c, d)) expands the same operands. */
  lemma InnerAndAsWritten(a: Key, b: Key, c: Key, d: Key)
    ensures var inner := Node(And, [Literal(a), Literal(b), Node(Or, [Literal(c), Literal(d)])]);
            ToDnfAsWritten(inner, 100) == Expand(100, [Formula({{a}}, {}), Formula({{b}}, {}), Formula({{c}, {d}}, {})])
  {
    TwoLiteralOr(c, d);
    AndOfThreeAsWritten(Literal(a), Literal(b), Node(Or, [Literal(c), Literal(d)]), 100,
      Formula({{a}}, {}), Formula({{b}}, {}), Formula({{c}, {d}}, {}));
  }

  /** An AND of three converting children expands their three formulas. */
  lemma AndOfThree(x: Expr, y: Expr, z: Expr, limit: int, f: Formula, g: Formula, h: Formula)
    requires ToDnf(x, limit) == Ok(f) && ToDnf(y, limit) == Ok(g) && ToDnf(z, limit) == Ok(h)
    ensures ToDnf(Node(And, [x, y, z]), limit) == Expand(limit, [f, g, h])
  {
    var cs, forms := [x, y, z], [f, g, h];
    forall i | 0 <= i < 3 ensures ToDnf(cs[i], limit) == Ok(forms[i]) {
      if i == 0 { assert cs[i] == x && forms[i] == f; }
      else if i == 1 { assert cs[i] == y && forms[i] == g; }
      else { assert cs[i] == z && forms[i] == h; }
    }
    DnfProps.ToDnfAllOk(cs, limit, forms);
    DnfProps.AndOfConverted(cs, limit, forms);
  }

  /** The same, for the conversion as written. */
  lemma AndOfThreeAsWritten(x: Expr, y: Expr, z: Expr, limit: int, f: Formula, g: Formula, h: Formula)
    requires ToDnfAsWritten(x, limit) == Ok(f) && ToDnfAsWritten(y, limit) == Ok(g)
    requires ToDnfAsWritten(z, limit) == Ok(h)
    ensures ToDnfAsWritten(Node(And, [x, y, z]), limit) == Expand(limit, [f, g, h])
  {
    var cs, forms := [x, y, z], [f, g, h];
    forall i | 0 <= i < 3 ensures ToDnfAsWritten(cs[i], limit) == Ok(forms[i]) {
      if i == 0 { assert cs[i] == x && forms[i] == f; }
      else if i == 1 { assert cs[i] == y && forms[i] == g; }
      else { assert cs[i] == z && forms[i] == h; }
    }
    ToDnfAllAsWrittenOk(cs, limit, forms);
  }

  /** Expanding {{a}}, {{b}}, {{c}, {d}} records {a, b} as shared. */
  lemma CommonClauseShared(a: Key, b: Key, c: Key, d: Key)
    requires a == Key("a", {"1"}) && b == Key("b", {"1"}) && c == Key("c", {"1"}) && d == Key("d", {"1"})
    ensures var forms := [Formula({{a}}, {}), Formula({{b}}, {}), Formula({{c}, {d}}, {})];
            Expand(100, forms).Ok? && {a, b} in Expand(100, forms).value.shared
  {
    var forms := [Formula({{a}}, {}), Formula({{b}}, {}), Formula({{c}, {d}}, {})];
    ExampleOperands(a, b, c, d);
    ExpandProps.ExpandShared(100, forms);
  }

  /** The operands {{a}}, {{b}}, {{c}, {d}}: product two, one branching operand, and
      common clause {a, b} of two literals. */
  lemma ExampleOperands(a: Key, b: Key, c: Key, d: Key)
    requires a == Key("a", {"1"}) && b == Key("b", {"1"}) && c == Key("c", {"1"}) && d == Key("d", {"1"})
    ensures var forms := [Formula({{a}}, {}), Formula({{b}}, {}), Formula({{c}, {d}}, {})];
            && Product(forms) == 2
            && ExpandProps.HasNontrivial(forms)
            && ExpandProps.CommonLiterals(forms) == {a, b}
            && |{a, b}| == 2
  {
    assert a.name != b.name && c.name != d.name;
    var forms := [Formula({{a}}, {}), Formula({{b}}, {}), Formula({{c}, {d}}, {})];
    assert |{{c}, {d}}| == 2;
    assert forms[1..] == [forms[1], forms[2]] && forms[1..][1..] == [forms[2]] && [forms[2]][1..] == [];
    assert Product([forms[2]]) == 2;
    assert Product(forms[1..]) == 2;
    assert Size(forms[2]) != 1;
    assert ExpandProps.CommonLiterals(forms) == {a, b} by {
      assert a in {a} && {a} in forms[0].clauses && Size(forms[0]) == 1;
      assert b in {b} && {b} in forms[1].clauses && Size(forms[1]) == 1;
    }
  }

  /** OR of two literals, by either conversion. */
  lemma TwoLiteralOr(c: Key, d: Key)
    ensures ToDnf(Node(Or, [Literal(c), Literal(d)]), 100) == Ok(Formula({{c}, {d}}, {}))
    ensures ToDnfAsWritten(Node(Or, [Literal(c), Literal(d)]), 100) == Ok(Formula({{c}, {d}}, {}))
  {
    var cs := [Literal(c), Literal(d)];
    var forms := [Formula({{c}}, {}), Formula({{d}}, {})];
    DnfProps.ToDnfAllOk(cs, 100, forms);
    ToDnfAllAsWrittenOk(cs, 100, forms);
    assert Merge(forms).clauses == {{c}, {d}};
    assert Merge(forms).shared == {};
  }
}
