/** Conversion of rule expressions to disjunctive normal form: `flatten`, `to_dnf`,
    `merge` (OR over formulas) and `expand` (AND over formulas, with its capacity guard
    and the bookkeeping of shared sub-clauses). */
module Dnf {
  import opened Dag
  import opened Ast
  import opened Formulas
  import opened Results

  // ---------------------------------------------------------------------------
  // flatten
  // ---------------------------------------------------------------------------

  /** No operator child of `e` carries the operator of `e` itself. */
  predicate NoSameOpChild(e: Expr) {
    e.Node? ==> forall i | 0 <= i < |e.children| :: e.children[i].Node? ==> e.children[i].op != e.op
  }

  /** The children a parent with operator `op` takes over from its flattened children
      `fs`, in order: a child with the same operator hands over its own children, any
      other child is taken as it is. */
  function Inline(op: Op, fs: seq<Expr>): seq<Expr> {
    if |fs| == 0 then []
    else (if fs[0].Node? && fs[0].op == op then fs[0].children else [fs[0]]) + Inline(op, fs[1..])
  }

  /** Adds the values of literal `k` to the entry of the same name in an ordered
      name-to-values table; a name not yet present gets a new entry at the end. */
  function Absorb(groups: seq<Key>, k: Key): seq<Key> {
    if |groups| == 0 then [k]
    else if groups[0].name == k.name then [Key(k.name, groups[0].values + k.values)] + groups[1..]
    else [groups[0]] + Absorb(groups[1..], k)
  }

  /** The state of one flatten step: the children kept so far, and the table of
      grouped literal values (used under OR only). */
  datatype Pending = Pending(kept: seq<Expr>, groups: seq<Key>)

  /** One child handed to a parent with operator `op`: under OR a literal is grouped
      by its name, anything else is kept as a child. */
  function AddChild(op: Op, p: Pending, e: Expr): Pending {
    if e.Literal? && op == Or then Pending(p.kept, Absorb(p.groups, e.key))
    else Pending(p.kept + [e], p.groups)
  }

  function AddChildren(op: Op, p: Pending, items: seq<Expr>): Pending
    decreases |items|
  {
    if |items| == 0 then p else AddChildren(op, AddChild(op, p, items[0]), items[1..])
  }

  /** One literal per table entry, in table order. */
  function Literals(groups: seq<Key>): (ls: seq<Expr>)
    ensures |ls| == |groups|
    ensures forall i | 0 <= i < |groups| :: ls[i] == Literal(groups[i])
  {
    if |groups| == 0 then [] else [Literal(groups[0])] + Literals(groups[1..])
  }

  /** The children of a flattened node with operator `op` whose children, once
      flattened, are `fs`. */
  function Regroup(op: Op, fs: seq<Expr>): seq<Expr> {
    var p := AddChildren(op, Pending([], []), Inline(op, fs));
    p.kept + Literals(p.groups)
  }

  function Flatten(e: Expr): (r: Expr)
    decreases e
    ensures e.Literal? ==> r == e
    ensures e.Node? ==> r.Node? && r.op == e.op && NoSameOpChild(r)
  {
    match e
    case Literal(_) => e
    case Node(op, cs) =>
      var fs := FlattenAll(cs);
      InlineHasNoSameOp(op, fs);
      AddChildrenKeptFrom(op, Pending([], []), Inline(op, fs));
      Node(op, Regroup(op, fs))
  }

  function FlattenAll(cs: seq<Expr>): (fs: seq<Expr>)
    decreases cs
    ensures |fs| == |cs|
    ensures forall i | 0 <= i < |cs| :: fs[i] == Flatten(cs[i])
  {
    if |cs| == 0 then [] else [Flatten(cs[0])] + FlattenAll(cs[1..])
  }

  /** Inlining removes every child with the parent's operator, provided each inlined
      child had no such child of its own. */
  lemma {:induction false} InlineHasNoSameOp(op: Op, fs: seq<Expr>)
    requires forall i | 0 <= i < |fs| :: fs[i].Node? && fs[i].op == op ==> NoSameOpChild(fs[i])
    ensures forall x | x in Inline(op, fs) :: x.Node? ==> x.op != op
  {
    if |fs| > 0 {
      InlineHasNoSameOp(op, fs[1..]);
    }
  }

  /** Every child kept by a flatten step was already kept or is one of the items handed over. */
  lemma {:induction false} AddChildrenKeptFrom(op: Op, p: Pending, items: seq<Expr>)
    ensures forall x | x in AddChildren(op, p, items).kept :: x in p.kept || x in items
    decreases |items|
  {
    if |items| > 0 {
      AddChildrenKeptFrom(op, AddChild(op, p, items[0]), items[1..]);
    }
  }

  // ---------------------------------------------------------------------------
  // to_dnf and merge
  // ---------------------------------------------------------------------------

  /** The capacity error of `expand`: the would-be clause count and the configured limit. */
  datatype CapacityError = CapacityExceeded(size: int, limit: int)

  function ToDnf(e: Expr, limit: int): (r: Result<Formula, CapacityError>)
    decreases e
    ensures e.Literal? ==> r.Ok? && r.value.clauses == {{e.key}} && r.value.shared == {}
    ensures r.Err? ==> r.error.limit == limit && r.error.size > limit
  {
    match e
    case Literal(k) => Ok(Formula({{k}}, {}))
    case Node(op, cs) =>
      match ToDnfAll(cs, limit)
      case Err(err) => Err(err)
      case Ok(forms) =>
        match op
        case Or => Ok(Merge(forms))
        case And => Expand(limit, forms)
  }

  /** The children converted left to right; the first failure is the one reported. */
  function ToDnfAll(cs: seq<Expr>, limit: int): (r: Result<seq<Formula>, CapacityError>)
    decreases cs
    ensures r.Ok? ==> |r.value| == |cs| && forall i | 0 <= i < |cs| :: ToDnf(cs[i], limit) == Ok(r.value[i])
    ensures r.Err? ==> r.error.limit == limit && r.error.size > limit
    ensures r.Err? ==> exists i | 0 <= i < |cs| :: ToDnf(cs[i], limit) == Err(r.error)
  {
    if |cs| == 0 then Ok([])
    else
      match ToDnf(cs[0], limit)
      case Err(err) => Err(err)
      case Ok(f) =>
        match ToDnfAll(cs[1..], limit)
        case Err(err) => Err(err)
        case Ok(fs) => Ok([f] + fs)
  }

  function ClausesOf(forms: seq<Formula>): (ss: seq<set<Clause>>)
    ensures |ss| == |forms|
    ensures forall i | 0 <= i < |forms| :: ss[i] == forms[i].clauses
  {
    if |forms| == 0 then [] else [forms[0].clauses] + ClausesOf(forms[1..])
  }

  function SharedOf(forms: seq<Formula>): (ss: seq<set<Clause>>)
    ensures |ss| == |forms|
    ensures forall i | 0 <= i < |forms| :: ss[i] == forms[i].shared
  {
    if |forms| == 0 then [] else [forms[0].shared] + SharedOf(forms[1..])
  }

  /** OR over formulas. */
  function Merge(forms: seq<Formula>): (r: Formula)
    ensures forall c :: c in r.clauses <==> exists i | 0 <= i < |forms| :: c in forms[i].clauses
    ensures forall c :: c in r.shared <==> exists i | 0 <= i < |forms| :: c in forms[i].shared
    ensures |forms| == 0 ==> r == Formula({}, {})
  {
    Normalize(Formula(UnionOf(ClausesOf(forms)), UnionOf(SharedOf(forms))))
  }

  // ---------------------------------------------------------------------------
  // expand
  // ---------------------------------------------------------------------------

  /** The result of the classification pass over the operands: how many have a clause
      count other than one, the union of the single clauses of the others, and the
      running product of the clause counts. */
  datatype Tally = Tally(nontrivial: nat, common: Clause, size: int)

  /** The classification pass, operand by operand from the left. */
  function Classify(forms: seq<Formula>): (r: Tally)
    decreases |forms|
    ensures r.nontrivial <= |forms|
    ensures r.nontrivial == 0 <==> forall i | 0 <= i < |forms| :: Size(forms[i]) == 1
    ensures forall i | 0 <= i < |forms| && Size(forms[i]) == 1 :: Only(forms[i].clauses) <= r.common
  {
    if |forms| == 0 then Tally(0, {}, 1)
    else
      var t := Classify(forms[..|forms| - 1]);
      var f := forms[|forms| - 1];
      if Size(f) == 1 then Tally(t.nontrivial, t.common + Only(f.clauses), t.size * Size(f))
      else Tally(t.nontrivial + 1, t.common, t.size * Size(f))
  }

  /** The number of clauses a full expansion of `forms` would produce before
      duplicates collapse. */
  function Product(forms: seq<Formula>): nat {
    if |forms| == 0 then 1 else Size(forms[0]) * Product(forms[1..])
  }

  /** Every union of one clause from `a` with one clause from `b`. */
  function Cross(a: set<Clause>, b: set<Clause>): set<Clause> {
    set c1, c2 | c1 in a && c2 in b :: c1 + c2
  }

  /** The expansion proper (`exprec`): the clause-wise cross product of the operands. */
  function Exprec(forms: seq<Formula>): (r: Formula)
    ensures forall c :: c in r.shared <==> exists i | 0 <= i < |forms| :: c in forms[i].shared
  {
    if |forms| == 0 then Formula({{}}, {})
    else
      var rest := Exprec(forms[1..]);
      assert forall c :: c in rest.shared <==> exists i | 1 <= i < |forms| :: c in forms[i].shared by {
        forall c | c in rest.shared ensures exists i | 1 <= i < |forms| :: c in forms[i].shared {
          var j :| 0 <= j < |forms| - 1 && c in forms[1..][j].shared;
          assert c in forms[j + 1].shared;
        }
      }
      Formula(Cross(forms[0].clauses, rest.clauses), forms[0].shared + rest.shared)
  }

  /** The multi-literal clauses of the operands with more than one clause. */
  function Repeated(forms: seq<Formula>): (s: set<Clause>)
    ensures forall c :: c in s <==>
      exists i | 0 <= i < |forms| :: Size(forms[i]) > 1 && c in forms[i].clauses && |c| > 1
  {
    if |forms| == 0 then {}
    else
      var rest := Repeated(forms[1..]);
      assert forall c :: c in rest <==>
        exists i | 1 <= i < |forms| :: Size(forms[i]) > 1 && c in forms[i].clauses && |c| > 1 by {
        forall c | c in rest
          ensures exists i | 1 <= i < |forms| :: Size(forms[i]) > 1 && c in forms[i].clauses && |c| > 1
        {
          var j :| 0 <= j < |forms| - 1 && Size(forms[1..][j]) > 1 && c in forms[1..][j].clauses && |c| > 1;
          assert forms[1..][j] == forms[j + 1];
        }
      }
      (if Size(forms[0]) > 1 then set c | c in forms[0].clauses && |c| > 1 else {}) + rest
  }

  /** AND over formulas, refused with a capacity error when the full product would
      have more than `limit` clauses. */
  function Expand(limit: int, forms: seq<Formula>): (r: Result<Formula, CapacityError>)
    ensures r.Err? <==> Product(forms) > limit
    ensures r.Err? ==> r.error == CapacityExceeded(Product(forms), limit)
  {
    var t := Classify(forms);
    ClassifySize(forms);
    if t.size > limit then Err(CapacityExceeded(t.size, limit))
    else
      var res := Exprec(forms);
      var common := if t.nontrivial > 0 && |t.common| > 1 then {t.common} else {};
      var repeated := if t.nontrivial > 1 then Repeated(forms) else {};
      Ok(Normalize(Formula(res.clauses, res.shared + (common + repeated))))
  }

  /** The running product of the classification pass is the product of the clause counts. */
  lemma {:induction false} ClassifySize(forms: seq<Formula>)
    ensures Classify(forms).size == Product(forms)
    decreases |forms|
  {
    if |forms| > 0 {
      var init := forms[..|forms| - 1];
      ClassifySize(init);
      ProductSnoc(init, forms[|forms| - 1]);
      assert init + [forms[|forms| - 1]] == forms;
    }
  }

  /** The product grows by the clause count of an operand appended at the end. */
  lemma {:induction false} ProductSnoc(forms: seq<Formula>, f: Formula)
    ensures Product(forms + [f]) == Product(forms) * Size(f)
    decreases |forms|
  {
    if |forms| == 0 {
      assert Product([f]) == Size(f) * Product([]);
    } else {
      assert (forms + [f])[1..] == forms[1..] + [f];
      ProductSnoc(forms[1..], f);
      calc {
        Product(forms + [f]);
        Size(forms[0]) * Product(forms[1..] + [f]);
        Size(forms[0]) * (Product(forms[1..]) * Size(f));
        (Size(forms[0]) * Product(forms[1..])) * Size(f);
      }
    }
  }
}
