/** Rule expressions: trees of AND/OR nodes over key literals. */
module Ast {
  import opened Dag

  /** The two operator tags; the type is closed, so no other tag can reach a conversion. */
  datatype Op = And | Or

  datatype Expr = Literal(key: Key) | Node(op: Op, children: seq<Expr>)

  /** The truth value of an expression under an assignment: an empty AND is true, an empty OR false. */
  predicate Eval(e: Expr, a: Assignment)
    decreases e
  {
    match e
    case Literal(k) => Matches(k, a)
    case Node(And, cs) => forall i | 0 <= i < |cs| :: Eval(cs[i], a)
    case Node(Or, cs) => exists i | 0 <= i < |cs| :: Eval(cs[i], a)
  }

  /** Every expression of `es` holds under `a`. */
  predicate AllHold(es: seq<Expr>, a: Assignment) {
    forall i | 0 <= i < |es| :: Eval(es[i], a)
  }

  /** Some expression of `es` holds under `a`. */
  predicate SomeHolds(es: seq<Expr>, a: Assignment) {
    exists i | 0 <= i < |es| :: Eval(es[i], a)
  }
}
