/** Key literals: the atomic predicates that rule expressions are built from. */
module Dag {

  /** "Attribute `name` takes one of the values in `values`." */
  datatype Key = Key(name: string, values: set<string>)

  /** A value for each attribute that an assignment mentions; used only to give
      expressions and formulas a meaning. */
  type Assignment = map<string, string>

  /** The literal `k` is true under `a`. */
  predicate Matches(k: Key, a: Assignment) {
    k.name in a && a[k.name] in k.values
  }
}
