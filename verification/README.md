# ccs-py: DNF conversion and string values, in Dafny

This project models two pieces of ccs-py, a Python implementation of CCS (a
configuration language whose rules are selected by boolean expressions over
"key matches" such as `env.prod` or `role.web`).

- **The DNF engine** (`ccspy/to_dnf.py`) takes a rule selector, a tree of AND/OR
  nodes over key literals, and produces disjunctive normal form: a set of clauses,
  each a set of keys.
  - `flatten` inlines nested nodes that carry the parent's operator. Under OR it
    also merges the literals of one key name into a single literal.
  - `to_dnf` recurses over the tree.
  - `merge` implements OR as a union of clause sets.
  - `expand` implements AND as a clause-wise cross product. It refuses to expand
    when the product of the clause counts exceeds a limit. It also records
    `shared` sub-clauses for later use.
- **String values** (`src/ccs/stringval.py`) hold a sequence of literal pieces and
  environment-variable interpolants. They are joined into a string on demand.

Modules:

| module | file | contents |
|---|---|---|
| `Results` | `results.dfy` | `Result<T, E>`, the success-or-error return type |
| `Dag` | `dag.dfy` | `Key` (a name and a set of values), `Assignment`, `Matches` |
| `Ast` | `ast.dfy` | `Op`, `Expr` (a literal or an AND/OR node), the meaning `Eval` |
| `Formulas` | `formula.dfy` | `Clause`, `Formula` (clauses plus `shared`), `Normalize`, `Satisfies` |
| `Dnf` | `to_dnf.dfy` | `Flatten`, `ToDnf`, `Merge`, `Expand`, and the steps they are built from |
| `FlattenProps` | `flatten_props.dfy` | properties of `flatten` |
| `ExpandProps` | `expand_props.dfy` | properties of `expand` |
| `DnfProps` | `dnf_props.dfy` | properties of `to_dnf`, plus worked examples |
| `AsWritten` | `as_written.dfy` | `to_dnf` exactly as written (see Findings) |
| `Stringval` | `stringval.dfy` | `Element`, `StringVal` and its operations |

The capacity error, which Python raises as a `ValueError`, is returned as
`Err(CapacityExceeded(size, limit))`. When several children fail, the first one from
the left is reported, matching Python's exception order. `normalize`, defined in a
file that is not part of this model, is the identity here. Every property about
`merge` and `expand` is therefore a property of the formula that is handed to
`normalize`.

Two behaviours of the code worth knowing:

- `expand` counts as "non-trivial" every operand whose clause count is not one
  (`len(f) == 1` at ccspy/to_dnf.py:67). That includes an operand with no clauses,
  not only operands with two or more.
- `flatten` of `OR(role.web, role.db)` gives an OR node with the single child
  `role{web, db}` (`DnfProps.FlattenMergesRoles`), not the bare literal. As a result,
  `AND(env.prod, OR(role.web, role.db))` flattens to one clause
  `{role{web,db}, env{prod}}` after `to_dnf`, not two.

## Model

| member | source | states |
|---|---|---|
| Dnf.Flatten | ccspy/to_dnf.py:8-39 | a literal comes back unchanged; an operator node keeps its operator, and no child of the result carries the parent's operator |
| FlattenProps.FlattenOrLiterals | ccspy/to_dnf.py:12-38 | under OR: the operator children handed over (directly or by inlining) are kept in order, followed only by literals; the literals have pairwise distinct names; each literal's values are the union of the values of every literal of that name handed over; a name appears exactly when some literal of that name was handed over |
| FlattenProps.FlattenAndKeepsLiterals | ccspy/to_dnf.py:15-35 | under AND no literal is merged: the children are exactly the items handed over, same-operator children inlined, in order |
| FlattenProps.FlattenIsFlat | ccspy/to_dnf.py:30-38 | the whole result is flat: at every level no child repeats its parent's operator, and under OR the literals come last with one per name |
| FlattenProps.FlatIsFixpoint | ccspy/to_dnf.py:8-39 | a flat tree is left unchanged |
| FlattenProps.FlattenIdempotent | ccspy/to_dnf.py:8-39 | flattening twice is flattening once |
| FlattenProps.FlattenEval | ccspy/to_dnf.py:8-39 | the flattened tree accepts exactly the assignments the original accepts |
| FlattenProps.AddChildStep | ccspy/to_dnf.py:15-28 | one child handed to a parent: under OR a literal leaves the kept children alone, adds its name to the table and its values under that name, and changes no other name's values; any other child is kept at the end and leaves the table alone |
| Dnf.ToDnf | ccspy/to_dnf.py:42-49 | a literal `k` gives exactly one clause `{k}` and no shared clauses; any failure carries the limit and a size above it |
| Dnf.ToDnfAll | ccspy/to_dnf.py:46-49 | on success, one formula per child, each that child's own conversion, in order; a failure is the failure of some child |
| DnfProps.ToDnfPropagates | ccspy/to_dnf.py:46-49 | when the children before child `i` all convert and child `i` fails, the node fails with child `i`'s error, whatever its operator |
| DnfProps.AndGuard | ccspy/to_dnf.py:48-49 | an AND whose children convert fails exactly when the product of their clause counts exceeds the limit, reporting that product and the limit |
| DnfProps.ToDnfSound | ccspy/to_dnf.py:42-96 | a successful conversion accepts exactly the assignments the expression accepts |
| DnfProps.FlattenThenToDnfSound | ccspy/to_dnf.py:8-96 | flattening before converting still gives a formula that accepts exactly what the expression accepts |
| DnfProps.OrSharedIsUnion | ccspy/to_dnf.py:45-47 | with the merge corrected (see Findings), an OR node's `shared` set is the union of its children's |
| Dnf.Merge | ccspy/to_dnf.py:52-55 | a clause is in the result exactly when it is in some input, and likewise for `shared`; with no inputs the result is empty |
| DnfProps.MergeSatisfies | ccspy/to_dnf.py:52-55 | the merged formula holds exactly when some input holds: it is OR |
| Dnf.Expand | ccspy/to_dnf.py:58-96 | fails exactly when the product of the operands' clause counts exceeds the limit, and the error carries that product and the limit |
| Dnf.ClassifySize | ccspy/to_dnf.py:62-70 | the running size of the classification pass is the product of the clause counts |
| ExpandProps.ClassifyNontrivial | ccspy/to_dnf.py:62-70 | the non-trivial count is positive exactly when some operand does not have one clause, and above one exactly when two operands do not |
| ExpandProps.ClassifyCommon | ccspy/to_dnf.py:63-68 | `common` is every literal of every single-clause operand |
| Dnf.Exprec | ccspy/to_dnf.py:76-85 | the fold's `shared` set is the union of the operands' `shared` sets |
| ExpandProps.ExprecClauses | ccspy/to_dnf.py:76-85 | the clauses are exactly the unions of one clause from each operand; no operands give the single empty clause |
| ExpandProps.ExprecSize | ccspy/to_dnf.py:76-85 | the expansion has at most the product of the clause counts |
| ExpandProps.ExprecSizeExact | ccspy/to_dnf.py:76-85 | when no two operands share a literal, the expansion has exactly the product of the clause counts |
| DnfProps.ExprecSatisfies | ccspy/to_dnf.py:76-85 | the expansion holds exactly when every operand holds: it is AND |
| ExpandProps.ExpandClauses | ccspy/to_dnf.py:72-85 | within the limit, `expand` succeeds with exactly the unions of one clause per operand, and has at most the product of the clause counts, hence at most the limit |
| ExpandProps.ExpandSizeExact | ccspy/to_dnf.py:72-85 | within the limit, and when no two operands share a literal, `expand` has exactly the product of the clause counts |
| Dnf.Classify | ccspy/to_dnf.py:62-70 | the non-trivial count is at most the number of operands and is zero exactly when every operand has one clause; `common` contains every literal of every single-clause operand |
| Dnf.Repeated | ccspy/to_dnf.py:92-94 | exactly the clauses of more than one literal taken from operands with more than one clause |
| ExpandProps.ExpandShared | ccspy/to_dnf.py:76-95 | a successful `expand`'s `shared` set is: the operands' shared clauses; plus `common`, when some operand does not have one clause and `common` has more than one literal; plus, when two operands do not have one clause, every multi-literal clause of an operand with more than one clause |
| DnfProps.CapacityBoundary | ccspy/to_dnf.py:72-73 | `AND(OR(x.1, x.2), OR(y.1, y.2))` fails with size 4 at limit 3 and converts at limit 4 |
| DnfProps.FlattenMergesRoles | ccspy/to_dnf.py:12-38 | `OR(role.web, role.db)` flattens to an OR node whose only child is `role{web, db}` |
| AsWritten.MergeOnce | ccspy/to_dnf.py:52-55 | `merge` given a one-shot iterator: the clauses are those of the full merge, and `shared` is empty |
| AsWritten.ToDnfAsWritten | ccspy/to_dnf.py:42-55 | as written, every successful OR node has an empty `shared` set |
| AsWritten.AgreesWithCorrected | ccspy/to_dnf.py:42-96 | the conversion as written succeeds exactly when the corrected one does; a failure carries the same error; a success has the same clauses, so only `shared` differs |
| AsWritten.ToDnfAsWrittenSound | ccspy/to_dnf.py:42-96 | the program's own `to_dnf`, when it succeeds, accepts exactly the assignments the expression accepts |
| AsWritten.AndGuardAsWritten | ccspy/to_dnf.py:48-73 | the program's own `to_dnf` of an AND whose children convert fails exactly when the product of their clause counts exceeds the limit, reporting that product and the limit |
| AsWritten.SharedLostUnderOr | ccspy/to_dnf.py:45-55 | for `OR(AND(a, b, OR(c, d)))` the corrected conversion has `{a, b}` in `shared`, and the conversion as written has an empty `shared` |
| Stringval.Interpolate | src/ccs/stringval.py:10-21 | a literal gives its own text; an interpolant gives the variable's value in its environment, or "" when the variable is absent |
| Stringval.AddLiteral | src/ccs/stringval.py:29-30 | appends exactly one literal element at the end; the earlier elements and the environment are unchanged |
| Stringval.AddInterpolant | src/ccs/stringval.py:32-34 | appends exactly one interpolant at the end, capturing the value's environment; the earlier elements are unchanged |
| Stringval.JoinConcat | src/ccs/stringval.py:43-44 | the text of two element sequences put together is the text of the first followed by the text of the second |
| Stringval.StrIsInOrder | src/ccs/stringval.py:43-44 | the text is the text of the elements before each element, then that element's text, then the text of the elements after it; no elements give "" |
| Stringval.StrAddLiteral | src/ccs/stringval.py:29-30 | after appending a literal, the text is the old text followed by that literal |
| Stringval.StrAddInterpolant | src/ccs/stringval.py:32-34 | after appending an interpolant, the text is the old text followed by the variable's value, or is unchanged when the variable is absent |
| Stringval.EmptyIsBlank | src/ccs/stringval.py:25-44 | a new value has the text "", and after one `add_literal(s)` its text is `s` |
| Stringval.Interpolation | src/ccs/stringval.py:36-41 | a value needs no interpolation exactly when its elements are one literal holding its whole text |
| Stringval.Str | src/ccs/stringval.py:43-44 | the text is exactly as long as the elements' texts together |
| Stringval.InterpolationMeaning | src/ccs/stringval.py:36-41 | a value needs interpolation whenever it has more than one element; with one element, exactly when that element is an interpolant; it needs none exactly when it is a single literal of its own text |

## Left out

- `normalize` (from `ccspy/formula.py`, which is not part of this model) is the identity. Each `merge` and `expand` property describes the formula before normalization.
- `Key`, `Clause`, `Formula`, `Expr` and `Step` are defined in files that are not part of this model. They are Dafny datatypes here: a key is a name with a set of values, a clause is a set of keys, and a formula is a set of clauses with a `shared` set. A formula's length is its number of clauses.
- Negative and wildcard literals are marked as unimplemented in the source (ccspy/to_dnf.py:20-25) and are not modelled.
- Operators other than AND and OR: the source returns nothing for them (ccspy/to_dnf.py:45-49). The operator type here has only the two variants, so that case cannot arise.
- The text of the capacity error message (ccspy/to_dnf.py:73): the error carries only the size and the limit.
- The `os.environ` default of `add_interpolant` (src/ccs/stringval.py:33) is process state. The environment is always an explicit map, given when the value is built.
- The default limit: `to_dnf(expr, limit=100)` (ccspy/to_dnf.py:42) may be called without a limit. `Dnf.ToDnf` always takes the limit explicitly; a call relying on the default is `ToDnf(e, 100)`.
- Sharing of the environment: in Python an `Interpolant` keeps a reference to the dict it was given (src/ccs/stringval.py:18, 21), and so does the `StringVal` (:27, :33). A change to that dict after `add_interpolant` shows up in a later `str()`. Here `Interpolant` holds the map as it was when the element was appended; later changes to the caller's environment are not modelled.
- Mutation: `add_literal` and `add_interpolant` change the value in place in Python. Here they return the new value.
- `Stringval.Interpolation` requires at least one element. The source fails with an index error on an empty value (src/ccs/stringval.py:39).
- The iteration order of the `defaultdict` in `flatten` is its insertion order. The grouped literals are therefore kept in the order in which each name first appears.
- Laziness: Python's generators and `map` are sequences here, with one exception. The one-shot iterator passed to `merge` does change the result, and it is modelled in `AsWritten`.
- Dnf.Expand: the guard is checked before any expansion. A pure function cannot observe that ordering, so the model states only that a failure depends on nothing but the product and the limit.
- ExpandProps.ExpandClauses: the clause count is bounded by the product, not equal to it, because unions can coincide. Equality is proved only when the operands share no literal (`ExpandProps.ExpandSizeExact`).

## Findings

| source | as written | input that shows it | evidently intended | confidence | as-written member | corrected member |
|---|---|---|---|---|---|---|
| ccspy/to_dnf.py:46, 52-55 | `to_dnf` hands `merge` a one-shot `map` iterator. `merge` reads it twice: once for the clauses (line 53) and once for `shared` (line 54). The second read finds it exhausted, so every OR node's `shared` set is empty. | `OR(AND(a, b, OR(c, d)))`: the inner AND records `{a, b}` as shared, and the outer OR drops it | an OR node's `shared` is the union of its children's `shared` sets, as `merge` itself computes when it is given a list | high; not executed | AsWritten.SharedLostUnderOr | DnfProps.OrSharedIsUnion |
