/** Properties of `flatten`: literal merging under OR, no merging under AND,
    the shape of its result, idempotence, and preservation of meaning. */
module FlattenProps {
  import opened Dag
  import opened Ast
  import opened Dnf

  // ---------------------------------------------------------------------------
  // Vocabulary
  // ---------------------------------------------------------------------------

  /** The operator children of `items`, in order. */
  function NonLiterals(items: seq<Expr>): (ns: seq<Expr>)
    ensures forall x | x in ns :: x.Node?
  {
    if |items| == 0 then []
    else (if items[0].Literal? then [] else [items[0]]) + NonLiterals(items[1..])
  }

  /** The union of the value sets of the literals of `items` named `n`. */
  function ValuesNamed(items: seq<Expr>, n: string): set<string> {
    if |items| == 0 then {}
    else
      var own := if items[0].Literal? && items[0].key.name == n then items[0].key.values else {};
      own + ValuesNamed(items[1..], n)
  }

  /** The names of the literals of `items`. */
  function LiteralNames(items: seq<Expr>): set<string> {
    set i | 0 <= i < |items| && items[i].Literal? :: items[i].key.name
  }

  /** The names of a table of grouped literals. */
  function NamesOf(groups: seq<Key>): set<string> {
    set i | 0 <= i < |groups| :: groups[i].name
  }

  /** No two entries of the table share a name. */
  predicate DistinctNames(groups: seq<Key>) {
    forall i, j | 0 <= i < j < |groups| :: groups[i].name != groups[j].name
  }

  /** The values recorded under `n` in the table, or none. */
  function Lookup(groups: seq<Key>, n: string): set<string> {
    if |groups| == 0 then {}
    else if groups[0].name == n then groups[0].values
    else Lookup(groups[1..], n)
  }

  /** Under OR, every literal child comes after every operator child, and no two
      literal children share a name. */
  predicate LiteralsGrouped(cs: seq<Expr>) {
    && (forall i, j | 0 <= i < j < |cs| :: cs[i].Literal? ==> cs[j].Literal?)
    && (forall i, j | 0 <= i < j < |cs| && cs[i].Literal? && cs[j].Literal? :: cs[i].key.name != cs[j].key.name)
  }

  /** The shape `flatten` produces, at every level of the tree. */
  predicate IsFlat(e: Expr)
    decreases e
  {
    match e
    case Literal(_) => true
    case Node(op, cs) =>
      && NoSameOpChild(e)
      && (op == Or ==> LiteralsGrouped(cs))
      && forall i | 0 <= i < |cs| :: IsFlat(cs[i])
  }

  // ---------------------------------------------------------------------------
  // The grouping table
  // ---------------------------------------------------------------------------

  lemma {:induction false} LookupAt(groups: seq<Key>, i: int)
    requires DistinctNames(groups)
    requires 0 <= i < |groups|
    ensures Lookup(groups, groups[i].name) == groups[i].values
  {
    if i > 0 {
      assert groups[0].name != groups[i].name;
      LookupAt(groups[1..], i - 1);
    }
  }

  lemma NamesCons(groups: seq<Key>)
    requires |groups| > 0
    ensures NamesOf(groups) == {groups[0].name} + NamesOf(groups[1..])
  {
    var tail := groups[1..];
    forall n | n in NamesOf(groups) ensures n in {groups[0].name} + NamesOf(tail) {
      var i :| 0 <= i < |groups| && groups[i].name == n;
      if i > 0 { assert groups[i] == tail[i - 1]; }
    }
    forall n | n in NamesOf(tail) ensures n in NamesOf(groups) {
      var i :| 0 <= i < |tail| && tail[i].name == n;
      assert groups[i + 1] == tail[i];
    }
  }

  /** One child handed to a parent: under OR a literal leaves the kept children alone
      and adds its values under its name in the table, leaving every other name's
      values alone; anything else is kept at the end and leaves the table alone. */
  lemma AddChildStep(op: Op, p: Pending, e: Expr)
    ensures op == Or && e.Literal? ==>
      && AddChild(op, p, e).kept == p.kept
      && NamesOf(AddChild(op, p, e).groups) == NamesOf(p.groups) + {e.key.name}
      && forall n :: Lookup(AddChild(op, p, e).groups, n) ==
                     Lookup(p.groups, n) + (if n == e.key.name then e.key.values else {})
    ensures !(op == Or && e.Literal?) ==> AddChild(op, p, e) == Pending(p.kept + [e], p.groups)
  {
    if op == Or && e.Literal? {
      AbsorbNames(p.groups, e.key);
      forall n ensures Lookup(AddChild(op, p, e).groups, n) ==
                       Lookup(p.groups, n) + (if n == e.key.name then e.key.values else {}) {
        AbsorbLookup(p.groups, e.key, n);
      }
    }
  }

  /** Absorbing a literal adds its name to the table's names. */
  lemma {:induction false} AbsorbNames(groups: seq<Key>, k: Key)
    ensures NamesOf(Absorb(groups, k)) == NamesOf(groups) + {k.name}
  {
    var r := Absorb(groups, k);
    if |groups| == 0 {
      assert r == [k];
      NamesCons(r);
    } else if groups[0].name == k.name {
      NamesCons(r);
      NamesCons(groups);
      assert r[1..] == groups[1..];
    } else {
      AbsorbNames(groups[1..], k);
      NamesCons(r);
      NamesCons(groups);
      assert r[1..] == Absorb(groups[1..], k);
    }
  }

  /** Absorbing a literal keeps the names of the table distinct. */
  lemma {:induction false} AbsorbDistinct(groups: seq<Key>, k: Key)
    requires DistinctNames(groups)
    ensures DistinctNames(Absorb(groups, k))
  {
    var r := Absorb(groups, k);
    if |groups| > 0 && groups[0].name != k.name {
      var tail := groups[1..];
      AbsorbDistinct(tail, k);
      AbsorbNames(tail, k);
      NamesCons(groups);
      assert groups[0].name !in NamesOf(tail) by {
        forall i | 0 <= i < |tail| ensures tail[i].name != groups[0].name {
          assert tail[i] == groups[i + 1];
        }
      }
      forall i, j | 0 <= i < j < |r| ensures r[i].name != r[j].name {
        assert r[j] == Absorb(tail, k)[j - 1];
        if i == 0 {
          assert r[j].name in NamesOf(Absorb(tail, k));
        } else {
          assert r[i] == Absorb(tail, k)[i - 1];
        }
      }
    } else if |groups| > 0 {
      assert forall i | 1 <= i < |r| :: r[i] == groups[i];
    }
  }

  /** Absorbing a literal adds its values under its name and leaves every other name alone. */
  lemma {:induction false} AbsorbLookup(groups: seq<Key>, k: Key, n: string)
    ensures Lookup(Absorb(groups, k), n) == Lookup(groups, n) + (if n == k.name then k.values else {})
  {
    var r := Absorb(groups, k);
    if |groups| > 0 {
      if groups[0].name == k.name {
        assert r[1..] == groups[1..];
      } else {
        AbsorbLookup(groups[1..], k, n);
        assert r[1..] == Absorb(groups[1..], k);
      }
    }
  }

  /** A literal with a name the table lacks becomes a new last entry. */
  lemma {:induction false} AbsorbNew(groups: seq<Key>, k: Key)
    requires k.name !in NamesOf(groups)
    ensures Absorb(groups, k) == groups + [k]
  {
    if |groups| > 0 {
      assert groups[0].name in NamesOf(groups);
      assert NamesOf(groups[1..]) <= NamesOf(groups) by {
        forall n | n in NamesOf(groups[1..]) ensures n in NamesOf(groups) {
          var i :| 0 <= i < |groups[1..]| && groups[1..][i].name == n;
          assert groups[i + 1].name == n;
        }
      }
      AbsorbNew(groups[1..], k);
      assert groups == [groups[0]] + groups[1..];
    }
  }

  // ---------------------------------------------------------------------------
  // Flatten steps
  // ---------------------------------------------------------------------------

  lemma {:induction false} LiteralNamesCons(items: seq<Expr>)
    requires |items| > 0
    ensures LiteralNames(items) ==
      (if items[0].Literal? then {items[0].key.name} else {}) + LiteralNames(items[1..])
  {
    var tail := items[1..];
    forall n | n in LiteralNames(items)
      ensures n in (if items[0].Literal? then {items[0].key.name} else {}) + LiteralNames(tail)
    {
      var i :| 0 <= i < |items| && items[i].Literal? && items[i].key.name == n;
      if i > 0 { assert items[i] == tail[i - 1]; }
    }
    forall n | n in LiteralNames(tail) ensures n in LiteralNames(items) {
      var i :| 0 <= i < |tail| && tail[i].Literal? && tail[i].key.name == n;
      assert items[i + 1] == tail[i];
    }
  }

  /** Under OR, the flatten steps keep exactly the operator items, in order. */
  lemma {:induction false} AddChildrenOrKept(p: Pending, items: seq<Expr>)
    ensures AddChildren(Or, p, items).kept == p.kept + NonLiterals(items)
    decreases |items|
  {
    if |items| > 0 {
      var x := items[0];
      AddChildrenOrKept(AddChild(Or, p, x), items[1..]);
      if !x.Literal? {
        assert p.kept + [x] + NonLiterals(items[1..]) == p.kept + ([x] + NonLiterals(items[1..]));
      }
    }
  }

  /** Under OR, the flatten steps fold every literal item into the table entry of its name. */
  lemma {:induction false} AddChildrenOrGroups(p: Pending, items: seq<Expr>)
    requires DistinctNames(p.groups)
    ensures DistinctNames(AddChildren(Or, p, items).groups)
    ensures NamesOf(AddChildren(Or, p, items).groups) == NamesOf(p.groups) + LiteralNames(items)
    ensures forall n :: Lookup(AddChildren(Or, p, items).groups, n) == Lookup(p.groups, n) + ValuesNamed(items, n)
    decreases |items|
  {
    if |items| == 0 {
      assert LiteralNames(items) == {};
    } else {
      var x := items[0];
      var p' := AddChild(Or, p, x);
      if x.Literal? {
        AbsorbDistinct(p.groups, x.key);
        AbsorbNames(p.groups, x.key);
        forall n ensures Lookup(p'.groups, n) == Lookup(p.groups, n) + (if n == x.key.name then x.key.values else {}) {
          AbsorbLookup(p.groups, x.key, n);
        }
      }
      AddChildrenOrGroups(p', items[1..]);
      LiteralNamesCons(items);
      var q := AddChildren(Or, p, items);
      assert q == AddChildren(Or, p', items[1..]);
      forall n ensures Lookup(q.groups, n) == Lookup(p.groups, n) + ValuesNamed(items, n) {
        assert Lookup(q.groups, n) == Lookup(p'.groups, n) + ValuesNamed(items[1..], n);
      }
    }
  }

  /** Under AND, the flatten steps keep every item, in order, and group nothing. */
  lemma {:induction false} AddChildrenAnd(p: Pending, items: seq<Expr>)
    ensures AddChildren(And, p, items) == Pending(p.kept + items, p.groups)
    decreases |items|
  {
    if |items| > 0 {
      AddChildrenAnd(AddChild(And, p, items[0]), items[1..]);
      assert p.kept + [items[0]] + items[1..] == p.kept + items;
    }
  }

  // ---------------------------------------------------------------------------
  // The shape of flatten's result
  // ---------------------------------------------------------------------------

  /** Under OR, `flatten` keeps the operator children it is handed (directly or by
      inlining) in order, then adds one literal per name, each carrying the union of
      the values of every literal of that name it was handed. */
  lemma FlattenOrLiterals(cs: seq<Expr>)
    ensures var r := Flatten(Node(Or, cs));
            var items := Inline(Or, FlattenAll(cs));
            var nl := NonLiterals(items);
            && |nl| <= |r.children|
            && r.children[..|nl|] == nl
            && (forall i | |nl| <= i < |r.children| :: r.children[i].Literal?)
            && (forall i, j | 0 <= i < j < |r.children| && r.children[i].Literal? && r.children[j].Literal? ::
                  r.children[i].key.name != r.children[j].key.name)
            && (forall i | 0 <= i < |r.children| && r.children[i].Literal? ::
                  r.children[i].key.values == ValuesNamed(items, r.children[i].key.name))
            && (forall n :: n in LiteralNames(items) <==>
                  exists i | 0 <= i < |r.children| :: r.children[i].Literal? && r.children[i].key.name == n)
  {
    var items := Inline(Or, FlattenAll(cs));
    var q := AddChildren(Or, Pending([], []), items);
    AddChildrenOrKept(Pending([], []), items);
    assert q.kept == NonLiterals(items);
    assert NamesOf([]) == {};
    AddChildrenOrGroups(Pending([], []), items);
    FlattenChildren(Or, cs);
    var ch := Flatten(Node(Or, cs)).children;
    assert ch == NonLiterals(items) + Literals(q.groups);
    OrShape(NonLiterals(items), q.groups, items);
  }

  /** The children of a flattened node are the regrouped flattened children. */
  lemma FlattenChildren(op: Op, cs: seq<Expr>)
    ensures Flatten(Node(op, cs)).children == Regroup(op, FlattenAll(cs))
  {
  }

  /** `ch` is `n` operator children followed by one literal per table entry, in order. */
  predicate TableTail(ch: seq<Expr>, n: nat, groups: seq<Key>) {
    && |ch| == n + |groups|
    && (forall i | 0 <= i < |ch| && ch[i].Literal? :: i >= n)
    && (forall i | n <= i < |ch| :: ch[i] == Literal(groups[i - n]))
  }

  /** Operator children followed by the table's literals have that shape. */
  lemma LiteralsAtEnd(nl: seq<Expr>, groups: seq<Key>)
    requires forall x | x in nl :: x.Node?
    ensures (nl + Literals(groups))[..|nl|] == nl
    ensures TableTail(nl + Literals(groups), |nl|, groups)
  {
    var ch := nl + Literals(groups);
    forall i | 0 <= i < |ch| && ch[i].Literal? ensures i >= |nl| {
      forall j | 0 <= j < |nl| ensures ch[j].Node? {
        assert ch[j] == nl[j];
        assert nl[j] in nl;
      }
    }
  }

  lemma TailDistinct(ch: seq<Expr>, n: nat, groups: seq<Key>)
    requires TableTail(ch, n, groups) && DistinctNames(groups)
    ensures forall i, j | 0 <= i < j < |ch| && ch[i].Literal? && ch[j].Literal? ::
      ch[i].key.name != ch[j].key.name
  {
    forall i, j | 0 <= i < j < |ch| && ch[i].Literal? && ch[j].Literal?
      ensures ch[i].key.name != ch[j].key.name
    {
      assert ch[i] == Literal(groups[i - n]) && ch[j] == Literal(groups[j - n]);
    }
  }

  lemma TailValues(ch: seq<Expr>, n: nat, groups: seq<Key>, items: seq<Expr>)
    requires TableTail(ch, n, groups) && DistinctNames(groups)
    requires forall m :: Lookup(groups, m) == ValuesNamed(items, m)
    ensures forall i | 0 <= i < |ch| && ch[i].Literal? :: ch[i].key.values == ValuesNamed(items, ch[i].key.name)
  {
    forall i | 0 <= i < |ch| && ch[i].Literal?
      ensures ch[i].key.values == ValuesNamed(items, ch[i].key.name)
    {
      assert ch[i] == Literal(groups[i - n]);
      LookupAt(groups, i - n);
    }
  }

  lemma TailNames(ch: seq<Expr>, n: nat, groups: seq<Key>, items: seq<Expr>)
    requires TableTail(ch, n, groups)
    requires NamesOf(groups) == LiteralNames(items)
    ensures forall m :: m in LiteralNames(items) <==>
      exists i | 0 <= i < |ch| :: ch[i].Literal? && ch[i].key.name == m
  {
    forall m | m in LiteralNames(items)
      ensures exists i | 0 <= i < |ch| :: ch[i].Literal? && ch[i].key.name == m
    {
      assert m in NamesOf(groups);
      var j :| 0 <= j < |groups| && groups[j].name == m;
      assert ch[n + j] == Literal(groups[j]);
    }
    forall m | exists i | 0 <= i < |ch| :: ch[i].Literal? && ch[i].key.name == m
      ensures m in LiteralNames(items)
    {
      var i :| 0 <= i < |ch| && ch[i].Literal? && ch[i].key.name == m;
      assert ch[i] == Literal(groups[i - n]);
      assert groups[i - n].name in NamesOf(groups);
    }
  }

  /** The shape of operator children followed by one literal per table entry, when
      the table records exactly the literal values of `items`. */
  lemma OrShape(nl: seq<Expr>, groups: seq<Key>, items: seq<Expr>)
    requires forall x | x in nl :: x.Node?
    requires DistinctNames(groups)
    requires NamesOf(groups) == LiteralNames(items)
    requires forall n :: Lookup(groups, n) == ValuesNamed(items, n)
    ensures var ch := nl + Literals(groups);
            && |nl| <= |ch|
            && ch[..|nl|] == nl
            && (forall i | |nl| <= i < |ch| :: ch[i].Literal?)
            && (forall i, j | 0 <= i < j < |ch| && ch[i].Literal? && ch[j].Literal? ::
                  ch[i].key.name != ch[j].key.name)
            && (forall i | 0 <= i < |ch| && ch[i].Literal? ::
                  ch[i].key.values == ValuesNamed(items, ch[i].key.name))
            && (forall n :: n in LiteralNames(items) <==>
                  exists i | 0 <= i < |ch| :: ch[i].Literal? && ch[i].key.name == n)
  {
    var ch := nl + Literals(groups);
    LiteralsAtEnd(nl, groups);
    TailDistinct(ch, |nl|, groups);
    TailValues(ch, |nl|, groups, items);
    TailNames(ch, |nl|, groups, items);
  }

  /** Under AND, `flatten` merges no literals: the children are exactly those it is
      handed, directly or by inlining, in order. */
  lemma FlattenAndKeepsLiterals(cs: seq<Expr>)
    ensures Flatten(Node(And, cs)).children == Inline(And, FlattenAll(cs))
  {
    AddChildrenAnd(Pending([], []), Inline(And, FlattenAll(cs)));
    assert Literals([]) == [];
  }

  /** Every item handed over by inlining is a flattened child or a child of one. */
  lemma {:induction false} InlineFrom(op: Op, fs: seq<Expr>)
    ensures forall x | x in Inline(op, fs) ::
      x in fs || exists j | 0 <= j < |fs| :: fs[j].Node? && x in fs[j].children
  {
    if |fs| > 0 {
      InlineFrom(op, fs[1..]);
      forall x | x in Inline(op, fs)
        ensures x in fs || exists j | 0 <= j < |fs| :: fs[j].Node? && x in fs[j].children
      {
        if x !in (if fs[0].Node? && fs[0].op == op then fs[0].children else [fs[0]]) {
          assert x in Inline(op, fs[1..]);
          if x !in fs[1..] {
            var j :| 0 <= j < |fs[1..]| && fs[1..][j].Node? && x in fs[1..][j].children;
            assert fs[j + 1] == fs[1..][j];
          }
        }
      }
    }
  }

  /** `flatten` produces a flat tree: at every level no child repeats its parent's
      operator, and under OR the literals come last with one literal per name. */
  lemma {:induction false} FlattenIsFlat(e: Expr)
    ensures IsFlat(Flatten(e))
    decreases e
  {
    match e
    case Literal(_) =>
    case Node(op, cs) =>
      var fs := FlattenAll(cs);
      forall i | 0 <= i < |cs| ensures IsFlat(fs[i]) {
        FlattenIsFlat(cs[i]);
      }
      var items := Inline(op, fs);
      var r := Flatten(e);
      var p := AddChildren(op, Pending([], []), items);
      InlineFrom(op, fs);
      AddChildrenKeptFrom(op, Pending([], []), items);
      assert r.children == p.kept + Literals(p.groups);
      forall i | 0 <= i < |r.children| ensures IsFlat(r.children[i]) {
        var x := r.children[i];
        if i < |p.kept| {
          assert x in p.kept;
          assert x in items;
          if x !in fs {
            var j :| 0 <= j < |fs| && fs[j].Node? && x in fs[j].children;
            var k :| 0 <= k < |fs[j].children| && fs[j].children[k] == x;
            assert IsFlat(fs[j]);
          }
        } else {
          assert x == Literal(p.groups[i - |p.kept|]);
        }
      }
      if op == Or {
        FlattenOrLiterals(cs);
      }
  }

  /** Inlining hands over a sequence unchanged when no element repeats the operator. */
  lemma {:induction false} InlineIdentity(op: Op, fs: seq<Expr>)
    requires forall i | 0 <= i < |fs| :: fs[i].Node? ==> fs[i].op != op
    ensures Inline(op, fs) == fs
  {
    if |fs| > 0 {
      InlineIdentity(op, fs[1..]);
      assert fs == [fs[0]] + fs[1..];
    }
  }

  /** Appending an entry adds its name to the table's names. */
  lemma NamesSnoc(groups: seq<Key>, k: Key)
    ensures NamesOf(groups + [k]) == NamesOf(groups) + {k.name}
  {
    var g := groups + [k];
    forall n | n in NamesOf(g) ensures n in NamesOf(groups) + {k.name} {
      var i :| 0 <= i < |g| && g[i].name == n;
      if i < |groups| { assert g[i] == groups[i]; }
    }
    forall n | n in NamesOf(groups) ensures n in NamesOf(g) {
      var i :| 0 <= i < |groups| && groups[i].name == n;
      assert g[i] == groups[i];
    }
    assert g[|groups|] == k;
  }

  lemma LiteralsSnoc(groups: seq<Key>, k: Key)
    ensures Literals(groups + [k]) == Literals(groups) + [Literal(k)]
  {
  }

  /** Under OR, flatten steps over an already grouped sequence reproduce it. */
  lemma {:induction false} AddChildrenGrouped(p: Pending, items: seq<Expr>)
    requires LiteralsGrouped(items)
    requires |p.groups| > 0 ==> forall i | 0 <= i < |items| :: items[i].Literal?
    requires forall i | 0 <= i < |items| && items[i].Literal? :: items[i].key.name !in NamesOf(p.groups)
    ensures var q := AddChildren(Or, p, items);
            q.kept + Literals(q.groups) == p.kept + Literals(p.groups) + items
    decreases |items|
  {
    if |items| > 0 {
      var x, rest := items[0], items[1..];
      if x.Literal? {
        var p' := Pending(p.kept, p.groups + [x.key]);
        GroupedLiteralPre(p, items);
        AddChildrenGrouped(p', rest);
        GroupedLiteralStep(p, items);
      } else {
        var p' := Pending(p.kept + [x], p.groups);
        GroupedKeptPre(p, items);
        AddChildrenGrouped(p', rest);
        GroupedKeptStep(p, items);
      }
    }
  }

  /** After a new literal is grouped, the rest of a grouped sequence still meets the
      requirements of `AddChildrenGrouped`. */
  lemma GroupedLiteralPre(p: Pending, items: seq<Expr>)
    requires LiteralsGrouped(items) && |items| > 0 && items[0].Literal?
    requires forall i | 0 <= i < |items| && items[i].Literal? :: items[i].key.name !in NamesOf(p.groups)
    ensures LiteralsGrouped(items[1..])
    ensures forall i | 0 <= i < |items[1..]| :: items[1..][i].Literal?
    ensures forall i | 0 <= i < |items[1..]| && items[1..][i].Literal? ::
      items[1..][i].key.name !in NamesOf(p.groups + [items[0].key])
  {
    var rest := items[1..];
    NamesSnoc(p.groups, items[0].key);
    forall i | 0 <= i < |rest| ensures rest[i].Literal? && rest[i].key.name !in NamesOf(p.groups + [items[0].key]) {
      assert items[i + 1] == rest[i];
    }
  }

  /** Grouping a new literal appends it to the table. */
  lemma GroupedLiteralStep(p: Pending, items: seq<Expr>)
    requires |items| > 0 && items[0].Literal? && items[0].key.name !in NamesOf(p.groups)
    ensures AddChildren(Or, p, items) == AddChildren(Or, Pending(p.kept, p.groups + [items[0].key]), items[1..])
    ensures p.kept + Literals(p.groups + [items[0].key]) + items[1..] == p.kept + Literals(p.groups) + items
  {
    AbsorbNew(p.groups, items[0].key);
    LiteralsSnoc(p.groups, items[0].key);
    assert items == [items[0]] + items[1..];
  }

  /** After an operator child is kept, the rest of a grouped sequence still meets the
      requirements of `AddChildrenGrouped`. */
  lemma GroupedKeptPre(p: Pending, items: seq<Expr>)
    requires LiteralsGrouped(items) && |items| > 0 && !items[0].Literal?
    requires |p.groups| > 0 ==> forall i | 0 <= i < |items| :: items[i].Literal?
    requires forall i | 0 <= i < |items| && items[i].Literal? :: items[i].key.name !in NamesOf(p.groups)
    ensures |p.groups| == 0
    ensures LiteralsGrouped(items[1..])
    ensures forall i | 0 <= i < |items[1..]| && items[1..][i].Literal? :: items[1..][i].key.name !in NamesOf(p.groups)
  {
    var rest := items[1..];
    forall i | 0 <= i < |rest| && rest[i].Literal? ensures rest[i].key.name !in NamesOf(p.groups) {
      assert items[i + 1] == rest[i];
    }
  }

  /** Keeping an operator child appends it to the kept children. */
  lemma GroupedKeptStep(p: Pending, items: seq<Expr>)
    requires |items| > 0 && !items[0].Literal? && |p.groups| == 0
    ensures AddChildren(Or, p, items) == AddChildren(Or, Pending(p.kept + [items[0]], p.groups), items[1..])
    ensures p.kept + [items[0]] + Literals(p.groups) + items[1..] == p.kept + Literals(p.groups) + items
  {
    assert Literals(p.groups) == [];
    assert items == [items[0]] + items[1..];
  }

  /** A flat tree is left unchanged by `flatten`. */
  lemma {:induction false} FlatIsFixpoint(e: Expr)
    requires IsFlat(e)
    ensures Flatten(e) == e
    decreases e
  {
    match e
    case Literal(_) =>
    case Node(op, cs) =>
      var fs := FlattenAll(cs);
      forall i | 0 <= i < |cs| ensures fs[i] == cs[i] {
        FlatIsFixpoint(cs[i]);
      }
      assert fs == cs;
      InlineIdentity(op, cs);
      if op == And {
        AddChildrenAnd(Pending([], []), cs);
        assert Literals([]) == [];
      } else {
        assert NamesOf([]) == {};
        AddChildrenGrouped(Pending([], []), cs);
        assert Literals([]) == [];
      }
  }

  /** `flatten` is idempotent. */
  lemma FlattenIdempotent(e: Expr)
    ensures Flatten(Flatten(e)) == Flatten(e)
  {
    FlattenIsFlat(e);
    FlatIsFixpoint(Flatten(e));
  }

  // ---------------------------------------------------------------------------
  // Meaning
  // ---------------------------------------------------------------------------

  lemma SomeHoldsConcat(x: seq<Expr>, y: seq<Expr>, a: Assignment)
    ensures SomeHolds(x + y, a) <==> SomeHolds(x, a) || SomeHolds(y, a)
  {
    if SomeHolds(y, a) {
      var i :| 0 <= i < |y| && Eval(y[i], a);
      assert (x + y)[|x| + i] == y[i];
    }
    if SomeHolds(x, a) {
      var i :| 0 <= i < |x| && Eval(x[i], a);
      assert (x + y)[i] == x[i];
    }
  }

  lemma AllHoldConcat(x: seq<Expr>, y: seq<Expr>, a: Assignment)
    ensures AllHold(x + y, a) <==> AllHold(x, a) && AllHold(y, a)
  {
    if AllHold(x + y, a) {
      forall i | 0 <= i < |y| ensures Eval(y[i], a) {
        assert (x + y)[|x| + i] == y[i];
      }
      forall i | 0 <= i < |x| ensures Eval(x[i], a) {
        assert (x + y)[i] == x[i];
      }
    }
  }

  /** Inlining same-operator children does not change the truth of the parent. */
  lemma {:induction false} InlineEval(op: Op, fs: seq<Expr>, a: Assignment)
    ensures op == And ==> (AllHold(Inline(op, fs), a) <==> AllHold(fs, a))
    ensures op == Or ==> (SomeHolds(Inline(op, fs), a) <==> SomeHolds(fs, a))
  {
    if |fs| > 0 {
      var head := if fs[0].Node? && fs[0].op == op then fs[0].children else [fs[0]];
      InlineEval(op, fs[1..], a);
      SomeHoldsConcat(head, Inline(op, fs[1..]), a);
      AllHoldConcat(head, Inline(op, fs[1..]), a);
      SomeHoldsConcat([fs[0]], fs[1..], a);
      AllHoldConcat([fs[0]], fs[1..], a);
      assert fs == [fs[0]] + fs[1..];
    }
  }

  /** Some entry of the table matches `a`. */
  predicate SomeMatches(groups: seq<Key>, a: Assignment) {
    exists i | 0 <= i < |groups| :: Matches(groups[i], a)
  }

  lemma {:induction false} AbsorbMatches(groups: seq<Key>, k: Key, a: Assignment)
    ensures SomeMatches(Absorb(groups, k), a) <==> SomeMatches(groups, a) || Matches(k, a)
  {
    var r := Absorb(groups, k);
    if |groups| > 0 {
      var tail := groups[1..];
      assert groups == [groups[0]] + tail;
      ConsMatches(groups[0], tail, a);
      if groups[0].name == k.name {
        assert r == [r[0]] + tail;
        ConsMatches(r[0], tail, a);
      } else {
        AbsorbMatches(tail, k, a);
        assert r == [groups[0]] + Absorb(tail, k);
        ConsMatches(groups[0], Absorb(tail, k), a);
      }
    } else {
      assert r == [k] + [];
      ConsMatches(k, [], a);
    }
  }

  lemma ConsMatches(k: Key, groups: seq<Key>, a: Assignment)
    ensures SomeMatches([k] + groups, a) <==> Matches(k, a) || SomeMatches(groups, a)
  {
    var g := [k] + groups;
    if SomeMatches(groups, a) {
      var i :| 0 <= i < |groups| && Matches(groups[i], a);
      assert g[i + 1] == groups[i];
    }
    assert g[0] == k;
    if SomeMatches(g, a) {
      var i :| 0 <= i < |g| && Matches(g[i], a);
      if i > 0 { assert g[i] == groups[i - 1]; }
    }
  }

  lemma LiteralsHold(groups: seq<Key>, a: Assignment)
    ensures SomeHolds(Literals(groups), a) <==> SomeMatches(groups, a)
  {
    if SomeMatches(groups, a) {
      var i :| 0 <= i < |groups| && Matches(groups[i], a);
      assert Eval(Literals(groups)[i], a);
    }
  }

  /** Under OR, grouping literals by name does not change which assignments the
      kept children and the table together accept. */
  lemma {:induction false} AddChildrenOrEval(p: Pending, items: seq<Expr>, a: Assignment)
    ensures var q := AddChildren(Or, p, items);
            SomeHolds(q.kept, a) || SomeMatches(q.groups, a) <==>
            SomeHolds(p.kept, a) || SomeMatches(p.groups, a) || SomeHolds(items, a)
    decreases |items|
  {
    if |items| > 0 {
      var x := items[0];
      var p' := AddChild(Or, p, x);
      AddChildrenOrEval(p', items[1..], a);
      SomeHoldsConcat([x], items[1..], a);
      assert items == [x] + items[1..];
      if x.Literal? {
        AbsorbMatches(p.groups, x.key, a);
      } else {
        SomeHoldsConcat(p.kept, [x], a);
      }
    }
  }

  /** `flatten` preserves meaning: the flattened tree accepts exactly the assignments
      the original accepts. */
  lemma {:induction false} FlattenEval(e: Expr, a: Assignment)
    ensures Eval(Flatten(e), a) <==> Eval(e, a)
    decreases e
  {
    match e
    case Literal(_) =>
    case Node(op, cs) =>
      var fs := FlattenAll(cs);
      forall i | 0 <= i < |cs| ensures Eval(fs[i], a) <==> Eval(cs[i], a) {
        FlattenEval(cs[i], a);
      }
      var items := Inline(op, fs);
      var p := AddChildren(op, Pending([], []), items);
      assert Flatten(e).children == p.kept + Literals(p.groups);
      InlineEval(op, fs, a);
      if op == And {
        AddChildrenAnd(Pending([], []), items);
        assert Literals(p.groups) == [];
        assert p.kept + [] == items;
        assert AllHold(fs, a) <==> AllHold(cs, a);
      } else {
        AddChildrenOrEval(Pending([], []), items, a);
        SomeHoldsConcat(p.kept, Literals(p.groups), a);
        LiteralsHold(p.groups, a);
        assert SomeHolds(fs, a) <==> SomeHolds(cs, a) by {
          if SomeHolds(cs, a) {
            var i :| 0 <= i < |cs| && Eval(cs[i], a);
            assert Eval(fs[i], a);
          }
        }
      }
  }
}
