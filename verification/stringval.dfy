/** A string value built from literal text and interpolated environment variables. */
module Stringval {

  /** The environment interpolants are looked up in. */
  type Env = map<string, string>

  /** One piece of a string value: literal text, or the name of a variable together
      with the environment it is looked up in. */
  datatype Element = Literal(s: string) | Interpolant(i: string, env: Env)

  /** The text an element contributes: a literal's own text, or the variable's value,
      empty when the environment lacks it. */
  function Interpolate(e: Element): (r: string)
    ensures e.Literal? ==> r == e.s
    ensures e.Interpolant? && e.i in e.env ==> r == e.env[e.i]
    ensures e.Interpolant? && e.i !in e.env ==> r == ""
  {
    match e
    case Literal(s) => s
    case Interpolant(i, env) => if i in env then env[i] else ""
  }

  /** The elements in order, and the environment new interpolants capture. */
  datatype StringVal = StringVal(elements: seq<Element>, env: Env)

  /** A value with no elements. */
  function Empty(env: Env): StringVal {
    StringVal([], env)
  }

  /** A new value has no text, and after one literal its text is that literal. */
  lemma EmptyIsBlank(env: Env, s: string)
    ensures Str(Empty(env)) == ""
    ensures Str(AddLiteral(Empty(env), s)) == s
  {
    StrAddLiteral(Empty(env), s);
  }

  /** Appends literal text. */
  function AddLiteral(v: StringVal, s: string): (r: StringVal)
    ensures |r.elements| == |v.elements| + 1
    ensures r.elements[..|v.elements|] == v.elements
    ensures r.elements[|v.elements|] == Literal(s)
    ensures r.env == v.env
  {
    v.(elements := v.elements + [Literal(s)])
  }

  /** Appends a variable, to be looked up in the value's environment. */
  function AddInterpolant(v: StringVal, i: string): (r: StringVal)
    ensures |r.elements| == |v.elements| + 1
    ensures r.elements[..|v.elements|] == v.elements
    ensures r.elements[|v.elements|] == Interpolant(i, v.env)
    ensures r.env == v.env
  {
    v.(elements := v.elements + [Interpolant(i, v.env)])
  }

  /** Whether the value needs interpolation. The value must have an element. It
      needs none exactly when it is one literal holding its whole text. */
  function Interpolation(v: StringVal): (r: bool)
    requires |v.elements| > 0
    ensures !r <==> v.elements == [Literal(Str(v))]
  {
    SingleStr(v);
    if |v.elements| > 1 then true
    else v.elements[0].Interpolant?
  }

  /** The text of a value of one element is that element's text. */
  lemma SingleStr(v: StringVal)
    ensures |v.elements| == 1 ==> Str(v) == Interpolate(v.elements[0])
  {
    if |v.elements| == 1 {
      var e := v.elements[0];
      assert v.elements[1..] == [];
      assert Str(v) == Interpolate(e) + Join(v.elements[1..]);
      assert Interpolate(e) + "" == Interpolate(e);
    }
  }

  /** The texts of the elements, joined in order. */
  function Join(es: seq<Element>): string {
    if |es| == 0 then "" else Interpolate(es[0]) + Join(es[1..])
  }

  /** The text of the value: each element's text, in order. */
  function Str(v: StringVal): (r: string)
    ensures |r| == TextLength(v.elements)
  {
    JoinLength(v.elements);
    Join(v.elements)
  }

  /** The total length of the elements' texts. */
  function TextLength(es: seq<Element>): nat {
    if |es| == 0 then 0 else |Interpolate(es[0])| + TextLength(es[1..])
  }

  /** The joined text is as long as the elements' texts together. */
  lemma {:induction false} JoinLength(es: seq<Element>)
    ensures |Join(es)| == TextLength(es)
    decreases |es|
  {
    if |es| > 0 {
      JoinLength(es[1..]);
    }
  }

  /** Joining is compatible with concatenation of element sequences. */
  lemma {:induction false} JoinConcat(x: seq<Element>, y: seq<Element>)
    ensures Join(x + y) == Join(x) + Join(y)
    decreases |x|
  {
    if |x| > 0 {
      assert (x + y)[1..] == x[1..] + y;
      JoinConcat(x[1..], y);
    } else {
      assert x + y == y;
    }
  }

  /** The text of a value is the text of each element, one after the other. */
  lemma {:induction false} StrIsInOrder(v: StringVal)
    ensures |v.elements| == 0 ==> Str(v) == ""
    ensures forall k | 0 <= k < |v.elements| ::
      Str(v) == Join(v.elements[..k]) + Interpolate(v.elements[k]) + Join(v.elements[k + 1..])
  {
    forall k | 0 <= k < |v.elements|
      ensures Str(v) == Join(v.elements[..k]) + Interpolate(v.elements[k]) + Join(v.elements[k + 1..])
    {
      var es := v.elements;
      assert es == es[..k] + ([es[k]] + es[k + 1..]);
      JoinConcat(es[..k], [es[k]] + es[k + 1..]);
      assert ([es[k]] + es[k + 1..])[1..] == es[k + 1..];
    }
  }

  /** Appending literal text appends exactly that text. */
  lemma StrAddLiteral(v: StringVal, s: string)
    ensures Str(AddLiteral(v, s)) == Str(v) + s
  {
    JoinConcat(v.elements, [Literal(s)]);
    assert [Literal(s)][1..] == [];
  }

  /** Appending a variable appends its value in the environment, or nothing when the
      environment lacks it. */
  lemma StrAddInterpolant(v: StringVal, i: string)
    ensures i in v.env ==> Str(AddInterpolant(v, i)) == Str(v) + v.env[i]
    ensures i !in v.env ==> Str(AddInterpolant(v, i)) == Str(v)
  {
    JoinConcat(v.elements, [Interpolant(i, v.env)]);
    assert [Interpolant(i, v.env)][1..] == [];
  }

  /** A value needs no interpolation exactly when it is one piece of literal text,
      and its text is then that literal. */
  lemma InterpolationMeaning(v: StringVal)
    requires |v.elements| > 0
    ensures !Interpolation(v) <==> v.elements == [Literal(Str(v))]
    ensures |v.elements| > 1 ==> Interpolation(v)
    ensures |v.elements| == 1 ==> (Interpolation(v) <==> v.elements[0].Interpolant?)
  {
    if |v.elements| == 1 {
      var e := v.elements[0];
      assert v.elements == [e];
      assert v.elements[1..] == [];
      assert Join(v.elements[1..]) == "";
      assert Str(v) == Interpolate(e) + Join(v.elements[1..]);
      assert Interpolate(e) + "" == Interpolate(e);
    }
  }
}
