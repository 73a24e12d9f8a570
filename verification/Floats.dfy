/** Floating-point results as the expression that computes them. Two equal
    expressions perform the same operations on the same operands in the same
    order, so they round alike whatever the rounding is; `Eval` gives the value
    over the reals. */
module Floats {

  datatype Flt =
    | Const(value: real)
    | OfInt(i: int)
    | Mul(x: Flt, y: Flt)
    | Fma(acc: Flt, x: Flt, y: Flt)

  const ZERO: Flt := Const(0.0)

  function Eval(f: Flt): real {
    match f
    case Const(v) => v
    case OfInt(i) => i as real
    case Mul(x, y) => Eval(x) * Eval(y)
    case Fma(acc, x, y) => Eval(acc) + Eval(x) * Eval(y)
  }

  /** One K block's contribution to one output element. */
  datatype Term = Term(component: int, weightScale: real, activationScale: real)

  /** `acc = fma(component, weightScale * activationScale, acc)`. */
  function Reduce(acc: Flt, t: Term): Flt {
    Fma(acc, OfInt(t.component), Mul(Const(t.weightScale), Const(t.activationScale)))
  }

  /** The terms reduced one by one, in order. */
  function Fold(acc: Flt, terms: seq<Term>): Flt {
    if terms == [] then acc else Reduce(Fold(acc, terms[..|terms| - 1]), terms[|terms| - 1])
  }

  function Value(t: Term): real {
    t.component as real * t.weightScale * t.activationScale
  }

  function Sum(terms: seq<Term>): real {
    if terms == [] then 0.0 else Sum(terms[..|terms| - 1]) + Value(terms[|terms| - 1])
  }

  lemma WholeTerms(terms: seq<Term>)
    ensures terms[0..|terms|] == terms[..|terms|] == terms
  {}

  lemma PartAt(terms: seq<Term>, from: nat, to': nat, i: nat)
    requires from <= to' <= |terms| && i < to' - from
    ensures terms[from..to'][i] == terms[from + i]
  {}

  lemma {:induction false} FoldConcat(acc: Flt, a: seq<Term>, b: seq<Term>)
    ensures Fold(acc, a + b) == Fold(Fold(acc, a), b)
    decreases |b|
  {
    if b == [] {
      assert a + b == a;
    } else {
      FoldConcat(acc, a, b[..|b| - 1]);
      assert (a + b)[..|a + b| - 1] == a + b[..|b| - 1];
    }
  }

  lemma FoldNext(acc: Flt, terms: seq<Term>, n: nat)
    requires n < |terms|
    ensures Fold(acc, terms[..n + 1]) == Reduce(Fold(acc, terms[..n]), terms[n])
  {
    assert terms[..n + 1][..n] == terms[..n];
  }

  /** Over the reals a fold is the sum of its terms. */
  lemma {:induction false} EvalFold(acc: Flt, terms: seq<Term>)
    ensures Eval(Fold(acc, terms)) == Eval(acc) + Sum(terms)
  {
    if terms != [] {
      var t := terms[|terms| - 1];
      EvalFold(acc, terms[..|terms| - 1]);
      EvalReduce(Fold(acc, terms[..|terms| - 1]), t);
    }
  }

  lemma EvalReduce(acc: Flt, t: Term)
    ensures Eval(Reduce(acc, t)) == Eval(acc) + Value(t)
  {
    assert Eval(Mul(Const(t.weightScale), Const(t.activationScale))) == t.weightScale * t.activationScale;
    Associate(t.component as real, t.weightScale, t.activationScale);
  }

  lemma Associate(x: real, y: real, z: real)
    ensures x * (y * z) == x * y * z
  {}
}
