/**
  The formula trees built by the Lark parsers of backend/logic_engine.py.
  There is one constructor per alias of the grammars, so `-p` (NotLetter),
  `-(p)` (NotFormula, whose production consumes the parentheses itself) and
  `(p)` (Brackets) stay distinct.
*/
module Formulas {

  datatype Formula =
    | Letter(name: char)
    | NotLetter(name: char)
    | NotFormula(sub: Formula)
    | Brackets(sub: Formula)
    | And(left: Formula, right: Formula)
    | Or(left: Formula, right: Formula)
    | Implies(left: Formula, right: Formula)
    | Equivalent(left: Formula, right: Formula)

  /** A valuation maps letter names to truth values. */
  type Valuation = map<char, bool>

  /** The letters occurring in a tree (what the GetLetters visitor collects). */
  function Letters(t: Formula): set<char>
  {
    match t
    case Letter(c) => {c}
    case NotLetter(c) => {c}
    case NotFormula(s) => Letters(s)
    case Brackets(s) => Letters(s)
    case And(a, b) => Letters(a) + Letters(b)
    case Or(a, b) => Letters(a) + Letters(b)
    case Implies(a, b) => Letters(a) + Letters(b)
    case Equivalent(a, b) => Letters(a) + Letters(b)
  }

  /** A tree always mentions at least one letter. */
  lemma {:induction false} LettersNonEmpty(t: Formula)
    ensures Letters(t) != {}
  {
    match t
    case Letter(c) =>
    case NotLetter(c) =>
    case NotFormula(s) => LettersNonEmpty(s);
    case Brackets(s) => LettersNonEmpty(s);
    case And(a, b) => LettersNonEmpty(a);
    case Or(a, b) => LettersNonEmpty(a);
    case Implies(a, b) => LettersNonEmpty(a);
    case Equivalent(a, b) => LettersNonEmpty(a);
  }

  /** evaluate_tree: the Evaluator transformer, bottom up. A letter missing
      from the valuation is a KeyError in the source, so the valuation must
      cover every letter of the tree. */
  function Eval(t: Formula, v: Valuation): bool
    requires Letters(t) <= v.Keys
  {
    match t
    case Letter(c) => v[c]
    case NotLetter(c) => !v[c]
    case NotFormula(s) => !Eval(s, v)
    case Brackets(s) => Eval(s, v)
    case And(a, b) => Eval(a, v) && Eval(b, v)
    case Or(a, b) => Eval(a, v) || Eval(b, v)
    case Implies(a, b) => !Eval(a, v) || Eval(b, v)
    case Equivalent(a, b) => (!Eval(a, v) || Eval(b, v)) && (!Eval(b, v) || Eval(a, v))
  }

  /** Two valuations that agree on the letters of a tree give it the same value:
      the value of a tree depends on nothing else. */
  lemma {:induction false} EvalAgree(t: Formula, v: Valuation, w: Valuation)
    requires Letters(t) <= v.Keys && Letters(t) <= w.Keys
    requires forall c :: c in Letters(t) ==> v[c] == w[c]
    ensures Eval(t, v) == Eval(t, w)
  {
    match t
    case Letter(c) =>
    case NotLetter(c) =>
    case NotFormula(s) => EvalAgree(s, v, w);
    case Brackets(s) => EvalAgree(s, v, w);
    case And(a, b) => EvalAgree(a, v, w); EvalAgree(b, v, w);
    case Or(a, b) => EvalAgree(a, v, w); EvalAgree(b, v, w);
    case Implies(a, b) => EvalAgree(a, v, w); EvalAgree(b, v, w);
    case Equivalent(a, b) => EvalAgree(a, v, w); EvalAgree(b, v, w);
  }

  /** Removes every Brackets node: the tree the transformers effectively see. */
  function StripBrackets(t: Formula): (r: Formula)
    ensures Letters(r) == Letters(t)
  {
    match t
    case Letter(c) => t
    case NotLetter(c) => t
    case NotFormula(s) => NotFormula(StripBrackets(s))
    case Brackets(s) => StripBrackets(s)
    case And(a, b) => And(StripBrackets(a), StripBrackets(b))
    case Or(a, b) => Or(StripBrackets(a), StripBrackets(b))
    case Implies(a, b) => Implies(StripBrackets(a), StripBrackets(b))
    case Equivalent(a, b) => Equivalent(StripBrackets(a), StripBrackets(b))
  }

  /** Brackets are transparent to the evaluator. */
  lemma {:induction false} EvalIgnoresBrackets(t: Formula, v: Valuation)
    requires Letters(t) <= v.Keys
    ensures Eval(StripBrackets(t), v) == Eval(t, v)
  {
    match t
    case Letter(c) =>
    case NotLetter(c) =>
    case NotFormula(s) => EvalIgnoresBrackets(s, v);
    case Brackets(s) => EvalIgnoresBrackets(s, v);
    case And(a, b) => EvalIgnoresBrackets(a, v); EvalIgnoresBrackets(b, v);
    case Or(a, b) => EvalIgnoresBrackets(a, v); EvalIgnoresBrackets(b, v);
    case Implies(a, b) => EvalIgnoresBrackets(a, v); EvalIgnoresBrackets(b, v);
    case Equivalent(a, b) => EvalIgnoresBrackets(a, v); EvalIgnoresBrackets(b, v);
  }

  /** The connectives reduce to negation, conjunction and disjunction:
      `->` is `not a or b` and `<->` is both implications. */
  lemma ConnectiveLaws(a: Formula, b: Formula, v: Valuation)
    requires Letters(a) <= v.Keys && Letters(b) <= v.Keys
    ensures Eval(Implies(a, b), v) == Eval(Or(NotFormula(a), b), v)
    ensures Eval(Equivalent(a, b), v) == Eval(And(Implies(a, b), Implies(b, a)), v)
    ensures Eval(Equivalent(a, b), v) == (Eval(a, v) == Eval(b, v))
  {
  }

  /** `-p` (not_letter) and `-(p)` (not_formula over the letter) both negate,
      and so does `-((p))`, not_formula over brackets. */
  lemma NegationForms(c: char, v: Valuation)
    requires c in v
    ensures Letters(NotFormula(Letter(c))) == Letters(NotLetter(c)) == {c}
    ensures Eval(NotLetter(c), v) == Eval(NotFormula(Letter(c)), v) == !v[c]
    ensures Letters(NotFormula(Brackets(Letter(c)))) == {c}
    ensures Eval(NotFormula(Brackets(Letter(c))), v) == !v[c]
  {
    assert Letters(Brackets(Letter(c))) == {c};
    assert Eval(Brackets(Letter(c)), v) == v[c];
  }
}
