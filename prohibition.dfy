/**
  is_prohibited of backend/logic_engine.py. Two transformers turn trees into
  string keys: CheckProhibited builds the key of the prohibited tree, and
  CheckProhibitedUser builds the key of the answer, adding double-negation
  cancellation and self-duplication collapse. The answer is prohibited when
  the two keys are equal.
*/
module Prohibition {
  import opened Formulas

  /** Python's `<` on strings: lexicographic by code point, a proper prefix
      being smaller. */
  predicate LexLess(a: string, b: string)
  {
    if |a| == 0 then |b| > 0
    else if |b| == 0 then false
    else if a[0] != b[0] then a[0] < b[0]
    else LexLess(a[1..], b[1..])
  }

  /** No string is smaller than itself. */
  lemma {:induction false} LexLessIrreflexive(a: string)
    ensures !LexLess(a, a)
  {
    if |a| > 0 {
      LexLessIrreflexive(a[1..]);
    }
  }

  /** Two different strings are ordered one way and not the other. */
  lemma {:induction false} LexLessTotal(a: string, b: string)
    requires a != b
    ensures LexLess(a, b) != LexLess(b, a)
  {
    if |a| > 0 && |b| > 0 && a[0] == b[0] {
      assert a == [a[0]] + a[1..] && b == [b[0]] + b[1..];
      LexLessTotal(a[1..], b[1..]);
    }
  }

  /** The `_and` / `_or` key: the operator name over the two child keys,
      smaller (by LexLess) first, so operand order is forgotten. */
  function Sorted(op: string, k0: string, k1: string): string
  {
    if LexLess(k0, k1) then op + "(" + k0 + "," + k1 + ")"
    else op + "(" + k1 + "," + k0 + ")"
  }

  /** Sorting makes the key independent of the order of its operands. */
  lemma SortedCommutes(op: string, k0: string, k1: string)
    ensures Sorted(op, k0, k1) == Sorted(op, k1, k0)
  {
    if k0 != k1 {
      LexLessTotal(k0, k1);
    }
  }

  /** The key of the prohibited tree (CheckProhibited). */
  function KeyBase(t: Formula): string
  {
    match t
    case Letter(c) => [c]
    case NotLetter(c) => "NOT" + [c]
    case NotFormula(s) => "NOT" + KeyBase(s)
    case Brackets(s) => KeyBase(s)
    case And(a, b) => Sorted("AND", KeyBase(a), KeyBase(b))
    case Or(a, b) => Sorted("OR", KeyBase(a), KeyBase(b))
    case Implies(a, b) => "IMPLIES(" + KeyBase(a) + "," + KeyBase(b) + ")"
    case Equivalent(a, b) => "EQUIVALENT(" + KeyBase(a) + "," + KeyBase(b) + ")"
  }

  predicate StartsWithNot(k: string)
  {
    |k| >= 3 && k[..3] == "NOT"
  }

  /** The user-side negation: strip one leading "NOT" if there is one,
      otherwise add one. */
  function CancelOrNegate(k: string): string
  {
    if StartsWithNot(k) then k[3..] else "NOT" + k
  }

  /** The key of the answer tree (CheckProhibitedUser) against the prohibited
      key pk. */
  function KeyUser(t: Formula, pk: string): string
  {
    match t
    case Letter(c) => [c]
    case NotLetter(c) => CancelOrNegate([c])
    case NotFormula(s) => CancelOrNegate(KeyUser(s, pk))
    case Brackets(s) => KeyUser(s, pk)
    case And(a, b) =>
      var k0, k1 := KeyUser(a, pk), KeyUser(b, pk);
      if k0 == pk && k1 == pk then k0 else Sorted("AND", k0, k1)
    case Or(a, b) =>
      var k0, k1 := KeyUser(a, pk), KeyUser(b, pk);
      if k0 == pk && k1 == pk then k0 else Sorted("OR", k0, k1)
    case Implies(a, b) => "IMPLIES(" + KeyUser(a, pk) + "," + KeyUser(b, pk) + ")"
    case Equivalent(a, b) => "EQUIVALENT(" + KeyUser(a, pk) + "," + KeyUser(b, pk) + ")"
  }

  /** is_prohibited(user_tree, prohibited_tree). */
  predicate IsProhibited(user: Formula, prohibited: Formula)
  {
    KeyUser(user, KeyBase(prohibited)) == KeyBase(prohibited)
  }

  /** Swapping the operands of `^` or `<` does not change either key. */
  lemma CommutativeSwap(a: Formula, b: Formula, pk: string)
    ensures KeyBase(And(a, b)) == KeyBase(And(b, a))
    ensures KeyBase(Or(a, b)) == KeyBase(Or(b, a))
    ensures KeyUser(And(a, b), pk) == KeyUser(And(b, a), pk)
    ensures KeyUser(Or(a, b), pk) == KeyUser(Or(b, a), pk)
  {
    SortedCommutes("AND", KeyBase(a), KeyBase(b));
    SortedCommutes("OR", KeyBase(a), KeyBase(b));
    SortedCommutes("AND", KeyUser(a, pk), KeyUser(b, pk));
    SortedCommutes("OR", KeyUser(a, pk), KeyUser(b, pk));
  }

  /** So swapping operands never changes whether an answer is prohibited. */
  lemma SwapKeepsVerdict(a: Formula, b: Formula, prohibited: Formula)
    ensures IsProhibited(And(a, b), prohibited) == IsProhibited(And(b, a), prohibited)
    ensures IsProhibited(Or(a, b), prohibited) == IsProhibited(Or(b, a), prohibited)
  {
    CommutativeSwap(a, b, KeyBase(prohibited));
  }

  /** `->` and `<->` keep their operand order: `p -> q` and `q -> p` differ. */
  lemma ImpliesOrderKept()
    ensures KeyBase(Implies(Letter('p'), Letter('q'))) != KeyBase(Implies(Letter('q'), Letter('p')))
    ensures KeyBase(Equivalent(Letter('p'), Letter('q'))) != KeyBase(Equivalent(Letter('q'), Letter('p')))
  {
    assert KeyBase(Implies(Letter('p'), Letter('q')))[8] == 'p';
    assert KeyBase(Implies(Letter('q'), Letter('p')))[8] == 'q';
    assert KeyBase(Equivalent(Letter('p'), Letter('q')))[11] == 'p';
    assert KeyBase(Equivalent(Letter('q'), Letter('p')))[11] == 'q';
  }

  /** The user-side negation of a key that does not start with two "NOT"s
      does not start with two either. */
  lemma CancelKeepsSingleNot(k: string)
    requires !(|k| >= 6 && k[..6] == "NOTNOT")
    ensures !(|CancelOrNegate(k)| >= 6 && CancelOrNegate(k)[..6] == "NOTNOT")
  {
    if StartsWithNot(k) {
      if |k| >= 9 {
        assert k[..6] == k[..3] + k[3..6];
        assert k[3..][..6][..3] == k[3..6];
      }
    } else if |k| >= 3 {
      assert ("NOT" + k)[3..6] == k[..3];
    }
  }

  /** A user-side key never starts with two "NOT"s. */
  lemma {:induction false} UserKeyNoDoubleNot(t: Formula, pk: string)
    ensures !(|KeyUser(t, pk)| >= 6 && KeyUser(t, pk)[..6] == "NOTNOT")
  {
    match t
    case Letter(c) =>
    case NotLetter(c) =>
    case NotFormula(s) =>
      UserKeyNoDoubleNot(s, pk);
      CancelKeepsSingleNot(KeyUser(s, pk));
    case Brackets(s) => UserKeyNoDoubleNot(s, pk);
    case And(a, b) =>
      UserKeyNoDoubleNot(a, pk);
      assert Sorted("AND", KeyUser(a, pk), KeyUser(b, pk))[0] == 'A';
    case Or(a, b) =>
      UserKeyNoDoubleNot(a, pk);
      assert Sorted("OR", KeyUser(a, pk), KeyUser(b, pk))[0] == 'O';
    case Implies(a, b) => assert KeyUser(t, pk)[0] == 'I';
    case Equivalent(a, b) => assert KeyUser(t, pk)[0] == 'E';
  }

  /** On the user side a double negation cancels: `-(-(P))` has the key of P. */
  lemma DoubleNegationCancels(a: Formula, pk: string)
    ensures KeyUser(NotFormula(NotFormula(a)), pk) == KeyUser(a, pk)
  {
    var k := KeyUser(a, pk);
    UserKeyNoDoubleNot(a, pk);
    if StartsWithNot(k) {
      assert k == "NOT" + k[3..];
      if |k| >= 6 {
        assert k[..6] == k[..3] + k[3..][..3];
      }
    } else {
      assert ("NOT" + k)[3..] == k;
    }
  }

  /** `-(-p)` has the key of `p`; `-p` alone always gets "NOT" in front, since
      a one-letter key cannot start with "NOT". */
  lemma NegatedLetterCancels(c: char, pk: string)
    ensures KeyUser(NotLetter(c), pk) == "NOT" + [c]
    ensures KeyUser(NotFormula(NotLetter(c)), pk) == [c]
  {
    assert ("NOT" + [c])[..3] == "NOT";
    assert ("NOT" + [c])[3..] == [c];
  }

  /** Hence `-(-P)` is prohibited exactly when P is. */
  lemma DoubleNegationKeepsVerdict(a: Formula, prohibited: Formula)
    ensures IsProhibited(NotFormula(NotFormula(a)), prohibited) == IsProhibited(a, prohibited)
  {
    DoubleNegationCancels(a, KeyBase(prohibited));
  }

  /** Repeating a prohibited answer with `^` or `<` between is still prohibited. */
  lemma SelfDuplicationCollapses(a: Formula, b: Formula, prohibited: Formula)
    requires IsProhibited(a, prohibited) && IsProhibited(b, prohibited)
    ensures IsProhibited(And(a, b), prohibited) && IsProhibited(Or(a, b), prohibited)
  {
  }

  /** The answer `p ^ p` against the prohibited formula `p` is prohibited. */
  lemma PAndPAgainstP()
    ensures IsProhibited(And(Letter('p'), Letter('p')), Letter('p'))
  {
  }

  /** The answer `(p^q)^(q^p)` against the prohibited `p^q` is prohibited. */
  lemma RepeatedConjunction()
    ensures IsProhibited(And(Brackets(And(Letter('p'), Letter('q'))), Brackets(And(Letter('q'), Letter('p')))),
                         And(Letter('p'), Letter('q')))
  {
    var pq := And(Letter('p'), Letter('q'));
    CommutativeSwap(Letter('q'), Letter('p'), KeyBase(pq));
    assert LexLess("p", "q");
    assert KeyUser(pq, KeyBase(pq)) == KeyBase(pq);
  }

  /** No "NOT" is cancelled inside t: every negated sub-formula has a key that
      does not already start with "NOT". */
  predicate NoStackedNot(t: Formula)
  {
    match t
    case Letter(c) => true
    case NotLetter(c) => true
    case NotFormula(s) => !StartsWithNot(KeyBase(s)) && NoStackedNot(s)
    case Brackets(s) => NoStackedNot(s)
    case And(a, b) => NoStackedNot(a) && NoStackedNot(b)
    case Or(a, b) => NoStackedNot(a) && NoStackedNot(b)
    case Implies(a, b) => NoStackedNot(a) && NoStackedNot(b)
    case Equivalent(a, b) => NoStackedNot(a) && NoStackedNot(b)
  }

  /** Without stacked negations, and against a prohibited key at least as long,
      the user-side key is the prohibited-side key. */
  lemma {:induction false} UserKeyAgrees(t: Formula, pk: string)
    requires NoStackedNot(t) && |KeyBase(t)| <= |pk|
    ensures KeyUser(t, pk) == KeyBase(t)
  {
    match t
    case Letter(c) =>
    case NotLetter(c) => NegatedLetterCancels(c, pk);
    case NotFormula(s) => UserKeyAgrees(s, pk);
    case Brackets(s) => UserKeyAgrees(s, pk);
    case And(a, b) => UserKeyAgrees(a, pk); UserKeyAgrees(b, pk);
    case Or(a, b) => UserKeyAgrees(a, pk); UserKeyAgrees(b, pk);
    case Implies(a, b) => UserKeyAgrees(a, pk); UserKeyAgrees(b, pk);
    case Equivalent(a, b) => UserKeyAgrees(a, pk); UserKeyAgrees(b, pk);
  }

  /** Giving back the prohibited formula itself is prohibited, as long as it
      has no stacked negation. */
  lemma IdenticalIsProhibited(t: Formula)
    requires NoStackedNot(t)
    ensures IsProhibited(t, t)
  {
    UserKeyAgrees(t, KeyBase(t));
  }

  /** The prohibited key never strips negations, so the prohibited formula
      `-(-x)` does not even match itself. */
  lemma StackedNotMissesItself()
    ensures !IsProhibited(NotFormula(NotLetter('x')), NotFormula(NotLetter('x')))
  {
    NegatedLetterCancels('x', KeyBase(NotFormula(NotLetter('x'))));
    assert KeyBase(NotFormula(NotLetter('x'))) == "NOTNOTx";
  }
}
