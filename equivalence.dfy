/**
  check_equivalent of backend/logic_engine.py. The GetLetters visitor keeps its
  set in a class attribute, so both visitors fill one shared set: the letter
  precheck compares that set with itself and never fires, and the exhaustive
  test runs over the union of the letters of both trees.
*/
module Equivalence {
  import opened Formulas

  /** Semantic equivalence over the union of the letters of both trees. */
  ghost predicate Equiv(t1: Formula, t2: Formula)
  {
    forall v: Valuation :: v.Keys == Letters(t1) + Letters(t2) ==> Eval(t1, v) == Eval(t2, v)
  }

  /** The letters of a sequence are pairwise distinct. */
  ghost predicate Distinct(letters: seq<char>)
  {
    forall j, k :: 0 <= j < k < |letters| ==> letters[j] != letters[k]
  }

  /** The keys of v are exactly the letters of the sequence. */
  ghost predicate KeysAre(v: Valuation, letters: seq<char>)
  {
    forall c :: c in v <==> c in letters
  }

  /** w has the keys of v and agrees with v on every letter after position i. */
  ghost predicate AgreeAbove(w: Valuation, v: Valuation, letters: seq<char>, i: int)
  {
    && w.Keys == v.Keys
    && forall j :: 0 <= j < |letters| && i < j && letters[j] in v && letters[j] in w ==> w[letters[j]] == v[letters[j]]
  }

  /** test_valuation: compares both trees under v and under v with letter i
      negated, then recurses on the letters before i from both valuations. */
  function TestValuation(t1: Formula, t2: Formula, v: Valuation, letters: seq<char>, i: int): bool
    requires 0 <= i < |letters|
    requires Letters(t1) + Letters(t2) <= v.Keys
    requires forall j :: 0 <= j < |letters| ==> letters[j] in v
    decreases i
  {
    if Eval(t1, v) != Eval(t2, v) then false
    else
      var copy := v[letters[i] := !v[letters[i]]];
      if Eval(t1, copy) != Eval(t2, copy) then false
      else if i == 0 then true
      else TestValuation(t1, t2, v, letters, i - 1) && TestValuation(t1, t2, copy, letters, i - 1)
  }

  /** Negating letter i keeps agreement above i. */
  lemma FlipAgrees(v: Valuation, letters: seq<char>, i: int)
    requires 0 <= i < |letters| && Distinct(letters) && letters[i] in v
    ensures AgreeAbove(v, v, letters, i)
    ensures AgreeAbove(v[letters[i] := !v[letters[i]]], v, letters, i)
  {
  }

  /** A valuation agreeing with v above i agrees above i - 1 with v or with v
      negated at letter i, whichever has its value for letter i. */
  lemma SplitAgree(w: Valuation, v: Valuation, letters: seq<char>, i: int)
    requires 0 <= i < |letters| && letters[i] in v
    requires AgreeAbove(w, v, letters, i)
    ensures AgreeAbove(w, if w[letters[i]] == v[letters[i]] then v else v[letters[i] := !v[letters[i]]], letters, i - 1)
  {
  }

  /** Agreement above i - 1 implies agreement above i. */
  lemma WidenAgree(w: Valuation, v: Valuation, letters: seq<char>, i: int)
    requires AgreeAbove(w, v, letters, i - 1)
    ensures AgreeAbove(w, v, letters, i)
  {
  }

  /** Agreement above -1 is agreement on every letter of both trees. */
  lemma AgreeAllSame(t1: Formula, t2: Formula, w: Valuation, v: Valuation, letters: seq<char>)
    requires KeysAre(v, letters) && Letters(t1) + Letters(t2) <= v.Keys
    requires AgreeAbove(w, v, letters, -1)
    ensures Eval(t1, w) == Eval(t1, v) && Eval(t2, w) == Eval(t2, v)
  {
    forall c | c in Letters(t1) + Letters(t2) ensures w[c] == v[c] {
      assert c in v;
      var j :| 0 <= j < |letters| && letters[j] == c;
    }
    EvalAgree(t1, w, v);
    EvalAgree(t2, w, v);
  }

  /** The trees agree under every valuation that keeps the letters after
      position i as v has them. */
  ghost predicate AgreeFrom(t1: Formula, t2: Formula, v: Valuation, letters: seq<char>, i: int)
  {
    forall w {:trigger AgreeAbove(w, v, letters, i)} ::
      AgreeAbove(w, v, letters, i) && Letters(t1) + Letters(t2) <= w.Keys ==> Eval(t1, w) == Eval(t2, w)
  }

  /** Agreement above i follows from agreement above i - 1 from v and from v
      negated at letter i. */
  lemma AgreeStep(t1: Formula, t2: Formula, v: Valuation, letters: seq<char>, i: int)
    requires 0 < i < |letters| && letters[i] in v
    requires AgreeFrom(t1, t2, v, letters, i - 1)
    requires AgreeFrom(t1, t2, v[letters[i] := !v[letters[i]]], letters, i - 1)
    ensures AgreeFrom(t1, t2, v, letters, i)
  {
    forall w | AgreeAbove(w, v, letters, i) && Letters(t1) + Letters(t2) <= w.Keys
      ensures Eval(t1, w) == Eval(t2, w)
    {
      SplitAgree(w, v, letters, i);
    }
  }

  /** At letter 0 the two valuations tested are the only ones covered. */
  lemma AgreeBase(t1: Formula, t2: Formula, v: Valuation, letters: seq<char>)
    requires 0 < |letters| && KeysAre(v, letters)
    requires Letters(t1) + Letters(t2) <= v.Keys
    requires Eval(t1, v) == Eval(t2, v)
    requires Eval(t1, v[letters[0] := !v[letters[0]]]) == Eval(t2, v[letters[0] := !v[letters[0]]])
    ensures AgreeFrom(t1, t2, v, letters, 0)
  {
    var l := letters[0];
    var copy := v[l := !v[l]];
    assert KeysAre(copy, letters) by {
      assert copy.Keys == v.Keys;
    }
    forall w | AgreeAbove(w, v, letters, 0) && Letters(t1) + Letters(t2) <= w.Keys
      ensures Eval(t1, w) == Eval(t2, w)
    {
      SplitAgree(w, v, letters, 0);
      if w[l] == v[l] {
        AgreeAllSame(t1, t2, w, v, letters);
      } else {
        AgreeAllSame(t1, t2, w, copy, letters);
      }
    }
  }

  /** If test_valuation succeeds, the trees agree on every valuation it covers. */
  lemma {:induction false} TestValuationSound(t1: Formula, t2: Formula, v: Valuation, letters: seq<char>, i: int)
    requires 0 <= i < |letters|
    requires Distinct(letters) && KeysAre(v, letters)
    requires Letters(t1) + Letters(t2) <= v.Keys
    requires TestValuation(t1, t2, v, letters, i)
    ensures AgreeFrom(t1, t2, v, letters, i)
    decreases i
  {
    var l := letters[i];
    var copy := v[l := !v[l]];
    if i == 0 {
      AgreeBase(t1, t2, v, letters);
    } else {
      assert KeysAre(copy, letters) by {
        assert copy.Keys == v.Keys;
      }
      TestValuationSound(t1, t2, v, letters, i - 1);
      TestValuationSound(t1, t2, copy, letters, i - 1);
      AgreeStep(t1, t2, v, letters, i);
    }
  }

  /** Agreement above i covers v itself and v negated at letter i. */
  lemma AgreeCoversTested(t1: Formula, t2: Formula, v: Valuation, letters: seq<char>, i: int)
    requires 0 <= i < |letters| && Distinct(letters) && letters[i] in v
    requires Letters(t1) + Letters(t2) <= v.Keys
    requires AgreeFrom(t1, t2, v, letters, i)
    ensures Eval(t1, v) == Eval(t2, v)
    ensures Eval(t1, v[letters[i] := !v[letters[i]]]) == Eval(t2, v[letters[i] := !v[letters[i]]])
  {
    FlipAgrees(v, letters, i);
  }

  /** Agreement above i implies agreement above i - 1 from any valuation that
      itself agrees with v above i. */
  lemma AgreeNarrow(t1: Formula, t2: Formula, v: Valuation, u: Valuation, letters: seq<char>, i: int)
    requires AgreeAbove(u, v, letters, i)
    requires AgreeFrom(t1, t2, v, letters, i)
    ensures AgreeFrom(t1, t2, u, letters, i - 1)
  {
    forall w | AgreeAbove(w, u, letters, i - 1) && Letters(t1) + Letters(t2) <= w.Keys
      ensures Eval(t1, w) == Eval(t2, w)
    {
      WidenAgree(w, u, letters, i);
      assert AgreeAbove(w, v, letters, i);
    }
  }

  /** Negating a listed letter keeps the keys. */
  lemma FlipKeys(v: Valuation, letters: seq<char>, i: int)
    requires 0 <= i < |letters| && KeysAre(v, letters)
    ensures KeysAre(v[letters[i] := !v[letters[i]]], letters)
  {
    assert v[letters[i] := !v[letters[i]]].Keys == v.Keys;
  }

  /** Agreement above i gives agreement above i - 1 from both tested valuations. */
  lemma NarrowBoth(t1: Formula, t2: Formula, v: Valuation, letters: seq<char>, i: int)
    requires 0 <= i < |letters| && Distinct(letters) && letters[i] in v
    requires AgreeFrom(t1, t2, v, letters, i)
    ensures AgreeFrom(t1, t2, v, letters, i - 1)
    ensures AgreeFrom(t1, t2, v[letters[i] := !v[letters[i]]], letters, i - 1)
  {
    FlipAgrees(v, letters, i);
    AgreeNarrow(t1, t2, v, v, letters, i);
    AgreeNarrow(t1, t2, v, v[letters[i] := !v[letters[i]]], letters, i);
  }

  /** If the trees agree on every valuation test_valuation covers, it succeeds. */
  lemma {:induction false} TestValuationComplete(t1: Formula, t2: Formula, v: Valuation, letters: seq<char>, i: int)
    requires 0 <= i < |letters|
    requires Distinct(letters) && KeysAre(v, letters)
    requires Letters(t1) + Letters(t2) <= v.Keys
    requires AgreeFrom(t1, t2, v, letters, i)
    ensures TestValuation(t1, t2, v, letters, i)
    decreases i
  {
    var copy := v[letters[i] := !v[letters[i]]];
    assert Eval(t1, v) == Eval(t2, v) && Eval(t1, copy) == Eval(t2, copy) by {
      AgreeCoversTested(t1, t2, v, letters, i);
    }
    if i > 0 {
      assert TestValuation(t1, t2, v, letters, i - 1) && TestValuation(t1, t2, copy, letters, i - 1) by {
        NarrowBoth(t1, t2, v, letters, i);
        FlipKeys(v, letters, i);
        TestValuationComplete(t1, t2, v, letters, i - 1);
        TestValuationComplete(t1, t2, copy, letters, i - 1);
      }
    }
  }

  /** Above the last letter nothing is fixed but the keys, so agreement there is
      equivalence. */
  lemma AgreeFromTop(t1: Formula, t2: Formula, v: Valuation, letters: seq<char>)
    requires 0 < |letters| && v.Keys == Letters(t1) + Letters(t2)
    ensures AgreeFrom(t1, t2, v, letters, |letters| - 1) <==> Equiv(t1, t2)
  {
    if AgreeFrom(t1, t2, v, letters, |letters| - 1) {
      forall w: Valuation | w.Keys == Letters(t1) + Letters(t2)
        ensures Eval(t1, w) == Eval(t2, w)
      {
        assert AgreeAbove(w, v, letters, |letters| - 1);
      }
    }
    if Equiv(t1, t2) {
      forall w | AgreeAbove(w, v, letters, |letters| - 1) && Letters(t1) + Letters(t2) <= w.Keys
        ensures Eval(t1, w) == Eval(t2, w)
      {
        assert w.Keys == Letters(t1) + Letters(t2);
      }
    }
  }

  /** The GetLetters visitor; one instance stands for the shared class attribute. */
  class LetterCollector {
    var letters: set<char>

    constructor ()
      ensures letters == {}
    {
      letters := {};
    }

    /** Visits every node and adds the letter of each letter / not_letter node. */
    method Visit(t: Formula)
      modifies this
      ensures letters == old(letters) + Letters(t)
    {
      match t
      case Letter(c) => letters := letters + {c};
      case NotLetter(c) => letters := letters + {c};
      case NotFormula(s) => Visit(s);
      case Brackets(s) => Visit(s);
      case And(a, b) => Visit(a); Visit(b);
      case Or(a, b) => Visit(a); Visit(b);
      case Implies(a, b) => Visit(a); Visit(b);
      case Equivalent(a, b) => Visit(a); Visit(b);
    }
  }

  /** The setup loop of check_equivalent: every letter of the set is listed once
      and set to false. */
  method FalseValuation(s: set<char>) returns (valuation: Valuation, letters: seq<char>)
    ensures Distinct(letters) && KeysAre(valuation, letters)
    ensures forall c :: c in s <==> c in letters
    ensures valuation.Keys == s
  {
    valuation := map[];
    letters := [];
    var rest := s;
    while rest != {}
      invariant rest <= s
      invariant Distinct(letters) && KeysAre(valuation, letters)
      invariant forall c :: c in s <==> c in rest || c in letters
      invariant forall c :: c in rest ==> c !in letters
      decreases rest
    {
      var l :| l in rest;
      valuation := valuation[l := false];
      letters := letters + [l];
      rest := rest - {l};
    }
  }

  /** check_equivalent: true exactly when the trees agree under every valuation
      of the union of their letters. */
  method CheckEquivalent(t1: Formula, t2: Formula) returns (r: bool)
    ensures r <==> Equiv(t1, t2)
  {
    var shared := new LetterCollector();
    var f1Visitor, f2Visitor := shared, shared;
    f1Visitor.Visit(t1);
    f2Visitor.Visit(t2);
    // The "different letters" test compares one set with itself.
    var differ := f1Visitor.letters != f2Visitor.letters;
    assert !differ;

    var valuation, letters := FalseValuation(f1Visitor.letters);
    assert valuation.Keys == Letters(t1) + Letters(t2);
    LettersNonEmpty(t1);
    var some :| some in Letters(t1);
    assert some in letters;
    r := TestValuation(t1, t2, valuation, letters, |letters| - 1);
    AgreeFromTop(t1, t2, valuation, letters);
    if r {
      TestValuationSound(t1, t2, valuation, letters, |letters| - 1);
    } else if Equiv(t1, t2) {
      TestValuationComplete(t1, t2, valuation, letters, |letters| - 1);
    }
  }

  /** Every tree is equivalent to itself. */
  lemma EquivReflexive(t: Formula)
    ensures Equiv(t, t)
  {
  }

  /** Equivalence does not depend on the order of the two trees. */
  lemma EquivSymmetric(t1: Formula, t2: Formula)
    ensures Equiv(t1, t2) <==> Equiv(t2, t1)
  {
    assert Letters(t1) + Letters(t2) == Letters(t2) + Letters(t1);
  }

  /** Restricting or extending a valuation: equivalence may be checked on any
      valuation that covers the letters of both trees. */
  lemma {:induction false} EquivOnCover(t1: Formula, t2: Formula, v: Valuation)
    requires Equiv(t1, t2)
    requires Letters(t1) + Letters(t2) <= v.Keys
    ensures Eval(t1, v) == Eval(t2, v)
  {
    var u := map c | c in Letters(t1) + Letters(t2) :: v[c];
    assert u.Keys == Letters(t1) + Letters(t2);
    EvalAgree(t1, u, v);
    EvalAgree(t2, u, v);
  }

  /** Equivalence is transitive, so together with the two lemmas above it is an
      equivalence relation on trees. */
  lemma {:induction false} EquivTransitive(t1: Formula, t2: Formula, t3: Formula)
    requires Equiv(t1, t2) && Equiv(t2, t3)
    ensures Equiv(t1, t3)
  {
    forall v: Valuation | v.Keys == Letters(t1) + Letters(t3)
      ensures Eval(t1, v) == Eval(t3, v)
    {
      var all := Letters(t1) + Letters(t2) + Letters(t3);
      var w := map c | c in all :: if c in v then v[c] else false;
      EquivOnCover(t1, t2, w);
      EquivOnCover(t2, t3, w);
      EvalAgree(t1, v, w);
      EvalAgree(t3, v, w);
    }
  }

  /** Trees over different letters can still be equivalent: `p` and
      `p ^ (q < -q)` are, so no letter-set test could be kept sound. */
  lemma DifferentLettersEquivalent()
    ensures Letters(Letter('p')) != Letters(And(Letter('p'), Or(Letter('q'), NotLetter('q'))))
    ensures Equiv(Letter('p'), And(Letter('p'), Or(Letter('q'), NotLetter('q'))))
  {
    var t := And(Letter('p'), Or(Letter('q'), NotLetter('q')));
    assert 'q' in Letters(t);
    forall v: Valuation | v.Keys == Letters(Letter('p')) + Letters(t)
      ensures Eval(Letter('p'), v) == Eval(t, v)
    {
      assert Eval(Or(Letter('q'), NotLetter('q')), v);
    }
  }

  /** `p` and `q` are not equivalent: a valuation tells them apart. */
  lemma DistinctLettersNotEquivalent()
    ensures !Equiv(Letter('p'), Letter('q'))
  {
    var v: Valuation := map['p' := true, 'q' := false];
    assert v.Keys == Letters(Letter('p')) + Letters(Letter('q'));
    assert Eval(Letter('p'), v) != Eval(Letter('q'), v);
  }
}
