/**
  generate_question of backend/logic_engine.py and its helpers gen_prop and
  gen_bool: a formula is derived from the placeholder "F" by string rewriting,
  its "L" placeholders are filled with letters, and a question of one of five
  kinds is built around it. Every random choice is an input here: the
  derivation index of each step, max_letters, the letter index of each "L",
  the question type, the phrase pair and the input-method coin.
*/
module Generator {
  import opened Wrappers
  import opened Formulas
  import opened Strings
  import opened Equivalence
  import opened TruthTable
  import opened Translation

  /** The alphabet and the derivation list of gen_prop or gen_bool. */
  datatype Grammar = Grammar(alphabet: string, derivations: seq<string>)

  const PropGrammar: Grammar := Grammar("pqrst",
    ["-L", "F ^ F", "F < F", "F -> F", "F <-> F", "(F ^ F)", "(F < F)", "(F -> F)", "(F <-> F)",
     "-(F ^ F)", "-(F < F)", "-(F -> F)", "-(F <-> F)"])
  const BoolGrammar: Grammar := Grammar("abcde",
    ["-L", "F . F", "F + F", "(F . F)", "(F + F)", "-(F . F)", "-(F + F)"])

  const Placeholders: set<char> := {'F', 'L'}

  function Alpha(g: Grammar): set<char>
  {
    set c | c in g.alphabet
  }

  /** Every derivation either closes a branch with one "L" or opens two "F",
      and no derivation and no placeholder is a letter of the alphabet. */
  ghost predicate WellShaped(g: Grammar)
  {
    'F' !in g.alphabet && 'L' !in g.alphabet &&
    (forall k :: 0 <= k < |g.derivations| ==> 1 <= OccFrom(g.derivations[k], Placeholders, 0) <= 2) &&
    (forall k, j :: 0 <= k < |g.derivations| && 0 <= j < |g.derivations[k]| ==> g.derivations[k][j] !in g.alphabet)
  }

  // Each connective of the Prop derivations appears bare, bracketed and
  // negated bracketed (indices c, c + 4, c + 8); the counts are checked one
  // connective at a time.

  lemma PropAndCounts()
    ensures OccFrom(PropGrammar.derivations[1], Placeholders, 0) == 2
    ensures OccFrom(PropGrammar.derivations[5], Placeholders, 0) == 2
    ensures OccFrom(PropGrammar.derivations[9], Placeholders, 0) == 2
  {
  }

  lemma PropOrCounts()
    ensures OccFrom(PropGrammar.derivations[2], Placeholders, 0) == 2
    ensures OccFrom(PropGrammar.derivations[6], Placeholders, 0) == 2
    ensures OccFrom(PropGrammar.derivations[10], Placeholders, 0) == 2
  {
  }

  lemma PropImpliesCounts()
    ensures OccFrom(PropGrammar.derivations[3], Placeholders, 0) == 2
    ensures OccFrom(PropGrammar.derivations[7], Placeholders, 0) == 2
    ensures OccFrom(PropGrammar.derivations[11], Placeholders, 0) == 2
  {
  }

  lemma PropIffCounts()
    ensures OccFrom(PropGrammar.derivations[4], Placeholders, 0) == 2
    ensures OccFrom(PropGrammar.derivations[8], Placeholders, 0) == 2
    ensures OccFrom(PropGrammar.derivations[12], Placeholders, 0) == 2
  {
  }

  lemma PropBareNoLetters()
    ensures forall k, j :: 0 <= k < 5 && 0 <= j < |PropGrammar.derivations[k]| ==>
                             PropGrammar.derivations[k][j] !in PropGrammar.alphabet
  {
  }

  lemma PropBracketedNoLetters()
    ensures forall k, j :: 5 <= k < 9 && 0 <= j < |PropGrammar.derivations[k]| ==>
                             PropGrammar.derivations[k][j] !in PropGrammar.alphabet
  {
  }

  lemma PropNegatedNoLetters()
    ensures forall k, j :: 9 <= k < 13 && 0 <= j < |PropGrammar.derivations[k]| ==>
                             PropGrammar.derivations[k][j] !in PropGrammar.alphabet
  {
  }

  lemma PropCounts()
    ensures forall k :: 0 <= k < |PropGrammar.derivations| ==> 1 <= OccFrom(PropGrammar.derivations[k], Placeholders, 0) <= 2
  {
    PropAndCounts();
    PropOrCounts();
    PropImpliesCounts();
    PropIffCounts();
  }

  lemma PropNoLetters()
    ensures forall k, j :: 0 <= k < |PropGrammar.derivations| && 0 <= j < |PropGrammar.derivations[k]| ==>
                             PropGrammar.derivations[k][j] !in PropGrammar.alphabet
  {
    PropBareNoLetters();
    PropBracketedNoLetters();
    PropNegatedNoLetters();
  }

  // The Bool derivations: product and sum, each bare, bracketed and negated
  // bracketed (indices c, c + 2, c + 4).

  lemma BoolProductCounts()
    ensures OccFrom(BoolGrammar.derivations[1], Placeholders, 0) == 2
    ensures OccFrom(BoolGrammar.derivations[3], Placeholders, 0) == 2
    ensures OccFrom(BoolGrammar.derivations[5], Placeholders, 0) == 2
  {
  }

  lemma BoolSumCounts()
    ensures OccFrom(BoolGrammar.derivations[2], Placeholders, 0) == 2
    ensures OccFrom(BoolGrammar.derivations[4], Placeholders, 0) == 2
    ensures OccFrom(BoolGrammar.derivations[6], Placeholders, 0) == 2
  {
  }

  lemma BoolCounts()
    ensures forall k :: 0 <= k < |BoolGrammar.derivations| ==> 1 <= OccFrom(BoolGrammar.derivations[k], Placeholders, 0) <= 2
  {
    BoolProductCounts();
    BoolSumCounts();
  }

  lemma BoolNoLetters()
    ensures forall k, j :: 0 <= k < |BoolGrammar.derivations| && 0 <= j < |BoolGrammar.derivations[k]| ==>
                             BoolGrammar.derivations[k][j] !in BoolGrammar.alphabet
  {
  }

  /** Both derivation lists have the shape the generator relies on. */
  lemma GrammarsWellShaped()
    ensures WellShaped(PropGrammar) && WellShaped(BoolGrammar)
  {
    PropCounts();
    PropNoLetters();
    BoolCounts();
    BoolNoLetters();
  }

  /** One derivation step keeps at least one placeholder, adds at most one,
      and brings in no letter. */
  lemma DeriveStep(g: Grammar, formula: string, k: nat)
    requires WellShaped(g) && k < |g.derivations|
    requires Occ(formula, Alpha(g)) == 0
    ensures var next := ReplaceFirst(formula, "F", g.derivations[k]);
            Occ(formula, Placeholders) <= Occ(next, Placeholders) <= Occ(formula, Placeholders) + 1 &&
            Occ(next, Alpha(g)) == 0
  {
    var d := g.derivations[k];
    OccFromSuffix(d, Placeholders, 0);
    assert d[0..] == d;
    OccNone(d, Alpha(g));
    assert "F" == ['F'];
    ReplaceFirstOcc(formula, 'F', d, Placeholders);
    ReplaceFirstOcc(formula, 'F', d, Alpha(g));
  }

  /** Turning every "F" into "L" leaves only "L" placeholders, as many as
      there were placeholders, and no letter. */
  lemma CloseStep(g: Grammar, formula: string)
    requires WellShaped(g) && Occ(formula, Alpha(g)) == 0
    ensures var f := ReplaceAll(formula, "F", "L");
            'F' !in f && Occ(f, {'L'}) == Occ(formula, Placeholders) && Occ(f, Alpha(g)) == 0
  {
    assert "F" == ['F'];
    ReplaceAllRemoves(formula, 'F', "L");
    ReplaceAllOcc(formula, 'F', "L", {'L'});
    assert {'L'} - {'F'} == {'L'};
    assert Placeholders == {'F'} + {'L'};
    OccUnion(formula, {'F'}, {'L'});
    ReplaceAllOcc(formula, 'F', "L", Alpha(g));
    assert Alpha(g) - {'F'} == Alpha(g);
    OccNone("L", Alpha(g));
  }

  /** Filling the first "L" with letter l: one "L" fewer, one letter more. */
  lemma FillStep(g: Grammar, f: string, l: char)
    requires WellShaped(g) && 'L' in f && 'F' !in f && l in g.alphabet
    ensures var next := ReplaceFirst(f, "L", [l]);
            'F' !in next &&
            Occ(next, {'L'}) + 1 == Occ(f, {'L'}) &&
            Occ(next, Alpha(g)) == Occ(f, Alpha(g)) + 1 &&
            forall c :: c in g.alphabet ==> (c in next <==> c in f || c == l)
  {
    var next := ReplaceFirst(f, "L", [l]);
    assert "L" == ['L'];
    ReplaceFirstOcc(f, 'L', [l], {'F'});
    OccPositive(f, 'F');
    OccPositive(next, 'F');
    ReplaceFirstOcc(f, 'L', [l], {'L'});
    ReplaceFirstOcc(f, 'L', [l], Alpha(g));
    forall c | c in g.alphabet ensures c in next <==> c in f || c == l {
      ReplaceFirstOcc(f, 'L', [l], {c});
      OccPositive(f, c);
      OccPositive(next, c);
    }
  }

  /** No letter occurs in a string whose letter count is 0. */
  lemma {:induction false} NoLetterOccurs(g: Grammar, f: string, c: char)
    requires Occ(f, Alpha(g)) == 0 && c in g.alphabet
    ensures c !in f
  {
    if |f| > 0 {
      assert f == [f[0]] + f[1..];
      NoLetterOccurs(g, f[1..], c);
    }
  }

  /** gen_prop / gen_bool: `length` derivation steps on `formula`, then every
      placeholder becomes a letter among the first maxLetters of the alphabet.
      The letter list is the set of letters used, in an unspecified order. */
  method Gen(g: Grammar, formula: string, length: int, ds: seq<nat>, maxLetters: nat, picks: seq<nat>)
    returns (r: string, letters: seq<char>)
    requires WellShaped(g)
    requires length <= |ds| && forall k :: 0 <= k < |ds| ==> ds[k] < |g.derivations|
    requires 1 <= maxLetters <= |g.alphabet| && forall k :: 0 <= k < |picks| ==> picks[k] < maxLetters
    requires Occ(formula, Alpha(g)) == 0
    requires Occ(formula, Placeholders) + (if length > 0 then length else 0) <= |picks|
    ensures 'F' !in r && 'L' !in r
    ensures Occ(formula, Placeholders) <= Occ(r, Alpha(g)) <= Occ(formula, Placeholders) + (if length > 0 then length else 0)
    ensures Distinct(letters)
    ensures forall c :: c in letters <==> c in r && c in g.alphabet
    ensures forall c :: c in letters ==> c in g.alphabet[..maxLetters]
    decreases length
  {
    if length <= 0 {
      var f := ReplaceAll(formula, "F", "L");
      CloseStep(g, formula);
      ghost var total := Occ(formula, Placeholders);
      var chosen: set<char> := {};
      var k := 0;
      forall c | c in g.alphabet ensures c !in f {
        NoLetterOccurs(g, f, c);
      }
      while 'L' in f
        invariant 'F' !in f
        invariant Occ(f, {'L'}) + k == total && Occ(f, Alpha(g)) == k
        invariant forall c :: c in g.alphabet ==> (c in f <==> c in chosen)
        invariant forall c :: c in chosen ==> c in g.alphabet[..maxLetters]
        decreases Occ(f, {'L'})
      {
        OccPositive(f, 'L');
        var l := g.alphabet[picks[k]];
        assert l in g.alphabet[..maxLetters];
        FillStep(g, f, l);
        f := ReplaceFirst(f, "L", [l]);
        chosen := chosen + {l};
        k := k + 1;
      }
      OccPositive(f, 'L');
      r := f;
      letters := [];
      var rest := chosen;
      while rest != {}
        invariant rest <= chosen
        invariant forall c :: c in chosen ==> (c in letters <==> c !in rest)
        invariant forall c :: c in letters ==> c in chosen
        invariant Distinct(letters)
        decreases rest
      {
        var c :| c in rest;
        letters := letters + [c];
        rest := rest - {c};
      }
      return;
    }
    DeriveStep(g, formula, ds[0]);
    var next := ReplaceFirst(formula, "F", g.derivations[ds[0]]);
    r, letters := Gen(g, next, length - 1, ds[1..], maxLetters, picks);
  }

  /** The LaTeX rewriting of a propositional formula in the prompts. */
  function PropLatex(f: string): string
  {
    ReplaceAll(ReplaceAll(ReplaceAll(ReplaceAll(ReplaceAll(f, "<->", "\\longleftrightarrow"),
      "->", "\\rightarrow"), "^", "\\land"), "-", "\\neg "), "<", "\\lor")
  }

  /** The LaTeX rewriting of a boolean formula in the prompts. */
  function BoolLatex(f: string): string
  {
    ReplaceAll(f, ".", "\\cdot")
  }

  /** No "^", "-" or "<" survives the propositional rewriting. */
  lemma PropLatexRewritesOperators(f: string)
    ensures '^' !in PropLatex(f) && '-' !in PropLatex(f) && '<' !in PropLatex(f)
  {
    var f2 := ReplaceAll(ReplaceAll(f, "<->", "\\longleftrightarrow"), "->", "\\rightarrow");
    var f3 := ReplaceAll(f2, "^", "\\land");
    var f4 := ReplaceAll(f3, "-", "\\neg ");
    assert "^" == ['^'] && "-" == ['-'] && "<" == ['<'];
    ReplaceAllRemoves(f2, '^', "\\land");
    ReplaceAllKeepsAbsent(f3, "-", "\\neg ", '^');
    ReplaceAllRemoves(f3, '-', "\\neg ");
    ReplaceAllKeepsAbsent(f4, "<", "\\lor", '^');
    ReplaceAllKeepsAbsent(f4, "<", "\\lor", '-');
    ReplaceAllRemoves(f4, '<', "\\lor");
  }

  /** No "." survives the boolean rewriting. */
  lemma BoolLatexRewritesProduct(f: string)
    ensures '.' !in BoolLatex(f)
  {
    assert "." == ['.'];
    ReplaceAllRemoves(f, '.', "\\cdot");
  }

  function GrammarOf(questionType: nat): Grammar
  {
    if questionType == 1 || questionType == 3 then BoolGrammar else PropGrammar
  }

  function GrammarTag(questionType: nat): string
  {
    if questionType == 0 || questionType == 2 then "prop"
    else if questionType == 1 || questionType == 3 then "bool"
    else "dnf"
  }

  /** The distinct letters of the alphabet that occur in f. */
  function LettersIn(g: Grammar, f: string): set<char>
  {
    set c | c in f && c in g.alphabet
  }

  /** A list without repetitions has as many elements as its set. */
  lemma {:induction false} DistinctCard(s: seq<char>)
    requires Distinct(s)
    ensures |set c | c in s| == |s|
  {
    if |s| > 0 {
      var init := s[..|s| - 1];
      assert Distinct(init);
      DistinctCard(init);
      assert (set c | c in s) == (set c | c in init) + {s[|s| - 1]};
      assert s[|s| - 1] !in init;
    }
  }

  /** Two distinct letters each have a phrase. */
  lemma TwoLettersHavePhrases(letters: seq<char>)
    requires |letters| == 2 && Distinct(letters)
    ensures LegendDefined(letters)
  {
    assert IndexOf(letters, letters[0]) == 0;
    assert IndexOf(letters, letters[1]) == 1;
  }

  /** The prompts of the five question types. */
  function TranslatePrompt(questionType: nat, sentence: string): string
  {
    if questionType == 0 then "Translate the following sentence into a propositional logic formula: " + sentence
    else "Translate the following sentence into a boolean algebra formula: " + sentence
  }

  function EquivalentPrompt(questionType: nat, formula: string): string
  {
    if questionType == 0 then "Give an equivalent propositional logic formula to \\(" + PropLatex(formula) + "\\)"
    else "Give an equivalent boolean algebra formula to \\(" + BoolLatex(formula) + "\\)"
  }

  function TablePrompt(questionType: nat, table: string): string
  {
    if questionType == 2 then "Give a propositional logic formula for the following truth table:\n" + table
    else "Give a boolean algebra formula for the following truth table:\n" + table
  }

  function DnfPrompt(formula: string): string
  {
    "Give the following propositional logic formula in DNF: \\(" + PropLatex(formula) + "\\)"
  }

  /** The start formula "F" is one placeholder and no letter. */
  lemma StartCounts(g: Grammar)
    requires WellShaped(g)
    ensures Occ("F", Alpha(g)) == 0 && Occ("F", Placeholders) == 1
  {
    assert "F"[0] == 'F' && "F"[1..] == "";
  }

  lemma GrammarWellShaped(questionType: nat)
    ensures WellShaped(GrammarOf(questionType))
  {
    GrammarsWellShaped();
  }

  /** The parser generate_question re-parses types 0-3 with. */
  function ParserOf(questionType: nat, propParser: string -> Option<Formula>, boolParser: string -> Option<Formula>)
    : string -> Option<Formula>
  {
    if questionType == 1 || questionType == 3 then boolParser else propParser
  }

  /** When the branch of generate_question raises: the re-parse fails, or its
      tree cannot be translated (types 0/1 with two letters) or tabulated
      (types 2/3) with the letter list. */
  predicate PromptFails(questionType: nat, formula: string, letters: seq<char>, parser: string -> Option<Formula>)
  {
    if questionType <= 1 then
      |letters| == 2 && (parser(formula).None? || !Translatable(parser(formula).value, letters))
    else if questionType <= 3 then
      parser(formula).None? || !(Letters(parser(formula).value) <= set c | c in letters)
    else
      false
  }

  /** The prohibited formula and the prompt of each question type: the
      translation of the re-parsed tree with the legend of the two letters,
      the formula itself with the equivalence prompt, the truth table of the
      re-parsed tree in some iteration order of its rows, or the DNF prompt. */
  ghost predicate PromptFor(questionType: nat, formula: string, letters: seq<char>, p: nat,
                            parser: string -> Option<Formula>, prohibited: string, prompt: string)
  {
    if questionType <= 1 && |letters| == 2 then
      var tree := parser(formula);
      prohibited == "" && p < |Phrases| && tree.Some? && Translatable(tree.value, letters) &&
      LegendDefined(letters) &&
      prompt == TranslatePrompt(questionType, "Let " + JoinComma(Meanings(letters, p)) + ". " + Sentence(tree.value, letters, p))
    else if questionType <= 1 then
      prohibited == formula && prompt == EquivalentPrompt(questionType, formula)
    else if questionType <= 3 then
      prohibited == "" && parser(formula).Some? && TablePromptOf(questionType, parser(formula).value, letters, prompt)
    else
      prohibited == "" && prompt == DnfPrompt(formula)
  }

  /** The table prompt over the HTML of the expected truth table, its rows
      in some order, each once. */
  ghost predicate TablePromptOf(questionType: nat, tree: Formula, letters: seq<char>, prompt: string)
  {
    exists order: seq<Row> {:trigger TableHtml(letters, order)} ::
      Enumerates(order, Expected(tree, letters)) && prompt == TablePrompt(questionType, TableHtml(letters, order))
  }

  /** The branch of generate_question on the question type: the prohibited
      formula, the prompt and, where the type fixes it, the input method ("" when
      the coin decides). */
  method QuestionPrompt(questionType: nat, g: Grammar, formula: string, letters: seq<char>, p: nat,
                        propParser: string -> Option<Formula>, boolParser: string -> Option<Formula>)
    returns (r: Result<(string, string, string), string>)
    requires questionType <= 4 && p < |Phrases| && g == GrammarOf(questionType)
    requires Distinct(letters) && forall c :: c in letters <==> c in formula && c in g.alphabet
    requires Occ(formula, Alpha(g)) >= 1
    ensures r.Failure? <==> PromptFails(questionType, formula, letters, ParserOf(questionType, propParser, boolParser))
    ensures r.Success? ==> PromptFor(questionType, formula, letters, p, ParserOf(questionType, propParser, boolParser), r.value.0, r.value.1)
    ensures r.Success? ==>
              var (prohibited, prompt, inputMethod) := r.value;
              (inputMethod == "" || inputMethod == "Text") &&
              (inputMethod == "Text" <==> prohibited != "" || questionType == 4) &&
              (prohibited != "" ==> prohibited == formula && questionType <= 1) &&
              (questionType <= 1 ==> (prohibited == "" <==> |letters| == 2))
  {
    var parser := ParserOf(questionType, propParser, boolParser);
    if questionType == 0 || questionType == 1 {
      r := TranslationQuestion(questionType, formula, letters, p, parser);
    } else if questionType == 2 || questionType == 3 {
      var table := TableQuestion(questionType, g, formula, letters, parser);
      if table.Failure? {
        return Failure(table.error);
      }
      return Success(("", table.value, ""));
    } else {
      return Success(("", DnfPrompt(formula), "Text"));
    }
  }

  /** Question types 0 and 1: a translation exercise when the formula has two
      letters, otherwise an equivalence exercise that prohibits the formula. */
  method TranslationQuestion(questionType: nat, formula: string, letters: seq<char>, p: nat,
                             parser: string -> Option<Formula>)
    returns (r: Result<(string, string, string), string>)
    requires questionType <= 1 && p < |Phrases| && Distinct(letters) && |formula| > 0
    ensures r.Failure? <==> PromptFails(questionType, formula, letters, parser)
    ensures r.Success? ==> PromptFor(questionType, formula, letters, p, parser, r.value.0, r.value.1)
    ensures r.Success? ==>
              var (prohibited, prompt, inputMethod) := r.value;
              (prohibited == "" <==> |letters| == 2) &&
              (prohibited == "" ==> inputMethod == "") &&
              (prohibited != "" ==> inputMethod == "Text")
  {
    if |letters| == 2 {
      var tree := parser(formula);
      if tree.None? || !Translatable(tree.value, letters) {
        return Failure("the formula could not be translated");
      }
      TwoLettersHavePhrases(letters);
      var sentence := TranslateFormula(tree.value, letters, p);
      return Success(("", TranslatePrompt(questionType, sentence), ""));
    }
    return Success((formula, EquivalentPrompt(questionType, formula), "Text"));
  }

  /** Question types 2 and 3: the truth table of the formula, which fails
      exactly when the parse fails or the tree has a letter the list lacks. */
  method TableQuestion(questionType: nat, g: Grammar, formula: string, letters: seq<char>,
                       parser: string -> Option<Formula>)
    returns (r: Result<string, string>)
    requires Distinct(letters) && forall c :: c in letters <==> c in formula && c in g.alphabet
    requires Occ(formula, Alpha(g)) >= 1
    ensures r.Failure? <==> parser(formula).None? || !(Letters(parser(formula).value) <= set c | c in letters)
    ensures r.Success? ==> parser(formula).Some? && TablePromptOf(questionType, parser(formula).value, letters, r.value)
  {
    var tree := parser(formula);
    if tree.None? || !(Letters(tree.value) <= set c | c in letters) {
      return Failure("the formula could not be evaluated");
    }
    var j := OccWitness(formula, Alpha(g));
    assert formula[j] in letters;
    var _, table := GenTruthTable(tree.value, letters);
    ghost var order: seq<Row> :| Enumerates(order, Expected(tree.value, letters)) && table == TableHtml(letters, order);
    r := Success(TablePrompt(questionType, table));
    assert TablePrompt(questionType, TableHtml(letters, order)) == r.value;
  }

  /** generate_question: (grammar, formula, prohibited_formula, prompt,
      input_method). The formula is parsed again for the translation and the
      truth table; the parsers are inputs, and a parse that fails or gives a
      tree with a letter the letter list lacks is an exception in the source,
      a Failure here. */
  method GenerateQuestion(questionType: nat, ds: seq<nat>, maxLetters: nat, picks: seq<nat>, p: nat, coin: nat,
                          propParser: string -> Option<Formula>, boolParser: string -> Option<Formula>)
    returns (r: Result<(string, string, string, string, string), string>)
    requires questionType <= 4 && p < |Phrases| && coin <= 1
    requires |ds| >= 2 && forall k :: 0 <= k < |ds| ==> ds[k] < |GrammarOf(questionType).derivations|
    requires 1 <= maxLetters <= 5 && |picks| >= 3 && forall k :: 0 <= k < |picks| ==> picks[k] < maxLetters
    ensures r.Failure? ==> questionType <= 3
    ensures r.Success? ==>
              var (grammar, formula, prohibited, prompt, inputMethod) := r.value;
              grammar == GrammarTag(questionType) &&
              (inputMethod == "Text" || inputMethod == "Blocks") &&
              (prohibited != "" ==> prohibited == formula && inputMethod == "Text" && questionType <= 1) &&
              (questionType == 4 ==> inputMethod == "Text") &&
              (questionType != 4 && prohibited == "" ==> inputMethod == (if coin == 0 then "Text" else "Blocks")) &&
              'F' !in formula && 'L' !in formula &&
              1 <= Occ(formula, Alpha(GrammarOf(questionType))) <= 3 &&
              (questionType <= 1 ==> (prohibited == "" <==> |LettersIn(GrammarOf(questionType), formula)| == 2)) &&
              (prohibited != "" ==> prompt == EquivalentPrompt(questionType, formula)) &&
              (questionType == 4 ==> prompt == DnfPrompt(formula))
    ensures r.Success? ==>
              var (grammar, formula, prohibited, prompt, inputMethod) := r.value;
              forall k :: 0 <= k < |formula| && formula[k] in GrammarOf(questionType).alphabet ==>
                formula[k] in GrammarOf(questionType).alphabet[..maxLetters]
    ensures r.Success? ==>
              var (grammar, formula, prohibited, prompt, inputMethod) := r.value;
              exists letters: seq<char> {:trigger PromptFor(questionType, formula, letters, p, ParserOf(questionType, propParser, boolParser), prohibited, prompt)} ::
                Distinct(letters) && (set c | c in letters) == LettersIn(GrammarOf(questionType), formula) &&
                PromptFor(questionType, formula, letters, p, ParserOf(questionType, propParser, boolParser), prohibited, prompt)
  {
    var g := GrammarOf(questionType);
    GrammarWellShaped(questionType);
    var grammar := GrammarTag(questionType);
    StartCounts(g);
    var formula, letters := Gen(g, "F", 2, ds, maxLetters, picks);
    DistinctCard(letters);
    assert (set c | c in letters) == LettersIn(g, formula);
    var question := QuestionPrompt(questionType, g, formula, letters, p, propParser, boolParser);
    if question.Failure? {
      return Failure(question.error);
    }
    var (prohibited, prompt, inputMethod) := question.value;
    assert PromptFor(questionType, formula, letters, p, ParserOf(questionType, propParser, boolParser), prohibited, prompt);
    if inputMethod == "" {
      inputMethod := if coin == 0 then "Text" else "Blocks";
    }
    return Success((grammar, formula, prohibited, prompt, inputMethod));
  }
}
