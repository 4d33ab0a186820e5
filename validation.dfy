/**
  validate_answer of backend/logic_engine.py: grammar dispatch, parsing of the
  three formulas, the prohibition check, then the equivalence check. The
  Lark parsers for the "prop" and "bool" grammars are given as oracles that
  return None where Lark raises an error; the DNF parser is DnfParser.
*/
module Validation {
  import opened Wrappers
  import opened Formulas
  import opened Prohibition
  import opened Equivalence
  import opened DnfParser

  datatype Dialect = Prop | Bool | Dnf

  /** The parser used for the answer and for the prohibited formula. */
  function AnswerDialect(grammar: string): Dialect
  {
    if grammar == "prop" then Prop else if grammar == "dnf" then Dnf else Bool
  }

  /** The parser used for the correct formula: a DNF question has a
      propositional correct formula. */
  function CorrectDialect(grammar: string): Dialect
  {
    if grammar == "prop" || grammar == "dnf" then Prop else Bool
  }

  function Parse(d: Dialect, s: string, propParser: string -> Option<Formula>,
                 boolParser: string -> Option<Formula>): Option<Formula>
  {
    match d
    case Prop => propParser(s)
    case Bool => boolParser(s)
    case Dnf => ParseDnf(s)
  }

  /** Some of the formulas validate_answer parses fails to parse. */
  predicate ParseFails(answer: string, correct: string, prohibited: string, grammar: string,
                       propParser: string -> Option<Formula>, boolParser: string -> Option<Formula>)
  {
    || Parse(AnswerDialect(grammar), answer, propParser, boolParser).None?
    || Parse(CorrectDialect(grammar), correct, propParser, boolParser).None?
    || (prohibited != "" && Parse(AnswerDialect(grammar), prohibited, propParser, boolParser).None?)
  }

  /** All formulas parse, a prohibited formula is given, and the answer is a
      disguised copy of it. */
  predicate Flagged(answer: string, correct: string, prohibited: string, grammar: string,
                    propParser: string -> Option<Formula>, boolParser: string -> Option<Formula>)
  {
    && !ParseFails(answer, correct, prohibited, grammar, propParser, boolParser)
    && prohibited != ""
    && IsProhibited(Parse(AnswerDialect(grammar), answer, propParser, boolParser).value,
                    Parse(AnswerDialect(grammar), prohibited, propParser, boolParser).value)
  }

  // The four messages validate_answer returns.

  function ParseErrorMessage(correct: string): string
  {
    "Parse error. Correct answer was " + correct
  }

  function ProhibitedMessage(correct: string): string
  {
    "Prohibited formula. Correct answer was " + correct
  }

  function IncorrectMessage(correct: string): string
  {
    "Incorrect. Correct answer was " + correct
  }

  const CorrectMessage: string := "Correct"

  /** The four messages differ whatever the correct formula is, so the message
      alone tells the outcome. */
  lemma MessagesDiffer(correct: string)
    ensures ParseErrorMessage(correct) != ProhibitedMessage(correct)
    ensures ParseErrorMessage(correct) != IncorrectMessage(correct)
    ensures ParseErrorMessage(correct) != CorrectMessage
    ensures ProhibitedMessage(correct) != IncorrectMessage(correct)
    ensures ProhibitedMessage(correct) != CorrectMessage
    ensures IncorrectMessage(correct) != CorrectMessage
  {
    assert ParseErrorMessage(correct)[0] == 'P' && ParseErrorMessage(correct)[1] == 'a';
    assert ProhibitedMessage(correct)[0] == 'P' && ProhibitedMessage(correct)[1] == 'r';
    assert IncorrectMessage(correct)[0] == 'I';
    assert CorrectMessage[0] == 'C';
  }

  method ValidateAnswer(answer: string, correct: string, prohibited: string, grammar: string,
                        propParser: string -> Option<Formula>, boolParser: string -> Option<Formula>)
    returns (r: string)
    ensures ParseFails(answer, correct, prohibited, grammar, propParser, boolParser)
            <==> r == ParseErrorMessage(correct)
    ensures Flagged(answer, correct, prohibited, grammar, propParser, boolParser)
            <==> r == ProhibitedMessage(correct)
    ensures r == CorrectMessage <==>
            && !ParseFails(answer, correct, prohibited, grammar, propParser, boolParser)
            && !Flagged(answer, correct, prohibited, grammar, propParser, boolParser)
            && Equiv(Parse(AnswerDialect(grammar), answer, propParser, boolParser).value,
                     Parse(CorrectDialect(grammar), correct, propParser, boolParser).value)
    ensures r == IncorrectMessage(correct) <==>
            && !ParseFails(answer, correct, prohibited, grammar, propParser, boolParser)
            && !Flagged(answer, correct, prohibited, grammar, propParser, boolParser)
            && !Equiv(Parse(AnswerDialect(grammar), answer, propParser, boolParser).value,
                      Parse(CorrectDialect(grammar), correct, propParser, boolParser).value)
  {
    MessagesDiffer(correct);
    var hasProhibited := prohibited != "";
    var answerDialect := AnswerDialect(grammar);
    var correctDialect := CorrectDialect(grammar);
    var answerTree := Parse(answerDialect, answer, propParser, boolParser);
    var correctTree := Parse(correctDialect, correct, propParser, boolParser);
    var prohibitedTree: Option<Formula> := None;
    if hasProhibited {
      prohibitedTree := Parse(answerDialect, prohibited, propParser, boolParser);
    }
    if answerTree.None? || correctTree.None? || (hasProhibited && prohibitedTree.None?) {
      r := ParseErrorMessage(correct);
      return;
    }
    if hasProhibited && IsProhibited(answerTree.value, prohibitedTree.value) {
      r := ProhibitedMessage(correct);
      return;
    }
    var equivalent := CheckEquivalent(answerTree.value, correctTree.value);
    if equivalent {
      r := CorrectMessage;
    } else {
      r := IncorrectMessage(correct);
    }
  }

  /** With grammar "prop", the answer `p ^ p` against correct `p` and
      prohibited `p` is reported as prohibited, ahead of being correct. */
  method ExampleProhibitedBeforeCorrect(propParser: string -> Option<Formula>, boolParser: string -> Option<Formula>)
    returns (r: string)
    requires propParser("p ^ p") == Some(And(Letter('p'), Letter('p')))
    requires propParser("p") == Some(Letter('p'))
    ensures r == ProhibitedMessage("p")
  {
    PAndPAgainstP();
    r := ValidateAnswer("p ^ p", "p", "p", "prop", propParser, boolParser);
  }

  /** With grammar "dnf", an answer that is not in disjunctive normal form is a
      parse error, whatever the correct formula. */
  method ExampleDnfRejects(correct: string, propParser: string -> Option<Formula>, boolParser: string -> Option<Formula>)
    returns (r: string)
    ensures r == ParseErrorMessage(correct)
  {
    ImplicationRejected();
    r := ValidateAnswer("p -> q", correct, "", "dnf", propParser, boolParser);
  }
}
