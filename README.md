# LogicLearner core in Dafny

LogicLearner is a tutoring web application for propositional logic and
boolean algebra. Its backend generates questions, grades answers and stores
question sets. Its frontend lets a student work through a question set and
lets a teacher write one. This project models the core of that system and
proves properties of the model:

- **Formulas.** The formula trees the Lark grammars build are modelled, with
  one constructor per grammar alias, together with their evaluation.
- **Prohibition check.** This is the canonical-key comparison that stops a
  student from handing back a prohibited formula in disguise.
- **Equivalence check.** The exhaustive bit-flip search is proved sound and
  complete against semantic equivalence.
- **DNF parser.** It is parsed directly, and a round trip is proved.
- **Answer validator.**
- **Truth table.** The result set is built by a `TableBuilder` class whose
  `Evaluate` method mutates a set. The HTML is written by loops.
- **Translator.** It turns a formula into an English sentence.
- **Question generator.** It derives a formula by string rewriting, then fills
  in letters in a loop.
- **File manager.** A question set keeps its question ids unique and looks
  questions up by id. The manager also builds sets from decoded JSON,
  renumbers ids, generates random sets and hides answers. One of the hiding
  steps is the block shuffle.
- **Frontend.** The answering page has a question cursor with a score. The
  question-creation page has its draft list and its cookie lookup.

Modules follow the source files:

| module | source |
|---|---|
| `Formulas`, `Prohibition`, `Equivalence`, `DnfParser`, `Validation`, `TruthTable`, `Translation`, `Generator` | `backend/logic_engine.py` |
| `FileManager` | `backend/file_manager.py` |
| `ServerHandler` | `frontend/serverHandler.js` |
| `QuestionCreation` | `frontend/question_creation.js` |

The supporting modules are:

- `Wrappers`: `Option` and `Result`.
- `Strings`: Python's `str.replace`, character counts and decimal numerals.
- `Questions`: the shared question record.

Where prose descriptions of the system and the code disagree, the model
follows the code:

- **Letter precheck.** `check_equivalent` keeps the letters seen by its
  visitor in a class attribute, so both visitors fill one shared set. The
  "different letters, not equivalent" precheck therefore compares that set
  with itself and never fires, and the exhaustive test runs over the union of
  the letters of both formulas. `Equivalence.DifferentLettersEquivalent`
  shows that `p` and `p ^ (q < -q)` are judged equivalent.
- **Negation forms.** `-p` (`not_letter`) and `-(p)` (`not_formula`, whose
  production consumes the parentheses) are distinct trees with the same value
  and the same prohibition key "NOTp". They differ only on the answer side:
  `not_formula` cancels a leading NOT of its operand's key and `not_letter`
  cannot, so `-(-p)` gets the key "p".

Random choices are parameters. These are:

- the derivation index of each step;
- `max_letters` and the letter picked for each placeholder;
- the question type, the phrase pair and the input-method coin;
- the rearranged characters produced by `random.shuffle`.

The Lark parsers for the "prop" and "bool" grammars are parameters too. Each
is a function that returns `None` where Lark raises.

## Model

| member | source | states |
|---|---|---|
| Formulas.Eval | backend/logic_engine.py:52-71 | reference definition of evaluate_tree, with no contract of its own: the truth value of a tree under a valuation that covers its letters, with `->` as not-or and `<->` as equality; its properties are the rows below |
| Formulas.LettersNonEmpty | backend/logic_engine.py:5-33 | every formula tree of the grammars mentions at least one letter |
| Formulas.EvalAgree | backend/logic_engine.py:52-71 | evaluation depends only on the values of the letters of the tree |
| Formulas.StripBrackets | backend/logic_engine.py:56-57 | removing the `brackets` nodes keeps the letters of a tree |
| Formulas.EvalIgnoresBrackets | backend/logic_engine.py:56-57 | `brackets` nodes pass their child's value through unchanged |
| Formulas.ConnectiveLaws | backend/logic_engine.py:62-69 | `->` is `-a < b`, `<->` is the conjunction of both implications, i.e. equality of the two values |
| Formulas.NegationForms | backend/logic_engine.py:58-61 | `-p`, `-(p)` (not_formula over the letter) and `-((p))` all have the letter p and evaluate to its negation |
| Prohibition.KeyBase | backend/logic_engine.py:78-102 | reference definition of the CheckProhibited transformer, with no contract of its own: the key string of the prohibited tree, NOT prefixed to negations and AND/OR operands sorted; its properties are the Prohibition rows below |
| Prohibition.KeyUser | backend/logic_engine.py:104-128 | reference definition of CheckProhibitedUser, with no contract of its own: the answer's key, where not_formula cancels a leading NOT and an AND/OR of two halves whose keys equal the prohibited key collapses to that key |
| Prohibition.IsProhibited | backend/logic_engine.py:77-132 | reference definition of is_prohibited, with no contract of its own: the answer's user key equals the prohibited key; see the verdict lemmas below |
| Prohibition.LexLessIrreflexive | backend/logic_engine.py:88 | Python's string `<` is irreflexive |
| Prohibition.LexLessTotal | backend/logic_engine.py:88 | of two different strings exactly one is smaller |
| Prohibition.SortedCommutes | backend/logic_engine.py:87-96 | the sorted `AND(..)`/`OR(..)` key does not depend on operand order |
| Prohibition.CommutativeSwap | backend/logic_engine.py:87-96 | swapping the operands of `^` or `<` changes neither the prohibited key nor the answer key |
| Prohibition.SwapKeepsVerdict | backend/logic_engine.py:115-132 | swapping operands of `^`/`<` never changes whether an answer is prohibited |
| Prohibition.ImpliesOrderKept | backend/logic_engine.py:97-100 | `p -> q` and `q -> p` (and the `<->` pair) get different keys |
| Prohibition.UserKeyNoDoubleNot | backend/logic_engine.py:105-114 | an answer key never begins with two `NOT`s |
| Prohibition.DoubleNegationCancels | backend/logic_engine.py:110-114 | on the answer side `-(-(P))` has the key of P |
| Prohibition.NegatedLetterCancels | backend/logic_engine.py:105-114 | `-p` gets key `NOTp`, and `-(-p)` gets key `p` |
| Prohibition.DoubleNegationKeepsVerdict | backend/logic_engine.py:104-132 | padding an answer with a double negation never changes the verdict |
| Prohibition.SelfDuplicationCollapses | backend/logic_engine.py:115-128 | two prohibited answers joined by `^` or `<` are prohibited |
| Prohibition.PAndPAgainstP | backend/logic_engine.py:115-117 | `p ^ p` is prohibited against `p` |
| Prohibition.RepeatedConjunction | backend/logic_engine.py:115-121 | `(p^q)^(q^p)` is prohibited against `p^q` |
| Prohibition.UserKeyAgrees | backend/logic_engine.py:78-128 | without stacked negations the answer key is the prohibited-side key |
| Prohibition.IdenticalIsProhibited | backend/logic_engine.py:102-132 | handing back the prohibited formula itself is prohibited when it has no stacked negation |
| Prohibition.StackedNotMissesItself | backend/logic_engine.py:84-86 | the prohibited formula `-(-x)` handed back verbatim is not caught, because only the answer side cancels `NOT`s |
| Equivalence.Equiv | backend/logic_engine.py:134-170 | the notion check_equivalent decides, with no contract of its own: the trees agree under every valuation of the union of their letters; `Equivalence.CheckEquivalent` is proved to compute it |
| Equivalence.TestValuation | backend/logic_engine.py:150-163 | reference definition of test_valuation, with no contract of its own: the exhaustive recursion over letters i down to 0, each step testing the valuation and its copy with letter i negated; `TestValuationSound` and `TestValuationComplete` state what it checks |
| Equivalence.FlipAgrees | backend/logic_engine.py:154-155 | the copied valuation differs from the original only at letter i |
| Equivalence.TestValuationSound | backend/logic_engine.py:150-163 | when test_valuation returns true, the trees agree on every valuation that matches the given one above letter i |
| Equivalence.TestValuationComplete | backend/logic_engine.py:150-163 | when the trees agree on all those valuations, test_valuation returns true |
| Equivalence.LetterCollector.Visit | backend/logic_engine.py:135-140 | the visitor adds exactly the letters of the tree to its set |
| Equivalence.FalseValuation | backend/logic_engine.py:165-168 | the setup loop lists every collected letter exactly once and maps exactly those letters to false |
| Equivalence.AgreeFromTop | backend/logic_engine.py:170 | starting test_valuation at the last letter checks agreement under every valuation of the letters, i.e. equivalence |
| Equivalence.CheckEquivalent | backend/logic_engine.py:134-170 | the result is true iff the trees agree under every valuation of the union of their letters |
| Equivalence.EquivReflexive | backend/logic_engine.py:134-170 | every formula is equivalent to itself |
| Equivalence.EquivSymmetric | backend/logic_engine.py:134-170 | the equivalence result does not depend on argument order |
| Equivalence.EquivOnCover | backend/logic_engine.py:134-170 | equivalent trees agree under any valuation covering their letters |
| Equivalence.EquivTransitive | backend/logic_engine.py:134-170 | equivalence is transitive |
| Equivalence.DifferentLettersEquivalent | backend/logic_engine.py:142-148 | formulas over different letter sets can be equivalent, because the precheck compares one shared set |
| Equivalence.DistinctLettersNotEquivalent | backend/logic_engine.py:134-170 | `p` and `q` are not equivalent |
| DnfParser.ParseDnf | backend/logic_engine.py:35-49 | reference definition of dnf_parser.parse, with no contract of its own: tokenizes, then parses a disjunction of bracketed conjunctions of literals, None on any error; `ParseTokensExact`, `PrintParse` and `ParseSound` state what it accepts |
| DnfParser.TokenizeRender | backend/logic_engine.py:35-49 | tokenizing space-separated tokens gives the tokens back |
| DnfParser.ParseTokensExact | backend/logic_engine.py:36-43 | a token sequence parses to t iff t has the DNF shape and the sequence is t's tokens |
| DnfParser.LiteralRoundTrip | backend/logic_engine.py:42-43 | a literal followed by any tokens parses back to that literal |
| DnfParser.ConjunctionRoundTrip | backend/logic_engine.py:39-40 | a conjunction followed by any tokens parses back to that conjunction |
| DnfParser.DisjunctionRoundTrip | backend/logic_engine.py:36-37 | a disjunction parses back when the next token is not `<` |
| DnfParser.LiteralSound | backend/logic_engine.py:42-43 | a parsed literal has literal shape and consumed exactly its tokens |
| DnfParser.ConjunctionSound | backend/logic_engine.py:39-40 | a parsed conjunction has conjunction shape and consumed exactly its tokens |
| DnfParser.DisjunctionSound | backend/logic_engine.py:36-37 | a parsed disjunction has disjunction shape and consumed exactly its tokens |
| DnfParser.PrintParse | backend/logic_engine.py:35-49 | writing a DNF tree out and parsing it gives the tree back |
| DnfParser.ParseSound | backend/logic_engine.py:35-49 | whatever parses is a DNF tree, and re-parsing its rendering gives the same tree |
| DnfParser.StrayCharRejected | backend/logic_engine.py:45-48 | a character that is not a letter, space or DNF symbol is a parse error |
| DnfParser.ImplicationRejected | backend/logic_engine.py:35-49 | `p -> q` is not DNF and does not parse |
| DnfParser.ExampleParse | backend/logic_engine.py:36-43 | `(p ^ -q) < r` gives the tree the Lark aliases build |
| Validation.ValidateAnswer | backend/logic_engine.py:172-203 | "Parse error…" iff some parse fails; "Prohibited…" iff all parse and the answer is prohibited; "Correct" iff neither and the trees are equivalent; "Incorrect…" iff neither and they are not |
| Validation.MessagesDiffer | backend/logic_engine.py:195-203 | the four messages are pairwise different for every correct formula, so the message tells the outcome |
| Validation.ExampleProhibitedBeforeCorrect | backend/logic_engine.py:197-201 | `p ^ p` against `p` is reported prohibited even though it is equivalent |
| Validation.ExampleDnfRejects | backend/logic_engine.py:183-195 | a non-DNF answer to a "dnf" question is a parse error |
| TruthTable.RowOfAt | backend/logic_engine.py:214 | position j of a row is the value of the j-th letter |
| TruthTable.ValOfAt | backend/logic_engine.py:227-229 | the valuation a row names gives the j-th letter the j-th bit |
| TruthTable.AllBitsHas | backend/logic_engine.py:213-230 | every bit string of length n is among the rows to be enumerated |
| TruthTable.AllBitsCard | backend/logic_engine.py:213-230 | there are 2^n bit strings of length n |
| TruthTable.TableSize | backend/logic_engine.py:212-230 | the expected table has 2^n rows |
| TruthTable.ExpectedRows | backend/logic_engine.py:212-230 | a pair is in the expected table iff its bits have length n and its value is the formula evaluated at those bits |
| TruthTable.RowNamesValuation | backend/logic_engine.py:214 | the row recorded for a valuation carries the formula's value under it |
| TruthTable.RowOfFlip | backend/logic_engine.py:216-219 | the copy negated at letter i keeps the keys and flips bit i of the row |
| TruthTable.CoveredBase | backend/logic_engine.py:221-222 | below letter 0 only the row itself is covered |
| TruthTable.CoveredTop | backend/logic_engine.py:230 | starting at the last letter covers the whole table |
| TruthTable.CoverStep | backend/logic_engine.py:224-225 | the rows covered from letter i are those covered from letter i-1 by the valuation and by its copy |
| TruthTable.TableBuilder.Evaluate | backend/logic_engine.py:213-225 | evaluate adds exactly the rows that agree with the valuation above letter i, with their values |
| TruthTable.TableBuilder.Record | backend/logic_engine.py:214 | one `add` puts in the pair of the valuation's row and the tree's value under it |
| TruthTable.TableBuilder.AddPairs | backend/logic_engine.py:214-219 | evaluate's first half adds the pair of the valuation and of its copy with letter i negated, whose row is the row with bit i flipped |
| TruthTable.HeaderCellsAt | backend/logic_engine.py:233-235 | one `<th>` per letter in order, then the `?` column |
| TruthTable.RowCellsAt | backend/logic_engine.py:238-240 | one `<td>` per bit in order, then the value |
| TruthTable.ValueCellShows | backend/logic_engine.py:239-240 | a cell reads `\(1\)` iff its bit is true and `\(0\)` iff false |
| TruthTable.CellCounts | backend/logic_engine.py:232-241 | every body row has as many cells as the header |
| TruthTable.WriteHeader | backend/logic_engine.py:232-235 | the header loop writes the table head |
| TruthTable.WriteRow | backend/logic_engine.py:237-241 | the row loop writes one row |
| TruthTable.WriteRows | backend/logic_engine.py:236-241 | the body lists every row of the set exactly once, in some order |
| TruthTable.GenTruthTable | backend/logic_engine.py:205-244 | the set is the full truth table with 2^n rows, and the HTML is head, each row once, then the closing tags |
| Translation.Sentence | backend/logic_engine.py:252-279 | reference definition of the Translator transformer, with no contract of its own: a letter becomes its phrase, a negation its negative phrase or "it is not that (…)", connectives bracket their operands in words; `SentenceIgnoresBrackets` and `TranslateFormula` build on it |
| Translation.IndexOf | backend/logic_engine.py:255 | `letters.index(t)` is the first position holding t |
| Translation.SentenceIgnoresBrackets | backend/logic_engine.py:256-257 | brackets leave no trace in the sentence |
| Translation.NegativeInsertsNot | backend/logic_engine.py:247-248 | each negative phrase is its phrase with "not " inserted |
| Translation.Meanings | backend/logic_engine.py:280 | one legend entry per letter, in letter order |
| Translation.Legend | backend/logic_engine.py:281-285 | the legend loop joins the entries with ", " |
| Translation.TranslateFormula | backend/logic_engine.py:246-287 | the result is "Let ", the joined legend, ". " and the Translator sentence |
| Translation.JoinCommaSplit | backend/logic_engine.py:282-285 | the legend splits at any entry boundary around ", " |
| Generator.GrammarsWellShaped | backend/logic_engine.py:304-321 | every derivation has one or two placeholders and no alphabet letter |
| Generator.DeriveStep | backend/logic_engine.py:302-306 | a derivation step keeps at least one placeholder, adds at most one, and adds no letter |
| Generator.CloseStep | backend/logic_engine.py:295 | after `replace("F", "L")` no `F` remains and there are as many `L`s as there were placeholders |
| Generator.FillStep | backend/logic_engine.py:298-300 | filling the first `L` removes one `L`, adds one letter, and adds exactly that letter to the letters in use |
| Generator.Gen | backend/logic_engine.py:293-327 | contains no placeholder; the letter count lies between the placeholders at the start and that plus the number of steps; the list holds exactly the letters used, each once, all among the first max_letters |
| Generator.PropLatex | backend/logic_engine.py:344 | reference definition of the replace chain, with no contract of its own: `<->`, `->`, `^`, `-`, `<` replaced by their LaTeX commands in that order; `PropLatexRewritesOperators` states its effect |
| Generator.BoolLatex | backend/logic_engine.py:357 | reference definition, with no contract of its own: `.` replaced by `\cdot`; `BoolLatexRewritesProduct` states its effect |
| Generator.PropLatexRewritesOperators | backend/logic_engine.py:344 | no `^`, `-` or `<` survives the LaTeX rewriting |
| Generator.BoolLatexRewritesProduct | backend/logic_engine.py:357 | no `.` survives the boolean LaTeX rewriting |
| Generator.DistinctCard | backend/logic_engine.py:304 | a letter list without repeats has as many entries as distinct letters |
| Generator.TwoLettersHavePhrases | backend/logic_engine.py:340 | with exactly two distinct letters every letter has a phrase |
| Generator.GenerateQuestion | backend/logic_engine.py:289-386 | the grammar tag matches the type; the input method is "Text" or "Blocks", forced to "Text" for DNF and for equivalence questions, otherwise the coin; for types 0/1 a prohibited formula is set iff the formula does not have exactly two distinct letters, and then it is the formula itself; the formula has no placeholder, 1 to 3 letters, all among the first max_letters of the alphabet; for some repeat-free list of exactly its letters, the prohibited formula and the prompt are those `PromptFor` gives (translation, equivalence, truth table or DNF prompt); failure only for types 0-3 |
| Generator.QuestionPrompt | backend/logic_engine.py:334-378 | fails exactly when the re-parse of types 0-3 fails or its tree cannot be translated (two letters) or tabulated with the letter list; on success the prohibited formula and prompt are `PromptFor`'s: with two letters the translation prompt of `translate_formula`'s legend and sentence, otherwise for types 0/1 the formula with the equivalence prompt, for 2/3 the table prompt over the expected truth table's HTML, for 4 the DNF prompt; the input method is fixed to "Text" exactly for prohibited and DNF questions |
| Generator.TranslationQuestion | backend/logic_engine.py:340-358 | fails exactly when there are two letters and the re-parse fails or mentions a letter without a phrase; with two letters the prompt is the translation prompt over "Let " + legend + ". " + sentence, with the input method left open; otherwise the formula is prohibited, the prompt asks for an equivalent formula and the input method is "Text" |
| Generator.TableQuestion | backend/logic_engine.py:360-372 | fails exactly when the formula does not parse again or its tree has a letter the letter list lacks; otherwise the prompt is the table prompt over the HTML of the expected truth table, each row once in some order |
| FileManager.Lookup | backend/file_manager.py:115-119 | None iff no question has the id; otherwise the first question with that id |
| FileManager.LookupUnique | backend/file_manager.py:69-81 | with distinct ids, the lookup finds the one question with that id |
| FileManager.LookupAppend | backend/file_manager.py:78-81 | after appending under a new id, that id finds the new question and every other lookup is unchanged |
| FileManager.QuestionSet.CheckQuestionIdUnique | backend/file_manager.py:109-113 | true iff no question has the id |
| FileManager.QuestionSet.AddQuestion | backend/file_manager.py:78-81 | NonUniqueQuestionId and no change iff the id is taken; otherwise appended at the end; ids stay distinct |
| FileManager.QuestionSet.SetId | backend/file_manager.py:106-107 | the id changes and nothing else |
| FileManager.QuestionSet.GetQuestionById | backend/file_manager.py:115-119 | the loop returns Lookup's answer |
| FileManager.NewQuestionSet | backend/file_manager.py:69-76 | fails with NonUniqueQuestionId iff two questions share an id; otherwise holds the questions in order |
| FileManager.ToDict | backend/file_manager.py:25-33 | the dictionary has exactly the seven question keys |
| FileManager.QuestionOfDict | backend/file_manager.py:189-198 | succeeds iff all seven keys are present, otherwise InvalidJsonFormat |
| FileManager.DictRoundTrip | backend/file_manager.py:25-33 | reading back what to_dict writes gives the same question |
| FileManager.DictOfQuestion | backend/file_manager.py:189-195 | a question read from a dictionary writes back the same seven entries |
| FileManager.QuestionsOfDicts | backend/file_manager.py:189-198 | succeeds iff every dictionary has all keys, converting each in order |
| FileManager.DictToQuestionSet | backend/file_manager.py:185-198 | InvalidJsonFormat iff a key is missing; otherwise NonUniqueQuestionId iff ids repeat; otherwise the set with those fields |
| FileManager.NumberedIdsDistinct | backend/file_manager.py:180-181 | the ids "0".."n-1" are pairwise distinct |
| FileManager.JsonToQuestionSet | backend/file_manager.py:178-182 | each dictionary gets id str(i) in place; it fails, and only with InvalidJsonFormat, exactly when a key is missing, so never with NonUniqueQuestionId; on success the set has the file's id and name and the renumbered questions in order |
| FileManager.GenerateRandomQuestions | backend/file_manager.py:201-209 | count questions, ids str(0)..str(count-1) in order, source "randomly generated", fields prompt←[3], input←[4], grammar←[0], formula←[1], prohibited←[2] |
| FileManager.ShuffleAnswer | backend/file_manager.py:160-171 | reference definition of __shuffle_answer given the rearranged compacted answer, with no contract of its own: spaces inserted between characters and the arrow stand-ins restored; `ShuffleKeepsTokens` states its effect |
| FileManager.Tokens | backend/file_manager.py:165-170 | one token per character of the compacted answer |
| FileManager.NoSpaceLeft | backend/file_manager.py:164 | the compacted answer has no space |
| FileManager.TokenOf | backend/file_manager.py:168-170 | each arrow character stands for `<->`, `->` or `<-`; every other character stands for itself |
| FileManager.InnerSpaces | backend/file_manager.py:167 | `replace("", " ")[1:-1]` joins the characters with single spaces |
| FileManager.TokensPermute | backend/file_manager.py:166 | rearranging the characters rearranges their tokens |
| FileManager.ShuffleKeepsTokens | backend/file_manager.py:159-171 | the result is the answer's non-space tokens, each arrow one token and none blank, in shuffled order and separated by single spaces; the multiset of tokens is kept |
| FileManager.Hidden | backend/file_manager.py:136-139 | reference definition of the hiding of one question dictionary, with no contract of its own: "Text" blanks the answer, "Blocks" shuffles it, anything else is left as is; `HiddenOnlyAnswer` states its effect |
| FileManager.HiddenOnlyAnswer | backend/file_manager.py:134-139 | "Text" answers become "", "Blocks" answers become their shuffled tokens, other input methods and all other fields are untouched |
| FileManager.HideAnswers | backend/file_manager.py:134-139 | every dictionary is hidden in place; a missing key stops the loop with KeyError, with earlier ones hidden and later ones untouched |
| FileManager.RetrieveQuestionSet | backend/file_manager.py:130-140 | a MissingKey failure exactly when hiding is asked and some dictionary cannot be read; otherwise InvalidJsonFormat exactly when a key is missing and NonUniqueQuestionId exactly when ids repeat; dictionaries are untouched unless hiding, hidden in place on success, and the set carries the file's id, name and questions |
| ServerHandler.AttemptingQuestionSet.IncreaseScore | frontend/serverHandler.js:49-51 | the score goes up by one and nothing else changes |
| ServerHandler.AttemptingQuestionSet.HasNextQuestion | frontend/serverHandler.js:57-59 | true only while the cursor is before the end; with the cursor in range, true iff it is not at the end; a negative restored cursor also gives true |
| ServerHandler.AttemptingQuestionSet.ViewNextQuestion | frontend/serverHandler.js:61-63 | the question at the cursor, undefined (None) outside the array |
| ServerHandler.AttemptingQuestionSet.AddQuestion | frontend/serverHandler.js:65-67 | the question is appended; cursor and score kept |
| ServerHandler.AttemptingQuestionSet.GetNextQuestion | frontend/serverHandler.js:69-76 | null with the cursor unchanged at the end; otherwise the question at the cursor and the cursor moves on by exactly one; returns a question iff there was a next one |
| ServerHandler.QuestionSet.constructor | frontend/serverHandler.js:80-85 | a new set starts with its cursor at 0 |
| ServerHandler.QuestionSet.AddQuestion | frontend/serverHandler.js:99-101 | the question is appended; cursor kept |
| ServerHandler.QuestionSet.GetNextQuestion | frontend/serverHandler.js:103-111 | null with the cursor unchanged at the end; otherwise the question at the cursor and the cursor moves on by exactly one; the cursor stays in range |
| QuestionCreation.QuestionSet.AddQuestion | frontend/question_creation.js:48-50 | the question is appended |
| QuestionCreation.Without | frontend/question_creation.js:132-134 | reference definition of the filter, with no contract of its own: the drafts other than the deleted one, in order; `WithoutMembers`, `WithoutConcat` and `WithoutAbsent` state its properties |
| QuestionCreation.WithoutMembers | frontend/question_creation.js:132-134 | after deletion exactly the other drafts remain |
| QuestionCreation.WithoutConcat | frontend/question_creation.js:132-134 | deletion works piece by piece, so the remaining drafts keep their order |
| QuestionCreation.WithoutAbsent | frontend/question_creation.js:132-134 | deleting a draft that is not listed changes nothing |
| QuestionCreation.CreationPage.AddQ | frontend/question_creation.js:91-100 | the new draft is appended |
| QuestionCreation.CreationPage.Delete | frontend/question_creation.js:132-134 | the filter removes exactly that draft object, keeping the others in order |
| QuestionCreation.CreationPage.SubmitQs | frontend/question_creation.js:73-77 | one question per draft, in order, id "temp", source "custom question", fields from the draft |
| QuestionCreation.Split | frontend/question_creation.js:153 | split always gives at least one segment |
| QuestionCreation.SplitJoin | frontend/question_creation.js:153 | the segments joined by ';' give the cookie back, and no segment holds ';' |
| QuestionCreation.TrimLeftSuffix | frontend/question_creation.js:156-158 | the trimmed segment is a suffix that drops only spaces, all of the leading ones |
| QuestionCreation.CookieValue | frontend/question_creation.js:154-163 | reference definition of getCookie's loop, with no contract of its own: the rest of the first segment that starts with `name=` once its leading spaces are dropped, "" when none does; `CookieValueFirstMatch`, `CookieValueNoMatch` and `GetCookie` state its properties |
| QuestionCreation.CookieValueFirstMatch | frontend/question_creation.js:154-161 | the first segment that starts with `name=` after trimming decides, and the rest of that segment is returned |
| QuestionCreation.CookieValueNoMatch | frontend/question_creation.js:163 | "" when no segment matches |
| QuestionCreation.OtherKeyNoMatch | frontend/question_creation.js:152-159 | because the prefix includes "=", a key never matches another key's segment (key "1" does not match "10=…") |
| QuestionCreation.GetCookie | frontend/question_creation.js:151-164 | the loop returns the value of the first matching segment, or "" |
| Strings.NatStringRoundTrip | backend/file_manager.py:181 | `str(i)` reads back as i |
| Strings.NatToStringInjective | backend/file_manager.py:181 | different numbers give different ids |

## Left out

- Lark parsing of the "prop" and "bool" grammars (backend/logic_engine.py:5-33). These grammars are ambiguous and declare no precedence, and Lark's Earley tie-breaking decides the tree. The two parsers are parameters (`string -> Option<Formula>`). Only the DNF grammar is parsed in the model.
- Randomness (`random.randint`, `random.sample`, `random.shuffle`, `random.choice`). Every choice is an input; distributions are not modelled.
- File and JSON I/O: `retrieve_from_file`'s `open`/`json.load`, `write_to_file`, `json.loads`/`dumps`, `to_json_string`, and the `os.path.isfile` retry loop of `__generate_unique_set_id`. Decoded JSON is given as string-valued dictionaries, and the "questions" list of a set dictionary is assumed present.
- `FileManager.write_to_file`: only its `set_id` step is modelled (`QuestionSet.SetId`).
- `main.py`: Flask routing only.
- Frontend plumbing: the jQuery `$.ajax` calls, `getQuestionSet`/`getRandomQuestionSet`/`getQuestionAnswer`, DOM table manipulation in `add_q`, `localStorage`, `alert`, page navigation, `console.log`, `to_json`/`to_json_string`, and `add_cookie`'s `Date`/`document.cookie` write. The cookie string and each draft's form values are inputs.
- TruthTable.GenTruthTable: takes the parsed tree instead of the formula string and grammar name, because parsing is a parameter. It requires a non-empty letter list without repeats. The generator always supplies one; with an empty list the source would index `letters[-1]` and raise.
- TruthTable.WriteRows: the order in which Python iterates a set is not modelled. The body is proved to list each row once, in some order.
- Translation.TranslateFormula: takes the parsed tree and the phrase index, because parsing and `random.randint` are parameters.
- Generator.GenerateQuestion: the letter list that `gen_prop`/`gen_bool` return with `list(letters)` has an unspecified order, so the prompt is stated for some repeat-free list of the formula's letters. A failure to parse the generated formula again is a `Failure` here; in the source it is an exception. The generated formula is not part of a failure, so the exact failure condition is stated by `Generator.QuestionPrompt`, which takes the formula and its letters, and not by this method.
- FileManager.GenerateRandomQuestions: takes the generated tuples as a sequence instead of calling `generate_question` once per iteration.
- FileManager.ShuffleAnswer: requires the shuffled characters to be a rearrangement of the compacted answer, which is the guarantee `random.shuffle` gives.
- The LaTeX operator rewriting is modelled as plain string replacement. Only the facts that no `^`, `-`, `<` or `.` remains are proved about it.
- JavaScript's loose typing: the cursor and score are integers, and reading past the end of an array (undefined) is `None`, as is `null`.
