/**
  backend/file_manager.py: a question set keeps its question ids pairwise
  distinct, questions are looked up by id, question sets are built from
  decoded JSON dictionaries (renumbering the ids when the JSON comes from the
  question creation page), random question sets map the generator's tuples to
  questions, and answers are hidden before a set is served. Reading and
  writing files and decoding JSON are not modelled: decoded JSON is given as
  string-valued dictionaries.
*/
module FileManager {
  import opened Wrappers
  import opened Strings
  import opened Questions

  /** NonUniqueQuestionIdError, InvalidJsonFormatError, and a KeyError the
      source does not catch. */
  datatype Error = NonUniqueQuestionId | InvalidJsonFormat | MissingKey(key: string)

  /** Some question has the id. */
  predicate HasId(qs: seq<Question>, identifier: string)
  {
    exists k | 0 <= k < |qs| :: qs[k].id == identifier
  }

  /** No two questions share an id. */
  ghost predicate IdsDistinct(qs: seq<Question>)
  {
    forall j, k :: 0 <= j < k < |qs| ==> qs[j].id != qs[k].id
  }

  /** The first question with the id, or None when none has it. */
  function Lookup(qs: seq<Question>, identifier: string): (r: Option<Question>)
    ensures r.None? <==> !HasId(qs, identifier)
    ensures r.Some? ==> exists k :: 0 <= k < |qs| && qs[k] == r.value && r.value.id == identifier &&
                                    forall j :: 0 <= j < k ==> qs[j].id != identifier
  {
    if |qs| == 0 then None
    else if qs[0].id == identifier then Some(qs[0])
    else
      var r := Lookup(qs[1..], identifier);
      assert HasId(qs, identifier) <==> HasId(qs[1..], identifier) by {
        if HasId(qs, identifier) {
          var k :| 0 <= k < |qs| && qs[k].id == identifier;
          assert qs[1..][k - 1].id == identifier;
        }
        if HasId(qs[1..], identifier) {
          var k :| 0 <= k < |qs| - 1 && qs[1..][k].id == identifier;
          assert qs[k + 1].id == identifier;
        }
      }
      if r.Some? then
        assert exists k :: 0 <= k < |qs| && qs[k] == r.value && r.value.id == identifier &&
                           forall j :: 0 <= j < k ==> qs[j].id != identifier by {
          var k :| 0 <= k < |qs| - 1 && qs[1..][k] == r.value && r.value.id == identifier &&
                   forall j :: 0 <= j < k ==> qs[1..][j].id != identifier;
          assert forall j :: 0 <= j < k + 1 ==> qs[j].id != identifier by {
            forall j | 0 <= j < k + 1 ensures qs[j].id != identifier {
              if j > 0 {
                assert qs[j] == qs[1..][j - 1];
              }
            }
          }
          assert qs[k + 1] == r.value;
        }
        r
      else
        r
  }

  /** With distinct ids, the lookup finds the one question with that id. */
  lemma LookupUnique(qs: seq<Question>, k: nat)
    requires IdsDistinct(qs) && k < |qs|
    ensures Lookup(qs, qs[k].id) == Some(qs[k])
  {
    var r := Lookup(qs, qs[k].id);
    assert HasId(qs, qs[k].id);
    var m :| 0 <= m < |qs| && qs[m] == r.value && r.value.id == qs[k].id &&
             forall j :: 0 <= j < m ==> qs[j].id != qs[k].id;
    assert m == k;
  }

  /** A question appended under a new id is found under that id, and every
      other lookup is unaffected. */
  lemma {:induction false} LookupAppend(qs: seq<Question>, q: Question, identifier: string)
    requires !HasId(qs, q.id)
    ensures Lookup(qs + [q], identifier) == if identifier == q.id then Some(q) else Lookup(qs, identifier)
  {
    if |qs| == 0 {
      assert qs + [q] == [q];
    } else {
      assert (qs + [q])[1..] == qs[1..] + [q];
      assert qs[0].id != q.id;
      LookupAppend(qs[1..], q, identifier);
    }
  }

  class QuestionSet {
    var id: string
    const name: string
    var questions: seq<Question>

    /** The ids of the questions are pairwise distinct. */
    ghost predicate Valid()
      reads this
    {
      IdsDistinct(questions)
    }

    /** A set with no questions yet. */
    constructor Empty(identifier: string, setName: string)
      ensures id == identifier && name == setName && questions == [] && Valid()
    {
      id := identifier;
      name := setName;
      questions := [];
    }

    /** __check_question_id_unique: no question has the id yet. */
    method CheckQuestionIdUnique(identifier: string) returns (unique: bool)
      ensures unique <==> !HasId(questions, identifier)
    {
      for k := 0 to |questions|
        invariant forall j :: 0 <= j < k ==> questions[j].id != identifier
      {
        if questions[k].id == identifier {
          return false;
        }
      }
      return true;
    }

    /** add_question: appends the question, or fails with
        NonUniqueQuestionId and leaves the set as it was when the id is
        already taken. */
    method AddQuestion(q: Question) returns (error: Option<Error>)
      requires Valid()
      modifies this
      ensures Valid() && id == old(id)
      ensures error.Some? <==> HasId(old(questions), q.id)
      ensures error.Some? ==> error.value == NonUniqueQuestionId && questions == old(questions)
      ensures error.None? ==> questions == old(questions) + [q]
    {
      var unique := CheckQuestionIdUnique(q.id);
      if !unique {
        return Some(NonUniqueQuestionId);
      }
      questions := questions + [q];
      return None;
    }

    /** set_id. */
    method SetId(identifier: string)
      modifies this
      ensures id == identifier && questions == old(questions)
    {
      id := identifier;
    }

    /** get_question_by_id: the first question with the id, or None. */
    method GetQuestionById(identifier: string) returns (r: Option<Question>)
      ensures r == Lookup(questions, identifier)
    {
      for k := 0 to |questions|
        invariant Lookup(questions, identifier) == Lookup(questions[k..], identifier)
      {
        assert questions[k..][1..] == questions[k + 1..];
        if questions[k].id == identifier {
          return Some(questions[k]);
        }
      }
      assert questions[|questions|..] == [];
      return None;
    }
  }

  /** QuestionSet(identifier, name, questions): add_question for each
      question in turn; the first repeated id aborts with
      NonUniqueQuestionId. */
  method NewQuestionSet(identifier: string, setName: string, qs: seq<Question>) returns (r: Result<QuestionSet, Error>)
    ensures r.Failure? <==> !IdsDistinct(qs)
    ensures r.Failure? ==> r.error == NonUniqueQuestionId
    ensures r.Success? ==> fresh(r.value) && r.value.Valid() && r.value.id == identifier &&
                           r.value.name == setName && r.value.questions == qs
  {
    var s := new QuestionSet.Empty(identifier, setName);
    for k := 0 to |qs|
      invariant s.questions == qs[..k] && s.Valid() && s.id == identifier && s.name == setName
    {
      var error := s.AddQuestion(qs[k]);
      if error.Some? {
        var j :| 0 <= j < k && qs[..k][j].id == qs[k].id;
        assert qs[j].id == qs[k].id;
        return Failure(error.value);
      }
      assert qs[..k + 1] == qs[..k] + [qs[k]];
    }
    assert qs[..|qs|] == qs;
    return Success(s);
  }

  /** The keys of a question dictionary, as Question.to_dict writes them. */
  const QuestionKeys: set<string> := {"id", "source", "prompt", "input_method", "correct_grammar",
                                      "correct_formula", "prohibited_formula"}

  /** Question.to_dict. */
  function ToDict(q: Question): (d: map<string, string>)
    ensures d.Keys == QuestionKeys
  {
    map["id" := q.id, "source" := q.source, "prompt" := q.prompt, "input_method" := q.inputMethod,
        "correct_grammar" := q.correctGrammar, "correct_formula" := q.correctFormula,
        "prohibited_formula" := q.prohibitedFormula]
  }

  /** The Question a dictionary describes; a missing key is the KeyError
      that dict_to_question_set reports as InvalidJsonFormat. */
  function QuestionOfDict(d: map<string, string>): (r: Result<Question, Error>)
    ensures r.Success? <==> QuestionKeys <= d.Keys
    ensures r.Failure? ==> r.error == InvalidJsonFormat
  {
    if QuestionKeys <= d.Keys then
      Success(Question(d["id"], d["source"], d["prompt"], d["input_method"], d["correct_grammar"],
                       d["correct_formula"], d["prohibited_formula"]))
    else Failure(InvalidJsonFormat)
  }

  /** Reading back what to_dict wrote gives the question again. */
  lemma DictRoundTrip(q: Question)
    ensures QuestionOfDict(ToDict(q)) == Success(q)
  {
  }

  /** A question read from a dictionary writes back to the same entries. */
  lemma DictOfQuestion(d: map<string, string>)
    requires QuestionKeys <= d.Keys
    ensures forall key :: key in QuestionKeys ==> ToDict(QuestionOfDict(d).value)[key] == d[key]
  {
  }

  /** The list comprehension of dict_to_question_set: every dictionary
      converted in order, or InvalidJsonFormat. */
  function QuestionsOfDicts(ds: seq<map<string, string>>): (r: Result<seq<Question>, Error>)
    ensures r.Success? <==> forall k :: 0 <= k < |ds| ==> QuestionKeys <= ds[k].Keys
    ensures r.Failure? ==> r.error == InvalidJsonFormat
    ensures r.Success? ==> |r.value| == |ds| && forall k :: 0 <= k < |ds| ==> QuestionOfDict(ds[k]) == Success(r.value[k])
  {
    if |ds| == 0 then Success([])
    else
      match QuestionOfDict(ds[0])
      case Failure(e) => Failure(e)
      case Success(q) =>
        match QuestionsOfDicts(ds[1..])
        case Failure(e) =>
          assert exists k :: 1 <= k < |ds| && !(QuestionKeys <= ds[k].Keys) by {
            var k :| 0 <= k < |ds| - 1 && !(QuestionKeys <= ds[1..][k].Keys);
            assert ds[k + 1] == ds[1..][k];
          }
          Failure(e)
        case Success(rest) =>
          assert forall k :: 1 <= k < |ds| ==> ds[k] == ds[1..][k - 1];
          Success([q] + rest)
  }

  /** The set-level dictionary has "id" and "name" and every question
      dictionary has all question keys. */
  predicate WellFormed(fields: map<string, string>, ds: seq<map<string, string>>)
  {
    "id" in fields && "name" in fields && QuestionsOfDicts(ds).Success?
  }

  /** dict_to_question_set: InvalidJsonFormat when a key is missing;
      otherwise the constructor's NonUniqueQuestionId when two questions
      share an id; otherwise the set. */
  method DictToQuestionSet(fields: map<string, string>, ds: seq<map<string, string>>) returns (r: Result<QuestionSet, Error>)
    ensures r == Failure(InvalidJsonFormat) <==> !WellFormed(fields, ds)
    ensures r == Failure(NonUniqueQuestionId) <==> WellFormed(fields, ds) && !IdsDistinct(QuestionsOfDicts(ds).value)
    ensures r.Failure? ==> r.error == InvalidJsonFormat || r.error == NonUniqueQuestionId
    ensures r.Success? ==> WellFormed(fields, ds) && fresh(r.value) && r.value.Valid() &&
                           r.value.id == fields["id"] && r.value.name == fields["name"] &&
                           r.value.questions == QuestionsOfDicts(ds).value
  {
    if !("id" in fields && "name" in fields) {
      return Failure(InvalidJsonFormat);
    }
    var qs := QuestionsOfDicts(ds);
    if qs.Failure? {
      return Failure(InvalidJsonFormat);
    }
    r := NewQuestionSet(fields["id"], fields["name"], qs.value);
  }

  /** Distinct numbers give distinct ids. */
  lemma NumberedIdsDistinct(qs: seq<Question>)
    requires forall k :: 0 <= k < |qs| ==> qs[k].id == NatToString(k)
    ensures IdsDistinct(qs)
  {
    forall j, k | 0 <= j < k < |qs| ensures qs[j].id != qs[k].id {
      NatToStringInjective(j, k);
    }
  }

  /** json_to_question_set: the question dictionaries get the ids
      "0", "1", ... in list order, in place, and the set is built from them,
      so it never fails with NonUniqueQuestionId. */
  method JsonToQuestionSet(fields: map<string, string>, ds: array<map<string, string>>) returns (r: Result<QuestionSet, Error>)
    modifies ds
    ensures forall i :: 0 <= i < ds.Length ==> ds[i] == old(ds[i])["id" := NatToString(i)]
    ensures r.Failure? ==> r.error == InvalidJsonFormat
    ensures r.Failure? <==> !WellFormed(fields, ds[..])
    ensures r.Success? ==> fresh(r.value) && r.value.Valid() && |r.value.questions| == ds.Length &&
                           forall i :: 0 <= i < ds.Length ==> r.value.questions[i].id == NatToString(i)
    ensures r.Success? ==> WellFormed(fields, ds[..]) &&
                           r.value.id == fields["id"] && r.value.name == fields["name"] &&
                           r.value.questions == QuestionsOfDicts(ds[..]).value
  {
    for i := 0 to ds.Length
      invariant forall j :: 0 <= j < i ==> ds[j] == old(ds[j])["id" := NatToString(j)]
      invariant forall j :: i <= j < ds.Length ==> ds[j] == old(ds[j])
    {
      ds[i] := ds[i]["id" := NatToString(i)];
    }
    var qs := QuestionsOfDicts(ds[..]);
    if qs.Success? {
      forall k | 0 <= k < |qs.value| ensures qs.value[k].id == NatToString(k) {
        assert QuestionOfDict(ds[..][k]) == Success(qs.value[k]);
      }
      NumberedIdsDistinct(qs.value);
    }
    r := DictToQuestionSet(fields, ds[..]);
  }

  /** The Question generate_random_questions makes of the i-th tuple
      (grammar, formula, prohibited formula, prompt, input method). */
  function RandomQuestion(i: nat, t: (string, string, string, string, string)): Question
  {
    Question(NatToString(i), "randomly generated", t.3, t.4, t.0, t.1, t.2)
  }

  /** generate_random_questions: one question per generated tuple, numbered
      from "0", added without ever hitting a repeated id. */
  method GenerateRandomQuestions(count: nat, generated: seq<(string, string, string, string, string)>) returns (s: QuestionSet)
    requires |generated| == count
    ensures fresh(s) && s.Valid() && s.id == "temp" && s.name == "Random Question Set"
    ensures |s.questions| == count
    ensures forall i :: 0 <= i < count ==>
              var q := s.questions[i];
              q.id == NatToString(i) && q.source == "randomly generated" && q.prompt == generated[i].3 &&
              q.inputMethod == generated[i].4 && q.correctGrammar == generated[i].0 &&
              q.correctFormula == generated[i].1 && q.prohibitedFormula == generated[i].2
  {
    s := new QuestionSet.Empty("temp", "Random Question Set");
    for i := 0 to count
      invariant s.Valid() && s.id == "temp" && s.name == "Random Question Set"
      invariant |s.questions| == i && forall j :: 0 <= j < i ==> s.questions[j] == RandomQuestion(j, generated[j])
    {
      var q := RandomQuestion(i, generated[i]);
      assert !HasId(s.questions, q.id) by {
        forall j | 0 <= j < i ensures s.questions[j].id != q.id {
          NatToStringInjective(j, i);
        }
      }
      var error := s.AddQuestion(q);
    }
  }

  // __shuffle_answer

  /** The answer with each arrow made one character and the spaces removed. */
  function Compact(answer: string): string
  {
    ReplaceAll(ReplaceAll(ReplaceAll(ReplaceAll(answer, "<->", "\U{2194}"), "->", "\U{2192}"), "<-", "\U{2190}"), " ", "")
  }

  /** Each arrow character made an arrow again. */
  function Restore(s: string): string
  {
    ReplaceAll(ReplaceAll(ReplaceAll(s, "\U{2194}", "<->"), "\U{2192}", "->"), "\U{2190}", "<-")
  }

  /** Python's s.replace("", " "): a space before, between and after the
      characters. */
  function InsertSpaces(s: string): string
  {
    if |s| == 0 then " " else " " + [s[0]] + InsertSpaces(s[1..])
  }

  /** Python's s[1:-1]. */
  function Inner(s: string): string
  {
    if |s| >= 2 then s[1..|s| - 1] else ""
  }

  /** __shuffle_answer, with the order random.shuffle chooses given as the
      rearranged characters. */
  function ShuffleAnswer(answer: string, shuffled: string): string
    requires multiset(shuffled) == multiset(Compact(answer))
  {
    Restore(Inner(InsertSpaces(shuffled)))
  }

  /** The tokens joined by single spaces. */
  function JoinSpace(ts: seq<string>): string
  {
    if |ts| == 0 then "" else if |ts| == 1 then ts[0] else ts[0] + " " + JoinSpace(ts[1..])
  }

  /** The token each character of a compacted answer stands for. */
  function Tokens(cs: string): (ts: seq<string>)
    ensures |ts| == |cs|
  {
    seq(|cs|, i requires 0 <= i < |cs| => Restore([cs[i]]))
  }

  lemma NoSpaceLeft(answer: string)
    ensures ' ' !in Compact(answer)
  {
    assert " " == [' '];
    ReplaceAllRemoves(ReplaceAll(ReplaceAll(ReplaceAll(answer, "<->", "\U{2194}"), "->", "\U{2192}"), "<-", "\U{2190}"), ' ', "");
  }

  /** Each character stands for itself, except that the three arrow
      characters stand for "<->", "->" and "<-". */
  lemma TokenOf(c: char)
    ensures Restore([c]) == if c == '\U{2194}' then "<->" else if c == '\U{2192}' then "->" else if c == '\U{2190}' then "<-" else [c]
  {
    if c == '\U{2194}' {
      RestoreIff();
    } else if c == '\U{2192}' {
      RestoreImplies();
    } else if c == '\U{2190}' {
      RestoreImpliedBy();
    } else {
      RestorePlain(c);
    }
  }

  lemma RestoreIff()
    ensures Restore("\U{2194}") == "<->"
  {
    assert "\U{2194}"[..1] == "\U{2194}" && "\U{2194}"[1..] == [];
    ReplaceAllAbsent("<->", '\U{2192}', "->");
    ReplaceAllAbsent("<->", '\U{2190}', "<-");
  }

  lemma RestoreImplies()
    ensures Restore("\U{2192}") == "->"
  {
    assert "\U{2192}"[..1] == "\U{2192}" && "\U{2192}"[1..] == [];
    ReplaceAllAbsent("\U{2192}", '\U{2194}', "<->");
    ReplaceAllAbsent("->", '\U{2190}', "<-");
  }

  lemma RestoreImpliedBy()
    ensures Restore("\U{2190}") == "<-"
  {
    assert "\U{2190}"[..1] == "\U{2190}" && "\U{2190}"[1..] == [];
    ReplaceAllAbsent("\U{2190}", '\U{2194}', "<->");
    ReplaceAllAbsent("\U{2190}", '\U{2192}', "->");
  }

  lemma RestorePlain(c: char)
    requires c != '\U{2194}' && c != '\U{2192}' && c != '\U{2190}'
    ensures Restore([c]) == [c]
  {
    ReplaceAllAbsent([c], '\U{2194}', "<->");
    ReplaceAllAbsent([c], '\U{2192}', "->");
    ReplaceAllAbsent([c], '\U{2190}', "<-");
  }

  lemma RestoreConcat(a: string, b: string)
    ensures Restore(a + b) == Restore(a) + Restore(b)
  {
    ReplaceAllConcat(a, b, '\U{2194}', "<->");
    ReplaceAllConcat(ReplaceAll(a, "\U{2194}", "<->"), ReplaceAll(b, "\U{2194}", "<->"), '\U{2192}', "->");
    ReplaceAllConcat(ReplaceAll(ReplaceAll(a, "\U{2194}", "<->"), "\U{2192}", "->"),
                     ReplaceAll(ReplaceAll(b, "\U{2194}", "<->"), "\U{2192}", "->"), '\U{2190}', "<-");
  }

  /** Inserting spaces and cutting the outer two is joining the characters
      by single spaces. */
  lemma {:induction false} InnerSpaces(cs: string)
    ensures Inner(InsertSpaces(cs)) == JoinSpace(seq(|cs|, i requires 0 <= i < |cs| => [cs[i]]))
  {
    if |cs| == 1 {
      assert InsertSpaces(cs) == " " + [cs[0]] + " ";
    } else if |cs| > 1 {
      InnerSpaces(cs[1..]);
      var rest := InsertSpaces(cs[1..]);
      assert |rest| >= 2;
      assert InsertSpaces(cs) == " " + [cs[0]] + rest;
      assert Inner(InsertSpaces(cs)) == [cs[0]] + " " + Inner(rest);
      assert seq(|cs| - 1, i requires 0 <= i < |cs| - 1 => [cs[1..][i]]) ==
             seq(|cs|, i requires 0 <= i < |cs| => [cs[i]])[1..];
    }
  }

  /** Restoring the arrows of joined tokens restores each token. */
  lemma {:induction false} RestoreJoin(ts: seq<string>)
    ensures Restore(JoinSpace(ts)) == JoinSpace(seq(|ts|, i requires 0 <= i < |ts| => Restore(ts[i])))
  {
    if |ts| > 1 {
      RestoreJoin(ts[1..]);
      RestoreConcat(ts[0] + " ", JoinSpace(ts[1..]));
      RestoreConcat(ts[0], " ");
      assert Restore(" ") == " " by {
        assert " "[..1] == " " && " "[1..] == [];
      }
      assert seq(|ts| - 1, i requires 0 <= i < |ts| - 1 => Restore(ts[1..][i])) ==
             seq(|ts|, i requires 0 <= i < |ts| => Restore(ts[i]))[1..];
    }
  }

  lemma TokensConcat(a: string, b: string)
    ensures Tokens(a + b) == Tokens(a) + Tokens(b)
  {
  }

  /** Rearranging the characters rearranges their tokens. */
  lemma {:induction false} TokensPermute(cs: string, ds: string)
    requires multiset(cs) == multiset(ds)
    ensures multiset(Tokens(cs)) == multiset(Tokens(ds))
    decreases |cs|
  {
    if |cs| > 0 {
      var x := cs[0];
      assert x in multiset(ds);
      var j :| 0 <= j < |ds| && ds[j] == x;
      var rest := ds[..j] + ds[j + 1..];
      assert ds == ds[..j] + [x] + ds[j + 1..];
      assert cs == [x] + cs[1..];
      assert multiset(ds) == multiset(ds[..j]) + multiset([x]) + multiset(ds[j + 1..]);
      assert multiset(cs) == multiset([x]) + multiset(cs[1..]);
      assert multiset(rest) == multiset(ds[..j]) + multiset(ds[j + 1..]);
      assert multiset(rest) == multiset(ds) - multiset([x]);
      assert multiset(cs[1..]) == multiset(cs) - multiset([x]);
      TokensPermute(cs[1..], rest);
      TokensConcat(ds[..j] + [x], ds[j + 1..]);
      TokensConcat(ds[..j], [x]);
      TokensConcat(ds[..j], ds[j + 1..]);
      TokensConcat([x], cs[1..]);
    }
  }

  /** __shuffle_answer keeps its tokens: the result is the tokens of the
      compacted answer, each arrow one token and no token blank, in the
      shuffled order and separated by single spaces. */
  lemma ShuffleKeepsTokens(answer: string, shuffled: string)
    requires multiset(shuffled) == multiset(Compact(answer))
    ensures ShuffleAnswer(answer, shuffled) == JoinSpace(Tokens(shuffled))
    ensures multiset(Tokens(shuffled)) == multiset(Tokens(Compact(answer)))
    ensures |Tokens(shuffled)| == |Compact(answer)|
    ensures forall k :: 0 <= k < |shuffled| ==> |Tokens(shuffled)[k]| > 0 && ' ' !in Tokens(shuffled)[k]
  {
    var singles := seq(|shuffled|, i requires 0 <= i < |shuffled| => [shuffled[i]]);
    InnerSpaces(shuffled);
    RestoreJoin(singles);
    assert seq(|singles|, i requires 0 <= i < |singles| => Restore(singles[i])) == Tokens(shuffled);
    TokensPermute(shuffled, Compact(answer));
    assert |multiset(shuffled)| == |multiset(Compact(answer))|;
    NoSpaceLeft(answer);
    forall k | 0 <= k < |shuffled|
      ensures |Tokens(shuffled)[k]| > 0 && ' ' !in Tokens(shuffled)[k]
    {
      assert shuffled[k] in multiset(Compact(answer));
      TokenOf(shuffled[k]);
    }
  }

  // hiding the answers in retrieve_from_file

  /** The dictionary has the keys the hiding rule reads. */
  predicate Readable(q: map<string, string>)
  {
    "input_method" in q && (q["input_method"] == "Blocks" ==> "correct_formula" in q)
  }

  /** The shuffled characters rearrange the answer of a "Blocks" question. */
  ghost predicate ShuffleFits(q: map<string, string>, shuffled: string)
  {
    Readable(q) && q["input_method"] == "Blocks" ==> multiset(shuffled) == multiset(Compact(q["correct_formula"]))
  }

  /** The hiding rule: a "Text" answer becomes "", a "Blocks" answer is
      shuffled, anything else stays. */
  function Hidden(q: map<string, string>, shuffled: string): map<string, string>
    requires Readable(q) && ShuffleFits(q, shuffled)
  {
    if q["input_method"] == "Text" then q["correct_formula" := ""]
    else if q["input_method"] == "Blocks" then q["correct_formula" := ShuffleAnswer(q["correct_formula"], shuffled)]
    else q
  }

  /** Hiding touches only the answer: "" for "Text", the answer's tokens in
      shuffled order for "Blocks", nothing for any other input method. */
  lemma HiddenOnlyAnswer(q: map<string, string>, shuffled: string)
    requires Readable(q) && ShuffleFits(q, shuffled)
    ensures forall key :: key != "correct_formula" ==> (key in Hidden(q, shuffled) <==> key in q)
    ensures forall key :: key != "correct_formula" && key in q ==> Hidden(q, shuffled)[key] == q[key]
    ensures q["input_method"] == "Text" ==> Hidden(q, shuffled)["correct_formula"] == ""
    ensures q["input_method"] == "Blocks" ==>
              Hidden(q, shuffled)["correct_formula"] == JoinSpace(Tokens(shuffled)) &&
              multiset(Tokens(shuffled)) == multiset(Tokens(Compact(q["correct_formula"])))
    ensures q["input_method"] != "Text" && q["input_method"] != "Blocks" ==> Hidden(q, shuffled) == q
  {
    if q["input_method"] == "Blocks" {
      ShuffleKeepsTokens(q["correct_formula"], shuffled);
    }
  }

  /** The hiding loop of retrieve_from_file, in place. A dictionary without
      "input_method", or a "Blocks" one without "correct_formula", raises a
      KeyError there; the dictionaries before it are already hidden and the
      rest are untouched. */
  method HideAnswers(ds: array<map<string, string>>, shuffles: seq<string>) returns (error: Option<Error>)
    requires |shuffles| == ds.Length
    requires forall k :: 0 <= k < ds.Length ==> ShuffleFits(ds[k], shuffles[k])
    modifies ds
    ensures error.None? <==> forall k :: 0 <= k < ds.Length ==> Readable(old(ds[k]))
    ensures error.Some? ==> error.value.MissingKey?
    ensures forall k :: 0 <= k < ds.Length ==>
              ds[k] == if forall j :: 0 <= j <= k ==> Readable(old(ds[j])) then Hidden(old(ds[k]), shuffles[k]) else old(ds[k])
  {
    for i := 0 to ds.Length
      invariant forall j :: 0 <= j < i ==>
                  Readable(old(ds[j])) && ShuffleFits(old(ds[j]), shuffles[j]) && ds[j] == Hidden(old(ds[j]), shuffles[j])
      invariant forall j :: i <= j < ds.Length ==> ds[j] == old(ds[j])
    {
      if "input_method" !in ds[i] {
        return Some(MissingKey("input_method"));
      }
      if ds[i]["input_method"] == "Text" {
        ds[i] := ds[i]["correct_formula" := ""];
      } else if ds[i]["input_method"] == "Blocks" {
        if "correct_formula" !in ds[i] {
          return Some(MissingKey("correct_formula"));
        }
        ds[i] := ds[i]["correct_formula" := ShuffleAnswer(ds[i]["correct_formula"], shuffles[i])];
      }
    }
    return None;
  }

  /** retrieve_from_file once the file is decoded: the dictionaries are
      hidden in place when asked, then made into a set. */
  method RetrieveQuestionSet(fields: map<string, string>, ds: array<map<string, string>>, hideAnswer: bool,
                             shuffles: seq<string>) returns (r: Result<QuestionSet, Error>)
    requires |shuffles| == ds.Length
    requires forall k :: 0 <= k < ds.Length ==> ShuffleFits(ds[k], shuffles[k])
    modifies ds
    ensures !hideAnswer ==> forall k :: 0 <= k < ds.Length ==> ds[k] == old(ds[k])
    ensures hideAnswer && r.Success? ==> forall k :: 0 <= k < ds.Length ==>
              Readable(old(ds[k])) && ShuffleFits(old(ds[k]), shuffles[k]) && ds[k] == Hidden(old(ds[k]), shuffles[k])
    ensures (r.Failure? && r.error.MissingKey?) <==> hideAnswer && exists k :: 0 <= k < ds.Length && !Readable(old(ds[k]))
    ensures (!hideAnswer || forall k :: 0 <= k < ds.Length ==> Readable(old(ds[k]))) ==>
              (r == Failure(InvalidJsonFormat) <==> !WellFormed(fields, ds[..])) &&
              (r == Failure(NonUniqueQuestionId) <==> WellFormed(fields, ds[..]) && !IdsDistinct(QuestionsOfDicts(ds[..]).value))
    ensures r.Success? ==> fresh(r.value) && r.value.Valid() && WellFormed(fields, ds[..]) &&
                           r.value.id == fields["id"] && r.value.name == fields["name"] &&
                           r.value.questions == QuestionsOfDicts(ds[..]).value
  {
    if hideAnswer {
      var error := HideAnswers(ds, shuffles);
      if error.Some? {
        return Failure(error.value);
      }
    }
    r := DictToQuestionSet(fields, ds[..]);
  }
}
