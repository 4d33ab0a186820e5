/**
  frontend/serverHandler.js: the question sets the answering page works
  through. A set keeps a cursor into its questions and, while a set is being
  attempted, a score. A JavaScript read past the end of the array is
  undefined; here it is None.
*/
module ServerHandler {
  import opened Wrappers
  import opened Questions

  /** AttemptingQuestionSet: a set being answered, with its cursor and score
      restored from the server. */
  class AttemptingQuestionSet {
    const id: string
    const name: string
    var questions: seq<Question>
    var currentQuestionIndex: int
    var score: int

    /** The cursor points at a question or just past the last one. */
    ghost predicate CursorInRange()
      reads this
    {
      0 <= currentQuestionIndex <= |questions|
    }

    constructor(identifier: string, setName: string, qs: seq<Question>, currentIndex: int, currentScore: int)
      ensures id == identifier && name == setName && questions == qs
      ensures currentQuestionIndex == currentIndex && score == currentScore
    {
      id := identifier;
      name := setName;
      questions := qs;
      currentQuestionIndex := currentIndex;
      score := currentScore;
    }

    /** increase_score: one more point, nothing else changes. */
    method IncreaseScore()
      modifies this
      ensures score == old(score) + 1
      ensures questions == old(questions) && currentQuestionIndex == old(currentQuestionIndex)
    {
      score := score + 1;
    }

    /** hasNextQuestion: the cursor has not passed the last question. A
        cursor restored as a negative number also reads as having a next
        question, since `index < length` holds there. */
    function HasNextQuestion(): (b: bool)
      reads this
      ensures CursorInRange() ==> (b <==> currentQuestionIndex != |questions|)
      ensures b ==> currentQuestionIndex < |questions|
      ensures currentQuestionIndex < 0 ==> b
    {
      currentQuestionIndex < |questions|
    }

    /** viewNextQuestion: the question at the cursor, None past either end. */
    function ViewNextQuestion(): (r: Option<Question>)
      reads this
      ensures r.Some? <==> 0 <= currentQuestionIndex < |questions|
      ensures r.Some? ==> r.value in questions
    {
      if 0 <= currentQuestionIndex < |questions| then Some(questions[currentQuestionIndex]) else None
    }

    /** add_question: the question goes to the end. */
    method AddQuestion(q: Question)
      modifies this
      ensures questions == old(questions) + [q]
      ensures currentQuestionIndex == old(currentQuestionIndex) && score == old(score)
    {
      questions := questions + [q];
    }

    /** get_next_question: at the end, null and the cursor stays; otherwise
        the question at the cursor, and the cursor moves on by one. */
    method GetNextQuestion() returns (r: Option<Question>)
      modifies this
      ensures questions == old(questions) && score == old(score)
      ensures old(currentQuestionIndex) >= |questions| ==> r.None? && currentQuestionIndex == old(currentQuestionIndex)
      ensures old(currentQuestionIndex) < |questions| ==>
                r == old(ViewNextQuestion()) && currentQuestionIndex == old(currentQuestionIndex) + 1
      ensures old(CursorInRange()) ==> CursorInRange() && (r.Some? <==> old(HasNextQuestion()))
    {
      if currentQuestionIndex >= |questions| {
        return None;
      }
      r := if 0 <= currentQuestionIndex then Some(questions[currentQuestionIndex]) else None;
      currentQuestionIndex := currentQuestionIndex + 1;
    }
  }

  /** QuestionSet: a set fetched for answering, with its cursor at the
      first question. */
  class QuestionSet {
    const id: string
    const name: string
    var questions: seq<Question>
    var currentQuestionIndex: int

    ghost predicate CursorInRange()
      reads this
    {
      0 <= currentQuestionIndex <= |questions|
    }

    constructor(identifier: string, setName: string, qs: seq<Question>)
      ensures id == identifier && name == setName && questions == qs
      ensures currentQuestionIndex == 0 && CursorInRange()
    {
      id := identifier;
      name := setName;
      questions := qs;
      currentQuestionIndex := 0;
    }

    /** add_question: the question goes to the end. */
    method AddQuestion(q: Question)
      modifies this
      ensures questions == old(questions) + [q] && currentQuestionIndex == old(currentQuestionIndex)
    {
      questions := questions + [q];
    }

    /** get_next_question, as for AttemptingQuestionSet. */
    method GetNextQuestion() returns (r: Option<Question>)
      modifies this
      ensures questions == old(questions)
      ensures old(currentQuestionIndex) >= |questions| ==> r.None? && currentQuestionIndex == old(currentQuestionIndex)
      ensures old(CursorInRange()) && old(currentQuestionIndex) < |questions| ==>
                r == Some(questions[old(currentQuestionIndex)]) && currentQuestionIndex == old(currentQuestionIndex) + 1
      ensures old(currentQuestionIndex) < 0 ==> r.None? && currentQuestionIndex == old(currentQuestionIndex) + 1
      ensures old(CursorInRange()) ==> CursorInRange()
    {
      if currentQuestionIndex >= |questions| {
        return None;
      }
      r := if 0 <= currentQuestionIndex then Some(questions[currentQuestionIndex]) else None;
      currentQuestionIndex := currentQuestionIndex + 1;
    }
  }
}
