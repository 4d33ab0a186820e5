/**
  frontend/question_creation.js: the page on which a teacher drafts
  questions, deletes drafts and submits them as a question set, and its
  cookie lookup. The page's form fields, table rows, the request to the
  server and the cookie jar itself are not modelled: a draft and the cookie
  string are inputs.
*/
module QuestionCreation {
  import opened Questions

  /** QuestionSet of the creation page: no id check, questions are pushed. */
  class QuestionSet {
    const id: string
    const name: string
    var questions: seq<Question>

    constructor(identifier: string, setName: string)
      ensures id == identifier && name == setName && questions == []
    {
      id := identifier;
      name := setName;
      questions := [];
    }

    /** add_question: the question goes to the end. */
    method AddQuestion(q: Question)
      modifies this
      ensures questions == old(questions) + [q]
    {
      questions := questions + [q];
    }
  }

  /** The object add_q builds from the form; drafts are compared by
      reference, as the filter in the delete button does. */
  class Draft {
    const title: string
    const prompt: string
    const grammar: string
    const formula: string
    const pformula: string
    const input: string

    constructor(t: string, p: string, g: string, f: string, pf: string, i: string)
      ensures title == t && prompt == p && grammar == g && formula == f && pformula == pf && input == i
    {
      title := t;
      prompt := p;
      grammar := g;
      formula := f;
      pformula := pf;
      input := i;
    }
  }

  /** The drafts other than d, in their order. */
  function Without(s: seq<Draft>, d: Draft): seq<Draft>
  {
    if |s| == 0 then []
    else Without(s[..|s| - 1], d) + (if s[|s| - 1] != d then [s[|s| - 1]] else [])
  }

  /** Deleting keeps exactly the other drafts... */
  lemma {:induction false} WithoutMembers(s: seq<Draft>, d: Draft)
    ensures forall x :: x in Without(s, d) <==> x in s && x != d
  {
    if |s| > 0 {
      WithoutMembers(s[..|s| - 1], d);
      assert s == s[..|s| - 1] + [s[|s| - 1]];
    }
  }

  /** ...in their order: deleting from a concatenation deletes from each part... */
  lemma {:induction false} WithoutConcat(a: seq<Draft>, b: seq<Draft>, d: Draft)
    ensures Without(a + b, d) == Without(a, d) + Without(b, d)
    decreases |b|
  {
    if |b| == 0 {
      assert a + b == a;
    } else {
      assert (a + b)[..|a + b| - 1] == a + b[..|b| - 1];
      WithoutConcat(a, b[..|b| - 1], d);
    }
  }

  /** ...and a draft that is not on the page leaves the list as it is. */
  lemma {:induction false} WithoutAbsent(s: seq<Draft>, d: Draft)
    requires d !in s
    ensures Without(s, d) == s
  {
    if |s| > 0 {
      assert d !in s[..|s| - 1];
      WithoutAbsent(s[..|s| - 1], d);
    }
  }

  /** The question submit_qs makes of a draft. */
  function CustomQuestion(d: Draft): Question
  {
    Question("temp", "custom question", d.prompt, d.input, d.grammar, d.formula, d.pformula)
  }

  /** The page's question_array. */
  class CreationPage {
    var questionArray: seq<Draft>

    constructor()
      ensures questionArray == []
    {
      questionArray := [];
    }

    /** add_q: the new draft goes to the end. */
    method AddQ(d: Draft)
      modifies this
      ensures questionArray == old(questionArray) + [d]
    {
      questionArray := questionArray + [d];
    }

    /** The delete button of a row: question_array.filter(value != question). */
    method Delete(d: Draft)
      modifies this
      ensures questionArray == Without(old(questionArray), d)
    {
      var kept: seq<Draft> := [];
      for i := 0 to |questionArray|
        invariant kept == Without(questionArray[..i], d)
      {
        assert questionArray[..i + 1][..i] == questionArray[..i];
        if questionArray[i] != d {
          kept := kept + [questionArray[i]];
        }
      }
      assert questionArray[..|questionArray|] == questionArray;
      questionArray := kept;
    }

    /** submit_qs: one question per draft, in order, all with id "temp" and
        source "custom question". */
    method SubmitQs(setName: string) returns (s: QuestionSet)
      ensures fresh(s) && s.id == "temp" && s.name == setName
      ensures |s.questions| == |questionArray|
      ensures forall i :: 0 <= i < |questionArray| ==> s.questions[i] == CustomQuestion(questionArray[i])
    {
      s := new QuestionSet("temp", setName);
      for i := 0 to |questionArray|
        invariant |s.questions| == i
        invariant forall j :: 0 <= j < i ==> s.questions[j] == CustomQuestion(questionArray[j])
      {
        s.AddQuestion(CustomQuestion(questionArray[i]));
      }
    }
  }

  // getCookie

  /** String.prototype.split with a one-character separator. */
  function Split(s: string, sep: char): (r: seq<string>)
    ensures |r| >= 1
  {
    if |s| == 0 then [""]
    else
      var rest := Split(s[1..], sep);
      if s[0] == sep then [""] + rest else [[s[0]] + rest[0]] + rest[1..]
  }

  /** The pieces joined back by the separator. */
  function Join(ss: seq<string>, sep: char): string
  {
    if |ss| == 0 then "" else if |ss| == 1 then ss[0] else ss[0] + [sep] + Join(ss[1..], sep)
  }

  /** Splitting loses nothing and no piece holds the separator. */
  lemma {:induction false} SplitJoin(s: string, sep: char)
    ensures Join(Split(s, sep), sep) == s
    ensures forall k :: 0 <= k < |Split(s, sep)| ==> sep !in Split(s, sep)[k]
  {
    if |s| > 0 {
      SplitJoin(s[1..], sep);
      var rest := Split(s[1..], sep);
      if s[0] == sep {
        assert s == [sep] + s[1..];
      } else {
        assert s == [s[0]] + s[1..];
        if |rest| > 1 {
          assert Join(rest, sep) == rest[0] + [sep] + Join(rest[1..], sep);
        }
      }
    }
  }

  /** The segment with its leading spaces removed. */
  function TrimLeft(c: string): string
  {
    if |c| > 0 && c[0] == ' ' then TrimLeft(c[1..]) else c
  }

  /** Trimming removes only leading spaces, and all of them. */
  lemma {:induction false} TrimLeftSuffix(c: string)
    ensures |TrimLeft(c)| <= |c| && TrimLeft(c) == c[|c| - |TrimLeft(c)|..]
    ensures forall k :: 0 <= k < |c| - |TrimLeft(c)| ==> c[k] == ' '
    ensures |TrimLeft(c)| > 0 ==> TrimLeft(c)[0] != ' '
  {
    if |c| > 0 && c[0] == ' ' {
      TrimLeftSuffix(c[1..]);
    }
  }

  /** c.indexOf(name) == 0. */
  predicate StartsWith(c: string, name: string)
  {
    |name| <= |c| && c[..|name|] == name
  }

  /** The value after name in the first segment that, trimmed, starts with
      name; "" when there is none. */
  function CookieValue(segments: seq<string>, name: string): string
  {
    if |segments| == 0 then ""
    else if StartsWith(TrimLeft(segments[0]), name) then TrimLeft(segments[0])[|name|..]
    else CookieValue(segments[1..], name)
  }

  /** The first matching segment decides. */
  lemma {:induction false} CookieValueFirstMatch(segments: seq<string>, name: string, k: nat)
    requires k < |segments| && StartsWith(TrimLeft(segments[k]), name)
    requires forall j :: 0 <= j < k ==> !StartsWith(TrimLeft(segments[j]), name)
    ensures CookieValue(segments, name) == TrimLeft(segments[k])[|name|..]
  {
    if k > 0 {
      assert !StartsWith(TrimLeft(segments[0]), name);
      CookieValueFirstMatch(segments[1..], name, k - 1);
    }
  }

  /** Without a matching segment the value is "". */
  lemma {:induction false} CookieValueNoMatch(segments: seq<string>, name: string)
    requires forall j :: 0 <= j < |segments| ==> !StartsWith(TrimLeft(segments[j]), name)
    ensures CookieValue(segments, name) == ""
  {
    if |segments| > 0 {
      CookieValueNoMatch(segments[1..], name);
    }
  }

  /** Because the name ends in "=", a segment for another key without "="
      never matches: key "1" is not found in "10=...". */
  lemma OtherKeyNoMatch(key: string, other: string, value: string)
    requires key != other && '=' !in key && '=' !in other
    ensures !StartsWith(other + "=" + value, key + "=")
  {
    var c := other + "=" + value;
    var name := key + "=";
    if |key| < |other| {
      assert c[|key|] == other[|key|] && name[|key|] == '=';
    } else if |key| > |other| && |name| <= |c| {
      assert c[|other|] == '=' && name[|other|] == key[|other|];
    } else if |key| == |other| {
      assert c[..|other|] == other && name[..|key|] == key;
    }
  }

  /** getCookie: the cookie string is split at ';', each segment loses its
      leading spaces, and the first one starting with question_number + "="
      gives the rest of the segment. */
  method GetCookie(cookie: string, questionNumber: string) returns (r: string)
    ensures r == CookieValue(Split(cookie, ';'), questionNumber + "=")
  {
    var name := questionNumber + "=";
    var ca := Split(cookie, ';');
    for i := 0 to |ca|
      invariant CookieValue(ca, name) == CookieValue(ca[i..], name)
    {
      var c := ca[i];
      while |c| > 0 && c[0] == ' '
        invariant TrimLeft(c) == TrimLeft(ca[i])
      {
        c := c[1..];
      }
      assert ca[i..][1..] == ca[i + 1..];
      if StartsWith(c, name) {
        return c[|name|..];
      }
    }
    assert ca[|ca|..] == [];
    return "";
  }
}
