/**
  translate_formula of backend/logic_engine.py: each letter stands for one of
  two phrases of a phrase pair chosen at random (here the index `p`), a
  Transformer turns the tree into an English sentence, and a legend naming
  the phrase of each letter is put in front.
*/
module Translation {
  import opened Formulas

  const Phrases: seq<(string, string)> :=
    [("it is dark", "it is night"), ("it is snowing", "it is cold"), ("it is late", "I am tired")]
  const PhrasesNegative: seq<(string, string)> :=
    [("it is not dark", "it is not night"), ("it is not snowing", "it is not cold"),
     ("it is not late", "I am not tired")]

  /** phrases[p][k] and phrases_negative[p][k]: a pair has two entries, so a
      letter at index 2 or later is an IndexError in the source. */
  function Phrase(p: nat, k: nat): string
    requires p < |Phrases| && k < 2
  {
    if k == 0 then Phrases[p].0 else Phrases[p].1
  }

  function NegativePhrase(p: nat, k: nat): string
    requires p < |PhrasesNegative| && k < 2
  {
    if k == 0 then PhrasesNegative[p].0 else PhrasesNegative[p].1
  }

  /** list.index: the position of the first occurrence. */
  function IndexOf(letters: seq<char>, c: char): (k: nat)
    requires c in letters
    ensures k < |letters| && letters[k] == c
    ensures forall j :: 0 <= j < k ==> letters[j] != c
  {
    if letters[0] == c then 0 else 1 + IndexOf(letters[1..], c)
  }

  /** Every letter of the tree is listed, at one of the first two places. */
  predicate Translatable(t: Formula, letters: seq<char>)
  {
    forall c :: c in Letters(t) ==> c in letters && IndexOf(letters, c) < 2
  }

  /** The Translator transformer. */
  function Sentence(t: Formula, letters: seq<char>, p: nat): string
    requires p < |Phrases| && Translatable(t, letters)
  {
    match t
    case Letter(c) => Phrase(p, IndexOf(letters, c))
    case NotLetter(c) => NegativePhrase(p, IndexOf(letters, c))
    case NotFormula(s) => "it is not that (" + Sentence(s, letters, p) + ")"
    case Brackets(s) => Sentence(s, letters, p)
    case And(a, b) => "(" + Sentence(a, letters, p) + ") and (" + Sentence(b, letters, p) + ")"
    case Or(a, b) => "(" + Sentence(a, letters, p) + ") or (" + Sentence(b, letters, p) + ")"
    case Implies(a, b) => "if (" + Sentence(a, letters, p) + "), then (" + Sentence(b, letters, p) + ")"
    case Equivalent(a, b) => "(" + Sentence(a, letters, p) + ") if and only if (" + Sentence(b, letters, p) + ")"
  }

  /** Brackets leave no trace in the sentence: the composite connectives
      bracket their operands themselves. */
  lemma {:induction false} SentenceIgnoresBrackets(t: Formula, letters: seq<char>, p: nat)
    requires p < |Phrases| && Translatable(t, letters)
    ensures Translatable(StripBrackets(t), letters)
    ensures Sentence(StripBrackets(t), letters, p) == Sentence(t, letters, p)
  {
    match t
    case Letter(_) =>
    case NotLetter(_) =>
    case NotFormula(s) => SentenceIgnoresBrackets(s, letters, p);
    case Brackets(s) => SentenceIgnoresBrackets(s, letters, p);
    case And(a, b) => SentenceIgnoresBrackets(a, letters, p); SentenceIgnoresBrackets(b, letters, p);
    case Or(a, b) => SentenceIgnoresBrackets(a, letters, p); SentenceIgnoresBrackets(b, letters, p);
    case Implies(a, b) => SentenceIgnoresBrackets(a, letters, p); SentenceIgnoresBrackets(b, letters, p);
    case Equivalent(a, b) => SentenceIgnoresBrackets(a, letters, p); SentenceIgnoresBrackets(b, letters, p);
  }

  /** The negative phrase of a letter is its phrase with "not " put after the
      verb, so a negated letter reads as the negation of the letter. */
  lemma NegativeInsertsNot(p: nat, k: nat)
    requires p < |Phrases| && k < 2
    ensures exists j :: 0 <= j <= |Phrase(p, k)| &&
              NegativePhrase(p, k) == Phrase(p, k)[..j] + "not " + Phrase(p, k)[j..]
  {
    var pos := Phrase(p, k);
    var j := if p == 2 && k == 1 then 5 else 6;
    if p == 0 && k == 0 {
      assert pos == "it is dark" && NegativePhrase(p, k) == "it is not dark";
    } else if p == 0 {
      assert pos == "it is night" && NegativePhrase(p, k) == "it is not night";
    } else if p == 1 && k == 0 {
      assert pos == "it is snowing" && NegativePhrase(p, k) == "it is not snowing";
    } else if p == 1 {
      assert pos == "it is cold" && NegativePhrase(p, k) == "it is not cold";
    } else if k == 0 {
      assert pos == "it is late" && NegativePhrase(p, k) == "it is not late";
    } else {
      assert pos == "I am tired" && NegativePhrase(p, k) == "I am not tired";
    }
    assert NegativePhrase(p, k) == pos[..j] + "not " + pos[j..];
  }

  /** One entry of the legend: "\(l\) = phrase". */
  function Meaning(letters: seq<char>, l: char, p: nat): string
    requires p < |Phrases| && l in letters && IndexOf(letters, l) < 2
  {
    "\\(" + [l] + "\\)" + " = " + Phrase(p, IndexOf(letters, l))
  }

  /** The strings of ss, with ", " between consecutive ones. */
  function JoinComma(ss: seq<string>): string
  {
    if |ss| == 0 then "" else if |ss| == 1 then ss[0] else JoinComma(ss[..|ss| - 1]) + ", " + ss[|ss| - 1]
  }

  /** At most two letters, each of which has a phrase. */
  predicate LegendDefined(letters: seq<char>)
  {
    forall j :: 0 <= j < |letters| ==> IndexOf(letters, letters[j]) < 2
  }

  function Meanings(letters: seq<char>, p: nat): (ms: seq<string>)
    requires p < |Phrases| && LegendDefined(letters)
    ensures |ms| == |letters|
  {
    seq(|letters|, j requires 0 <= j < |letters| => Meaning(letters, letters[j], p))
  }

  /** The legend loop of translate_formula: the meanings, in letter order,
      separated by ", " with none after the last. */
  method Legend(letters: seq<char>, p: nat) returns (s: string)
    requires p < |Phrases| && LegendDefined(letters)
    ensures s == JoinComma(Meanings(letters, p))
  {
    var ms := Meanings(letters, p);
    s := "";
    var i := 0;
    while i < |ms|
      invariant 0 <= i <= |ms|
      invariant s == JoinComma(ms[..i]) + (if 0 < i < |ms| then ", " else "")
    {
      assert ms[..i + 1][..i] == ms[..i];
      s := s + ms[i];
      if i != |ms| - 1 {
        s := s + ", ";
      }
      i := i + 1;
    }
    assert ms[..i] == ms;
  }

  /** translate_formula on a parsed tree and a chosen phrase pair. */
  method TranslateFormula(t: Formula, letters: seq<char>, p: nat) returns (r: string)
    requires p < |Phrases| && Translatable(t, letters) && LegendDefined(letters)
    ensures r == "Let " + JoinComma(Meanings(letters, p)) + ". " + Sentence(t, letters, p)
  {
    var sentence := Sentence(t, letters, p);
    var meanings := Legend(letters, p);
    r := "Let " + meanings + ". " + sentence;
  }

  /** The legend splits at any entry boundary into two legends joined by
      ", ": every separator sits between two entries. */
  lemma {:induction false} JoinCommaSplit(ss: seq<string>, k: int)
    requires 0 < k < |ss|
    ensures JoinComma(ss) == JoinComma(ss[..k]) + ", " + JoinComma(ss[k..])
    decreases |ss|
  {
    var n := |ss|;
    var init, tail := ss[..n - 1], ss[k..];
    if k < n - 1 {
      JoinCommaSplit(init, k);
      assert init[..k] == ss[..k];
      assert tail[..|tail| - 1] == init[k..] && tail[|tail| - 1] == ss[n - 1];
      var left, mid := JoinComma(ss[..k]), JoinComma(init[k..]);
      assert JoinComma(ss) == (left + ", " + mid) + ", " + ss[n - 1];
      assert JoinComma(tail) == mid + ", " + ss[n - 1];
      assert (left + ", " + mid) + ", " + ss[n - 1] == left + ", " + (mid + ", " + ss[n - 1]);
    } else {
      assert tail == [ss[n - 1]];
      assert init == ss[..k];
    }
  }
}
