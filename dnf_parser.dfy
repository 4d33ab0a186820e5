/**
  The DNF grammar of backend/logic_engine.py (dnf_parser), parsed by
  recursive descent:
    disjunction := conjunction '<' disjunction   (alias _or)
                 | conjunction                   (alias brackets)
    conjunction := '(' literal '^' conjunction ')'  (alias _and)
                 | literal                       (alias brackets)
    literal     := LETTER | '-' LETTER
  Whitespace between tokens is ignored. The trees are those the Lark aliases
  build, Brackets wrappers included.
*/
module DnfParser {
  import opened Wrappers
  import opened Formulas

  datatype Token = LParen | RParen | Caret | Lt | Minus | Let(c: char)

  predicate IsLetterChar(c: char)
  {
    ('a' <= c <= 'z') || ('A' <= c <= 'Z')
  }

  /** The characters of common.WS, which the grammar ignores. */
  predicate IsSpace(c: char)
  {
    c == ' ' || c == '\t' || c == '\U{C}' || c == '\r' || c == '\n'
  }

  /** Splits the text into tokens; any other character is a parse error. */
  function Tokenize(s: string): (r: Option<seq<Token>>)
  {
    if |s| == 0 then Some([])
    else
      var c := s[0];
      match Tokenize(s[1..])
      case None => None
      case Some(rest) =>
        if IsSpace(c) then Some(rest)
        else if c == '(' then Some([LParen] + rest)
        else if c == ')' then Some([RParen] + rest)
        else if c == '^' then Some([Caret] + rest)
        else if c == '<' then Some([Lt] + rest)
        else if c == '-' then Some([Minus] + rest)
        else if IsLetterChar(c) then Some([Let(c)] + rest)
        else None
  }

  /** The text of one token. */
  function TokenText(t: Token): string
  {
    match t
    case LParen => "("
    case RParen => ")"
    case Caret => "^"
    case Lt => "<"
    case Minus => "-"
    case Let(c) => [c]
  }

  predicate WellFormedToken(t: Token)
  {
    t.Let? ==> IsLetterChar(t.c)
  }

  /** Every letter token holds a letter. */
  predicate AllWellFormed(ts: seq<Token>)
  {
    |ts| == 0 || (WellFormedToken(ts[0]) && AllWellFormed(ts[1..]))
  }

  lemma {:induction false} AllWellFormedConcat(a: seq<Token>, b: seq<Token>)
    ensures AllWellFormed(a + b) <==> AllWellFormed(a) && AllWellFormed(b)
  {
    if |a| > 0 {
      assert (a + b)[1..] == a[1..] + b;
      AllWellFormedConcat(a[1..], b);
    } else {
      assert a + b == b;
    }
  }

  /** Writes tokens out separated by single spaces. */
  function Render(ts: seq<Token>): string
  {
    if |ts| == 0 then "" else TokenText(ts[0]) + " " + Render(ts[1..])
  }

  /** Tokenizing a rendering gives the tokens back. */
  lemma {:induction false} TokenizeRender(ts: seq<Token>)
    requires AllWellFormed(ts)
    ensures Tokenize(Render(ts)) == Some(ts)
  {
    if |ts| > 0 {
      TokenizeRender(ts[1..]);
      var s := Render(ts);
      var tail := " " + Render(ts[1..]);
      assert s == TokenText(ts[0]) + tail;
      assert s[1..] == tail;
      assert tail[1..] == Render(ts[1..]);
      assert Tokenize(tail) == Some(ts[1..]);
      assert ts == [ts[0]] + ts[1..];
    }
  }

  /** literal := LETTER | '-' LETTER */
  function ParseLiteral(ts: seq<Token>): (r: Option<(Formula, seq<Token>)>)
    ensures r.Some? ==> |r.value.1| < |ts|
  {
    if |ts| >= 1 && ts[0].Let? && IsLetterChar(ts[0].c) then Some((Letter(ts[0].c), ts[1..]))
    else if |ts| >= 2 && ts[0] == Minus && ts[1].Let? && IsLetterChar(ts[1].c) then Some((NotLetter(ts[1].c), ts[2..]))
    else None
  }

  /** conjunction := '(' literal '^' conjunction ')' | literal */
  function ParseConjunction(ts: seq<Token>): (r: Option<(Formula, seq<Token>)>)
    ensures r.Some? ==> |r.value.1| < |ts|
    decreases |ts|
  {
    if |ts| > 0 && ts[0] == LParen then
      var lit := ParseLiteral(ts[1..]);
      if lit.None? then None
      else
        var r1 := lit.value.1;
        if |r1| == 0 || r1[0] != Caret then None
        else
          var conj := ParseConjunction(r1[1..]);
          if conj.None? then None
          else
            var r2 := conj.value.1;
            if |r2| == 0 || r2[0] != RParen then None
            else Some((And(lit.value.0, conj.value.0), r2[1..]))
    else
      var lit := ParseLiteral(ts);
      if lit.None? then None else Some((Brackets(lit.value.0), lit.value.1))
  }

  /** disjunction := conjunction '<' disjunction | conjunction */
  function ParseDisjunction(ts: seq<Token>): (r: Option<(Formula, seq<Token>)>)
    ensures r.Some? ==> |r.value.1| < |ts|
    decreases |ts|
  {
    var conj := ParseConjunction(ts);
    if conj.None? then None
    else
      var r1 := conj.value.1;
      if |r1| > 0 && r1[0] == Lt then
        var disj := ParseDisjunction(r1[1..]);
        if disj.None? then None else Some((Or(conj.value.0, disj.value.0), disj.value.1))
      else Some((Brackets(conj.value.0), r1))
  }

  /** A whole token sequence is a DNF formula when a disjunction consumes it all. */
  function ParseTokens(ts: seq<Token>): Option<Formula>
  {
    var r := ParseDisjunction(ts);
    if r.Some? && r.value.1 == [] then Some(r.value.0) else None
  }

  /** dnf_parser.parse */
  function ParseDnf(s: string): Option<Formula>
  {
    match Tokenize(s)
    case None => None
    case Some(ts) => ParseTokens(ts)
  }

  // The shapes of DNF trees and their tokens.

  predicate IsLiteral(t: Formula)
  {
    (t.Letter? || t.NotLetter?) && IsLetterChar(t.name)
  }

  predicate IsConjunction(t: Formula)
  {
    match t
    case Brackets(l) => IsLiteral(l)
    case And(l, c) => IsLiteral(l) && IsConjunction(c)
    case _ => false
  }

  predicate IsDisjunction(t: Formula)
  {
    match t
    case Brackets(c) => IsConjunction(c)
    case Or(c, d) => IsConjunction(c) && IsDisjunction(d)
    case _ => false
  }

  function LiteralTokens(t: Formula): seq<Token>
    requires IsLiteral(t)
  {
    if t.Letter? then [Let(t.name)] else [Minus, Let(t.name)]
  }

  function ConjunctionTokens(t: Formula): seq<Token>
    requires IsConjunction(t)
  {
    match t
    case Brackets(l) => LiteralTokens(l)
    case And(l, c) => [LParen] + LiteralTokens(l) + [Caret] + ConjunctionTokens(c) + [RParen]
  }

  function DisjunctionTokens(t: Formula): seq<Token>
    requires IsDisjunction(t)
  {
    match t
    case Brackets(c) => ConjunctionTokens(c)
    case Or(c, d) => ConjunctionTokens(c) + [Lt] + DisjunctionTokens(d)
  }

  lemma LiteralRoundTrip(t: Formula, rest: seq<Token>)
    requires IsLiteral(t)
    ensures ParseLiteral(LiteralTokens(t) + rest) == Some((t, rest))
  {
    var ts := LiteralTokens(t) + rest;
    if t.Letter? {
      assert ts[1..] == rest;
    } else {
      assert ts[2..] == rest;
    }
  }

  lemma {:induction false} ConjunctionRoundTrip(t: Formula, rest: seq<Token>)
    requires IsConjunction(t)
    ensures ParseConjunction(ConjunctionTokens(t) + rest) == Some((t, rest))
  {
    match t
    case Brackets(l) =>
      LiteralRoundTrip(l, rest);
      assert (LiteralTokens(l) + rest)[0] != LParen;
    case And(l, c) =>
      var ts := ConjunctionTokens(t) + rest;
      var r2 := [RParen] + rest;
      var r1 := [Caret] + (ConjunctionTokens(c) + r2);
      Reassociate([LParen], LiteralTokens(l), [Caret], ConjunctionTokens(c), [RParen], rest);
      assert ts == [LParen] + (LiteralTokens(l) + r1);
      assert ts[1..] == LiteralTokens(l) + r1;
      LiteralRoundTrip(l, r1);
      assert r1[1..] == ConjunctionTokens(c) + r2;
      ConjunctionRoundTrip(c, r2);
      assert r2[1..] == rest;
  }

  lemma {:induction false} DisjunctionRoundTrip(t: Formula, rest: seq<Token>)
    requires IsDisjunction(t)
    requires rest == [] || rest[0] != Lt
    ensures ParseDisjunction(DisjunctionTokens(t) + rest) == Some((t, rest))
  {
    match t
    case Brackets(c) =>
      ConjunctionRoundTrip(c, rest);
    case Or(c, d) =>
      var r1 := [Lt] + (DisjunctionTokens(d) + rest);
      assert DisjunctionTokens(t) + rest == ConjunctionTokens(c) + r1;
      ConjunctionRoundTrip(c, r1);
      assert r1[1..] == DisjunctionTokens(d) + rest;
      DisjunctionRoundTrip(d, rest);
  }

  lemma LiteralSound(ts: seq<Token>)
    requires ParseLiteral(ts).Some?
    ensures IsLiteral(ParseLiteral(ts).value.0)
    ensures ts == LiteralTokens(ParseLiteral(ts).value.0) + ParseLiteral(ts).value.1
  {
    if ts[0].Let? {
      assert ts == [ts[0]] + ts[1..];
    } else {
      assert ts == [ts[0], ts[1]] + ts[2..];
    }
  }

  lemma {:induction false} ConjunctionSound(ts: seq<Token>)
    requires ParseConjunction(ts).Some?
    ensures IsConjunction(ParseConjunction(ts).value.0)
    ensures ts == ConjunctionTokens(ParseConjunction(ts).value.0) + ParseConjunction(ts).value.1
    decreases |ts|
  {
    if |ts| > 0 && ts[0] == LParen {
      LiteralSound(ts[1..]);
      var lit := ParseLiteral(ts[1..]).value.0;
      var r1 := ParseLiteral(ts[1..]).value.1;
      ConjunctionSound(r1[1..]);
      var conj := ParseConjunction(r1[1..]).value.0;
      var r2 := ParseConjunction(r1[1..]).value.1;
      var t := And(lit, conj);
      assert ParseConjunction(ts) == Some((t, r2[1..]));
      assert r2 == [RParen] + r2[1..];
      assert r1 == [Caret] + (ConjunctionTokens(conj) + ([RParen] + r2[1..]));
      assert ts == [LParen] + (LiteralTokens(lit) + r1);
      Reassociate([LParen], LiteralTokens(lit), [Caret], ConjunctionTokens(conj), [RParen], r2[1..]);
    } else {
      LiteralSound(ts);
    }
  }

  lemma {:induction false} DisjunctionSound(ts: seq<Token>)
    requires ParseDisjunction(ts).Some?
    ensures IsDisjunction(ParseDisjunction(ts).value.0)
    ensures ts == DisjunctionTokens(ParseDisjunction(ts).value.0) + ParseDisjunction(ts).value.1
    decreases |ts|
  {
    ConjunctionSound(ts);
    var conj := ParseConjunction(ts).value.0;
    var r1 := ParseConjunction(ts).value.1;
    if |r1| > 0 && r1[0] == Lt {
      DisjunctionSound(r1[1..]);
      var disj := ParseDisjunction(r1[1..]).value.0;
      var r2 := ParseDisjunction(r1[1..]).value.1;
      assert r1 == [Lt] + r1[1..];
      assert ts == ConjunctionTokens(conj) + [Lt] + DisjunctionTokens(disj) + r2;
    }
  }

  lemma Reassociate(a: seq<Token>, b: seq<Token>, c: seq<Token>, d: seq<Token>, e: seq<Token>, f: seq<Token>)
    ensures a + (b + (c + (d + (e + f)))) == a + b + c + d + e + f
  {
  }

  /** A token sequence parses to t exactly when t is a DNF tree whose tokens
      are that sequence: the grammar is unambiguous and the parser is its
      inverse. */
  lemma ParseTokensExact(ts: seq<Token>, t: Formula)
    ensures ParseTokens(ts) == Some(t) <==> IsDisjunction(t) && ts == DisjunctionTokens(t)
  {
    if ParseTokens(ts) == Some(t) {
      DisjunctionSound(ts);
      assert ts == DisjunctionTokens(t) + [];
    }
    if IsDisjunction(t) && ts == DisjunctionTokens(t) {
      DisjunctionRoundTrip(t, []);
      assert ts == DisjunctionTokens(t) + [];
    }
  }

  lemma {:induction false} DisjunctionTokensWellFormed(t: Formula)
    requires IsDisjunction(t)
    ensures AllWellFormed(DisjunctionTokens(t))
  {
    match t
    case Brackets(c) => ConjunctionTokensWellFormed(c);
    case Or(c, d) =>
      ConjunctionTokensWellFormed(c);
      DisjunctionTokensWellFormed(d);
      AllWellFormedConcat([Lt], DisjunctionTokens(d));
      AllWellFormedConcat(ConjunctionTokens(c), [Lt] + DisjunctionTokens(d));
      assert DisjunctionTokens(t) == ConjunctionTokens(c) + ([Lt] + DisjunctionTokens(d));
  }

  lemma LiteralTokensWellFormed(l: Formula)
    requires IsLiteral(l)
    ensures AllWellFormed(LiteralTokens(l))
  {
    assert AllWellFormed(LiteralTokens(l)[1..]);
  }

  /** Wrapping two well-formed token runs as "( a ^ b )" keeps them well formed. */
  lemma WrapWellFormed(a: seq<Token>, b: seq<Token>)
    requires AllWellFormed(a) && AllWellFormed(b)
    ensures AllWellFormed([LParen] + a + [Caret] + b + [RParen])
  {
    AllWellFormedConcat(b, [RParen]);
    AllWellFormedConcat([Caret], b + [RParen]);
    AllWellFormedConcat(a, [Caret] + (b + [RParen]));
    AllWellFormedConcat([LParen], a + ([Caret] + (b + [RParen])));
    assert [LParen] + a + [Caret] + b + [RParen] == [LParen] + (a + ([Caret] + (b + [RParen])));
  }

  lemma {:induction false} ConjunctionTokensWellFormed(t: Formula)
    requires IsConjunction(t)
    ensures AllWellFormed(ConjunctionTokens(t))
  {
    match t
    case Brackets(l) => LiteralTokensWellFormed(l);
    case And(l, c) =>
      ConjunctionTokensWellFormed(c);
      LiteralTokensWellFormed(l);
      WrapWellFormed(LiteralTokens(l), ConjunctionTokens(c));
  }

  /** Writing a DNF tree out and parsing the text gives the tree back. */
  lemma PrintParse(t: Formula)
    requires IsDisjunction(t)
    ensures ParseDnf(Render(DisjunctionTokens(t))) == Some(t)
  {
    DisjunctionTokensWellFormed(t);
    TokenizeRender(DisjunctionTokens(t));
    ParseTokensExact(DisjunctionTokens(t), t);
  }

  /** Whatever text parses as DNF gives a DNF tree, and writing that tree out
      and parsing again gives the same tree. */
  lemma ParseSound(s: string)
    requires ParseDnf(s).Some?
    ensures IsDisjunction(ParseDnf(s).value)
    ensures ParseDnf(Render(DisjunctionTokens(ParseDnf(s).value))) == ParseDnf(s)
  {
    var t := ParseDnf(s).value;
    ParseTokensExact(Tokenize(s).value, t);
    PrintParse(t);
  }

  /** A character outside the token alphabet anywhere in the text is a
      parse error. */
  lemma {:induction false} StrayCharRejected(s: string, i: nat)
    requires i < |s|
    requires !IsSpace(s[i]) && !IsLetterChar(s[i]) && s[i] !in "()^<-"
    ensures Tokenize(s) == None
  {
    if i > 0 {
      StrayCharRejected(s[1..], i - 1);
    }
  }

  /** A formula outside the DNF shape is rejected: `p -> q` does not parse. */
  lemma ImplicationRejected()
    ensures ParseDnf("p -> q") == None
  {
    StrayCharRejected("p -> q", 3);
  }

  /** `(p ^ -q) < r` gives the tree the Lark aliases build, with a brackets
      node for each conjunction that is a single literal and for the last
      disjunct. */
  lemma ExampleParse()
    ensures ParseTokens([LParen, Let('p'), Caret, Minus, Let('q'), RParen, Lt, Let('r')]) ==
      Some(Or(And(Letter('p'), Brackets(NotLetter('q'))), Brackets(Brackets(Letter('r')))))
  {
    var ts := [LParen, Let('p'), Caret, Minus, Let('q'), RParen, Lt, Let('r')];
    var t := Or(And(Letter('p'), Brackets(NotLetter('q'))), Brackets(Brackets(Letter('r'))));
    assert DisjunctionTokens(t) == ts;
    ParseTokensExact(ts, t);
  }
}
