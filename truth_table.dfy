/**
  gen_truth_table of backend/logic_engine.py: the recursive `evaluate` adds a
  (valuation tuple, result) pair to the set `truth_table` for every valuation
  of the letters, then two loops write the set out as an HTML table (header:
  one cell per letter and a result cell; one row per pair). The formula is
  taken as a parsed tree.
*/
module TruthTable {
  import opened Formulas
  import opened Equivalence

  type Row = (seq<bool>, bool)

  /** tuple(valuation.values()): the dictionary was filled in `letters` order. */
  function RowOf(letters: seq<char>, v: Valuation): (r: seq<bool>)
    ensures |r| == |letters|
  {
    seq(|letters|, j requires 0 <= j < |letters| => letters[j] in v && v[letters[j]])
  }

  /** Entry j of the row is the value of letter j. */
  lemma RowOfAt(letters: seq<char>, v: Valuation, j: int)
    requires 0 <= j < |letters| && letters[j] in v
    ensures RowOf(letters, v)[j] == v[letters[j]]
  {
  }

  /** The valuation that gives letters[j] the value bits[j]. */
  function ValOf(letters: seq<char>, bits: seq<bool>): (v: Valuation)
    requires |bits| == |letters|
    ensures v.Keys == set c | c in letters
  {
    if |letters| == 0 then map[]
    else ValOf(letters[..|letters| - 1], bits[..|bits| - 1])[letters[|letters| - 1] := bits[|bits| - 1]]
  }

  lemma {:induction false} ValOfAt(letters: seq<char>, bits: seq<bool>, j: int)
    requires |bits| == |letters| && Distinct(letters) && 0 <= j < |letters|
    ensures letters[j] in ValOf(letters, bits) && ValOf(letters, bits)[letters[j]] == bits[j]
  {
    var n := |letters|;
    if j < n - 1 {
      ValOfAt(letters[..n - 1], bits[..n - 1], j);
    }
  }

  /** All bit strings of length n. */
  ghost function AllBits(n: nat): (r: set<seq<bool>>)
    ensures forall b :: b in r ==> |b| == n
  {
    if n == 0 then {[]}
    else (set b | b in AllBits(n - 1) :: b + [false]) + (set b | b in AllBits(n - 1) :: b + [true])
  }

  lemma {:induction false} AllBitsHas(b: seq<bool>)
    ensures b in AllBits(|b|)
  {
    if |b| > 0 {
      var c := b[..|b| - 1];
      AllBitsHas(c);
      assert b == c + [b[|b| - 1]];
      if b[|b| - 1] {
        assert c + [true] in (set x | x in AllBits(|c|) :: x + [true]);
      } else {
        assert c + [false] in (set x | x in AllBits(|c|) :: x + [false]);
      }
    }
  }

  function Pow2(n: nat): nat
  {
    if n == 0 then 1 else 2 * Pow2(n - 1)
  }

  /** Appending one bit is injective, so it keeps the size of a set. */
  lemma {:induction false} AppendCard(s: set<seq<bool>>, x: bool)
    ensures |set b | b in s :: b + [x]| == |s|
    decreases |s|
  {
    if s != {} {
      var e :| e in s;
      var rest := s - {e};
      AppendCard(rest, x);
      var img := set b | b in s :: b + [x];
      var imgRest := set b | b in rest :: b + [x];
      assert img == imgRest + {e + [x]};
      forall b | b in rest ensures b + [x] != e + [x] {
        if |b| == |e| {
          assert (b + [x])[..|b|] == b;
          assert (e + [x])[..|e|] == e;
        }
      }
    } else {
      assert (set b | b in s :: b + [x]) == {};
    }
  }

  /** Every string of the image ends in the appended bit. */
  lemma AppendLast(s: set<seq<bool>>, x: bool, b: seq<bool>)
    requires b in (set c | c in s :: c + [x])
    ensures |b| > 0 && b[|b| - 1] == x
  {
    var c :| c in s && b == c + [x];
  }

  /** There are 2^n bit strings of length n. */
  lemma {:induction false} AllBitsCard(n: nat)
    ensures |AllBits(n)| == Pow2(n)
  {
    if n > 0 {
      var prev := AllBits(n - 1);
      AllBitsCard(n - 1);
      AppendCard(prev, false);
      AppendCard(prev, true);
      AppendDisjoint(prev);
      UnionCard(set b | b in prev :: b + [false], set b | b in prev :: b + [true]);
      assert AllBits(n) == (set b | b in prev :: b + [false]) + (set b | b in prev :: b + [true]);
    }
  }

  lemma AppendDisjoint(s: set<seq<bool>>)
    ensures (set b | b in s :: b + [false]) * (set b | b in s :: b + [true]) == {}
  {
    var f := set b | b in s :: b + [false];
    var t := set b | b in s :: b + [true];
    forall b | b in f ensures b !in t {
      AppendLast(s, false, b);
      if b in t {
        AppendLast(s, true, b);
      }
    }
  }

  lemma UnionCard<T>(a: set<T>, b: set<T>)
    requires a * b == {}
    ensures |a + b| == |a| + |b|
  {
  }

  /** The bit strings of length |row| that agree with row after position i. */
  ghost function Extensions(row: seq<bool>, i: int): set<seq<bool>>
  {
    set b | b in AllBits(|row|) && forall j :: 0 <= j < |row| && i < j ==> b[j] == row[j]
  }

  /** The value of t where letters[j] takes bits[j]. */
  ghost function Value(t: Formula, letters: seq<char>, bits: seq<bool>): bool
  {
    if |bits| == |letters| && Letters(t) <= set c | c in letters
    then Eval(t, ValOf(letters, bits)) else false
  }

  /** The pairs that `evaluate(valuation, i)` adds, named by their bit strings. */
  ghost function Covered(t: Formula, letters: seq<char>, row: seq<bool>, i: int): set<Row>
  {
    set b | b in Extensions(row, i) :: (b, Value(t, letters, b))
  }

  /** The full truth table of t over letters. */
  ghost function Expected(t: Formula, letters: seq<char>): set<Row>
  {
    set b | b in AllBits(|letters|) :: (b, Value(t, letters, b))
  }

  /** One row per valuation: the truth table has exactly 2^n pairs. */
  lemma TableSize(t: Formula, letters: seq<char>)
    ensures |Expected(t, letters)| == Pow2(|letters|)
  {
    AllBitsCard(|letters|);
    PairCard(t, letters, AllBits(|letters|));
  }

  lemma {:induction false} PairCard(t: Formula, letters: seq<char>, s: set<seq<bool>>)
    ensures |set b | b in s :: (b, Value(t, letters, b))| == |s|
    decreases |s|
  {
    var img := set b | b in s :: (b, Value(t, letters, b));
    if s != {} {
      var e :| e in s;
      var rest := s - {e};
      PairCard(t, letters, rest);
      var imgRest := set b | b in rest :: (b, Value(t, letters, b));
      assert img == imgRest + {(e, Value(t, letters, e))};
      assert (e, Value(t, letters, e)) !in imgRest;
    } else {
      assert img == {};
    }
  }

  /** Each pair has a bit string of length n and the tree's value under the
      matching valuation; each valuation of the letters has its pair. */
  lemma ExpectedRows(t: Formula, letters: seq<char>, row: Row)
    requires Letters(t) <= set c | c in letters
    ensures row in Expected(t, letters) <==>
            |row.0| == |letters| && row.1 == Eval(t, ValOf(letters, row.0))
  {
    if |row.0| == |letters| {
      AllBitsHas(row.0);
    }
  }

  /** The row of a valuation names that valuation. */
  lemma RowNamesValuation(t: Formula, letters: seq<char>, v: Valuation)
    requires Distinct(letters) && KeysAre(v, letters)
    requires Letters(t) <= v.Keys
    ensures Value(t, letters, RowOf(letters, v)) == Eval(t, v)
  {
    var w := ValOf(letters, RowOf(letters, v));
    forall c | c in Letters(t) ensures w[c] == v[c] {
      var j :| 0 <= j < |letters| && letters[j] == c;
      ValOfAt(letters, RowOf(letters, v), j);
      RowOfAt(letters, v, j);
    }
    EvalAgree(t, w, v);
  }

  /** Flipping letters[i] in a valuation flips bit i of its row, and the
      flipped row still names the flipped valuation. */
  lemma RowOfFlip(t: Formula, letters: seq<char>, v: Valuation, i: int)
    requires Distinct(letters) && KeysAre(v, letters) && 0 <= i < |letters|
    requires Letters(t) <= v.Keys
    ensures v[letters[i] := !v[letters[i]]].Keys == v.Keys
    ensures KeysAre(v[letters[i] := !v[letters[i]]], letters)
    ensures RowOf(letters, v[letters[i] := !v[letters[i]]]) == RowOf(letters, v)[i := !RowOf(letters, v)[i]]
    ensures Value(t, letters, RowOf(letters, v[letters[i] := !v[letters[i]]])) == Eval(t, v[letters[i] := !v[letters[i]]])
  {
    var w := v[letters[i] := !v[letters[i]]];
    assert w.Keys == v.Keys;
    RowNamesValuation(t, letters, w);
    forall j | 0 <= j < |letters|
      ensures RowOf(letters, w)[j] == RowOf(letters, v)[i := !RowOf(letters, v)[i]][j]
    {
      RowOfAt(letters, v, j);
      RowOfAt(letters, w, j);
    }
  }

  /** Extensions above i split on bit i into extensions above i - 1. */
  lemma CoveredSplit(t: Formula, letters: seq<char>, row: seq<bool>, i: int)
    requires 0 <= i < |row|
    ensures Covered(t, letters, row, i) ==
            Covered(t, letters, row, i - 1) + Covered(t, letters, row[i := !row[i]], i - 1)
  {
    var flip := row[i := !row[i]];
    forall b | b in Extensions(row, i)
      ensures b in Extensions(row, i - 1) + Extensions(flip, i - 1)
    {
      if b[i] != row[i] {
        assert b in Extensions(flip, i - 1);
      }
    }
    assert Extensions(row, i) == Extensions(row, i - 1) + Extensions(flip, i - 1);
  }

  /** Above -1 only the row itself is left. */
  lemma CoveredBase(t: Formula, letters: seq<char>, row: seq<bool>)
    ensures Covered(t, letters, row, -1) == {(row, Value(t, letters, row))}
  {
    AllBitsHas(row);
    forall b | b in Extensions(row, -1) ensures b == row {
    }
    assert Extensions(row, -1) == {row};
  }

  /** Each row is among its own extensions. */
  lemma CoveredHasRow(t: Formula, letters: seq<char>, row: seq<bool>, i: int)
    ensures (row, Value(t, letters, row)) in Covered(t, letters, row, i)
  {
    AllBitsHas(row);
  }

  /** Above the last position every bit string of length n is left. */
  lemma CoveredTop(t: Formula, letters: seq<char>, row: seq<bool>)
    requires |row| == |letters|
    ensures Covered(t, letters, row, |row| - 1) == Expected(t, letters)
  {
    assert Extensions(row, |row| - 1) == AllBits(|row|);
  }

  /** `evaluate` at position 0 adds the row and the row with bit 0 flipped:
      everything covered at 0. */
  lemma CoverBase(t: Formula, letters: seq<char>, row: seq<bool>, flip: seq<bool>)
    requires 0 < |row| && flip == row[0 := !row[0]]
    ensures Covered(t, letters, row, 0) == {(row, Value(t, letters, row)), (flip, Value(t, letters, flip))}
  {
    CoveredSplit(t, letters, row, 0);
    CoveredBase(t, letters, row);
    CoveredBase(t, letters, flip);
  }

  /** `evaluate` at position i > 0 adds the row and the row with bit i
      flipped, which the two recursive calls cover again, together with
      everything else covered at i. */
  lemma CoverStep(t: Formula, letters: seq<char>, row: seq<bool>, flip: seq<bool>, i: int)
    requires 0 < i < |row| && flip == row[i := !row[i]]
    ensures Covered(t, letters, row, i) == Covered(t, letters, row, i - 1) + Covered(t, letters, flip, i - 1)
    ensures (row, Value(t, letters, row)) in Covered(t, letters, row, i - 1)
    ensures (flip, Value(t, letters, flip)) in Covered(t, letters, flip, i - 1)
  {
    CoveredSplit(t, letters, row, i);
    CoveredHasRow(t, letters, row, i - 1);
    CoveredHasRow(t, letters, flip, i - 1);
  }

  /** The state of gen_truth_table: the set being filled, for one tree and one
      list of letters. */
  class TableBuilder {
    var truthTable: set<Row>
    const tree: Formula
    const letters: seq<char>

    ghost predicate Valid()
    {
      Distinct(letters) && Letters(tree) <= set c | c in letters
    }

    constructor (t: Formula, ls: seq<char>)
      requires Distinct(ls) && Letters(t) <= set c | c in ls
      ensures Valid() && tree == t && letters == ls && truthTable == {}
    {
      tree, letters := t, ls;
      truthTable := {};
    }

    /** One `truth_table.add`: the pair of the valuation's row and the tree's
        value under it. */
    method Record(valuation: Valuation)
      requires Valid() && KeysAre(valuation, letters)
      modifies this
      ensures truthTable == old(truthTable) + {(RowOf(letters, valuation), Value(tree, letters, RowOf(letters, valuation)))}
    {
      RowNamesValuation(tree, letters, valuation);
      truthTable := truthTable + {(RowOf(letters, valuation), Eval(tree, valuation))};
    }

    /** evaluate(valuation, i): adds the pairs of every valuation that agrees
        with `valuation` on the letters after position i. */
    method Evaluate(valuation: Valuation, i: int)
      requires Valid() && 0 <= i < |letters| && KeysAre(valuation, letters)
      modifies this
      ensures truthTable == old(truthTable) + Covered(tree, letters, RowOf(letters, valuation), i)
      decreases i
    {
      ghost var before := truthTable;
      var copy := AddPairs(valuation, i);
      ghost var row, flip := RowOf(letters, valuation), RowOf(letters, copy);
      ghost var p, q := (row, Value(tree, letters, row)), (flip, Value(tree, letters, flip));
      if i == 0 {
        CoverBase(tree, letters, row, flip);
        AbsorbBase(before, p, q, Covered(tree, letters, row, 0));
        return;
      }
      CoverStep(tree, letters, row, flip, i);
      Evaluate(valuation, i - 1);
      Evaluate(copy, i - 1);
      AbsorbPairs(before, p, q, Covered(tree, letters, row, i - 1), Covered(tree, letters, flip, i - 1),
                  Covered(tree, letters, row, i));
    }

    /** The first half of evaluate: the pair of the valuation and the pair of
        its copy with letter i negated, which is returned. */
    method AddPairs(valuation: Valuation, i: int) returns (copy: Valuation)
      requires Valid() && 0 <= i < |letters| && KeysAre(valuation, letters)
      modifies this
      ensures copy == valuation[letters[i] := !valuation[letters[i]]] && KeysAre(copy, letters)
      ensures RowOf(letters, copy) == RowOf(letters, valuation)[i := !RowOf(letters, valuation)[i]]
      ensures truthTable == old(truthTable) + {(RowOf(letters, valuation), Value(tree, letters, RowOf(letters, valuation)))}
                                            + {(RowOf(letters, copy), Value(tree, letters, RowOf(letters, copy)))}
    {
      Record(valuation);
      copy := valuation[letters[i] := !valuation[letters[i]]];
      RowOfFlip(tree, letters, valuation, i);
      Record(copy);
    }
  }

  /** At position 0 the two pairs added are all that is covered. */
  lemma AbsorbBase(before: set<Row>, p: Row, q: Row, c: set<Row>)
    requires c == {p, q}
    ensures before + {p} + {q} == before + c
  {
  }

  /** The two pairs evaluate adds first are added again by the recursive calls. */
  lemma AbsorbPairs(before: set<Row>, p: Row, q: Row, a: set<Row>, b: set<Row>, c: set<Row>)
    requires p in a && q in b && c == a + b
    ensures before + {p} + {q} + a + b == before + c
  {
  }

  // The HTML rendering.

  /** Concatenation of a list of strings. */
  function Concat(ss: seq<string>): string
  {
    if |ss| == 0 then "" else Concat(ss[..|ss| - 1]) + ss[|ss| - 1]
  }

  function HeaderCell(l: char): string
  {
    "<th scope='col'>\\(" + [l] + "\\)</th>"
  }

  function ValueCell(b: bool): string
  {
    "<td>" + (if !b then "\\(0\\)" else "\\(1\\)") + "</td>"
  }

  /** The header cells: one per letter, then the result column "?". */
  function HeaderCells(letters: seq<char>): seq<string>
  {
    seq(|letters|, j requires 0 <= j < |letters| => HeaderCell(letters[j])) + ["<th scope='col'>\\(?\\)</th>"]
  }

  /** Header cell j names letter j; the last one is the result column. */
  lemma HeaderCellsAt(letters: seq<char>, j: int)
    requires 0 <= j <= |letters|
    ensures |HeaderCells(letters)| == |letters| + 1
    ensures HeaderCells(letters)[j] ==
            if j < |letters| then HeaderCell(letters[j]) else "<th scope='col'>\\(?\\)</th>"
  {
  }

  /** The cells of one body row: one per letter, then the result. */
  function RowCells(row: Row): seq<string>
  {
    seq(|row.0|, j requires 0 <= j < |row.0| => ValueCell(row.0[j])) + [ValueCell(row.1)]
  }

  /** Row cell j shows bit j; the last one shows the result. */
  lemma RowCellsAt(row: Row, j: int)
    requires 0 <= j <= |row.0|
    ensures |RowCells(row)| == |row.0| + 1
    ensures RowCells(row)[j] == ValueCell(if j < |row.0| then row.0[j] else row.1)
  {
  }

  function RowHtml(row: Row): string
  {
    "<tr>" + Concat(RowCells(row)) + "</tr>"
  }

  function BodyHtml(rows: seq<Row>): string
  {
    if |rows| == 0 then "" else BodyHtml(rows[..|rows| - 1]) + RowHtml(rows[|rows| - 1])
  }

  function HeaderHtml(letters: seq<char>): string
  {
    "<table class ='table'><thead><tr>" + Concat(HeaderCells(letters)) + "</tr></thead><tbody>"
  }

  function TableHtml(letters: seq<char>, rows: seq<Row>): string
  {
    HeaderHtml(letters) + BodyHtml(rows) + "</tbody></table>"
  }

  /** A cell shows 1 exactly when its value is true. */
  lemma ValueCellShows(b: bool)
    ensures ValueCell(b) == "<td>\\(1\\)</td>" <==> b
    ensures ValueCell(b) == "<td>\\(0\\)</td>" <==> !b
  {
    assert "<td>\\(1\\)</td>"[6] == '1';
    assert "<td>\\(0\\)</td>"[6] == '0';
  }

  /** Every row of the table written out has n + 1 cells, like the header. */
  lemma CellCounts(t: Formula, letters: seq<char>, row: Row)
    requires Letters(t) <= set c | c in letters
    requires row in Expected(t, letters)
    ensures |RowCells(row)| == |HeaderCells(letters)| == |letters| + 1
  {
    ExpectedRows(t, letters, row);
    HeaderCellsAt(letters, 0);
    RowCellsAt(row, 0);
  }

  lemma Assoc(a: string, b: string, c: string)
    ensures (a + b) + c == a + (b + c)
  {
  }

  lemma ConcatPrefix(ss: seq<string>, j: int)
    requires 0 <= j < |ss|
    ensures Concat(ss[..j + 1]) == Concat(ss[..j]) + ss[j]
  {
    assert ss[..j + 1][..j] == ss[..j];
  }

  /** order lists every element of s exactly once. */
  ghost predicate Enumerates(order: seq<Row>, s: set<Row>)
  {
    (forall r :: r in s <==> r in order) &&
    (forall a, b :: 0 <= a < b < |order| ==> order[a] != order[b])
  }

  /** The header loop: one cell per letter, then the result column. */
  method WriteHeader(letters: seq<char>) returns (html: string)
    ensures html == HeaderHtml(letters)
  {
    ghost var cells := HeaderCells(letters);
    html := "<table class ='table'><thead><tr>";
    ghost var open := html;
    var j := 0;
    while j < |letters|
      invariant 0 <= j <= |letters|
      invariant html == open + Concat(cells[..j])
    {
      ConcatPrefix(cells, j);
      HeaderCellsAt(letters, j);
      Assoc(open, Concat(cells[..j]), cells[j]);
      html := html + HeaderCell(letters[j]);
      j := j + 1;
    }
    ConcatPrefix(cells, j);
    HeaderCellsAt(letters, j);
    assert cells[..j + 1] == cells;
    Assoc(open, Concat(cells[..j]), cells[j]);
    html := html + "<th scope='col'>\\(?\\)</th>";
    assert html == open + Concat(cells);
    html := html + "</tr></thead><tbody>";
  }

  /** The inner loop: one cell per value of the row, then the result. */
  method WriteRow(v: Row) returns (html: string)
    ensures html == RowHtml(v)
  {
    html := "<tr>";
    var m := 0;
    while m < |v.0|
      invariant 0 <= m <= |v.0|
      invariant html == "<tr>" + Concat(RowCells(v)[..m])
    {
      RowStep(v, m, html);
      html := html + ValueCell(v.0[m]);
      m := m + 1;
    }
    RowClose(v, html);
    html := html + ValueCell(v.1);
    html := html + "</tr>";
  }

  /** One bit cell extends the row written so far by the next cell. */
  lemma RowStep(v: Row, m: int, html: string)
    requires 0 <= m < |v.0| && html == "<tr>" + Concat(RowCells(v)[..m])
    ensures html + ValueCell(v.0[m]) == "<tr>" + Concat(RowCells(v)[..m + 1])
  {
    RowCellsAt(v, m);
    ConcatPrefix(RowCells(v), m);
  }

  /** The result cell and the closing tag complete the row. */
  lemma RowClose(v: Row, html: string)
    requires html == "<tr>" + Concat(RowCells(v)[..|v.0|])
    ensures html + ValueCell(v.1) + "</tr>" == RowHtml(v)
  {
    var cells := RowCells(v);
    RowCellsAt(v, |v.0|);
    ConcatPrefix(cells, |v.0|);
    assert cells[..|v.0| + 1] == cells;
  }

  /** The outer loop over the set, in whatever order the set yields. */
  method WriteRows(table: set<Row>) returns (html: string, ghost order: seq<Row>)
    ensures Enumerates(order, table) && html == BodyHtml(order)
  {
    var remaining := table;
    html := "";
    order := [];
    while remaining != {}
      invariant remaining <= table
      invariant forall r :: r in table ==> (r in remaining <==> r !in order)
      invariant forall r :: r in order ==> r in table
      invariant forall a, b :: 0 <= a < b < |order| ==> order[a] != order[b]
      invariant html == BodyHtml(order)
      decreases remaining
    {
      var v :| v in remaining;
      var rowHtml := WriteRow(v);
      assert (order + [v])[..|order|] == order;
      html := html + rowHtml;
      order := order + [v];
      remaining := remaining - {v};
    }
  }

  /** gen_truth_table: the set holds exactly the truth table (2^n pairs), and
      the HTML is the header followed by those pairs, each written once, in
      the order in which the set is iterated. */
  method GenTruthTable(tree: Formula, letters: seq<char>) returns (table: set<Row>, html: string)
    requires |letters| > 0 && Distinct(letters)
    requires Letters(tree) <= set c | c in letters
    ensures table == Expected(tree, letters)
    ensures |table| == Pow2(|letters|)
    ensures exists order: seq<Row> :: Enumerates(order, table) && html == TableHtml(letters, order)
  {
    var builder := new TableBuilder(tree, letters);
    var valuation: Valuation := map[];
    var k := 0;
    while k < |letters|
      invariant 0 <= k <= |letters|
      invariant KeysAre(valuation, letters[..k])
    {
      valuation := valuation[letters[k] := false];
      k := k + 1;
    }
    assert letters[..k] == letters;
    builder.Evaluate(valuation, |letters| - 1);
    CoveredTop(tree, letters, RowOf(letters, valuation));
    table := builder.truthTable;
    TableSize(tree, letters);

    var header := WriteHeader(letters);
    var body;
    ghost var order;
    body, order := WriteRows(table);
    html := header + body + "</tbody></table>";
    assert html == TableHtml(letters, order);
  }
}
