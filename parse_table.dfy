/**
 * The predictive parse table as BuildParseTable fills it (SyntaxAnalyzer/Grammar.cs:322-361): every
 * production goes into the columns of its FIRST set other than EPSILON and, when that set holds
 * EPSILON, into the columns of its non-terminal's FOLLOW set. A later production overwrites an
 * earlier one in the same cell.
 */
module ParseTables {
  import opened Wrappers
  import opened Symbols
  import opened FirstSets

  type Row = map<string, Production>
  type Table = map<string, Row>

  /** How a `List<string>` key prints in the KeyNotFoundException message. */
  const ListKeyName: string := "System.Collections.Generic.List`1[System.String]"

  /** The columns production `j` of `a` is written into. */
  ghost function Cells(prod: map<ProductionKey, set<string>>, follow: map<string, set<string>>, a: string, j: nat): set<string>
  {
    if (a, j) !in prod then {}
    else (prod[(a, j)] - {Epsilon}) + (if Epsilon in prod[(a, j)] && a in follow then follow[a] else {})
  }

  /** Every production from `j` on has a FIRST set and, when that set holds EPSILON, `a` has a FOLLOW set. */
  predicate RowDefined(prod: map<ProductionKey, set<string>>, follow: map<string, set<string>>, a: string, n: nat, j: nat)
  {
    forall m :: j <= m < n ==> (a, m) in prod && (Epsilon in prod[(a, m)] ==> a in follow)
  }

  /** The row of `a`, filled with the productions `ps[j..]`. */
  function FillRow(row: Row, a: string, ps: seq<Production>, prod: map<ProductionKey, set<string>>,
                   follow: map<string, set<string>>, j: nat): (r: Result<Row>)
    ensures r.Ok? <==> RowDefined(prod, follow, a, |ps|, j)
    decreases |ps| - j
  {
    if j >= |ps| then Ok(row)
    else if (a, j) !in prod then Err(KeyNotFound(ListKeyName))
    else
      var pf := prod[(a, j)];
      var row1 := row + map t | t in pf - {Epsilon} :: ps[j];
      if Epsilon !in pf then FillRow(row1, a, ps, prod, follow, j + 1)
      else if a !in follow then Err(KeyNotFound(a))
      else FillRow(row1 + map t | t in follow[a] :: ps[j], a, ps, prod, follow, j + 1)
  }

  /** The productions `ps[j..]` that write into column `t`, after `m`. */
  ghost predicate LastWriter(prod: map<ProductionKey, set<string>>, follow: map<string, set<string>>, a: string, n: nat, m: nat, t: string)
  {
    t in Cells(prod, follow, a, m) && forall m' :: m < m' < n ==> t !in Cells(prod, follow, a, m')
  }

  /**
   * A filled row has a cell exactly for the old columns and the columns of the productions `ps[j..]`,
   * each cell written by some production holds the last of them, and a column none writes keeps its
   * old cell.
   */
  lemma {:induction false} FillRowFacts(row: Row, a: string, ps: seq<Production>, prod: map<ProductionKey, set<string>>,
                                        follow: map<string, set<string>>, j: nat)
    requires FillRow(row, a, ps, prod, follow, j).Ok?
    ensures var r := FillRow(row, a, ps, prod, follow, j).value;
      && (forall t :: t in r <==> t in row || exists m :: j <= m < |ps| && t in Cells(prod, follow, a, m))
      && (forall t, m :: j <= m < |ps| && LastWriter(prod, follow, a, |ps|, m, t) ==> r[t] == ps[m])
      && (forall t :: t in row && (forall m :: j <= m < |ps| ==> t !in Cells(prod, follow, a, m)) ==> r[t] == row[t])
      && (forall t :: t in r ==> (t in row && r[t] == row[t]) || exists m :: j <= m < |ps| && r[t] == ps[m])
    decreases |ps| - j
  {
    if j < |ps| {
      var pf := prod[(a, j)];
      var row1 := row + map t | t in pf - {Epsilon} :: ps[j];
      var row2 := if Epsilon !in pf then row1 else row1 + map t | t in follow[a] :: ps[j];
      assert forall t :: t in row2 <==> t in row || t in Cells(prod, follow, a, j);
      assert forall t :: t in Cells(prod, follow, a, j) ==> row2[t] == ps[j];
      assert forall t :: t in row && t !in Cells(prod, follow, a, j) ==> row2[t] == row[t];
      assert FillRow(row, a, ps, prod, follow, j) == FillRow(row2, a, ps, prod, follow, j + 1);
      FillRowFacts(row2, a, ps, prod, follow, j + 1);
    }
  }

  /** The table, with a fresh row for each of the definitions `order[d..]`. */
  function FillTable(table: Table, order: seq<string>, rules: Rules, prod: map<ProductionKey, set<string>>,
                     follow: map<string, set<string>>, d: nat): (r: Result<Table>)
    requires Declared(order, rules)
    decreases |order| - d
  {
    if d >= |order| then Ok(table)
    else
      var a := order[d];
      match FillRow(map[], a, rules[a], prod, follow, 0)
      case Err(m) => Err(m)
      case Ok(row) => FillTable(table[a := row], order, rules, prod, follow, d + 1)
  }

  /** Filling succeeds when every row can be filled, and gives each of those non-terminals its fresh row. */
  lemma {:induction false} FillTableFacts(table: Table, order: seq<string>, rules: Rules, prod: map<ProductionKey, set<string>>,
                                          follow: map<string, set<string>>, d: nat)
    requires Declared(order, rules) && d <= |order|
    ensures FillTable(table, order, rules, prod, follow, d).Ok?
            <==> forall e :: d <= e < |order| ==> RowDefined(prod, follow, order[e], |rules[order[e]]|, 0)
    ensures FillTable(table, order, rules, prod, follow, d).Ok? ==>
      var r := FillTable(table, order, rules, prod, follow, d).value;
      && r.Keys == table.Keys + (set e | d <= e < |order| :: order[e])
      && (forall x :: x in table && x !in order[d..] ==> r[x] == table[x])
      && (forall e :: d <= e < |order| ==> r[order[e]] == FillRow(map[], order[e], rules[order[e]], prod, follow, 0).value)
    decreases |order| - d
  {
    if d < |order| {
      var a := order[d];
      if FillRow(map[], a, rules[a], prod, follow, 0).Ok? {
        var row := FillRow(map[], a, rules[a], prod, follow, 0).value;
        FillTableFacts(table[a := row], order, rules, prod, follow, d + 1);
        assert (set e | d <= e < |order| :: order[e]) == {a} + (set e | d + 1 <= e < |order| :: order[e]);
        assert order[d..] == [a] + order[d + 1..];
      }
    }
  }

  /**
   * BuildParseTable on an empty table: each production `j` of each declared `a` has a cell in every
   * column of FIRST(production) other than EPSILON and, when EPSILON is in it, in every column of
   * FOLLOW(a); every cell holds a production of `a`, the last one that writes that column; and no
   * EPSILON column appears unless a FOLLOW set holds EPSILON.
   */
  lemma ParseTableCells(order: seq<string>, rules: Rules, prod: map<ProductionKey, set<string>>,
                        follow: map<string, set<string>>, a: string)
    requires Declared(order, rules) && a in order
    requires FillTable(map[], order, rules, prod, follow, 0).Ok?
    ensures var r := FillTable(map[], order, rules, prod, follow, 0).value;
      && a in r && RowDefined(prod, follow, a, |rules[a]|, 0)
      && (forall j, t :: 0 <= j < |rules[a]| && t in prod[(a, j)] && t != Epsilon ==> t in r[a])
      && (forall j, t :: 0 <= j < |rules[a]| && Epsilon in prod[(a, j)] && t in follow[a] ==> t in r[a])
      && (forall t :: t in r[a] ==> r[a][t] in rules[a])
      && (forall j, t :: 0 <= j < |rules[a]| && LastWriter(prod, follow, a, |rules[a]|, j, t) ==> r[a][t] == rules[a][j])
      && (a in follow && Epsilon !in follow[a] ==> Epsilon !in r[a])
  {
    FillTableFacts(map[], order, rules, prod, follow, 0);
    var e :| 0 <= e < |order| && order[e] == a;
    assert RowDefined(prod, follow, a, |rules[a]|, 0);
    FillRowFacts(map[], a, rules[a], prod, follow, 0);
    var r := FillTable(map[], order, rules, prod, follow, 0).value;
    forall j, t | 0 <= j < |rules[a]| && t in prod[(a, j)] && t != Epsilon ensures t in r[a] {
      assert t in Cells(prod, follow, a, j);
    }
    forall j, t | 0 <= j < |rules[a]| && Epsilon in prod[(a, j)] && t in follow[a] ensures t in r[a] {
      assert t in Cells(prod, follow, a, j);
    }
  }

  /** GetParseTable: the cell, or nothing when the row or the column is missing. */
  function GetCell(table: Table, nonTerminal: string, input: string): (r: Option<Production>)
    ensures r.Some? <==> nonTerminal in table && input in table[nonTerminal]
    ensures r.Some? ==> r.value == table[nonTerminal][input]
  {
    if nonTerminal in table && input in table[nonTerminal] then Some(table[nonTerminal][input]) else None
  }
}
