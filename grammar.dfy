/**
 * The Grammar class (SyntaxAnalyzer/Grammar.cs): its dictionaries are fields the methods update, and
 * each loop is proved to compute the loop-level function that specifies it.
 * `order` is the order in which `_productions` enumerates its keys. A production's FIRST set is
 * keyed by its non-terminal and its position, since the source keys it by the list object itself.
 */
module Grammars {
  import opened Wrappers
  import opened Text
  import opened Symbols
  import opened FirstSets
  import opened FollowSets
  import opened GrammarBuild
  import opened Validation
  import opened ParseTables

  /** The FIRST sets, FOLLOW sets and parse table Process leaves behind. */
  datatype Tables = Tables(first: FirstState, follow: FollowMap, table: Table)

  /**
   * How Process ends: with the tables it leaves, with the message a step threw, or at the key check
   * with the FIRST and FOLLOW key sets that differ.
   */
  datatype Processed = Done(tables: Tables) | Thrown(msg: string) | KeysDiffer(firstKeys: set<string>, followKeys: set<string>)

  /** What Process computes from the state Build left, stopping at the first step that throws. */
  function ProcessAll(start: string, order: seq<string>, rules: Rules, s0: FirstState, follow0: FollowMap, table0: Table): Processed
    requires Declared(order, rules)
  {
    match FirstPasses(s0, order, rules, |rules|)
    case Err(m) => Thrown(m)
    case Ok(s) =>
      var follow := ComputeFollow(follow0, s.first, start, order, rules, |rules|);
      if s.first.Keys != follow.Keys then KeysDiffer(s.first.Keys, follow.Keys)
      else
        match ValidateAll(rules, s.first, follow, order)
        case Fail(m) => Thrown(m)
        case Pass =>
          match FillTable(table0, order, rules, s.prod, follow, 0)
          case Err(m) => Thrown(m)
          case Ok(t) => Done(Tables(s, follow, t))
  }

  /**
   * After Build, a Process that passes leaves FIRST sets made of terminals and EPSILON, the same
   * names with FIRST and FOLLOW sets (the start symbol among them, with `$` in its FOLLOW set), no
   * EPSILON in any FOLLOW set, no left recursion and no FIRST/FOLLOW overlap from any definition,
   * and the parse table FillTable builds from them on an empty table.
   */
  lemma ProcessFacts(start: string, order: seq<string>, rules: Rules)
    requires Declared(order, rules)
    requires ProcessAll(start, order, rules, FirstState(map[], map[]), map[], map[]).Done?
    ensures var t := ProcessAll(start, order, rules, FirstState(map[], map[]), map[], map[]).tables;
      && Sound(t.first, rules)
      && t.first.first.Keys == t.follow.Keys
      && start in t.first.first && start in t.follow && EndOfStack in t.follow[start]
      && FollowSound(t.follow, t.first.first)
      && (forall e :: 0 <= e < |order| ==> NoLeftRecursion(rules, t.first.first, order[e]) && Disjoint(t.first.first, t.follow, order[e]))
      && FillTable(map[], order, rules, t.first.prod, t.follow, 0) == Ok(t.table)
  {
    var s0 := FirstState(map[], map[]);
    FirstPassesFacts(s0, order, rules, |rules|);
    var s := FirstPasses(s0, order, rules, |rules|).value;
    ComputeFollowFacts(map[], s.first, start, order, rules, |rules|);
  }

  /**
   * What CheckFFKeys checks after Process's FIRST and FOLLOW passes from empty sets: a name has one
   * of the two sets and not the other exactly when it is defined but is neither the start symbol nor
   * used in any production, or is used (or is the start symbol) but never defined.
   */
  lemma FFKeysMeaning(start: string, order: seq<string>, rules: Rules, n: nat)
    requires DefinitionsValid(order, rules) && n > 0
    requires FirstPasses(FirstState(map[], map[]), order, rules, n).Ok?
    ensures var first := FirstPasses(FirstState(map[], map[]), order, rules, n).value.first;
      var follow := ComputeFollow(map[], first, start, order, rules, n);
      && (forall x :: (x in first) != (x in follow) <==> (x in rules) != (x == start || x in UsedFrom(order, rules, 0)))
      && (first.Keys == follow.Keys <==> rules.Keys == {start} + UsedFrom(order, rules, 0))
  {
    var first := FirstPasses(FirstState(map[], map[]), order, rules, n).value.first;
    FirstKeys(order, rules, n);
    FollowKeys(first, start, order, rules, n);
  }

  /** After at least one pass from empty sets, exactly the defined names have FIRST sets. */
  lemma FirstKeys(order: seq<string>, rules: Rules, n: nat)
    requires DefinitionsValid(order, rules) && n > 0
    requires FirstPasses(FirstState(map[], map[]), order, rules, n).Ok?
    ensures FirstPasses(FirstState(map[], map[]), order, rules, n).value.first.Keys == rules.Keys
  {
    FirstPassesFacts(FirstState(map[], map[]), order, rules, n);
    assert NamesFrom(order, 0) == rules.Keys by {
      assert order[0..] == order;
    }
  }

  /** After at least one pass from empty sets, the start symbol and the used names have FOLLOW sets. */
  lemma FollowKeys(first: map<string, set<string>>, start: string, order: seq<string>, rules: Rules, n: nat)
    requires Declared(order, rules) && n > 0
    ensures ComputeFollow(map[], first, start, order, rules, n).Keys == {start} + UsedFrom(order, rules, 0)
  {
    ComputeFollowFacts(map[], first, start, order, rules, n);
  }

  /** FirstPassesLower for a known result `r`. */
  lemma PassesCover(s: FirstState, order: seq<string>, rules: Rules, n: nat, r: FirstState)
    requires Declared(order, rules) && n > 0
    requires FirstPasses(s, order, rules, n) == Ok(r)
    ensures CoversAll(s.first, r, order, rules, 0)
  {
    FirstPassesLower(s, order, rules, n);
  }

  /**
   * A Process that passes leaves FIRST sets that hold what the token loops of the last pass add,
   * and FOLLOW sets that hold what each occurrence adds, each judged by the sets its last pass
   * started from.
   */
  lemma ProcessCovers(start: string, order: seq<string>, rules: Rules)
    requires Declared(order, rules) && |rules| > 0
    requires ProcessAll(start, order, rules, FirstState(map[], map[]), map[], map[]).Done?
    ensures FirstPasses(FirstState(map[], map[]), order, rules, |rules| - 1).Ok?
    ensures CoversAll(FirstPasses(FirstState(map[], map[]), order, rules, |rules| - 1).value.first,
                      ProcessAll(start, order, rules, FirstState(map[], map[]), map[], map[]).tables.first, order, rules, 0)
    ensures var t := ProcessAll(start, order, rules, FirstState(map[], map[]), map[], map[]).tables;
      FollowCoversAll(ComputeFollow(map[], t.first.first, start, order, rules, |rules| - 1), t.first.first, t.follow, order, rules, 0)
  {
    FirstPassesLower(FirstState(map[], map[]), order, rules, |rules|);
    var s := FirstPasses(FirstState(map[], map[]), order, rules, |rules|).value;
    ComputeFollowLower(map[], s.first, start, order, rules, |rules|);
  }

  /** The message CheckFFKeys throws, listing the offending names. */
  function FFKeysMessage(joined: string): string
  {
    "The following tokens [" + joined + "] either are defined but never used in a production, or used in a production but never defined"
  }

  /** The names joined with ", " as the StringBuilder loop of CheckFFKeys writes them. */
  function CommaJoined(ds: seq<string>): string
    requires |ds| > 0
  {
    if |ds| == 1 then ds[0] else ds[0] + ", " + CommaJoined(ds[1..])
  }


  /**
   * `d` names each name with exactly one of the key sets `fk` and `wk`, each once, those with only
   * the first one first and in `order`.
   */
  ghost predicate ListsDiffKeys(order: seq<string>, fk: set<string>, wk: set<string>, d: seq<string>)
  {
    && (forall x :: x in d <==> (x in fk) != (x in wk))
    && (forall i, j :: 0 <= i < j < |d| ==> d[i] != d[j])
    && |OnlyIn(order, fk, wk)| <= |d| && d[..|OnlyIn(order, fk, wk)|] == OnlyIn(order, fk, wk)
  }

  /** The names of `order` that are in `keys` and not in `other`, in the order of `order`. */
  function OnlyIn(order: seq<string>, keys: set<string>, other: set<string>): seq<string>
    decreases |order|
  {
    if order == [] then []
    else (if order[0] in keys && order[0] !in other then [order[0]] else []) + OnlyIn(order[1..], keys, other)
  }

  /** OnlyIn holds exactly the names of `order` in one set and not the other, each once when `order` repeats none. */
  lemma {:induction false} OnlyInFacts(order: seq<string>, keys: set<string>, other: set<string>)
    ensures forall x :: x in OnlyIn(order, keys, other) <==> x in order && x in keys && x !in other
    ensures (forall d, d' :: 0 <= d < d' < |order| ==> order[d] != order[d'])
            ==> forall i, j :: 0 <= i < j < |OnlyIn(order, keys, other)| ==> OnlyIn(order, keys, other)[i] != OnlyIn(order, keys, other)[j]
    decreases |order|
  {
    if order != [] {
      var rest := order[1..];
      OnlyInFacts(rest, keys, other);
      assert forall x :: x in order <==> x == order[0] || x in rest;
      if forall d, d' :: 0 <= d < d' < |order| ==> order[d] != order[d'] {
        assert forall d, d' :: 0 <= d < d' < |rest| ==> rest[d] != rest[d'] by {
          forall d, d' | 0 <= d < d' < |rest| ensures rest[d] != rest[d'] {
            assert rest[d] == order[d + 1] && rest[d'] == order[d' + 1];
          }
        }
        assert order[0] !in rest by {
          forall d | 0 <= d < |rest| ensures rest[d] != order[0] {
            assert rest[d] == order[d + 1];
          }
        }
      }
    }
  }

  /**
   * The first loop of CheckFFKeys (SyntaxAnalyzer/Grammar.cs:256-260): the names with a FIRST set
   * and no FOLLOW set, in the enumeration order of `_firstSet`, which is `order`, the order in which
   * ComputeFirstSet inserts the names.
   */
  method FirstOnlyKeys(order: seq<string>, keys: set<string>, other: set<string>) returns (diff: seq<string>)
    ensures diff == OnlyIn(order, keys, other)
  {
    diff := [];
    for d := 0 to |order|
      invariant OnlyIn(order, keys, other) == diff + OnlyIn(order[d..], keys, other)
    {
      assert order[d..][1..] == order[d + 1..];
      if order[d] in keys && order[d] !in other {
        diff := diff + [order[d]];
      }
    }
    assert order[|order|..] == [];
  }

  /** Two sequences without repeats and without a common element concatenate to one without repeats. */
  lemma DistinctConcat(a: seq<string>, b: seq<string>)
    requires forall i, j :: 0 <= i < j < |a| ==> a[i] != a[j]
    requires forall i, j :: 0 <= i < j < |b| ==> b[i] != b[j]
    requires forall x :: x in a ==> x !in b
    ensures forall i, j :: 0 <= i < j < |a + b| ==> (a + b)[i] != (a + b)[j]
    ensures forall x :: x in a + b <==> x in a || x in b
    ensures (a + b)[..|a|] == a
  {
    forall i, j | 0 <= i < j < |a + b| ensures (a + b)[i] != (a + b)[j] {
      if j >= |a| && i < |a| {
        assert (a + b)[i] in a && (a + b)[j] == b[j - |a|];
      } else if i >= |a| {
        assert (a + b)[i] == b[i - |a|] && (a + b)[j] == b[j - |a|];
      }
    }
    assert (a + b)[..|a|] == a;
  }

  /**
   * The names CheckFFKeys lists: those of `order` with only a FIRST set, then the others with only a
   * FOLLOW set; each name in one key set and not the other once, and none when the key sets agree.
   */
  lemma DiffKeysFacts(order: seq<string>, fk: set<string>, wk: set<string>, onlyFollow: seq<string>)
    requires forall d, d' :: 0 <= d < d' < |order| ==> order[d] != order[d']
    requires forall x :: x in fk ==> x in order
    requires forall x :: x in onlyFollow <==> x in wk && x !in fk
    requires forall i, j :: 0 <= i < j < |onlyFollow| ==> onlyFollow[i] != onlyFollow[j]
    ensures var diff := OnlyIn(order, fk, wk) + onlyFollow;
      && (forall x :: x in diff <==> (x in fk) != (x in wk))
      && (forall i, j :: 0 <= i < j < |diff| ==> diff[i] != diff[j])
      && diff[..|OnlyIn(order, fk, wk)|] == OnlyIn(order, fk, wk)
      && (|diff| == 0 <==> fk == wk)
  {
    var onlyFirst := OnlyIn(order, fk, wk);
    OnlyInFacts(order, fk, wk);
    DistinctConcat(onlyFirst, onlyFollow);
    var diff := onlyFirst + onlyFollow;
    if |diff| == 0 {
      forall x ensures x in fk <==> x in wk {
        assert x !in onlyFirst && x !in onlyFollow;
      }
    } else {
      assert diff[0] in diff;
    }
  }

  /**
   * The second loop of CheckFFKeys (SyntaxAnalyzer/Grammar.cs:261-265): the keys missing from
   * `other`, each once, in an order the model leaves open.
   */
  method MissingKeys(keys: set<string>, other: set<string>) returns (diff: seq<string>)
    ensures forall x :: x in diff <==> x in keys && x !in other
    ensures forall i, j :: 0 <= i < j < |diff| ==> diff[i] != diff[j]
  {
    diff := [];
    var rest := keys;
    while rest != {}
      invariant rest <= keys
      invariant forall x :: x in diff <==> x in keys && x !in rest && x !in other
      invariant forall i, j :: 0 <= i < j < |diff| ==> diff[i] != diff[j]
      decreases |rest|
    {
      var key :| key in rest;
      if key !in other {
        assert key !in diff;
        diff := diff + [key];
      }
      rest := rest - {key};
    }
  }

  /** The StringBuilder loop of CheckFFKeys (SyntaxAnalyzer/Grammar.cs:268-271). */
  method JoinKeys(diff: seq<string>) returns (joined: string)
    requires |diff| > 0
    ensures joined == CommaJoined(diff)
  {
    joined := "";
    var i := 0;
    while i < |diff| - 1
      invariant i <= |diff| - 1
      invariant CommaJoined(diff) == joined + CommaJoined(diff[i..])
    {
      joined := joined + diff[i] + ", ";
      i := i + 1;
    }
    joined := joined + diff[|diff| - 1];
  }


  /**
   * The FIRST-set loop of BuildParseTable (SyntaxAnalyzer/Grammar.cs:341-348): each column of `pf`
   * other than EPSILON now holds `p`, and whether EPSILON was met.
   */
  method FirstColumns(row: Row, pf: set<string>, p: Production) returns (r: Row, hasEpsilon: bool)
    ensures r == row + map t | t in pf - {Epsilon} :: p
    ensures hasEpsilon <==> Epsilon in pf
  {
    r := row;
    hasEpsilon := false;
    var rest := pf;
    while rest != {}
      invariant rest <= pf
      invariant hasEpsilon <==> Epsilon in pf && Epsilon !in rest
      invariant forall t :: t in r <==> t in row || (t in pf && t !in rest && t != Epsilon)
      invariant forall t :: t in r ==> r[t] == if t in pf && t !in rest && t != Epsilon then p else row[t]
      decreases |rest|
    {
      var token :| token in rest;
      if token != Epsilon {
        r := r[token := p];
      } else {
        hasEpsilon := true;
      }
      rest := rest - {token};
    }
    assert r == row + map t | t in pf - {Epsilon} :: p;
  }

  /** The FOLLOW-set loop of BuildParseTable (SyntaxAnalyzer/Grammar.cs:351-357): each column of `follow` now holds `p`. */
  method FollowColumns(row: Row, follow: set<string>, p: Production) returns (r: Row)
    ensures r == row + map t | t in follow :: p
  {
    r := row;
    var rest := follow;
    while rest != {}
      invariant rest <= follow
      invariant forall t :: t in r <==> t in row || (t in follow && t !in rest)
      invariant forall t :: t in r ==> r[t] == if t in follow && t !in rest then p else row[t]
      decreases |rest|
    {
      var token :| token in rest;
      r := r[token := p];
      rest := rest - {token};
    }
    assert r == row + map t | t in follow :: p;
  }

  /** The word loop of Build (SyntaxAnalyzer/Grammar.cs:396-404). */
  method ReadProductionWords(ws: seq<string>) returns (r: Result<Production>)
    ensures r == ReadWords([], ws, 0)
  {
    var acc: Production := [];
    var i := 0;
    while i < |ws|
      invariant i <= |ws| && Words(acc)
      invariant ReadWords([], ws, 0) == ReadWords(acc, ws, i)
    {
      var word := ws[i];
      if word == "" {
        return Err(IndexOutOfRange);
      }
      if (IsTerminal(word) || IsEpsilon(word)) && HasAction(acc) {
        return Err(MixedProduction);
      }
      acc := acc + [word];
      i := i + 1;
    }
    return Ok(acc);
  }

  /** The production loop of Build (SyntaxAnalyzer/Grammar.cs:385-405). */
  method ReadProductionStrings(texts: seq<string>) returns (r: Result<seq<Production>>)
    ensures r == ReadDefinition([], Readings(texts), 0)
    ensures r.Ok? ==> forall m :: 0 <= m < |r.value| ==> Words(r.value[m])
  {
    ghost var rs := Readings(texts);
    var acc: seq<Production> := [];
    var j := 0;
    while j < |texts|
      invariant j <= |texts|
      invariant forall m :: 0 <= m < |acc| ==> Words(acc[m])
      invariant ReadDefinition([], rs, 0) == ReadDefinition(acc, rs, j)
    {
      var production := Trim(texts[j]);
      if IsBlank(production) {
        return Err(EmptyProduction);
      }
      var words := ReadProductionWords(Split(production, ' '));
      if words.Err? {
        return Err(words.msg);
      }
      acc := acc + [words.value];
      j := j + 1;
    }
    return Ok(acc);
  }

  /** The definition fields `order` and `rules` are well formed: each name is listed once and defined. */
  ghost predicate DefinitionsValid(order: seq<string>, rules: Rules)
  {
    && Declared(order, rules)
    && (forall x :: x in rules <==> x in order)
    && (forall d, d' :: 0 <= d < d' < |order| ==> order[d] != order[d'])
  }

  lemma DefinitionsValidNext(order: seq<string>, rules: Rules, name: string, ps: seq<Production>)
    requires DefinitionsValid(order, rules) && name !in rules
    requires forall m :: 0 <= m < |ps| ==> Words(ps[m])
    ensures DefinitionsValid(order + [name], rules[name := ps])
  {
    var order' := order + [name];
    forall x | x in order' ensures x in rules[name := ps] {
      if x != name {
        var d :| 0 <= d < |order'| && order'[d] == x;
        assert order[d] == x;
      }
    }
  }

  /** One entry of Build, once its key checks pass and its strings have been read into `ps`. */
  lemma AssembleEntry(b: Definitions, entries: seq<Entry>, e: nat, ps: Result<seq<Production>>)
    requires e < |entries| && |entries[e].1| > 0 && !IsBlank(entries[e].0) && entries[e].0 !in b.rules
    requires ps == ReadDefinition([], Readings(entries[e].1), 0)
    ensures var defs := ReadAll(entries);
      Assemble(b, entries, defs, e) == if ps.Err? then Err(ps.msg) else Assemble(Next(b, entries[e].0, ps.value), entries, defs, e + 1)
  {
  }

  /**
   * The entry loop of Build over the definitions `b`; `b` is updated after each entry that is read
   * completely. `keep` is a set of names that stay defined.
   */
  method ReadEntriesLoop(b0: Definitions, entries: seq<Entry>, ghost keep: set<string>) returns (r: Outcome, b: Definitions)
    requires DefinitionsValid(b0.order, b0.rules) && keep <= b0.rules.Keys
    ensures DefinitionsValid(b.order, b.rules) && keep <= b.rules.Keys
    ensures var res := ReadEntries(b0, entries);
      && r == OutcomeOf(res)
      && (res.Ok? ==> b == res.value)
  {
    ghost var defs := ReadAll(entries);
    b := b0;
    var e := 0;
    while e < |entries|
      invariant e <= |entries| && DefinitionsValid(b.order, b.rules) && keep <= b.rules.Keys
      invariant Assemble(b0, entries, defs, 0) == Assemble(b, entries, defs, e)
    {
      var nonTerminal, texts := entries[e].0, entries[e].1;
      if |texts| == 0 {
        return Fail(EmptyArray(nonTerminal)), b;
      }
      if IsBlank(nonTerminal) {
        return Fail(EmptyKey), b;
      }
      if nonTerminal in b.rules {
        return Fail(Regrouped(nonTerminal)), b;
      }
      var ps := ReadProductionStrings(texts);
      AssembleEntry(b, entries, e, ps);
      if ps.Err? {
        return Fail(ps.msg), b;
      }
      DefinitionsValidNext(b.order, b.rules, nonTerminal, ps.value);
      b := Next(b, nonTerminal, ps.value);
      e := e + 1;
    }
    return Pass, b;
  }

  class Grammar {
    var start: string
    var order: seq<string>
    var productions: Rules
    var firstSet: map<string, set<string>>
    var productionFirstSet: map<ProductionKey, set<string>>
    var followSet: map<string, set<string>>
    var parseTable: Table

    /** `order` lists each defined non-terminal once, and FIRST sets exist only for defined ones. */
    ghost predicate Valid()
      reads this`order, this`productions, this`firstSet
    {
      && DefinitionsValid(order, productions)
      && firstSet.Keys <= productions.Keys
    }

    constructor ()
      ensures Valid()
      ensures start == "" && order == [] && productions == map[]
      ensures firstSet == map[] && productionFirstSet == map[] && followSet == map[] && parseTable == map[]
    {
      start := "";
      order := [];
      productions := map[];
      firstSet := map[];
      productionFirstSet := map[];
      followSet := map[];
      parseTable := map[];
    }

    /**
     * Build (SyntaxAnalyzer/Grammar.cs:363-408): reads the entries on top of the current definitions.
     * When it fails, only validity and the untouched sets and table are stated.
     */
    method Build(entries: seq<Entry>) returns (r: Outcome)
      requires Valid()
      modifies this
      ensures Valid()
      ensures var res := ReadEntries(Definitions(old(start), old(order), old(productions)), entries);
        && r == OutcomeOf(res)
        && (res.Ok? ==> start == res.value.start && order == res.value.order && productions == res.value.rules)
      ensures firstSet == old(firstSet) && productionFirstSet == old(productionFirstSet)
      ensures followSet == old(followSet) && parseTable == old(parseTable)
    {
      var b;
      r, b := ReadEntriesLoop(Definitions(start, order, productions), entries, firstSet.Keys);
      start, order, productions := b.start, b.order, b.rules;
    }

    /** The token loop of ComputeFirstSet for production `k` of `a` (SyntaxAnalyzer/Grammar.cs:80-153). */
    method FirstScan(a: string, k: ProductionKey, p: Production) returns (r: Outcome)
      requires a in firstSet && k in productionFirstSet && Words(p)
      modifies this`firstSet, this`productionFirstSet
      ensures var res := ScanFirst(FirstState(old(firstSet), old(productionFirstSet)), a, k, p, 0);
        && r == OutcomeOf(res)
        && (res.Ok? ==> FirstState(firstSet, productionFirstSet) == res.value)
      ensures firstSet.Keys == old(firstSet).Keys
    {
      ghost var s0 := FirstState(firstSet, productionFirstSet);
      var i := 0;
      while i < |p|
        invariant i <= |p| && a in firstSet && k in productionFirstSet && firstSet.Keys == old(firstSet).Keys
        invariant ScanFirst(s0, a, k, p, 0) == ScanFirst(FirstState(firstSet, productionFirstSet), a, k, p, i)
      {
        var token := p[i];
        if IsTerminal(token) {
          var extracted := ExtractTerminal(token);
          if extracted.Err? {
            return Fail(extracted.msg);
          }
          productionFirstSet := productionFirstSet[k := productionFirstSet[k] + {extracted.value}];
          firstSet := firstSet[a := firstSet[a] + {extracted.value}];
        } else if IsEpsilon(token) {
          productionFirstSet := productionFirstSet[k := productionFirstSet[k] + {token}];
          firstSet := firstSet[a := firstSet[a] + {token}];
        } else if IsNonTerminal(token) {
          var tokenFirstSet := GetFirstSet(token);
          if tokenFirstSet.None? {
            return Pass;
          }
          var f := tokenFirstSet.value;
          if Epsilon !in f || LastNonTerminal(p) == Ok(token) {
            productionFirstSet := productionFirstSet[k := productionFirstSet[k] + f];
            firstSet := firstSet[a := firstSet[a] + f];
            return Pass;
          }
          productionFirstSet := productionFirstSet[k := productionFirstSet[k] + (f - {Epsilon})];
          firstSet := firstSet[a := firstSet[a] + (f - {Epsilon})];
        }
        i := i + 1;
      }
      return Pass;
    }

    /** The production loop of ComputeFirstSet for definition `a` (SyntaxAnalyzer/Grammar.cs:71-154). */
    method FirstDefinition(a: string) returns (r: Outcome)
      requires a in firstSet && a in productions && AllWords(productions)
      modifies this`firstSet, this`productionFirstSet
      ensures var res := FirstProductions(FirstState(old(firstSet), old(productionFirstSet)), a, productions[a], 0);
        && r == OutcomeOf(res)
        && (res.Ok? ==> FirstState(firstSet, productionFirstSet) == res.value)
      ensures firstSet.Keys == old(firstSet).Keys
    {
      ghost var s0 := FirstState(firstSet, productionFirstSet);
      var ps := productions[a];
      assert forall m :: 0 <= m < |ps| ==> Words(ps[m]);
      var j := 0;
      while j < |ps|
        invariant j <= |ps| && a in firstSet && firstSet.Keys == old(firstSet).Keys
        invariant FirstProductions(s0, a, ps, 0) == FirstProductions(FirstState(firstSet, productionFirstSet), a, ps, j)
      {
        ghost var here := FirstState(firstSet, productionFirstSet);
        FirstProductionsStep(here, a, ps, j);
        r := FirstProduction(a, j);
        if r.Fail? {
          return;
        }
        j := j + 1;
      }
      return Pass;
    }

    /** One turn of the production loop of ComputeFirstSet: production `j` of `a` (SyntaxAnalyzer/Grammar.cs:74-153). */
    method FirstProduction(a: string, j: nat) returns (r: Outcome)
      requires a in firstSet && a in productions && j < |productions[a]| && Words(productions[a][j])
      modifies this`firstSet, this`productionFirstSet
      ensures var res := ScanFirst(OpenProduction(FirstState(old(firstSet), old(productionFirstSet)), (a, j)), a, (a, j), productions[a][j], 0);
        && r == OutcomeOf(res)
        && (res.Ok? ==> FirstState(firstSet, productionFirstSet) == res.value)
      ensures firstSet.Keys == old(firstSet).Keys
    {
      if (a, j) !in productionFirstSet {
        productionFirstSet := productionFirstSet[(a, j) := {}];
      }
      r := FirstScan(a, (a, j), productions[a][j]);
    }

    /** One pass of ComputeFirstSet over all definitions (SyntaxAnalyzer/Grammar.cs:62-155). */
    method FirstPass() returns (r: Outcome)
      requires Valid()
      modifies this`firstSet, this`productionFirstSet
      ensures Valid()
      ensures var res := FirstDefinitions(FirstState(old(firstSet), old(productionFirstSet)), order, productions, 0);
        && r == OutcomeOf(res)
        && (res.Ok? ==> FirstState(firstSet, productionFirstSet) == res.value)
    {
      ghost var s0 := FirstState(firstSet, productionFirstSet);
      var d := 0;
      while d < |order|
        invariant d <= |order| && Valid()
        invariant FirstDefinitions(s0, order, productions, 0) == FirstDefinitions(FirstState(firstSet, productionFirstSet), order, productions, d)
      {
        var a := order[d];
        if a !in firstSet {
          firstSet := firstSet[a := {}];
        }
        r := FirstDefinition(a);
        if r.Fail? {
          return;
        }
        d := d + 1;
      }
      return Pass;
    }

    /** ComputeFirstSet (SyntaxAnalyzer/Grammar.cs:56-158): as many passes as there are definitions. */
    method ComputeFirstSet() returns (r: Outcome)
      requires Valid()
      modifies this`firstSet, this`productionFirstSet
      ensures Valid()
      ensures var res := FirstPasses(FirstState(old(firstSet), old(productionFirstSet)), order, productions, |productions|);
        && r == OutcomeOf(res)
        && (res.Ok? ==> FirstState(firstSet, productionFirstSet) == res.value)
      ensures r.Pass? && |productions| > 0 ==> CoversAll(old(firstSet), FirstState(firstSet, productionFirstSet), order, productions, 0)
    {
      ghost var s0 := FirstState(firstSet, productionFirstSet);
      var count := |productions|;
      var z := 0;
      while z < count
        invariant z <= count && Valid()
        invariant FirstPasses(s0, order, productions, count) == FirstPasses(FirstState(firstSet, productionFirstSet), order, productions, count - z)
      {
        ghost var s1 := FirstState(firstSet, productionFirstSet);
        r := FirstPass();
        if r.Fail? {
          assert FirstPasses(s1, order, productions, count - z).Err?;
          return;
        }
        assert FirstPasses(s1, order, productions, count - z)
               == FirstPasses(FirstState(firstSet, productionFirstSet), order, productions, count - z - 1);
        z := z + 1;
      }
      if count > 0 {
        assert FirstPasses(s0, order, productions, count) == Ok(FirstState(firstSet, productionFirstSet));
        PassesCover(s0, order, productions, count, FirstState(firstSet, productionFirstSet));
      }
      return Pass;
    }

    /** GetFirstSet (SyntaxAnalyzer/Grammar.cs:437-442). */
    function GetFirstSet(token: string): (r: Option<set<string>>)
      requires token != ""
      reads this
      ensures r.Some? <==> IsNonTerminal(token) && token in firstSet
      ensures r.Some? ==> r.value == firstSet[token]
    {
      FirstOf(firstSet, token)
    }

    /**
     * The inner while loop after occurrence `i` (SyntaxAnalyzer/Grammar.cs:208-236): the non-EPSILON
     * FIRST tokens it copies and whether it ran to the end of the production.
     */
    method TrailingScan(p: Production, i: nat) returns (added: set<string>, atEnd: bool)
      requires Words(p) && i < |p|
      ensures (added, atEnd) == Trailing(firstSet, p, i + 1)
    {
      added := {};
      var j := i + 1;
      ghost var t := Trailing(firstSet, p, i + 1);
      assert t.0 == added + t.0;
      while j < |p|
        invariant i + 1 <= j <= |p|
        invariant t.0 == added + Trailing(firstSet, p, j).0 && t.1 == Trailing(firstSet, p, j).1
      {
        var tokenFirstSet := GetFirstSet(p[j]);
        if tokenFirstSet.Some? {
          var f := tokenFirstSet.value;
          added := added + (f - {Epsilon});
          if Epsilon !in f {
            return added, false;
          }
        }
        j := j + 1;
      }
      return added, true;
    }

    /** One occurrence in ComputeFollowSet: the trailing scan, then the end-of-production copy (SyntaxAnalyzer/Grammar.cs:199-246). */
    method FollowScan(a: string, p: Production, i: nat)
      requires Words(p) && i < |p| && IsNonTerminal(p[i])
      modifies this`followSet
      ensures followSet == FollowOccurrence(old(followSet), firstSet, a, p, i)
    {
      var current := p[i];
      if current !in followSet {
        followSet := followSet[current := {}];
      }
      var added, atEnd := TrailingScan(p, i);
      followSet := followSet[current := followSet[current] + added];
      if atEnd && a in followSet {
        followSet := followSet[current := followSet[current] + followSet[a]];
      }
    }

    /** The token loop of ComputeFollowSet over production `p` of `a` (SyntaxAnalyzer/Grammar.cs:174-248). */
    method FollowScanProduction(a: string, p: Production)
      requires Words(p)
      modifies this`followSet
      ensures followSet == FollowProduction(old(followSet), firstSet, a, p, 0)
    {
      var i := 0;
      while i < |p|
        invariant i <= |p|
        invariant FollowProduction(old(followSet), firstSet, a, p, 0) == FollowProduction(followSet, firstSet, a, p, i)
      {
        if IsNonTerminal(p[i]) {
          FollowScan(a, p, i);
        }
        i := i + 1;
      }
    }

    /** One pass of ComputeFollowSet over all definitions (SyntaxAnalyzer/Grammar.cs:169-249). */
    method FollowPass()
      requires Valid()
      modifies this`followSet
      ensures followSet == FollowDefinitions(old(followSet), firstSet, order, productions, 0)
    {
      var d := 0;
      while d < |order|
        invariant d <= |order|
        invariant FollowDefinitions(old(followSet), firstSet, order, productions, 0) == FollowDefinitions(followSet, firstSet, order, productions, d)
      {
        var ps := productions[order[d]];
        ghost var f1 := followSet;
        var j := 0;
        while j < |ps|
          invariant j <= |ps|
          invariant FollowProductions(f1, firstSet, order[d], ps, 0) == FollowProductions(followSet, firstSet, order[d], ps, j)
        {
          FollowScanProduction(order[d], ps[j]);
          j := j + 1;
        }
        d := d + 1;
      }
    }

    /** ComputeFollowSet (SyntaxAnalyzer/Grammar.cs:160-251): the seed, then one pass per definition. */
    method ComputeFollowSet()
      requires Valid()
      modifies this`followSet
      ensures followSet == ComputeFollow(old(followSet), firstSet, start, order, productions, |productions|)
      ensures |productions| > 0 ==>
        FollowCoversAll(ComputeFollow(old(followSet), firstSet, start, order, productions, |productions| - 1), firstSet, followSet, order, productions, 0)
    {
      ghost var follow0 := followSet;
      followSet := followSet[start := {EndOfStack}];
      var count := |productions|;
      var z := 0;
      while z < count
        invariant z <= count
        invariant ComputeFollow(old(followSet), firstSet, start, order, productions, count) == FollowPasses(followSet, firstSet, order, productions, count - z)
      {
        FollowPass();
        z := z + 1;
      }
      if count > 0 {
        ComputeFollowLower(follow0, firstSet, start, order, productions, count);
      }
    }

    /** GetFollowSet (SyntaxAnalyzer/Grammar.cs:444-449). */
    function GetFollowSet(token: string): (r: Option<set<string>>)
      requires token != ""
      reads this
      ensures r.Some? <==> IsNonTerminal(token) && token in followSet
      ensures r.Some? ==> r.value == followSet[token]
    {
      FirstOf(followSet, token)
    }

    /**
     * CheckFFKeys (SyntaxAnalyzer/Grammar.cs:253-276): fails exactly when some name has a FIRST set
     * but no FOLLOW set or the other way round, naming each of them once: first the names with only
     * a FIRST set, in `order`, then those with only a FOLLOW set.
     */
    method CheckFFKeys() returns (r: Outcome, ghost diffKeys: seq<string>)
      requires Valid()
      ensures forall x :: x in diffKeys <==> (x in firstSet) != (x in followSet)
      ensures forall i, j :: 0 <= i < j < |diffKeys| ==> diffKeys[i] != diffKeys[j]
      ensures var firstOnly := OnlyIn(order, firstSet.Keys, followSet.Keys);
        |firstOnly| <= |diffKeys| && diffKeys[..|firstOnly|] == firstOnly
      ensures r.Pass? <==> firstSet.Keys == followSet.Keys
      ensures r.Fail? ==> |diffKeys| > 0 && r.msg == FFKeysMessage(CommaJoined(diffKeys))
    {
      var fk, wk := firstSet.Keys, followSet.Keys;
      var onlyFirst := FirstOnlyKeys(order, fk, wk);
      var onlyFollow := MissingKeys(wk, fk);
      var diff := onlyFirst + onlyFollow;
      diffKeys := diff;
      assert forall x :: x in fk ==> x in order;
      DiffKeysFacts(order, fk, wk, onlyFollow);
      if |diff| == 0 {
        return Pass, diffKeys;
      }
      var joined := JoinKeys(diff);
      r := Fail(FFKeysMessage(joined));
      assert diff[0] in diff;
    }

    /**
     * The i-loop of Validate's condition 1 (SyntaxAnalyzer/Grammar.cs:280-285): the first definition
     * a left-recursive walk starts from fails, with the name the walk found.
     */
    method CheckLeftRecursion() returns (r: Outcome)
      requires Valid()
      ensures r == LeftRecursionCheck(productions, firstSet, order, 0)
    {
      var d := 0;
      while d < |order|
        invariant d <= |order|
        invariant LeftRecursionCheck(productions, firstSet, order, 0) == LeftRecursionCheck(productions, firstSet, order, d)
      {
        var leftRecursiveToken := GetLeftRecursion(order[d], {});
        if leftRecursiveToken.Err? {
          return Fail(leftRecursiveToken.msg);
        }
        if !IsBlank(leftRecursiveToken.value) {
          return Fail(LeftRecursionMessage(leftRecursiveToken.value, order[d]));
        }
        d := d + 1;
      }
      return Pass;
    }

    /** The loop of Validate's condition 3 (SyntaxAnalyzer/Grammar.cs:303-319). */
    method CheckOverlap() returns (r: Outcome)
      ensures r == OverlapCheck(firstSet, followSet, order, 0)
    {
      var d := 0;
      while d < |order|
        invariant d <= |order|
        invariant OverlapCheck(firstSet, followSet, order, 0) == OverlapCheck(firstSet, followSet, order, d)
      {
        var a := order[d];
        if a in firstSet && Epsilon in firstSet[a] {
          var intersection := NullableOverlap(a, firstSet[a]);
          if intersection.Err? {
            return Fail(intersection.msg);
          }
          if |intersection.value| > 0 {
            return Fail(OverlapMessage);
          }
        }
        d := d + 1;
      }
      return Pass;
    }

    /** Validate (SyntaxAnalyzer/Grammar.cs:278-320): condition 1, then condition 3. */
    method Validate() returns (r: Outcome)
      requires Valid()
      ensures r == ValidateAll(productions, firstSet, followSet, order)
    {
      r := CheckLeftRecursion();
      if r.Pass? {
        r := CheckOverlap();
      }
    }

    /**
     * GetLeftRecursion (SyntaxAnalyzer/Grammar.cs:459-493): the walk from `token` with `visited` on
     * the path, as LeftRec defines it.
     */
    method GetLeftRecursion(token: string, visited: set<string>) returns (r: Result<string>)
      requires Valid()
      ensures r == LeftRec(productions, firstSet, token, visited)
      decreases |productions.Keys - visited|, 1
    {
      if token in visited {
        return Ok(token);
      }
      if token !in productions {
        return Err(KeyNotFound(token));
      }
      var j := 0;
      while j < |productions[token]|
        invariant j <= |productions[token]|
        invariant LeftRec(productions, firstSet, token, visited) == LRProductions(productions, firstSet, token, visited, j)
      {
        var result := LeftRecursionIn(token, visited, j);
        if result.Err? || !IsBlank(result.value) {
          return result;
        }
        j := j + 1;
      }
      return Ok("");
    }

    /** The token loop of GetLeftRecursion over production `j` of `token` (SyntaxAnalyzer/Grammar.cs:472-488). */
    method LeftRecursionIn(token: string, visited: set<string>, j: nat) returns (r: Result<string>)
      requires Valid() && token in productions && token !in visited && j < |productions[token]|
      ensures r == LRWords(productions, firstSet, token, visited, j, 0)
      decreases |productions.Keys - visited|, 0
    {
      var p := productions[token][j];
      var i := 0;
      while i < |p|
        invariant i <= |p|
        invariant LRWords(productions, firstSet, token, visited, j, 0) == LRWords(productions, firstSet, token, visited, j, i)
      {
        var syntaxToken := p[i];
        ghost var here := LRWords(productions, firstSet, token, visited, j, i);
        if IsNonTerminal(syntaxToken) {
          PathShrinks(productions.Keys, visited, token);
          var result := GetLeftRecursion(syntaxToken, visited + {token});
          if result.Err? || !IsBlank(result.value) {
            return result;
          }
          if syntaxToken !in firstSet {
            return Err(KeyNotFound(syntaxToken));
          }
          if Epsilon !in firstSet[syntaxToken] {
            return Ok("");
          }
          assert here == LRWords(productions, firstSet, token, visited, j, i + 1);
        } else if IsTerminal(syntaxToken) {
          return Ok("");
        } else {
          assert here == LRWords(productions, firstSet, token, visited, j, i + 1);
        }
        i := i + 1;
      }
      return Ok("");
    }

    /**
     * Condition 3 for one non-terminal `a` with EPSILON in its FIRST set (SyntaxAnalyzer/Grammar.cs:305-318):
     * the members other than EPSILON that are also in FOLLOW(a). The FOLLOW set is looked up for the
     * first such member, so a missing one fails only then.
     */
    method NullableOverlap(a: string, fs: set<string>) returns (r: Result<set<string>>)
      ensures r == if fs - {Epsilon} == {} then Ok({})
                   else if a !in followSet then Err(KeyNotFound(a))
                   else Ok((fs - {Epsilon}) * followSet[a])
    {
      ghost var fa := if a in followSet then followSet[a] else {};
      var intersection: set<string> := {};
      var rest := fs;
      while rest != {}
        invariant rest <= fs
        invariant a !in followSet ==> forall t :: t in fs && t !in rest ==> t == Epsilon
        invariant forall t :: t in intersection <==> t in fs && t !in rest && t != Epsilon && t in fa
        decreases |rest|
      {
        var token :| token in rest;
        if token != Epsilon {
          if a !in followSet {
            assert token in fs - {Epsilon};
            return Err(KeyNotFound(a));
          }
          if token in followSet[a] {
            intersection := intersection + {token};
          }
        }
        rest := rest - {token};
      }
      if fs - {Epsilon} == {} {
        assert intersection == {};
      } else {
        assert intersection == (fs - {Epsilon}) * followSet[a];
      }
      return Ok(intersection);
    }

    /** The production loop of BuildParseTable for the definition `a` (SyntaxAnalyzer/Grammar.cs:331-358). */
    method FillRowLoop(a: string, ps: seq<Production>) returns (r: Result<Row>)
      ensures r == FillRow(map[], a, ps, productionFirstSet, followSet, 0)
    {
      var row: Row := map[];
      var j := 0;
      while j < |ps|
        invariant j <= |ps|
        invariant FillRow(map[], a, ps, productionFirstSet, followSet, 0) == FillRow(row, a, ps, productionFirstSet, followSet, j)
      {
        if (a, j) !in productionFirstSet {
          return Err(KeyNotFound(ListKeyName));
        }
        var pFirstSet := productionFirstSet[(a, j)];
        var hasEpsilon;
        row, hasEpsilon := FirstColumns(row, pFirstSet, ps[j]);
        if hasEpsilon {
          if a !in followSet {
            return Err(KeyNotFound(a));
          }
          row := FollowColumns(row, followSet[a], ps[j]);
        }
        j := j + 1;
      }
      return Ok(row);
    }

    /**
     * BuildParseTable (SyntaxAnalyzer/Grammar.cs:322-361): a fresh row for every definition in
     * declaration order, as FillTable defines it.
     */
    method BuildParseTable() returns (r: Outcome)
      requires Valid()
      modifies this`parseTable
      ensures var res := FillTable(old(parseTable), order, productions, productionFirstSet, followSet, 0);
        && r == OutcomeOf(res)
        && (res.Ok? ==> parseTable == res.value)
    {
      var d := 0;
      while d < |order|
        invariant d <= |order|
        invariant FillTable(old(parseTable), order, productions, productionFirstSet, followSet, 0)
                  == FillTable(parseTable, order, productions, productionFirstSet, followSet, d)
      {
        var a := order[d];
        var row := FillRowLoop(a, productions[a]);
        if row.Err? {
          return Fail(row.msg);
        }
        parseTable := parseTable[a := row.value];
        d := d + 1;
      }
      return Pass;
    }

    /** GetParseTable (SyntaxAnalyzer/Grammar.cs:429-435): the cell of `nonTerminal` and `input`, if there is one. */
    function GetParseTable(nonTerminal: string, input: string): (r: Option<Production>)
      reads this
      ensures r.Some? <==> nonTerminal in parseTable && input in parseTable[nonTerminal]
      ensures r.Some? ==> r.value == parseTable[nonTerminal][input]
    {
      GetCell(parseTable, nonTerminal, input)
    }

    /**
     * Process (SyntaxAnalyzer/Grammar.cs:25-34): FIRST sets, FOLLOW sets, the key check, Validate
     * and the parse table, stopping at the first step that throws.
     */
    method Process() returns (r: Outcome)
      requires Valid()
      modifies this`firstSet, this`productionFirstSet, this`followSet, this`parseTable
      ensures Valid()
      ensures var res := ProcessAll(start, order, productions, FirstState(old(firstSet), old(productionFirstSet)), old(followSet), old(parseTable));
        && (r.Pass? <==> res.Done?)
        && (res.Done? ==> res.tables == Tables(FirstState(firstSet, productionFirstSet), followSet, parseTable))
        && (res.Thrown? ==> r == Fail(res.msg))
        && (res.KeysDiffer? ==> r.Fail? && exists d :: ListsDiffKeys(order, res.firstKeys, res.followKeys, d) && |d| > 0 && r.msg == FFKeysMessage(CommaJoined(d)))
    {
      r := ComputeFirstSet();
      if r.Fail? {
        return;
      }
      ComputeFollowSet();
      ghost var diffKeys;
      r, diffKeys := CheckFFKeys();
      if r.Fail? {
        assert ListsDiffKeys(order, firstSet.Keys, followSet.Keys, diffKeys);
        return;
      }
      r := Validate();
      if r.Fail? {
        return;
      }
      r := BuildParseTable();
    }
  }
}
