/**
 * How Grammar.Build turns the grammar document into productions (SyntaxAnalyzer/Grammar.cs:363-419).
 * The document is given as its entries in declaration order: a name and its production strings.
 */
module GrammarBuild {
  import opened Wrappers
  import opened Text
  import opened Symbols
  import opened FirstSets

  type Entry = (string, seq<string>)

  const EmptyProduction := "A production cannot be empty."
  const MixedProduction := "A production containing a terminal or an epsilon token cannot be followed or preceded by other tokens."
  /** `token[0]` on the empty word throws. */
  const IndexOutOfRange := "Index was outside the bounds of the array."
  const EmptyKey := "A non-terminal key cannot be empty"

  function EmptyArray(name: string): string
  {
    "Non terminal " + name + " cannot have an empty production array"
  }

  function Regrouped(name: string): string
  {
    "All definition for the non-terminal " + name + " should be grouped in the array value"
  }

  /** Not IsEmptyWithIgnoreExceptions: some word read so far is a semantic action. */
  predicate HasAction(acc: Production)
    requires Words(acc)
  {
    exists m :: 0 <= m < |acc| && IsSemanticAction(acc[m])
  }

  /** The word loop: appends `ws[i..]` to the production `acc` read so far. */
  function ReadWords(acc: Production, ws: seq<string>, i: nat): (r: Result<Production>)
    requires Words(acc) && i <= |ws|
    ensures r.Ok? ==> Words(r.value)
    decreases |ws| - i
  {
    if i == |ws| then Ok(acc)
    else
      var w := ws[i];
      if w == "" then Err(IndexOutOfRange)
      else if (IsTerminal(w) || IsEpsilon(w)) && HasAction(acc) then Err(MixedProduction)
      else ReadWords(acc + [w], ws, i + 1)
  }

  /** One production string: trimmed, rejected when blank, split at single spaces. */
  function ReadProduction(text: string): (r: Result<Production>)
    ensures r.Ok? ==> Words(r.value)
  {
    var t := Trim(text);
    if IsBlank(t) then Err(EmptyProduction) else ReadWords([], Split(t, ' '), 0)
  }

  /** The reading of each production string of one definition. */
  function Readings(texts: seq<string>): (r: seq<Result<Production>>)
    ensures |r| == |texts| && forall m :: 0 <= m < |texts| ==> r[m] == ReadProduction(texts[m])
  {
    seq(|texts|, m requires 0 <= m < |texts| => ReadProduction(texts[m]))
  }

  /**
   * The production loop of one definition from string `j` on, appending to `acc`; `rs[m]` is the
   * reading of string `m`, and the loop stops at the first that fails.
   */
  function ReadDefinition(acc: seq<Production>, rs: seq<Result<Production>>, j: nat): (r: Result<seq<Production>>)
    requires j <= |rs|
    decreases |rs| - j
  {
    if j == |rs| then Ok(acc)
    else
      match rs[j]
      case Err(m) => Err(m)
      case Ok(p) => ReadDefinition(acc + [p], rs, j + 1)
  }

  /** The fields Build fills: Start, the definition order and `_productions`. */
  datatype Definitions = Definitions(start: string, order: seq<string>, rules: Rules)

  /**
   * The entries `entries[e..]`, each checked in the source's order. `defs[k]` is the reading of
   * entry `k`'s production strings; it is consulted only once that entry's key checks pass.
   */
  function Assemble(b: Definitions, entries: seq<Entry>, defs: seq<Result<seq<Production>>>, e: nat): (r: Result<Definitions>)
    requires |defs| == |entries| && e <= |entries|
    decreases |entries| - e
  {
    if e == |entries| then Ok(b)
    else
      var (name, texts) := entries[e];
      if |texts| == 0 then Err(EmptyArray(name))
      else if IsBlank(name) then Err(EmptyKey)
      else if name in b.rules then Err(Regrouped(name))
      else
        match defs[e]
        case Err(m) => Err(m)
        case Ok(ps) =>
          var start := if IsBlank(b.start) then name else b.start;
          Assemble(Definitions(start, b.order + [name], b.rules[name := ps]), entries, defs, e + 1)
  }

  /** The reading of every entry's production strings. */
  function ReadAll(entries: seq<Entry>): (r: seq<Result<seq<Production>>>)
    ensures |r| == |entries| && forall k :: 0 <= k < |entries| ==> r[k] == ReadDefinition([], Readings(entries[k].1), 0)
  {
    seq(|entries|, k requires 0 <= k < |entries| => ReadDefinition([], Readings(entries[k].1), 0))
  }

  /** Build: the document's entries read on top of the fields `b`. */
  function ReadEntries(b: Definitions, entries: seq<Entry>): Result<Definitions>
  {
    Assemble(b, entries, ReadAll(entries), 0)
  }

  // ---------------------------------------------------------------------------
  // What Build accepts, stated independently of the loops

  /** No empty word, and no terminal or EPSILON anywhere after a semantic action. */
  predicate WordsOk(ws: seq<string>)
  {
    && (forall m :: 0 <= m < |ws| ==> ws[m] != "")
    && (forall m', m :: 0 <= m' < m < |ws| && ws[m'] != "" && ws[m] != "" && IsSemanticAction(ws[m'])
          ==> !IsTerminal(ws[m]) && !IsEpsilon(ws[m]))
  }

  /** The words of a production string. */
  function WordsOf(text: string): seq<string>
  {
    Split(Trim(text), ' ')
  }

  predicate ProductionOk(text: string)
  {
    !IsBlank(Trim(text)) && WordsOk(WordsOf(text))
  }

  /** The production strings `texts[j..]` are all acceptable. */
  predicate DefinitionOk(texts: seq<string>, j: nat)
  {
    forall m :: j <= m < |texts| ==> ProductionOk(texts[m])
  }

  /** Entry `k` passes the key checks: a non-empty array and a non-blank name defined neither before nor by entries `e..k-1`. */
  predicate KeysOk(rules: Rules, entries: seq<Entry>, e: nat, k: nat)
    requires k < |entries|
  {
    && |entries[k].1| > 0
    && !IsBlank(entries[k].0)
    && entries[k].0 !in rules
    && (forall k' :: e <= k' < k ==> entries[k'].0 != entries[k].0)
  }

  /** Every entry passes the key checks and has acceptable production strings. */
  predicate EntriesOk(rules: Rules, entries: seq<Entry>)
  {
    forall k :: 0 <= k < |entries| ==> KeysOk(rules, entries, 0, k) && DefinitionOk(entries[k].1, 0)
  }

  /** Every entry from `e` on passes the key checks and was read successfully. */
  predicate AssembleOk(rules: Rules, entries: seq<Entry>, defs: seq<Result<seq<Production>>>, e: nat)
    requires |defs| == |entries|
  {
    forall k :: e <= k < |entries| ==> KeysOk(rules, entries, e, k) && defs[k].Ok?
  }

  lemma AssembleOkStep(rules: Rules, entries: seq<Entry>, defs: seq<Result<seq<Production>>>, e: nat, rules': Rules)
    requires |defs| == |entries| && e < |entries| && rules'.Keys == rules.Keys + {entries[e].0}
    ensures AssembleOk(rules, entries, defs, e)
            <==> KeysOk(rules, entries, e, e) && defs[e].Ok? && AssembleOk(rules', entries, defs, e + 1)
  {
    var e1 := e + 1;
    if AssembleOk(rules, entries, defs, e) {
      assert KeysOk(rules, entries, e, e);
      forall k | e1 <= k < |entries| ensures KeysOk(rules', entries, e1, k) {
        assert KeysOk(rules, entries, e, k);
      }
    }
    if KeysOk(rules, entries, e, e) && AssembleOk(rules', entries, defs, e1) {
      forall k | e <= k < |entries| ensures KeysOk(rules, entries, e, k) {
        if k > e {
          assert KeysOk(rules', entries, e1, k);
        }
      }
    }
  }

  /** The definitions after one accepted entry. */
  function Next(b: Definitions, name: string, ps: seq<Production>): Definitions
  {
    Definitions(if IsBlank(b.start) then name else b.start, b.order + [name], b.rules[name := ps])
  }

  lemma {:induction false} AssembleSucceeds(b: Definitions, entries: seq<Entry>, defs: seq<Result<seq<Production>>>, e: nat)
    requires |defs| == |entries| && e <= |entries|
    ensures Assemble(b, entries, defs, e).Ok? <==> AssembleOk(b.rules, entries, defs, e)
    decreases |entries| - e
  {
    if e < |entries| {
      var name := entries[e].0;
      if defs[e].Ok? {
        var b' := Next(b, name, defs[e].value);
        AssembleOkStep(b.rules, entries, defs, e, b'.rules);
        AssembleSucceeds(b', entries, defs, e + 1);
      } else {
        assert !AssembleOk(b.rules, entries, defs, e);
      }
    }
  }

  /** The names of `entries[e..]`, in order. */
  function NamesOf(entries: seq<Entry>, e: nat): (r: seq<string>)
    requires e <= |entries|
    ensures |r| == |entries| - e && forall k :: e <= k < |entries| ==> r[k - e] == entries[k].0
    decreases |entries| - e
  {
    if e == |entries| then [] else [entries[e].0] + NamesOf(entries, e + 1)
  }

  /** The names of `entries[e..]`, as a set. */
  ghost function NameSet(entries: seq<Entry>, e: nat): set<string>
  {
    set k | e <= k < |entries| :: entries[k].0
  }

  /** A successful assembly appends the entries' names, in order. */
  lemma {:induction false} AssembleOrder(b: Definitions, entries: seq<Entry>, defs: seq<Result<seq<Production>>>, e: nat)
    requires |defs| == |entries| && e <= |entries|
    requires Assemble(b, entries, defs, e).Ok?
    ensures Assemble(b, entries, defs, e).value.order == b.order + NamesOf(entries, e)
    decreases |entries| - e
  {
    if e < |entries| {
      var name := entries[e].0;
      var b' := Next(b, name, defs[e].value);
      AssembleOrder(b', entries, defs, e + 1);
      assert NamesOf(entries, e) == [name] + NamesOf(entries, e + 1);
      assert b.order + NamesOf(entries, e) == b'.order + NamesOf(entries, e + 1);
    } else {
      assert b.order + NamesOf(entries, e) == b.order;
    }
  }

  /** A successful assembly makes the first name the start symbol when none was set. */
  lemma {:induction false} AssembleStart(b: Definitions, entries: seq<Entry>, defs: seq<Result<seq<Production>>>, e: nat)
    requires |defs| == |entries| && e <= |entries|
    requires Assemble(b, entries, defs, e).Ok?
    ensures Assemble(b, entries, defs, e).value.start == (if IsBlank(b.start) && e < |entries| then entries[e].0 else b.start)
    decreases |entries| - e
  {
    if e < |entries| {
      AssembleStart(Next(b, entries[e].0, defs[e].value), entries, defs, e + 1);
    }
  }

  /**
   * A successful assembly defines exactly the old and the new names, keeps the old definitions and
   * binds each new name to its reading.
   */
  lemma {:induction false} AssembleRules(b: Definitions, entries: seq<Entry>, defs: seq<Result<seq<Production>>>, e: nat)
    requires |defs| == |entries| && e <= |entries|
    requires Assemble(b, entries, defs, e).Ok?
    ensures var r := Assemble(b, entries, defs, e).value;
      && r.rules.Keys == b.rules.Keys + NameSet(entries, e)
      && (forall x :: x in b.rules ==> r.rules[x] == b.rules[x])
      && (forall k :: e <= k < |entries| ==> defs[k].Ok? && r.rules[entries[k].0] == defs[k].value)
    decreases |entries| - e
  {
    if e < |entries| {
      var name := entries[e].0;
      AssembleRules(Next(b, name, defs[e].value), entries, defs, e + 1);
      assert NameSet(entries, e) == {name} + NameSet(entries, e + 1);
    } else {
      assert NameSet(entries, e) == {};
    }
  }

  lemma {:induction false} ReadWordsOk(ws: seq<string>, i: nat)
    requires i <= |ws| && Words(ws[..i]) && WordsOk(ws[..i])
    ensures ReadWords(ws[..i], ws, i).Ok? <==> WordsOk(ws)
    ensures ReadWords(ws[..i], ws, i).Ok? ==> ReadWords(ws[..i], ws, i).value == ws
    decreases |ws| - i
  {
    if i == |ws| {
      assert ws[..i] == ws;
    } else {
      var w := ws[i];
      assert ws[..i + 1] == ws[..i] + [w];
      if w == "" {
        assert !WordsOk(ws);
      } else if (IsTerminal(w) || IsEpsilon(w)) && HasAction(ws[..i]) {
        var m' :| 0 <= m' < i && IsSemanticAction(ws[..i][m']);
        assert ws[m'] == ws[..i][m'];
        assert !WordsOk(ws);
      } else {
        forall m', m | 0 <= m' < m < i + 1 && ws[m'] != "" && ws[m] != "" && IsSemanticAction(ws[m'])
          ensures !IsTerminal(ws[m]) && !IsEpsilon(ws[m])
        {
          assert ws[..i][m'] == ws[m'];
          if m < i {
            assert ws[..i][m] == ws[m];
          }
        }
        assert WordsOk(ws[..i + 1]);
        ReadWordsOk(ws, i + 1);
      }
    }
  }

  /** A production string is read exactly when it is acceptable, and then into its words. */
  lemma ReadProductionOk(text: string)
    ensures ReadProduction(text).Ok? <==> ProductionOk(text)
    ensures ReadProduction(text).Ok? ==> ReadProduction(text).value == WordsOf(text)
  {
    var t := Trim(text);
    if !IsBlank(t) {
      var ws := Split(t, ' ');
      assert ws[..0] == [];
      ReadWordsOk(ws, 0);
    }
  }

  /** The readings `rs[j..]` all succeed. */
  predicate ReadingsOk(rs: seq<Result<Production>>, j: nat)
  {
    forall m :: j <= m < |rs| ==> rs[m].Ok?
  }

  /** A definition is read exactly when all its readings succeed. */
  lemma {:induction false} ReadDefinitionOk(acc: seq<Production>, rs: seq<Result<Production>>, j: nat)
    requires j <= |rs|
    ensures ReadDefinition(acc, rs, j).Ok? <==> ReadingsOk(rs, j)
    decreases |rs| - j
  {
    if j < |rs| {
      if rs[j].Ok? {
        ReadDefinitionOk(acc + [rs[j].value], rs, j + 1);
        assert ReadingsOk(rs, j) <==> ReadingsOk(rs, j + 1);
      }
    }
  }

  /** The words of each string of `texts[j..]`, in order. */
  function WordsOfAll(texts: seq<string>, j: nat): (r: seq<Production>)
    requires j <= |texts|
    ensures |r| == |texts| - j && forall m :: 0 <= m < |r| ==> r[m] == WordsOf(texts[j + m])
    decreases |texts| - j
  {
    if j == |texts| then [] else [WordsOf(texts[j])] + WordsOfAll(texts, j + 1)
  }

  /** The values of the readings `rs[j..]`. */
  function Values(rs: seq<Result<Production>>, j: nat): (r: seq<Production>)
    requires j <= |rs| && ReadingsOk(rs, j)
    ensures |r| == |rs| - j && forall m :: 0 <= m < |r| ==> r[m] == rs[j + m].value
    decreases |rs| - j
  {
    if j == |rs| then [] else [rs[j].value] + Values(rs, j + 1)
  }

  /** A definition that is read holds the readings' values, in order. */
  lemma {:induction false} ReadDefinitionValue(acc: seq<Production>, rs: seq<Result<Production>>, j: nat)
    requires j <= |rs| && ReadingsOk(rs, j)
    ensures ReadDefinition(acc, rs, j) == Ok(acc + Values(rs, j))
    decreases |rs| - j
  {
    if j < |rs| {
      var acc' := acc + [rs[j].value];
      ReadDefinitionValue(acc', rs, j + 1);
      assert acc' + Values(rs, j + 1) == acc + Values(rs, j);
    } else {
      assert acc + Values(rs, j) == acc;
    }
  }

  /** The readings of a definition's strings succeed exactly when the strings are acceptable, and yield their words. */
  lemma ReadingsFacts(texts: seq<string>)
    ensures ReadingsOk(Readings(texts), 0) <==> DefinitionOk(texts, 0)
    ensures ReadingsOk(Readings(texts), 0) ==> Values(Readings(texts), 0) == WordsOfAll(texts, 0)
  {
    var rs := Readings(texts);
    forall m | 0 <= m < |texts| ensures rs[m].Ok? <==> ProductionOk(texts[m]) {
      ReadProductionOk(texts[m]);
    }
    if ReadingsOk(rs, 0) {
      forall m | 0 <= m < |texts| ensures Values(rs, 0)[m] == WordsOfAll(texts, 0)[m] {
        ReadProductionOk(texts[m]);
      }
    }
  }

  /** Reading entry `k` succeeds exactly when its strings are acceptable, and yields their words. */
  lemma ReadAllFacts(entries: seq<Entry>, k: nat)
    requires k < |entries|
    ensures ReadAll(entries)[k].Ok? <==> DefinitionOk(entries[k].1, 0)
    ensures ReadAll(entries)[k].Ok? ==> ReadAll(entries)[k].value == WordsOfAll(entries[k].1, 0)
  {
    var rs := Readings(entries[k].1);
    ReadDefinitionOk([], rs, 0);
    ReadingsFacts(entries[k].1);
    if ReadingsOk(rs, 0) {
      ReadDefinitionValue([], rs, 0);
      assert [] + Values(rs, 0) == Values(rs, 0);
    }
  }

  /** Acceptable entries are exactly those whose assembly from their readings succeeds. */
  lemma EntriesOkAssemble(rules: Rules, entries: seq<Entry>)
    ensures EntriesOk(rules, entries) <==> AssembleOk(rules, entries, ReadAll(entries), 0)
  {
    var defs := ReadAll(entries);
    forall k | 0 <= k < |entries| ensures defs[k].Ok? <==> DefinitionOk(entries[k].1, 0) {
      ReadAllFacts(entries, k);
    }
  }

  /** Build succeeds exactly on acceptable entries. */
  lemma BuildAccepts(b: Definitions, entries: seq<Entry>)
    ensures ReadEntries(b, entries).Ok? <==> EntriesOk(b.rules, entries)
  {
    EntriesOkAssemble(b.rules, entries);
    AssembleSucceeds(b, entries, ReadAll(entries), 0);
  }

  /** A successful Build appends the entries' names, in order, to the definition order. */
  lemma BuildOrder(b: Definitions, entries: seq<Entry>)
    requires ReadEntries(b, entries).Ok?
    ensures ReadEntries(b, entries).value.order == b.order + NamesOf(entries, 0)
  {
    AssembleOrder(b, entries, ReadAll(entries), 0);
  }

  /** A successful Build makes the first name the start symbol when none was set. */
  lemma BuildStart(b: Definitions, entries: seq<Entry>)
    requires ReadEntries(b, entries).Ok?
    ensures ReadEntries(b, entries).value.start == (if IsBlank(b.start) && 0 < |entries| then entries[0].0 else b.start)
  {
    AssembleStart(b, entries, ReadAll(entries), 0);
  }

  /**
   * A successful Build defines exactly the old and the new names, keeps the old definitions, and
   * binds entry `k`'s name to the words of its production strings.
   */
  lemma BuildRules(b: Definitions, entries: seq<Entry>, k: nat)
    requires ReadEntries(b, entries).Ok? && k < |entries|
    ensures var r := ReadEntries(b, entries).value;
      && r.rules.Keys == b.rules.Keys + NameSet(entries, 0)
      && (forall x :: x in b.rules ==> r.rules[x] == b.rules[x])
      && r.rules[entries[k].0] == WordsOfAll(entries[k].1, 0)
  {
    AssembleRules(b, entries, ReadAll(entries), 0);
    ReadAllFacts(entries, k);
  }
}
