/**
 * GetLeftRecursion and the two checks of Validate (SyntaxAnalyzer/Grammar.cs:278-320, 459-493).
 * GetLeftRecursion walks the leftmost words of each production, descending into a non-terminal
 * and going on past it while its FIRST set holds EPSILON, and reports the first non-terminal it
 * meets twice on the current path. The shared `visited` set is the path: a call that finds
 * nothing removes what it added, so the walk is a function of the token and the path.
 */
module Validation {
  import opened Wrappers
  import opened Text
  import opened Symbols
  import opened FirstSets

  type FirstMap = map<string, set<string>>

  /** Adding a key to the path leaves fewer keys off it, which makes the walk terminate. */
  lemma PathShrinks(keys: set<string>, visited: set<string>, t: string)
    requires t in keys && t !in visited
    ensures |keys - (visited + {t})| < |keys - visited|
  {
    assert keys - visited == (keys - (visited + {t})) + {t};
  }

  /** The walk from `t` with `visited` on the path; a blank result means nothing was found. */
  function LeftRec(rules: Rules, first: FirstMap, t: string, visited: set<string>): (r: Result<string>)
    requires AllWords(rules)
    decreases |rules.Keys - visited|, 2, 0
  {
    if t in visited then Ok(t)
    else if t !in rules then Err(KeyNotFound(t))
    else LRProductions(rules, first, t, visited, 0)
  }

  /** The productions of `t` from production `j` on, with `t` added to the path. */
  function LRProductions(rules: Rules, first: FirstMap, t: string, visited: set<string>, j: nat): (r: Result<string>)
    requires AllWords(rules) && t in rules && t !in visited
    decreases |rules.Keys - visited|, 1, |rules[t]| - j
  {
    if j >= |rules[t]| then Ok("")
    else
      match LRWords(rules, first, t, visited, j, 0)
      case Err(m) => Err(m)
      case Ok(x) => if !IsBlank(x) then Ok(x) else LRProductions(rules, first, t, visited, j + 1)
  }

  /** The words of production `j` of `t` from word `i` on. */
  function LRWords(rules: Rules, first: FirstMap, t: string, visited: set<string>, j: nat, i: nat): (r: Result<string>)
    requires AllWords(rules) && t in rules && t !in visited && j < |rules[t]| && i <= |rules[t][j]|
    decreases |rules.Keys - visited|, 0, |rules[t][j]| - i
  {
    var p := rules[t][j];
    if i == |p| then Ok("")
    else
      var w := p[i];
      if IsNonTerminal(w) then
        PathShrinks(rules.Keys, visited, t);
        match LeftRec(rules, first, w, visited + {t})
        case Err(m) => Err(m)
        case Ok(x) =>
          if !IsBlank(x) then Ok(x)
          else if w !in first then Err(KeyNotFound(w))
          else if Epsilon !in first[w] then Ok("")
          else LRWords(rules, first, t, visited, j, i + 1)
      else if IsTerminal(w) then Ok("")
      else LRWords(rules, first, t, visited, j, i + 1)
  }

  // ---------------------------------------------------------------------------
  // What the walk finds

  /** Every word before position `i` can be skipped: it is not a terminal, and a non-terminal has EPSILON in its FIRST set. */
  predicate NullableBefore(first: FirstMap, p: Production, i: nat)
    requires Words(p) && i <= |p|
  {
    forall m :: 0 <= m < i ==> !IsTerminal(p[m]) && (IsNonTerminal(p[m]) ==> p[m] in first && Epsilon in first[p[m]])
  }

  /** `b` is a non-terminal at the left end of a production of `a`, after nothing but skippable words. */
  ghost predicate LeftStep(rules: Rules, first: FirstMap, a: string, b: string)
    requires AllWords(rules)
  {
    && a in rules
    && exists j, i :: 0 <= j < |rules[a]| && 0 <= i < |rules[a][j]| && rules[a][j][i] == b
                      && IsNonTerminal(b) && NullableBefore(first, rules[a][j], i)
  }

  /** A chain of left steps. */
  ghost predicate LeftPath(rules: Rules, first: FirstMap, path: seq<string>)
    requires AllWords(rules)
  {
    |path| <= 1 || (LeftStep(rules, first, path[0], path[1]) && LeftPath(rules, first, path[1..]))
  }

  /**
   * Soundness: a non-blank result `x` ends a chain of left steps from `t`, and `x` was on the path
   * already or occurs earlier on the chain: `x` is left-recursive.
   */
  lemma {:induction false} LeftRecPath(rules: Rules, first: FirstMap, t: string, visited: set<string>) returns (path: seq<string>)
    requires AllWords(rules)
    requires LeftRec(rules, first, t, visited).Ok? && !IsBlank(LeftRec(rules, first, t, visited).value)
    ensures var x := LeftRec(rules, first, t, visited).value;
      && |path| >= 1 && path[0] == t && path[|path| - 1] == x && LeftPath(rules, first, path)
      && (x in visited || x in path[..|path| - 1])
    decreases |rules.Keys - visited|, 2, 0
  {
    if t in visited {
      path := [t];
    } else {
      path := ProductionsPath(rules, first, t, visited, 0);
    }
  }

  lemma {:induction false} ProductionsPath(rules: Rules, first: FirstMap, t: string, visited: set<string>, j: nat) returns (path: seq<string>)
    requires AllWords(rules) && t in rules && t !in visited
    requires LRProductions(rules, first, t, visited, j).Ok? && !IsBlank(LRProductions(rules, first, t, visited, j).value)
    ensures var x := LRProductions(rules, first, t, visited, j).value;
      && |path| >= 1 && path[0] == t && path[|path| - 1] == x && LeftPath(rules, first, path)
      && (x in visited || x in path[..|path| - 1])
    decreases |rules.Keys - visited|, 1, |rules[t]| - j
  {
    var w := LRWords(rules, first, t, visited, j, 0);
    if !IsBlank(w.value) {
      path := WordsPath(rules, first, t, visited, j, 0);
    } else {
      path := ProductionsPath(rules, first, t, visited, j + 1);
    }
  }

  lemma {:induction false} WordsPath(rules: Rules, first: FirstMap, t: string, visited: set<string>, j: nat, i: nat) returns (path: seq<string>)
    requires AllWords(rules) && t in rules && t !in visited && j < |rules[t]| && i <= |rules[t][j]|
    requires NullableBefore(first, rules[t][j], i)
    requires LRWords(rules, first, t, visited, j, i).Ok? && !IsBlank(LRWords(rules, first, t, visited, j, i).value)
    ensures var x := LRWords(rules, first, t, visited, j, i).value;
      && |path| >= 1 && path[0] == t && path[|path| - 1] == x && LeftPath(rules, first, path)
      && (x in visited || x in path[..|path| - 1])
    decreases |rules.Keys - visited|, 0, |rules[t][j]| - i
  {
    var p := rules[t][j];
    var w := p[i];
    if IsNonTerminal(w) {
      PathShrinks(rules.Keys, visited, t);
      var x := LeftRec(rules, first, w, visited + {t});
      if !IsBlank(x.value) {
        var sub := LeftRecPath(rules, first, w, visited + {t});
        assert LeftStep(rules, first, t, w);
        path := [t] + sub;
        assert path[1..] == sub;
        assert path[..|path| - 1] == [t] + sub[..|sub| - 1];
      } else {
        path := WordsPath(rules, first, t, visited, j, i + 1);
      }
    } else {
      path := WordsPath(rules, first, t, visited, j, i + 1);
    }
  }

  /**
   * Completeness for one step: when the walk from `t` finds nothing, no non-blank left step from
   * `t` leads back onto the path or to `t` itself, and the walk from the next name, with `t` added
   * to the path, finds nothing either.
   */
  lemma LeftRecClear(rules: Rules, first: FirstMap, t: string, visited: set<string>, b: string)
    requires AllWords(rules) && t !in visited
    requires LeftRec(rules, first, t, visited).Ok? && IsBlank(LeftRec(rules, first, t, visited).value)
    requires LeftStep(rules, first, t, b) && !IsBlank(b)
    ensures b !in visited + {t}
    ensures LeftRec(rules, first, b, visited + {t}).Ok? && IsBlank(LeftRec(rules, first, b, visited + {t}).value)
  {
    var j, i :| 0 <= j < |rules[t]| && 0 <= i < |rules[t][j]| && rules[t][j][i] == b
      && IsNonTerminal(b) && NullableBefore(first, rules[t][j], i);
    ProductionsClear(rules, first, t, visited, 0, j);
    WordsClear(rules, first, t, visited, j, 0, i);
    PathShrinks(rules.Keys, visited, t);
  }

  lemma {:induction false} ProductionsClear(rules: Rules, first: FirstMap, t: string, visited: set<string>, j0: nat, j: nat)
    requires AllWords(rules) && t in rules && t !in visited && j0 <= j < |rules[t]|
    requires LRProductions(rules, first, t, visited, j0).Ok? && IsBlank(LRProductions(rules, first, t, visited, j0).value)
    ensures LRWords(rules, first, t, visited, j, 0).Ok? && IsBlank(LRWords(rules, first, t, visited, j, 0).value)
    decreases j - j0
  {
    if j0 < j {
      ProductionsClear(rules, first, t, visited, j0 + 1, j);
    }
  }

  lemma {:induction false} WordsClear(rules: Rules, first: FirstMap, t: string, visited: set<string>, j: nat, i0: nat, i: nat)
    requires AllWords(rules) && t in rules && t !in visited && j < |rules[t]| && i0 <= i < |rules[t][j]|
    requires NullableBefore(first, rules[t][j], i)
    requires LRWords(rules, first, t, visited, j, i0).Ok? && IsBlank(LRWords(rules, first, t, visited, j, i0).value)
    ensures LRWords(rules, first, t, visited, j, i).Ok? && IsBlank(LRWords(rules, first, t, visited, j, i).value)
    decreases i - i0
  {
    if i0 < i {
      var p := rules[t][j];
      assert !IsTerminal(p[i0]);
      WordsClear(rules, first, t, visited, j, i0 + 1, i);
    }
  }

  /**
   * Completeness along a chain: when the walk from `path[0]` finds nothing, a chain of left steps
   * through non-blank names from it never meets a name on `visited` and never meets a name twice.
   */
  lemma {:induction false} LeftPathClear(rules: Rules, first: FirstMap, visited: set<string>, path: seq<string>)
    requires AllWords(rules) && |path| >= 1 && path[0] !in visited
    requires LeftRec(rules, first, path[0], visited).Ok? && IsBlank(LeftRec(rules, first, path[0], visited).value)
    requires LeftPath(rules, first, path) && forall m :: 0 <= m < |path| ==> !IsBlank(path[m])
    ensures forall m :: 0 <= m < |path| ==> path[m] !in visited
    ensures forall m, m' :: 0 <= m < m' < |path| ==> path[m] != path[m']
    decreases |path|
  {
    if |path| >= 2 {
      var rest := path[1..];
      LeftRecClear(rules, first, path[0], visited, path[1]);
      LeftPathClear(rules, first, visited + {path[0]}, rest);
      forall m | 1 <= m < |path| ensures path[m] == rest[m - 1] && path[m] !in visited + {path[0]} {
      }
    }
  }

  /**
   * The converse of LeftRecPath: when condition 1 of Validate passes, no chain of left steps through
   * non-blank names from a defined non-terminal comes back to a name already on it.
   */
  lemma NoLeftCycle(rules: Rules, first: FirstMap, order: seq<string>, e: nat, path: seq<string>)
    requires Declared(order, rules) && LeftRecursionCheck(rules, first, order, 0).Pass?
    requires e < |order| && |path| >= 1 && path[0] == order[e]
    requires LeftPath(rules, first, path) && forall m :: 0 <= m < |path| ==> !IsBlank(path[m])
    ensures forall m, m' :: 0 <= m < m' < |path| ==> path[m] != path[m']
  {
    assert NoLeftRecursion(rules, first, order[e]);
    LeftPathClear(rules, first, {}, path);
  }

  /** `A -> A ...` with a non-blank `A` is always reported, or the walk fails. */
  lemma DirectLeftRecursion(rules: Rules, first: FirstMap, a: string, j: nat)
    requires AllWords(rules) && a in rules && j < |rules[a]| && |rules[a][j]| > 0 && rules[a][j][0] == a
    requires IsNonTerminal(a) && !IsBlank(a)
    ensures LeftRec(rules, first, a, {}).Err? || !IsBlank(LeftRec(rules, first, a, {}).value)
  {
    if LeftRec(rules, first, a, {}).Ok? && IsBlank(LeftRec(rules, first, a, {}).value) {
      assert NullableBefore(first, rules[a][j], 0);
      assert LeftStep(rules, first, a, a);
      LeftRecClear(rules, first, a, {}, a);
    }
  }

  // ---------------------------------------------------------------------------
  // The checks of Validate

  const OverlapMessage: string := "The first and follow sets of the non-terminal intersect"

  function LeftRecursionMessage(x: string, a: string): string
  {
    "Left hand side: " + x + " has a left recursion. Production: " + a
  }

  /** The walk from `a` with an empty path finds nothing. */
  predicate NoLeftRecursion(rules: Rules, first: FirstMap, a: string)
    requires AllWords(rules)
  {
    LeftRec(rules, first, a, {}).Ok? && IsBlank(LeftRec(rules, first, a, {}).value)
  }

  /** Condition 1, over the definitions `order[d..]`. */
  function LeftRecursionCheck(rules: Rules, first: FirstMap, order: seq<string>, d: nat): (r: Outcome)
    requires Declared(order, rules)
    ensures r.Pass? <==> forall e :: d <= e < |order| ==> NoLeftRecursion(rules, first, order[e])
    decreases |order| - d
  {
    if d >= |order| then Pass
    else
      match LeftRec(rules, first, order[d], {})
      case Err(m) => Fail(m)
      case Ok(x) => if !IsBlank(x) then Fail(LeftRecursionMessage(x, order[d])) else LeftRecursionCheck(rules, first, order, d + 1)
  }

  /** A nullable `a` has a FOLLOW set that no other member of its FIRST set is in. */
  predicate Disjoint(first: FirstMap, follow: FirstMap, a: string)
  {
    a in first && Epsilon in first[a] ==> forall t :: t in first[a] && t != Epsilon ==> a in follow && t !in follow[a]
  }

  /**
   * Condition 3, over the non-terminals `order[d..]` that have a FIRST set. The follow set is looked
   * up only for a member other than EPSILON, so a FIRST set of just EPSILON never fails.
   */
  function OverlapCheck(first: FirstMap, follow: FirstMap, order: seq<string>, d: nat): (r: Outcome)
    ensures r.Pass? <==> forall e :: d <= e < |order| ==> Disjoint(first, follow, order[e])
    ensures r.Fail? ==> exists e :: d <= e < |order| && (r.msg == OverlapMessage || r.msg == KeyNotFound(order[e]))
    decreases |order| - d
  {
    if d >= |order| then Pass
    else
      var a := order[d];
      if a in first && Epsilon in first[a] && first[a] - {Epsilon} != {} then
        if a !in follow then Fail(KeyNotFound(a))
        else if (first[a] - {Epsilon}) * follow[a] != {} then Fail(OverlapMessage)
        else
          assert forall t :: t in first[a] && t != Epsilon ==> t !in (first[a] - {Epsilon}) * follow[a];
          OverlapCheck(first, follow, order, d + 1)
      else
        assert Disjoint(first, follow, a) by {
          if a in first && Epsilon in first[a] {
            assert forall t :: t in first[a] && t != Epsilon ==> t in first[a] - {Epsilon};
          }
        }
        OverlapCheck(first, follow, order, d + 1)
  }

  /** Validate: condition 1, then condition 3. */
  function ValidateAll(rules: Rules, first: FirstMap, follow: FirstMap, order: seq<string>): (r: Outcome)
    requires Declared(order, rules)
    ensures r.Pass? <==> forall e :: 0 <= e < |order| ==> NoLeftRecursion(rules, first, order[e]) && Disjoint(first, follow, order[e])
  {
    match LeftRecursionCheck(rules, first, order, 0)
    case Fail(m) => Fail(m)
    case Pass => OverlapCheck(first, follow, order, 0)
  }
}
