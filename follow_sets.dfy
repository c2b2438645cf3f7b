/**
 * FOLLOW sets as ComputeFollowSet computes them (SyntaxAnalyzer/Grammar.cs:160-251), one function
 * per loop level. FIRST sets are fixed while FOLLOW sets are computed.
 */
module FollowSets {
  import opened Wrappers
  import opened Symbols
  import opened FirstSets

  type FollowMap = map<string, set<string>>

  /** `p[m]` does not end the scan after an occurrence: no FIRST set, or one holding EPSILON. */
  predicate Transparent(first: map<string, set<string>>, p: Production, m: nat)
    requires Words(p) && m < |p|
  {
    FirstOf(first, p[m]).None? || Epsilon in first[p[m]]
  }

  /**
   * The inner while loop after an occurrence: FIRST minus EPSILON of the words `p[j..]`, up to and
   * including the first non-terminal whose set lacks EPSILON, and whether the scan reached the end.
   * Words without a FIRST set (terminals, actions, undefined names) contribute nothing and do not
   * stop the scan.
   */
  function Trailing(first: map<string, set<string>>, p: Production, j: nat): (r: (set<string>, bool))
    requires Words(p) && j <= |p|
    decreases |p| - j
  {
    if j == |p| then ({}, true)
    else
      match FirstOf(first, p[j])
      case None => Trailing(first, p, j + 1)
      case Some(f) =>
        if Epsilon in f then
          var r := Trailing(first, p, j + 1);
          ((f - {Epsilon}) + r.0, r.1)
        else (f - {Epsilon}, false)
  }

  /**
   * The trailing scan copies no EPSILON, reaches the end exactly when every word after the
   * occurrence is transparent, copies only FIRST tokens of the words it passes, and copies all of
   * them up to the first opaque word.
   */
  lemma {:induction false} TrailingFacts(first: map<string, set<string>>, p: Production, j: nat)
    requires Words(p) && j <= |p|
    ensures var r := Trailing(first, p, j);
      && Epsilon !in r.0
      && (r.1 <==> forall m :: j <= m < |p| ==> Transparent(first, p, m))
      && (forall t :: t in r.0 ==> exists m :: j <= m < |p| && FirstOf(first, p[m]).Some? && t in first[p[m]])
      && (forall m :: j <= m < |p| && FirstOf(first, p[m]).Some?
                      && (forall m' :: j <= m' < m ==> Transparent(first, p, m'))
                      ==> first[p[m]] - {Epsilon} <= r.0)
    decreases |p| - j
  {
    if j < |p| {
      TrailingFacts(first, p, j + 1);
      if FirstOf(first, p[j]).Some? && Epsilon !in first[p[j]] {
        assert !Transparent(first, p, j);
      }
    }
  }

  /** The occurrence of non-terminal `p[i]` in production `p` of `a`. */
  function FollowOccurrence(follow: FollowMap, first: map<string, set<string>>, a: string, p: Production, i: nat): (r: FollowMap)
    requires Words(p) && i < |p| && IsNonTerminal(p[i])
    ensures r.Keys == follow.Keys + {p[i]}
    ensures forall y :: y in follow && y != p[i] ==> r[y] == follow[y]
    ensures p[i] in follow ==> follow[p[i]] <= r[p[i]]
    ensures Trailing(first, p, i + 1).0 <= r[p[i]]
    ensures Trailing(first, p, i + 1).1 && a in follow ==> follow[a] <= r[p[i]]
  {
    var x := p[i];
    var f0 := if x in follow then follow else follow[x := {}];
    var t := Trailing(first, p, i + 1);
    TrailingFacts(first, p, i + 1);
    var f1 := f0[x := f0[x] + t.0];
    if t.1 && a in f1 then f1[x := f1[x] + f1[a]] else f1
  }

  /** The occurrences in `p[i..]`. */
  function FollowProduction(follow: FollowMap, first: map<string, set<string>>, a: string, p: Production, i: nat): FollowMap
    requires Words(p) && i <= |p|
    decreases |p| - i
  {
    if i == |p| then follow
    else if IsNonTerminal(p[i]) then FollowProduction(FollowOccurrence(follow, first, a, p, i), first, a, p, i + 1)
    else FollowProduction(follow, first, a, p, i + 1)
  }

  /** The productions `ps[j..]` of `a`. */
  function FollowProductions(follow: FollowMap, first: map<string, set<string>>, a: string, ps: seq<Production>, j: nat): FollowMap
    requires forall m :: 0 <= m < |ps| ==> Words(ps[m])
    decreases |ps| - j
  {
    if j >= |ps| then follow
    else FollowProductions(FollowProduction(follow, first, a, ps[j], 0), first, a, ps, j + 1)
  }

  /** One pass over the definitions `order[d..]`. */
  function FollowDefinitions(follow: FollowMap, first: map<string, set<string>>, order: seq<string>, rules: Rules, d: nat): FollowMap
    requires Declared(order, rules)
    decreases |order| - d
  {
    if d >= |order| then follow
    else FollowDefinitions(FollowProductions(follow, first, order[d], rules[order[d]], 0), first, order, rules, d + 1)
  }

  /** `n` passes over all definitions. */
  function FollowPasses(follow: FollowMap, first: map<string, set<string>>, order: seq<string>, rules: Rules, n: nat): FollowMap
    requires Declared(order, rules)
    decreases n
  {
    if n == 0 then follow
    else FollowPasses(FollowDefinitions(follow, first, order, rules, 0), first, order, rules, n - 1)
  }

  // ---------------------------------------------------------------------------
  // Properties

  ghost predicate FollowGrows(f: FollowMap, r: FollowMap)
  {
    forall x :: x in f ==> x in r && f[x] <= r[x]
  }

  /** No FOLLOW set holds EPSILON, and each element is `$` or comes from some FIRST set. */
  ghost predicate FollowSound(f: FollowMap, first: map<string, set<string>>)
  {
    forall x, t :: x in f && t in f[x] ==> t != Epsilon && (t == EndOfStack || exists y :: y in first && t in first[y])
  }

  /** The non-terminal words of `p[i..]`. */
  ghost function UsedIn(p: Production, i: nat): set<string>
  {
    set m | i <= m < |p| && p[m] != "" && IsNonTerminal(p[m]) :: p[m]
  }

  /** The non-terminal words of the productions `ps[j..]`. */
  ghost function UsedInAll(ps: seq<Production>, j: nat): set<string>
  {
    set m, w | j <= m < |ps| && w in UsedIn(ps[m], 0) :: w
  }

  /** The non-terminal words of the definitions `order[d..]`. */
  ghost function UsedFrom(order: seq<string>, rules: Rules, d: nat): set<string>
  {
    set e, w | d <= e < |order| && order[e] in rules && w in UsedInAll(rules[order[e]], 0) :: w
  }

  lemma OccurrenceSound(follow: FollowMap, first: map<string, set<string>>, a: string, p: Production, i: nat)
    requires Words(p) && i < |p| && IsNonTerminal(p[i])
    requires FollowSound(follow, first)
    ensures FollowSound(FollowOccurrence(follow, first, a, p, i), first)
  {
    var x := p[i];
    var t := Trailing(first, p, i + 1);
    var r := FollowOccurrence(follow, first, a, p, i);
    TrailingFacts(first, p, i + 1);
    forall y, e | y in r && e in r[y] ensures e != Epsilon && (e == EndOfStack || exists z :: z in first && e in first[z]) {
      if y == x && e in t.0 {
        var m :| i + 1 <= m < |p| && FirstOf(first, p[m]).Some? && e in first[p[m]];
      }
    }
  }

  lemma {:induction false} FollowProductionFacts(follow: FollowMap, first: map<string, set<string>>, a: string, p: Production, i: nat)
    requires Words(p) && i <= |p|
    requires FollowSound(follow, first)
    ensures var r := FollowProduction(follow, first, a, p, i);
      FollowGrows(follow, r) && FollowSound(r, first) && r.Keys == follow.Keys + UsedIn(p, i)
    decreases |p| - i
  {
    if i < |p| {
      UsedInStep(p, i);
      if IsNonTerminal(p[i]) {
        var f1 := FollowOccurrence(follow, first, a, p, i);
        OccurrenceSound(follow, first, a, p, i);
        FollowProductionFacts(f1, first, a, p, i + 1);
      } else {
        FollowProductionFacts(follow, first, a, p, i + 1);
      }
    }
  }

  lemma UsedInStep(p: Production, i: nat)
    requires Words(p) && i < |p|
    ensures UsedIn(p, i) == (if IsNonTerminal(p[i]) then {p[i]} else {}) + UsedIn(p, i + 1)
  {
  }

  lemma UsedInAllStep(ps: seq<Production>, j: nat)
    requires j < |ps|
    ensures UsedInAll(ps, j) == UsedIn(ps[j], 0) + UsedInAll(ps, j + 1)
  {
    forall w | w in UsedInAll(ps, j) ensures w in UsedIn(ps[j], 0) + UsedInAll(ps, j + 1) {
      var m :| j <= m < |ps| && w in UsedIn(ps[m], 0);
      if m > j {
        assert w in UsedInAll(ps, j + 1);
      }
    }
  }

  lemma UsedFromStep(order: seq<string>, rules: Rules, d: nat)
    requires Declared(order, rules) && d < |order|
    ensures UsedFrom(order, rules, d) == UsedInAll(rules[order[d]], 0) + UsedFrom(order, rules, d + 1)
  {
    forall w | w in UsedFrom(order, rules, d) ensures w in UsedInAll(rules[order[d]], 0) + UsedFrom(order, rules, d + 1) {
      var e :| d <= e < |order| && order[e] in rules && w in UsedInAll(rules[order[e]], 0);
      if e > d {
        assert w in UsedFrom(order, rules, d + 1);
      }
    }
  }

  lemma {:induction false} FollowProductionsFacts(follow: FollowMap, first: map<string, set<string>>, a: string, ps: seq<Production>, j: nat)
    requires forall m :: 0 <= m < |ps| ==> Words(ps[m])
    requires FollowSound(follow, first)
    ensures var r := FollowProductions(follow, first, a, ps, j);
      FollowGrows(follow, r) && FollowSound(r, first) && r.Keys == follow.Keys + UsedInAll(ps, j)
    decreases |ps| - j
  {
    if j < |ps| {
      UsedInAllStep(ps, j);
      FollowProductionFacts(follow, first, a, ps[j], 0);
      FollowProductionsFacts(FollowProduction(follow, first, a, ps[j], 0), first, a, ps, j + 1);
    } else {
      assert UsedInAll(ps, j) == {};
    }
  }

  lemma {:induction false} FollowDefinitionsFacts(follow: FollowMap, first: map<string, set<string>>, order: seq<string>, rules: Rules, d: nat)
    requires Declared(order, rules)
    requires FollowSound(follow, first)
    ensures var r := FollowDefinitions(follow, first, order, rules, d);
      FollowGrows(follow, r) && FollowSound(r, first) && r.Keys == follow.Keys + UsedFrom(order, rules, d)
    decreases |order| - d
  {
    if d < |order| {
      UsedFromStep(order, rules, d);
      FollowProductionsFacts(follow, first, order[d], rules[order[d]], 0);
      FollowDefinitionsFacts(FollowProductions(follow, first, order[d], rules[order[d]], 0), first, order, rules, d + 1);
    } else {
      assert UsedFrom(order, rules, d) == {};
    }
  }

  /**
   * After the FOLLOW passes: the sets only grew, none holds EPSILON, every element is `$` or a FIRST
   * element, and the defined names are the old ones plus every non-terminal used in a production.
   */
  lemma {:induction false} FollowPassesFacts(follow: FollowMap, first: map<string, set<string>>, order: seq<string>, rules: Rules, n: nat)
    requires Declared(order, rules)
    requires FollowSound(follow, first)
    ensures var r := FollowPasses(follow, first, order, rules, n);
      FollowGrows(follow, r) && FollowSound(r, first)
      && r.Keys == follow.Keys + (if n == 0 then {} else UsedFrom(order, rules, 0))
    decreases n
  {
    if n > 0 {
      var f1 := FollowDefinitions(follow, first, order, rules, 0);
      FollowDefinitionsFacts(follow, first, order, rules, 0);
      FollowPassesFacts(f1, first, order, rules, n - 1);
      if n - 1 > 0 {
        assert UsedFrom(order, rules, 0) <= f1.Keys;
      }
    }
  }

  /** The seed of ComputeFollowSet: FOLLOW(start) is reset to `{ $ }`. */
  function FollowSeed(follow: FollowMap, start: string): (r: FollowMap)
    ensures r.Keys == follow.Keys + {start}
    ensures r[start] == {EndOfStack}
    ensures forall x :: x in follow && x != start ==> r[x] == follow[x]
  {
    follow[start := {EndOfStack}]
  }

  /** The whole of ComputeFollowSet: the seed, then `n` passes (one per definition). */
  function ComputeFollow(follow: FollowMap, first: map<string, set<string>>, start: string, order: seq<string>, rules: Rules, n: nat): FollowMap
    requires Declared(order, rules)
  {
    FollowPasses(FollowSeed(follow, start), first, order, rules, n)
  }

  /**
   * The end-of-input marker is in FOLLOW(start), the result is sound when the old sets were, and
   * after at least one pass every occurrence has left its mark, judged by the last pass's start.
   */
  lemma ComputeFollowFacts(follow: FollowMap, first: map<string, set<string>>, start: string, order: seq<string>, rules: Rules, n: nat)
    requires Declared(order, rules)
    requires FollowSound(follow, first)
    ensures var r := ComputeFollow(follow, first, start, order, rules, n);
      start in r && EndOfStack in r[start] && FollowSound(r, first)
      && r.Keys == follow.Keys + {start} + (if n == 0 then {} else UsedFrom(order, rules, 0))
      && (n > 0 ==> FollowCoversAll(ComputeFollow(follow, first, start, order, rules, n - 1), first, r, order, rules, 0))
  {
    FollowPassesFacts(FollowSeed(follow, start), first, order, rules, n);
    if n > 0 {
      ComputeFollowLower(follow, first, start, order, rules, n);
    }
  }

  // ---------------------------------------------------------------------------
  // Lower bound: Follow(B) contains First(C) - {EPSILON} and, when C can vanish, Follow(A)

  /**
   * Occurrence `m` of a non-terminal in production `p` of `a` has left its mark on `r`: FOLLOW(p[m])
   * holds the tokens the trailing scan copies and, when that scan reaches the end of the production,
   * FOLLOW(a) as `f0` has it.
   */
  ghost predicate Covered(f0: FollowMap, first: map<string, set<string>>, r: FollowMap, a: string, p: Production, m: nat)
    requires Words(p) && m < |p|
  {
    IsNonTerminal(p[m]) ==>
      && p[m] in r
      && Trailing(first, p, m + 1).0 <= r[p[m]]
      && (Trailing(first, p, m + 1).1 && a in f0 ==> f0[a] <= r[p[m]])
  }

  /** Coverage survives growth of the result and shrinking of the sets it is judged by. */
  lemma CoveredMono(f0: FollowMap, g0: FollowMap, first: map<string, set<string>>, r: FollowMap, r': FollowMap, a: string, p: Production, m: nat)
    requires Words(p) && m < |p|
    requires Covered(f0, first, r, a, p, m) && FollowGrows(g0, f0) && FollowGrows(r, r')
    ensures Covered(g0, first, r', a, p, m)
  {
  }

  lemma GrowsTrans(f: FollowMap, g: FollowMap, h: FollowMap)
    requires FollowGrows(f, g) && FollowGrows(g, h)
    ensures FollowGrows(f, h)
  {
  }

  /** The occurrences in `p[i..]` each leave their mark, judged by any sets `f0` below the start. */
  lemma {:induction false} FollowProductionLower(follow: FollowMap, first: map<string, set<string>>, a: string, p: Production, i: nat, f0: FollowMap)
    requires Words(p) && i <= |p|
    requires FollowGrows(f0, follow)
    ensures var r := FollowProduction(follow, first, a, p, i);
      FollowGrows(follow, r) && forall m :: i <= m < |p| ==> Covered(f0, first, r, a, p, m)
    decreases |p| - i
  {
    if i < |p| {
      var r := FollowProduction(follow, first, a, p, i);
      if IsNonTerminal(p[i]) {
        var f1 := FollowOccurrence(follow, first, a, p, i);
        assert FollowGrows(follow, f1);
        assert Covered(f0, first, f1, a, p, i);
        GrowsTrans(f0, follow, f1);
        FollowProductionLower(f1, first, a, p, i + 1, f0);
        CoveredMono(f0, f0, first, f1, r, a, p, i);
        GrowsTrans(follow, f1, r);
      } else {
        FollowProductionLower(follow, first, a, p, i + 1, f0);
      }
    }
  }

  /** Every occurrence in the productions `ps[j..]` of `a` has left its mark on `r`. */
  ghost predicate CoveredAll(f0: FollowMap, first: map<string, set<string>>, r: FollowMap, a: string, ps: seq<Production>, j: nat)
    requires forall k :: 0 <= k < |ps| ==> Words(ps[k])
  {
    forall k, m :: j <= k < |ps| && 0 <= m < |ps[k]| ==> Covered(f0, first, r, a, ps[k], m)
  }

  /** The productions `ps[j..]` of `a` each leave their marks. */
  lemma {:induction false} FollowProductionsLower(follow: FollowMap, first: map<string, set<string>>, a: string, ps: seq<Production>, j: nat, f0: FollowMap)
    requires forall k :: 0 <= k < |ps| ==> Words(ps[k])
    requires FollowGrows(f0, follow)
    ensures var r := FollowProductions(follow, first, a, ps, j);
      FollowGrows(follow, r) && CoveredAll(f0, first, r, a, ps, j)
    decreases |ps| - j
  {
    if j < |ps| {
      var r := FollowProductions(follow, first, a, ps, j);
      var f1 := FollowProduction(follow, first, a, ps[j], 0);
      FollowProductionLower(follow, first, a, ps[j], 0, f0);
      GrowsTrans(f0, follow, f1);
      FollowProductionsLower(f1, first, a, ps, j + 1, f0);
      forall m | 0 <= m < |ps[j]|
        ensures Covered(f0, first, r, a, ps[j], m)
      {
        CoveredMono(f0, f0, first, f1, r, a, ps[j], m);
      }
      GrowsTrans(follow, f1, r);
    }
  }

  /** Every occurrence in every production of the definitions `order[d..]` has left its mark on `r`. */
  ghost predicate FollowCoversAll(f0: FollowMap, first: map<string, set<string>>, r: FollowMap, order: seq<string>, rules: Rules, d: nat)
    requires Declared(order, rules)
  {
    forall e :: d <= e < |order| ==> CoveredAll(f0, first, r, order[e], rules[order[e]], 0)
  }

  lemma CoveredAllMono(f0: FollowMap, g0: FollowMap, first: map<string, set<string>>, r: FollowMap, r': FollowMap, a: string, ps: seq<Production>)
    requires forall k :: 0 <= k < |ps| ==> Words(ps[k])
    requires CoveredAll(f0, first, r, a, ps, 0) && FollowGrows(g0, f0) && FollowGrows(r, r')
    ensures CoveredAll(g0, first, r', a, ps, 0)
  {
    forall k, m | 0 <= k < |ps| && 0 <= m < |ps[k]|
      ensures Covered(g0, first, r', a, ps[k], m)
    {
      CoveredMono(f0, g0, first, r, r', a, ps[k], m);
    }
  }

  /** One pass over the definitions `order[d..]` leaves the marks of all their occurrences. */
  lemma {:induction false} FollowDefinitionsLower(follow: FollowMap, first: map<string, set<string>>, order: seq<string>, rules: Rules, d: nat, f0: FollowMap)
    requires Declared(order, rules)
    requires FollowGrows(f0, follow)
    ensures var r := FollowDefinitions(follow, first, order, rules, d);
      FollowGrows(follow, r) && FollowCoversAll(f0, first, r, order, rules, d)
    decreases |order| - d
  {
    if d < |order| {
      var r := FollowDefinitions(follow, first, order, rules, d);
      var a := order[d];
      var f1 := FollowProductions(follow, first, a, rules[a], 0);
      FollowProductionsLower(follow, first, a, rules[a], 0, f0);
      GrowsTrans(f0, follow, f1);
      FollowDefinitionsLower(f1, first, order, rules, d + 1, f0);
      CoveredAllMono(f0, f0, first, f1, r, a, rules[a]);
      GrowsTrans(follow, f1, r);
    }
  }

  /** `n + 1` passes are `n` passes and then one more. */
  lemma {:induction false} FollowPassesLast(follow: FollowMap, first: map<string, set<string>>, order: seq<string>, rules: Rules, n: nat)
    requires Declared(order, rules)
    ensures FollowPasses(follow, first, order, rules, n + 1) == FollowDefinitions(FollowPasses(follow, first, order, rules, n), first, order, rules, 0)
    decreases n
  {
    if n > 0 {
      FollowPassesLast(FollowDefinitions(follow, first, order, rules, 0), first, order, rules, n - 1);
    }
  }

  /** The passes only grow the sets. */
  lemma {:induction false} FollowPassesGrow(follow: FollowMap, first: map<string, set<string>>, order: seq<string>, rules: Rules, n: nat)
    requires Declared(order, rules)
    ensures FollowGrows(follow, FollowPasses(follow, first, order, rules, n))
    decreases n
  {
    if n > 0 {
      var f1 := FollowDefinitions(follow, first, order, rules, 0);
      FollowDefinitionsLower(follow, first, order, rules, 0, map[]);
      FollowPassesGrow(f1, first, order, rules, n - 1);
      GrowsTrans(follow, f1, FollowPasses(f1, first, order, rules, n - 1));
    }
  }

  /**
   * After `n > 0` passes every occurrence has left its mark, judged by the sets the last pass
   * started from, and so in particular by the sets before the first pass.
   */
  lemma FollowPassesLower(follow: FollowMap, first: map<string, set<string>>, order: seq<string>, rules: Rules, n: nat)
    requires Declared(order, rules) && n > 0
    ensures var r := FollowPasses(follow, first, order, rules, n);
      && FollowGrows(follow, r)
      && FollowCoversAll(FollowPasses(follow, first, order, rules, n - 1), first, r, order, rules, 0)
      && FollowCoversAll(follow, first, r, order, rules, 0)
  {
    var t := FollowPasses(follow, first, order, rules, n - 1);
    FollowPassesLast(follow, first, order, rules, n - 1);
    FollowPassesGrow(follow, first, order, rules, n - 1);
    FollowDefinitionsLower(t, first, order, rules, 0, t);
    FollowDefinitionsLower(t, first, order, rules, 0, follow);
    GrowsTrans(follow, t, FollowPasses(follow, first, order, rules, n));
  }

  /**
   * The whole of ComputeFollowSet leaves the mark of every occurrence, judged by the sets its last
   * pass started from and by the seed.
   */
  lemma ComputeFollowLower(follow: FollowMap, first: map<string, set<string>>, start: string, order: seq<string>, rules: Rules, n: nat)
    requires Declared(order, rules) && n > 0
    ensures var r := ComputeFollow(follow, first, start, order, rules, n);
      && FollowCoversAll(ComputeFollow(follow, first, start, order, rules, n - 1), first, r, order, rules, 0)
      && FollowCoversAll(FollowSeed(follow, start), first, r, order, rules, 0)
  {
    FollowPassesLower(FollowSeed(follow, start), first, order, rules, n);
  }

  /**
   * A non-terminal that ends a production of the start symbol, followed only by transparent words,
   * has `$` in its FOLLOW set after ComputeFollowSet.
   */
  lemma EndOfInputFollows(follow: FollowMap, first: map<string, set<string>>, start: string, order: seq<string>, rules: Rules, n: nat, e: nat, k: nat, m: nat)
    requires Declared(order, rules) && n > 0
    requires e < |order| && order[e] == start && k < |rules[start]| && m < |rules[start][k]|
    requires IsNonTerminal(rules[start][k][m])
    requires forall m' :: m < m' < |rules[start][k]| ==> Transparent(first, rules[start][k], m')
    ensures var r := ComputeFollow(follow, first, start, order, rules, n);
      rules[start][k][m] in r && EndOfStack in r[rules[start][k][m]]
  {
    var p := rules[start][k];
    var seed := FollowSeed(follow, start);
    ComputeFollowLower(follow, first, start, order, rules, n);
    TrailingFacts(first, p, m + 1);
    assert CoveredAll(seed, first, ComputeFollow(follow, first, start, order, rules, n), start, rules[start], 0);
    assert Covered(seed, first, ComputeFollow(follow, first, start, order, rules, n), start, p, m);
  }
}
