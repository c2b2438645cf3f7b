/**
 * FIRST sets as ComputeFirstSet computes them (SyntaxAnalyzer/Grammar.cs:56-158).
 * Each function is one loop level of that method, written as "the work that remains
 * from position i on", so that a loop invariant can say `Spec(start) == Spec(now, i)`.
 */
module FirstSets {
  import opened Wrappers
  import opened Symbols

  type Rules = map<string, seq<Production>>

  /** A production is identified by its non-terminal and its position in that non-terminal's list. */
  type ProductionKey = (string, nat)

  /** Every word of every production is non-empty (Build guarantees it). */
  predicate AllWords(rules: Rules)
  {
    forall x, j :: x in rules && 0 <= j < |rules[x]| ==> Words(rules[x][j])
  }

  /** The declared non-terminals, in declaration order, each with its productions. */
  predicate Declared(order: seq<string>, rules: Rules)
  {
    AllWords(rules) && forall d :: 0 <= d < |order| ==> order[d] in rules
  }

  /** `_firstSet` and `_productionFirstSet`. */
  datatype FirstState = FirstState(first: map<string, set<string>>, prod: map<ProductionKey, set<string>>)

  /** GetFirstSet: only a non-terminal that already has a set has one. */
  function FirstOf(first: map<string, set<string>>, token: string): (r: Option<set<string>>)
    requires token != ""
    ensures r.Some? <==> IsNonTerminal(token) && token in first
    ensures r.Some? ==> r.value == first[token]
  {
    if IsNonTerminal(token) && token in first then Some(first[token]) else None
  }

  /** Adds `xs` to FIRST(production `k`) and to FIRST(`a`). */
  function Add(s: FirstState, a: string, k: ProductionKey, xs: set<string>): FirstState
    requires a in s.first && k in s.prod
  {
    FirstState(s.first[a := s.first[a] + xs], s.prod[k := s.prod[k] + xs])
  }

  /** The scan of production `p` of `a` from word `i` on. */
  function ScanFirst(s: FirstState, a: string, k: ProductionKey, p: Production, i: nat): (r: Result<FirstState>)
    requires a in s.first && k in s.prod && Words(p) && i <= |p|
    ensures r.Ok? ==> r.value.first.Keys == s.first.Keys && r.value.prod.Keys == s.prod.Keys
    decreases |p| - i
  {
    if i == |p| then Ok(s)
    else
      var token := p[i];
      if IsTerminal(token) then
        match ExtractTerminal(token)
        case Err(m) => Err(m)
        case Ok(x) => ScanFirst(Add(s, a, k, {x}), a, k, p, i + 1)
      else if IsEpsilon(token) then
        ScanFirst(Add(s, a, k, {Epsilon}), a, k, p, i + 1)
      else if IsNonTerminal(token) then
        match FirstOf(s.first, token)
        case None => Ok(s)
        case Some(f) =>
          if Epsilon !in f || LastNonTerminal(p) == Ok(token) then Ok(Add(s, a, k, f))
          else ScanFirst(Add(s, a, k, f - {Epsilon}), a, k, p, i + 1)
      else
        ScanFirst(s, a, k, p, i + 1)
  }

  /** Creates the production's set when it is missing. */
  function OpenProduction(s: FirstState, k: ProductionKey): FirstState
  {
    if k in s.prod then s else s.(prod := s.prod[k := {}])
  }

  /** Creates the non-terminal's set when it is missing. */
  function OpenDefinition(s: FirstState, a: string): FirstState
  {
    if a in s.first then s else s.(first := s.first[a := {}])
  }

  /** The productions of one definition, from production `j` on. */
  function FirstProductions(s: FirstState, a: string, ps: seq<Production>, j: nat): (r: Result<FirstState>)
    requires a in s.first && forall m :: 0 <= m < |ps| ==> Words(ps[m])
    ensures r.Ok? ==> r.value.first.Keys == s.first.Keys
    decreases |ps| - j
  {
    if j >= |ps| then Ok(s)
    else
      var s1 := OpenProduction(s, (a, j));
      match ScanFirst(s1, a, (a, j), ps[j], 0)
      case Err(m) => Err(m)
      case Ok(s2) => FirstProductions(s2, a, ps, j + 1)
  }

  /** FirstProductions opens a set for every production from `j` on and for nothing else. */
  lemma {:induction false} FirstProductionsKeys(s: FirstState, a: string, ps: seq<Production>, j: nat)
    requires a in s.first && (forall m :: 0 <= m < |ps| ==> Words(ps[m])) && FirstProductions(s, a, ps, j).Ok?
    ensures FirstProductions(s, a, ps, j).value.prod.Keys == s.prod.Keys + (set m | j <= m < |ps| :: (a, m))
    decreases |ps| - j
  {
    if j < |ps| {
      var s2 := ScanFirst(OpenProduction(s, (a, j)), a, (a, j), ps[j], 0).value;
      FirstProductionsKeys(s2, a, ps, j + 1);
      assert (set m | j <= m < |ps| :: (a, m)) == {(a, j)} + (set m | j + 1 <= m < |ps| :: (a, m));
    } else {
      assert (set m | j <= m < |ps| :: (a, m)) == {};
    }
  }

  /** One production of FirstProductions: a failed scan is the result, a good one goes on with the next production. */
  lemma FirstProductionsStep(s: FirstState, a: string, ps: seq<Production>, j: nat)
    requires a in s.first && (forall m :: 0 <= m < |ps| ==> Words(ps[m])) && j < |ps|
    ensures var res := ScanFirst(OpenProduction(s, (a, j)), a, (a, j), ps[j], 0);
      && (res.Err? ==> FirstProductions(s, a, ps, j) == Err(res.msg))
      && (res.Ok? ==> FirstProductions(s, a, ps, j) == FirstProductions(res.value, a, ps, j + 1))
  {
  }


  /** Production keys of the definitions `order[d..]`. */
  ghost function KeysFrom(order: seq<string>, rules: Rules, d: nat): set<ProductionKey>
    requires d <= |order|
  {
    set x, m | x in rules && x in order[d..] && 0 <= m < |rules[x]| :: (x, m)
  }

  /** The non-terminals `order[d..]`. */
  ghost function NamesFrom(order: seq<string>, d: nat): set<string>
    requires d <= |order|
  {
    set x | x in order[d..]
  }

  lemma NamesFromStep(order: seq<string>, rules: Rules, d: nat)
    requires d < |order| && order[d] in rules
    ensures NamesFrom(order, d) == {order[d]} + NamesFrom(order, d + 1)
    ensures KeysFrom(order, rules, d) == (set m | 0 <= m < |rules[order[d]]| :: (order[d], m)) + KeysFrom(order, rules, d + 1)
  {
    assert order[d..] == [order[d]] + order[d + 1..];
  }

  /** One pass over the definitions `order[d..]`. */
  function FirstDefinitions(s: FirstState, order: seq<string>, rules: Rules, d: nat): (r: Result<FirstState>)
    requires Declared(order, rules)
    decreases |order| - d
  {
    if d >= |order| then Ok(s)
    else
      var a := order[d];
      match FirstProductions(OpenDefinition(s, a), a, rules[a], 0)
      case Err(m) => Err(m)
      case Ok(s2) => FirstDefinitions(s2, order, rules, d + 1)
  }

  /** `n` passes over all definitions. */
  function FirstPasses(s: FirstState, order: seq<string>, rules: Rules, n: nat): (r: Result<FirstState>)
    requires Declared(order, rules)
    decreases n
  {
    if n == 0 then Ok(s)
    else
      match FirstDefinitions(s, order, rules, 0)
      case Err(m) => Err(m)
      case Ok(s2) => FirstPasses(s2, order, rules, n - 1)
  }

  // ---------------------------------------------------------------------------
  // Properties

  /** The sets only ever grow, and no set disappears. */
  ghost predicate Grows(s: FirstState, r: FirstState)
  {
    && (forall x :: x in s.first ==> x in r.first && s.first[x] <= r.first[x])
    && (forall k :: k in s.prod ==> k in r.prod && s.prod[k] <= r.prod[k])
  }

  /** FIRST of every production is contained in FIRST of its non-terminal. */
  ghost predicate WithinLhs(s: FirstState)
  {
    forall k :: k in s.prod ==> k.0 in s.first && s.prod[k] <= s.first[k.0]
  }

  /** `t` is the literal of some quoted word of the grammar. */
  ghost predicate NamesTerminal(rules: Rules, t: string)
  {
    exists x, j, i :: x in rules && 0 <= j < |rules[x]| && 0 <= i < |rules[x][j]| && rules[x][j][i] == "'" + t + "'"
  }

  /** FIRST sets hold nothing but EPSILON and terminal literals of the grammar. */
  ghost predicate TerminalsOnly(s: FirstState, rules: Rules)
  {
    forall x, t :: x in s.first && t in s.first[x] ==> t == Epsilon || NamesTerminal(rules, t)
  }

  /** The invariant all loop levels keep. */
  ghost predicate Sound(s: FirstState, rules: Rules)
  {
    WithinLhs(s) && TerminalsOnly(s, rules)
  }

  lemma AddFacts(s: FirstState, a: string, k: ProductionKey, xs: set<string>, rules: Rules)
    requires a in s.first && k in s.prod && k.0 == a
    requires Sound(s, rules)
    requires forall t :: t in xs ==> t == Epsilon || NamesTerminal(rules, t)
    ensures Grows(s, Add(s, a, k, xs)) && Sound(Add(s, a, k, xs), rules)
  {
  }

  /** One production's scan grows the sets and keeps FIRST(production) inside FIRST(lhs). */
  lemma {:induction false} ScanFirstFacts(s: FirstState, a: string, k: ProductionKey, p: Production, i: nat, rules: Rules)
    requires a in s.first && k in s.prod && Words(p) && i <= |p|
    requires k.0 == a && a in rules && k.1 < |rules[a]| && rules[a][k.1] == p
    requires Sound(s, rules)
    requires ScanFirst(s, a, k, p, i).Ok?
    ensures Grows(s, ScanFirst(s, a, k, p, i).value) && Sound(ScanFirst(s, a, k, p, i).value, rules)
    decreases |p| - i
  {
    if i < |p| {
      var token := p[i];
      if IsTerminal(token) {
        var x := ExtractTerminal(token).value;
        assert rules[a][k.1][i] == "'" + x + "'";
        AddFacts(s, a, k, {x}, rules);
        ScanFirstFacts(Add(s, a, k, {x}), a, k, p, i + 1, rules);
      } else if IsEpsilon(token) {
        AddFacts(s, a, k, {Epsilon}, rules);
        ScanFirstFacts(Add(s, a, k, {Epsilon}), a, k, p, i + 1, rules);
      } else if IsNonTerminal(token) {
        if token in s.first {
          var f := s.first[token];
          if Epsilon !in f || LastNonTerminal(p) == Ok(token) {
            AddFacts(s, a, k, f, rules);
          } else {
            AddFacts(s, a, k, f - {Epsilon}, rules);
            ScanFirstFacts(Add(s, a, k, f - {Epsilon}), a, k, p, i + 1, rules);
          }
        }
      } else {
        ScanFirstFacts(s, a, k, p, i + 1, rules);
      }
    }
  }

  lemma {:induction false} FirstProductionsFacts(s: FirstState, a: string, j: nat, rules: Rules)
    requires a in s.first && a in rules && AllWords(rules)
    requires Sound(s, rules)
    requires FirstProductions(s, a, rules[a], j).Ok?
    ensures Grows(s, FirstProductions(s, a, rules[a], j).value) && Sound(FirstProductions(s, a, rules[a], j).value, rules)
    decreases |rules[a]| - j
  {
    var ps := rules[a];
    if j < |ps| {
      var s1 := OpenProduction(s, (a, j));
      assert Grows(s, s1) && Sound(s1, rules);
      var s2 := ScanFirst(s1, a, (a, j), ps[j], 0).value;
      ScanFirstFacts(s1, a, (a, j), ps[j], 0, rules);
      FirstProductionsFacts(s2, a, j + 1, rules);
    }
  }

  lemma {:induction false} FirstDefinitionsFacts(s: FirstState, order: seq<string>, rules: Rules, d: nat)
    requires Declared(order, rules) && d <= |order|
    requires Sound(s, rules)
    requires FirstDefinitions(s, order, rules, d).Ok?
    ensures var r := FirstDefinitions(s, order, rules, d).value;
      Grows(s, r) && Sound(r, rules)
    decreases |order| - d
  {
    if d < |order| {
      var a := order[d];
      var s1 := OpenDefinition(s, a);
      assert Grows(s, s1) && Sound(s1, rules);
      var s2 := FirstProductions(s1, a, rules[a], 0).value;
      FirstProductionsFacts(s1, a, 0, rules);
      FirstDefinitionsFacts(s2, order, rules, d + 1);
    }
  }

  lemma {:induction false} FirstDefinitionsKeys(s: FirstState, order: seq<string>, rules: Rules, d: nat)
    requires Declared(order, rules) && d <= |order|
    requires FirstDefinitions(s, order, rules, d).Ok?
    ensures var r := FirstDefinitions(s, order, rules, d).value;
      && r.first.Keys == s.first.Keys + NamesFrom(order, d)
      && r.prod.Keys == s.prod.Keys + KeysFrom(order, rules, d)
    decreases |order| - d
  {
    if d < |order| {
      var a := order[d];
      var s1 := OpenDefinition(s, a);
      var s2 := FirstProductions(s1, a, rules[a], 0).value;
      FirstProductionsKeys(s1, a, rules[a], 0);
      FirstDefinitionsKeys(s2, order, rules, d + 1);
      NamesFromStep(order, rules, d);
    } else {
      assert order[d..] == [];
    }
  }

  /**
   * ComputeFirstSet from empty sets: FIRST sets grow, each production's set lies inside its
   * non-terminal's, every set holds only EPSILON and terminal literals, and after at least one
   * pass every declared non-terminal and every production has a set.
   */
  lemma {:induction false} FirstPassesFacts(s: FirstState, order: seq<string>, rules: Rules, n: nat)
    requires Declared(order, rules)
    requires Sound(s, rules)
    requires FirstPasses(s, order, rules, n).Ok?
    ensures var r := FirstPasses(s, order, rules, n).value;
      && Grows(s, r) && Sound(r, rules)
      && (n > 0 ==> r.first.Keys == s.first.Keys + NamesFrom(order, 0))
      && (n > 0 ==> r.prod.Keys == s.prod.Keys + KeysFrom(order, rules, 0))
      && (n == 0 ==> r == s)
    decreases n
  {
    if n > 0 {
      var s2 := FirstDefinitions(s, order, rules, 0).value;
      FirstDefinitionsFacts(s, order, rules, 0);
      FirstDefinitionsKeys(s, order, rules, 0);
      assert order[0..] == order;
      FirstPassesFacts(s2, order, rules, n - 1);
    }
  }

  // ---------------------------------------------------------------------------
  // What the scans add

  /** Every set of `f0` is present in `f` and contained in its set there. */
  ghost predicate Below(f0: map<string, set<string>>, f: map<string, set<string>>)
  {
    forall x :: x in f0 ==> x in f && f0[x] <= f[x]
  }

  /**
   * Word `m` of `p` lets the token loop go on to the next word, judged by the sets `first`: a
   * terminal, EPSILON or action always does; a non-terminal does when it has a set holding EPSILON
   * and is not the last non-terminal of the production.
   */
  predicate PassesOn(first: map<string, set<string>>, p: Production, m: nat)
    requires Words(p) && m < |p|
  {
    IsNonTerminal(p[m]) ==> p[m] in first && Epsilon in first[p[m]] && LastNonTerminal(p) != Ok(p[m])
  }

  /** The token loop, started at word `i`, gets to word `m`. */
  predicate Reaches(first: map<string, set<string>>, p: Production, i: nat, m: nat)
    requires Words(p) && m <= |p|
  {
    forall m' :: i <= m' < m ==> PassesOn(first, p, m')
  }

  /**
   * What word `m` adds when the loop gets to it: a terminal its literal, EPSILON itself, a
   * non-terminal with a set the whole set when the loop stops there and the set without EPSILON
   * when it goes on, anything else nothing.
   */
  function Contribution(first: map<string, set<string>>, p: Production, m: nat): set<string>
    requires Words(p) && m < |p|
  {
    var w := p[m];
    if IsTerminal(w) then
      match ExtractTerminal(w)
      case Ok(x) => {x}
      case Err(_) => {}
    else if IsEpsilon(w) then {Epsilon}
    else if IsNonTerminal(w) && w in first then
      if PassesOn(first, p, m) then first[w] - {Epsilon} else first[w]
    else {}
  }

  /** A scan from the state `s` sees at least the sets `f0`, and gets at least as far. */
  lemma ContributionGrows(f0: map<string, set<string>>, f: map<string, set<string>>, p: Production, m: nat)
    requires Words(p) && m < |p| && Below(f0, f)
    ensures PassesOn(f0, p, m) ==> PassesOn(f, p, m)
    ensures IsNonTerminal(p[m]) && p[m] in f ==> Contribution(f0, p, m) <= f[p[m]]
    ensures IsNonTerminal(p[m]) && p[m] in f && PassesOn(f, p, m) ==> Contribution(f0, p, m) <= f[p[m]] - {Epsilon}
    ensures IsNonTerminal(p[m]) && p[m] !in f ==> Contribution(f0, p, m) == {} && !PassesOn(f0, p, m)
  {
  }

  /**
   * Lower bound of one production's scan: every word the scan gets to, judged by any sets `f0`
   * below the ones it starts from, adds its contribution to FIRST of the production and of `a`.
   */
  lemma {:induction false} ScanFirstLower(s: FirstState, a: string, k: ProductionKey, p: Production, i: nat, f0: map<string, set<string>>)
    requires a in s.first && k in s.prod && Words(p) && i <= |p|
    requires Below(f0, s.first)
    requires ScanFirst(s, a, k, p, i).Ok?
    ensures var r := ScanFirst(s, a, k, p, i).value;
      && Grows(s, r)
      && forall m :: i <= m < |p| && Reaches(f0, p, i, m) ==> Contribution(f0, p, m) <= r.prod[k] && Contribution(f0, p, m) <= r.first[a]
    decreases |p| - i
  {
    if i < |p| {
      var token := p[i];
      ContributionGrows(f0, s.first, p, i);
      if IsNonTerminal(token) && (token !in s.first || Epsilon !in s.first[token] || LastNonTerminal(p) == Ok(token)) {
        assert !PassesOn(f0, p, i);
        ScanStops(s, a, k, p, i, f0);
      } else {
        var next: FirstState;
        if IsTerminal(token) {
          next := Add(s, a, k, {ExtractTerminal(token).value});
          AddGrows(s, a, k, {ExtractTerminal(token).value});
        } else if IsEpsilon(token) {
          next := Add(s, a, k, {Epsilon});
          AddGrows(s, a, k, {Epsilon});
        } else if IsNonTerminal(token) {
          next := Add(s, a, k, s.first[token] - {Epsilon});
          AddGrows(s, a, k, s.first[token] - {Epsilon});
        } else {
          next := s;
        }
        assert ScanFirst(s, a, k, p, i) == ScanFirst(next, a, k, p, i + 1);
        assert Below(f0, next.first);
        ScanFirstLower(next, a, k, p, i + 1, f0);
        ScanGoesOn(s, next, ScanFirst(s, a, k, p, i).value, a, k, p, i, f0);
      }
    }
  }

  /** Add grows the sets by `xs`. */
  lemma AddGrows(s: FirstState, a: string, k: ProductionKey, xs: set<string>)
    requires a in s.first && k in s.prod
    ensures var r := Add(s, a, k, xs);
      Grows(s, r) && a in r.first && k in r.prod && xs <= r.prod[k] && xs <= r.first[a]
  {
  }

  /** The token loop stops at word `i`: what it added there is all the bound asks for. */
  lemma ScanStops(s: FirstState, a: string, k: ProductionKey, p: Production, i: nat, f0: map<string, set<string>>)
    requires a in s.first && k in s.prod && Words(p) && i < |p|
    requires Below(f0, s.first) && IsNonTerminal(p[i]) && !PassesOn(f0, p, i)
    requires p[i] !in s.first || Epsilon !in s.first[p[i]] || LastNonTerminal(p) == Ok(p[i])
    ensures ScanFirst(s, a, k, p, i).Ok?
    ensures var r := ScanFirst(s, a, k, p, i).value;
      && Grows(s, r)
      && forall m :: i <= m < |p| && Reaches(f0, p, i, m) ==> Contribution(f0, p, m) <= r.prod[k] && Contribution(f0, p, m) <= r.first[a]
  {
    ContributionGrows(f0, s.first, p, i);
    forall m | i < m < |p| ensures !Reaches(f0, p, i, m) {
      assert !PassesOn(f0, p, i);
    }
  }

  /** The token loop goes on past word `i` from the state `next`. */
  lemma ScanGoesOn(s: FirstState, next: FirstState, r: FirstState, a: string, k: ProductionKey, p: Production, i: nat, f0: map<string, set<string>>)
    requires a in s.first && k in s.prod && Words(p) && i < |p|
    requires Grows(s, next) && Grows(next, r) && a in next.first && k in next.prod
    requires Contribution(f0, p, i) <= next.prod[k] && Contribution(f0, p, i) <= next.first[a]
    requires forall m :: i + 1 <= m < |p| && Reaches(f0, p, i + 1, m) ==> Contribution(f0, p, m) <= r.prod[k] && Contribution(f0, p, m) <= r.first[a]
    ensures Grows(s, r)
    ensures forall m :: i <= m < |p| && Reaches(f0, p, i, m) ==> Contribution(f0, p, m) <= r.prod[k] && Contribution(f0, p, m) <= r.first[a]
  {
    forall m | i + 1 <= m < |p| && Reaches(f0, p, i, m) ensures Reaches(f0, p, i + 1, m) {
    }
  }

  /** Every word that a scan of production `j` of `a` gets to, judged by `f0`, is in the sets of `r`. */
  ghost predicate Covers(f0: map<string, set<string>>, r: FirstState, a: string, ps: seq<Production>, j: nat)
    requires forall m :: 0 <= m < |ps| ==> Words(ps[m])
    requires j < |ps|
  {
    && (a, j) in r.prod && a in r.first
    && forall m :: 0 <= m < |ps[j]| && Reaches(f0, ps[j], 0, m) ==> Contribution(f0, ps[j], m) <= r.prod[(a, j)] && Contribution(f0, ps[j], m) <= r.first[a]
  }

  lemma CoversGrows(f0: map<string, set<string>>, r: FirstState, r': FirstState, a: string, ps: seq<Production>, j: nat)
    requires forall m :: 0 <= m < |ps| ==> Words(ps[m])
    requires j < |ps|
    requires Covers(f0, r, a, ps, j) && Grows(r, r')
    ensures Covers(f0, r', a, ps, j)
  {
  }

  /** The production loop from production `j` on covers every production from `j` on. */
  lemma {:induction false} FirstProductionsLower(s: FirstState, a: string, ps: seq<Production>, j: nat, f0: map<string, set<string>>)
    requires a in s.first && forall m :: 0 <= m < |ps| ==> Words(ps[m])
    requires Below(f0, s.first)
    requires FirstProductions(s, a, ps, j).Ok?
    ensures var r := FirstProductions(s, a, ps, j).value;
      && Grows(s, r)
      && forall j' :: j <= j' < |ps| ==> Covers(f0, r, a, ps, j')
    decreases |ps| - j
  {
    if j < |ps| {
      var r := FirstProductions(s, a, ps, j).value;
      var s1 := OpenProduction(s, (a, j));
      assert Grows(s, s1);
      ScanFirstLower(s1, a, (a, j), ps[j], 0, f0);
      var s2 := ScanFirst(s1, a, (a, j), ps[j], 0).value;
      assert Covers(f0, s2, a, ps, j);
      FirstProductionsLower(s2, a, ps, j + 1, f0);
      CoversGrows(f0, s2, r, a, ps, j);
    }
  }

  /** Every production of every non-terminal `order[e]` with `e >= d` is covered. */
  ghost predicate CoversAll(f0: map<string, set<string>>, r: FirstState, order: seq<string>, rules: Rules, d: nat)
    requires Declared(order, rules)
  {
    forall e, j :: d <= e < |order| && 0 <= j < |rules[order[e]]| ==> Covers(f0, r, order[e], rules[order[e]], j)
  }

  lemma CoversAllGrows(f0: map<string, set<string>>, r: FirstState, r': FirstState, order: seq<string>, rules: Rules, d: nat)
    requires Declared(order, rules)
    requires CoversAll(f0, r, order, rules, d) && Grows(r, r')
    ensures CoversAll(f0, r', order, rules, d)
  {
    forall e, j | d <= e < |order| && 0 <= j < |rules[order[e]]|
      ensures Covers(f0, r', order[e], rules[order[e]], j)
    {
      CoversGrows(f0, r, r', order[e], rules[order[e]], j);
    }
  }

  /** One pass over the definitions `order[d..]` covers all their productions. */
  lemma {:induction false} FirstDefinitionsLower(s: FirstState, order: seq<string>, rules: Rules, d: nat, f0: map<string, set<string>>)
    requires Declared(order, rules) && d <= |order|
    requires Below(f0, s.first)
    requires FirstDefinitions(s, order, rules, d).Ok?
    ensures var r := FirstDefinitions(s, order, rules, d).value;
      Grows(s, r) && CoversAll(f0, r, order, rules, d)
    decreases |order| - d
  {
    if d < |order| {
      var r := FirstDefinitions(s, order, rules, d).value;
      var a := order[d];
      var s1 := OpenDefinition(s, a);
      assert Grows(s, s1);
      FirstProductionsLower(s1, a, rules[a], 0, f0);
      var s2 := FirstProductions(s1, a, rules[a], 0).value;
      FirstDefinitionsLower(s2, order, rules, d + 1, f0);
      forall j | 0 <= j < |rules[a]|
        ensures Covers(f0, r, a, rules[a], j)
      {
        CoversGrows(f0, s2, r, a, rules[a], j);
      }
    }
  }

  /** `n + 1` passes are `n` passes and then one more. */
  lemma {:induction false} FirstPassesLast(s: FirstState, order: seq<string>, rules: Rules, n: nat)
    requires Declared(order, rules)
    ensures FirstPasses(s, order, rules, n + 1)
         == match FirstPasses(s, order, rules, n)
            case Err(m) => Err(m)
            case Ok(t) => FirstDefinitions(t, order, rules, 0)
    decreases n
  {
    if n > 0 {
      match FirstDefinitions(s, order, rules, 0)
      case Err(_) =>
      case Ok(s2) => FirstPassesLast(s2, order, rules, n - 1);
    }
  }

  /**
   * ComputeFirstSet's passes: the sets only grow, and after the last pass every production's FIRST
   * set, and its non-terminal's, holds the contribution of every word the token loop gets to, judged
   * by the sets that pass started from, and so in particular by the sets before the first pass.
   */
  lemma FirstPassesLower(s: FirstState, order: seq<string>, rules: Rules, n: nat)
    requires Declared(order, rules) && n > 0
    requires FirstPasses(s, order, rules, n).Ok?
    ensures FirstPasses(s, order, rules, n - 1).Ok?
    ensures var r := FirstPasses(s, order, rules, n).value;
      && Grows(s, r)
      && CoversAll(FirstPasses(s, order, rules, n - 1).value.first, r, order, rules, 0)
      && CoversAll(s.first, r, order, rules, 0)
  {
    FirstPassesLast(s, order, rules, n - 1);
    var t := FirstPasses(s, order, rules, n - 1).value;
    var r := FirstPasses(s, order, rules, n).value;
    FirstPassesGrow(s, order, rules, n - 1);
    FirstDefinitionsLower(t, order, rules, 0, t.first);
    FirstDefinitionsLower(t, order, rules, 0, s.first);
  }

  /** The passes only grow the sets. */
  lemma {:induction false} FirstPassesGrow(s: FirstState, order: seq<string>, rules: Rules, n: nat)
    requires Declared(order, rules)
    requires FirstPasses(s, order, rules, n).Ok?
    ensures Grows(s, FirstPasses(s, order, rules, n).value)
    decreases n
  {
    if n > 0 {
      var s2 := FirstDefinitions(s, order, rules, 0).value;
      FirstDefinitionsLower(s, order, rules, 0, map[]);
      FirstPassesGrow(s2, order, rules, n - 1);
    }
  }

  /**
   * A terminal or EPSILON preceded only by terminals, EPSILON and actions in production `j` of `a`
   * is in FIRST of that production and of `a` after ComputeFirstSet: as in the source, a terminal
   * does not end the token loop.
   */
  lemma LeadingTerminal(s: FirstState, order: seq<string>, rules: Rules, n: nat, e: nat, j: nat, m: nat)
    requires Declared(order, rules) && n > 0
    requires FirstPasses(s, order, rules, n).Ok?
    requires e < |order| && j < |rules[order[e]]| && m < |rules[order[e]][j]|
    requires forall m' :: 0 <= m' < m ==> !IsNonTerminal(rules[order[e]][j][m'])
    requires IsTerminal(rules[order[e]][j][m]) || IsEpsilon(rules[order[e]][j][m])
    ensures var r := FirstPasses(s, order, rules, n).value;
      var w := rules[order[e]][j][m];
      && (order[e], j) in r.prod && order[e] in r.first
      && (IsEpsilon(w) ==> Epsilon in r.prod[(order[e], j)] && Epsilon in r.first[order[e]])
      && (ExtractTerminal(w).Ok? ==> ExtractTerminal(w).value in r.prod[(order[e], j)] && ExtractTerminal(w).value in r.first[order[e]])
  {
    FirstPassesLower(s, order, rules, n);
    var r := FirstPasses(s, order, rules, n).value;
    var p := rules[order[e]][j];
    assert Reaches(s.first, p, 0, m);
    assert Covers(s.first, r, order[e], rules[order[e]], j);
  }
}
