/** Lexical classification of grammar symbols (SyntaxAnalyzer/Grammar.cs). */
module Symbols {
  import opened Wrappers

  const EndOfStack: string := "$"
  const Epsilon: string := "EPSILON"

  /** A production is the sequence of words of one alternative of a non-terminal. */
  type Production = seq<string>

  /** Every word of `p` is non-empty, so that it can be classified. */
  predicate Words(p: Production)
  {
    forall k :: 0 <= k < |p| ==> p[k] != ""
  }

  /** `'x'`: quoted at both ends (a one-character `'` qualifies, as in the source). */
  predicate IsTerminal(token: string)
    requires token != ""
  {
    token[0] == '\'' && token[|token| - 1] == '\''
  }

  /** `#x#`: an embedded semantic action. */
  predicate IsSemanticAction(token: string)
    requires token != ""
  {
    token[0] == '#' && token[|token| - 1] == '#'
  }

  predicate IsEpsilon(token: string)
  {
    token == Epsilon
  }

  /** Everything that is neither a terminal, an action nor EPSILON. */
  predicate IsNonTerminal(token: string)
    requires token != ""
  {
    !IsTerminal(token) && !IsSemanticAction(token) && !IsEpsilon(token)
  }

  /** The four kinds partition the non-empty strings. */
  datatype Kind = Terminal | SemanticAction | EpsilonKind | NonTerminal

  function KindOf(token: string): (k: Kind)
    requires token != ""
    ensures k == Terminal <==> IsTerminal(token)
    ensures k == SemanticAction <==> IsSemanticAction(token)
    ensures k == EpsilonKind <==> IsEpsilon(token)
    ensures k == NonTerminal <==> IsNonTerminal(token)
  {
    if IsTerminal(token) then Terminal
    else if IsSemanticAction(token) then SemanticAction
    else if IsEpsilon(token) then EpsilonKind
    else NonTerminal
  }

  /** The literal between the quotes; fails on anything shorter than three characters or not quoted. */
  function ExtractTerminal(terminal: string): (r: Result<string>)
    ensures r.Ok? <==> |terminal| > 2 && terminal[0] == '\'' && terminal[|terminal| - 1] == '\''
    ensures r.Ok? ==> terminal == "'" + r.value + "'" && r.value != ""
  {
    if |terminal| > 2 && terminal[0] == '\'' && terminal[|terminal| - 1] == '\'' then
      assert terminal == "'" + terminal[1..|terminal| - 1] + "'";
      Ok(terminal[1..|terminal| - 1])
    else
      Err("String '" + terminal + "' is not a terminal")
  }

  lemma ExtractTerminalRoundTrip(s: string)
    requires s != ""
    ensures ExtractTerminal("'" + s + "'") == Ok(s)
  {
    var t := "'" + s + "'";
    assert t[1..|t| - 1] == s;
  }

  /** The last word of `p` that is a non-terminal; fails when there is none. */
  function LastNonTerminal(p: Production): (r: Result<string>)
    requires Words(p)
    ensures r.Ok? <==> exists k :: 0 <= k < |p| && IsNonTerminal(p[k])
    ensures r.Ok? ==> exists k :: 0 <= k < |p| && p[k] == r.value && IsNonTerminal(p[k])
                                   && forall m :: k < m < |p| ==> !IsNonTerminal(p[m])
  {
    if p == [] then Err("Production does not contain any non-terminal")
    else if IsNonTerminal(p[|p| - 1]) then Ok(p[|p| - 1])
    else
      var r := LastNonTerminal(p[..|p| - 1]);
      assert forall k :: 0 <= k < |p| - 1 ==> p[..|p| - 1][k] == p[k];
      r
  }
}
