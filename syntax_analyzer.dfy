/**
 * The table-driven predictive parser (SyntaxAnalyzer/SyntaxAnalyzer.cs): a stack of grammar words
 * over `$`, a lookahead token and panic-mode recovery on a table miss. The grammar comes in as a
 * value, and the loop runs for at most `fuel` steps, since at the end of the input it can go on
 * forever. Step is one turn of the loop and Run the whole of it; Parse is the loop itself.
 */
module Parsing {
  import opened Wrappers
  import opened Symbols
  import opened ParseTables
  import opened Tokens

  /** What Parse reads of a processed Grammar: its start symbol, parse table and FOLLOW sets. */
  datatype ParserGrammar = ParserGrammar(start: string, table: Table, follow: map<string, set<string>>)

  /** Every word the parser can push is non-empty, as Build guarantees. */
  predicate GrammarOk(g: ParserGrammar)
  {
    && g.start != ""
    && forall a :: a in g.table ==> forall t :: t in g.table[a] ==> Words(g.table[a][t])
  }

  /** The parser's state: the stack with its top last, the input index, the lookahead and the verdict so far. */
  datatype Config = Config(stack: seq<string>, index: nat, token: Option<Token>, success: bool)

  /** The message of the exception a mismatched terminal throws. */
  const MismatchMessage: string :=
    "Failed to process the input: In the Syntax analysis phase, the stack top terminal "
    + "and the lexical input terminal token did not match! Please report this problem."

  /** The message of ArgumentOutOfRangeException. */
  const OutOfRangeMessage: string := "Specified argument was out of the range of valid values."

  /** GetNextToken (SyntaxAnalyzer/SyntaxAnalyzer.cs:120-125): the token at `index` and the index after it, or nothing at the end. */
  function GetNextToken(tokens: seq<Token>, index: nat): (r: (Option<Token>, nat))
    ensures index < |tokens| ==> r == (Some(tokens[index]), index + 1)
    ensures index >= |tokens| ==> r == (None, index)
  {
    if index < |tokens| then (Some(tokens[index]), index + 1) else (None, index)
  }

  /** GetValue (SyntaxAnalyzer/SyntaxAnalyzer.cs:160-187): the terminal name of the lookahead. */
  function GetValue(token: Option<Token>): (r: Result<string>)
    ensures token.None? ==> r == Ok(EndOfStack)
    ensures r.Err? ==> r.msg == OutOfRangeMessage
  {
    match token
    case None => Ok(EndOfStack)
    case Some(t) =>
      match t.tokenType
      case Operator =>
        (match t.value
         case "+" => Ok("T_PLUS")
         case "-" => Ok("T_MINUS")
         case "*" => Ok("T_MULTIPLY")
         case "(" => Ok("T_OPEN_PAR")
         case ")" => Ok("T_CLOSE_PAR")
         case _ => Err(OutOfRangeMessage))
      case Semicolon => Ok("T_SEMICOLON")
      case Value => Ok("T_INTEGER")
      case _ => Err(OutOfRangeMessage)
  }

  /** The words a production puts on the stack: right to left, without EPSILON, so its first word ends on top. */
  function Pushed(p: Production): seq<string>
  {
    if p == [] then [] else Pushed(p[1..]) + (if IsEpsilon(p[0]) then [] else [p[0]])
  }

  /** The invariant of the loop: `$` at the bottom, classifiable words, the lookahead read from the index. */
  predicate Good(tokens: seq<Token>, c: Config)
  {
    && |c.stack| >= 1 && c.stack[0] == EndOfStack && Words(c.stack)
    && c.index <= |tokens|
    && (c.token.Some? ==> 1 <= c.index && c.token.value == tokens[c.index - 1])
    && (c.token.None? ==> c.index == |tokens|)
  }

  /** The top is a non-terminal whose cell for the lookahead is empty. */
  predicate IsMiss(g: ParserGrammar, c: Config)
    requires |c.stack| >= 1 && Words(c.stack)
  {
    var top := c.stack[|c.stack| - 1];
    && !IsTerminal(top) && !IsSemanticAction(top)
    && GetValue(c.token).Ok? && GetCell(g.table, top, GetValue(c.token).value).None?
  }

  /** One turn of the loop of Parse (SyntaxAnalyzer/SyntaxAnalyzer.cs:27-102), on a stack whose top is not `$`. */
  function Step(g: ParserGrammar, tokens: seq<Token>, c: Config): (r: Result<Config>)
    requires |c.stack| >= 1 && Words(c.stack) && c.stack[|c.stack| - 1] != EndOfStack
  {
    var n := |c.stack|;
    var top := c.stack[n - 1];
    var popped := c.stack[..n - 1];
    var next := GetNextToken(tokens, c.index);
    if IsTerminal(top) then
      var terminal := ExtractTerminal(top);
      if terminal.Err? then Err(terminal.msg) else
      var value := GetValue(c.token);
      if value.Err? then Err(value.msg)
      else if terminal.value == value.value then Ok(Config(popped, next.1, next.0, c.success))
      else Err(MismatchMessage)
    else if IsSemanticAction(top) then
      Ok(c.(stack := popped))
    else
      var value := GetValue(c.token);
      if value.Err? then Err(value.msg) else
      var production := GetCell(g.table, top, value.value);
      if production.Some? then
        Ok(c.(stack := popped + Pushed(production.value)))
      else if IsNonTerminal(top) && top in g.follow && value.value in g.follow[top] then
        Ok(c.(stack := popped, success := false))
      else
        Ok(Config(c.stack, next.1, next.0, false))
  }

  /** How Parse ends: its verdict, an exception, or still running when the fuel is spent. */
  datatype ParseResult = Parsed(success: bool) | Threw(msg: string) | OutOfFuel

  /** The loop of Parse from `c`, for at most `fuel` turns. */
  function Run(g: ParserGrammar, tokens: seq<Token>, c: Config, fuel: nat): ParseResult
    requires GrammarOk(g) && Good(tokens, c)
    decreases fuel
  {
    if c.stack[|c.stack| - 1] == EndOfStack then Parsed(c.success)
    else if fuel == 0 then OutOfFuel
    else
      StepGood(g, tokens, c);
      var r := Step(g, tokens, c);
      if r.Err? then Threw(r.msg) else Run(g, tokens, r.value, fuel - 1)
  }

  /** Where a run stops: at `$` with its verdict, or out of fuel. */
  lemma RunStops(g: ParserGrammar, tokens: seq<Token>, c: Config, fuel: nat)
    requires GrammarOk(g) && Good(tokens, c)
    ensures c.stack[|c.stack| - 1] == EndOfStack ==> Run(g, tokens, c, fuel) == Parsed(c.success)
    ensures c.stack[|c.stack| - 1] != EndOfStack && fuel == 0 ==> Run(g, tokens, c, fuel) == OutOfFuel
  {
  }

  /** One turn of a run that has not stopped. */
  lemma RunTurn(g: ParserGrammar, tokens: seq<Token>, c: Config, fuel: nat)
    requires GrammarOk(g) && Good(tokens, c) && c.stack[|c.stack| - 1] != EndOfStack && fuel > 0
    ensures Step(g, tokens, c).Ok? ==> Good(tokens, Step(g, tokens, c).value)
    ensures Step(g, tokens, c).Err? ==> Run(g, tokens, c, fuel) == Threw(Step(g, tokens, c).msg)
    ensures Step(g, tokens, c).Ok? ==> Run(g, tokens, c, fuel) == Run(g, tokens, Step(g, tokens, c).value, fuel - 1)
  {
    StepGood(g, tokens, c);
  }

  /** The state before the loop (SyntaxAnalyzer/SyntaxAnalyzer.cs:13-24): the first token read, `$` under the start symbol. */
  function Initial(g: ParserGrammar, tokens: seq<Token>): (c: Config)
    requires GrammarOk(g)
    ensures Good(tokens, c) && c.stack == [EndOfStack, g.start] && c.success
  {
    var next := GetNextToken(tokens, 0);
    Config([EndOfStack, g.start], next.1, next.0, true)
  }

  // ---------------------------------------------------------------------------
  // Properties of one turn

  /** Pushed holds the words of the production other than EPSILON, the first on top. */
  lemma {:induction false} PushedFacts(p: Production)
    ensures forall w :: w in Pushed(p) <==> w in p && w != Epsilon
    ensures p != [] && p[0] != Epsilon ==> |Pushed(p)| > 0 && Pushed(p)[|Pushed(p)| - 1] == p[0]
    ensures Words(p) ==> Words(Pushed(p))
  {
    if p != [] {
      PushedFacts(p[1..]);
      assert forall w :: w in p <==> w == p[0] || w in p[1..];
    }
  }

  /** A turn keeps the invariant, never takes the input index back and never past the end. */
  lemma StepGood(g: ParserGrammar, tokens: seq<Token>, c: Config)
    requires GrammarOk(g) && Good(tokens, c) && c.stack[|c.stack| - 1] != EndOfStack
    ensures Step(g, tokens, c).Ok? ==> Good(tokens, Step(g, tokens, c).value)
    ensures Step(g, tokens, c).Ok? ==> c.index <= Step(g, tokens, c).value.index <= |tokens|
  {
    var n := |c.stack|;
    var top := c.stack[n - 1];
    var popped := c.stack[..n - 1];
    assert n >= 2;
    assert popped[0] == EndOfStack && Words(popped);
    if !IsTerminal(top) && !IsSemanticAction(top) && GetValue(c.token).Ok? {
      var production := GetCell(g.table, top, GetValue(c.token).value);
      if production.Some? {
        PushAfter(popped, production.value);
      }
    }
  }

  /** Pushing a production of non-empty words over `$` keeps `$` at the bottom. */
  lemma PushAfter(popped: seq<string>, p: Production)
    requires |popped| >= 1 && popped[0] == EndOfStack && Words(popped) && Words(p)
    ensures var s := popped + Pushed(p); |s| >= 1 && s[0] == EndOfStack && Words(s)
  {
    PushedFacts(p);
    var s := popped + Pushed(p);
    assert forall k :: 0 <= k < |s| ==> s[k] in popped || s[k] in Pushed(p);
  }

  /**
   * A terminal on top that names the lookahead is popped and the input moves on by exactly one
   * token (none at the end); any other terminal throws.
   */
  lemma TerminalStep(g: ParserGrammar, tokens: seq<Token>, c: Config)
    requires Good(tokens, c) && c.stack[|c.stack| - 1] != EndOfStack && IsTerminal(c.stack[|c.stack| - 1])
    ensures var top := c.stack[|c.stack| - 1];
      var r := Step(g, tokens, c);
      && (r.Ok? <==> ExtractTerminal(top).Ok? && GetValue(c.token).Ok? && ExtractTerminal(top).value == GetValue(c.token).value)
      && (r.Ok? ==> r.value.stack == c.stack[..|c.stack| - 1] && r.value.success == c.success
                    && r.value.index == (if c.index < |tokens| then c.index + 1 else c.index)
                    && r.value.token == (if c.index < |tokens| then Some(tokens[c.index]) else None))
  {
  }

  /** A semantic action on top is popped and nothing else happens. */
  lemma ActionStep(g: ParserGrammar, tokens: seq<Token>, c: Config)
    requires Good(tokens, c) && c.stack[|c.stack| - 1] != EndOfStack
    requires !IsTerminal(c.stack[|c.stack| - 1]) && IsSemanticAction(c.stack[|c.stack| - 1])
    ensures Step(g, tokens, c) == Ok(c.(stack := c.stack[..|c.stack| - 1]))
  {
  }

  /**
   * On a table hit the non-terminal is replaced by its production pushed right to left: the first
   * word ends on top and EPSILON is never pushed.
   */
  lemma ExpandStep(g: ParserGrammar, tokens: seq<Token>, c: Config)
    requires Good(tokens, c) && c.stack[|c.stack| - 1] != EndOfStack
    requires !IsTerminal(c.stack[|c.stack| - 1]) && !IsSemanticAction(c.stack[|c.stack| - 1])
    requires GetValue(c.token).Ok? && GetCell(g.table, c.stack[|c.stack| - 1], GetValue(c.token).value).Some?
    ensures var p := g.table[c.stack[|c.stack| - 1]][GetValue(c.token).value];
      var r := Step(g, tokens, c);
      && r == Ok(c.(stack := c.stack[..|c.stack| - 1] + Pushed(p)))
      && Epsilon !in Pushed(p)
      && (p != [] && p[0] != Epsilon ==> r.value.stack[|r.value.stack| - 1] == p[0])
  {
    PushedFacts(g.table[c.stack[|c.stack| - 1]][GetValue(c.token).value]);
  }

  /**
   * On a table miss the verdict becomes false; the non-terminal is popped when the lookahead is in
   * its FOLLOW set, and otherwise the input moves on.
   */
  lemma MissStep(g: ParserGrammar, tokens: seq<Token>, c: Config)
    requires Good(tokens, c) && c.stack[|c.stack| - 1] != EndOfStack && IsMiss(g, c)
    ensures var top := c.stack[|c.stack| - 1];
      var value := GetValue(c.token).value;
      var next := GetNextToken(tokens, c.index);
      Step(g, tokens, c)
      == if IsNonTerminal(top) && top in g.follow && value in g.follow[top] then Ok(Config(c.stack[..|c.stack| - 1], c.index, c.token, false))
         else Ok(Config(c.stack, next.1, next.0, false))
  {
  }

  /** Only a miss changes the verdict, and only to false. */
  lemma SuccessStep(g: ParserGrammar, tokens: seq<Token>, c: Config)
    requires Good(tokens, c) && c.stack[|c.stack| - 1] != EndOfStack && Step(g, tokens, c).Ok?
    ensures Step(g, tokens, c).value.success == (c.success && !IsMiss(g, c))
  {
  }

  /** The terminal names GetValue gives, and the tokens it throws on. */
  lemma GetValueFacts(t: Token)
    ensures GetValue(Some(t)).Ok? <==>
      t.tokenType == Semicolon || t.tokenType == Value || (t.tokenType == Operator && t.value in {"+", "-", "*", "(", ")"})
    ensures t.tokenType == Semicolon ==> GetValue(Some(t)) == Ok("T_SEMICOLON")
    ensures t.tokenType == Value ==> GetValue(Some(t)) == Ok("T_INTEGER")
    ensures t.tokenType == Operator ==>
      GetValue(Some(t)) == if t.value == "+" then Ok("T_PLUS") else if t.value == "-" then Ok("T_MINUS")
                           else if t.value == "*" then Ok("T_MULTIPLY") else if t.value == "(" then Ok("T_OPEN_PAR")
                           else if t.value == ")" then Ok("T_CLOSE_PAR") else Err(OutOfRangeMessage)
  {
  }

  // ---------------------------------------------------------------------------
  // Properties of the whole loop

  /** No turn of the loop from `c` to its end is a miss. */
  predicate NoMiss(g: ParserGrammar, tokens: seq<Token>, c: Config, fuel: nat)
    requires GrammarOk(g) && Good(tokens, c)
    decreases fuel
  {
    if c.stack[|c.stack| - 1] == EndOfStack then true
    else if fuel == 0 then true
    else
      StepGood(g, tokens, c);
      var r := Step(g, tokens, c);
      !IsMiss(g, c) && (r.Ok? ==> NoMiss(g, tokens, r.value, fuel - 1))
  }

  /** Parse returns true exactly when it started with a true verdict and no turn was a miss. */
  lemma {:induction false} RunVerdict(g: ParserGrammar, tokens: seq<Token>, c: Config, fuel: nat)
    requires GrammarOk(g) && Good(tokens, c) && Run(g, tokens, c, fuel).Parsed?
    ensures Run(g, tokens, c, fuel).success <==> c.success && NoMiss(g, tokens, c, fuel)
    decreases fuel
  {
    if c.stack[|c.stack| - 1] != EndOfStack {
      StepGood(g, tokens, c);
      SuccessStep(g, tokens, c);
      var d := Step(g, tokens, c).value;
      RunVerdict(g, tokens, d, fuel - 1);
      if !d.success {
        FalseStays(g, tokens, d, fuel - 1);
      }
    }
  }

  /** A false verdict is never taken back. */
  lemma {:induction false} FalseStays(g: ParserGrammar, tokens: seq<Token>, c: Config, fuel: nat)
    requires GrammarOk(g) && Good(tokens, c) && !c.success
    ensures Run(g, tokens, c, fuel).Parsed? ==> !Run(g, tokens, c, fuel).success
    decreases fuel
  {
    if c.stack[|c.stack| - 1] != EndOfStack && fuel > 0 {
      StepGood(g, tokens, c);
      if Step(g, tokens, c).Ok? {
        SuccessStep(g, tokens, c);
        FalseStays(g, tokens, Step(g, tokens, c).value, fuel - 1);
      }
    }
  }

  /** The grammar whose start symbol has no table row and no FOLLOW set. */
  const Stuck: ParserGrammar := ParserGrammar("S", map[], map[])

  /**
   * At the end of the input a miss whose lookahead `$` is not in the FOLLOW set reads no token and
   * changes nothing, so the loop goes on as long as there is fuel.
   */
  lemma {:induction false} EndOfInputSpins(fuel: nat)
    ensures Run(Stuck, [], Config([EndOfStack, "S"], 0, None, false), fuel) == OutOfFuel
    ensures Run(Stuck, [], Initial(Stuck, []), fuel) == OutOfFuel
    decreases fuel
  {
    var c := Config([EndOfStack, "S"], 0, None, false);
    assert Step(Stuck, [], c) == Ok(c);
    if fuel > 0 {
      EndOfInputSpins(fuel - 1);
      assert Step(Stuck, [], Initial(Stuck, [])) == Ok(c);
    }
  }

  // ---------------------------------------------------------------------------
  // The parser

  /** Parse (SyntaxAnalyzer/SyntaxAnalyzer.cs:9-118), with the grammar given and at most `fuel` turns of its loop. */
  method Parse(g: ParserGrammar, tokens: seq<Token>, fuel: nat) returns (r: ParseResult)
    requires GrammarOk(g)
    ensures r == Run(g, tokens, Initial(g, tokens), fuel)
  {
    var first := GetNextToken(tokens, 0);
    var token, index := first.0, first.1;
    var c := Config([EndOfStack, g.start], index, token, true);
    assert c == Initial(g, tokens);
    r := Drive(g, tokens, c, fuel);
  }

  /** The loop of Parse (SyntaxAnalyzer/SyntaxAnalyzer.cs:27-112) from `c` on, with at most `fuel` turns. */
  method Drive(g: ParserGrammar, tokens: seq<Token>, c: Config, fuel: nat) returns (r: ParseResult)
    requires GrammarOk(g) && Good(tokens, c)
    ensures r == Run(g, tokens, c, fuel)
  {
    var now, steps := c, fuel;
    while now.stack[|now.stack| - 1] != EndOfStack
      invariant Good(tokens, now)
      invariant Run(g, tokens, c, fuel) == Run(g, tokens, now, steps)
      decreases steps
    {
      if steps == 0 {
        RunStops(g, tokens, now, steps);
        return OutOfFuel;
      }
      RunTurn(g, tokens, now, steps);
      var next := Turn(g, tokens, now);
      if next.Err? {
        return Threw(next.msg);
      }
      now, steps := next.value, steps - 1;
    }
    RunStops(g, tokens, now, steps);
    return Parsed(now.success);
  }

  /** The body of the loop of Parse (SyntaxAnalyzer/SyntaxAnalyzer.cs:30-101), an exception as Err. */
  method Turn(g: ParserGrammar, tokens: seq<Token>, c: Config) returns (r: Result<Config>)
    requires Good(tokens, c) && c.stack[|c.stack| - 1] != EndOfStack
    ensures r == Step(g, tokens, c)
  {
    var stack, index, token, success := c.stack, c.index, c.token, c.success;
    var top := stack[|stack| - 1];
    if IsTerminal(top) {
      var terminal := ExtractTerminal(top);
      if terminal.Err? {
        return Err(terminal.msg);
      }
      var value := GetValue(token);
      if value.Err? {
        return Err(value.msg);
      }
      if terminal.value != value.value {
        return Err(MismatchMessage);
      }
      stack := stack[..|stack| - 1];
      token, index := GetNextToken(tokens, index).0, GetNextToken(tokens, index).1;
    } else if IsSemanticAction(top) {
      stack := stack[..|stack| - 1];
    } else {
      var value := GetValue(token);
      if value.Err? {
        return Err(value.msg);
      }
      var production := GetCell(g.table, top, value.value);
      if production.Some? {
        stack := stack[..|stack| - 1];
        stack := PushProduction(stack, production.value);
      } else {
        success := false;
        if (IsNonTerminal(top) && top in g.follow && value.value in g.follow[top]) || stack[|stack| - 1] == EndOfStack {
          stack := stack[..|stack| - 1];
        } else {
          token, index := GetNextToken(tokens, index).0, GetNextToken(tokens, index).1;
        }
      }
    }
    return Ok(Config(stack, index, token, success));
  }

  /** The `for` loop of Parse (SyntaxAnalyzer/SyntaxAnalyzer.cs:67-74): the production pushed right to left, EPSILON skipped. */
  method PushProduction(stack: seq<string>, production: Production) returns (pushed: seq<string>)
    ensures pushed == stack + Pushed(production)
  {
    pushed := stack;
    for i := 0 to |production|
      invariant pushed == stack + Pushed(production[|production| - i..])
    {
      var k := |production| - 1 - i;
      assert production[k..][1..] == production[k + 1..];
      if !IsEpsilon(production[k]) {
        pushed := pushed + [production[k]];
      }
    }
    assert production[0..] == production;
  }
}
