/**
 * The tree builder the parser drives (SyntaxAnalyzer/SemanticMessenger.cs). Each semantic action
 * the parser pops is sent here by name, and the builder rewrites the top of a stack of tree nodes.
 * The stack is a sequence with its top last; Apply is the rewrite a message makes, and the
 * messages that take apart a run of nodes do so with a loop.
 */
module SemanticMessages {
  import opened Tokens

  /** The tree nodes the builder makes (DataStructures/TreeNodes), and its two markers. */
  datatype Node =
    | DataNode(value: string)
    | Variable(typeName: string, name: string)
    | Assignment(variable: Node, assignedValue: string)
    | Parameters(variables: seq<Node>)
    | FunctionDeclaration(data: Node, accessModifier: string, isStatic: bool, instructions: seq<Node>, parameters: Node)
    | ClassDeclaration(name: string, accessModifier: string, functions: seq<Node>)
    | While(comparison: Node, statement: Node)
    | Comparison(left: Node, operator: Node, right: Node)
    | Instruction(inner: Node)
    /** Pushed by `#static#`, read by `#function_declaration#`. */
    | Static
    /** Pushed by `#params_start#`, removed by `#params_end#`. */
    | ParametersStart

  /** The runs of nodes the three loops of Message pop. */
  datatype Run = Functions | Instructions | NonMarkers

  predicate InRun(run: Run, n: Node)
  {
    match run
    case Functions => n.FunctionDeclaration?
    case Instructions => n.Instruction?
    case NonMarkers => !n.ParametersStart?
  }

  /** The number of nodes on top of `stk` that belong to `run`: how often the loop pops. */
  function RunLength(stk: seq<Node>, run: Run): (n: nat)
    ensures n <= |stk|
  {
    if |stk| > 0 && InRun(run, stk[|stk| - 1]) then 1 + RunLength(stk[..|stk| - 1], run) else 0
  }

  /** The run is maximal: every node of it belongs to `run`, and the node under it does not. */
  lemma {:induction false} RunMaximal(stk: seq<Node>, run: Run)
    ensures var n := RunLength(stk, run);
      && (forall k :: |stk| - n <= k < |stk| ==> InRun(run, stk[k]))
      && (n < |stk| ==> !InRun(run, stk[|stk| - 1 - n]))
    decreases |stk|
  {
    if |stk| > 0 && InRun(run, stk[|stk| - 1]) {
      var init := stk[..|stk| - 1];
      RunMaximal(init, run);
      assert forall k :: 0 <= k < |init| ==> init[k] == stk[k];
    }
  }

  /** `s` back to front: the order in which popping `s` off a stack lists it. */
  function Reverse<T>(s: seq<T>): (r: seq<T>)
    ensures |r| == |s|
  {
    if s == [] then [] else Reverse(s[1..]) + [s[0]]
  }

  /** Reverse lists the last element first. */
  lemma {:induction false} ReverseAt<T>(s: seq<T>, k: int)
    requires 0 <= k < |s|
    ensures Reverse(s)[k] == s[|s| - 1 - k]
    decreases |s|
  {
    if k < |s| - 1 {
      ReverseAt(s[1..], k);
    }
  }

  /** The nodes the loop for `run` pops, in the order it pops them. */
  function Popped(stk: seq<Node>, run: Run): seq<Node>
  {
    Reverse(stk[|stk| - RunLength(stk, run)..])
  }

  /** Popping the node at `m - 1` of `s` puts it last in the popped list and leaves the prefix before it. */
  lemma PopStep(s: seq<Node>, m: nat)
    requires 0 < m <= |s|
    ensures Reverse(s[m - 1..]) == Reverse(s[m..]) + [s[m - 1]]
    ensures s[..m][m - 1] == s[m - 1] && s[..m][..m - 1] == s[..m - 1]
  {
    var t := s[m - 1..];
    assert t[1..] == s[m..];
  }

  /** The stack under the nodes the loop for `run` pops. */
  function Below(stk: seq<Node>, run: Run): seq<Node>
  {
    stk[..|stk| - RunLength(stk, run)]
  }

  // ---------------------------------------------------------------------------
  // The rewrites

  /** `#class_declaration#` can run: a name and an access modifier lie under the functions. */
  predicate ClassApplicable(stk: seq<Node>)
  {
    var rest := Below(stk, Functions);
    |rest| >= 2 && rest[|rest| - 1].DataNode? && rest[|rest| - 2].DataNode?
  }

  function ReduceClass(stk: seq<Node>): seq<Node>
    requires ClassApplicable(stk)
  {
    var rest := Below(stk, Functions);
    rest[..|rest| - 2]
      + [ClassDeclaration(rest[|rest| - 1].value, rest[|rest| - 2].value, Popped(stk, Functions))]
  }

  /** `#params_end#` can run: only Variables lie above the nearest ParametersStart. */
  predicate ParamsApplicable(stk: seq<Node>)
  {
    var n := RunLength(stk, NonMarkers);
    n < |stk| && forall k :: |stk| - n <= k < |stk| ==> stk[k].Variable?
  }

  function ReduceParams(stk: seq<Node>): seq<Node>
    requires ParamsApplicable(stk)
  {
    var rest := Below(stk, NonMarkers);
    rest[..|rest| - 1] + [Parameters(Popped(stk, NonMarkers))]
  }

  /**
   * `#function_declaration#` can run: under the instructions lie Parameters, a Variable, an
   * optional Static and an access modifier.
   */
  predicate FunctionApplicable(stk: seq<Node>)
  {
    var rest := Below(stk, Instructions);
    && |rest| >= 3 && rest[|rest| - 1].Parameters? && rest[|rest| - 2].Variable?
    && var under := rest[..|rest| - 2];
       var modifierAt := if under[|under| - 1].Static? then |under| - 2 else |under| - 1;
       modifierAt >= 0 && under[modifierAt].DataNode?
  }

  function ReduceFunction(stk: seq<Node>): seq<Node>
    requires FunctionApplicable(stk)
  {
    var rest := Below(stk, Instructions);
    var under := rest[..|rest| - 2];
    var isStatic := under[|under| - 1].Static?;
    var modifierAt := if isStatic then |under| - 2 else |under| - 1;
    under[..modifierAt]
      + [FunctionDeclaration(rest[|rest| - 2], under[modifierAt].value, isStatic, Popped(stk, Instructions), rest[|rest| - 1])]
  }

  /** The message names Message has a case for; any other name is Unhandled. */
  datatype Action =
    | Push | Assign | MarkStatic | ArrayType | ClassDeclare | ParamsStart | ParamsEnd
    | FunctionDeclare | Declare | MakeInstruction | Statement | MakeWhile | Condition | MakeComparison
    | Unhandled(name: string)

  function ActionOf(value: string): (a: Action)
    ensures a.Unhandled? ==> a.name == value
  {
    match value
    case "#push#" => Push
    case "#assign#" => Assign
    case "#static#" => MarkStatic
    case "#array_type#" => ArrayType
    case "#class_declaration#" => ClassDeclare
    case "#params_start#" => ParamsStart
    case "#params_end#" => ParamsEnd
    case "#function_declaration#" => FunctionDeclare
    case "#declaration#" => Declare
    case "#instruction#" => MakeInstruction
    case "#statement#" => Statement
    case "#while#" => MakeWhile
    case "#condition#" => Condition
    case "#comparison#" => MakeComparison
    case _ => Unhandled(value)
  }

  /** The casts and pops of a message succeed on `stk`. */
  predicate Applicable(stk: seq<Node>, action: Action, tokens: seq<Token>, index: int)
  {
    match action
    case Push => 0 <= index < |tokens|
    case Assign => |stk| >= 2 && stk[|stk| - 1].DataNode? && stk[|stk| - 2].Variable?
    case ArrayType => |stk| >= 1 && stk[|stk| - 1].DataNode?
    case ClassDeclare => ClassApplicable(stk)
    case ParamsEnd => ParamsApplicable(stk)
    case FunctionDeclare => FunctionApplicable(stk)
    case Declare => |stk| >= 2 && stk[|stk| - 1].DataNode? && stk[|stk| - 2].DataNode?
    case MakeInstruction => |stk| >= 1
    case MakeWhile => |stk| >= 2 && stk[|stk| - 2].Comparison?
    case MakeComparison => |stk| >= 3
    case _ => true
  }

  /** The stack after a message. */
  function Apply(stk: seq<Node>, action: Action, tokens: seq<Token>, index: int): seq<Node>
    requires Applicable(stk, action, tokens, index)
  {
    var top := |stk| - 1;
    match action
    case Push => stk + [DataNode(tokens[index].value)]
    case Assign => stk[..top - 1] + [Assignment(stk[top - 1], stk[top].value)]
    case MarkStatic => stk + [Static]
    case ArrayType => stk[..top] + [DataNode(stk[top].value + "[]")]
    case ClassDeclare => ReduceClass(stk)
    case ParamsStart => stk + [ParametersStart]
    case ParamsEnd => ReduceParams(stk)
    case FunctionDeclare => ReduceFunction(stk)
    case Declare => stk[..top - 1] + [Variable(stk[top - 1].value, stk[top].value)]
    case MakeInstruction => stk[..top] + [Instruction(stk[top])]
    case MakeWhile => stk[..top - 1] + [While(stk[top - 1], stk[top])]
    case MakeComparison => stk[..top - 2] + [Comparison(stk[top - 2], stk[top - 1], stk[top])]
    case _ => stk
  }

  // ---------------------------------------------------------------------------
  // Properties of the rewrites

  /** A marker or a token's text goes on top and nothing else changes. */
  lemma PushesOne(stk: seq<Node>, a: Action, tokens: seq<Token>, index: int)
    requires a in {Push, MarkStatic, ParamsStart} && Applicable(stk, a, tokens, index)
    ensures var r := Apply(stk, a, tokens, index);
      && |r| == |stk| + 1 && r[..|stk|] == stk
      && r[|stk|] == (if a == Push then DataNode(tokens[index].value) else if a == MarkStatic then Static else ParametersStart)
  {
    var r := Apply(stk, a, tokens, index);
    assert r[..|stk|] == stk;
  }

  /** `#array_type#` and `#instruction#` rewrite the top node only. */
  lemma RewritesTop(stk: seq<Node>, a: Action, tokens: seq<Token>, index: int)
    requires a in {ArrayType, MakeInstruction} && Applicable(stk, a, tokens, index)
    ensures var r := Apply(stk, a, tokens, index);
      && |r| == |stk| && r[..|stk| - 1] == stk[..|stk| - 1]
      && r[|stk| - 1] == (if a == ArrayType then DataNode(stk[|stk| - 1].value + "[]") else Instruction(stk[|stk| - 1]))
  {
    var r := Apply(stk, a, tokens, index);
    assert r[..|stk| - 1] == stk[..|stk| - 1];
  }

  /**
   * `#declaration#`, `#assign#` and `#while#` replace the top two nodes by one made of them, the
   * top one last, and `#comparison#` the top three; the rest of the stack is kept.
   */
  lemma CombinesTop(stk: seq<Node>, a: Action, tokens: seq<Token>, index: int)
    requires a in {Declare, Assign, MakeWhile, MakeComparison} && Applicable(stk, a, tokens, index)
    ensures var taken := if a == MakeComparison then 3 else 2;
      var r := Apply(stk, a, tokens, index);
      && |r| == |stk| - taken + 1 && r[..|r| - 1] == stk[..|stk| - taken]
      && r[|r| - 1] == if a == Declare then Variable(stk[|stk| - 2].value, stk[|stk| - 1].value)
                       else if a == Assign then Assignment(stk[|stk| - 2], stk[|stk| - 1].value)
                       else if a == MakeWhile then While(stk[|stk| - 2], stk[|stk| - 1])
                       else Comparison(stk[|stk| - 3], stk[|stk| - 2], stk[|stk| - 1])
  {
    var taken := if a == MakeComparison then 3 else 2;
    var r := Apply(stk, a, tokens, index);
    assert r[..|r| - 1] == stk[..|stk| - taken];
  }

  /** `#statement#`, `#condition#` and any name without a case leave the stack as it is. */
  lemma Ignored(stk: seq<Node>, value: string, tokens: seq<Token>, index: int)
    requires ActionOf(value) in {Statement, Condition} || ActionOf(value).Unhandled?
    ensures Applicable(stk, ActionOf(value), tokens, index) && Apply(stk, ActionOf(value), tokens, index) == stk
  {
  }

  /** Only a name outside the fourteen cases is Unhandled. */
  lemma UnhandledNames(value: string)
    ensures ActionOf(value).Unhandled? <==>
      value !in {"#push#", "#assign#", "#static#", "#array_type#", "#class_declaration#", "#params_start#", "#params_end#",
                 "#function_declaration#", "#declaration#", "#instruction#", "#statement#", "#while#", "#condition#", "#comparison#"}
  {
  }

  /** The run on top of `stk + tail` is `tail` when `tail` is in the run and the node under it is not. */
  lemma {:induction false} RunOf(stk: seq<Node>, tail: seq<Node>, run: Run)
    requires forall k :: 0 <= k < |tail| ==> InRun(run, tail[k])
    requires |stk| > 0 && !InRun(run, stk[|stk| - 1])
    ensures RunLength(stk + tail, run) == |tail|
    decreases |tail|
  {
    if tail != [] {
      var s := stk + tail;
      assert s[..|s| - 1] == stk + tail[..|tail| - 1];
      RunOf(stk, tail[..|tail| - 1], run);
    } else {
      assert stk + tail == stk;
    }
  }

  /** What the loop for `run` pops off `stk + tail`, and what it leaves, when the run is `tail`. */
  lemma RunSplit(stk: seq<Node>, tail: seq<Node>, run: Run)
    requires forall k :: 0 <= k < |tail| ==> InRun(run, tail[k])
    requires |stk| > 0 && !InRun(run, stk[|stk| - 1])
    ensures Below(stk + tail, run) == stk && Popped(stk + tail, run) == Reverse(tail)
  {
    RunOf(stk, tail, run);
    var s := stk + tail;
    assert s[|s| - |tail|..] == tail;
    assert s[..|s| - |tail|] == stk;
  }

  /**
   * `#params_end#` pops the Variables above the marker, in pop order, removes the marker and
   * leaves everything under it untouched.
   */
  lemma ParamsEndFacts(stk: seq<Node>, variables: seq<Node>, tokens: seq<Token>, index: int)
    requires forall k :: 0 <= k < |variables| ==> variables[k].Variable?
    ensures var s := stk + [ParametersStart] + variables;
      Applicable(s, ParamsEnd, tokens, index)
      && Apply(s, ParamsEnd, tokens, index) == stk + [Parameters(Reverse(variables))]
  {
    ParamsReduced(stk, variables);
  }

  /** The rewrite behind `#params_end#` on a marker with Variables above it. */
  lemma ParamsReduced(stk: seq<Node>, variables: seq<Node>)
    requires forall k :: 0 <= k < |variables| ==> variables[k].Variable?
    ensures var s := stk + [ParametersStart] + variables;
      ParamsApplicable(s) && ReduceParams(s) == stk + [Parameters(Reverse(variables))]
  {
    var base := stk + [ParametersStart];
    var s := base + variables;
    RunSplit(base, variables, NonMarkers);
    RunOf(base, variables, NonMarkers);
    assert ParamsApplicable(s) by {
      forall k | |s| - |variables| <= k < |s|
        ensures s[k].Variable?
      {
        assert s[k] == variables[k - |base|];
      }
    }
    assert base[..|base| - 1] == stk;
  }

  /**
   * `#class_declaration#` gathers the maximal run of functions on top, in pop order, then takes the
   * name and the access modifier under them.
   */
  lemma ClassDeclarationFacts(stk: seq<Node>, modifier: string, name: string, functions: seq<Node>, tokens: seq<Token>, index: int)
    requires forall k :: 0 <= k < |functions| ==> functions[k].FunctionDeclaration?
    ensures var s := stk + [DataNode(modifier), DataNode(name)] + functions;
      Applicable(s, ClassDeclare, tokens, index)
      && Apply(s, ClassDeclare, tokens, index) == stk + [ClassDeclaration(name, modifier, Reverse(functions))]
  {
    var rest := stk + [DataNode(modifier), DataNode(name)];
    RunSplit(rest, functions, Functions);
    assert rest[..|rest| - 2] == stk;
  }

  /** ReduceFunction on a stack whose instructions lie on `under + [data, parameters]`. */
  lemma ReduceFunctionOn(s: seq<Node>, stk: seq<Node>, under: seq<Node>, data: Node, parameters: Node, isStatic: bool, modifier: string)
    requires Below(s, Instructions) == under + [data, parameters]
    requires under == stk + [DataNode(modifier)] + (if isStatic then [Static] else [])
    requires data.Variable? && parameters.Parameters?
    ensures FunctionApplicable(s)
    ensures ReduceFunction(s) == stk + [FunctionDeclaration(data, modifier, isStatic, Popped(s, Instructions), parameters)]
  {
    var rest := under + [data, parameters];
    assert rest[..|rest| - 2] == under;
    if isStatic {
      assert under[..|under| - 2] == stk;
    } else {
      assert under[..|under| - 1] == stk;
    }
  }

  /**
   * `#function_declaration#` gathers the instructions on top, in pop order, then takes the
   * parameters, the data and the access modifier; the function is static exactly when a Static
   * marker lies directly under its data, and the marker is then removed.
   */
  lemma FunctionDeclarationFacts(stk: seq<Node>, modifier: string, isStatic: bool, data: Node, parameters: Node,
                                 instructions: seq<Node>, tokens: seq<Token>, index: int)
    requires data.Variable? && parameters.Parameters?
    requires forall k :: 0 <= k < |instructions| ==> instructions[k].Instruction?
    ensures var s := stk + [DataNode(modifier)] + (if isStatic then [Static] else []) + [data, parameters] + instructions;
      Applicable(s, FunctionDeclare, tokens, index)
      && Apply(s, FunctionDeclare, tokens, index)
         == stk + [FunctionDeclaration(data, modifier, isStatic, Reverse(instructions), parameters)]
  {
    var under := stk + [DataNode(modifier)] + (if isStatic then [Static] else []);
    var rest := under + [data, parameters];
    var s := rest + instructions;
    RunSplit(rest, instructions, Instructions);
    ReduceFunctionOn(s, stk, under, data, parameters, isStatic, modifier);
  }

  /** Two pushes and `#declaration#` make a Variable of the two tokens' texts, the type first. */
  lemma DeclarationSequence(stk: seq<Node>, tokens: seq<Token>, typeAt: int, nameAt: int)
    requires 0 <= typeAt < |tokens| && 0 <= nameAt < |tokens|
    ensures var s1 := Apply(stk, Push, tokens, typeAt);
      var s2 := Apply(s1, Push, tokens, nameAt);
      Applicable(s2, Declare, tokens, nameAt)
      && Apply(s2, Declare, tokens, nameAt) == stk + [Variable(tokens[typeAt].value, tokens[nameAt].value)]
  {
    var s2 := stk + [DataNode(tokens[typeAt].value)] + [DataNode(tokens[nameAt].value)];
    assert s2[..|s2| - 2] == stk;
  }

  // ---------------------------------------------------------------------------
  // The messenger

  /** SemanticMessenger: `_stack` with its top last. */
  class SemanticMessenger {
    var stack: seq<Node>

    constructor ()
      ensures stack == []
    {
      stack := [];
    }

    /** Message (SyntaxAnalyzer/SemanticMessenger.cs:18-126). */
    method Message(value: string, tokens: seq<Token>, index: int)
      requires Applicable(stack, ActionOf(value), tokens, index)
      modifies this
      ensures stack == Apply(old(stack), ActionOf(value), tokens, index)
    {
      var top := |stack| - 1;
      match ActionOf(value)
      case Push => stack := stack + [DataNode(tokens[index].value)];
      case Assign => stack := stack[..top - 1] + [Assignment(stack[top - 1], stack[top].value)];
      case MarkStatic => stack := stack + [Static];
      case ArrayType => stack := stack[..top] + [DataNode(stack[top].value + "[]")];
      case ClassDeclare => ClassDeclarationMessage();
      case ParamsStart => stack := stack + [ParametersStart];
      case ParamsEnd => ParamsEndMessage();
      case FunctionDeclare => FunctionDeclarationMessage();
      case Declare => stack := stack[..top - 1] + [Variable(stack[top - 1].value, stack[top].value)];
      case MakeInstruction => stack := stack[..top] + [Instruction(stack[top])];
      case MakeWhile => stack := stack[..top - 1] + [While(stack[top - 1], stack[top])];
      case MakeComparison => stack := stack[..top - 2] + [Comparison(stack[top - 2], stack[top - 1], stack[top])];
      case _ =>
    }

    /** The `while (TryPeek ...) ... Add(Pop())` loops: pops the run on top, listing it in pop order. */
    method PopRun(run: Run) returns (popped: seq<Node>)
      modifies this
      ensures popped == Popped(old(stack), run) && stack == Below(old(stack), run)
    {
      ghost var s0 := stack;
      var rest := stack;
      popped := [];
      while |rest| > 0 && InRun(run, rest[|rest| - 1])
        invariant |rest| <= |s0| && rest == s0[..|rest|]
        invariant RunLength(s0, run) == (|s0| - |rest|) + RunLength(rest, run)
        invariant popped == Reverse(s0[|rest|..])
        decreases |rest|
      {
        var k := |rest| - 1;
        assert RunLength(rest, run) == 1 + RunLength(rest[..k], run);
        PopStep(s0, |rest|);
        popped := popped + [rest[k]];
        rest := rest[..k];
      }
      assert RunLength(rest, run) == 0;
      stack := rest;
    }

    /** The `#class_declaration#` case (SyntaxAnalyzer/SemanticMessenger.cs:45-56). */
    method ClassDeclarationMessage()
      requires ClassApplicable(stack)
      modifies this
      ensures stack == ReduceClass(old(stack))
    {
      var classMethods := PopRun(Functions);
      var top := |stack| - 1;
      stack := stack[..top - 1] + [ClassDeclaration(stack[top].value, stack[top - 1].value, classMethods)];
    }

    /** The `#params_end#` case (SyntaxAnalyzer/SemanticMessenger.cs:60-69). */
    method ParamsEndMessage()
      requires ParamsApplicable(stack)
      modifies this
      ensures stack == ReduceParams(old(stack))
    {
      var parameters := PopRun(NonMarkers);
      stack := stack[..|stack| - 1] + [Parameters(parameters)];
    }

    /** The `#function_declaration#` case (SyntaxAnalyzer/SemanticMessenger.cs:70-89). */
    method FunctionDeclarationMessage()
      requires FunctionApplicable(stack)
      modifies this
      ensures stack == ReduceFunction(old(stack))
    {
      var instructions := PopRun(Instructions);
      var functionParameters := stack[|stack| - 1];
      var functionData := stack[|stack| - 2];
      stack := stack[..|stack| - 2];
      var isStatic := stack[|stack| - 1].Static?;
      if isStatic {
        stack := stack[..|stack| - 1];
      }
      var modifier := stack[|stack| - 1].value;
      stack := stack[..|stack| - 1] + [FunctionDeclaration(functionData, modifier, isStatic, instructions, functionParameters)];
    }
  }
}
