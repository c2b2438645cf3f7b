/**
 * The scoped name analysis (SemanticAnalyzer/SemanticAnalyzer.cs). Analyze walks a tree, pushing a
 * Context frame for each For, While, function body and class body and popping it afterwards, and
 * AND-accumulates the results of the children without short-circuiting. The walk is specified by
 * AnalyzeSpec on the chain of frames as a value.
 */
module SemanticAnalysis {
  import opened Wrappers
  import opened Contexts

  /** The node shapes SemanticAnalyzer.cs takes apart; a name or type is the text of its token. */
  datatype Tree =
    | DataNode(value: string)
    | ClassDeclaration(name: string, functions: seq<Tree>)
    | FunctionDeclaration(data: Tree, parameters: seq<Tree>, instructions: seq<Tree>)
    | InitializedVariableDeclaration(typeName: string, name: string, initializer: Tree)
    | VariableDeclaration(typeName: string, name: string)
    | Instruction(inner: Tree)
    | While(comparison: Tree, instructions: seq<Tree>)
    | For(init: Tree, comparison: Tree, expression: Tree, instructions: seq<Tree>)
    | Comparison(left: Tree, operator: Tree, right: Tree)
    | Assignment(variableName: string, assignedValue: Tree)
    /** Any other node class, named by its type. */
    | Other(kind: string)

  /** The result of a walk that did not throw, and the chain of frames after it. */
  datatype Analysis = Analysis(ok: bool, frames: seq<Frame>)

  function UnknownNodeMessage(kind: string): string
  {
    "Unknown node type: " + kind
  }

  /** AnalyzeComparison's check: two DataNodes must both be typed, with the same type. */
  predicate CompareOk(fs: seq<Frame>, left: Tree, right: Tree)
  {
    left.DataNode? && right.DataNode? ==>
      Typed(fs, left.value) && Typed(fs, right.value) && TypeIn(fs, left.value) == TypeIn(fs, right.value)
  }

  /** A walk from `fs` ending in `gs` changed at most the innermost frame, only adding names to it. */
  predicate Keeps(fs: seq<Frame>, gs: seq<Frame>)
  {
    |fs| > 0 && |gs| == |fs| && gs[1..] == fs[1..] && fs[0].used <= gs[0].used && FramesOk(gs)
  }

  /**
   * AnalyzeVariableDeclaration and AnalyzeInitializedVariableDeclaration: a name not seen anywhere
   * gets its type in the innermost frame; SetWordType cannot throw then, as nothing unseen is typed.
   */
  function Declare(fs: seq<Frame>, name: string, typeName: string): (r: Analysis)
    requires |fs| > 0 && FramesOk(fs)
    ensures Keeps(fs, r.frames)
  {
    if Sees(fs, name) then Analysis(false, fs)
    else
      UnseenUntyped(fs, name);
      SetTypeOk(fs, name, typeName);
      Analysis(true, SetType(fs, name, typeName).value)
  }

  /** The walk of `node` from the chain `fs`; only the innermost frame can change. */
  function AnalyzeSpec(fs: seq<Frame>, node: Tree): (r: Result<Analysis>)
    requires |fs| > 0 && FramesOk(fs)
    ensures r.Ok? ==> Keeps(fs, r.value.frames)
    decreases node, 2
  {
    match node
    case DataNode(v) => Ok(Analysis(Sees(fs, v), fs))
    case ClassDeclaration(name, functions) =>
      if Sees(fs, name) then Ok(Analysis(false, fs))
      else
        UnseenUntyped(fs, name);
        SetTypeOk(fs, name, "");
        Scoped(Reserve(fs, name).value, true, functions)
    case FunctionDeclaration(data, _, _) =>
      var a := AnalyzeSpec(fs, data);
      if a.Err? then Err(a.msg) else
      FunctionScope(a.value.frames, a.value.ok, node)
    case InitializedVariableDeclaration(typeName, name, _) => Ok(Declare(fs, name, typeName))
    case VariableDeclaration(typeName, name) => Ok(Declare(fs, name, typeName))
    case Instruction(inner) => AnalyzeSpec(fs, inner)
    case While(_, _) =>
      PushOk(fs);
      Pop(fs, WhileBody([EmptyFrame] + fs, node))
    case For(_, _, _, _) =>
      PushOk(fs);
      Pop(fs, ForBody([EmptyFrame] + fs, node))
    case Comparison(left, _, right) => Ok(Analysis(CompareOk(fs, left, right), fs))
    case Assignment(name, _) => Ok(Analysis(Sees(fs, name), fs))
    case Other(kind) => Err(UnknownNodeMessage(kind))
  }

  /** A function's parameters and instructions, in a frame pushed for them and popped after. */
  function FunctionScope(fs: seq<Frame>, ok: bool, node: Tree): (r: Result<Analysis>)
    requires |fs| > 0 && FramesOk(fs) && node.FunctionDeclaration?
    ensures r.Ok? ==> r.value.frames == fs
    decreases node, 1
  {
    PushOk(fs);
    Pop(fs, FunctionBody([EmptyFrame] + fs, ok, node))
  }

  /** The parameters, then the instructions, of a function, in the frame made for them. */
  function FunctionBody(fs: seq<Frame>, ok: bool, node: Tree): (r: Result<Analysis>)
    requires |fs| > 0 && FramesOk(fs) && node.FunctionDeclaration?
    ensures r.Ok? ==> Keeps(fs, r.value.frames)
    decreases node, 0
  {
    var b := AnalyzeSeq(fs, ok, node.parameters, 0);
    if b.Err? then Err(b.msg) else AnalyzeSeq(b.value.frames, b.value.ok, node.instructions, 0)
  }

  /** The comparison, then the instructions, of a While, in the frame made for them. */
  function WhileBody(fs: seq<Frame>, node: Tree): (r: Result<Analysis>)
    requires |fs| > 0 && FramesOk(fs) && node.While?
    ensures r.Ok? ==> Keeps(fs, r.value.frames)
    decreases node, 0
  {
    var a := AnalyzeSpec(fs, node.comparison);
    if a.Err? then Err(a.msg) else AnalyzeSeq(a.value.frames, a.value.ok, node.instructions, 0)
  }

  /** The initializer, comparison, step and instructions of a For, in the frame made for them. */
  function ForBody(fs: seq<Frame>, node: Tree): (r: Result<Analysis>)
    requires |fs| > 0 && FramesOk(fs) && node.For?
    ensures r.Ok? ==> Keeps(fs, r.value.frames)
    decreases node, 0
  {
    var a := AnalyzeSpec(fs, node.init);
    if a.Err? then Err(a.msg) else
    var b := AnalyzeSpec(a.value.frames, node.comparison);
    if b.Err? then Err(b.msg) else
    var c := AnalyzeSpec(b.value.frames, node.expression);
    if c.Err? then Err(c.msg) else
    AnalyzeSeq(c.value.frames, a.value.ok && b.value.ok && c.value.ok, node.instructions, 0)
  }

  /** The children `nodes[i..]` in order, each result ANDed into `ok`. */
  function AnalyzeSeq(fs: seq<Frame>, ok: bool, nodes: seq<Tree>, i: nat): (r: Result<Analysis>)
    requires |fs| > 0 && FramesOk(fs)
    ensures r.Ok? ==> Keeps(fs, r.value.frames)
    decreases nodes, |nodes| - i
  {
    if i >= |nodes| then Ok(Analysis(ok, fs))
    else
      var a := AnalyzeSpec(fs, nodes[i]);
      if a.Err? then Err(a.msg) else AnalyzeSeq(a.value.frames, ok && a.value.ok, nodes, i + 1)
  }

  /** A nested walk in a frame pushed on `outer`, then the frame popped again. */
  function Pop(outer: seq<Frame>, inner: Result<Analysis>): (r: Result<Analysis>)
    requires inner.Ok? ==> |inner.value.frames| == |outer| + 1 && inner.value.frames[1..] == outer
    ensures r.Ok? ==> r.value.frames == outer
  {
    if inner.Err? then Err(inner.msg) else Ok(Analysis(inner.value.ok, inner.value.frames[1..]))
  }

  /** The children of a class body in a fresh frame. */
  function Scoped(fs: seq<Frame>, ok: bool, nodes: seq<Tree>): (r: Result<Analysis>)
    requires |fs| > 0 && FramesOk(fs)
    ensures r.Ok? ==> r.value.frames == fs
    decreases nodes, |nodes| + 1
  {
    PushOk(fs);
    Pop(fs, AnalyzeSeq([EmptyFrame] + fs, ok, nodes, 0))
  }

  /** No node of `node`'s tree is of a kind the analyzer does not know. */
  predicate Known(node: Tree)
  {
    match node
    case ClassDeclaration(_, functions) => forall k :: 0 <= k < |functions| ==> Known(functions[k])
    case FunctionDeclaration(data, parameters, instructions) =>
      Known(data) && (forall k :: 0 <= k < |parameters| ==> Known(parameters[k]))
      && (forall k :: 0 <= k < |instructions| ==> Known(instructions[k]))
    case Instruction(inner) => Known(inner)
    case While(comparison, instructions) =>
      Known(comparison) && forall k :: 0 <= k < |instructions| ==> Known(instructions[k])
    case For(init, comparison, expression, instructions) =>
      Known(init) && Known(comparison) && Known(expression)
      && forall k :: 0 <= k < |instructions| ==> Known(instructions[k])
    case Other(_) => false
    case _ => true
  }

  /** What a method returns for the walk it runs. */
  function OkOf(res: Result<Analysis>): Result<bool>
  {
    match res
    case Err(m) => Err(m)
    case Ok(a) => Ok(a.ok)
  }

  // ---------------------------------------------------------------------------
  // Properties of the walk

  /**
   * A For or While analyses its parts in its own frame and leaves the chain as it found it, so
   * nothing declared inside is visible after it.
   */
  lemma LoopScopes(fs: seq<Frame>, node: Tree)
    requires |fs| > 0 && FramesOk(fs) && (node.While? || node.For?)
    requires AnalyzeSpec(fs, node).Ok?
    ensures AnalyzeSpec(fs, node).value.frames == fs
  {
  }

  /**
   * A class is rejected when its name is already used; otherwise the name is reserved untyped in the
   * enclosing frame, the functions are analysed in a frame of their own, and nothing of that frame stays.
   */
  lemma ClassScope(fs: seq<Frame>, name: string, functions: seq<Tree>)
    requires |fs| > 0 && FramesOk(fs)
    ensures var r := AnalyzeSpec(fs, ClassDeclaration(name, functions));
      && (Sees(fs, name) ==> r == Ok(Analysis(false, fs)))
      && (!Sees(fs, name) && r.Ok? ==> r.value.frames == [Frame(fs[0].used + {name}, fs[0].types)] + fs[1..]
                                       && name !in r.value.frames[0].types)
    ensures var gs := [Frame(fs[0].used + {name}, fs[0].types)] + fs[1..];
      !Sees(fs, name) ==>
        && FramesOk([EmptyFrame] + gs)
        && AnalyzeSpec(fs, ClassDeclaration(name, functions)) == Pop(gs, AnalyzeSeq([EmptyFrame] + gs, true, functions, 0))
  {
    if !Sees(fs, name) {
      UnseenUntyped(fs, name);
      SetTypeOk(fs, name, "");
      PushOk(Reserve(fs, name).value);
    }
  }

  /**
   * A function declares its own name first, in the enclosing frame; its parameters and body are
   * analysed in a frame of their own, of which nothing stays.
   */
  lemma FunctionDeclarationScope(fs: seq<Frame>, data: Tree, parameters: seq<Tree>, instructions: seq<Tree>)
    requires |fs| > 0 && FramesOk(fs)
    requires AnalyzeSpec(fs, FunctionDeclaration(data, parameters, instructions)).Ok?
    ensures AnalyzeSpec(fs, data).Ok?
    ensures AnalyzeSpec(fs, FunctionDeclaration(data, parameters, instructions)).value.frames == AnalyzeSpec(fs, data).value.frames
  {
  }

  /**
   * A declaration never throws: it succeeds exactly when its name is seen nowhere on the chain (so an
   * outer name cannot be shadowed), and then the innermost frame gives the name its type; the
   * initializer is never looked at.
   */
  lemma DeclarationFacts(fs: seq<Frame>, name: string, typeName: string, initializer: Tree)
    requires |fs| > 0 && FramesOk(fs)
    ensures var r := AnalyzeSpec(fs, VariableDeclaration(typeName, name));
      && r == AnalyzeSpec(fs, InitializedVariableDeclaration(typeName, name, initializer))
      && r.Ok? && (r.value.ok <==> !Sees(fs, name))
      && (r.value.ok ==> r.value.frames == [Frame(fs[0].used + {name}, fs[0].types[name := typeName])] + fs[1..]
                         && Typed(r.value.frames, name) && TypeIn(r.value.frames, name) == typeName)
      && (!r.value.ok ==> r.value.frames == fs)
  {
    if !Sees(fs, name) {
      UnseenUntyped(fs, name);
      SetTypeFacts(fs, name, typeName, [], typeName);
    }
  }

  /** A tree with no node of an unknown kind is analysed without throwing. */
  lemma {:induction false} KnownNoThrow(fs: seq<Frame>, node: Tree)
    requires |fs| > 0 && FramesOk(fs) && Known(node)
    ensures AnalyzeSpec(fs, node).Ok?
    decreases node, 2
  {
    match node
    case ClassDeclaration(name, functions) =>
      if !Sees(fs, name) {
        UnseenUntyped(fs, name);
        SetTypeOk(fs, name, "");
        var gs := Reserve(fs, name).value;
        PushOk(gs);
        KnownSeqNoThrow([EmptyFrame] + gs, true, functions, 0);
      }
    case FunctionDeclaration(data, parameters, instructions) =>
      KnownNoThrow(fs, data);
      var a := AnalyzeSpec(fs, data).value;
      PushOk(a.frames);
      KnownSeqNoThrow([EmptyFrame] + a.frames, a.ok, parameters, 0);
      var b := AnalyzeSeq([EmptyFrame] + a.frames, a.ok, parameters, 0).value;
      KnownSeqNoThrow(b.frames, b.ok, instructions, 0);
      assert FunctionBody([EmptyFrame] + a.frames, a.ok, node).Ok?;
    case Instruction(inner) => KnownNoThrow(fs, inner);
    case While(comparison, instructions) =>
      PushOk(fs);
      KnownNoThrow([EmptyFrame] + fs, comparison);
      var a := AnalyzeSpec([EmptyFrame] + fs, comparison).value;
      KnownSeqNoThrow(a.frames, a.ok, instructions, 0);
    case For(init, comparison, expression, instructions) =>
      PushOk(fs);
      KnownNoThrow([EmptyFrame] + fs, init);
      var a := AnalyzeSpec([EmptyFrame] + fs, init).value;
      KnownNoThrow(a.frames, comparison);
      var b := AnalyzeSpec(a.frames, comparison).value;
      KnownNoThrow(b.frames, expression);
      var c := AnalyzeSpec(b.frames, expression).value;
      KnownSeqNoThrow(c.frames, a.ok && b.ok && c.ok, instructions, 0);
    case _ =>
  }

  /** The sequence form of KnownNoThrow. */
  lemma {:induction false} KnownSeqNoThrow(fs: seq<Frame>, ok: bool, nodes: seq<Tree>, i: nat)
    requires |fs| > 0 && FramesOk(fs) && forall k :: 0 <= k < |nodes| ==> Known(nodes[k])
    ensures AnalyzeSeq(fs, ok, nodes, i).Ok?
    decreases nodes, |nodes| - i
  {
    if i < |nodes| {
      KnownNoThrow(fs, nodes[i]);
      var a := AnalyzeSpec(fs, nodes[i]).value;
      KnownSeqNoThrow(a.frames, ok && a.ok, nodes, i + 1);
    }
  }

  /** A node of a kind the analyzer does not know throws. */
  lemma UnknownThrows(fs: seq<Frame>, kind: string)
    requires |fs| > 0 && FramesOk(fs)
    ensures AnalyzeSpec(fs, Other(kind)) == Err("Unknown node type: " + kind)
  {
  }

  /**
   * The children are visited with a non-short-circuit AND: a false result so far changes neither
   * which children run nor what they do, only the final result.
   */
  lemma {:induction false} SeqNoShortCircuit(fs: seq<Frame>, ok: bool, nodes: seq<Tree>, i: nat)
    requires |fs| > 0 && FramesOk(fs)
    ensures var all := AnalyzeSeq(fs, true, nodes, i);
      AnalyzeSeq(fs, ok, nodes, i) == if all.Err? then all else Ok(Analysis(ok && all.value.ok, all.value.frames))
    decreases |nodes| - i
  {
    if i < |nodes| {
      var a := AnalyzeSpec(fs, nodes[i]);
      if a.Ok? {
        SeqNoShortCircuit(a.value.frames, ok && a.value.ok, nodes, i + 1);
        SeqNoShortCircuit(a.value.frames, a.value.ok, nodes, i + 1);
      }
    }
  }

  /** The result of a sequence of children is true exactly when the result so far and every child's result are. */
  lemma SeqConjunction(fs: seq<Frame>, ok: bool, nodes: seq<Tree>, i: nat)
    requires |fs| > 0 && FramesOk(fs) && AnalyzeSeq(fs, ok, nodes, i).Ok? && i < |nodes|
    ensures AnalyzeSpec(fs, nodes[i]).Ok?
    ensures AnalyzeSeq(fs, ok, nodes, i).value.ok
            <==> ok && AnalyzeSpec(fs, nodes[i]).value.ok
                 && AnalyzeSeq(AnalyzeSpec(fs, nodes[i]).value.frames, true, nodes, i + 1).value.ok
  {
    var a := AnalyzeSpec(fs, nodes[i]).value;
    SeqNoShortCircuit(a.frames, ok && a.ok, nodes, i + 1);
  }

  // ---------------------------------------------------------------------------
  // The analyzer

  /** SemanticAnalyzer: `_context` is the innermost frame of the chain. */
  class SemanticAnalyzer {
    var context: Context

    /** `new SemanticAnalyzer()`: one empty frame. */
    constructor ()
      ensures context.Valid() && context.Abstract() == [EmptyFrame]
    {
      context := new Context();
    }

    /** Analyze (SemanticAnalyzer/SemanticAnalyzer.cs:13-29): dispatch on the kind of node. */
    method Analyze(root: Tree) returns (r: Result<bool>)
      requires context.Valid()
      modifies this, context, context.Repr
      ensures var res := AnalyzeSpec(old(context.Abstract()), root);
        && r == OkOf(res)
        && (res.Ok? ==> context == old(context) && context.Valid() && context.Abstract() == res.value.frames)
      decreases root, 4
    {
      match root
      case DataNode(_) => r := AnalyzeDataNode(root);
      case ClassDeclaration(_, _) => r := AnalyzeClassDeclaration(root);
      case FunctionDeclaration(_, _, _) => r := AnalyzeFunctionDeclaration(root);
      case InitializedVariableDeclaration(_, _, _) => r := AnalyzeVariableDeclaration(root);
      case VariableDeclaration(_, _) => r := AnalyzeVariableDeclaration(root);
      case Instruction(_) => r := AnalyzeInstruction(root);
      case While(_, _) => r := AnalyzeWhile(root);
      case For(_, _, _, _) => r := AnalyzeFor(root);
      case Comparison(_, _, _) => r := AnalyzeComparison(root);
      case Assignment(_, _) => r := AnalyzeAssignment(root);
      case Other(kind) => r := Err(UnknownNodeMessage(kind));
    }

    /** AnalyzeInstruction (SemanticAnalyzer/SemanticAnalyzer.cs:112-115). */
    method AnalyzeInstruction(node: Tree) returns (r: Result<bool>)
      requires node.Instruction? && context.Valid()
      modifies this, context, context.Repr
      ensures var res := AnalyzeSpec(old(context.Abstract()), node);
        && r == OkOf(res)
        && (res.Ok? ==> context == old(context) && context.Valid() && context.Abstract() == res.value.frames)
      decreases node, 2
    {
      r := Analyze(node.inner);
    }

    /** AnalyzeAssignment (SemanticAnalyzer/SemanticAnalyzer.cs:65-68): the assigned value is not looked at. */
    method AnalyzeAssignment(node: Tree) returns (r: Result<bool>)
      requires node.Assignment? && context.Valid()
      ensures r == OkOf(AnalyzeSpec(context.Abstract(), node))
    {
      return Ok(context.CheckWord(node.variableName));
    }

    /** AnalyzeDataNode (SemanticAnalyzer/SemanticAnalyzer.cs:42-50). */
    method AnalyzeDataNode(node: Tree) returns (r: Result<bool>)
      requires node.DataNode? && context.Valid()
      ensures r == OkOf(AnalyzeSpec(context.Abstract(), node))
    {
      return Ok(context.CheckWord(node.value));
    }

    /**
     * AnalyzeVariableDeclaration and AnalyzeInitializedVariableDeclaration
     * (SemanticAnalyzer/SemanticAnalyzer.cs:31-40, 152-161) do the same; the initializer is not looked at.
     */
    method AnalyzeVariableDeclaration(node: Tree) returns (r: Result<bool>)
      requires (node.VariableDeclaration? || node.InitializedVariableDeclaration?) && context.Valid()
      modifies context
      ensures var res := AnalyzeSpec(old(context.Abstract()), node);
        && r == OkOf(res) && context.Valid() && context.Abstract() == res.value.frames
    {
      if !context.CheckWord(node.name) {
        UnseenUntyped(context.Abstract(), node.name);
        var _ := context.SetWordType(node.name, node.typeName);
        return Ok(true);
      }
      return Ok(false);
    }

    /** AnalyzeComparison (SemanticAnalyzer/SemanticAnalyzer.cs:70-99). */
    method AnalyzeComparison(node: Tree) returns (r: Result<bool>)
      requires node.Comparison? && context.Valid()
      ensures r == OkOf(AnalyzeSpec(context.Abstract(), node))
    {
      var ok := true;
      if node.left.DataNode? && node.right.DataNode? {
        if !context.WordHasType(node.left.value) {
          ok := false;
        }
        if !context.WordHasType(node.right.value) {
          ok := false;
        }
        if !ok {
          return Ok(false);
        }
        var leftType := context.GetWordType(node.left.value);
        var rightType := context.GetWordType(node.right.value);
        if leftType != rightType {
          ok := false;
        }
      }
      return Ok(ok);
    }

    /** The `foreach ... ok &= Analyze(x)` loops of the scoped cases. */
    method AnalyzeAll(ghost parent: Tree, nodes: seq<Tree>, ok0: bool) returns (r: Result<bool>)
      requires forall k :: 0 <= k < |nodes| ==> nodes[k] < parent
      requires context.Valid()
      modifies this, context, context.Repr
      ensures var res := AnalyzeSeq(old(context.Abstract()), ok0, nodes, 0);
        && r == OkOf(res)
        && (res.Ok? ==> context == old(context) && context.Valid() && context.Abstract() == res.value.frames)
      decreases parent, 0
    {
      ghost var c := context;
      ghost var fs0 := context.Abstract();
      var ok := ok0;
      var i := 0;
      while i < |nodes|
        invariant i <= |nodes|
        invariant context == c && c.Valid()
        invariant AnalyzeSeq(fs0, ok0, nodes, 0) == AnalyzeSeq(c.Abstract(), ok, nodes, i)
      {
        var b := Analyze(nodes[i]);
        if b.Err? {
          return b;
        }
        ok := ok && b.value;
        i := i + 1;
      }
      return Ok(ok);
    }

    /** The frame made for a nested scope is dropped and its enclosing one is current again. */
    method PopContext() returns (ghost inner: seq<Frame>)
      requires context.Valid() && context.outer != null
      modifies this`context
      ensures context == old(context.outer) && context.Valid()
      ensures inner == old(context.Abstract()) && context.Abstract() == inner[1..]
    {
      inner := context.Abstract();
      context.OuterFacts();
      context := context.outer;
    }

    /** AnalyzeWhile (SemanticAnalyzer/SemanticAnalyzer.cs:101-110). */
    method AnalyzeWhile(node: Tree) returns (r: Result<bool>)
      requires node.While? && context.Valid()
      modifies this, context, context.Repr
      ensures var res := AnalyzeSpec(old(context.Abstract()), node);
        && r == OkOf(res)
        && (res.Ok? ==> context == old(context) && context.Valid() && context.Abstract() == res.value.frames)
      decreases node, 2
    {
      context := new Context.Nested(context);
      r := AnalyzeWhileBody(node);
      if r.Ok? {
        ghost var _ := PopContext();
      }
    }

    /** The statements of AnalyzeWhile between the push and the pop. */
    method AnalyzeWhileBody(node: Tree) returns (r: Result<bool>)
      requires node.While? && context.Valid()
      modifies this, context, context.Repr
      ensures var res := WhileBody(old(context.Abstract()), node);
        && r == OkOf(res)
        && (res.Ok? ==> context == old(context) && context.Valid() && context.Abstract() == res.value.frames)
      decreases node, 1
    {
      var ok := true;
      var b := Analyze(node.comparison);
      if b.Err? {
        return b;
      }
      ok := ok && b.value;
      r := AnalyzeAll(node, node.instructions, ok);
    }

    /** AnalyzeFor (SemanticAnalyzer/SemanticAnalyzer.cs:52-63). */
    method AnalyzeFor(node: Tree) returns (r: Result<bool>)
      requires node.For? && context.Valid()
      modifies this, context, context.Repr
      ensures var res := AnalyzeSpec(old(context.Abstract()), node);
        && r == OkOf(res)
        && (res.Ok? ==> context == old(context) && context.Valid() && context.Abstract() == res.value.frames)
      decreases node, 2
    {
      context := new Context.Nested(context);
      r := AnalyzeForBody(node);
      if r.Ok? {
        ghost var _ := PopContext();
      }
    }

    /** The statements of AnalyzeFor between the push and the pop. */
    method AnalyzeForBody(node: Tree) returns (r: Result<bool>)
      requires node.For? && context.Valid()
      modifies this, context, context.Repr
      ensures var res := ForBody(old(context.Abstract()), node);
        && r == OkOf(res)
        && (res.Ok? ==> context == old(context) && context.Valid() && context.Abstract() == res.value.frames)
      decreases node, 1
    {
      var ok := true;
      var b := Analyze(node.init);
      if b.Err? {
        return b;
      }
      ok := ok && b.value;
      b := Analyze(node.comparison);
      if b.Err? {
        return b;
      }
      ok := ok && b.value;
      b := Analyze(node.expression);
      if b.Err? {
        return b;
      }
      ok := ok && b.value;
      r := AnalyzeAll(node, node.instructions, ok);
    }

    /** AnalyzeFunctionDeclaration (SemanticAnalyzer/SemanticAnalyzer.cs:117-130). */
    method AnalyzeFunctionDeclaration(node: Tree) returns (r: Result<bool>)
      requires node.FunctionDeclaration? && context.Valid()
      modifies this, context, context.Repr
      ensures var res := AnalyzeSpec(old(context.Abstract()), node);
        && r == OkOf(res)
        && (res.Ok? ==> context == old(context) && context.Valid() && context.Abstract() == res.value.frames)
      decreases node, 3
    {
      var ok := true;
      var b := Analyze(node.data);
      if b.Err? {
        return b;
      }
      ok := ok && b.value;
      r := AnalyzeFunctionScope(node, ok);
    }

    /** The statements of AnalyzeFunctionDeclaration from the push to the pop. */
    method AnalyzeFunctionScope(node: Tree, ok: bool) returns (r: Result<bool>)
      requires node.FunctionDeclaration? && context.Valid()
      modifies this, context, context.Repr
      ensures var res := FunctionScope(old(context.Abstract()), ok, node);
        && r == OkOf(res)
        && (res.Ok? ==> context == old(context) && context.Valid() && context.Abstract() == res.value.frames)
      decreases node, 2
    {
      context := new Context.Nested(context);
      r := AnalyzeFunctionBody(node, ok);
      if r.Ok? {
        ghost var _ := PopContext();
      }
    }

    /** The parameter and instruction loops of AnalyzeFunctionDeclaration. */
    method AnalyzeFunctionBody(node: Tree, ok: bool) returns (r: Result<bool>)
      requires node.FunctionDeclaration? && context.Valid()
      modifies this, context, context.Repr
      ensures var res := FunctionBody(old(context.Abstract()), ok, node);
        && r == OkOf(res)
        && (res.Ok? ==> context == old(context) && context.Valid() && context.Abstract() == res.value.frames)
      decreases node, 1
    {
      var b := AnalyzeAll(node, node.parameters, ok);
      if b.Err? {
        return b;
      }
      r := AnalyzeAll(node, node.instructions, b.value);
    }

    /** AnalyzeClassDeclaration (SemanticAnalyzer/SemanticAnalyzer.cs:132-150). */
    method AnalyzeClassDeclaration(node: Tree) returns (r: Result<bool>)
      requires node.ClassDeclaration? && context.Valid()
      modifies this, context, context.Repr
      ensures var res := AnalyzeSpec(old(context.Abstract()), node);
        && r == OkOf(res)
        && (res.Ok? ==> context == old(context) && context.Valid() && context.Abstract() == res.value.frames)
      decreases node, 2
    {
      if context.CheckWord(node.name) {
        return Ok(false);
      }
      UnseenUntyped(context.Abstract(), node.name);
      var _ := context.ReserveWord(node.name);
      context := new Context.Nested(context);
      var b := AnalyzeAll(node, node.functions, true);
      if b.Err? {
        return b;
      }
      ghost var _ := PopContext();
      return b;
    }
  }
}
