/**
 * The C# code generator (CodeGenerator/CodeGenerator.cs). A class declaration becomes a class
 * header, one line per function and a closing brace; every other node is written as the full name
 * of its .NET type, which is what `GetType().ToString()` gives for the tree node classes of the
 * DataStructures.TreeNodes namespace.
 */
module CodeGeneration {
  import opened Tokens

  /** The tree node classes other than ClassDeclaration (DataStructures/TreeNodes). */
  datatype NodeKind =
    | Arguments | Assignment | Comparison | DataNode | Expression | ValueExpression
    | UnaryExpression | BinaryExpression | For | FunctionDeclaration | Parameters | Variable | While

  /** A tree node as the generator sees it: a class declaration with its parts, or the kind of any other node. */
  datatype Node =
    | ClassDeclaration(name: Token, accessModifier: Token, functions: seq<Node>)
    | Other(kind: NodeKind)

  const Namespace: string := "DataStructures.TreeNodes."

  /** The class name of a node kind. */
  function KindName(kind: NodeKind): string
  {
    match kind
    case Arguments => "Arguments"
    case Assignment => "Assignment"
    case Comparison => "Comparison"
    case DataNode => "DataNode"
    case Expression => "Expression"
    case ValueExpression => "ValueExpression"
    case UnaryExpression => "UnaryExpression"
    case BinaryExpression => "BinaryExpression"
    case For => "For"
    case FunctionDeclaration => "FunctionDeclaration"
    case Parameters => "Parameters"
    case Variable => "Variable"
    case While => "While"
  }

  /** `GetType().ToString()` of a non-class node. */
  function TypeName(kind: NodeKind): string
  {
    Namespace + KindName(kind)
  }

  /** The two header lines of a class declaration (CodeGenerator/CodeGenerator.cs:20-21). */
  function Header(accessModifier: Token, name: Token): string
  {
    accessModifier.value + " class " + name.value + "\n" + "{\n"
  }

  const Footer: string := "}\n"

  /** What Generate returns for a node. */
  function Rendered(node: Node): string
    decreases node, 1
  {
    match node
    case ClassDeclaration(name, accessModifier, functions) => Header(accessModifier, name) + Body(functions) + Footer
    case Other(kind) => TypeName(kind)
  }

  /** Each function's text followed by a newline, in order. */
  function Body(functions: seq<Node>): string
    decreases functions, 0
  {
    if functions == [] then ""
    else Body(functions[..|functions| - 1]) + (Rendered(functions[|functions| - 1]) + "\n")
  }

  // ---------------------------------------------------------------------------
  // Properties

  lemma Assoc(x: string, y: string, z: string)
    ensures (x + y) + z == x + (y + z)
  {
  }

  /** The body of a concatenation is the concatenation of the bodies. */
  lemma {:induction false} BodyAppend(a: seq<Node>, b: seq<Node>)
    ensures Body(a + b) == Body(a) + Body(b)
    decreases |b|
  {
    if b == [] {
      assert a + b == a;
    } else {
      var b' := b[..|b| - 1];
      var last := b[|b| - 1];
      BodyAppend(a, b');
      assert Body(a + b) == Body(a + b') + (Rendered(last) + "\n") by {
        assert (a + b)[..|a + b| - 1] == a + b';
        assert (a + b)[|a + b| - 1] == last;
      }
      assert Body(b) == Body(b') + (Rendered(last) + "\n");
      Assoc(Body(a), Body(b'), Rendered(last) + "\n");
    }
  }

  /** The body is each function's text with its newline, first function first. */
  lemma {:induction false} BodyFront(functions: seq<Node>)
    requires functions != []
    ensures Body(functions) == Rendered(functions[0]) + "\n" + Body(functions[1..])
  {
    assert functions == [functions[0]] + functions[1..];
    BodyAppend([functions[0]], functions[1..]);
    assert [functions[0]][..0] == [];
  }

  /**
   * A class declaration's text starts with its header and ends with the closing brace, with the
   * bodies of its functions in between; with no functions it is exactly the header and the brace.
   */
  lemma ClassShape(name: Token, accessModifier: Token, functions: seq<Node>)
    ensures var r := Rendered(ClassDeclaration(name, accessModifier, functions));
      var h := Header(accessModifier, name);
      && |r| == |h| + |Body(functions)| + |Footer|
      && r[..|h|] == h
      && r[|h|..|r| - |Footer|] == Body(functions)
      && r[|r| - |Footer|..] == Footer
    ensures functions == [] ==> Rendered(ClassDeclaration(name, accessModifier, functions)) == Header(accessModifier, name) + Footer
  {
    var r := Rendered(ClassDeclaration(name, accessModifier, functions));
    var h := Header(accessModifier, name);
    assert r == h + Body(functions) + Footer;
  }

  /** The first header line names the access modifier and the class. */
  lemma HeaderShape(accessModifier: Token, name: Token)
    ensures var h := Header(accessModifier, name);
      && h[..|accessModifier.value|] == accessModifier.value
      && h[|accessModifier.value|..|accessModifier.value| + 7] == " class "
      && h[|h| - 3..] == "\n{\n"
  {
  }

  /** `n` copies of `line`. */
  function Repeat(line: string, n: nat): string
  {
    if n == 0 then "" else Repeat(line, n - 1) + line
  }

  /** A function declaration is written as its type name, so a class's body is one type name line per function. */
  lemma {:induction false} FunctionLines(functions: seq<Node>)
    requires forall k :: 0 <= k < |functions| ==> functions[k] == Other(FunctionDeclaration)
    ensures Body(functions) == Repeat(TypeName(FunctionDeclaration) + "\n", |functions|)
    decreases |functions|
  {
    if functions != [] {
      FunctionLines(functions[..|functions| - 1]);
    }
  }

  /** Only a class declaration gets a header; any other node is written as its full type name. */
  lemma OnlyClassesStructured(node: Node)
    ensures node.Other? ==> Rendered(node) == Namespace + KindName(node.kind)
    ensures node.ClassDeclaration? ==> |Rendered(node)| >= |Footer| && Rendered(node)[|Rendered(node)| - |Footer|..] == Footer
    ensures node.Other? ==> Rendered(node)[|Rendered(node)| - 1] != '\n'
  {
    if node.ClassDeclaration? {
      ClassShape(node.name, node.accessModifier, node.functions);
    }
  }

  // ---------------------------------------------------------------------------
  // The generator

  /** Generate (CodeGenerator/CodeGenerator.cs:8-15). */
  method Generate(root: Node) returns (s: string)
    ensures s == Rendered(root)
    decreases root, 1
  {
    match root
    case ClassDeclaration(_, _, _) =>
      s := GenerateClassDeclaration(root);
    case Other(kind) =>
      s := TypeName(kind);
  }

  /** GenerateClassDeclaration (CodeGenerator/CodeGenerator.cs:17-28): the builder filled line by line. */
  method GenerateClassDeclaration(node: Node) returns (s: string)
    requires node.ClassDeclaration?
    ensures s == Rendered(node)
    decreases node, 0
  {
    var builder := node.accessModifier.value + " class " + node.name.value + "\n";
    builder := builder + "{\n";
    var functions := node.functions;
    for i := 0 to |functions|
      invariant builder == Header(node.accessModifier, node.name) + Body(functions[..i])
    {
      assert functions[..i + 1][..i] == functions[..i];
      assert Body(functions[..i + 1]) == Body(functions[..i]) + (Rendered(functions[i]) + "\n");
      var text := Generate(functions[i]);
      Assoc(Header(node.accessModifier, node.name), Body(functions[..i]), text + "\n");
      builder := builder + (text + "\n");
    }
    assert functions[..|functions|] == functions;
    assert Rendered(node) == Header(node.accessModifier, node.name) + Body(functions) + Footer;
    builder := builder + Footer;
    return builder;
  }
}
