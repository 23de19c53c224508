/**
 * The transformer (compiler.js, `traverser` and `transformer`): turns the
 * source tree into the target tree. A call `{name, params}` becomes a call
 * with an `Identifier` callee and `arguments`; a call directly under the
 * program is wrapped in an `ExpressionStatement`; leaves are copied.
 *
 * The original does this by attaching to each source node a `_context`
 * array, the place where its children push what they build. Here that
 * array is an accumulator: `Traverse` receives the parent's context and
 * returns it with the visited node's contribution pushed onto it.
 * `Convert`, `TopLevel` and `TransformProgram` are the direct structural
 * map the traversal is proved equal to.
 */
module Transformer {
  import Src = Parser

  datatype Identifier = Identifier(name: string)

  /** The target tree's node kinds below the root. */
  datatype Node =
    | NumberLiteral(value: string)
    | StringLiteral(value: string)
    | CallExpression(callee: Identifier, arguments: seq<Node>)
    | ExpressionStatement(expression: Node)

  datatype Program = Program(body: seq<Node>)

  /** A source node in the target dialect, with no statement wrapper. */
  function Convert(n: Src.Node): Node {
    match n
    case NumberLiteral(v) => NumberLiteral(v)
    case StringLiteral(v) => StringLiteral(v)
    case CallExpression(name, ps) =>
      CallExpression(Identifier(name), seq(|ps|, i requires 0 <= i < |ps| => Convert(ps[i])))
  }

  /** A node directly under the program: a call is wrapped, a leaf is not. */
  function TopLevel(n: Src.Node): Node {
    if n.CallExpression? then ExpressionStatement(Convert(n)) else Convert(n)
  }

  function TransformProgram(p: Src.Program): Program {
    Program(seq(|p.body|, i requires 0 <= i < |p.body| => TopLevel(p.body[i])))
  }

  /**
   * `traverser(node, parent)`: visit one source node whose parent's
   * context is `context`, and return that context after the node has
   * pushed its target node onto it. A call first collects its own
   * children into a fresh context (its target `arguments`).
   */
  method Traverse(node: Src.Node, parentIsProgram: bool, context: seq<Node>) returns (parentContext: seq<Node>)
    ensures parentContext == context + [if parentIsProgram then TopLevel(node) else Convert(node)]
    decreases node
  {
    match node
    case CallExpression(name, params) =>
      var arguments: seq<Node> := [];
      for i := 0 to |params|
        invariant |arguments| == i
        invariant forall k :: 0 <= k < i ==> arguments[k] == Convert(params[k])
      {
        arguments := Traverse(params[i], false, arguments);
      }
      assert arguments == Convert(node).arguments;
      var expression := CallExpression(Identifier(name), arguments);
      if parentIsProgram {
        expression := ExpressionStatement(expression);
      }
      parentContext := context + [expression];
    case StringLiteral(v) =>
      parentContext := context + [StringLiteral(v)];
    case NumberLiteral(v) =>
      parentContext := context + [NumberLiteral(v)];
  }

  /**
   * `transformer(ast)`: the program's context is the new program's body;
   * each top-level node is visited with the program as its parent.
   */
  method Transform(ast: Src.Program) returns (newAst: Program)
    ensures newAst == TransformProgram(ast)
  {
    var body: seq<Node> := [];
    for i := 0 to |ast.body|
      invariant |body| == i
      invariant forall k :: 0 <= k < i ==> body[k] == TopLevel(ast.body[k])
    {
      body := Traverse(ast.body[i], true, body);
    }
    newAst := Program(body);
  }

  // ---------------------------------------------------------------------
  // The shape of the target tree
  // ---------------------------------------------------------------------

  /** No `ExpressionStatement` anywhere in `t`. */
  predicate NoStatement(t: Node) {
    match t
    case NumberLiteral(_) => true
    case StringLiteral(_) => true
    case CallExpression(_, args) => forall i :: 0 <= i < |args| ==> NoStatement(args[i])
    case ExpressionStatement(_) => false
  }

  /**
   * The target dialect's shape: every program item is a leaf or an
   * `ExpressionStatement` wrapping a call, and no statement is nested
   * anywhere below.
   */
  predicate WellShaped(p: Program) {
    forall i :: 0 <= i < |p.body| ==> TopShaped(p.body[i])
  }

  predicate TopShaped(t: Node) {
    match t
    case NumberLiteral(_) => true
    case StringLiteral(_) => true
    case CallExpression(_, _) => false
    case ExpressionStatement(e) => e.CallExpression? && NoStatement(e)
  }

  /** A converted node never contains a statement wrapper: nested calls are not wrapped. */
  lemma {:induction false} ConvertNoStatement(n: Src.Node)
    ensures NoStatement(Convert(n))
    decreases n
  {
    match n
    case NumberLiteral(_) =>
    case StringLiteral(_) =>
    case CallExpression(_, ps) =>
      var args := Convert(n).arguments;
      forall i | 0 <= i < |args| ensures NoStatement(args[i]) {
        ConvertNoStatement(ps[i]);
      }
  }

  /**
   * After transforming, each program item is wrapped exactly when its
   * source node is a call, and the target tree has the target dialect's
   * shape.
   */
  lemma TransformWellShaped(p: Src.Program)
    ensures |TransformProgram(p).body| == |p.body|
    ensures forall i :: 0 <= i < |p.body| ==> (TransformProgram(p).body[i].ExpressionStatement? <==> p.body[i].CallExpression?)
    ensures WellShaped(TransformProgram(p))
  {
    var q := TransformProgram(p);
    forall i | 0 <= i < |p.body| ensures TopShaped(q.body[i]) {
      ConvertNoStatement(p.body[i]);
    }
  }

  /** No `StringLiteral` anywhere in `t`. */
  predicate NoStringLiteral(t: Node) {
    match t
    case NumberLiteral(_) => true
    case StringLiteral(_) => false
    case CallExpression(_, args) => forall i :: 0 <= i < |args| ==> NoStringLiteral(args[i])
    case ExpressionStatement(e) => NoStringLiteral(e)
  }

  /** Converting neither adds nor removes string literals. */
  lemma {:induction false} ConvertNoString(n: Src.Node)
    ensures NoStringLiteral(Convert(n)) <==> Src.NoStringLiteral(n)
    decreases n
  {
    match n
    case NumberLiteral(_) =>
    case StringLiteral(_) =>
    case CallExpression(_, ps) =>
      var args := Convert(n).arguments;
      forall i | 0 <= i < |ps| ensures NoStringLiteral(args[i]) <==> Src.NoStringLiteral(ps[i]) {
        ConvertNoString(ps[i]);
      }
  }

  /** A source program without string literals transforms into a target program without any. */
  lemma TransformNoString(p: Src.Program)
    requires forall i :: 0 <= i < |p.body| ==> Src.NoStringLiteral(p.body[i])
    ensures forall i :: 0 <= i < |TransformProgram(p).body| ==> NoStringLiteral(TransformProgram(p).body[i])
  {
    var q := TransformProgram(p);
    forall i | 0 <= i < |q.body| ensures NoStringLiteral(q.body[i]) {
      ConvertNoString(p.body[i]);
    }
  }

  // ---------------------------------------------------------------------
  // An inverse: the renaming loses nothing
  // ---------------------------------------------------------------------

  /** A target node without statements, back in the source dialect. */
  function Unconvert(t: Node): Src.Node
    requires NoStatement(t)
  {
    match t
    case NumberLiteral(v) => Src.NumberLiteral(v)
    case StringLiteral(v) => Src.StringLiteral(v)
    case CallExpression(callee, args) =>
      Src.CallExpression(callee.name, seq(|args|, i requires 0 <= i < |args| => Unconvert(args[i])))
  }

  /**
   * Converting keeps everything: each call's name survives in its callee,
   * its arguments match its params one for one and in order, and leaves
   * are copied unchanged.
   */
  lemma {:induction false} UnconvertConvert(n: Src.Node)
    ensures NoStatement(Convert(n)) && Unconvert(Convert(n)) == n
    decreases n
  {
    ConvertNoStatement(n);
    match n
    case NumberLiteral(_) =>
    case StringLiteral(_) =>
    case CallExpression(name, ps) =>
      var back := Unconvert(Convert(n));
      forall i | 0 <= i < |ps| ensures back.params[i] == ps[i] {
        UnconvertConvert(ps[i]);
      }
      assert back.params == ps;
  }

  /** Every statement-free target node is the conversion of some source node. */
  lemma {:induction false} ConvertUnconvert(t: Node)
    requires NoStatement(t)
    ensures Convert(Unconvert(t)) == t
    decreases t
  {
    match t
    case NumberLiteral(_) =>
    case StringLiteral(_) =>
    case CallExpression(callee, args) =>
      var again := Convert(Unconvert(t));
      forall i | 0 <= i < |args| ensures again.arguments[i] == args[i] {
        ConvertUnconvert(args[i]);
      }
      assert again.arguments == args;
  }

  /** A well-shaped target program, back in the source dialect. */
  function Untransform(p: Program): Src.Program
    requires WellShaped(p)
  {
    Src.Program(seq(|p.body|, i requires 0 <= i < |p.body| =>
      var t := p.body[i];
      assert TopShaped(t);
      if t.ExpressionStatement? then Unconvert(t.expression) else Unconvert(t)))
  }

  /** Transforming a program can be undone: no item is lost, added or reordered. */
  lemma UntransformTransform(p: Src.Program)
    ensures WellShaped(TransformProgram(p)) && Untransform(TransformProgram(p)) == p
  {
    TransformWellShaped(p);
    var back := Untransform(TransformProgram(p));
    forall i | 0 <= i < |p.body| ensures back.body[i] == p.body[i] {
      UnconvertConvert(p.body[i]);
    }
    assert back.body == p.body;
  }

  /** Every well-shaped target program is the transform of some source program. */
  lemma TransformUntransform(p: Program)
    requires WellShaped(p)
    ensures TransformProgram(Untransform(p)) == p
  {
    var again := TransformProgram(Untransform(p));
    forall i | 0 <= i < |p.body| ensures again.body[i] == p.body[i] {
      var t := p.body[i];
      assert TopShaped(t);
      if t.ExpressionStatement? {
        ConvertUnconvert(t.expression);
      } else {
        ConvertUnconvert(t);
      }
    }
    assert again.body == p.body;
  }
}
