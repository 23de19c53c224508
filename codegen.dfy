/**
 * The code generator (compiler.js, `codeGenerator`): renders the target
 * tree as text. Program items are joined with a newline, a call is printed
 * as `name(a1, a2, ...)` and a number literal verbatim.
 *
 * A string literal has no rendering: the original returns `undefined` for
 * it, and `Array.prototype.join` turns an `undefined` element into the
 * empty string. `Generate` returns `None` for "undefined" and `Text` is
 * that conversion.
 *
 * `ReadProgram` reads the rendered text back; it is the generator's
 * partner: reading what was generated gives back the tree, and whatever
 * the reader accepts is the rendering of what it returns.
 */
module CodeGenerator {
  import opened Common
  import opened Transformer
  import Tokenizer

  /** `parts.join(sep)`: it starts with the first part. */
  function Join(parts: seq<string>, sep: string): (r: string)
    ensures parts != [] ==> parts[0] <= r
  {
    if parts == [] then []
    else if |parts| == 1 then parts[0]
    else parts[0] + sep + Join(parts[1..], sep)
  }

  /** A join ends with its last part. */
  lemma {:induction false} JoinLast(parts: seq<string>, sep: string)
    requires parts != []
    ensures |parts[|parts| - 1]| <= |Join(parts, sep)|
    ensures Join(parts, sep)[|Join(parts, sep)| - |parts[|parts| - 1]|..] == parts[|parts| - 1]
    decreases |parts|
  {
    if |parts| > 1 {
      var last := parts[|parts| - 1];
      var j := Join(parts[1..], sep);
      JoinLast(parts[1..], sep);
      assert parts[1..][|parts[1..]| - 1] == last;
      var w := parts[0] + sep + j;
      assert w[|w| - |j|..] == j;
      assert w[|w| - |last|..] == j[|j| - |last|..];
    }
  }

  /** The nodes the original renders as `undefined`. */
  predicate Undefined(t: Node) {
    t.StringLiteral? || (t.ExpressionStatement? && Undefined(t.expression))
  }

  /**
   * The rendering of one node, `None` where the original returns `undefined`:
   * a number is its digits, and only a string literal, bare or under a
   * statement, has none.
   */
  function Generate(t: Node): (r: Option<string>)
    ensures t.NumberLiteral? ==> r == Some(t.value)
    ensures r.None? <==> Undefined(t)
    decreases t
  {
    match t
    case NumberLiteral(v) => Some(v)
    case StringLiteral(_) => None
    case ExpressionStatement(e) => Generate(e)
    case CallExpression(callee, args) =>
      Some(callee.name + "(" + Join(Parts(args), ", ") + ")")
  }

  /**
   * `nodes.map(codeGenerator)`, each element as `join` prints it: `join`
   * writes an `undefined` element as the empty string.
   */
  function Parts(ts: seq<Node>): (r: seq<string>)
    ensures |r| == |ts|
    ensures forall i :: 0 <= i < |ts| && Undefined(ts[i]) ==> r[i] == []
    decreases ts
  {
    seq(|ts|, i requires 0 <= i < |ts| => if Generate(ts[i]).Some? then Generate(ts[i]).value else [])
  }

  /** The rendering of a program: its items, one per line. */
  function GenerateProgram(p: Program): (r: string)
    ensures p.body == [] ==> r == []
    ensures p.body != [] ==> Parts(p.body)[0] <= r
    ensures |p.body| == 1 ==> r == Parts(p.body)[0]
  {
    Join(Parts(p.body), "\n")
  }

  /**
   * A string literal has no rendering of its own, and as an argument it
   * prints as nothing: `join` writes `undefined` as the empty string. This is
   * one instance, a string before a number; the general fact is the
   * contract of `Parts`.
   */
  lemma StringArgumentVanishes(f: Identifier, v: string, w: string)
    ensures Generate(StringLiteral(v)) == None
    ensures Generate(CallExpression(f, [StringLiteral(v), NumberLiteral(w)])) == Some(f.name + "(, " + w + ")")
  {
    var args := [StringLiteral(v), NumberLiteral(w)];
    assert Parts(args) == ["", w];
    assert Join(["", w], ", ") == ", " + w;
    assert f.name + "(" + (", " + w) + ")" == f.name + "(, " + w + ")";
  }

  /**
   * Without string literals nothing renders as `undefined`: the node has a
   * rendering, and so has each argument of a call, which `join` prints as is.
   */
  lemma {:induction false} GenerateNoString(t: Node)
    requires NoStringLiteral(t)
    ensures Generate(t).Some?
    ensures t.CallExpression? ==> forall i :: 0 <= i < |t.arguments| ==> Generate(t.arguments[i]).Some? && Parts(t.arguments)[i] == Generate(t.arguments[i]).value
    decreases t
  {
    match t
    case NumberLiteral(_) =>
    case ExpressionStatement(e) =>
      GenerateNoString(e);
    case CallExpression(_, args) =>
      forall i | 0 <= i < |args| ensures Generate(args[i]).Some? {
        GenerateNoString(args[i]);
      }
  }

  // ---------------------------------------------------------------------
  // Reading the output back
  // ---------------------------------------------------------------------

  /**
   * An expression whose rendering can be read back: numerals, and calls
   * with letter names; no string literal (it prints as nothing) and no
   * statement wrapper.
   */
  predicate Printable(t: Node) {
    match t
    case NumberLiteral(v) => Tokenizer.IsNumeral(v)
    case StringLiteral(_) => false
    case CallExpression(callee, args) =>
      Tokenizer.IsName(callee.name) && forall i :: 0 <= i < |args| ==> Printable(args[i])
    case ExpressionStatement(_) => false
  }

  /** A program item that can be read back: a numeral or a wrapped printable call. */
  predicate PrintableItem(t: Node) {
    match t
    case NumberLiteral(v) => Tokenizer.IsNumeral(v)
    case ExpressionStatement(e) => e.CallExpression? && Printable(e)
    case StringLiteral(_) => false
    case CallExpression(_, _) => false
  }

  predicate PrintableProgram(p: Program) {
    forall i :: 0 <= i < |p.body| ==> PrintableItem(p.body[i])
  }

  /** One expression at the front of `s`, and the text after it. */
  function ReadExpr(s: string): (r: Option<(Node, string)>)
    ensures r.Some? ==> |r.value.1| < |s|
    decreases |s|, 0
  {
    if s == [] then None
    else if Tokenizer.IsDigit(s[0]) then
      var n := Tokenizer.RunLength(s, Tokenizer.IsDigit);
      Some((NumberLiteral(s[..n]), s[n..]))
    else if Tokenizer.IsLetter(s[0]) then
      var n := Tokenizer.RunLength(s, Tokenizer.IsLetter);
      var rest := s[n..];
      if rest == [] || rest[0] != '(' then None
      else if |rest| >= 2 && rest[1] == ')' then
        Some((CallExpression(Identifier(s[..n]), []), rest[2..]))
      else
        match ReadArgs(rest[1..])
        case None => None
        case Some((args, after)) => Some((CallExpression(Identifier(s[..n]), args), after))
    else None
  }

  /** A nonempty argument list `e1, e2, ...)` at the front of `s`, and the text after it. */
  function ReadArgs(s: string): (r: Option<(seq<Node>, string)>)
    ensures r.Some? ==> |r.value.1| < |s|
    decreases |s|, 1
  {
    match ReadExpr(s)
    case None => None
    case Some((e, rest)) =>
      if rest != [] && rest[0] == ')' then Some(([e], rest[1..]))
      else if |rest| >= 2 && rest[0] == ',' && rest[1] == ' ' then
        match ReadArgs(rest[2..])
        case None => None
        case Some((es, after)) => Some(([e] + es, after))
      else None
  }

  /** What an expression at the top of a program reads as: a call is wrapped. */
  function Item(e: Node): Node {
    if e.CallExpression? then ExpressionStatement(e) else e
  }

  /** One or more items separated by newlines, making up all of `s`. */
  function ReadItems(s: string): Option<seq<Node>>
    decreases |s|
  {
    match ReadExpr(s)
    case None => None
    case Some((e, rest)) =>
      if rest == [] then Some([Item(e)])
      else if rest[0] == '\n' then
        match ReadItems(rest[1..])
        case None => None
        case Some(items) => Some([Item(e)] + items)
      else None
  }

  /** The program whose rendering is `s`, if there is one. */
  function ReadProgram(s: string): Option<Program> {
    if s == [] then Some(Program([]))
    else
      match ReadItems(s)
      case None => None
      case Some(items) => Some(Program(items))
  }

  // ---------------------------------------------------------------------
  // Reading back what was generated
  // ---------------------------------------------------------------------

  /** The run of `p` characters at the front of `a + b` is exactly `a`. */
  lemma RunOf(a: string, b: string, p: char -> bool)
    requires forall k :: 0 <= k < |a| ==> p(a[k])
    requires b == [] || !p(b[0])
    ensures Tokenizer.RunLength(a + b, p) == |a|
    ensures (a + b)[..|a|] == a && (a + b)[|a|..] == b
  {
    forall k | 0 <= k < |a| ensures p((a + b)[k]) { assert (a + b)[k] == a[k]; }
    if b != [] { assert (a + b)[|a|] == b[0]; }
    Tokenizer.RunIsMaximal(a + b, p, |a|);
  }

  /** A call renders as its callee's name and `(`, and ends in `)`. */
  lemma GenerateCall(t: Node)
    requires t.CallExpression?
    ensures Generate(t).Some? && t.callee.name + "(" <= Generate(t).value
    ensures Generate(t).value[|Generate(t).value| - 1] == ')'
  {
    var j := Join(Parts(t.arguments), ", ");
    assert Generate(t).value == t.callee.name + "(" + j + ")";
  }

  /** A printable expression renders as text that starts with a digit or a letter. */
  lemma GenerateStart(t: Node)
    requires Printable(t)
    ensures Generate(t).Some? && |Generate(t).value| > 0
    ensures Tokenizer.IsDigit(Generate(t).value[0]) || Tokenizer.IsLetter(Generate(t).value[0])
  {
    if t.CallExpression? {
      var g := Generate(t).value;
      assert g[0] == t.callee.name[0];
    }
  }

  /**
   * Reading the rendering of a printable expression, followed by any text
   * that does not begin with a digit, gives back the expression and that text.
   */
  lemma {:induction false} ReadGenerate(t: Node, rest: string)
    requires Printable(t)
    requires rest == [] || !Tokenizer.IsDigit(rest[0])
    ensures Generate(t).Some? && ReadExpr(Generate(t).value + rest) == Some((t, rest))
    decreases t, 1
  {
    match t
    case NumberLiteral(v) =>
      RunOf(v, rest, Tokenizer.IsDigit);
    case CallExpression(callee, args) =>
      var tail := Join(Parts(args), ", ") + ")" + rest;
      assert Generate(t).value + rest == callee.name + ("(" + tail);
      if args == [] {
        ReadEmptyCall(callee.name, rest);
      } else {
        ReadFullCall(callee.name, args, rest);
      }
  }

  lemma ReadEmptyCall(name: string, rest: string)
    requires Tokenizer.IsName(name)
    ensures ReadExpr(name + ("(" + (Join([], ", ") + ")" + rest))) == Some((CallExpression(Identifier(name), []), rest))
  {
    var u := "(" + (Join([], ", ") + ")" + rest);
    assert u == "()" + rest;
    RunOf(name, u, Tokenizer.IsLetter);
    assert (name + u)[0] == name[0];
    assert u[2..] == rest;
  }

  lemma ReadFullCall(name: string, args: seq<Node>, rest: string)
    requires Tokenizer.IsName(name)
    requires args != []
    requires forall i :: 0 <= i < |args| ==> Printable(args[i])
    ensures ReadExpr(name + ("(" + (Join(Parts(args), ", ") + ")" + rest))) == Some((CallExpression(Identifier(name), args), rest))
    decreases args, 3
  {
    var inner := Join(Parts(args), ", ") + ")" + rest;
    var u := "(" + inner;
    RunOf(name, u, Tokenizer.IsLetter);
    assert (name + u)[0] == name[0];
    ReadArgsGenerate(args, rest);
    GenerateStart(args[0]);
    assert Parts(args)[0] == Generate(args[0]).value;
    JoinStart(Parts(args), ", ");
    assert inner[0] == Parts(args)[0][0];
    assert u[1..] == inner;
  }

  lemma JoinStart(parts: seq<string>, sep: string)
    requires parts != [] && parts[0] != []
    ensures Join(parts, sep) != [] && Join(parts, sep)[0] == parts[0][0]
  {
  }

  /**
   * Reading a rendered nonempty argument list, closed by `)` and followed
   * by any text, gives back the arguments and that text.
   */
  lemma {:induction false} ReadArgsGenerate(args: seq<Node>, rest: string)
    requires args != []
    requires forall i :: 0 <= i < |args| ==> Printable(args[i])
    ensures ReadArgs(Join(Parts(args), ", ") + ")" + rest) == Some((args, rest))
    decreases args, 2
  {
    if |args| == 1 {
      ReadOneArg(args, rest);
    } else {
      ReadMoreArgs(args, rest);
    }
  }

  /** `ReadArgsGenerate` for a single argument. */
  lemma {:induction false} ReadOneArg(args: seq<Node>, rest: string)
    requires |args| == 1 && Printable(args[0])
    ensures ReadArgs(Join(Parts(args), ", ") + ")" + rest) == Some((args, rest))
    decreases args, 1
  {
    var parts := Parts(args);
    GenerateStart(args[0]);
    var first := Generate(args[0]).value;
    assert parts[0] == first;
    CloseOne(parts, rest);
    ReadGenerate(args[0], ")" + rest);
    ReadLastArg(first + (")" + rest), args[0], rest);
    assert [args[0]] == args;
  }

  /** `ReadArgsGenerate` for two or more arguments. */
  lemma {:induction false} ReadMoreArgs(args: seq<Node>, rest: string)
    requires |args| > 1
    requires forall i :: 0 <= i < |args| ==> Printable(args[i])
    ensures ReadArgs(Join(Parts(args), ", ") + ")" + rest) == Some((args, rest))
    decreases args, 1
  {
    var parts := Parts(args);
    var tail := args[1..];
    assert Printable(args[0]);
    GenerateStart(args[0]);
    assert parts[0] == Generate(args[0]).value;
    PartsTail(args);
    forall i | 0 <= i < |tail| ensures Printable(tail[i]) { assert tail[i] == args[i + 1]; }
    CloseMore(parts, rest);
    assert [args[0]] + tail == args;
    ReadArgAndMore(args[0], tail, rest);
  }

  /** The text of one argument, `, ` and the text of more arguments reads back as all of them. */
  lemma {:induction false} ReadArgAndMore(e: Node, tail: seq<Node>, rest: string)
    requires Printable(e) && tail != []
    requires forall i :: 0 <= i < |tail| ==> Printable(tail[i])
    ensures Generate(e).Some?
    ensures ReadArgs(Generate(e).value + (", " + (Join(Parts(tail), ", ") + ")" + rest))) == Some(([e] + tail, rest))
    decreases [e] + tail, 0
  {
    var after := Join(Parts(tail), ", ") + ")" + rest;
    assert ([e] + tail)[0] == e && ([e] + tail)[1..] == tail;
    assert (", " + after)[0] == ',';
    ReadGenerate(e, ", " + after);
    ReadArgsGenerate(tail, rest);
    ReadNextArg(Generate(e).value + (", " + after), e, after, tail, rest);
  }

  lemma PartsTail(ts: seq<Node>)
    requires ts != []
    ensures Parts(ts[1..]) == Parts(ts)[1..]
  {
  }

  /** A one-element argument list and its closing `)`. */
  lemma CloseOne(parts: seq<string>, rest: string)
    requires |parts| == 1
    ensures Join(parts, ", ") + ")" + rest == parts[0] + (")" + rest)
  {
  }

  /** A longer argument list: the first argument, `, ` and the others. */
  lemma CloseMore(parts: seq<string>, rest: string)
    requires |parts| > 1
    ensures Join(parts, ", ") + ")" + rest == parts[0] + (", " + (Join(parts[1..], ", ") + ")" + rest))
  {
    var j := Join(parts[1..], ", ");
    assert Join(parts, ", ") == parts[0] + ", " + j;
  }

  /** One step of `ReadArgs`: an argument followed by the closing `)`. */
  lemma ReadLastArg(s: string, e: Node, rest: string)
    requires ReadExpr(s) == Some((e, ")" + rest))
    ensures ReadArgs(s) == Some(([e], rest))
  {
    assert (")" + rest)[1..] == rest;
  }

  /** One step of `ReadArgs`: an argument followed by `, ` and more arguments. */
  lemma ReadNextArg(s: string, e: Node, after: string, es: seq<Node>, rest: string)
    requires ReadExpr(s) == Some((e, ", " + after))
    requires ReadArgs(after) == Some((es, rest))
    ensures ReadArgs(s) == Some(([e] + es, rest))
  {
    assert (", " + after)[2..] == after;
  }

  /** Reading the rendering of nonempty printable items gives back the items. */
  lemma {:induction false} ReadItemsGenerate(items: seq<Node>)
    requires items != []
    requires forall i :: 0 <= i < |items| ==> PrintableItem(items[i])
    ensures ReadItems(Join(Parts(items), "\n")) == Some(items)
    decreases items
  {
    var parts := Parts(items);
    var t := items[0];
    assert PrintableItem(t);
    var e := if t.ExpressionStatement? then t.expression else t;
    assert Printable(e) && Item(e) == t && Generate(e) == Generate(t);
    assert parts[0] == Generate(e).value by { ReadGenerate(e, []); }
    if |items| == 1 {
      ReadGenerate(e, []);
      assert Join(parts, "\n") == Generate(e).value + [];
      ReadLastItem(Generate(e).value + [], e);
      assert [t] == items;
    } else {
      var tail := items[1..];
      PartsTail(items);
      forall i | 0 <= i < |tail| ensures PrintableItem(tail[i]) { assert tail[i] == items[i + 1]; }
      var after := Join(Parts(tail), "\n");
      LineMore(parts);
      ReadGenerate(e, "\n" + after);
      ReadItemsGenerate(tail);
      ReadNextItem(Generate(e).value + ("\n" + after), e, after, tail);
      assert [t] + tail == items;
    }
  }

  /** One step of `ReadItems`: the last item. */
  lemma ReadLastItem(s: string, e: Node)
    requires ReadExpr(s) == Some((e, []))
    ensures ReadItems(s) == Some([Item(e)])
  {
  }

  /** One step of `ReadItems`: an item, a newline and more items. */
  lemma ReadNextItem(s: string, e: Node, after: string, more: seq<Node>)
    requires ReadExpr(s) == Some((e, "\n" + after))
    requires ReadItems(after) == Some(more)
    ensures ReadItems(s) == Some([Item(e)] + more)
  {
    assert ("\n" + after)[1..] == after;
  }

  /** Several lines: the first, a newline and the others. */
  lemma LineMore(parts: seq<string>)
    requires |parts| > 1
    ensures Join(parts, "\n") == parts[0] + ("\n" + Join(parts[1..], "\n"))
  {
  }

  /** Reading the rendering of a printable program gives back the program. */
  lemma ReadProgramGenerate(p: Program)
    requires PrintableProgram(p)
    ensures ReadProgram(GenerateProgram(p)) == Some(p)
  {
    if p.body != [] {
      ReadItemsGenerate(p.body);
      var t := p.body[0];
      assert PrintableItem(t);
      var e := if t.ExpressionStatement? then t.expression else t;
      GenerateStart(e);
      JoinStart(Parts(p.body), "\n");
    }
  }

  // ---------------------------------------------------------------------
  // Whatever is read back was generated
  // ---------------------------------------------------------------------

  lemma PartsCons(e: Node, g: string, es: seq<Node>)
    requires Generate(e) == Some(g)
    ensures Parts([e] + es) == [g] + Parts(es)
  {
    var args := [e] + es;
    assert Parts(args)[0] == g;
    assert Parts(args)[1..] == Parts(es) by {
      forall k | 0 <= k < |es| ensures Parts(args)[1..][k] == Parts(es)[k] { assert args[k + 1] == es[k]; }
    }
  }

  lemma JoinCons(g: string, parts: seq<string>, sep: string)
    requires parts != []
    ensures Join([g] + parts, sep) == g + sep + Join(parts, sep)
  {
    assert ([g] + parts)[1..] == parts;
  }

  lemma JoinOne(g: string, sep: string)
    ensures Join([g], sep) == g
  {
  }

  /** A number read at the front of `s` is a numeral, and `s` is its text and the rest. */
  lemma ReadNumber(s: string)
    requires s != [] && Tokenizer.IsDigit(s[0])
    ensures ReadExpr(s).Some? && Printable(ReadExpr(s).value.0)
    ensures Generate(ReadExpr(s).value.0).Some? && Generate(ReadExpr(s).value.0).value + ReadExpr(s).value.1 == s
  {
    var n := Tokenizer.RunLength(s, Tokenizer.IsDigit);
    assert s[..n] + s[n..] == s;
  }

  /** An expression read at the front of `s` is printable, and `s` is its rendering and the rest. */
  lemma {:induction false} GenerateReadExpr(s: string, t: Node, rest: string)
    requires ReadExpr(s) == Some((t, rest))
    ensures Printable(t) && Generate(t).Some? && Generate(t).value + rest == s
    decreases |s|, 0
  {
    if Tokenizer.IsDigit(s[0]) {
      ReadNumber(s);
    } else {
      var n := Tokenizer.RunLength(s, Tokenizer.IsLetter);
      ReadCall(s, n, s[n..], t, rest);
    }
  }

  /** The call case of `GenerateReadExpr`: `s` is a name of length `n` and `u`. */
  lemma {:induction false} ReadCall(s: string, n: nat, u: string, t: Node, rest: string)
    requires s != [] && !Tokenizer.IsDigit(s[0]) && Tokenizer.IsLetter(s[0])
    requires n == Tokenizer.RunLength(s, Tokenizer.IsLetter) && u == s[n..]
    requires ReadExpr(s) == Some((t, rest))
    ensures Printable(t) && Generate(t).Some? && Generate(t).value + rest == s
    decreases |s|, 0, 0
  {
    var name := s[..n];
    assert s == name + u;
    assert Tokenizer.IsName(name);
    if |u| >= 2 && u[1] == ')' {
      assert t == CallExpression(Identifier(name), []) && rest == u[2..];
      EmptyCallText(name, u);
    } else {
      var (args, after) := ReadArgs(u[1..]).value;
      assert t == CallExpression(Identifier(name), args) && rest == after;
      GenerateReadArgs(u[1..], args, after);
      CallText(name, args, u, after);
    }
  }

  lemma EmptyCallText(name: string, u: string)
    requires |u| >= 2 && u[0] == '(' && u[1] == ')'
    ensures Generate(CallExpression(Identifier(name), [])).value + u[2..] == name + u
  {
    assert u == "()" + u[2..];
  }

  lemma CallText(name: string, args: seq<Node>, u: string, after: string)
    requires u != [] && u[0] == '('
    requires Join(Parts(args), ", ") + ")" + after == u[1..]
    ensures Generate(CallExpression(Identifier(name), args)).value + after == name + u
  {
    assert u == "(" + u[1..];
  }

  /** An argument list read at the front of `s` is nonempty and printable, and `s` is its rendering, `)` and the rest. */
  lemma {:induction false} GenerateReadArgs(s: string, args: seq<Node>, after: string)
    requires ReadArgs(s) == Some((args, after))
    ensures args != [] && forall i :: 0 <= i < |args| ==> Printable(args[i])
    ensures Join(Parts(args), ", ") + ")" + after == s
    decreases |s|, 1
  {
    var (e, rest) := ReadExpr(s).value;
    GenerateReadExpr(s, e, rest);
    var g := Generate(e).value;
    if rest != [] && rest[0] == ')' {
      assert args == [e] && after == rest[1..];
      LastArgText(s, e, g, rest);
    } else {
      var (es, after') := ReadArgs(rest[2..]).value;
      assert args == [e] + es && after == after';
      GenerateReadArgs(rest[2..], es, after');
      ArgText(s, e, g, rest, es, after');
      forall i | 0 <= i < |args| ensures Printable(args[i]) {
        if i > 0 { assert args[i] == es[i - 1]; }
      }
    }
  }

  lemma LastArgText(s: string, e: Node, g: string, rest: string)
    requires Generate(e) == Some(g) && g + rest == s
    requires rest != [] && rest[0] == ')'
    ensures Join(Parts([e]), ", ") + ")" + rest[1..] == s
  {
    PartsCons(e, g, []);
    assert [e] + [] == [e];
    JoinOne(g, ", ");
    assert rest == ")" + rest[1..];
  }

  lemma ArgText(s: string, e: Node, g: string, rest: string, es: seq<Node>, after: string)
    requires Generate(e) == Some(g) && g + rest == s
    requires |rest| >= 2 && rest[0] == ',' && rest[1] == ' '
    requires es != [] && Join(Parts(es), ", ") + ")" + after == rest[2..]
    ensures Join(Parts([e] + es), ", ") + ")" + after == s
  {
    PartsCons(e, g, es);
    JoinCons(g, Parts(es), ", ");
    assert rest == ", " + rest[2..];
  }

  /** Items read from `s` are nonempty and printable, and `s` is their rendering. */
  lemma {:induction false} GenerateReadItems(s: string, items: seq<Node>)
    requires ReadItems(s) == Some(items)
    ensures items != [] && forall i :: 0 <= i < |items| ==> PrintableItem(items[i])
    ensures Join(Parts(items), "\n") == s
    decreases |s|
  {
    var (e, rest) := ReadExpr(s).value;
    GenerateReadExpr(s, e, rest);
    var g := Generate(e).value;
    assert PrintableItem(Item(e));
    ItemsStep(s, e, rest, items);
    if rest == [] {
      LastItemText(s, e, g);
    } else {
      var more := ReadItems(rest[1..]).value;
      GenerateReadItems(rest[1..], more);
      ItemText(s, e, g, rest, more);
      PrintableItemsCons(Item(e), more);
    }
  }

  /** How `ReadItems` splits off its first item. */
  lemma ItemsStep(s: string, e: Node, rest: string, items: seq<Node>)
    requires ReadExpr(s) == Some((e, rest)) && ReadItems(s) == Some(items)
    ensures rest == [] ==> items == [Item(e)]
    ensures rest != [] ==> rest[0] == '\n' && ReadItems(rest[1..]).Some? && items == [Item(e)] + ReadItems(rest[1..]).value
  {
  }

  lemma PrintableItemsCons(t: Node, more: seq<Node>)
    requires PrintableItem(t) && forall i :: 0 <= i < |more| ==> PrintableItem(more[i])
    ensures forall i :: 0 <= i < |[t] + more| ==> PrintableItem(([t] + more)[i])
  {
    forall i | 0 <= i < |[t] + more| ensures PrintableItem(([t] + more)[i]) {
      if i > 0 { assert ([t] + more)[i] == more[i - 1]; }
    }
  }

  lemma LastItemText(s: string, e: Node, g: string)
    requires Generate(e) == Some(g) && g + [] == s
    ensures Join(Parts([Item(e)]), "\n") == s
  {
    assert Generate(Item(e)) == Generate(e);
    PartsCons(Item(e), g, []);
    assert [Item(e)] + [] == [Item(e)];
    JoinOne(g, "\n");
  }

  lemma ItemText(s: string, e: Node, g: string, rest: string, more: seq<Node>)
    requires Generate(e) == Some(g) && g + rest == s
    requires rest != [] && rest[0] == '\n'
    requires more != [] && Join(Parts(more), "\n") == rest[1..]
    ensures Join(Parts([Item(e)] + more), "\n") == s
  {
    assert Generate(Item(e)) == Generate(e);
    PartsCons(Item(e), g, more);
    JoinCons(g, Parts(more), "\n");
    assert rest == "\n" + rest[1..];
  }

  /**
   * The reader accepts exactly the renderings of printable programs, and
   * returns the program rendered.
   */
  lemma ReadProgramIff(s: string, p: Program)
    ensures ReadProgram(s) == Some(p) <==> PrintableProgram(p) && GenerateProgram(p) == s
  {
    if PrintableProgram(p) && GenerateProgram(p) == s {
      ReadProgramGenerate(p);
    }
    if ReadProgram(s) == Some(p) && s != [] {
      GenerateReadItems(s, p.body);
    }
  }
}
