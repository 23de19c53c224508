/**
 * The repository's own example (test.js): the input text, its tokens, its
 * source tree, its target tree and its output, each stage taking the one
 * before to the next.
 */
module Examples {
  import opened Common
  import opened Tokenizer
  import P = Parser
  import T = Transformer
  import CodeGenerator
  import Compiler

  const Open := Token(ParenToken, "(")
  const Close := Token(ParenToken, ")")

  const Input := "(add 2 (subtract 4 2))"
  const Output := "add(2, subtract(4, 2))"

  const Tokens := [Open, Token(NameToken, "add"), Token(NumberToken, "2"),
                   Open, Token(NameToken, "subtract"), Token(NumberToken, "4"), Token(NumberToken, "2"),
                   Close, Close]

  /** The whitespace before each token of `Input`, and after the last. */
  const Gaps := ["", "", " ", " ", "", " ", " ", "", "", ""]

  /** `(subtract 4 2)` in the source and in the target tree. */
  const InnerSource := P.CallExpression("subtract", [P.NumberLiteral("4"), P.NumberLiteral("2")])
  const InnerTarget := T.CallExpression(T.Identifier("subtract"), [T.NumberLiteral("4"), T.NumberLiteral("2")])

  const Ast := P.Program([P.CallExpression("add", [P.NumberLiteral("2"), InnerSource])])

  const NewAst := T.Program([
    T.ExpressionStatement(T.CallExpression(T.Identifier("add"), [T.NumberLiteral("2"), InnerTarget]))])

  lemma WeaveStep(g: seq<string>, ts: seq<Token>, tail: string, whole: string)
    requires |g| == |ts| + 1 && ts != []
    requires Weave(g[1..], ts[1..]) == tail
    requires whole == g[0] + ts[0].name + tail
    ensures Weave(g, ts) == whole
  {
  }

  /**
   * The suffixes of `Gaps` and `Tokens` from position `k`, built backwards
   * one element at a time. Each `InputLayoutK` below then weaves one more
   * token in front of the previous suffix, so that no single proof has to
   * evaluate the whole literal text at once, which is beyond the verifier's
   * budget for one proof.
   */
  const G9: seq<string> := [""]
  const T9: seq<Token> := []
  const G8: seq<string> := [""] + G9
  const T8: seq<Token> := [Close] + T9
  const G7: seq<string> := [""] + G8
  const T7: seq<Token> := [Close] + T8
  const G6: seq<string> := [" "] + G7
  const T6: seq<Token> := [Token(NumberToken, "2")] + T7
  const G5: seq<string> := [" "] + G6
  const T5: seq<Token> := [Token(NumberToken, "4")] + T6
  const G4: seq<string> := [""] + G5
  const T4: seq<Token> := [Token(NameToken, "subtract")] + T5
  const G3: seq<string> := [" "] + G4
  const T3: seq<Token> := [Open] + T4
  const G2: seq<string> := [" "] + G3
  const T2: seq<Token> := [Token(NumberToken, "2")] + T3
  const G1: seq<string> := [""] + G2
  const T1: seq<Token> := [Token(NameToken, "add")] + T2
  const G0: seq<string> := [""] + G1
  const T0: seq<Token> := [Open] + T1

  lemma InputLayout8()
    ensures Weave(G8, T8) == ")"
  {
    assert Weave(G9, T9) == "";
    WeaveStep(G8, T8, "", ")");
  }

  lemma InputLayout7()
    ensures Weave(G7, T7) == "))"
  {
    InputLayout8();
    WeaveStep(G7, T7, ")", "))");
  }

  lemma InputLayout6()
    ensures Weave(G6, T6) == " 2))"
  {
    InputLayout7();
    WeaveStep(G6, T6, "))", " 2))");
  }

  lemma InputLayout5()
    ensures Weave(G5, T5) == " 4 2))"
  {
    InputLayout6();
    WeaveStep(G5, T5, " 2))", " 4 2))");
  }

  lemma InputLayout4()
    ensures Weave(G4, T4) == "subtract 4 2))"
  {
    InputLayout5();
    WeaveStep(G4, T4, " 4 2))", "subtract 4 2))");
  }

  lemma InputLayout3()
    ensures Weave(G3, T3) == " (subtract 4 2))"
  {
    InputLayout4();
    WeaveStep(G3, T3, "subtract 4 2))", " (subtract 4 2))");
  }

  lemma InputLayout2()
    ensures Weave(G2, T2) == " 2 (subtract 4 2))"
  {
    InputLayout3();
    WeaveStep(G2, T2, " (subtract 4 2))", " 2 (subtract 4 2))");
  }

  lemma InputLayout1()
    ensures Weave(G1, T1) == "add 2 (subtract 4 2))"
  {
    InputLayout2();
    WeaveStep(G1, T1, " 2 (subtract 4 2))", "add 2 (subtract 4 2))");
  }

  lemma InputLayout0()
    ensures Weave(G0, T0) == "(add 2 (subtract 4 2))"
  {
    InputLayout1();
    WeaveStep(G0, T0, "add 2 (subtract 4 2))", "(add 2 (subtract 4 2))");
  }

  /** `Input` is its tokens with `Gaps` around them. */
  lemma InputLayout()
    ensures Weave(Gaps, Tokens) == Input
  {
    InputLayout0();
    assert G0 == Gaps && T0 == Tokens;
  }

  /** `tokenizer(input)` is `tokens`. */
  lemma TokenizerExample()
    ensures Lex(Input) == Ok(Tokens)
  {
    InputLayout();
    LexWeave(Gaps, Tokens);
  }

  /** The tokens of the inner call `(subtract 4 2)`. */
  lemma InnerTokens()
    ensures P.Unparse(P.CallExpression("subtract", [P.NumberLiteral("4"), P.NumberLiteral("2")]))
         == [Open, Token(NameToken, "subtract"), Token(NumberToken, "4"), Token(NumberToken, "2"), Close]
  {
    var ps := [P.NumberLiteral("4"), P.NumberLiteral("2")];
    assert P.UnparseAll(ps[1..]) == [Token(NumberToken, "2")];
  }

  /** `Tokens` are the tokens of `Ast`. */
  lemma AstTokens()
    ensures P.UnparseAll(Ast.body) == Tokens
  {
    var inner := P.CallExpression("subtract", [P.NumberLiteral("4"), P.NumberLiteral("2")]);
    var ps := [P.NumberLiteral("2"), inner];
    InnerTokens();
    assert P.UnparseAll(ps[1..]) == P.Unparse(inner);
    assert P.UnparseAll(ps) == [Token(NumberToken, "2")] + P.Unparse(inner);
  }

  /** `parser(tokens)` is `ast`. */
  lemma ParserExample()
    ensures P.ParseProgram(Tokens) == Ok(Ast)
  {
    AstTokens();
    P.ParseProgramUnparse(Ast);
  }

  /** `transformer(ast)` is `newAst`. */
  lemma TransformerExample()
    ensures T.TransformProgram(Ast) == NewAst
  {
    var inner := P.CallExpression("subtract", [P.NumberLiteral("4"), P.NumberLiteral("2")]);
    assert T.Convert(inner) == T.CallExpression(T.Identifier("subtract"), [T.NumberLiteral("4"), T.NumberLiteral("2")]);
    assert T.Convert(Ast.body[0]) == NewAst.body[0].expression;
  }

  lemma InnerOutput()
    ensures CodeGenerator.Generate(InnerTarget) == Some("subtract(4, 2)")
  {
    var args := [T.NumberLiteral("4"), T.NumberLiteral("2")];
    assert CodeGenerator.Parts(args) == ["4", "2"];
    assert CodeGenerator.Join(["4", "2"], ", ") == "4, 2";
    assert "subtract" + "(" + "4, 2" + ")" == "subtract(4, 2)";
  }

  lemma OuterParts()
    ensures CodeGenerator.Parts([T.NumberLiteral("2"), InnerTarget]) == ["2", "subtract(4, 2)"]
  {
    InnerOutput();
  }

  lemma CallOutput(name: string, args: seq<T.Node>, parts: seq<string>)
    requires CodeGenerator.Parts(args) == parts
    ensures CodeGenerator.Generate(T.ExpressionStatement(T.CallExpression(T.Identifier(name), args)))
         == Some(name + "(" + CodeGenerator.Join(parts, ", ") + ")")
  {
  }

  lemma OuterOutput()
    ensures CodeGenerator.Generate(T.ExpressionStatement(T.CallExpression(T.Identifier("add"), [T.NumberLiteral("2"), InnerTarget])))
         == Some(Output)
  {
    OuterParts();
    CallOutput("add", [T.NumberLiteral("2"), InnerTarget], ["2", "subtract(4, 2)"]);
    OuterText();
  }

  lemma OuterText()
    ensures "add" + "(" + CodeGenerator.Join(["2", "subtract(4, 2)"], ", ") + ")" == Output
  {
    assert CodeGenerator.Join(["2", "subtract(4, 2)"], ", ") == "2, subtract(4, 2)";
  }

  /** The rendering of `newAst` is `output`. */
  lemma GeneratorExample()
    ensures CodeGenerator.GenerateProgram(NewAst) == Output
  {
    OuterOutput();
    assert CodeGenerator.Parts(NewAst.body) == [Output];
    assert CodeGenerator.Join([Output], "\n") == Output;
  }

  /** `compiler(input)` is `output`. */
  lemma CompilerExample()
    ensures Compiler.Compiled(Input) == Ok(Output)
  {
    TokenizerExample();
    ParserExample();
    TransformerExample();
    GeneratorExample();
  }

  // ---------------------------------------------------------------------
  // Further inputs
  // ---------------------------------------------------------------------

  const Foo := Token(NameToken, "foo")

  lemma FooLayout()
    ensures Weave(["", "", "", ""], [Open, Foo, Close]) == "(foo)"
  {
    WeaveStep(["", ""], [Close], "", ")");
    WeaveStep(["", "", ""], [Foo, Close], ")", "foo)");
    WeaveStep(["", "", "", ""], [Open, Foo, Close], "foo)", "(foo)");
  }

  /** A call without arguments prints with an empty argument list. */
  lemma CompileEmptyCall()
    ensures Compiler.Compiled("(foo)") == Ok("foo()")
  {
    var ast := P.Program([P.CallExpression("foo", [])]);
    EmptyCallTokens();
    EmptyCallParse(ast);
    EmptyCallOutput(ast);
  }

  lemma EmptyCallTokens()
    ensures Tokenizer.Lex("(foo)") == Ok([Open, Foo, Close])
  {
    FooLayout();
    LexWeave(["", "", "", ""], [Open, Foo, Close]);
  }

  lemma EmptyCallParse(ast: P.Program)
    requires ast == P.Program([P.CallExpression("foo", [])])
    ensures P.ParseProgram([Open, Foo, Close]) == Ok(ast)
  {
    assert P.UnparseAll(ast.body) == [Open, Foo, Close];
    P.ParseProgramUnparse(ast);
  }

  lemma EmptyCallOutput(ast: P.Program)
    requires ast == P.Program([P.CallExpression("foo", [])])
    ensures CodeGenerator.GenerateProgram(T.TransformProgram(ast)) == "foo()"
  {
    var newAst := T.TransformProgram(ast);
    assert T.Convert(ast.body[0]) == T.CallExpression(T.Identifier("foo"), []);
    assert newAst.body == [T.ExpressionStatement(T.CallExpression(T.Identifier("foo"), []))];
    assert CodeGenerator.Generate(newAst.body[0]) == Some("foo" + "(" + "" + ")");
    assert "foo" + "(" + "" + ")" == "foo()";
    assert CodeGenerator.Parts(newAst.body) == ["foo()"];
    assert CodeGenerator.Join(["foo()"], "\n") == "foo()";
  }

  const Add := Token(NameToken, "add")
  const Two := Token(NumberToken, "2")

  lemma UnclosedLayout()
    ensures Weave(["", "", " ", ""], [Open, Add, Two]) == "(add 2"
  {
    WeaveStep([" ", ""], [Two], "", " 2");
    WeaveStep(["", " ", ""], [Add, Two], " 2", "add 2");
    WeaveStep(["", "", " ", ""], [Open, Add, Two], "add 2", "(add 2");
  }

  /** The tokens of `(add 2`: the call is opened but never closed. */
  lemma UnclosedTokens()
    ensures Tokenizer.Lex("(add 2") == Ok([Open, Add, Two])
  {
    UnclosedLayout();
    LexWeave(["", "", " ", ""], [Open, Add, Two]);
  }

  /** The parser runs out of tokens while reading the call's arguments. */
  lemma UnclosedParse()
    ensures P.ParseProgram([Open, Add, Two]) == Err(UnexpectedEndOfInput)
  {
    var ts := [Open, Add, Two];
    assert P.ParseParams(ts, 3) == Err(UnexpectedEndOfInput);
    assert P.ParseParams(ts, 2) == Err(UnexpectedEndOfInput);
    assert P.ParseExpr(ts, 0) == Err(UnexpectedEndOfInput);
  }

  /** A call that is never closed is an error: the tokens run out inside it. */
  lemma CompileUnclosed()
    ensures Compiler.Compiled("(add 2") == Err(UnexpectedEndOfInput)
  {
    UnclosedTokens();
    UnclosedParse();
  }

  /** A character outside the alphabet is rejected. */
  lemma CompileStranger()
    ensures Compiler.Compiled("(add 2 + 3)") == Err(UnrecognizedChar('+'))
  {
    var s := "(add 2 + 3)";
    assert forall j :: 0 <= j < 7 ==> InAlphabet(s[j]);
    Compiler.CompileRejectsStranger(s, 7);
  }
}
