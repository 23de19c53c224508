/**
 * The whole compiler (compiler.js, `compiler`): tokens, then the source
 * tree, then the target tree, then the output text. A failure of any stage
 * is the failure of the whole.
 */
module Compiler {
  import opened Common
  import Tokenizer
  import Parser
  import Transformer
  import CodeGenerator

  /** What compiling `input` produces. */
  function Compiled(input: string): Result<string> {
    match Tokenizer.Lex(input)
    case Err(e) => Err(e)
    case Ok(tokens) => CompiledTokens(tokens)
  }

  /** The stages after the tokenizer: parse, transform, generate. */
  function CompiledTokens(tokens: seq<Tokenizer.Token>): Result<string> {
    match Parser.ParseProgram(tokens)
    case Err(e) => Err(e)
    case Ok(ast) => Ok(CodeGenerator.GenerateProgram(Transformer.TransformProgram(ast)))
  }

  /** `compiler(input)`: the four stages run one after another. */
  method Compile(input: string) returns (r: Result<string>)
    ensures r == Compiled(input)
  {
    var tokens := Tokenizer.Tokenize(input);
    if tokens.Err? {
      return Err(tokens.error);
    }
    var ast := Parser.Parse(tokens.value);
    if ast.Err? {
      return Err(ast.error);
    }
    var newAst := Transformer.Transform(ast.value);
    r := Ok(CodeGenerator.GenerateProgram(newAst));
  }

  // ---------------------------------------------------------------------
  // Source programs the compiler handles
  // ---------------------------------------------------------------------

  /** A source expression made of numerals and calls with letter names. */
  predicate SourcePrintable(n: Parser.Node) {
    match n
    case NumberLiteral(v) => Tokenizer.IsNumeral(v)
    case StringLiteral(_) => false
    case CallExpression(name, ps) =>
      Tokenizer.IsName(name) && forall i :: 0 <= i < |ps| ==> SourcePrintable(ps[i])
  }

  predicate SourcePrintableProgram(p: Parser.Program) {
    forall i :: 0 <= i < |p.body| ==> SourcePrintable(p.body[i])
  }

  predicate AllWellFormed(ts: seq<Tokenizer.Token>) {
    forall i :: 0 <= i < |ts| ==> Tokenizer.WellFormed(ts[i])
  }

  lemma AllWellFormedAppend(a: seq<Tokenizer.Token>, b: seq<Tokenizer.Token>)
    requires AllWellFormed(a) && AllWellFormed(b)
    ensures AllWellFormed(a + b)
  {
    forall i | 0 <= i < |a + b| ensures Tokenizer.WellFormed((a + b)[i]) {
      if i < |a| { assert (a + b)[i] == a[i]; } else { assert (a + b)[i] == b[i - |a|]; }
    }
  }

  /** The tokens of a printable expression are well formed, and it has no leaf `)`. */
  lemma {:induction false} UnparseWellFormed(n: Parser.Node)
    requires SourcePrintable(n)
    ensures AllWellFormed(Parser.Unparse(n)) && Parser.Closable(n)
    decreases n, 1
  {
    match n
    case NumberLiteral(v) =>
      assert Tokenizer.IsDigit(v[0]);
    case CallExpression(name, ps) =>
      UnparseAllWellFormed(ps);
      var open := [Tokenizer.Token(Tokenizer.ParenToken, "("), Tokenizer.Token(Tokenizer.NameToken, name)];
      var close := [Tokenizer.Token(Tokenizer.ParenToken, ")")];
      AllWellFormedAppend(open, Parser.UnparseAll(ps));
      AllWellFormedAppend(open + Parser.UnparseAll(ps), close);
  }

  lemma {:induction false} UnparseAllWellFormed(ns: seq<Parser.Node>)
    requires forall i :: 0 <= i < |ns| ==> SourcePrintable(ns[i])
    ensures AllWellFormed(Parser.UnparseAll(ns))
    ensures forall i :: 0 <= i < |ns| ==> Parser.Closable(ns[i])
    decreases ns, 0
  {
    if ns != [] {
      UnparseWellFormed(ns[0]);
      forall i | 0 <= i < |ns[1..]| ensures SourcePrintable(ns[1..][i]) { assert ns[1..][i] == ns[i + 1]; }
      UnparseAllWellFormed(ns[1..]);
      AllWellFormedAppend(Parser.Unparse(ns[0]), Parser.UnparseAll(ns[1..]));
      forall i | 0 <= i < |ns| ensures Parser.Closable(ns[i]) {
        if i > 0 { assert ns[i] == ns[1..][i - 1]; }
      }
    }
  }

  /** Converting a printable source expression gives a printable target expression. */
  lemma {:induction false} ConvertPrintable(n: Parser.Node)
    requires SourcePrintable(n)
    ensures CodeGenerator.Printable(Transformer.Convert(n))
    decreases n
  {
    match n
    case NumberLiteral(_) =>
    case CallExpression(_, ps) =>
      var args := Transformer.Convert(n).arguments;
      forall i | 0 <= i < |args| ensures CodeGenerator.Printable(args[i]) {
        ConvertPrintable(ps[i]);
      }
  }

  /** Transforming a printable source program gives a printable target program. */
  lemma TransformPrintable(p: Parser.Program)
    requires SourcePrintableProgram(p)
    ensures CodeGenerator.PrintableProgram(Transformer.TransformProgram(p))
  {
    var q := Transformer.TransformProgram(p);
    forall i | 0 <= i < |q.body| ensures CodeGenerator.PrintableItem(q.body[i]) {
      ConvertPrintable(p.body[i]);
    }
  }

  /**
   * The string-literal case of the generator is never reached by the
   * compiler: the tokenizer makes no string token, so the parser makes no
   * string literal, and every item of the target tree has a rendering.
   */
  lemma CompiledNoString(input: string)
    requires Compiled(input).Ok?
    ensures Tokenizer.Lex(input).Ok? && Parser.ParseProgram(Tokenizer.Lex(input).value).Ok?
    ensures var q := Transformer.TransformProgram(Parser.ParseProgram(Tokenizer.Lex(input).value).value);
      forall i :: 0 <= i < |q.body| ==> Transformer.NoStringLiteral(q.body[i]) && CodeGenerator.Generate(q.body[i]).Some?
  {
    var ts := Tokenizer.Lex(input).value;
    Tokenizer.LexWellFormed(input);
    assert Parser.NoStringToken(ts) by {
      forall i | 0 <= i < |ts| ensures ts[i].kind != Tokenizer.StringToken { assert Tokenizer.WellFormed(ts[i]); }
    }
    var p := Parser.ParseProgram(ts).value;
    Parser.ParseProgramNoString(ts);
    Transformer.TransformNoString(p);
    var q := Transformer.TransformProgram(p);
    forall i | 0 <= i < |q.body| ensures CodeGenerator.Generate(q.body[i]).Some? {
      CodeGenerator.GenerateNoString(q.body[i]);
    }
  }

  // ---------------------------------------------------------------------
  // End to end
  // ---------------------------------------------------------------------

  /** The source text of a program: its tokens separated by spaces. */
  function SourceText(p: Parser.Program): string {
    Tokenizer.Unlex(Parser.UnparseAll(p.body))
  }

  /**
   * Compiling the text of a printable source program succeeds, and its
   * output is the rendering of the transformed program, from which the
   * transformed program can be read back.
   */
  lemma CompileSource(p: Parser.Program)
    requires SourcePrintableProgram(p)
    ensures Compiled(SourceText(p)) == Ok(CodeGenerator.GenerateProgram(Transformer.TransformProgram(p)))
    ensures CodeGenerator.ReadProgram(Compiled(SourceText(p)).value) == Some(Transformer.TransformProgram(p))
  {
    UnparseAllWellFormed(p.body);
    Tokenizer.LexUnlex(Parser.UnparseAll(p.body));
    Parser.ParseProgramUnparse(p);
    TransformPrintable(p);
    CodeGenerator.ReadProgramGenerate(Transformer.TransformProgram(p));
  }

  /**
   * Compiling carries the source program through to the output: two
   * printable source programs compile to the same text only if they are
   * the same program.
   */
  lemma CompileInjective(p: Parser.Program, q: Parser.Program)
    requires SourcePrintableProgram(p) && SourcePrintableProgram(q)
    requires Compiled(SourceText(p)) == Compiled(SourceText(q))
    ensures p == q
  {
    CompileSource(p);
    CompileSource(q);
    Transformer.UntransformTransform(p);
    Transformer.UntransformTransform(q);
  }

  /** A character outside the tokenizer's alphabet makes compilation fail at the first one. */
  lemma CompileRejectsStranger(input: string, k: nat)
    requires k < |input| && !Tokenizer.InAlphabet(input[k])
    requires forall j :: 0 <= j < k ==> Tokenizer.InAlphabet(input[j])
    ensures Compiled(input) == Err(UnrecognizedChar(input[k]))
  {
    Tokenizer.LexRejectsFirstStranger(input, k);
  }

  /**
   * Compiling the text of an expression cut off before its end fails: the
   * parser runs out of tokens.
   */
  lemma CompileTruncated(n: Parser.Node, k: nat)
    requires SourcePrintable(n)
    requires 0 < k < |Parser.Unparse(n)|
    ensures Compiled(Tokenizer.Unlex(Parser.Unparse(n)[..k])) == Err(UnexpectedEndOfInput)
  {
    var ts := Parser.Unparse(n);
    UnparseWellFormed(n);
    assert AllWellFormed(ts[..k]) by {
      forall i | 0 <= i < k ensures Tokenizer.WellFormed(ts[..k][i]) { assert ts[..k][i] == ts[i]; }
    }
    Tokenizer.LexUnlex(ts[..k]);
    assert Parser.TokensAt(ts, 0, ts) by { forall i | 0 <= i < |ts| ensures ts[0 + i] == ts[i] { } }
    Parser.ParseUnparse(n, ts, 0);
    Parser.ParseExprTruncated(ts, 0, k);
  }
}
