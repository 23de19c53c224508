/**
 * The parser (compiler.js, `parser` and its inner `walk`): recursive
 * descent over the token sequence with a shared cursor, building the
 * source tree
 *
 *   expr := number | string | `(` anyToken expr* `)`
 *   program := expr*   (until the tokens run out)
 *
 * `ParseExpr`, `ParseParams` and `ParseBody` are the specification;
 * `Walk` and `Parse` are the loops of the original, proved equal to them.
 * The cursor is threaded explicitly: every parse returns the position
 * after what it consumed.
 */
module Parser {
  import opened Common
  import opened Tokenizer

  /** The source tree's node kinds below the root. */
  datatype Node =
    | NumberLiteral(value: string)
    | StringLiteral(value: string)
    | CallExpression(name: string, params: seq<Node>)

  /** The root: `{type: 'Program', body}`. */
  datatype Program = Program(body: seq<Node>)

  /** `Prepend` for a result that also carries a cursor. */
  function PrependParams(ns: seq<Node>, r: Result<(seq<Node>, nat)>): Result<(seq<Node>, nat)> {
    match r
    case Ok((rest, next)) => Ok((ns + rest, next))
    case Err(e) => Err(e)
  }

  /**
   * One expression starting at `pos`, with the cursor after it. A number
   * or string token is a leaf; `(` is a call whose head is the next token,
   * whatever its kind; anything else is rejected. Every success consumes
   * at least one token.
   */
  function ParseExpr(ts: seq<Token>, pos: nat): (r: Result<(Node, nat)>)
    requires pos <= |ts|
    ensures r.Ok? ==> pos < r.value.1 <= |ts|
    decreases |ts| - pos, 0
  {
    if pos == |ts| then Err(UnexpectedEndOfInput)
    else
      var t := ts[pos];
      if t.kind == NumberToken then Ok((NumberLiteral(t.name), pos + 1))
      else if t.kind == StringToken then Ok((StringLiteral(t.name), pos + 1))
      else if t.kind == ParenToken && t.name == "(" then
        if pos + 1 == |ts| then Err(UnexpectedEndOfInput)
        else
          match ParseParams(ts, pos + 2)
          case Ok((ps, next)) => Ok((CallExpression(ts[pos + 1].name, ps), next))
          case Err(e) => Err(e)
      else Err(UnexpectedToken(pos))
  }

  /**
   * The arguments of a call, read until a token whose text is `)`, with the
   * cursor after that `)`.
   */
  function ParseParams(ts: seq<Token>, pos: nat): (r: Result<(seq<Node>, nat)>)
    requires pos <= |ts|
    ensures r.Ok? ==> pos < r.value.1 <= |ts|
    decreases |ts| - pos, 1
  {
    if pos == |ts| then Err(UnexpectedEndOfInput)
    else if ts[pos].name == ")" then Ok(([], pos + 1))
    else
      match ParseExpr(ts, pos)
      case Err(e) => Err(e)
      case Ok((n, next)) => PrependParams([n], ParseParams(ts, next))
  }

  /** The top-level expressions from `pos` until the tokens run out. */
  function ParseBody(ts: seq<Token>, pos: nat): Result<seq<Node>>
    requires pos <= |ts|
    decreases |ts| - pos
  {
    if pos == |ts| then Ok([])
    else
      match ParseExpr(ts, pos)
      case Err(e) => Err(e)
      case Ok((n, next)) => Prepend([n], ParseBody(ts, next))
  }

  function ParseProgram(ts: seq<Token>): Result<Program> {
    match ParseBody(ts, 0)
    case Ok(body) => Ok(Program(body))
    case Err(e) => Err(e)
  }

  /**
   * `walk`: read one expression at `current`. Where the original reads a
   * missing token it fails with `UnexpectedEndOfInput`; where it returns
   * `undefined` without moving the cursor (its caller then pushes `undefined` until the array or the heap can grow no more)
   * it fails with `UnexpectedToken`.
   */
  method Walk(ts: seq<Token>, current: nat) returns (r: Result<(Node, nat)>)
    requires current <= |ts|
    ensures r == ParseExpr(ts, current)
    decreases |ts| - current
  {
    if current == |ts| {
      return Err(UnexpectedEndOfInput);
    }
    var token := ts[current];
    if token.kind == NumberToken {
      return Ok((NumberLiteral(token.name), current + 1));
    } else if token.kind == StringToken {
      return Ok((StringLiteral(token.name), current + 1));
    } else if token.kind == ParenToken && token.name == "(" {
      var cur := current + 1;
      if cur == |ts| {
        return Err(UnexpectedEndOfInput);
      }
      var name := ts[cur].name;
      var params: seq<Node> := [];
      cur := cur + 1;
      PrependNoNodes(ParseParams(ts, cur));
      while cur < |ts| && ts[cur].name != ")"
        invariant current + 2 <= cur <= |ts|
        invariant ParseParams(ts, current + 2) == PrependParams(params, ParseParams(ts, cur))
        decreases |ts| - cur
      {
        var res := Walk(ts, cur);
        if res.Err? {
          return Err(res.error);
        }
        PrependParamsTwice(params, [res.value.0], ParseParams(ts, res.value.1));
        params := params + [res.value.0];
        cur := res.value.1;
      }
      if cur == |ts| {
        return Err(UnexpectedEndOfInput);
      }
      assert params + [] == params;
      cur := cur + 1;
      return Ok((CallExpression(name, params), cur));
    }
    return Err(UnexpectedToken(current));
  }

  /** `parser`: read top-level expressions until the tokens run out. */
  method Parse(ts: seq<Token>) returns (r: Result<Program>)
    ensures r == ParseProgram(ts)
  {
    var current := 0;
    var body: seq<Node> := [];
    PrependNothing(ParseBody(ts, 0));
    while current < |ts|
      invariant current <= |ts|
      invariant ParseBody(ts, 0) == Prepend(body, ParseBody(ts, current))
      decreases |ts| - current
    {
      var res := Walk(ts, current);
      if res.Err? {
        return Err(res.error);
      }
      PrependTwice(body, [res.value.0], ParseBody(ts, res.value.1));
      body := body + [res.value.0];
      current := res.value.1;
    }
    assert body + [] == body;
    return Ok(Program(body));
  }

  lemma PrependNoNodes(r: Result<(seq<Node>, nat)>)
    ensures PrependParams([], r) == r
  {
    if r.Ok? { assert [] + r.value.0 == r.value.0; }
  }

  lemma PrependParamsTwice(a: seq<Node>, b: seq<Node>, r: Result<(seq<Node>, nat)>)
    ensures PrependParams(a, PrependParams(b, r)) == PrependParams(a + b, r)
  {
    if r.Ok? { assert a + (b + r.value.0) == (a + b) + r.value.0; }
  }

  // ---------------------------------------------------------------------
  // String literals: the parser makes one only from a string token
  // ---------------------------------------------------------------------

  /** No `StringLiteral` anywhere in `n`. */
  predicate NoStringLiteral(n: Node) {
    match n
    case NumberLiteral(_) => true
    case StringLiteral(_) => false
    case CallExpression(_, ps) => forall i :: 0 <= i < |ps| ==> NoStringLiteral(ps[i])
  }

  predicate NoStringToken(ts: seq<Token>) {
    forall i :: 0 <= i < |ts| ==> ts[i].kind != StringToken
  }

  /** Tokens without a string token parse to an expression without a string literal. */
  lemma {:induction false} ParseExprNoString(ts: seq<Token>, pos: nat)
    requires pos <= |ts| && NoStringToken(ts) && ParseExpr(ts, pos).Ok?
    ensures NoStringLiteral(ParseExpr(ts, pos).value.0)
    decreases |ts| - pos, 0
  {
    var t := ts[pos];
    if t.kind == ParenToken && t.name == "(" {
      ParseParamsNoString(ts, pos + 2);
    }
  }

  lemma {:induction false} ParseParamsNoString(ts: seq<Token>, pos: nat)
    requires pos <= |ts| && NoStringToken(ts) && ParseParams(ts, pos).Ok?
    ensures var ps := ParseParams(ts, pos).value.0; forall i :: 0 <= i < |ps| ==> NoStringLiteral(ps[i])
    decreases |ts| - pos, 1
  {
    if ts[pos].name != ")" {
      var (n, next) := ParseExpr(ts, pos).value;
      ParseExprNoString(ts, pos);
      ParseParamsNoString(ts, next);
      NoStringCons(n, ParseParams(ts, next).value.0);
    }
  }

  lemma {:induction false} ParseBodyNoString(ts: seq<Token>, pos: nat)
    requires pos <= |ts| && NoStringToken(ts) && ParseBody(ts, pos).Ok?
    ensures var ns := ParseBody(ts, pos).value; forall i :: 0 <= i < |ns| ==> NoStringLiteral(ns[i])
    decreases |ts| - pos
  {
    if pos < |ts| {
      var (n, next) := ParseExpr(ts, pos).value;
      ParseExprNoString(ts, pos);
      ParseBodyNoString(ts, next);
      NoStringCons(n, ParseBody(ts, next).value);
    }
  }

  lemma NoStringCons(n: Node, rest: seq<Node>)
    requires NoStringLiteral(n) && forall i :: 0 <= i < |rest| ==> NoStringLiteral(rest[i])
    ensures forall i :: 0 <= i < |[n] + rest| ==> NoStringLiteral(([n] + rest)[i])
  {
    forall i | 0 <= i < |[n] + rest| ensures NoStringLiteral(([n] + rest)[i]) {
      if i > 0 { assert ([n] + rest)[i] == rest[i - 1]; }
    }
  }

  /** A program parsed from tokens without a string token holds no string literal. */
  lemma ParseProgramNoString(ts: seq<Token>)
    requires NoStringToken(ts) && ParseProgram(ts).Ok?
    ensures forall i :: 0 <= i < |ParseProgram(ts).value.body| ==> NoStringLiteral(ParseProgram(ts).value.body[i])
  {
    ParseBodyNoString(ts, 0);
  }

  // ---------------------------------------------------------------------
  // An inverse: printing a tree back as tokens
  // ---------------------------------------------------------------------

  /** The tokens of one expression. */
  function Unparse(n: Node): seq<Token>
    decreases n, 1
  {
    match n
    case NumberLiteral(v) => [Token(NumberToken, v)]
    case StringLiteral(v) => [Token(StringToken, v)]
    case CallExpression(name, ps) =>
      [Token(ParenToken, "("), Token(NameToken, name)] + UnparseAll(ps) + [Token(ParenToken, ")")]
  }

  /** The tokens of a sequence of expressions, in order. */
  function UnparseAll(ns: seq<Node>): seq<Token>
    decreases ns, 0
  {
    if ns == [] then [] else Unparse(ns[0]) + UnparseAll(ns[1..])
  }

  /**
   * No leaf has the text `)`: the parser ends an argument list at any token
   * with that text, whatever its kind, so such a leaf cannot be read back.
   */
  predicate Closable(n: Node) {
    match n
    case NumberLiteral(v) => v != ")"
    case StringLiteral(v) => v != ")"
    case CallExpression(_, ps) => forall i :: 0 <= i < |ps| ==> Closable(ps[i])
  }

  lemma FirstTokenNotClose(n: Node)
    requires Closable(n)
    ensures |Unparse(n)| > 0 && Unparse(n)[0].name != ")"
  {
  }

  /** The tokens `u` sit in `ts` from position `pos` on. */
  predicate TokensAt(ts: seq<Token>, pos: nat, u: seq<Token>) {
    pos + |u| <= |ts| && forall i :: 0 <= i < |u| ==> ts[pos + i] == u[i]
  }

  lemma TokensAtSplit(ts: seq<Token>, pos: nat, a: seq<Token>, b: seq<Token>)
    requires TokensAt(ts, pos, a + b)
    ensures TokensAt(ts, pos, a) && TokensAt(ts, pos + |a|, b)
  {
    forall i | 0 <= i < |a| ensures ts[pos + i] == a[i] { assert (a + b)[i] == a[i]; }
    forall i | 0 <= i < |b| ensures ts[pos + |a| + i] == b[i] { assert (a + b)[|a| + i] == b[i]; }
  }

  /** Parsing the tokens of an expression, wherever they sit, reads back that expression. */
  lemma {:induction false} ParseUnparse(n: Node, ts: seq<Token>, pos: nat)
    requires Closable(n) && TokensAt(ts, pos, Unparse(n))
    ensures ParseExpr(ts, pos) == Ok((n, pos + |Unparse(n)|))
    decreases n, 1
  {
    var u := Unparse(n);
    assert ts[pos + 0] == u[0];
    match n
    case NumberLiteral(_) =>
    case StringLiteral(_) =>
    case CallExpression(name, ps) =>
      var head, inner, close := [Token(ParenToken, "("), Token(NameToken, name)], UnparseAll(ps), [Token(ParenToken, ")")];
      assert u == head + inner + close;
      TokensAtSplit(ts, pos, head + inner, close);
      TokensAtSplit(ts, pos, head, inner);
      assert ts[pos + 1] == head[1];
      var end := pos + 2 + |inner|;
      assert ts[end] == close[0] by { assert ts[pos + |head + inner| + 0] == close[0]; }
      ParseUnparseAll(ps, ts, pos + 2);
      CallStep(ts, pos, ps, end + 1);
  }

  /** The same for the arguments of a call followed by the closing `)`. */
  lemma {:induction false} ParseUnparseAll(ns: seq<Node>, ts: seq<Token>, pos: nat)
    requires forall i :: 0 <= i < |ns| ==> Closable(ns[i])
    requires TokensAt(ts, pos, UnparseAll(ns))
    requires pos + |UnparseAll(ns)| < |ts| && ts[pos + |UnparseAll(ns)|].name == ")"
    ensures ParseParams(ts, pos) == Ok((ns, pos + |UnparseAll(ns)| + 1))
    decreases ns, 1
  {
    if ns != [] {
      ParseUnparseCons(ns, ts, pos, pos + |UnparseAll(ns)|);
    }
  }

  /** The nonempty case of `ParseUnparseAll`, with `end` the position of the `)`. */
  lemma {:induction false} ParseUnparseCons(ns: seq<Node>, ts: seq<Token>, pos: nat, end: nat)
    requires ns != [] && forall i :: 0 <= i < |ns| ==> Closable(ns[i])
    requires end == pos + |UnparseAll(ns)| && end < |ts|
    requires TokensAt(ts, pos, UnparseAll(ns)) && ts[end].name == ")"
    ensures ParseParams(ts, pos) == Ok((ns, end + 1))
    decreases ns, 0
  {
    var u0, rest := Unparse(ns[0]), UnparseAll(ns[1..]);
    assert UnparseAll(ns) == u0 + rest;
    TokensAtSplit(ts, pos, u0, rest);
    assert Closable(ns[0]);
    FirstTokenNotClose(ns[0]);
    assert ts[pos + 0] == u0[0];
    ParseUnparse(ns[0], ts, pos);
    forall i | 0 <= i < |ns[1..]| ensures Closable(ns[1..][i]) { assert ns[1..][i] == ns[i + 1]; }
    ParseUnparseAll(ns[1..], ts, pos + |u0|);
    ParamsStep(ts, pos, ns[0], pos + |u0|, ns[1..], end + 1);
    assert [ns[0]] + ns[1..] == ns;
  }

  /** A call: `(`, a head token, and an argument list ending before `end`. */
  lemma CallStep(ts: seq<Token>, pos: nat, ps: seq<Node>, end: nat)
    requires pos + 2 <= |ts| && ts[pos] == Token(ParenToken, "(")
    requires ParseParams(ts, pos + 2) == Ok((ps, end))
    ensures ParseExpr(ts, pos) == Ok((CallExpression(ts[pos + 1].name, ps), end))
  {
  }

  /** One argument followed by the rest of the list. */
  lemma ParamsStep(ts: seq<Token>, pos: nat, n: Node, next: nat, rest: seq<Node>, end: nat)
    requires pos < next <= |ts| && ts[pos].name != ")"
    requires ParseExpr(ts, pos) == Ok((n, next))
    requires ParseParams(ts, next) == Ok((rest, end))
    ensures ParseParams(ts, pos) == Ok(([n] + rest, end))
  {
  }

  /** One top-level expression followed by the rest of the body. */
  lemma BodyStep(ts: seq<Token>, pos: nat, n: Node, next: nat, rest: seq<Node>)
    requires pos < next <= |ts|
    requires ParseExpr(ts, pos) == Ok((n, next))
    requires ParseBody(ts, next) == Ok(rest)
    ensures ParseBody(ts, pos) == Ok([n] + rest)
  {
  }

  /** Parsing the tokens of a sequence of expressions up to the end reads back that sequence. */
  lemma {:induction false} ParseBodyUnparse(ns: seq<Node>, ts: seq<Token>, pos: nat)
    requires forall i :: 0 <= i < |ns| ==> Closable(ns[i])
    requires TokensAt(ts, pos, UnparseAll(ns)) && pos + |UnparseAll(ns)| == |ts|
    ensures ParseBody(ts, pos) == Ok(ns)
    decreases ns
  {
    if ns != [] {
      var u0, rest := Unparse(ns[0]), UnparseAll(ns[1..]);
      assert UnparseAll(ns) == u0 + rest;
      TokensAtSplit(ts, pos, u0, rest);
      assert Closable(ns[0]);
      ParseUnparse(ns[0], ts, pos);
      forall i | 0 <= i < |ns[1..]| ensures Closable(ns[1..][i]) { assert ns[1..][i] == ns[i + 1]; }
      ParseBodyUnparse(ns[1..], ts, pos + |u0|);
      BodyStep(ts, pos, ns[0], pos + |u0|, ns[1..]);
      assert [ns[0]] + ns[1..] == ns;
    }
  }

  /**
   * The parser is a left inverse of printing: the program body comes back
   * with one entry per top-level expression and every call's arguments in
   * their order.
   */
  lemma ParseProgramUnparse(p: Program)
    requires forall i :: 0 <= i < |p.body| ==> Closable(p.body[i])
    ensures ParseProgram(UnparseAll(p.body)) == Ok(p)
  {
    var ts := UnparseAll(p.body);
    assert TokensAt(ts, 0, ts) by { forall i | 0 <= i < |ts| ensures ts[0 + i] == ts[i] { } }
    ParseBodyUnparse(p.body, ts, 0);
  }

  // ---------------------------------------------------------------------
  // Unbalanced input: running out of tokens is an error, never a tree
  // ---------------------------------------------------------------------

  /** What an expression parse reads lies before its end cursor: later tokens do not matter. */
  lemma {:induction false} ParseExprPrefix(ts: seq<Token>, pos: nat, k: nat)
    requires pos <= |ts| && ParseExpr(ts, pos).Ok?
    requires ParseExpr(ts, pos).value.1 <= k <= |ts|
    ensures ParseExpr(ts[..k], pos) == ParseExpr(ts, pos)
    decreases |ts| - pos, 0
  {
    var t := ts[pos];
    assert ts[..k][pos] == t;
    if t.kind == ParenToken && t.name == "(" {
      assert ts[..k][pos + 1] == ts[pos + 1];
      ParseParamsPrefix(ts, pos + 2, k);
    }
  }

  lemma {:induction false} ParseParamsPrefix(ts: seq<Token>, pos: nat, k: nat)
    requires pos <= |ts| && ParseParams(ts, pos).Ok?
    requires ParseParams(ts, pos).value.1 <= k <= |ts|
    ensures ParseParams(ts[..k], pos) == ParseParams(ts, pos)
    decreases |ts| - pos, 1
  {
    assert ts[..k][pos] == ts[pos];
    if ts[pos].name != ")" {
      var next := ParseExpr(ts, pos).value.1;
      ParseExprPrefix(ts, pos, k);
      ParseParamsPrefix(ts, next, k);
    }
  }

  /**
   * Cutting the tokens anywhere inside an expression makes its parse fail
   * with `UnexpectedEndOfInput`: an unclosed call, or a `(` with nothing
   * after it, never yields a truncated tree.
   */
  lemma {:induction false} ParseExprTruncated(ts: seq<Token>, pos: nat, k: nat)
    requires pos <= |ts| && ParseExpr(ts, pos).Ok?
    requires pos <= k < ParseExpr(ts, pos).value.1
    ensures ParseExpr(ts[..k], pos) == Err(UnexpectedEndOfInput)
    decreases |ts| - pos, 0
  {
    if k > pos {
      var t := ts[pos];
      assert ts[..k][pos] == t;
      if k > pos + 1 {
        assert ts[..k][pos + 1] == ts[pos + 1];
        ParseParamsTruncated(ts, pos + 2, k);
      }
    }
  }

  lemma {:induction false} ParseParamsTruncated(ts: seq<Token>, pos: nat, k: nat)
    requires pos <= |ts| && ParseParams(ts, pos).Ok?
    requires pos <= k < ParseParams(ts, pos).value.1
    ensures ParseParams(ts[..k], pos) == Err(UnexpectedEndOfInput)
    decreases |ts| - pos, 1
  {
    if k > pos {
      assert ts[..k][pos] == ts[pos];
      var next := ParseExpr(ts, pos).value.1;
      if k < next {
        ParseExprTruncated(ts, pos, k);
      } else {
        ParseExprPrefix(ts, pos, k);
        ParseParamsTruncated(ts, next, k);
      }
    }
  }
}
