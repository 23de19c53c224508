/**
 * The tokenizer as compiler.js writes it, and the compiler's use of it on
 * the module's constant instead of its argument, kept beside the corrected
 * model to exhibit where the two differ. The stages after the tokenizer are
 * the ones of the corrected model.
 *
 * The tokenizer is an interpreter of its loops with a budget `fuel` of
 * loop iterations; `None` means the budget ran out before the loops ended.
 * A loop that returns `None` for every budget never returns its tokens:
 * either it spins, or it grows a string that the model does not bound and
 * the original's engine eventually refuses with a `RangeError`.
 * Past the end of the text, `input[current]` is `undefined`, which a
 * regular expression's `test` reads as the text "undefined".
 */
module AsWritten {
  import opened Common
  import opened Tokenizer
  import Compiler
  import Examples

  /** The module-level `input` constant the original tokenizer reads. */
  const ModuleInput := "(add 2 (subtract 4 2))"

  /**
   * `input[i]` as text: the one character at `i`; past the end, the text
   * "undefined", which starts with a letter and holds no digit, so there
   * the letter loop's test passes and the digit loop's fails.
   */
  function CharAt(s: string, i: nat): (r: string)
    ensures i < |s| ==> |r| == 1 && r[0] == s[i]
    ensures i >= |s| ==> r != [] && IsLetter(r[0]) && forall k :: 0 <= k < |r| ==> !IsDigit(r[k])
  {
    if i < |s| then [s[i]] else UndefinedHasNoDigit(); "undefined"
  }

  /**
   * `re.test(t)` for a one-character class `p`: some character of `t` is in
   * it, so on a single character it is `p` itself.
   */
  predicate Test(p: char -> bool, t: string)
    ensures Test(p, t) ==> t != []
    ensures |t| == 1 ==> (Test(p, t) <==> p(t[0]))
  {
    exists k :: 0 <= k < |t| && p(t[k])
  }

  /**
   * The outer loop at cursor `cur`, with `toks` pushed so far: tokens are
   * only ever pushed, and each one it pushes has a nonempty text.
   */
  function Outer(s: string, cur: nat, toks: seq<Token>, fuel: nat): (r: Option<seq<Token>>)
    ensures r.Some? ==> toks <= r.value
    ensures r.Some? ==> forall i :: |toks| <= i < |r.value| ==> r.value[i].name != []
    decreases fuel
  {
    if fuel == 0 then None
    else if cur >= |s| then Some(toks)
    else
      var c := s[cur];
      if IsParen(c) then Outer(s, cur + 1, toks + [Token(ParenToken, [c])], fuel - 1)
      else if Test(IsLetter, [c]) then Inner(s, IsLetter, NameToken, cur + 1, [c], toks, fuel - 1)
      else if Test(IsWhitespace, [c]) then Outer(s, cur + 1, toks, fuel - 1)
      else if Test(IsDigit, [c]) then Inner(s, IsDigit, NumberToken, cur + 1, [c], toks, fuel - 1)
      else Outer(s, cur, toks, fuel - 1)
  }

  /**
   * An inner loop collecting a run of `p` characters into `value`: when it
   * ends it has pushed a token, and if `value` was nonempty so far, every
   * token pushed from here on has a nonempty text.
   */
  function Inner(s: string, p: char -> bool, kind: TokenKind, cur: nat, value: string, toks: seq<Token>, fuel: nat)
    : (r: Option<seq<Token>>)
    ensures r.Some? ==> |toks| < |r.value| && toks <= r.value
    ensures r.Some? && value != [] ==> forall i :: |toks| <= i < |r.value| ==> r.value[i].name != []
    decreases fuel
  {
    if fuel == 0 then None
    else if Test(p, CharAt(s, cur)) then Inner(s, p, kind, cur + 1, value + CharAt(s, cur), toks, fuel - 1)
    else Outer(s, cur, toks + [Token(kind, value)], fuel - 1)
  }

  /** `tokenizer(s)` as written, given `fuel` loop iterations. */
  function TokenizeAsWritten(s: string, fuel: nat): (r: Option<seq<Token>>)
    ensures r.Some? ==> forall i :: 0 <= i < |r.value| ==> r.value[i].name != []
  {
    Outer(s, 0, [], fuel)
  }

  // ---------------------------------------------------------------------
  // A letter run that reaches the end of the text
  // ---------------------------------------------------------------------

  /**
   * Once the letter loop's cursor is past the end, each step appends
   * "undefined" to `value`: no budget is enough.
   */
  lemma {:induction false} LetterLoopPastEnd(s: string, cur: nat, value: string, toks: seq<Token>, fuel: nat)
    requires cur >= |s|
    ensures Inner(s, IsLetter, NameToken, cur, value, toks, fuel) == None
    decreases fuel
  {
    if fuel > 0 {
      assert IsLetter(CharAt(s, cur)[0]);
      LetterLoopPastEnd(s, cur + 1, value + CharAt(s, cur), toks, fuel - 1);
    }
  }

  /** A letter loop whose run goes on to the end of the text returns `None` for every budget. */
  lemma {:induction false} LetterLoopToEnd(s: string, cur: nat, value: string, toks: seq<Token>, fuel: nat)
    requires forall k :: cur <= k < |s| ==> IsLetter(s[k])
    ensures Inner(s, IsLetter, NameToken, cur, value, toks, fuel) == None
    decreases |s| - cur + fuel
  {
    if cur >= |s| {
      LetterLoopPastEnd(s, cur, value, toks, fuel);
    } else if fuel > 0 {
      assert IsLetter(CharAt(s, cur)[0]);
      LetterLoopToEnd(s, cur + 1, value + CharAt(s, cur), toks, fuel - 1);
    }
  }

  /** Text that ends in letters, reached by the outer loop, is never tokenized. */
  lemma OuterLettersToEnd(s: string, cur: nat, toks: seq<Token>, fuel: nat)
    requires cur < |s|
    requires forall k :: cur <= k < |s| ==> IsLetter(s[k])
    ensures Outer(s, cur, toks, fuel) == None
  {
    if fuel > 0 {
      assert Test(IsLetter, [s[cur]]) by { assert [s[cur]][0] == s[cur]; }
      LetterLoopToEnd(s, cur + 1, [s[cur]], toks, fuel - 1);
    }
  }

  /**
   * As written, tokenizing "a" gives no tokens for any budget; the corrected
   * tokenizer gives one name token.
   */
  lemma LetterAtEndHangs(fuel: nat)
    ensures TokenizeAsWritten("a", fuel) == None
    ensures Lex("a") == Ok([Token(NameToken, "a")])
  {
    OuterLettersToEnd("a", 0, [], fuel);
    LexOne(Token(NameToken, "a"));
  }

  // ---------------------------------------------------------------------
  // A character outside the alphabet
  // ---------------------------------------------------------------------

  /** At a character outside the alphabet the outer loop spins without moving. */
  lemma {:induction false} OuterStuck(s: string, cur: nat, toks: seq<Token>, fuel: nat)
    requires cur < |s| && !InAlphabet(s[cur])
    ensures Outer(s, cur, toks, fuel) == None
    decreases fuel
  {
    if fuel > 0 {
      OuterStuck(s, cur, toks, fuel - 1);
    }
  }

  /** As written, tokenizing "+" never ends; the corrected tokenizer rejects the `+`. */
  lemma StrangerHangs(fuel: nat)
    ensures TokenizeAsWritten("+", fuel) == None
    ensures Lex("+") == Err(UnrecognizedChar('+'))
  {
    OuterStuck("+", 0, [], fuel);
    LexRejectsFirstStranger("+", 0);
  }

  // ---------------------------------------------------------------------
  // Everywhere else the two tokenizers agree
  // ---------------------------------------------------------------------

  lemma UndefinedHasNoDigit()
    ensures !Test(IsDigit, "undefined")
  {
    var u := "undefined";
    forall k | 0 <= k < |u| ensures !IsDigit(u[k]) {
      assert u[k] in {'u', 'n', 'd', 'e', 'f', 'i'};
    }
  }

  /**
   * A run of `p` characters ends at `e`: the character there fails `p`, or
   * `e` is the end of the text and "undefined" fails the test.
   */
  predicate RunEnds(s: string, p: char -> bool, e: nat) {
    (e == |s| && !Test(p, "undefined")) || (e < |s| && !p(s[e]))
  }

  /**
   * An inner loop that has read `s[start..cur]` of the run `s[start..e]`
   * of `p` characters reads the rest of the run and hands it to the outer
   * loop, provided the run ends at a character outside `p`, or at the end
   * of the text where "undefined" fails the test.
   */
  lemma {:induction false} InnerRun(s: string, p: char -> bool, kind: TokenKind, start: nat, cur: nat, e: nat, value: string, t: Token, toks: seq<Token>, fuel: nat, left: nat)
    requires start < cur <= e <= |s| && value == s[start..cur] && t == Token(kind, s[start..e])
    requires forall k :: start <= k < e ==> p(s[k])
    requires RunEnds(s, p, e)
    requires fuel == left + (e - cur) + 1
    ensures Inner(s, p, kind, cur, value, toks, fuel) == Outer(s, e, toks + [t], left)
    decreases e - cur
  {
    if cur < e {
      assert value + CharAt(s, cur) == s[start..cur + 1];
      InnerRun(s, p, kind, start, cur + 1, e, value + CharAt(s, cur), t, toks, fuel - 1, left);
    }
  }

  /**
   * On text of the alphabet that does not end in a letter, the outer loop
   * with enough iterations produces what the corrected tokenizer does.
   */
  lemma {:induction false} OuterAgrees(s: string, cur: nat, toks: seq<Token>, fuel: nat)
    requires cur <= |s|
    requires forall k :: cur <= k < |s| ==> InAlphabet(s[k])
    requires |s| == 0 || !IsLetter(s[|s| - 1])
    requires fuel > 2 * (|s| - cur)
    ensures Lex(s[cur..]).Ok? && Outer(s, cur, toks, fuel) == Some(toks + Lex(s[cur..]).value)
    decreases |s| - cur, 2
  {
    if cur == |s| {
      assert s[cur..] == [];
      assert toks + [] == toks;
    } else {
      var c := s[cur];
      if IsParen(c) {
        ParenStep(s, cur, toks, fuel);
      } else if IsLetter(c) {
        LetterRun(s, cur, toks, fuel);
      } else if IsWhitespace(c) {
        SpaceStep(s, cur, toks, fuel);
      } else {
        DigitRun(s, cur, toks, fuel);
      }
    }
  }

  /** The parenthesis case of `OuterAgrees`. */
  lemma {:induction false} ParenStep(s: string, cur: nat, toks: seq<Token>, fuel: nat)
    requires cur < |s| && IsParen(s[cur])
    requires forall k :: cur <= k < |s| ==> InAlphabet(s[k])
    requires !IsLetter(s[|s| - 1])
    requires fuel > 2 * (|s| - cur)
    ensures Lex(s[cur..]).Ok?
    ensures Outer(s, cur + 1, toks + [Token(ParenToken, [s[cur]])], fuel - 1) == Some(toks + Lex(s[cur..]).value)
    decreases |s| - cur, 1
  {
    var t := Token(ParenToken, [s[cur]]);
    LexParenStep(s, cur);
    OuterAgrees(s, cur + 1, toks + [t], fuel - 1);
    RunJoin(Lex(s[cur..]), Lex(s[cur + 1..]), toks, t);
  }

  /** The whitespace case of `OuterAgrees`. */
  lemma {:induction false} SpaceStep(s: string, cur: nat, toks: seq<Token>, fuel: nat)
    requires cur < |s| && !IsParen(s[cur]) && !IsLetter(s[cur]) && IsWhitespace(s[cur])
    requires forall k :: cur <= k < |s| ==> InAlphabet(s[k])
    requires !IsLetter(s[|s| - 1])
    requires fuel > 2 * (|s| - cur)
    ensures Lex(s[cur..]).Ok?
    ensures Outer(s, cur + 1, toks, fuel - 1) == Some(toks + Lex(s[cur..]).value)
    decreases |s| - cur, 1
  {
    LexSpaceStep(s, cur);
    OuterAgrees(s, cur + 1, toks, fuel - 1);
  }

  /** The letter case of `OuterAgrees`. */
  lemma {:induction false} LetterRun(s: string, cur: nat, toks: seq<Token>, fuel: nat)
    requires cur < |s| && IsLetter(s[cur])
    requires forall k :: cur <= k < |s| ==> InAlphabet(s[k])
    requires !IsLetter(s[|s| - 1])
    requires fuel > 2 * (|s| - cur)
    ensures Lex(s[cur..]).Ok?
    ensures Inner(s, IsLetter, NameToken, cur + 1, [s[cur]], toks, fuel - 1) == Some(toks + Lex(s[cur..]).value)
    decreases |s| - cur, 1
  {
    RunFacts(s, cur, IsLetter);
    var e := cur + RunLength(s[cur..], IsLetter);
    LexRunStep(s, cur, e);
    RunStep(s, cur, e, toks, fuel, IsLetter, NameToken);
  }

  /** The digit case of `OuterAgrees`. */
  lemma {:induction false} DigitRun(s: string, cur: nat, toks: seq<Token>, fuel: nat)
    requires cur < |s| && !IsLetter(s[cur]) && IsDigit(s[cur])
    requires forall k :: cur <= k < |s| ==> InAlphabet(s[k])
    requires !IsLetter(s[|s| - 1])
    requires fuel > 2 * (|s| - cur)
    ensures Lex(s[cur..]).Ok?
    ensures Inner(s, IsDigit, NumberToken, cur + 1, [s[cur]], toks, fuel - 1) == Some(toks + Lex(s[cur..]).value)
    decreases |s| - cur, 1
  {
    UndefinedHasNoDigit();
    RunFacts(s, cur, IsDigit);
    var e := cur + RunLength(s[cur..], IsDigit);
    LexRunStep(s, cur, e);
    RunStep(s, cur, e, toks, fuel, IsDigit, NumberToken);
  }

  /** The run of `p` characters at `cur`, as indices into `s`. */
  lemma RunFacts(s: string, cur: nat, p: char -> bool)
    requires cur < |s| && p(s[cur])
    ensures var e := cur + RunLength(s[cur..], p);
      cur < e <= |s| && (forall k :: cur <= k < e ==> p(s[k])) && (e == |s| || !p(s[e]))
  {
    var n := RunLength(s[cur..], p);
    var e := cur + n;
    assert s[cur..][0] == s[cur];
    forall k | cur <= k < e ensures p(s[k]) { assert s[cur..][k - cur] == s[k]; }
    if e < |s| { assert s[cur..][n] == s[e]; }
  }

  /** The run case of `OuterAgrees`: the run `s[cur..e]` is one token. */
  lemma {:induction false} RunStep(s: string, cur: nat, e: nat, toks: seq<Token>, fuel: nat, p: char -> bool, kind: TokenKind)
    requires cur < e <= |s|
    requires forall k :: cur <= k < e ==> p(s[k])
    requires RunEnds(s, p, e)
    requires forall k :: e <= k < |s| ==> InAlphabet(s[k])
    requires !IsLetter(s[|s| - 1])
    requires fuel > 2 * (|s| - cur)
    requires Lex(s[cur..]) == Prepend([Token(kind, s[cur..e])], Lex(s[e..]))
    ensures Lex(s[cur..]).Ok?
    ensures Inner(s, p, kind, cur + 1, [s[cur]], toks, fuel - 1) == Some(toks + Lex(s[cur..]).value)
    decreases |s| - cur, 0
  {
    var t := Token(kind, s[cur..e]);
    var left := fuel - (e - cur) - 1;
    RunFromStart(s, p, kind, cur, e, t, toks, fuel - 1, left);
    AfterRun(s, cur, e, t, toks, left);
  }

  /** The outer loop after the run `s[cur..e]`, with the run's token pushed. */
  lemma {:induction false} AfterRun(s: string, cur: nat, e: nat, t: Token, toks: seq<Token>, left: nat)
    requires cur < e <= |s|
    requires forall k :: e <= k < |s| ==> InAlphabet(s[k])
    requires !IsLetter(s[|s| - 1])
    requires left > 2 * (|s| - e)
    requires Lex(s[cur..]) == Prepend([t], Lex(s[e..]))
    ensures Lex(s[cur..]).Ok? && Outer(s, e, toks + [t], left) == Some(toks + Lex(s[cur..]).value)
    decreases |s| - e, 3
  {
    OuterAgrees(s, e, toks + [t], left);
    RunJoin(Lex(s[cur..]), Lex(s[e..]), toks, t);
  }

  /** The inner loop entered after the first character of the run `s[cur..e]`. */
  lemma RunFromStart(s: string, p: char -> bool, kind: TokenKind, cur: nat, e: nat, t: Token, toks: seq<Token>, fuel: nat, left: nat)
    requires cur < e <= |s| && t == Token(kind, s[cur..e])
    requires forall k :: cur <= k < e ==> p(s[k])
    requires RunEnds(s, p, e)
    requires fuel == left + (e - cur)
    ensures Inner(s, p, kind, cur + 1, [s[cur]], toks, fuel) == Outer(s, e, toks + [t], left)
  {
    assert s[cur..cur + 1] == [s[cur]];
    InnerRun(s, p, kind, cur, cur + 1, e, [s[cur]], t, toks, fuel, left);
  }

  /** The tokens before the run, the run's token, and the tokens after it. */
  lemma RunJoin(whole: Result<seq<Token>>, after: Result<seq<Token>>, toks: seq<Token>, t: Token)
    requires after.Ok? && whole == Prepend([t], after)
    ensures whole.Ok? && (toks + [t]) + after.value == toks + whole.value
  {
  }

  /**
   * On text of the alphabet that does not end in a letter, the tokenizer as
   * written ends, given enough iterations, with the corrected tokenizer's result.
   */
  lemma TokenizeAgrees(s: string, fuel: nat)
    requires forall k :: 0 <= k < |s| ==> InAlphabet(s[k])
    requires |s| == 0 || !IsLetter(s[|s| - 1])
    requires fuel > 2 * |s|
    ensures Lex(s).Ok? && TokenizeAsWritten(s, fuel) == Some(Lex(s).value)
  {
    OuterAgrees(s, 0, [], fuel);
    assert s[0..] == s;
    assert [] + Lex(s).value == Lex(s).value;
  }

  // ---------------------------------------------------------------------
  // The ignored argument
  // ---------------------------------------------------------------------

  /**
   * `compiler(input)` as written, given `fuel` iterations of the tokenizer's
   * loops: the tokenizer as written runs on the module's constant, not on
   * `input`, and its tokens go through the later stages.
   */
  function CompilerAsWritten(input: string, fuel: nat): (r: Option<Result<string>>)
    ensures fuel > 2 * |ModuleInput| ==> r == Some(Ok("add(2, subtract(4, 2))"))
  {
    ModuleInputCompiles(fuel);
    match TokenizeAsWritten(ModuleInput, fuel)
    case None => None
    case Some(tokens) => Some(Compiler.CompiledTokens(tokens))
  }

  /** With enough iterations the module's constant compiles as the corrected compiler compiles it. */
  lemma ModuleInputCompiles(fuel: nat)
    ensures fuel > 2 * |ModuleInput| ==> TokenizeAsWritten(ModuleInput, fuel).Some?
    ensures fuel > 2 * |ModuleInput| ==> Compiler.CompiledTokens(TokenizeAsWritten(ModuleInput, fuel).value) == Ok("add(2, subtract(4, 2))")
  {
    if fuel > 2 * |ModuleInput| {
      var s := ModuleInput;
      assert forall k :: 0 <= k < |s| ==> InAlphabet(s[k]);
      TokenizeAgrees(s, fuel);
      assert s == Examples.Input;
      Examples.CompilerExample();
    }
  }

  /**
   * As written, `compiler("(foo)")` compiles the module's constant instead
   * of its argument; the corrected compiler compiles the argument.
   */
  lemma ArgumentIgnored(fuel: nat)
    requires fuel > 2 * |ModuleInput|
    ensures CompilerAsWritten("(foo)", fuel) == Some(Ok("add(2, subtract(4, 2))"))
    ensures Compiler.Compiled("(foo)") == Ok("foo()")
  {
    Examples.CompileEmptyCall();
  }
}
