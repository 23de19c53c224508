/**
 * The tokenizer (compiler.js, `tokenizer`): turns the source text into a
 * flat sequence of tokens, one per parenthesis, one per maximal run of
 * lower-case letters, one per maximal run of digits, none for whitespace.
 *
 * `Lex` is the specification (a function over the remaining text) and
 * `Tokenize` is the cursor loop of the original, proved equal to it.
 */
module Tokenizer {
  import opened Common

  /** The `type` field of a token object. The tokenizer never emits `StringToken`. */
  datatype TokenKind = ParenToken | NameToken | NumberToken | StringToken

  /** A token object `{type, name}`: `name` holds the token's text. */
  datatype Token = Token(kind: TokenKind, name: string)

  predicate IsParen(c: char) { c == '(' || c == ')' }

  /** The character class `[a-z]`. */
  predicate IsLetter(c: char) { 'a' <= c <= 'z' }

  /** The character class `[0-9]`. */
  predicate IsDigit(c: char) { '0' <= c <= '9' }

  /**
   * The character class `\s` of ECMAScript regular expressions: the
   * WhiteSpace and LineTerminator code points, none of them a parenthesis,
   * a letter or a digit.
   */
  predicate IsWhitespace(c: char)
    ensures IsWhitespace(c) ==> !IsParen(c) && !IsLetter(c) && !IsDigit(c)
  {
    || c == '\t' || c == '\n' || c == '\U{000B}' || c == '\U{000C}' || c == '\r'
    || c == ' ' || c == '\U{00A0}' || c == '\U{1680}'
    || ('\U{2000}' <= c <= '\U{200A}')
    || c == '\U{2028}' || c == '\U{2029}' || c == '\U{202F}' || c == '\U{205F}'
    || c == '\U{3000}' || c == '\U{FEFF}'
  }

  /** The characters the tokenizer has a branch for. */
  predicate InAlphabet(c: char) {
    IsParen(c) || IsLetter(c) || IsWhitespace(c) || IsDigit(c)
  }

  /** Length of the longest prefix of `s` whose characters all satisfy `p`. */
  function RunLength(s: string, p: char -> bool): (n: nat)
    ensures n <= |s|
    ensures forall k :: 0 <= k < n ==> p(s[k])
    ensures n == |s| || !p(s[n])
  {
    if s == [] || !p(s[0]) then 0 else 1 + RunLength(s[1..], p)
  }

  /** What one turn of the tokenizer loop does with the text in front of the cursor. */
  datatype Scan = Skip | Emit(token: Token, len: nat) | Reject(ch: char)

  /**
   * One turn of the loop, with the branches in the source's order: a
   * parenthesis, a run of letters, a whitespace character, a run of digits,
   * otherwise the character is rejected.
   */
  function ScanFirst(s: string): (sc: Scan)
    requires s != []
    ensures sc.Emit? ==> 0 < sc.len <= |s| && sc.token.name == s[..sc.len]
    ensures sc.Skip? <==> IsWhitespace(s[0])
    ensures sc.Reject? <==> !InAlphabet(s[0])
    ensures sc.Reject? ==> sc.ch == s[0]
  {
    if IsParen(s[0]) then Emit(Token(ParenToken, [s[0]]), 1)
    else if IsLetter(s[0]) then
      var n := RunLength(s, IsLetter);
      Emit(Token(NameToken, s[..n]), n)
    else if IsWhitespace(s[0]) then Skip
    else if IsDigit(s[0]) then
      var n := RunLength(s, IsDigit);
      Emit(Token(NumberToken, s[..n]), n)
    else Reject(s[0])
  }

  /**
   * The tokens of `s`, scanning from its first character; the first
   * character outside the alphabet is an error.
   */
  function Lex(s: string): Result<seq<Token>>
    decreases |s|
  {
    if s == [] then Ok([])
    else
      match ScanFirst(s)
      case Skip => Lex(s[1..])
      case Emit(t, n) => Prepend([t], Lex(s[n..]))
      case Reject(c) => Err(UnrecognizedChar(c))
  }

  /**
   * The tokenizer loop: a cursor over `s`, one branch per character class,
   * an inner loop for each run of letters or digits.
   */
  method Tokenize(s: string) returns (r: Result<seq<Token>>)
    ensures r == Lex(s)
  {
    var current := 0;
    var tokens: seq<Token> := [];
    PrependNothing(Lex(s));
    while current < |s|
      invariant 0 <= current <= |s|
      invariant Lex(s) == Prepend(tokens, Lex(s[current..]))
    {
      var ch := s[current];
      if ch == '(' || ch == ')' {
        LexParenStep(s, current);
        PrependTwice(tokens, [Token(ParenToken, [ch])], Lex(s[current + 1..]));
        tokens := tokens + [Token(ParenToken, [ch])];
        current := current + 1;
        continue;
      }
      if IsLetter(ch) {
        var value, next := ReadRun(s, current, IsLetter);
        LexRunStep(s, current, next);
        PrependTwice(tokens, [Token(NameToken, value)], Lex(s[next..]));
        tokens := tokens + [Token(NameToken, value)];
        current := next;
        continue;
      }
      if IsWhitespace(ch) {
        LexSpaceStep(s, current);
        current := current + 1;
        continue;
      }
      if IsDigit(ch) {
        var value, next := ReadRun(s, current, IsDigit);
        LexRunStep(s, current, next);
        PrependTwice(tokens, [Token(NumberToken, value)], Lex(s[next..]));
        tokens := tokens + [Token(NumberToken, value)];
        current := next;
        continue;
      }
      LexErrorStep(s, current);
      return Err(UnrecognizedChar(ch));
    }
    assert s[current..] == [] && tokens + [] == tokens;
    return Ok(tokens);
  }

  /**
   * The inner loops of the tokenizer: extend the token text from `start`
   * while the next character is still in the class `p`.
   */
  method ReadRun(s: string, start: nat, p: char -> bool) returns (value: string, end: nat)
    requires start < |s| && p(s[start])
    ensures start < end <= |s| && end == start + RunLength(s[start..], p)
    ensures value == s[start..end]
  {
    value := [s[start]];
    end := start + 1;
    while end < |s| && p(s[end])
      invariant start < end <= |s|
      invariant value == s[start..end]
      invariant forall k :: start <= k < end ==> p(s[k])
    {
      value := value + [s[end]];
      end := end + 1;
    }
    RunIsMaximal(s[start..], p, end - start);
  }

  /** A maximal prefix run is unique: any prefix length that is maximal is `RunLength`. */
  lemma RunIsMaximal(s: string, p: char -> bool, n: nat)
    requires n <= |s|
    requires forall k :: 0 <= k < n ==> p(s[k])
    requires n == |s| || !p(s[n])
    ensures RunLength(s, p) == n
  {
  }

  lemma LexParenStep(s: string, i: nat)
    requires i < |s| && IsParen(s[i])
    ensures Lex(s[i..]) == Prepend([Token(ParenToken, [s[i]])], Lex(s[i + 1..]))
  {
    assert s[i..][1..] == s[i + 1..];
  }

  lemma LexSpaceStep(s: string, i: nat)
    requires i < |s| && !IsParen(s[i]) && !IsLetter(s[i]) && IsWhitespace(s[i])
    ensures Lex(s[i..]) == Lex(s[i + 1..])
  {
    assert s[i..][1..] == s[i + 1..];
  }

  lemma LexErrorStep(s: string, i: nat)
    requires i < |s| && !InAlphabet(s[i])
    ensures Lex(s[i..]) == Err(UnrecognizedChar(s[i]))
  {
  }

  /** A run that the tokenizer reads as one name or number token. */
  lemma LexRunStep(s: string, i: nat, j: nat)
    requires i < j <= |s|
    requires IsLetter(s[i]) ==> j == i + RunLength(s[i..], IsLetter)
    requires !IsLetter(s[i]) && IsDigit(s[i]) ==> j == i + RunLength(s[i..], IsDigit)
    requires IsLetter(s[i]) || IsDigit(s[i])
    ensures Lex(s[i..]) == Prepend([Token(if IsLetter(s[i]) then NameToken else NumberToken, s[i..j])], Lex(s[j..]))
  {
    var u := s[i..];
    var t := Token(if IsLetter(s[i]) then NameToken else NumberToken, s[i..j]);
    assert u[0] == s[i];
    assert u[..j - i] == s[i..j];
    assert ScanFirst(u) == Emit(t, j - i);
    LexEmit(u, t, j - i);
    assert u[j - i..] == s[j..];
  }

  lemma LexEmit(u: string, t: Token, n: nat)
    requires u != [] && ScanFirst(u) == Emit(t, n)
    ensures Lex(u) == Prepend([t], Lex(u[n..]))
  {
  }

  // ---------------------------------------------------------------------
  // Properties of the token sequence
  // ---------------------------------------------------------------------

  /**
   * The shapes the tokenizer can emit: a paren token holds exactly one
   * parenthesis, a name token a non-empty run of letters, a number token a
   * non-empty run of digits; no string token.
   */
  predicate WellFormed(t: Token) {
    match t.kind
    case ParenToken => t.name == "(" || t.name == ")"
    case NameToken => IsName(t.name)
    case NumberToken => IsNumeral(t.name)
    case StringToken => false
  }

  /** A nonempty run of digits. */
  predicate IsNumeral(s: string) {
    |s| > 0 && forall k :: 0 <= k < |s| ==> IsDigit(s[k])
  }

  /** A nonempty run of letters. */
  predicate IsName(s: string) {
    |s| > 0 && forall k :: 0 <= k < |s| ==> IsLetter(s[k])
  }

  /** Every token of a successful tokenization is well formed (so none is a string token). */
  lemma {:induction false} LexWellFormed(s: string)
    requires Lex(s).Ok?
    ensures forall i :: 0 <= i < |Lex(s).value| ==> WellFormed(Lex(s).value[i])
    decreases |s|
  {
    if s != [] {
      match ScanFirst(s)
      case Skip => LexWellFormed(s[1..]);
      case Emit(t, n) => LexWellFormed(s[n..]);
      case Reject(_) =>
    }
  }

  /**
   * Tokenizing succeeds exactly when every character is in the alphabet;
   * otherwise it fails on the first character that is not.
   */
  lemma {:induction false} LexOkIffAlphabet(s: string)
    ensures Lex(s).Ok? <==> forall k :: 0 <= k < |s| ==> InAlphabet(s[k])
    decreases |s|
  {
    if s != [] {
      match ScanFirst(s)
      case Skip => LexOkIffAlphabet(s[1..]); AlphabetSuffix(s, 1);
      case Emit(t, n) => LexOkIffAlphabet(s[n..]); AlphabetSuffix(s, n); RunInAlphabet(s, n);
      case Reject(_) =>
    }
  }

  lemma AlphabetSuffix(s: string, n: nat)
    requires n <= |s|
    ensures (forall k :: n <= k < |s| ==> InAlphabet(s[k])) == (forall k :: 0 <= k < |s[n..]| ==> InAlphabet(s[n..][k]))
  {
    forall k | 0 <= k < |s[n..]| ensures s[n..][k] == s[n + k] { }
    if forall k :: 0 <= k < |s[n..]| ==> InAlphabet(s[n..][k]) {
      forall k | n <= k < |s| ensures InAlphabet(s[k]) { assert s[k] == s[n..][k - n]; }
    }
  }

  /** The characters of an emitted token are all in the alphabet. */
  lemma RunInAlphabet(s: string, n: nat)
    requires s != [] && ScanFirst(s).Emit? && n == ScanFirst(s).len
    ensures forall k :: 0 <= k < n ==> InAlphabet(s[k])
  {
  }

  /** The error is the first character outside the alphabet. */
  lemma {:induction false} LexRejectsFirstStranger(s: string, k: nat)
    requires k < |s| && !InAlphabet(s[k])
    requires forall j :: 0 <= j < k ==> InAlphabet(s[j])
    ensures Lex(s) == Err(UnrecognizedChar(s[k]))
    decreases |s|
  {
    match ScanFirst(s)
    case Skip => LexRejectsFirstStranger(s[1..], k - 1);
    case Emit(t, n) =>
      RunInAlphabet(s, n);
      LexRejectsFirstStranger(s[n..], k - n);
    case Reject(_) =>
  }

  /** `s` with its whitespace characters deleted. */
  function Strip(s: string): string {
    if s == [] then [] else (if IsWhitespace(s[0]) then [] else [s[0]]) + Strip(s[1..])
  }

  /** The token texts, concatenated in order. */
  function Texts(ts: seq<Token>): string {
    if ts == [] then [] else ts[0].name + Texts(ts[1..])
  }

  lemma {:induction false} StripRun(s: string, n: nat)
    requires n <= |s|
    requires forall k :: 0 <= k < n ==> !IsWhitespace(s[k])
    ensures Strip(s) == s[..n] + Strip(s[n..])
  {
    if n > 0 {
      StripRun(s[1..], n - 1);
      assert s[1..][n - 1..] == s[n..];
      assert s[..n] == [s[0]] + s[1..][..n - 1];
    }
  }

  /** No character is lost, added or reordered: the token texts are the input without whitespace. */
  lemma {:induction false} LexKeepsText(s: string)
    requires Lex(s).Ok?
    ensures Texts(Lex(s).value) == Strip(s)
    decreases |s|
  {
    if s != [] {
      match ScanFirst(s)
      case Skip => LexKeepsText(s[1..]);
      case Emit(t, n) =>
        LexKeepsText(s[n..]);
        StripRun(s, n);
        var ts := Lex(s).value;
        assert ts == [t] + Lex(s[n..]).value;
        assert ts[1..] == Lex(s[n..]).value;
      case Reject(_) =>
    }
  }

  // ---------------------------------------------------------------------
  // Layout: where the tokens sit in the text
  // ---------------------------------------------------------------------

  predicate AllWhitespace(g: string) {
    forall k :: 0 <= k < |g| ==> IsWhitespace(g[k])
  }

  /** Two tokens that would merge into one if nothing separated them. */
  predicate SameRun(a: Token, b: Token) {
    (a.kind == NameToken && b.kind == NameToken) || (a.kind == NumberToken && b.kind == NumberToken)
  }

  /** The gaps `g[0] t0 g[1] t1 ... g[n]` around the token texts, as a string. */
  function Weave(g: seq<string>, ts: seq<Token>): string
    requires |g| == |ts| + 1
  {
    if ts == [] then g[0] else g[0] + ts[0].name + Weave(g[1..], ts[1..])
  }

  /** The whitespace before each token and after the last one, read off the scan of `s`. */
  ghost function Gaps(s: string): (g: seq<string>)
    ensures |g| > 0
    decreases |s|
  {
    if s == [] then [[]]
    else
      match ScanFirst(s)
      case Skip => var g := Gaps(s[1..]); [[s[0]] + g[0]] + g[1..]
      case Emit(_, n) => [[]] + Gaps(s[n..])
      case Reject(_) => [[]]
  }

  /**
   * The layout of a successfully tokenized text: it is the token texts in
   * order with only whitespace around them.
   */
  lemma {:induction false} LexLayout(s: string)
    requires Lex(s).Ok?
    ensures |Gaps(s)| == |Lex(s).value| + 1
    ensures Weave(Gaps(s), Lex(s).value) == s
    ensures forall i :: 0 <= i < |Gaps(s)| ==> AllWhitespace(Gaps(s)[i])
    decreases |s|
  {
    if s != [] {
      match ScanFirst(s)
      case Skip =>
        var g := Gaps(s[1..]);
        LexLayout(s[1..]);
        WeaveWiden(s[0], g, Lex(s[1..]).value);
        assert [s[0]] + s[1..] == s;
        forall i | 0 <= i < |Gaps(s)| ensures AllWhitespace(Gaps(s)[i]) {
          if i == 0 {
            assert Gaps(s)[0] == [s[0]] + g[0];
            assert AllWhitespace(g[0]);
          } else {
            assert Gaps(s)[i] == g[i];
          }
        }
      case Emit(t, n) =>
        LexLayout(s[n..]);
        WeaveEmit(s, t, n);
        forall i | 0 <= i < |Gaps(s)| ensures AllWhitespace(Gaps(s)[i]) {
          if i > 0 { assert Gaps(s)[i] == Gaps(s[n..])[i - 1]; }
        }
      case Reject(_) =>
    }
  }

  /**
   * Each token is a maximal run: two consecutive name tokens, or two
   * consecutive number tokens, always have whitespace between them.
   */
  lemma {:induction false} LexRunsMaximal(s: string)
    requires Lex(s).Ok?
    ensures |Gaps(s)| == |Lex(s).value| + 1
    ensures forall i :: 0 < i < |Lex(s).value| && SameRun(Lex(s).value[i - 1], Lex(s).value[i]) ==> Gaps(s)[i] != []
    decreases |s|
  {
    LexLayout(s);
    if s != [] {
      match ScanFirst(s)
      case Skip =>
        var g := Gaps(s[1..]);
        LexRunsMaximal(s[1..]);
        forall i | 0 < i < |Lex(s).value| && SameRun(Lex(s).value[i - 1], Lex(s).value[i])
          ensures Gaps(s)[i] != []
        {
          assert Gaps(s)[i] == g[i];
        }
      case Emit(t, n) =>
        var rest := Lex(s[n..]).value;
        LexRunsMaximal(s[n..]);
        assert Lex(s).value == [t] + rest;
        forall i | 0 < i < |Lex(s).value| && SameRun(Lex(s).value[i - 1], Lex(s).value[i])
          ensures Gaps(s)[i] != []
        {
          if i == 1 {
            if Gaps(s[n..])[0] == [] {
              RunThenGlued(s, t, n);
              assert false;
            }
          } else {
            assert Lex(s).value[i - 1] == rest[i - 2] && Lex(s).value[i] == rest[i - 1];
            assert Gaps(s)[i] == Gaps(s[n..])[i - 1];
          }
        }
      case Reject(_) =>
    }
  }

  /** A run followed directly by a token is never followed by a token of the same run class. */
  lemma RunThenGlued(s: string, t: Token, n: nat)
    requires s != [] && ScanFirst(s) == Emit(t, n)
    requires Lex(s[n..]).Ok? && |Lex(s[n..]).value| > 0 && Gaps(s[n..])[0] == []
    ensures !SameRun(t, Lex(s[n..]).value[0])
  {
    var rest := Lex(s[n..]).value;
    FirstGapEmpty(s[n..]);
    LexWellFormed(s[n..]);
    assert WellFormed(rest[0]);
    assert s[n..][0] == s[n];
  }

  lemma WeaveEmit(s: string, t: Token, n: nat)
    requires s != [] && ScanFirst(s) == Emit(t, n) && Lex(s[n..]).Ok?
    requires |Gaps(s[n..])| == |Lex(s[n..]).value| + 1
    requires Weave(Gaps(s[n..]), Lex(s[n..]).value) == s[n..]
    ensures |Gaps(s)| == |Lex(s).value| + 1
    ensures Weave(Gaps(s), Lex(s).value) == s
  {
    var rest := Lex(s[n..]).value;
    var g := Gaps(s[n..]);
    assert Lex(s).value == [t] + rest;
    assert Gaps(s) == [[]] + g;
    calc {
      Weave(Gaps(s), Lex(s).value);
      Weave([[]] + g, [t] + rest);
      { assert ([[]] + g)[1..] == g; assert ([t] + rest)[1..] == rest; }
      [] + t.name + Weave(g, rest);
      s[..n] + s[n..];
      { SplitAt(s, n); }
      s;
    }
  }

  lemma SplitAt(s: string, n: nat)
    requires n <= |s|
    ensures s[..n] + s[n..] == s
  {
  }

  lemma WeaveWiden(c: char, g: seq<string>, ts: seq<Token>)
    requires |g| == |ts| + 1
    ensures Weave([[c] + g[0]] + g[1..], ts) == [c] + Weave(g, ts)
  {
    var g' := [[c] + g[0]] + g[1..];
    assert g'[0] == [c] + g[0];
    if ts != [] {
      assert g'[1..] == g[1..];
      var w := Weave(g[1..], ts[1..]);
      assert Weave(g', ts) == ([c] + g[0]) + ts[0].name + w;
      assert Weave(g, ts) == g[0] + ts[0].name + w;
      Associate(c, g[0], ts[0].name, w);
    }
  }

  lemma Associate(c: char, a: string, b: string, w: string)
    ensures ([c] + a) + b + w == [c] + (a + b + w)
  {
  }

  /** With no whitespace in front of it, the first token starts at the first character. */
  lemma FirstGapEmpty(s: string)
    requires Lex(s).Ok? && |Lex(s).value| > 0 && Gaps(s)[0] == []
    ensures s != [] && |Lex(s).value[0].name| > 0 && s[0] == Lex(s).value[0].name[0]
  {
    assert s != [];
    match ScanFirst(s)
    case Skip =>
    case Emit(t, n) =>
      assert Lex(s).value[0] == t;
    case Reject(_) =>
  }

  // ---------------------------------------------------------------------
  // An inverse: printing tokens back as text
  // ---------------------------------------------------------------------

  /** The token texts, each followed by one space. */
  function Unlex(ts: seq<Token>): string {
    if ts == [] then [] else ts[0].name + " " + Unlex(ts[1..])
  }

  /** Tokenizing the printed form of well-formed tokens gives back the same tokens. */
  lemma {:induction false} LexUnlex(ts: seq<Token>)
    requires forall i :: 0 <= i < |ts| ==> WellFormed(ts[i])
    ensures Lex(Unlex(ts)) == Ok(ts)
  {
    if ts != [] {
      var t, rest := ts[0], Unlex(ts[1..]);
      assert WellFormed(t);
      assert Unlex(ts) == t.name + (" " + rest);
      LexOne(t);
      LexAppend(t.name, " " + rest);
      LexSkipsWhitespace(" ", rest);
      LexUnlex(ts[1..]);
      assert [t] + ts[1..] == ts;
    }
  }

  // ---------------------------------------------------------------------
  // Tokenizing piece by piece
  // ---------------------------------------------------------------------

  /** Two texts meet at a token boundary unless a letter meets a letter or a digit meets a digit. */
  predicate Separable(a: string, b: string) {
    a == [] || b == [] ||
    (!(IsLetter(a[|a| - 1]) && IsLetter(b[0])) && !(IsDigit(a[|a| - 1]) && IsDigit(b[0])))
  }

  lemma RunLengthAppend(a: string, b: string, p: char -> bool)
    requires a != []
    requires b == [] || !(p(a[|a| - 1]) && p(b[0]))
    ensures RunLength(a + b, p) == RunLength(a, p)
  {
    var n := RunLength(a, p);
    forall k | 0 <= k < n ensures p((a + b)[k]) { assert (a + b)[k] == a[k]; }
    if n < |a| {
      assert (a + b)[n] == a[n];
    } else if b != [] {
      assert (a + b)[n] == b[0];
    }
    RunIsMaximal(a + b, p, n);
  }

  /** Appending text at a token boundary does not change the first scan step. */
  lemma ScanFirstAppend(a: string, b: string)
    requires a != [] && Separable(a, b)
    ensures ScanFirst(a + b) == ScanFirst(a)
  {
    var ab := a + b;
    assert ab[0] == a[0];
    if IsLetter(a[0]) {
      RunLengthAppend(a, b, IsLetter);
      var n := RunLength(a, IsLetter);
      assert ab[..n] == a[..n];
    } else if IsDigit(a[0]) {
      RunLengthAppend(a, b, IsDigit);
      var n := RunLength(a, IsDigit);
      assert ab[..n] == a[..n];
    }
  }

  /** Tokenizing a concatenation that meets at a token boundary concatenates the tokens. */
  lemma {:induction false} LexAppend(a: string, b: string)
    requires Lex(a).Ok? && Separable(a, b)
    ensures Lex(a + b) == Prepend(Lex(a).value, Lex(b))
    decreases |a|
  {
    if a == [] {
      assert a + b == b;
      PrependNothing(Lex(b));
    } else {
      ScanFirstAppend(a, b);
      match ScanFirst(a)
      case Skip =>
        assert (a + b)[1..] == a[1..] + b;
        LexAppend(a[1..], b);
      case Emit(t, n) =>
        assert (a + b)[n..] == a[n..] + b;
        LexAppend(a[n..], b);
        PrependTwice([t], Lex(a[n..]).value, Lex(b));
      case Reject(_) =>
    }
  }

  /** The text of one well-formed token is tokenized as that token. */
  lemma LexOne(t: Token)
    requires WellFormed(t)
    ensures Lex(t.name) == Ok([t])
  {
    var s, n := t.name, |t.name|;
    if t.kind == NameToken {
      RunIsMaximal(s, IsLetter, n);
    } else if t.kind == NumberToken {
      assert !IsLetter(s[0]) && !IsWhitespace(s[0]);
      RunIsMaximal(s, IsDigit, n);
    }
    if t.kind == ParenToken {
      assert s == [s[0]];
    }
    assert s[..n] == s;
    assert ScanFirst(s) == Emit(t, n);
    assert s[n..] == [];
    assert Lex(s[n..]) == Ok([]);
    assert [t] + [] == [t];
  }

  /** Whitespace in front of a text is skipped. */
  lemma {:induction false} LexSkipsWhitespace(w: string, x: string)
    requires AllWhitespace(w)
    ensures Lex(w + x) == Lex(x)
  {
    if w == [] {
      assert w + x == x;
    } else {
      assert (w + x)[0] == w[0];
      assert (w + x)[1..] == w[1..] + x;
      LexSkipsWhitespace(w[1..], x);
    }
  }

  /**
   * The converse of `LexLayout` and `LexRunsMaximal`: well-formed tokens
   * laid out with whitespace gaps, a non-empty gap wherever two runs of the
   * same class meet, are tokenized back into exactly those tokens.
   */
  lemma {:induction false} LexWeave(g: seq<string>, ts: seq<Token>)
    requires |g| == |ts| + 1
    requires forall i :: 0 <= i < |g| ==> AllWhitespace(g[i])
    requires forall i :: 0 <= i < |ts| ==> WellFormed(ts[i])
    requires forall i :: 0 < i < |ts| && SameRun(ts[i - 1], ts[i]) ==> g[i] != []
    ensures Lex(Weave(g, ts)) == Ok(ts)
  {
    assert AllWhitespace(g[0]);
    if ts == [] {
      assert g[0] + [] == g[0];
      LexSkipsWhitespace(g[0], []);
    } else {
      var t, rest := ts[0], Weave(g[1..], ts[1..]);
      assert WellFormed(t);
      forall i | 0 < i < |ts[1..]| && SameRun(ts[1..][i - 1], ts[1..][i]) ensures g[1..][i] != [] {
        assert ts[1..][i - 1] == ts[i] && ts[1..][i] == ts[i + 1];
      }
      LexWeave(g[1..], ts[1..]);
      GlueFree(g, ts);
      LexOne(t);
      LexAppend(t.name, rest);
      assert Weave(g, ts) == g[0] + (t.name + rest);
      LexSkipsWhitespace(g[0], t.name + rest);
      assert [t] + ts[1..] == ts;
    }
  }

  /** In a layout as above, the first token meets the rest of the text at a token boundary. */
  lemma GlueFree(g: seq<string>, ts: seq<Token>)
    requires |g| == |ts| + 1 && ts != []
    requires forall i :: 0 <= i < |g| ==> AllWhitespace(g[i])
    requires forall i :: 0 <= i < |ts| ==> WellFormed(ts[i])
    requires forall i :: 0 < i < |ts| && SameRun(ts[i - 1], ts[i]) ==> g[i] != []
    ensures Separable(ts[0].name, Weave(g[1..], ts[1..]))
  {
    var t, rest := ts[0], Weave(g[1..], ts[1..]);
    assert WellFormed(t);
    if rest != [] {
      var last := t.name[|t.name| - 1];
      assert IsLetter(last) ==> t.kind == NameToken;
      assert IsDigit(last) ==> t.kind == NumberToken;
      if g[1] != [] {
        assert AllWhitespace(g[1]);
        assert rest[0] == g[1][0];
      } else {
        assert |ts| > 1;
        var u := ts[1];
        assert WellFormed(u);
        assert rest == [] + u.name + Weave(g[2..], ts[2..]);
        assert rest[0] == u.name[0];
        assert !SameRun(t, u);
      }
    }
  }
}
