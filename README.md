# tiny-compiler, modelled in Dafny

`compiler.js` is a four-stage compiler. It turns parenthesised prefix calls such as
`(add 2 (subtract 4 2))` into C-style calls such as `add(2, subtract(4, 2))`. The
stages are:

- **tokenizer**: a cursor loop emitting `paren`, `name` and `number` tokens;
- **parser** (`walk`): recursive descent with a shared cursor, building a
  `Program` of `NumberLiteral` / `CallExpression{name, params}` nodes;
- **transformer** (`traverser`): rewrites that tree into a second dialect
  (`CallExpression{callee: Identifier, arguments}`, with calls directly under
  the program wrapped in `ExpressionStatement`), by pushing into a `_context`
  array attached to each node;
- **code generator**: renders the second tree as text;
- **compiler**: the four stages in sequence.

The model has one module per stage:

- `Common`: error and result types.
- `Tokenizer`, `Parser`, `Transformer`: each imperative stage is a `method` with
  the source's loops. It is proved equal to a specification function (`Lex`,
  `ParseExpr`/`ParseProgram`, `Convert`/`TransformProgram`), and the stage's
  properties are proved about that function.
- `CodeGenerator`: pure functions, plus a reader for the output language that
  serves as the generator's inverse.
- `Compiler`: the composition and the end-to-end theorems.
- `Examples`: test.js's vector (`(add 2 (subtract 4 2))` through each stage), and
  three inputs of the model's own: `(foo)`, `(add 2` and `(add 2 + 3)`.
- `AsWritten`: the original tokenizer as written, and the original compiler's
  use of it on the module constant `input` instead of its argument, kept to
  exhibit the findings below. The stages after the tokenizer there are the
  model's own parser, transformer and generator.

Failures are values of `Common.Error`:

- `UnrecognizedChar(c)`: an unknown character.
- `UnexpectedEndOfInput`: the tokens ran out.
- `UnexpectedToken(pos)`: a token that cannot start an expression.

In the original, these cases throw a `TypeError`, spin without moving, or grow a
string or an array until the engine gives up.

In the following cases the model does what the code does, even where a
reader might expect otherwise:

- A top-level number literal is not wrapped in an `ExpressionStatement`
  (compiler.js:211-217 wrap calls only). `Transformer.TransformWellShaped` states
  that an item is wrapped exactly when it is a call.
- A `StringLiteral` renders as `undefined` (compiler.js:262-263), which `join`
  prints as the empty string. It is not a separate failure.
  `CodeGenerator.StringArgumentVanishes` states this. The compiler never reaches
  this case, because the tokenizer makes no `string` token:
  `Compiler.CompiledNoString` states this.
- The call head is whatever token follows `(`, of any kind (compiler.js:130-133).
- An argument list ends at any token whose text is `)`, whatever its kind
  (compiler.js:137).

An unknown character makes the original loop forever. The model rejects it with
`UnrecognizedChar` instead of skipping it.

## Model

| member | source | states |
|---|---|---|
| Tokenizer.IsWhitespace | compiler.js:11 | `\s`: the ECMAScript white-space and line-terminator characters; none of them is a parenthesis, a letter or a digit, so the tokenizer's branches never overlap |
| Tokenizer.Tokenize | compiler.js:20-71 | the tokenizer loop returns exactly `Lex(s)`: the tokens of the text, or the first unrecognised character |
| Tokenizer.ReadRun | compiler.js:38-43 | a run loop stops at the end of the maximal run of the class (never past the end of the text) and the token text is that run |
| Tokenizer.RunLength | compiler.js:40-43 | the run length is maximal: every character before it is in the class, and the next one is not or the text has ended |
| Tokenizer.ScanFirst | compiler.js:26-68 | the first character is skipped exactly when it is whitespace, rejected exactly when it is outside the alphabet, and otherwise starts a token whose text is a nonempty prefix of the input |
| Tokenizer.LexWellFormed | compiler.js:28-67 | every token is a paren holding one `(` or `)`, a nonempty run of letters, or a nonempty run of digits; none is a string token |
| Tokenizer.LexOkIffAlphabet | compiler.js:25-69 | tokenizing succeeds if and only if every character is a paren, letter, whitespace or digit |
| Tokenizer.LexRejectsFirstStranger | compiler.js:25-69 | the error names the first character outside the alphabet |
| Tokenizer.LexKeepsText | compiler.js:25-69 | the token texts in order, concatenated, are the input with whitespace deleted: nothing lost, added or reordered |
| Tokenizer.LexLayout | compiler.js:25-69 | the input is the token texts interleaved with whitespace-only gaps, one gap before each token and one after the last |
| Tokenizer.LexRunsMaximal | compiler.js:40-62 | two adjacent names, or two adjacent numbers, always have whitespace between them, so each run is maximal |
| Tokenizer.LexWeave | compiler.js:25-69 | conversely, any well-formed tokens laid out with whitespace gaps, separated where runs would merge, tokenize back to those tokens |
| Tokenizer.LexUnlex | compiler.js:20-71 | well-formed tokens printed with a space after each tokenize back to themselves |
| Tokenizer.LexAppend | compiler.js:25-69 | tokenizing two texts that do not glue a run together is tokenizing each and concatenating the token sequences |
| Tokenizer.LexOne | compiler.js:28-67 | the text of one well-formed token tokenizes to exactly that token |
| Tokenizer.LexSkipsWhitespace | compiler.js:51-54 | leading whitespace produces no token |
| Parser.Walk | compiler.js:112-143 | `walk` returns exactly `ParseExpr(ts, current)`: the expression at the cursor and the cursor after it, or the error |
| Parser.Parse | compiler.js:106-149 | the parser returns exactly `ParseProgram(ts)`: the top-level expressions until the tokens run out |
| Parser.ParseExpr | compiler.js:112-143 | a successful expression consumes at least one token and stays within the tokens |
| Parser.ParseParams | compiler.js:136-140 | a successful argument list consumes at least its `)` and stays within the tokens |
| Parser.ParseUnparse | compiler.js:112-143 | the tokens of an expression, wherever they sit, parse back to that expression and the cursor after them |
| Parser.ParseUnparseAll | compiler.js:136-140 | the tokens of a list of expressions closed by `)` parse back to that list, in order |
| Parser.ParseBodyUnparse | compiler.js:144-146 | the tokens of a sequence of expressions parse to one body entry per expression, in order |
| Parser.ParseProgramUnparse | compiler.js:106-149 | parsing the tokens of a program without a leaf `)` gives back that program |
| Parser.ParseExprPrefix | compiler.js:112-143 | tokens after the end of an expression do not affect how it parses |
| Parser.ParseParamsPrefix | compiler.js:136-140 | tokens after the end of an argument list do not affect how it parses |
| Parser.ParseExprTruncated | compiler.js:113-137 | cutting the tokens anywhere inside an expression, including right after its `(`, makes it fail with `UnexpectedEndOfInput` |
| Parser.ParseParamsTruncated | compiler.js:137-139 | cutting the tokens anywhere before an argument list's `)` makes it fail with `UnexpectedEndOfInput` |
| Parser.ParseExprNoString | compiler.js:122-127 | an expression parsed from tokens without a `string` token contains no `StringLiteral` at any depth |
| Parser.ParseParamsNoString | compiler.js:136-140 | the same for every argument of a call |
| Parser.ParseBodyNoString | compiler.js:144-146 | the same for every top-level expression |
| Parser.ParseProgramNoString | compiler.js:106-149 | a program parsed from tokens without a `string` token holds no `StringLiteral` |
| Transformer.Traverse | compiler.js:191-231 | visiting a node pushes exactly one target node onto its parent's context: the converted node, wrapped in `ExpressionStatement` when the parent is the program |
| Transformer.Transform | compiler.js:237-245 | the new program's body, built through the program's context, equals the direct structural map `TransformProgram` |
| Transformer.ConvertNoStatement | compiler.js:211-218 | nested calls are never wrapped in a statement |
| Transformer.TransformWellShaped | compiler.js:198-219 | the body keeps its length; an item is an `ExpressionStatement` exactly when its source is a call; the result has the target shape |
| Transformer.UnconvertConvert | compiler.js:202-225 | converting loses nothing: each callee carries the source name, arguments match params one for one and in order, leaves are copied |
| Transformer.ConvertUnconvert | compiler.js:202-225 | every statement-free target node is the conversion of a source node |
| Transformer.UntransformTransform | compiler.js:237-245 | transforming a program can be undone: no item is lost, added or reordered |
| Transformer.TransformUntransform | compiler.js:237-245 | every well-shaped target program is the transform of some source program |
| Transformer.ConvertNoString | compiler.js:221-223 | a converted tree has a string literal exactly when its source tree has one |
| Transformer.TransformNoString | compiler.js:198-219 | a source program without string literals transforms into a target program without any |
| CodeGenerator.Join | compiler.js:255 | `parts.join(sep)`: the parts in order with `sep` between neighbours; the text starts with the first part |
| CodeGenerator.JoinLast | compiler.js:255 | a join ends with its last part |
| CodeGenerator.Generate | compiler.js:251-265 | a number renders as `Some` of its digits; the rendering is `None`, where the source returns `undefined`, exactly for a string literal, bare or under a statement, so every call and every statement over one has text |
| CodeGenerator.GenerateCall | compiler.js:258-259 | a call renders as its callee's name and `(`, and its text ends in `)` |
| CodeGenerator.Parts | compiler.js:254-259 | `nodes.map(codeGenerator)` as `join` prints it: one part per node, and the empty string for a node the source renders as `undefined` |
| CodeGenerator.GenerateProgram | compiler.js:254-255 | a program's items rendered and joined with newlines: empty for an empty body, the one item's rendering for one item, and otherwise starting with the first item's rendering |
| CodeGenerator.StringArgumentVanishes | compiler.js:258-263 | a string literal has no rendering, and in the call `f(string, number)` it prints as an empty slot, `f(, w)`; the general fact is the contract of `Parts` |
| CodeGenerator.GenerateNoString | compiler.js:254-263 | a tree without string literals never renders as `undefined`: it has a rendering, and each call argument is printed by `join` as its own rendering |
| CodeGenerator.ReadGenerate | compiler.js:256-261 | the rendering of a printable expression reads back as that expression, whatever non-digit text follows |
| CodeGenerator.ReadArgsGenerate | compiler.js:258-259 | arguments rendered and joined with `, ` and closed by `)` read back as those arguments, in order |
| CodeGenerator.ReadItemsGenerate | compiler.js:254-255 | items rendered and joined with newlines read back as those items |
| CodeGenerator.ReadProgramGenerate | compiler.js:251-265 | the rendering of a printable program reads back as that program |
| CodeGenerator.GenerateReadExpr | compiler.js:256-261 | an expression the reader accepts is printable, and the text is its rendering followed by the rest |
| CodeGenerator.GenerateReadArgs | compiler.js:258-259 | an argument list the reader accepts is nonempty and printable, and the text is its joined rendering, `)` and the rest |
| CodeGenerator.GenerateReadItems | compiler.js:254-255 | items the reader accepts are nonempty and printable, and the text is their newline-joined rendering |
| CodeGenerator.ReadProgramIff | compiler.js:251-265 | the reader accepts a text exactly when it is the rendering of a printable program, and returns that program |
| Compiler.Compile | compiler.js:271-277 | the compiler returns exactly the composition of the four stages, failing with the first stage's error |
| Compiler.TransformPrintable | compiler.js:202-225 | a source program of numerals and letter-named calls transforms into a program the generator's output can be read back from |
| Compiler.CompileSource | compiler.js:271-277 | compiling the text of a program of numerals and letter-named calls succeeds, with the rendering of its transform as the output, and that transform can be read back from the output |
| Compiler.CompileInjective | compiler.js:271-277 | two such programs compile to the same text only if they are the same program |
| Compiler.CompileRejectsStranger | compiler.js:272 | a character outside the alphabet makes compilation fail, naming the first one |
| Compiler.CompileTruncated | compiler.js:137 | compiling an expression cut off before its end fails with `UnexpectedEndOfInput` |
| Compiler.CompiledNoString | compiler.js:270-276 | when compiling succeeds, the tokenizer made no string token, so the target tree holds no string literal and every item has a rendering: the `StringLiteral` branch is never reached |
| Examples.TokenizerExample | test.js:79 | `(add 2 (subtract 4 2))` tokenizes to the nine test tokens |
| Examples.ParserExample | test.js:81 | the test tokens parse to the test tree |
| Examples.TransformerExample | test.js:83 | the test tree transforms to the test target tree |
| Examples.GeneratorExample | compiler.js:251-265 | the test target tree renders as `add(2, subtract(4, 2))` |
| Examples.CompilerExample | test.js:85 | `(add 2 (subtract 4 2))` compiles to `add(2, subtract(4, 2))` |
| Examples.CompileEmptyCall | compiler.js:259 | `(foo)` compiles to `foo()` |
| Examples.CompileUnclosed | compiler.js:137 | `(add 2` fails with `UnexpectedEndOfInput` |
| Examples.CompileStranger | compiler.js:25-68 | `(add 2 + 3)` fails on the `+` |
| AsWritten.CharAt | compiler.js:40-41 | `input[current]` as the text `test` and `+=` see: the one character at the cursor; past the end a text that starts with a letter and holds no digit, so the letter test passes there and the digit test fails |
| AsWritten.Test | compiler.js:37-40 | `re.test` for a one-character class: false on the empty text, and on one character exactly the class |
| AsWritten.Outer | compiler.js:25-68 | the outer loop as written, given a budget of iterations: when it ends, the tokens pushed before are kept in order and every token it pushes has nonempty text |
| AsWritten.Inner | compiler.js:40-66 | a run loop as written, given a budget: when it ends, the tokens pushed before are kept in order and at least one more is pushed; once `value` holds a character, every token pushed from there on has nonempty text |
| AsWritten.TokenizeAsWritten | compiler.js:20-71 | `tokenizer()` as written on a given text and budget: every token it returns has nonempty text |
| AsWritten.CompilerAsWritten | compiler.js:271-276 | `compiler(input)` as written: with more loop iterations than twice the constant's length the result is `add(2, subtract(4, 2))` whatever `input` is |
| AsWritten.ModuleInputCompiles | compiler.js:7 | the original tokenizer, given enough iterations, tokenizes the module constant, and the later stages compile those tokens to `add(2, subtract(4, 2))` |
| AsWritten.LetterLoopToEnd | compiler.js:40-43 | as written, a letter loop whose run reaches the end of the text has no result for any number of iterations: the original appends "undefined" to `value` until the engine's string-length limit throws a `RangeError`, and never returns its tokens |
| AsWritten.LetterAtEndHangs | compiler.js:40-43 | as written, tokenizing `a` has no result for any number of iterations (the original throws a `RangeError` once `value` outgrows the string-length limit); the corrected tokenizer gives one name token |
| AsWritten.OuterStuck | compiler.js:25-68 | as written, the loop spins without moving at a character outside the alphabet |
| AsWritten.StrangerHangs | compiler.js:25-68 | as written, tokenizing `+` never ends; the corrected tokenizer rejects the `+` |
| AsWritten.TokenizeAgrees | compiler.js:20-71 | on text of the alphabet that does not end in a letter, the tokenizer as written ends with exactly the corrected tokenizer's tokens |
| AsWritten.ArgumentIgnored | compiler.js:20-25 | as written, given more loop iterations than twice the constant's length, `compiler("(foo)")` tokenizes the module constant with the original tokenizer and returns `add(2, subtract(4, 2))`; the corrected compiler returns `foo()` |

## Left out

- The module-level constants `input` and `output` (compiler.js:7-8) and
  `module.exports` (compiler.js:279-286). The corrected model takes the source text
  as a parameter. `AsWritten.CompilerAsWritten` shows the original's use of `input`.
- test.js's assertion harness and `console.log`. Its vectors appear as the lemmas in
  `Examples`.
- JavaScript regular expressions. `/[a-z]/`, `/[0-9]/` and `/\s/` are explicit
  character predicates. `IsWhitespace` lists the characters `\s` matches. JavaScript
  strings are UTF-16 code units; the model's strings are Dafny characters.
- Object identity. Leaves are pushed into the new tree by reference
  (compiler.js:222, 225), so in the original the two trees share them. The model's
  trees are values, so the source tree cannot change.
- The `_context` property and its `delete` (compiler.js:210, 216, 230, 242). The
  context is an accumulator passed into and returned from `Transformer.Traverse`.
- Parser.ParseExpr: in the original, a `name` token or a `)` in expression position
  makes `walk` return `undefined` without moving, so the loop at compiler.js:137 or
  compiler.js:144 pushes `undefined` again and again until the heap runs out or the
  array-length limit throws a `RangeError`. The model fails with `UnexpectedToken` instead. Unlike
  the tokenizer's as-written loops, this one has no as-written counterpart.
- A `TypeError` from reading past the last token (compiler.js:113-114, 133, 137) is
  the error value `UnexpectedEndOfInput`.
- A node of a type the generator does not list. It cannot be built here: the node
  types are closed datatypes.
- Engine limits on string and array length. The model's strings and sequences are
  unbounded, so where the original letter loop grows `value` until a `RangeError`,
  `AsWritten.Inner` returns `None` for every number of iterations instead: that
  `None` stands for the exception.
- Positions in tokenizer errors. `UnrecognizedChar` carries the character only.

## Findings

| source | as written | input that shows it | evidently intended | confidence | as-written member | corrected member |
|---|---|---|---|---|---|---|
| compiler.js:40 | the letter loop tests `input[current]` past the end; `strReg.test(undefined)` tests the text "undefined", which has letters, so the loop appends "undefined" to `value` until the string-length limit throws a `RangeError` and the tokens are never returned | `a` | stop the run at the end of the text: one name token `a` | not executed | AsWritten.LetterAtEndHangs | Tokenizer.ReadRun |
| compiler.js:25-68 | a character matching no branch leaves `current` unchanged and the outer loop spins | `+` | report the character | not executed | AsWritten.StrangerHangs | Tokenizer.Tokenize |
| compiler.js:20 | `tokenizer` has no parameter and reads the module constant `input`, so `compiler(x)` compiles the same text whatever `x` is; test.js's vectors can only agree because its input equals that constant | `(foo)` | tokenize the argument: `foo()` | not executed | AsWritten.ArgumentIgnored | Compiler.Compile |
