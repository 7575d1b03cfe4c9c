# Mini C compiler, modelled in Dafny

`Mini_c_compiler.c` compiles one assignment statement such as `x = 3 + 5;`
into instructions for a stack machine. It runs three stages in order.

- **Lexer** (`tokenize`, `add_token`). It walks the text left to right. At each
  position it tries the classes NUMBER, IDENTIFIER, ASSIGN, END, OP and
  WHITESPACE in that order, and the first one that matches wins. A whitespace
  match is skipped. Any other match is appended to the global token array as
  one token holding the matched text. A character that no class matches stops
  the program with "Unexpected character".
- **Parser** (`match`, `assignment`, `expression`). A recursive-descent parser
  for `IDENTIFIER = expression ;`. It works over the global token array with a
  global cursor that only moves forward. An `expression` is a number or
  identifier, optionally followed by an operator and another `expression`. So
  operator chains group to the right and all operators bind equally.
- **Code generator** (`generate_code`). A post-order walk of the tree. An
  operand writes `LOAD v`. An operator writes its left code, its right code,
  then its symbol. The assignment writes its value's code, then `STORE x`.

The project has five files.

- `options.dfy` holds the `Option` type.
- `lexer.dfy` holds the scanner:
  - `LexFrom` and `Lex` specify it as functions over positions of the text;
  - the `TokenTable` class stands for the global array that `AddToken` appends to;
  - the imperative `Tokenize` and `TryClasses` loops are proved equal to that specification;
  - lemmas cover the priority order, error reporting, lost whitespace, and the
    round trip from tokens to text and back.
- `parser.dfy` holds the parser:
  - `ParseExpression` and `ParseAssignment` specify it as functions over a token position;
  - the `Parser` class holds the token array and the mutable `position` cursor;
  - its `Match`, `Expression` and `Assignment` methods are proved against those functions;
  - lemmas cover consumption, the inverse of unparsing, and right associativity.
- `codegen.dfy` holds the generator:
  - `GenExpr` and `Generate` return the instruction sequence;
  - lemmas count the instructions;
  - a symbolic stack machine, `Exec`, is the partner against which post-order
    emission is proved correct.
- `pipeline.dfy` holds the driver:
  - `Compile` composes the stages;
  - `Run` drives the imperative stages the way `main` does;
  - lemmas cover what a successful compilation emits, and the outcome on
    concrete texts: the built-in `x = 3 + 5;`, operator grouping, and each
    error path.

## Model

| member | source | states |
|---|---|---|
| `Lexer.TokenTable.constructor` | Mini_c_compiler.c:15-16 | The token array starts empty. |
| `Lexer.TokenTable.AddToken` | Mini_c_compiler.c:18-23 | Appends one token with the given class and text at the end and changes nothing else. |
| `Lexer.MatchEnd` | Mini_c_compiler.c:26-33 | A class's match at a position is non-empty exactly when the character there can begin that class. The match never runs past the end of the text. |
| `Lexer.TryClasses` | Mini_c_compiler.c:38-50 | The inner loop returns the index of the class the scanner takes: the first class in table order that matches at the cursor. It returns the table size when none matches. |
| `Lexer.FirstClassIs` | Mini_c_compiler.c:38-49 | If the classes before index i do not match and the class at i does, the scanner's choice is the class at i. If no class matches, there is no choice. |
| `Lexer.NoMatchIffUnexpected` | Mini_c_compiler.c:38-54 | No class matches exactly when the character is none of: digit, letter, `_`, `=`, `;`, `+ - * /`, space or tab. This holds both ways, and equally exactly when all six matches are empty. |
| `Lexer.ClassesDisjoint` | Mini_c_compiler.c:26-33 | At most one class matches at any position, so the priority order never breaks a tie. |
| `Lexer.Tokenize` | Mini_c_compiler.c:25-56 | The scanning loop, with its token table, returns exactly `Lex(code)`. That is either every non-whitespace match in order, or the error at the first character no class matches. |
| `Lexer.FirstClass` | Mini_c_compiler.c:38-49 | The class the scanner takes at a position, if any, has a non-empty match there, so the cursor always advances. |
| `Lexer.LexFrom` | Mini_c_compiler.c:25-56 | A failed scan from a position reports an offset at or after that position and inside the text. |
| `Lexer.Lex` | Mini_c_compiler.c:25-56 | A failed scan of the whole text reports an offset inside it, the character at that offset, and that character is one no class matches. |
| `Lexer.LexFailure` | Mini_c_compiler.c:51-54 | A failed scan reports a character that really is at the reported offset, at or after the start, that no class matches, and it is the first such character: every character between the start and the reported offset is one some class matches. |
| `Lexer.LexFailsIff` | Mini_c_compiler.c:36-54 | The scan from a position fails exactly when some character from there on is one no class matches. Both directions hold. |
| `Lexer.LexTokensValid` | Mini_c_compiler.c:43-46 | Every token of a successful scan is non-empty and not whitespace, and its text is one whole match of its class. |
| `Lexer.MatchAt` | Mini_c_compiler.c:42-46 | A valid token written at a position, followed by a character that cannot continue it, is matched exactly to its length. |
| `Lexer.MatchWhole` | Mini_c_compiler.c:42-46 | The text of a non-whitespace match is a valid token of that class. |
| `Lexer.LexConcat` | Mini_c_compiler.c:36-46 | The token texts of a successful scan, laid end to end, equal the scanned text with its spaces and tabs removed. Only whitespace is lost and nothing is reordered. |
| `Lexer.LexLayout` | Mini_c_compiler.c:36-46 | The text of a successful scan is exactly its tokens' texts in order, interleaved with gaps made only of spaces and tabs: one gap before the first token, one between each two neighbours, one after the last. |
| `Lexer.LexToken` | Mini_c_compiler.c:42-47 | A valid token at the cursor, followed by a character that cannot continue it, is emitted as that token, and the scan goes on after it. |
| `Lexer.LexSpace` | Mini_c_compiler.c:43-46 | A single space before a non-blank character emits nothing and the scan goes on after it. |
| `Lexer.LexSpellAt` | Mini_c_compiler.c:36-55 | Text that spells valid tokens from a given position to its end scans back to exactly those tokens. Neighbours may be separated by one space, or by none when the next token cannot continue the previous one. |
| `Lexer.LexSpell` | Mini_c_compiler.c:36-55 | Round trip: spelling valid tokens with single spaces, or with no space where that is unambiguous, and scanning the result gives back the same tokens. |
| `Parser.ParseExpression` | Mini_c_compiler.c:111-123 | The cursor only moves forward and stays within the tokens. The tree built has operand leaves, and every operator's left operand is a single operand or absent. |
| `Parser.ParseTerm` | Mini_c_compiler.c:112-113 | The operand slot takes the token at the cursor exactly when it is a number or identifier, as a leaf with its class and text, and moves by one. Otherwise it is absent and the cursor stays. It is never an operator node. |
| `Parser.ParseExpressionConsumes` | Mini_c_compiler.c:111-123 | The tokens the expression parse moves over are exactly the tokens of the tree it returns, in order. |
| `Parser.ParseUnparse` | Mini_c_compiler.c:111-123 | Parsing inverts unparsing. A right-grouped chain followed by anything but an operator parses back to the same tree, and the cursor stops right after it. |
| `Parser.RightAssociative` | Mini_c_compiler.c:115-119 | `a o1 b o2 c` parses as `o1(a, o2(b, c))` for any operators. Chains group to the right with no precedence. |
| `Parser.ParseAssignment` | Mini_c_compiler.c:90-109 | There is no statement exactly when the token at the cursor is not an identifier. The syntax error expecting `=` happens exactly when an identifier is not followed by `=`. The syntax error expecting `;` happens exactly when identifier and `=` are present but the expression parsed after them is not followed by `;`. A parsed statement targets the leading identifier's text, its value is the expression parsed after the `=`, and it ends just past the `;` that follows that expression. |
| `Parser.ParseAssignmentConsumes` | Mini_c_compiler.c:90-109 | A successful statement parse took an identifier (the target), an `=`, the tokens of the value tree and a `;`, in that order, and stops after the `;`. |
| `Parser.ParseAssignmentUnparse` | Mini_c_compiler.c:90-109 | The tokens of a statement whose value is a chain parse back to that statement, whatever tokens follow the `;`. |
| `Parser.MissingEndUnparse` | Mini_c_compiler.c:99-103 | An identifier, `=` and the tokens of any complete chain, followed by anything but an operator or `;`, is the syntax error expecting `;`. |
| `Parser.Parser.constructor` | Mini_c_compiler.c:68 | The cursor starts at the first token. |
| `Parser.Parser.Match` | Mini_c_compiler.c:79-86 | If the token at the cursor has the expected class, returns a leaf with its class and text and moves the cursor by exactly one. Otherwise returns no node and leaves the cursor alone. |
| `Parser.Parser.Expression` | Mini_c_compiler.c:111-123 | Returns the tree `ParseExpression` gives at the old cursor and leaves the cursor where that parse stops. |
| `Parser.Parser.Assignment` | Mini_c_compiler.c:90-109 | Returns `ParseAssignment` at the old cursor. With no leading identifier there is no statement and the cursor is unchanged. A missing `=` or `;` is a syntax error naming it. On success the cursor is just past the `;`. |
| `CodeGen.GenExpr` | Mini_c_compiler.c:128-141 | The code of an expression contains no store. |
| `CodeGen.Generate` | Mini_c_compiler.c:131-133 | The code of an assignment ends with a store to its target, and that is its only store. |
| `CodeGen.GenExprCounts` | Mini_c_compiler.c:134-140 | The code has one load per operand leaf and one operator instruction per operator node, and nothing else. |
| `CodeGen.ReadRender` | Mini_c_compiler.c:133-139 | The text line written for an instruction (`LOAD v`, `STORE x`, or a one-character operator symbol) reads back to that instruction, so the line format loses nothing. |
| `CodeGen.Listing` | Mini_c_compiler.c:128-141 | The printed listing has one line per instruction, in order, each the instruction's text line. |
| `CodeGen.ExecGenExpr` | Mini_c_compiler.c:134-140 | Post-order emission is correct. On a stack machine, the code of a complete tree pushes exactly the tree's value and leaves the stack below it alone. |
| `CodeGen.ExecGenerate` | Mini_c_compiler.c:131-133 | The code of an assignment with a complete value runs from an empty stack without underflow. It binds the target to the value and leaves the stack empty. |
| `Pipeline.Compile` | Mini_c_compiler.c:149-161 | The compilation fails in the lexer exactly when the scan fails, with the scan's error. Compiled code is non-empty and ends with a store to the first token's text. |
| `Pipeline.Run` | Mini_c_compiler.c:146-161 | Scanning loop, then parser object, then generator, in that order, give the same outcome as `Compile`. |
| `Pipeline.StatementCode` | Mini_c_compiler.c:131-140 | The code of a parsed statement has one instruction per token of its value plus one store, and it ends with that store. |
| `Pipeline.CompiledCode` | Mini_c_compiler.c:128-141 | Of a successful compilation: a single store to the leading identifier, last. One load per number or identifier token between `=` and `;`. One operator instruction per operator token there. |
| `Pipeline.UnparseCounts` | Mini_c_compiler.c:111-123 | A parsed tree has one number or identifier token per operand leaf and one operator token per operator node. |
| `Pipeline.CompileStatement` | Mini_c_compiler.c:149-161 | A text that scans to the tokens of a statement compiles to that statement's code. |
| `Pipeline.BuiltInTokens` | Mini_c_compiler.c:147-149 | `x = 3 + 5;` scans to identifier `x`, `=`, number `3`, `+`, number `5`, `;`. |
| `Pipeline.BuiltInCode` | Mini_c_compiler.c:147-161 | `x = 3 + 5;` compiles to `LOAD 3, LOAD 5, +, STORE x`. |
| `Pipeline.BuiltInOutput` | Mini_c_compiler.c:160-161 | For `x = 3 + 5;` the generator writes the lines `LOAD 3`, `LOAD 5`, `+`, `STORE x`. |
| `Pipeline.SingleOperand` | Mini_c_compiler.c:111-123 | `y = a;` compiles to `LOAD a, STORE y`. |
| `Pipeline.SingleNumber` | Mini_c_compiler.c:111-123 | `x = 3;` ends the expression after one operand and compiles to `LOAD 3, STORE x`. |
| `Pipeline.SubtractionGroupsRight` | Mini_c_compiler.c:115-119 | `z = 1 - 2 - 3;` groups as `1 - (2 - 3)`: `LOAD 1, LOAD 2, LOAD 3, -, -, STORE z`. |
| `Pipeline.MultiplyAfterAdd` | Mini_c_compiler.c:115-119 | `a = b + c * d;` groups as `b + (c * d)`. |
| `Pipeline.AddAfterMultiply` | Mini_c_compiler.c:115-119 | `a = b * c + d;` groups as `b * (c + d)`: `*` gets no precedence. |
| `Pipeline.NotIdentifierFirst` | Mini_c_compiler.c:91-92 | `3 = x;` yields no statement and no code. |
| `Pipeline.MissingAssign` | Mini_c_compiler.c:94-97 | `x 3;` is a syntax error expecting `=`. |
| `Pipeline.MissingEnd` | Mini_c_compiler.c:100-103 | `x = 3` is a syntax error expecting `;`. |
| `Pipeline.MissingOperand` | Mini_c_compiler.c:112-119 | `x = 3 + ;` is accepted with an absent right operand and compiles to `LOAD 3, +, STORE x`, which underflows the stack machine. |
| `Pipeline.MissingExpression` | Mini_c_compiler.c:112-122 | `x = ;` is accepted with an absent value and compiles to a lone `STORE x`. |
| `Pipeline.UnexpectedCharacter` | Mini_c_compiler.c:51-54 | `x #= 3;` fails in the lexer at offset 2 with the character `#`. |

Points where the program's behaviour is easy to misread:

- **Missing operands.** `expression` turns a missing operand into a null
  subtree rather than an error, so `x = 3 + ;` and `x = ;` are accepted.
  `Expr.Absent` models the null subtree, and `Pipeline.MissingOperand` and
  `Pipeline.MissingExpression` state the accepted outcomes.
- **Error contents.** A syntax error reports only the expected token class,
  not the token found, and so does `SyntaxError(expected)`.
- **Names.** The classes END and OP of the code are `End` and `Op` here.

Parsing is deterministic, because `ParseAssignment` is a function and
`Parser.Assignment` is specified by it. So parsing the same tokens twice
gives the same tree.

## Left out

- The `sscanf` calls of `tokenize` (lines 40-42) are not modelled. `sscanf` does not read these patterns as regular expressions, so as written no class would ever match. The model scans the intended character classes directly: a digit run, an identifier start followed by identifier characters, the one-character literals, and a run of spaces and tabs. This follows the class table at lines 26-33.
- The text is a sequence of characters with no terminator, and a character is a whole Unicode character, not a byte. A C string ends at its first NUL (the loop test at line 36), whereas the model reads a NUL as an unexpected character: `x` followed by NUL is a lexer error at offset 1 here, and the single token `x` in the program. The lexer error records a whole character where the program prints one byte of it (line 52).
- The 100-entry token array (lines 15, 22) and the 100-character buffers (lines 39, 41) are not modelled. Tokens are an unbounded sequence, and neither the array overflow nor a buffer overflow is modelled.
- `malloc`, `strdup`, `free` and the node records of `new_node` (lines 19-21, 70-77, 163-168) are not modelled. Tokens and trees are immutable values.
- `fprintf(stderr, …)` and `exit(1)` (lines 52-53, 95-96, 101-102, 155-157) become results: `Failed(LexError(at, ch))`, `SyntaxError(expected)` and `NoStatement`. The lexer error also records the offset of the character, which the program does not print.
- The `printf` output of `main` and `generate_code` is not modelled. This covers the token dump and the text lines. `Render` gives each instruction's text line and `Listing` the lines of a whole sequence, but nothing is written to a stream.
- `main`'s fixed input is not a parameter of the program. `Pipeline.Compile` and `Pipeline.Run` take any text, and the fixed input is the case `Pipeline.BuiltInCode`.
- The globals `tokens`, `token_count` and `position` are not modelled as globals. They are fields of the `TokenTable` and `Parser` objects, created for one run.
- Tokens after the `;` are ignored, as in the program. `main` never checks that the parse consumed every token.
- `Lexer.LexSpell` covers only spellings with at most one space between tokens and none at the ends. Texts with more whitespace are covered by `Lexer.LexConcat`, which states what is kept of any text that scans.
