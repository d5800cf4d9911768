# A verified model of a Kaleidoscope-style front end

`lexer.cpp` is the front end of a tiny expression language, written in the
style of the LLVM Kaleidoscope tutorial. It has three parts, and this project
models all of them in Dafny:

- **The tokenizer `gettok`.** It keeps one pending character (`LastChar`)
  between calls. It skips whitespace and `#` comments, and returns one of:
  - `tok_eof`;
  - the keywords `tok_def` and `tok_extern`;
  - `tok_identifier`, with its name in `IdentifierStr`;
  - `tok_number`, with its value in `NumVal`;
  - any other character as its own code.
- **The recursive-descent parser.** It keeps one token of lookahead
  (`CurTok`, advanced by `getNextToken`) and uses precedence climbing for
  binary operators, with the fixed table `<` 10, `+` 20, `-` 30, `*` 40. It
  builds number, variable, binary and call nodes, prototypes and functions.
- **The top-level loop.** It skips `;` and dispatches on `def`, `extern` or
  anything else. After a failed parse it discards one more token. It stops at
  EOF.

How the model is laid out:

- **Values and imperative code.** The AST is a set of plain datatypes
  (`ast.dfy`). The tokenizer and the parser are imperative, as in the C++:
  - `Tokenizer.Lexer` is a class over the input string, with the index of the
    pending character as its only mutable field.
  - `Parser.Parser` is a class holding that lexer and the current token.
  - Their methods use the same loops and branches as the C++.
- **Specification functions.** Each method is proved to compute a function:
  - `Tokenizer.Lex` for one `gettok` call;
  - for each parse routine, the matching function in `Grammar` (the
    "## Model" table pairs each method with its function), over the tokens
    still to be read.
- **Properties.** They are proved about those functions:
  - `TokenizerFacts`: whitespace and comments, EOF, maximal munch, and the
    round trip from tokens to text and back.
  - `Printer` prints expressions, prototypes and items as tokens, with the
    fewest parentheses the precedence table allows.
  - `Concrete`: expressions as written, as a tree that keeps every pair of
    parentheses. The central result is a round trip: the tokens of such a
    tree parse back to the expression it means, wherever the parentheses
    are, as long as the ones the table needs are there. Printing with the
    fewest parentheses is a special case. Calls, argument lists and their
    errors are covered here too.
  - `GrammarFacts`: how chains of operators group, redundant parentheses,
    prototypes, definitions, dispatch and error recovery.
  - `SuffixFacts`: every parse routine only consumes tokens from the front.
  - `FrontEndFacts`: text to tokens to items, end to end.

Failure, which the C++ signals by logging a message and returning `nullptr`,
is a `Grammar.Result` carrying the message. The top-level loop's
"Parsed a ..." lines and errors become a sequence of `Grammar.Event`s.

## Model

| member | source | states |
|---|---|---|
| Tokenizer.RunEnd | lexer.cpp:30-31 | The index returned ends the maximal run of characters satisfying the predicate. Every character before it satisfies the predicate, and the one at it does not, or it is the end of the input. |
| Tokenizer.ScanWord | lexer.cpp:35-45 | A letter starts a word that runs to the first non-alphanumeric character, which stays pending. The token is `def`, `extern` or an identifier, and it is spelled by exactly the characters consumed. The keyword test of lexer.cpp:40-44 is the helper `Tokenizer.Word`. |
| Tokenizer.ScanNumber | lexer.cpp:48-56 | A digit or `.` starts a number that runs to the first character that is neither, which stays pending. The lexeme is exactly the characters consumed. |
| Tokenizer.Lex | lexer.cpp:26-76 | One `gettok` call. It returns EOF only at the end of the input. Any other token consumes at least one character, and is one `gettok` can return. Words and numbers are maximal. |
| Tokenizer.LexAt | lexer.cpp:34-75 | The same as `Lex`, once the pending character is not whitespace. |
| Tokenizer.Tokenize | lexer.cpp:26-76 | Successive `gettok` calls up to EOF yield only tokens `gettok` can return. |
| Tokenizer.Lexer.constructor | lexer.cpp:27 | The pending character starts at the beginning of the input. |
| Tokenizer.Lexer.GetTok | lexer.cpp:26-76 | `gettok`: the token returned and the new pending character are exactly those `Lex` gives for the old pending character. |
| Tokenizer.Lexer.SkipWhile | lexer.cpp:30-31 | The whitespace loop (also the comment loop at lexer.cpp:61-63) leaves the pending character at the end of the run. |
| Tokenizer.Lexer.ScanRun | lexer.cpp:36-38 | The buffer loops (also lexer.cpp:50-53) return exactly the characters consumed, from the first pending one to the end of the run. |
| TokenizerFacts.SkipSpace | lexer.cpp:29-31 | Whitespace before a token never changes the next token or the rest of the stream. |
| TokenizerFacts.CommentSkipped | lexer.cpp:59-71 | A comment yields no token. If a line end closes it, the stream goes on after the line end. If EOF closes it, the result is `tok_eof` and the stream is empty. |
| TokenizerFacts.EofRepeats | lexer.cpp:69-71 | Once EOF is returned, every later call returns EOF again without consuming anything. |
| TokenizerFacts.LexSpelling | lexer.cpp:34-75 | The token returned is spelled by the characters just before the new pending one. |
| TokenizerFacts.LexWord | lexer.cpp:34-45 | After whitespace, a letter starts the maximal alphanumeric run, which ends the token. Exactly `"def"` and `"extern"` are keywords, and any other run is an identifier named by the run. |
| TokenizerFacts.LexNumber | lexer.cpp:47-57 | After whitespace, a digit or `.` starts the maximal run of digits and dots, which is the lexeme. |
| TokenizerFacts.LexOther | lexer.cpp:73-75 | Any other character is returned as itself, and exactly that character is consumed. |
| TokenizerFacts.WordSpelled | lexer.cpp:35-45 | A name in the text that is followed by a non-alphanumeric character is read whole by one call. |
| TokenizerFacts.NumberSpelled | lexer.cpp:48-56 | A numeral in the text that is followed by another character is read whole by one call. |
| TokenizerFacts.CharSpelled | lexer.cpp:73-75 | Any other character in the text is one token. |
| TokenizerFacts.LexSpelled | lexer.cpp:26-76 | Any well-formed token, spelled and followed by a blank, is read back by one call. |
| TokenizerFacts.TokenizeSpellRoundTrip | lexer.cpp:26-76 | Spelling out well-formed tokens, a blank after each, and tokenizing the text gives back exactly those tokens. |
| TokenizerFacts.DottedNumber | lexer.cpp:48-53 | `"1.2.3"` is a single number token. |
| TokenizerFacts.CommentThenNumber | lexer.cpp:59-67 | A comment line, whatever it says, then a numeral yields only the number. |
| TokenizerFacts.CommentAtEnd | lexer.cpp:59-71 | A comment that runs into EOF, after a name, yields only the name. |
| TokenizerFacts.KeywordWholeWord | lexer.cpp:35-44 | `def` is a keyword only as a whole word. `"def define"` is `tok_def` followed by the identifier `define`. |
| Grammar.Precedence | lexer.cpp:242-250 | The result is -1 exactly when the token is not a character in the table. This covers keywords, identifiers, numbers, EOF and non-ASCII characters. Otherwise it is the table entry, at least 10. The table is set at lexer.cpp:398-401. |
| Grammar.NumberExpr | lexer.cpp:171-175 | A number token becomes a `Number` leaf with its lexeme, and exactly that token is consumed. |
| Grammar.ParenExpr | lexer.cpp:178-189 | `( e )` never reads more tokens than it is given, and consumes at least one on success. |
| Grammar.IdentifierExpr | lexer.cpp:193-224 | A variable or a call. It never reads more tokens than it is given, and consumes at least one on success. |
| Grammar.ArgumentList | lexer.cpp:204-217 | The argument loop succeeds only with `)` as the current token, after consuming at least one token. |
| Grammar.Primary | lexer.cpp:226-237 | It never reads more tokens than it is given, and consumes at least one on success. |
| Grammar.Expression | lexer.cpp:252-258 | It never reads more tokens than it is given, and consumes at least one on success. |
| Grammar.BinOpRhs | lexer.cpp:262-291 | The precedence-climbing loop never reads more tokens than it is given. |
| Grammar.Prototype | lexer.cpp:294-316 | It never reads more tokens than it is given, and consumes at least one on success. |
| Grammar.ParamList | lexer.cpp:305-315 | The parameter loop never reads more tokens than it is given, and consumes at least one on success. |
| Grammar.Definition | lexer.cpp:319-329 | It never reads more tokens than it is given, and consumes at least one on success. |
| Grammar.ExternDecl | lexer.cpp:332-335 | It never reads more tokens than it is given, and consumes at least one on success. |
| Grammar.TopLevelExpr | lexer.cpp:338-345 | It never reads more tokens than it is given, and consumes at least one on success. |
| Grammar.DefinitionItem | lexer.cpp:348-355 | `HandleDefinition`, error recovery included, always consumes at least one token. |
| Grammar.ExternItem | lexer.cpp:356-363 | `HandleExtern`, error recovery included, always consumes at least one token. |
| Grammar.TopLevelExprItem | lexer.cpp:364-371 | `HandleTopLevelExpression`, error recovery included, always consumes at least one token. |
| Grammar.Item | lexer.cpp:377-392 | One dispatch on a token other than EOF always consumes at least one token. |
| Grammar.Program | lexer.cpp:374-394 | The loop terminates on every finite stream, and reports at most one event per token. |
| Parser.Parser.constructor | lexer.cpp:154 | The current token starts as character 0, ahead of the whole token stream of the input. |
| Parser.Parser.GetNextToken | lexer.cpp:154-157 | `getNextToken`: the remaining tokens lose their head, and EOF stays EOF. On the remaining tokens, `CurTok` is the helper `Grammar.Cur` and `getNextToken` is `Grammar.Next`. |
| Parser.Parser.ParseNumberExpr | lexer.cpp:171-175 | It returns the result `NumberExpr` gives and leaves the tokens `NumberExpr` leaves. |
| Parser.Parser.ParseParenExpr | lexer.cpp:178-189 | It returns the result `ParenExpr` gives and leaves the tokens `ParenExpr` leaves. |
| Parser.Parser.ParseIdentifierExpr | lexer.cpp:193-224 | The argument loop computes `ArgumentList`, so the method returns what `IdentifierExpr` gives and leaves what it leaves. |
| Parser.Parser.ParsePrimary | lexer.cpp:226-237 | It returns the result `Primary` gives and leaves the tokens `Primary` leaves. |
| Parser.Parser.ParseExpression | lexer.cpp:252-258 | It returns the result `Expression` gives and leaves the tokens `Expression` leaves. |
| Parser.Parser.ParseBinOpRHS | lexer.cpp:262-291 | The `while (true)` loop that reassigns the LHS returns what `BinOpRhs` gives and leaves what it leaves. |
| Parser.Parser.ParsePrototype | lexer.cpp:294-316 | The parameter loop computes `ParamList`, so the method returns what `Prototype` gives and leaves what it leaves. |
| Parser.Parser.ParseDefinition | lexer.cpp:319-329 | It returns the result `Definition` gives and leaves the tokens `Definition` leaves. |
| Parser.Parser.ParseExtern | lexer.cpp:332-335 | It returns the result `ExternDecl` gives and leaves the tokens `ExternDecl` leaves. |
| Parser.Parser.ParseTopLevelExpr | lexer.cpp:338-345 | It returns the result `TopLevelExpr` gives and leaves the tokens `TopLevelExpr` leaves. |
| Parser.Parser.HandleDefinition | lexer.cpp:348-355 | It reports the event `DefinitionItem` gives, skipping one token after an error. |
| Parser.Parser.HandleExtern | lexer.cpp:356-363 | It reports the event `ExternItem` gives, skipping one token after an error. |
| Parser.Parser.HandleTopLevelExpression | lexer.cpp:364-371 | It reports the event `TopLevelExprItem` gives, skipping one token after an error. |
| Parser.Parser.MainLoop | lexer.cpp:374-394 | It ends at EOF, having reported exactly `Program` of the tokens it started with. |
| Parser.Run | lexer.cpp:396-409 | `main`: after priming the current token, the loop reports `Program` of the whole token stream of the input. |
| Concrete.WrittenRoundTrip | lexer.cpp:178-291 | The tokens of an expression as written parse back to the expression it means, with no node for any pair of parentheses. The parentheses may be anywhere, as long as every operand the table would otherwise regroup is in parentheses. Whatever follows, if it is neither a binary operator nor `(`, is left unread. |
| Concrete.ExprRoundTrip | lexer.cpp:252-291 | An expression printed with the fewest parentheses parses back to itself. Whatever follows it, if it is neither a binary operator nor `(`, is left unread. |
| Concrete.RedundantParens | lexer.cpp:178-291 | Redundant parentheses change nothing: an expression as written parses exactly as its meaning printed with the fewest parentheses. |
| GrammarFacts.ParseShow | lexer.cpp:252-291 | Every expression whose operators are in the table is the parse of its minimal-parentheses tokens. |
| Concrete.Spine | lexer.cpp:262-291 | The loop, started from the leftmost primary of an expression as written, folds the rest of that expression's tokens back into the expression it means. |
| Concrete.Fold | lexer.cpp:262-291 | An operator and a right operand are folded onto the LHS as one `Binary` node, and the loop continues from there. |
| Concrete.RightClimb | lexer.cpp:279-287 | When the next operator binds tighter, the recursive call with `TokPrec+1` gathers the whole tighter right operand. |
| Concrete.StopAt | lexer.cpp:267-268 | A token whose precedence is below `ExprPrec` ends the loop, which returns the LHS unchanged and consumes nothing. |
| GrammarFacts.TighterRightNests | lexer.cpp:279-289 | For any two operators in the table, `a op1 b op2 c` with `op2` binding more tightly parses as `a op1 (b op2 c)`. |
| GrammarFacts.LooserRightFoldsLeft | lexer.cpp:264-289 | For any two operators in the table, when `op2` does not bind more tightly than `op1`, `a op1 b op2 c` parses as `(a op1 b) op2 c`. Equal precedence therefore folds left. |
| GrammarFacts.TimesBindsTighter | lexer.cpp:262-291 | `a+b*c` is `a+(b*c)`. |
| GrammarFacts.MinusBindsTighter | lexer.cpp:262-291 | `a+b-c` is `a+(b-c)`, because `-` (30) binds tighter than `+` (20) in this table. |
| GrammarFacts.EqualFoldsLeft | lexer.cpp:262-291 | `a-b-c` is `(a-b)-c`: equal precedence folds left. |
| GrammarFacts.TighterLeftFoldsFirst | lexer.cpp:262-291 | `a-b+c` is `(a-b)+c`. |
| GrammarFacts.GroupedName | lexer.cpp:178-189 | `(x)` and `((x))` are the variable `x`. |
| GrammarFacts.GroupedTighterRight | lexer.cpp:178-291 | `a+(b*c)` is the same tree as `a+b*c`. |
| GrammarFacts.GroupedEqualLeft | lexer.cpp:178-291 | `(a-b)-c` is the same tree as `a-b-c`. |
| Concrete.PrimaryRoundTrip | lexer.cpp:226-237 | A number, a call, a parenthesised expression, or a variable not followed by `(`, is read back as a primary, meaning what it means, whatever token follows it otherwise. |
| Concrete.CallRoundTrip | lexer.cpp:193-224 | A call, with or without arguments, is read back with its arguments in source order. |
| Concrete.CallNoArgs | lexer.cpp:198-223 | `f ( )` is a call without arguments. |
| Concrete.ArgsRoundTrip | lexer.cpp:204-217 | The argument loop appends the arguments in order and stops with `)` as the current token. |
| Concrete.NextArgRoundTrip | lexer.cpp:206-216 | An argument followed by `,` is appended, and the loop goes on after the `,`. |
| Concrete.LastArgRoundTrip | lexer.cpp:206-212 | The last argument is appended, and the loop stops at `)`. |
| Concrete.ParenRoundTrip | lexer.cpp:178-189 | `( x )` is a primary meaning what `x` means, for any `x` as written with the parentheses the table needs: a name, a number, a call, an operator expression or another parenthesised expression. The parentheses leave no node. |
| Concrete.UnclosedParen | lexer.cpp:184-185 | A `(` expression followed by a token that is none of a binary operator, `(` or `)` gives the error "expected ')'". The error leaves the offending token current. |
| Concrete.BadSeparator | lexer.cpp:206-215 | In any pass of the argument loop, whatever was read before, an argument followed by a token that is none of a binary operator, `(`, `,` or `)` gives "Expected ')' or ',' in argument list" at that token. |
| Concrete.ArgsBadSeparator | lexer.cpp:204-217 | Arguments separated by `,`, then followed by a token that is none of a binary operator, `(`, `,` or `)`, make the loop fail with that error at that token. |
| Concrete.BadArgSeparator | lexer.cpp:193-224 | A call with any number of arguments, followed by a token that is none of a binary operator, `(`, `,` or `)`, gives that error. The error leaves the offending token current. |
| GrammarFacts.ParamListRoundTrip | lexer.cpp:305-315 | The parameter loop keeps every name, duplicates included, in order, and consumes the `)`. |
| GrammarFacts.ProtoRoundTrip | lexer.cpp:294-316 | A name, `(`, parameter names and `)` make that prototype. |
| GrammarFacts.ParamListUnclosed | lexer.cpp:306-309 | Parameter names not closed by `)` give "Expected ')' in prototype". |
| GrammarFacts.PrototypeErrors | lexer.cpp:295-309 | Each missing piece has its own error: the function name, then `(`, then `)`. |
| GrammarFacts.DefinitionRoundTrip | lexer.cpp:319-329 | `def`, a prototype and a body make `Function(proto, body)`. |
| GrammarFacts.ExternRoundTrip | lexer.cpp:332-335 | `extern` and a prototype make the bare prototype. |
| GrammarFacts.TopLevelRoundTrip | lexer.cpp:338-345 | A top-level expression is wrapped in the anonymous prototype `""` with no parameters. |
| GrammarFacts.ItemRoundTrip | lexer.cpp:377-392 | The dispatch reads one item back and stops at the `;` after it. |
| GrammarFacts.DefinitionItemRoundTrip | lexer.cpp:383-385 | `def` goes to the definition parser, which reads the definition back. |
| GrammarFacts.ExternItemRoundTrip | lexer.cpp:386-388 | `extern` goes to the extern parser, which reads the prototype back. |
| GrammarFacts.TopLevelItemRoundTrip | lexer.cpp:389-391 | A printed top-level expression, whose first token starts a primary, goes to the top-level expression parser and is reported wrapped in the anonymous prototype. Other tokens are covered by `StrayTokenSkipped`. |
| GrammarFacts.PrimaryRejects | lexer.cpp:226-229 | Any token that cannot start a primary gives "Unknown token: expected an expression" and consumes nothing. The same holds for an expression and a top-level expression that start with it (lexer.cpp:252-255, 338-344). |
| GrammarFacts.StrayTokenSkipped | lexer.cpp:364-391 | Any other token at top level, such as `)` or `,`, goes to the top-level expression parser. The loop reports the error, skips that token and goes on with the rest. |
| GrammarFacts.ExternWithoutName | lexer.cpp:356-362 | `extern` followed by a non-name reports "Expected function name in prototype", and that token is skipped as well. |
| GrammarFacts.TopLevelDispatch | lexer.cpp:389-391 | A token that starts a primary is dispatched to the top-level expression parser. |
| GrammarFacts.ScriptStep | lexer.cpp:374-394 | One item and its `;`: the loop reports the item, skips the `;` and goes on. |
| GrammarFacts.ScriptRoundTrip | lexer.cpp:374-394 | The loop reports exactly the items of a script, in order, each item closed by `;`. |
| GrammarFacts.UnfinishedCall | lexer.cpp:204-229 | `f(n,` running into EOF is reported as the error "Unknown token: expected an expression". |
| GrammarFacts.DefinitionWithoutName | lexer.cpp:348-354 | `def` followed by a non-name reports "Expected function name in prototype", and that token is skipped as well. |
| GrammarFacts.RecoveryAfterError | lexer.cpp:348-394 | `def n ; m` reports the missing name, skips `n` and `;`, then parses `m`. |
| GrammarFacts.SemicolonSkipped | lexer.cpp:380-382 | A top-level `;` is skipped. |
| GrammarFacts.LoneNumber | lexer.cpp:364-371 | A lone number is a top-level expression. |
| SuffixFacts.ParenExprSuffix | lexer.cpp:178-189 | `ParenExpr` leaves a suffix of its tokens, on failure too. |
| SuffixFacts.IdentifierExprSuffix | lexer.cpp:193-224 | `IdentifierExpr` leaves a suffix of its tokens. |
| SuffixFacts.ArgumentListSuffix | lexer.cpp:204-217 | The argument loop leaves a suffix of its tokens. |
| SuffixFacts.PrimarySuffix | lexer.cpp:226-237 | `Primary` leaves a suffix of its tokens. |
| SuffixFacts.ExpressionSuffix | lexer.cpp:252-258 | `Expression` leaves a suffix of its tokens. |
| SuffixFacts.BinOpRhsSuffix | lexer.cpp:262-291 | The precedence-climbing loop leaves a suffix of its tokens. |
| SuffixFacts.ParamListSuffix | lexer.cpp:305-315 | The parameter loop leaves a suffix of its tokens. |
| SuffixFacts.PrototypeSuffix | lexer.cpp:294-316 | `Prototype` leaves a suffix of its tokens. |
| SuffixFacts.DefinitionSuffix | lexer.cpp:319-329 | `Definition` leaves a suffix of its tokens. |
| SuffixFacts.ExternDeclSuffix | lexer.cpp:332-335 | `ExternDecl` leaves a suffix of its tokens. |
| SuffixFacts.TopLevelExprSuffix | lexer.cpp:338-345 | `TopLevelExpr` leaves a suffix of its tokens. |
| SuffixFacts.ItemSuffix | lexer.cpp:348-392 | One dispatch, recovery included, leaves a strictly shorter suffix of the tokens. |
| FrontEndFacts.SpelledProgram | lexer.cpp:26-76 | For tokens `gettok` can return, the loop reports the same items for their spelled-out text as for the tokens themselves. |
| FrontEndFacts.TextRoundTrip | lexer.cpp:26-394 | End to end: take a script of definitions, externs and top-level expressions with lexable names and numbers. Spell it as text with a blank after each token. Tokenizing and parsing that text reports exactly those items, in order. |

## Left out

- The numeric value: `strtod` and `NumVal` (lexer.cpp:24, lexer.cpp:55) are floating-point conversion. A number token carries its digit-and-dot lexeme, and a `Number` node holds that lexeme.
- Character I/O: `getchar` and stdin are replaced by a finite string whose end is `EOF`.
  - The pending character is an index into that string.
  - The initial `LastChar` of `' '` is whitespace, so it is modelled by starting at index 0.
- Character classes: `isspace`, `isalpha`, `isdigit` and `isalnum` are the ASCII predicates of the "C" locale. Characters are Dafny `char`s rather than the bytes `getchar` returns.
- Output: the `fprintf` diagnostics (lexer.cpp:160-168), the `"> "` prompts and the "Parsed a ..." lines are not printed.
  - An error is kept as its message inside `Grammar.Result` and `Grammar.Event.SyntaxError`.
  - A successful parse becomes an event holding the parsed item.
- Memory management: `std::unique_ptr` ownership, moves and the virtual destructors of the AST classes (lexer.cpp:82-147) are replaced by plain datatypes.
- The demo objects `LHS`, `RHS` and `Result` (lexer.cpp:149-151) are not part of the parser and are not modelled.
- The globals `IdentifierStr` and `NumVal`: the identifier or lexeme travels inside the token instead.
- `BinopPrecedence[CurTok]` (lexer.cpp:246) inserts a zero entry for a character missing from the table. The model reads the table as a pure lookup with 0 for a missing key. This gives the same -1 result, and the inserted entries are never observed.
- The table is a constant (`Grammar.BinopPrecedence`) rather than a map filled in by `main` (lexer.cpp:398-401). Nothing else writes to it.
- `Parser.Parser.ParseBinOpRHS`: `ExprPrec` is a natural number. Its callers only pass 0 and `TokPrec+1`, where `TokPrec` is at least 10.
- Grammar.ParenExpr: its own contract states only how many tokens it consumes; what it returns is pinned down by the parser method that computes it and by the round-trip lemmas, and that it leaves a suffix of its tokens is proved in `SuffixFacts.ParenExprSuffix`.
- Grammar.IdentifierExpr: its own contract states only how many tokens it consumes; what it returns is pinned down by the parser method that computes it and by the round-trip lemmas, and that it leaves a suffix of its tokens is proved in `SuffixFacts.IdentifierExprSuffix`.
- Grammar.ArgumentList: its own contract states only how many tokens it consumes; what it returns is pinned down by the parser method that computes it and by the round-trip lemmas, and that it leaves a suffix of its tokens is proved in `SuffixFacts.ArgumentListSuffix`.
- Grammar.Primary: its own contract states only how many tokens it consumes; what it returns is pinned down by the parser method that computes it, by the round-trip lemmas and, for the default error, by `GrammarFacts.PrimaryRejects`, and that it leaves a suffix of its tokens is proved in `SuffixFacts.PrimarySuffix`.
- Grammar.Expression: its own contract states only how many tokens it consumes; what it returns is pinned down by the parser method that computes it and by the round-trip lemmas, and that it leaves a suffix of its tokens is proved in `SuffixFacts.ExpressionSuffix`.
- Grammar.BinOpRhs: its own contract states only how many tokens it consumes; what it returns is pinned down by the parser method that computes it and by the round-trip lemmas, and that it leaves a suffix of its tokens is proved in `SuffixFacts.BinOpRhsSuffix`.
- Grammar.Prototype: its own contract states only how many tokens it consumes; what it returns is pinned down by the parser method that computes it and by the round-trip lemmas, and that it leaves a suffix of its tokens is proved in `SuffixFacts.PrototypeSuffix`.
- Grammar.ParamList: its own contract states only how many tokens it consumes; what it returns is pinned down by the parser method that computes it and by the round-trip lemmas, and that it leaves a suffix of its tokens is proved in `SuffixFacts.ParamListSuffix`.
- Grammar.Definition: its own contract states only how many tokens it consumes; what it returns is pinned down by the parser method that computes it and by the round-trip lemmas, and that it leaves a suffix of its tokens is proved in `SuffixFacts.DefinitionSuffix`.
- Grammar.ExternDecl: its own contract states only how many tokens it consumes; what it returns is pinned down by the parser method that computes it and by the round-trip lemmas, and that it leaves a suffix of its tokens is proved in `SuffixFacts.ExternDeclSuffix`.
- Grammar.TopLevelExpr: its own contract states only how many tokens it consumes; what it returns is pinned down by the parser method that computes it and by the round-trip lemmas, and that it leaves a suffix of its tokens is proved in `SuffixFacts.TopLevelExprSuffix`.
- Concrete.UnclosedParen: a `(` right after the expression is not covered. When the expression ends in a number, a call or a group, the source reports "expected ')'" there too (as in `( 1 (`), but the lemma rests on `Concrete.WrittenRoundTrip`, which excludes a following `(` for every expression.
- Concrete.BadSeparator: a `(` right after an argument is not covered, for the same reason. When the argument ends in a number, a call or a group, the source reports "Expected ')' or ',' in argument list" there too (as in `f(1 (`).
- Concrete.ArgsBadSeparator: the same `(` case after the last argument is not covered, as for `Concrete.BadSeparator`.
- Concrete.BadArgSeparator: the same `(` case after the last argument is not covered, as for `Concrete.BadSeparator`.
