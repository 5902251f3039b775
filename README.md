# NutView template pipeline in Dafny

NutView is the template engine of the Squirrel web framework. A *nut*
template is HTML with backslash commands such as `\if`, `\for`, `\(...)`,
`\RawValue(...)`, `\Date(...)`, `\Title(...)`, `\Layout(...)`, `\Subview(...)`
and `\View()`, and `\}` closes a block. NutView works in four stages:

1. The lexer (`NutLexical`, over its character `Buffer`) classifies the input
   as HTML or command, unescapes `\\`, recognises command words, tells `\}`
   apart from `\} else {` and `\} else if`, and reads expressions.
2. The parser (`NutParser`) turns the token stream into a command tree
   (`ViewCommands`). It uses a stack of enclosing blocks.
3. The command tree is stored as a JSON *fruit* artifact by a tag-dispatched
   encoder and decoder. The resolver (`NutResolver`) decides whether to use
   the cached tree, decode the artifact or recompile the template.
4. The interpreter (`NutInterpreter`) walks the tree against a data
   dictionary. It binds loop and `if let` variables and restores them
   afterwards. It collects head commands, applies the last layout and
   injects the head into the page.

The project has one module per source file:

| module | file | source |
|---|---|---|
| `Tokens` | `tokens.dfy` | `Tokens.swift` |
| `Stacks` | `stack.dfy` | `Stack.swift` |
| `LexSpec` | `lexical_spec.dfy` | `NutLexical.swift`, as functions of (text, position) |
| `Lexical` | `lexical.dfy` | `NutLexical.swift`, as the `Buffer` and `NutLexical` classes |
| `Commands` | `commands.dfy` | `ViewCommands.swift`: the command tree and the `If` builders |
| `Codec` | `codec.dfy` | `ViewCommands.swift`: the Codable conversions, over a small `Json` datatype |
| `ParseSpec` | `parser_spec.dfy` | `NutParser.swift`, as functions of (text, position, parser state) |
| `Parser` | `parser.dfy` | `NutParser.swift`, as the `NutParser` class |
| `Resolver` | `resolver.dfy` | `NutResolver.swift`, over abstract file and cache maps |
| `Markup` | `markup.dfy` | HTML escaping and head injection of `NutInterpreter.swift` |
| `Interpretation` | `interp_spec.dfy` | `NutInterpreter.swift`, as functions of (data, commands) |
| `Interpreter` | `interpreter.dfy` | `NutInterpreter.swift`, as the `NutInterpreter` class |
| `Text`, `Wrappers` | `text.dfy`, `wrappers.dfy` | string helpers, `Option` and `Result` |

The imperative parts are classes whose methods update their fields in
place, as the Swift code does. These are the stack, the buffer and its
index stack, the lexer, the parser loop with its context stack, the
interpreter's `data`, `currentName` and `viewContent`, and the resolver's
file and cache maps. Each method is proved equal to a specification
function of the old state. The properties the source promises are then
proved as lemmas about those functions. Examples are "look-ahead leaves no
trace", "the parser state stays well formed", "decode(encode(t)) == t",
"`for` variables are put back after the loop" and "a second resolution
changes nothing". Where the code has a defect (see "## Findings"), the
model follows the corrected behaviour, and lemmas state where the code
and the corrected model agree.

## Model

| member | source | states |
|---|---|---|
| Tokens.PunctuationRawValues | Sources/NutView/Tokens.swift:16-26 | exactly the six punctuation kinds have a one-character raw value, and raw values identify token kinds |
| Tokens.TokenEquals | Sources/NutView/Tokens.swift:33-44 | the hand-written `==` holds iff the two tokens are equal: same id, value and line |
| Tokens.TokenDescription | Sources/NutView/Tokens.swift:28-30 | the description is the line, `": <"`, the id's raw value, `"> - "` and the value, located by length |
| Tokens.DescriptionStartsWithLine | Sources/NutView/Tokens.swift:28-30 | the description starts with the decimal digits of the line, which parse back to the line, followed by `:` |
| Tokens.HTMLTokenEquals | Sources/NutView/Tokens.swift:54-62 | the hand-written `==` holds iff the two HTML tokens are equal: same value and line |
| Tokens.CommandTokenEquals | Sources/NutView/Tokens.swift:78-86 | the hand-written `==` holds iff the two command tokens are equal: same type and line |
| Tokens.CommandFromRawInverse | Sources/NutView/Tokens.swift:88-102 | keyword lookup returns a command type exactly when the word is that type's raw value |
| Tokens.CommandFromRaw | Sources/NutView/Tokens.swift:88-102 | a command type found for a word has that word as its raw value |
| Tokens.KeywordsOfWords | Sources/NutView/Tokens.swift:88-102 | a command word names a command iff it is one of `Title`, `Head`, `EscapedValue`, `RawValue`, `if`, `for`, `Date`, `Subview`, `Layout`, `View` |
| Stacks.Stack.constructor | Sources/NutView/Stack.swift:10-12 | a new stack is empty |
| Stacks.Stack.Push | Sources/NutView/Stack.swift:13-15 | the element is added on top and nothing else changes |
| Stacks.Stack.PushAll | Sources/NutView/Stack.swift:16-18 | the loop pushes the elements in reverse order on top of the old contents |
| Stacks.Stack.Pop | Sources/NutView/Stack.swift:22-27 | returns and removes the top; on an empty stack it returns nil and the stack stays empty |
| Stacks.Stack.IsEmpty | Sources/NutView/Stack.swift:28-30 | true iff the count is 0 |
| Stacks.Stack.Count | Sources/NutView/Stack.swift:31-33 | the number of stored elements |
| Stacks.Popped | Sources/NutView/Stack.swift:22-27 | pop of an empty stack is (nil, empty); otherwise the top and the rest, which plus the top is the old stack |
| Stacks.PushThenPop | Sources/NutView/Stack.swift:13-27 | push then pop returns the pushed element and restores the previous contents |
| Stacks.PushAllOrder | Sources/NutView/Stack.swift:16-18 | after pushing an array, `elements[0]` is on top and each later element lies one further down |
| Stacks.PopAfterPushAll | Sources/NutView/Stack.swift:16-27 | the first pop after pushing a non-empty array returns its first element |
| Stacks.CountChanges | Sources/NutView/Stack.swift:13-33 | push grows the count by one, a successful pop shrinks it by one, and pop fails iff the stack is empty |
| Lexical.Buffer.constructor | Sources/NutView/NutLexical.swift:244-250 | starts at index 0, line 1, with an empty index stack |
| Lexical.Buffer.Next | Sources/NutView/NutLexical.swift:258-268 | returns `content[i]` and advances by one, with line = 1 + newlines before `i`; at the end it returns nil and changes nothing |
| Lexical.Buffer.GetNext | Sources/NutView/NutLexical.swift:270-275 | the character at the index, or nil at the end, without moving |
| Lexical.Buffer.GetNextNext | Sources/NutView/NutLexical.swift:277-282 | the character after the index, or nil, without moving |
| Lexical.Buffer.SkipWhite | Sources/NutView/NutLexical.swift:284-292 | moves to the first non-white position |
| Lexical.Buffer.StashIndex | Sources/NutView/NutLexical.swift:365-367 | pushes the current (index, line) |
| Lexical.Buffer.DropTopIndex | Sources/NutView/NutLexical.swift:368-370 | pops the index stack without moving |
| Lexical.Buffer.PopIndex | Sources/NutView/NutLexical.swift:371-377 | pops the index stack and restores that index and line; on an empty stack nothing moves |
| Lexical.Buffer.Read | Sources/NutView/NutLexical.swift:332-364 | the loop reads up to the first stop character, which is not consumed, and leaves the index stack as it found it (`LexSpec.ReadAt`) |
| Lexical.Buffer.ReadEOF | Sources/NutView/NutLexical.swift:324-330 | with `allowEOF` a read always succeeds, with a nil stop at the end of input |
| Lexical.NutLexical.constructor | Sources/NutView/NutLexical.swift:25-27 | a buffer over the content at position 0 |
| Lexical.NutLexical.NextToken | Sources/NutView/NutLexical.swift:39-70 | returns the token `LexSpec.TokenAt` describes and moves past it |
| Lexical.NutLexical.WordToken | Sources/NutView/NutLexical.swift:58-68 | a word ends before white space or punctuation; a `:` makes it a named argument and is consumed |
| Lexical.NutLexical.ReadWord | Sources/NutView/NutLexical.swift:59-68 | the loop reads to the end of the word and reports whether a `:` ended it |
| Lexical.NutLexical.GetNextToken | Sources/NutView/NutLexical.swift:72-77 | the next token, with index, line and index stack unchanged |
| Lexical.NutLexical.GetNextNextToken | Sources/NutView/NutLexical.swift:79-85 | the token after the next one, with index, line and index stack unchanged |
| Lexical.NutLexical.LeadingLineFeeds | Sources/NutView/NutLexical.swift:89-95 | the loop consumes exactly the leading line feeds and returns them |
| Lexical.NutLexical.DoubledBackslashes | Sources/NutView/NutLexical.swift:98-102 | the loop turns each `\\` into one `\` and reads up to the next single backslash (`LexSpec.HtmlTail`) |
| Lexical.NutLexical.SkipDoubledBackslash | Sources/NutView/NutLexical.swift:99-101 | skips `\\` and returns the text up to the next backslash |
| Lexical.NutLexical.NextHTML | Sources/NutView/NutLexical.swift:88-104 | returns the HTML token `LexSpec.HtmlAt` describes and moves past it |
| Lexical.NutLexical.NextTokenType | Sources/NutView/NutLexical.swift:106-121 | classifies the next input as in `LexSpec.TokenTypeAt`, without moving |
| Lexical.NutLexical.BraceCommand | Sources/NutView/NutLexical.swift:133-155 | after `\}`, the result and position of `LexSpec.AfterBrace` |
| Lexical.NutLexical.NextCommand | Sources/NutView/NutLexical.swift:123-160 | returns the command token or error `LexSpec.CommandAt` describes and moves past it |
| Lexical.NutLexical.ReadExpression | Sources/NutView/NutLexical.swift:162-211 | the loop returns the expression or error the corrected `LexSpec.ExpressionAt` describes and moves past the stop character |
| LexSpec.LineAt | Sources/NutView/NutLexical.swift:258-268 | the line the buffer reports at a position is at least 1 |
| LexSpec.LineAtNext | Sources/NutView/NutLexical.swift:262-264 | the line grows by one exactly when the previous character was a line feed |
| LexSpec.WhiteEnd | Sources/NutView/NutLexical.swift:284-292 | the first position at or after `i` that is not a space, tab or line feed |
| LexSpec.StopIndex | Sources/NutView/NutLexical.swift:342-361 | the first position at or after `i` holding a stop character, or the end |
| LexSpec.ReadAt | Sources/NutView/NutLexical.swift:332-364 | no stops gives nil; at the end without `allowEOF` it gives nil and does not move; otherwise the text read contains no stop, ends at the first stop (not consumed) or at the end with a nil stop |
| LexSpec.PunctuationKind | Sources/NutView/NutLexical.swift:45-57 | a character is a one-character token iff it is the raw value of a punctuation kind |
| LexSpec.WordEnd | Sources/NutView/NutLexical.swift:59-68 | the end of a word: the first white space, punctuation or `:` |
| LexSpec.TokenAt | Sources/NutView/NutLexical.swift:39-70 | no token iff only white space is left; the token starts after the white space |
| LexSpec.TokenAtFirst | Sources/NutView/NutLexical.swift:39-70 | after white space: a punctuation token, a named argument when a `:` ends the word (the `:` consumed), or a text token; at the line of its first character |
| LexSpec.TokenAtShape | Sources/NutView/NutLexical.swift:39-70 | the consumed text is the value (plus `:` for a named argument), punctuation tokens carry their raw value, and a text token ends at the end or before a word end |
| LexSpec.TextTokenAt | Sources/NutView/NutLexical.swift:58-68 | white space then a word gives that word as a text token |
| LexSpec.PunctuationTokenAt | Sources/NutView/NutLexical.swift:45-57 | white space then a punctuation character gives that one-character token |
| LexSpec.TokenTypeAt | Sources/NutView/NutLexical.swift:106-121 | nil at the end; a command iff `\` is followed by a non-`\`; `unexpectedEnd("character")` iff a lone `\` ends the input; otherwise HTML |
| LexSpec.LineFeedsEnd | Sources/NutView/NutLexical.swift:92-95 | the first position after the leading line feeds |
| LexSpec.HtmlTail | Sources/NutView/NutLexical.swift:98-102 | the loop stops at the end or at a backslash not followed by another |
| LexSpec.HtmlTailStep | Sources/NutView/NutLexical.swift:98-102 | one round: `\\` becomes `\` followed by the text up to the next backslash |
| LexSpec.HtmlAt | Sources/NutView/NutLexical.swift:88-104 | the token's line is the start line plus the number of leading line feeds |
| LexSpec.HtmlTailUnescapes | Sources/NutView/NutLexical.swift:98-102 | the text of the loop is the consumed input with each `\\` turned into `\` |
| LexSpec.HtmlAtUnescapes | Sources/NutView/NutLexical.swift:88-104 | the HTML value is the consumed input unescaped, and it stops at the end or before an unescaped backslash |
| LexSpec.SpanUnescapes | Sources/NutView/NutLexical.swift:96-102 | text without backslashes followed by the loop's text is the unescaped input |
| LexSpec.HtmlExample | Sources/NutView/NutLexical.swift:88-104 | on `asd\n\\\\das\View` the HTML token is `asd\n\\das` at line 1, stopping before `\View` |
| LexSpec.AfterBrace | Sources/NutView/NutLexical.swift:133-155 | after `\}` the result is blockEnd, else or elseIf at the brace's line, and blockEnd iff nothing is consumed |
| LexSpec.CommandAt | Sources/NutView/NutLexical.swift:123-160 | no command iff the input does not start with `\`, and then nothing is consumed |
| LexSpec.CommandAtWord | Sources/NutView/NutLexical.swift:129-159 | `\(` gives escapedValue, `\}` goes on as `AfterBrace`, any other word is looked up and is unknownCommand when it is not a keyword |
| LexSpec.CommandAtShape | Sources/NutView/NutLexical.swift:123-160 | a command token carries the line after `\`; block commands come from `\}`, and any other command consumed its raw value or is `\(` |
| LexSpec.WordCommand | Sources/NutView/NutLexical.swift:156-159 | a word without `}` never names blockEnd, else or elseIf |
| LexSpec.BraceCommand | Sources/NutView/NutLexical.swift:133-155 | `\}` is decided by `AfterBrace` |
| LexSpec.ElseTokenAt | Sources/NutView/NutLexical.swift:135 | white space then `else` is the text token `else` |
| LexSpec.ElseAfterBrace | Sources/NutView/NutLexical.swift:135-142 | `else {` after the brace gives else and consumes the `{` |
| LexSpec.ElseCommand | Sources/NutView/NutLexical.swift:133-142 | `\} else {` is the else command at the line of the brace |
| LexSpec.IfTokenAt | Sources/NutView/NutLexical.swift:143-147 | white space then `if` is the text token `if` |
| LexSpec.ElseIfAfterBrace | Sources/NutView/NutLexical.swift:135-147 | `else if` after the brace gives elseIf and consumes the `if` |
| LexSpec.ElseIfCommand | Sources/NutView/NutLexical.swift:133-147 | `\} else if` is the elseIf command at the line of the brace |
| LexSpec.BlockEndCommand | Sources/NutView/NutLexical.swift:152-154 | `\}` not followed by the word `else` is blockEnd and consumes only `\}` |
| LexSpec.UnknownCommands | Sources/NutView/NutLexical.swift:137-158 | a non-keyword word is unknownCommand; `\} else` at the end is unexpectedEnd; `\} else` followed by other than `{` or `if` is unknownCommand |
| LexSpec.ExprLoop | Sources/NutView/NutLexical.swift:171-204 | the corrected loop, with a quote-aware depth, never moves backwards (its meaning is `ExpressionAtFirstStop`) |
| LexSpec.ExpressionAt | Sources/NutView/NutLexical.swift:162-211 | the corrected `readExpression` never moves backwards (its meaning is `ExpressionAtFirstStop`) |
| LexSpec.QuotesDepthStep | Sources/NutView/NutLexical.swift:179-203 | in the corrected loop, one more character adds to the quote count and changes the depth only outside a string |
| LexSpec.ExprStep | Sources/NutView/NutLexical.swift:179-203 | one round of the corrected loop stops exactly at a stop position, and keeps its string flag and depth equal to those of the text read |
| LexSpec.ExprLoopStopsHere | Sources/NutView/NutLexical.swift:184-197 | at the first stop position the loop returns the text before it, or `unexpectedCharacter` when that text is empty |
| LexSpec.ExprLoopFirstStop | Sources/NutView/NutLexical.swift:171-210 | from any point without an earlier stop, the loop ends at the first stop position, or with `unexpectedEnd("one of [...]")` when there is none |
| LexSpec.ExprLoopSkip | Sources/NutView/NutLexical.swift:171-204 | a character that is not a stop position is appended and the loop goes on |
| LexSpec.ExpressionAtFirstStop | Sources/NutView/NutLexical.swift:162-211 | the expression is the text up to the first stop character outside quotes, where `)` stops only when it closes a parenthesis opened before the expression; the stop is consumed; empty text is `unexpectedCharacter`; no stop is `unexpectedEnd` |
| LexSpec.ParenInStringCounterexample | Sources/NutView/NutLexical.swift:179-204 | on `")")` the loop as written fails with unexpectedEnd, while the model reads the expression `")"` |
| LexSpec.ExprLoopAsWritten | Sources/NutView/NutLexical.swift:171-204 | the loop as written, counting parentheses inside strings too, never moves backwards |
| LexSpec.ExpressionAtAsWritten | Sources/NutView/NutLexical.swift:162-211 | `readExpression` as written never moves backwards |
| LexSpec.ExprLoopAgrees | Sources/NutView/NutLexical.swift:171-204 | when no `(` or `)` occurs inside a string literal in the rest of the input, the loop as written and the corrected loop give the same result |
| LexSpec.ExpressionAtAgrees | Sources/NutView/NutLexical.swift:162-211 | when no `(` or `)` occurs inside a string literal after the white space, `readExpression` as written and the corrected one give the same result |
| Commands.CommandTypeFromRaw | Sources/NutView/ViewCommands.swift:463-477 | a found command type has exactly the given raw value |
| Commands.CommandTypeFromRawInverse | Sources/NutView/ViewCommands.swift:463-477 | each command type is found from its raw value |
| Commands.AddThen | Sources/NutView/ViewCommands.swift:182-187 | a then-block with an empty body is dropped; any other is appended; else and line stay |
| Commands.AddConditions | Sources/NutView/ViewCommands.swift:189-192 | appends (conditions, body, line) as a then-block unless the body is empty |
| Commands.SetElse | Sources/NutView/ViewCommands.swift:194-196 | replaces the else body and keeps thens and line |
| Commands.IfWithThen | Sources/NutView/ViewCommands.swift:166-171 | an `If` holding the then-block only when its body is non-empty |
| Commands.IfWithConditions | Sources/NutView/ViewCommands.swift:173-180 | an `If` with one then-block of these conditions, or none when the body is empty |
| Commands.IfWithVariable | Sources/NutView/ViewCommands.swift:147-164 | keeps the given else and line |
| Commands.IfWithVariableCondition | Sources/NutView/ViewCommands.swift:147-164 | the one condition is a cast iff a variable is given, otherwise simple; no then-block iff the body is empty |
| Commands.IfWithText | Sources/NutView/ViewCommands.swift:137-145 | keeps the given else and line |
| Commands.IfWithTextCondition | Sources/NutView/ViewCommands.swift:137-145 | the text becomes a raw value at the `If`'s line, cast iff a variable is given |
| Commands.BuildersKeepThensNonEmpty | Sources/NutView/ViewCommands.swift:137-196 | every initialiser, `add` and `setElse` keep all stored then-blocks non-empty |
| Commands.NonEmptyBlocks | Sources/NutView/ViewCommands.swift:182-187 | keeps only non-empty then-blocks |
| Commands.AddAll | Sources/NutView/ViewCommands.swift:182-187 | adding then-blocks keeps an `If` |
| Commands.AddAllKeepsNonEmpty | Sources/NutView/ViewCommands.swift:182-187 | adding several then-blocks appends exactly the non-empty ones |
| Codec.GetOptString | Sources/NutView/ViewCommands.swift:359 | an absent key decodes to nil; a present one must be a string |
| Codec.GetCommandType | Sources/NutView/ViewCommands.swift:463-477 | a decoded `id` is the raw value of that type; an unknown string is a dataCorrupted error |
| Codec.EncodeExpr | Sources/NutView/ViewCommands.swift:102-106 | an encoded `RawValue`/`EscapedValue` decodes back to the same expression and line under any key |
| Codec.DecodeExpr | Sources/NutView/ViewCommands.swift:102-106 | decoding succeeds iff the value is an object with a string `expression` and an integer `line`, and gives exactly those; `id` is not read; a non-object is a type mismatch |
| Codec.EncodeConditions | Sources/NutView/ViewCommands.swift:416 | one encoded condition per condition, in order |
| Codec.DecodeConditions | Sources/NutView/ViewCommands.swift:408 | a decoded list has one condition per element, each the decoding of that element |
| Codec.EncodeCommand | Sources/NutView/ViewCommands.swift:246-281 | every command encodes as an object with `id` the raw value of its kind and `line` its line |
| Codec.EncodeList | Sources/NutView/ViewCommands.swift:246-281 | one encoded element per command, in order |
| Codec.EncodeThens | Sources/NutView/ViewCommands.swift:434-436 | one encoded then-block per then-block, in order |
| Codec.DecodeThens | Sources/NutView/ViewCommands.swift:453 | a decoded list has one then-block per element, each the decoding of that element |
| Codec.EncodeCondition | Sources/NutView/ViewCommands.swift:387-396 | the `condition` key decodes back to the condition's expression, and `variable` is written exactly for a cast, holding its name |
| Codec.DecodeCondition | Sources/NutView/ViewCommands.swift:377-385 | a missing `condition` is keyNotFound; a decoded condition is a cast exactly when `variable` is present, with that name, and its expression is the decoded `condition` |
| Codec.EncodeThen | Sources/NutView/ViewCommands.swift:414-420 | all three keys are always written, even for empty lists: the encoded conditions, the encoded block and the line |
| Codec.DecodeThen | Sources/NutView/ViewCommands.swift:406-412 | `conditions` and then `block` are required (keyNotFound otherwise); a decoded then-block has one condition and one command per element and the stored line |
| Codec.DecodeFlat | Sources/NutView/ViewCommands.swift:296-321 | a leaf command decoded for a tag has that tag's kind and the stored `line` |
| Codec.DecodeCommand | Sources/NutView/ViewCommands.swift:291-321 | a decoded command has the kind its `id` tag names |
| Codec.DecodeFor | Sources/NutView/ViewCommands.swift:351-368 | a decoded `For` comes from an object tagged `for`; another valid tag fails with "Wrong ID" |
| Codec.DecodeIf | Sources/NutView/ViewCommands.swift:443-459 | a decoded `If` comes from an object tagged `if`; another valid tag fails with "Wrong ID" |
| Codec.DecodeOptList | Sources/NutView/ViewCommands.swift:362-366 | an absent key or a value that is not an array gives `[]`; an array gives one command per element |
| Codec.EncodeView | Sources/NutView/ViewCommands.swift:28-33 | the encoding of a `ViewCommands` decodes back to it, `fileName` included |
| Codec.DecodeView | Sources/NutView/ViewCommands.swift:34-39 | a missing `fileName` is keyNotFound; a decoded view has the stored file name and one command per element of the `body` array |
| Codec.DecodeList | Sources/NutView/ViewCommands.swift:284-325 | a decoded list has one command per element, each the decoding of that element |
| Codec.DecodeUnkeyed | Sources/NutView/ViewCommands.swift:284-325 | the while loop decodes exactly what `DecodeList` does |
| Codec.Dispatch | Sources/NutView/ViewCommands.swift:293-321 | the `id` tag alone chooses the decoder |
| Codec.ListFailsAtFirst | Sources/NutView/ViewCommands.swift:291-323 | a list fails with the error of its first failing element |
| Codec.EncodedKind | Sources/NutView/ViewCommands.swift:246-281 | every encoded command is an object tagged with its kind |
| Codec.DispatchOnKind | Sources/NutView/ViewCommands.swift:246-321 | an encoded command is decoded by the decoder for its own kind |
| Codec.RoundTripCondition | Sources/NutView/ViewCommands.swift:371-397 | a condition round-trips, simple or cast; the encoding has `variable` only for a cast |
| Codec.RoundTripConditions | Sources/NutView/ViewCommands.swift:371-397 | a list of conditions round-trips |
| Codec.RoundTripFlat | Sources/NutView/ViewCommands.swift:246-325 | every leaf command round-trips |
| Codec.RoundTripDate | Sources/NutView/ViewCommands.swift:199-210 | a `Date`, with or without format, round-trips |
| Codec.RoundTripNamed | Sources/NutView/ViewCommands.swift:108-120 | `Layout` and `Subview` round-trip |
| Codec.RoundTripHeadCommand | Sources/NutView/ViewCommands.swift:84-100 | `Title`, `Head` and `Body` round-trip |
| Codec.RoundTripMarkup | Sources/NutView/ViewCommands.swift:218-227 | `HTML` and `InsertView` round-trip |
| Codec.RoundTripValue | Sources/NutView/ViewCommands.swift:102-106 | `RawValue` and `EscapedValue` round-trip |
| Codec.RoundTripFor | Sources/NutView/ViewCommands.swift:338-368 | a `For` round-trips, including the encodings that leave out a nil `key` and empty `commands` |
| Codec.RoundTripIf | Sources/NutView/ViewCommands.swift:430-459 | an `If` round-trips, including the encodings that leave out empty `thens` and `else` |
| Codec.RoundTripThen | Sources/NutView/ViewCommands.swift:399-421 | a then-block round-trips |
| Codec.RoundTripThens | Sources/NutView/ViewCommands.swift:399-421 | a list of then-blocks round-trips |
| Codec.RoundTripCommand | Sources/NutView/ViewCommands.swift:246-325 | every command round-trips, with kind, payload and line |
| Codec.RoundTripList | Sources/NutView/ViewCommands.swift:246-325 | a command list round-trips in order |
| ParseSpec.CheckNextToken | Sources/NutView/NutParser.swift:326-346 | incompleteCommand at the end; success iff the kind (and the value, when asked) match; otherwise a syntax error at the token's line |
| ParseSpec.IdentifierFrom | Sources/NutView/NutParser.swift:347-385 | every error of the state machine is a syntax error of this file at this line |
| ParseSpec.IdentifierFromValid | Sources/NutView/NutParser.swift:353-385 | from any point and state, the machine accepts iff the rest is valid |
| ParseSpec.IdentifierAccepts | Sources/NutView/NutParser.swift:347-385 | accepted iff the string is `[A-Za-z_][A-Za-z0-9_]*` segments joined by `.`, with dots only under `allowNesting` |
| ParseSpec.IdentifierFirstCharacter | Sources/NutView/NutParser.swift:357-364 | an empty string "is not valid identifier"; a bad first character "can not starts with" it |
| ParseSpec.IdentifierBadCharacter | Sources/NutView/NutParser.swift:357-379 | inside an identifier a character that is neither an identifier character nor a dot is "Unsupported character"; after a dot a segment that does not start like an identifier "can not starts with" that character |
| ParseSpec.IdentifierDots | Sources/NutView/NutParser.swift:369-384 | a dot without nesting is "Expecting identifier without nesting"; a trailing dot with nesting "is not valid identifier" |
| ParseSpec.CheckedName | Sources/NutView/NutParser.swift:224-243 | a variable name is accepted iff it is a valid identifier |
| ParseSpec.Lexed | Sources/NutView/NutParser.swift:40-41 | a lexical error becomes the parser's `lexical` error of this file |
| ParseSpec.ForVariables | Sources/NutView/NutParser.swift:216-238 | a key exists iff a tuple was written; the names are valid identifiers without dots; another token is the "Expecting 'variable name' or 'tupple'" error |
| ParseSpec.ForAt | Sources/NutView/NutParser.swift:213-246 | no token is "variable name" incompleteCommand; on success value and key are plain identifiers and the collection may be dotted |
| ParseSpec.LetBinding | Sources/NutView/NutParser.swift:252-265 | a binding exists iff the next token is the text `let`, and then the name is a valid plain identifier; otherwise nothing is consumed |
| ParseSpec.IfFrom | Sources/NutView/NutParser.swift:251-277 | the repeat loop only appends conditions after the ones read so far, and always makes progress |
| ParseSpec.IfAt | Sources/NutView/NutParser.swift:248-279 | `parseIf` reads at least one condition |
| ParseSpec.IfConditionStops | Sources/NutView/NutParser.swift:266-277 | each condition is a cast iff `let name =` preceded it, and the loop reads another condition iff the expression stopped at `,` |
| ParseSpec.RawValueAt | Sources/NutView/NutParser.swift:295-299 | a raw value takes the command's line |
| ParseSpec.EscapedValueAt | Sources/NutView/NutParser.swift:300-304 | an escaped value needs `(`, and takes the line of its expression |
| ParseSpec.DateAt | Sources/NutView/NutParser.swift:309-324 | a `Date` has a format iff its first expression stopped at `,` |
| ParseSpec.DateSecondArgument | Sources/NutView/NutParser.swift:313-316 | after `,` anything but the named argument `format` fails as `checkNextToken` does |
| ParseSpec.InsertViewAt | Sources/NutView/NutParser.swift:281-286 | `\View()` gives `InsertView` at the command's line |
| ParseSpec.SimpleCommandAt | Sources/NutView/NutParser.swift:87-105 | commands carry the command's line, except `EscapedValue`, which carries its expression's line; `Head` is the unknown error |
| ParseSpec.InitialState | Sources/NutView/NutParser.swift:72-74 | the initial state (main, empty stack, empty body) is well formed |
| ParseSpec.ClosedBlock | Sources/NutView/NutParser.swift:138-160 | closing a block builds an `If` exactly when the block is not a `for` |
| ParseSpec.ClosedBlockGood | Sources/NutView/NutParser.swift:162-171 | a block that is kept has non-empty `If`/`For` nodes all the way down |
| ParseSpec.BlockEndStep | Sources/NutView/NutParser.swift:137-171 | fails in main with "Unexpected block end 'blockEnd'"; otherwise pops one frame and appends the closed block unless it is empty |
| ParseSpec.IfSoFar | Sources/NutView/NutParser.swift:120-131 | `else`/`else if` continue the `If` with the open block's conditions and body, kept only when the body is non-empty |
| ParseSpec.ElseStep | Sources/NutView/NutParser.swift:172-187 | allowed iff an if or else-if is open, else "Missing if <expression> { for closing else"; the stack stays and the body restarts empty |
| ParseSpec.ElseIfStep | Sources/NutView/NutParser.swift:119-136 | outside an if or else-if it fails with "Missing if ... closing elseIf"; otherwise the stack stays and the body restarts empty |
| ParseSpec.OpenStep | Sources/NutView/NutParser.swift:106-118 | `if`/`for` push (context, body) and open an empty body, keeping the state well formed |
| ParseSpec.CommandStep | Sources/NutView/NutParser.swift:86-191 | every command keeps the parser state well formed: the stack holds exactly the enclosing blocks |
| ParseSpec.Step | Sources/NutView/NutParser.swift:75-192 | each round of the loop consumes input and keeps the state well formed |
| ParseSpec.Finish | Sources/NutView/NutParser.swift:194-210 | the end succeeds iff no block is open; otherwise a syntax error at the line that opened the block |
| ParseSpec.ParseLoop | Sources/NutView/NutParser.swift:75-210 | a parsed body has no empty `If` or `For` at any depth |
| ParseSpec.ParseAll | Sources/NutView/NutParser.swift:57-211 | a parsed template has no empty `If` or `For` at any depth |
| Parser.NutParser.constructor | Sources/NutView/NutParser.swift:17-30 | remembers content and name, with nothing parsed yet |
| Parser.NutParser.GetCommands | Sources/NutView/NutParser.swift:32-51 | the first successful call parses and memoises `ViewCommands(name, body)`; later calls return the memo |
| Parser.NutParser.ParseCommands | Sources/NutView/NutParser.swift:57-211 | the loop over the context stack returns what `ParseSpec.ParseAll` specifies |
| Parser.NutParser.Dispatch | Sources/NutView/NutParser.swift:86-191 | one command changes the stack, context and body as `ParseSpec.CommandStep` says |
| Parser.NutParser.SimpleCommand | Sources/NutView/NutParser.swift:87-105 | the non-block commands are parsed as `ParseSpec.SimpleCommandAt` says |
| Parser.NutParser.ParseFor | Sources/NutView/NutParser.swift:213-246 | returns what `ParseSpec.ForAt` specifies and leaves the lexer after `{` |
| Parser.NutParser.TupleVariables | Sources/NutView/NutParser.swift:226-234 | the `(key, value)` form as `ParseSpec.ForVariables` specifies |
| Parser.NutParser.ParseIf | Sources/NutView/NutParser.swift:248-279 | the repeat loop returns the conditions `ParseSpec.IfAt` specifies |
| Parser.NutParser.ReadLet | Sources/NutView/NutParser.swift:256-265 | the optional `let name =` prefix as `ParseSpec.LetBinding` specifies |
| Parser.NutParser.ParseInsertView | Sources/NutView/NutParser.swift:281-286 | `()` after `\View` as `ParseSpec.InsertViewAt` |
| Parser.NutParser.ParseRawValue | Sources/NutView/NutParser.swift:295-299 | `(expression)` as `ParseSpec.RawValueAt` |
| Parser.NutParser.ParseEscapedValue | Sources/NutView/NutParser.swift:300-304 | `(expression)` as `ParseSpec.EscapedValueAt` |
| Parser.NutParser.ParseDate | Sources/NutView/NutParser.swift:309-324 | `Date(expr)` or `Date(expr, format: expr)` as `ParseSpec.DateAt` |
| Parser.NutParser.CheckNextToken | Sources/NutView/NutParser.swift:326-346 | as `ParseSpec.CheckNextToken` |
| Parser.NutParser.CheckVariable | Sources/NutView/NutParser.swift:347-385 | the state-machine loop reports the first error of `ParseSpec.IdentifierFrom`, none iff the name is valid |
| Resolver.DotsToSlashes | Sources/NutView/NutResolver.swift:22 | every `.` becomes `/` and every other character stays |
| Resolver.NutPath | Sources/NutView/NutResolver.swift:22-27 | the template path is the name with `/` for `.`, then `.nut`, and has no dot before the suffix |
| Resolver.FruitPath | Sources/NutView/NutResolver.swift:23-26 | the artifact path is the name followed by `.fruit` |
| Resolver.NutModified | Sources/NutView/NutResolver.swift:75-80 | a template modification time exists only for an existing template |
| Resolver.FruitModified | Sources/NutView/NutResolver.swift:75-80 | an artifact modification time exists only for an existing artifact |
| Resolver.IsValid | Sources/NutView/NutResolver.swift:63-73 | valid iff both files exist, both modification times are known and the artifact's is strictly later |
| Resolver.Compile | Sources/NutView/NutResolver.swift:44-46 | a compiled template is named by its path and holds no empty `If`/`For` |
| Resolver.ViewCommandsFor | Sources/NutView/NutResolver.swift:21-61 | templates are never written, and a failure changes nothing |
| Resolver.OnlyOwnEntriesChange | Sources/NutView/NutResolver.swift:21-61 | only this name's artifact and cache entry can change |
| Resolver.NotExistsWithoutTemplate | Sources/NutView/NutResolver.swift:28-35 | without the template the call fails with notExists and changes nothing, whatever is cached |
| Resolver.CacheUsedOnlyWhenValid | Sources/NutView/NutResolver.swift:28-31 | a cached entry is returned when the artifact is valid; when it is not, the cache has no effect on the result |
| Resolver.ArtifactOrTemplate | Sources/NutView/NutResolver.swift:39-46 | a valid artifact is decoded; otherwise the template is compiled |
| Resolver.IdenticalArtifactNotWritten | Sources/NutView/NutResolver.swift:48-53 | when the new encoding equals the artifact on disk, the result is returned and neither file nor cache changes |
| Resolver.SuccessIsCached | Sources/NutView/NutResolver.swift:48-60 | any other success caches the result; a written artifact has the current time and decodes back to the result |
| Resolver.ResolveIdempotent | Sources/NutView/NutResolver.swift:21-61 | resolving the same name again, at any time, returns the same result and changes nothing |
| Resolver.DecodedAgain | Sources/NutView/NutResolver.swift:28-42 | after a decode has been cached, the next call hits the cache |
| Resolver.CompiledAgain | Sources/NutView/NutResolver.swift:28-58 | after a compile has written the artifact and cached the result, the next call hits the cache |
| Resolver.NutResolver.constructor | Sources/NutView/NutResolver.swift:17-20 | starts with the given files and an empty cache |
| Resolver.NutResolver.ViewCommands | Sources/NutView/NutResolver.swift:21-61 | the result, files and cache after the call are those of `Resolver.ViewCommandsFor` |
| Text.ReplaceFirst | Sources/NutView/NutInterpreter.swift:63-69 | only the first occurrence of the pattern is replaced and the rest stays; no occurrence changes nothing |
| Markup.ReplaceChar | Sources/NutView/NutInterpreter.swift:173-179 | replacing `c` by a text without `c` removes every `c`; a text without `c` is unchanged |
| Markup.ConvertToSpecialCharacters | Sources/NutView/NutInterpreter.swift:164-181 | the output has no raw `<` `>` `"` `'`; a text without the five special characters is unchanged |
| Markup.Escaped | Sources/NutView/NutInterpreter.swift:164-181 | escaping character by character gives safe text: no raw `<` `>` `"` `'`, and every `&` starts one of the five entities |
| Markup.ConvertAppend | Sources/NutView/NutInterpreter.swift:164-181 | escaping distributes over concatenation |
| Markup.ConvertChar | Sources/NutView/NutInterpreter.swift:164-181 | the chain of five replacements escapes each character on its own; `&` first prevents double escaping |
| Markup.ConvertIsEscaped | Sources/NutView/NutInterpreter.swift:164-181 | the replacement chain equals escaping character by character |
| Markup.EscapedIsSafe | Sources/NutView/NutInterpreter.swift:164-181 | the output has no raw `<` `>` `"` `'`, and every `&` starts one of the five entities |
| Markup.UnescapeEscaped | Sources/NutView/NutInterpreter.swift:164-181 | escaping loses nothing: decoding the entities gives back the input |
| Markup.Matches | Sources/NutView/NutInterpreter.swift:61-66 | the `[\s\S]*A[\s\S]*B[\s\S]*` test holds iff `A` occurs and `B` occurs after it |
| Markup.InjectHead | Sources/NutView/NutInterpreter.swift:58-75 | with `<head>...</head>` the head goes just before the first `</head>`; else with `<body>...</body>` a new head goes just before the first `<body>`; else the fixed `<!DOCTYPE>` skeleton wraps the page; the rest of the page is kept |
| Markup.InjectIntoHead | Sources/NutView/NutInterpreter.swift:61-63 | with a `<head>` section, the first `</head>` exists and replacing it puts the head just before it, the rest of the page unchanged |
| Markup.InjectBeforeBody | Sources/NutView/NutInterpreter.swift:65-69 | with a `<body>` section, the first `<body>` exists and replacing it puts a new `<head>` just before it, the rest of the page unchanged |
| Interpretation.Combine | Sources/NutView/NutInterpreter.swift:119-127 | content and heads are concatenated; a later layout replaces an earlier one, a missing one keeps it |
| Interpretation.CombineAssoc | Sources/NutView/NutInterpreter.swift:107-158 | combining run results is associative with the empty result as unit |
| Interpretation.Restore | Sources/NutView/NutInterpreter.swift:389-393 | the name gets its old value back, or is removed if it had none; other names stay |
| Interpretation.RestoreUndoes | Sources/NutView/NutInterpreter.swift:287-325 | when only one name changed, putting back its previous value gives the original data |
| Interpretation.RestoreUndoesTwo | Sources/NutView/NutInterpreter.swift:291-325 | when only two names changed, putting back both previous values gives the original data |
| Interpretation.RestoreAllFirstValues | Sources/NutView/NutInterpreter.swift:388-403 | undoing last first, as the model does, gives each recorded name the value saved at its first binding, and leaves other names alone |
| Interpretation.RestoreInOrderLastValues | Sources/NutView/NutInterpreter.swift:388-403 | undoing first to last, as the code does, gives each recorded name the value saved at its last binding, and leaves other names alone |
| Interpretation.InOrderRestoresDistinct | Sources/NutView/NutInterpreter.swift:388-403 | when no name is recorded twice, both undo orders give the same data |
| Interpretation.Unwrap | Sources/NutView/NutInterpreter.swift:194-208 | a nil value becomes `"nil"`; other values are unchanged |
| Interpretation.GetValue | Sources/NutView/NutInterpreter.swift:210-231 | a name without dots is a plain, unwrapped lookup |
| Interpretation.GetValueBySegments | Sources/NutView/NutInterpreter.swift:210-231 | a dotted path descends through nested maps one segment at a time |
| Interpretation.CountOfCollection | Sources/NutView/NutInterpreter.swift:211-220 | `x.count` is the length of the array or map `x` |
| Interpretation.RawExpression | Sources/NutView/NutInterpreter.swift:237-247 | fails iff the evaluator does, with an evaluationError at the expression's line |
| Interpretation.EscapedExpression | Sources/NutView/NutInterpreter.swift:249-259 | the output is safe HTML that decodes to the raw output; the errors are those of the raw value |
| Interpretation.TitleText | Sources/NutView/NutInterpreter.swift:186-189 | fails iff the expression does; otherwise `<title>`, safe escaped text that decodes to the raw value, and `</title>` |
| Interpretation.UnknownToken | Sources/NutView/NutInterpreter.swift:93 | the `UnknownToken<id>` line is escaped: safe text that decodes to the plain line |
| Interpretation.RunHead | Sources/NutView/NutInterpreter.swift:86-97 | fails iff some title's expression fails |
| Interpretation.DateText | Sources/NutView/NutInterpreter.swift:261-267 | a non-numeric date value is wrongValue "Double" at the date's line |
| Interpretation.Conditions | Sources/NutView/NutInterpreter.swift:340-385 | undoing the recorded bindings, last first, gives back the data before the conditions |
| Interpretation.ConditionErrors | Sources/NutView/NutInterpreter.swift:340-381 | an evaluator error is an evaluation error at the condition's line; a simple condition whose value is nil is wrongValue "Bool" got "nil", and one whose value is not a Bool is wrongValue "Bool" with that value |
| Interpretation.ConditionsStopAtFailure | Sources/NutView/NutInterpreter.swift:382-384 | after a false condition, the later conditions are not evaluated |
| Interpretation.ConditionsBindDistinct | Sources/NutView/NutInterpreter.swift:340-385 | a then-block whose `if let` names are pairwise distinct records each name at most once |
| Interpretation.IfLetUndoAgrees | Sources/NutView/NutInterpreter.swift:340-403 | when the `if let` names of a then-block are pairwise distinct, the undo as written (first to last) gives back the data before the conditions, so the code and the corrected model agree |
| Interpretation.RunSeq | Sources/NutView/NutInterpreter.swift:107-158 | running a body leaves the data as it was |
| Interpretation.RunCommand | Sources/NutView/NutInterpreter.swift:113-155 | running a command leaves the data as it was |
| Interpretation.ForCommand | Sources/NutView/NutInterpreter.swift:282-327 | a missing collection is missingValue; with a key variable a collection that is not an object is wrongValue "[String: Any]", without one a collection that is not an array is wrongValue "[Any]"; after the loop the variables are back as they were (absent if they were absent), for zero iterations too |
| Interpretation.ForItems | Sources/NutView/NutInterpreter.swift:315-323 | the array loop changes only the value variable |
| Interpretation.ForEntries | Sources/NutView/NutInterpreter.swift:298-307 | the mapping loop changes only the key and value variables |
| Interpretation.IfFrom | Sources/NutView/NutInterpreter.swift:334-409 | trying branches leaves the data as it was |
| Interpretation.Page | Sources/NutView/NutInterpreter.swift:36-84 | a page is rendered from the resolved view; an interpretation error gets the view's file name |
| Interpretation.PageBody | Sources/NutView/NutInterpreter.swift:36-76 | a view error is the result; on success the second part is the view's own content; without layout and heads the page is that content |
| Interpretation.RunSeqAppend | Sources/NutView/NutInterpreter.swift:112-156 | running `a + b` runs `a` and then `b`, stopping at the first error |
| Interpretation.RunSeqFrom | Sources/NutView/NutInterpreter.swift:109-157 | the accumulated output is the earlier output combined with the body's own |
| Interpretation.OutputInOrder | Sources/NutView/NutInterpreter.swift:112-157 | output is the first command's output followed by the rest's, and the first error wins |
| Interpretation.LastLayoutWins | Sources/NutView/NutInterpreter.swift:148-150 | a `Layout` at the end sets the layout, whatever came before |
| Interpretation.TitleGoesToHeads | Sources/NutView/NutInterpreter.swift:151-152 | a `Title` goes to the heads, not the content |
| Interpretation.InsertViewNeedsContent | Sources/NutView/NutInterpreter.swift:132-136 | `InsertView` before the view content is known is recursiveView |
| Interpretation.IfTakesFirstBranch | Sources/NutView/NutInterpreter.swift:334-395 | after rejected branches, the first accepted branch runs with its bindings, and the data is restored afterwards |
| Interpretation.IfSkipsAll | Sources/NutView/NutInterpreter.swift:334-404 | a run of rejected branches is skipped without effect |
| Interpretation.IfSkipsRejected | Sources/NutView/NutInterpreter.swift:396-404 | a rejected branch is skipped and its bindings are undone |
| Interpretation.IfRunsAccepted | Sources/NutView/NutInterpreter.swift:386-395 | an accepted branch runs its block and restores the data |
| Interpretation.IfFallsToElse | Sources/NutView/NutInterpreter.swift:406-409 | when every branch is rejected, the else body runs, or the result is empty |
| Interpretation.InOrderRestoreLeaks | Sources/NutView/NutInterpreter.swift:388-403 | with `let x = a, let x = b` the forward undo leaves `x` bound, while the last-first undo removes it |
| Interpreter.NutInterpreter.constructor | Sources/NutView/NutInterpreter.swift:30-34 | the view name is `Views.` + name, with no view content yet |
| Interpreter.NutInterpreter.Resolve | Sources/NutView/NutInterpreter.swift:36-84 | returns the page `Interpretation.Page` specifies; data and current name are unchanged afterwards |
| Interpreter.NutInterpreter.Render | Sources/NutView/NutInterpreter.swift:38-76 | runs view, layout and head injection as `Interpretation.PageBody` specifies |
| Interpreter.NutInterpreter.RunHeads | Sources/NutView/NutInterpreter.swift:86-97 | the loop concatenates the rendered titles |
| Interpreter.NutInterpreter.RunBody | Sources/NutView/NutInterpreter.swift:107-158 | the loop returns what `Interpretation.RunSeq` specifies, and data, current name and view content are as before |
| Interpreter.NutInterpreter.RunToken | Sources/NutView/NutInterpreter.swift:113-155 | one command as `Interpretation.RunCommand`; the current name is restored after a subview |
| Interpreter.NutInterpreter.ParseRawExpression | Sources/NutView/NutInterpreter.swift:237-247 | as `Interpretation.RawExpression` |
| Interpreter.NutInterpreter.ParseExpression | Sources/NutView/NutInterpreter.swift:249-259 | as `Interpretation.EscapedExpression` |
| Interpreter.NutInterpreter.ParseTitle | Sources/NutView/NutInterpreter.swift:186-189 | the escaped expression inside `<title>` tags |
| Interpreter.NutInterpreter.ParseDate | Sources/NutView/NutInterpreter.swift:261-280 | as `Interpretation.DateText` |
| Interpreter.NutInterpreter.ParseFor | Sources/NutView/NutInterpreter.swift:282-327 | the loops mutate `data` in place and return what `Interpretation.ForCommand` specifies, with `data` restored |
| Interpreter.NutInterpreter.ParseIf | Sources/NutView/NutInterpreter.swift:331-410 | the branch loop returns what `Interpretation.IfFrom` specifies, with `data` restored |
| Interpreter.NutInterpreter.EvaluateConditions | Sources/NutView/NutInterpreter.swift:340-385 | the loop binds `if let` variables in `data` and records the old values as `Interpretation.Conditions` does |
| Interpreter.NutInterpreter.RestoreBindings | Sources/NutView/NutInterpreter.swift:388-403 | undoes the recorded bindings last first, the corrected order; the code at these lines undoes them first to last (see "## Findings") |

## Left out

- Characters are Dafny `char`s, not Swift grapheme clusters. There is no Unicode normalisation.
- The parser's `viewType` (Sources/NutView/NutParser.swift:21-29) is computed but never read by the code modelled, so it is not modelled.
- ParseSpec.SimpleCommandAt: the parser's command switch has no case for the `Head` command token. The model makes it the `unknown` parser error with the description `head`.
- `Buffer.read(until:skipString:)` with `skipString == true` is not modelled. Nothing in the core passes it. The one-stop `read(until:)` wrapper (Sources/NutView/NutLexical.swift:320-322) is not modelled either, because nothing calls it.
- Lexical.Buffer.Read models the private `read(until:skipString:allowEOF:)`. The public `read(until:)` that asserts a stop is the same method with `allowEOF` false.
- `HTMLToken.description` and `CommandToken.description` are defined as functions, but nothing is proved about them.
- The expression evaluator, `String(describing:)`, `Double(...)`, `DateFormatter` and the iteration order of a dictionary are parameters of the interpreter (the `Host` datatype).
- Interpretation.DateText: states only the non-numeric wrongValue "Double" error; the rendered date, with its default format, is left to the host's `formatDate`, which is not part of this model.
- Interpretation.ForEntries: the mapping form of `for` visits keys in the order `keyOrder` gives, and keys it lists that are not in the map are skipped. `keyOrder` is not constrained to list every key of the map exactly once, so the model also admits orders that leave entries out or visit them twice, which Swift's `for (key, value) in dic` never does; no proved property depends on it. Properties of this form are stated without reference to that order.
- `unwrap(any:)` reflects on Swift optionals. A closed `Value` datatype with `Null` replaces it.
- The JSON bytes of the artifact are not modelled. The artifact is the `Json` datatype, and artifacts are compared by structural equality.
- The regular expressions in `resolve()` are modelled as "A occurs, and B occurs after it" (Markup.Matches). `replaceFirst(matching:with:)` is modelled as literal replacement of the first occurrence. The patterns `</head>` and `<body>` hold no regular-expression characters. The replacement text is also taken literally: template characters such as `$` or `\` in the rendered head are not modelled, because the Regex library is not part of this model.
- The interpreter resolves subviews recursively. The model bounds the nesting with `fuel` and fails with `SubviewDepth` when the bound is reached, so views nested deeper than the bound are not modelled.
- Interpreter.NutInterpreter.RunBody and the other methods of the class state the data they leave behind only when they succeed. The Swift code leaves partly changed data after an error, and the model does not specify that data.
- ParseSpec.Finish: states that an unclosed block is a syntax error at the line that opened it, not the message text naming the block kind.
- LexSpec.ExprLoop: follows the corrected behaviour, not the code: the depth ignores `(` and `)` inside string literals (see "## Findings"). LexSpec.ExprLoopAsWritten is the code's loop; LexSpec.ExprLoopAgrees proves the two agree when no parenthesis occurs inside a string.
- LexSpec.ExpressionAt: follows the corrected behaviour, not the code (see LexSpec.ExprLoop). LexSpec.ExpressionAtAgrees relates it to LexSpec.ExpressionAtAsWritten. ParseSpec.ParseAll, Parser.NutParser.ParseCommands and Resolver.Compile read expressions through it, so they inherit the quote-aware depth.
- LexSpec.QuotesDepthStep: states the corrected, quote-aware depth, not the code's.
- LexSpec.ExprStep: states one round of the corrected loop, not the code's.
- Lexical.NutLexical.ReadExpression: the method follows the corrected behaviour, not the code: it skips `(` and `)` inside string literals when counting the depth.
- Interpretation.RunSeq: follows the corrected behaviour, not the code: `if let` bindings are undone last first (see "## Findings"). The two agree when the names bound by one then-block are pairwise distinct (Interpretation.IfLetUndoAgrees). The same holds for the members below that run an `If`.
- Interpretation.RunCommand: follows the corrected `if let` undo order, not the code's (see Interpretation.RunSeq).
- Interpretation.ForCommand: runs its body through the corrected `if let` undo order, not the code's (see Interpretation.RunSeq).
- Interpretation.ForItems: runs its body through the corrected `if let` undo order, not the code's (see Interpretation.RunSeq).
- Interpretation.ForEntries: runs its body through the corrected `if let` undo order, not the code's (see Interpretation.RunSeq).
- Interpretation.IfFrom: undoes the `if let` bindings last first, the corrected order, not the code's first to last (see Interpretation.RunSeq).
- Interpretation.IfTakesFirstBranch: states the corrected `if let` undo order, not the code's (see Interpretation.IfFrom).
- Interpretation.IfSkipsAll: states the corrected `if let` undo order, not the code's (see Interpretation.IfFrom).
- Interpretation.IfSkipsRejected: states the corrected `if let` undo order, not the code's (see Interpretation.IfFrom).
- Interpretation.IfRunsAccepted: states the corrected `if let` undo order, not the code's (see Interpretation.IfFrom).
- Interpreter.NutInterpreter.Resolve: follows the corrected `if let` undo order, not the code's (see Interpretation.RunSeq).
- Interpreter.NutInterpreter.RunBody: follows the corrected `if let` undo order, not the code's (see Interpretation.RunSeq).
- Interpreter.NutInterpreter.ParseFor: follows the corrected `if let` undo order inside its body, not the code's (see Interpretation.RunSeq).
- Interpreter.NutInterpreter.ParseIf: follows the corrected `if let` undo order, not the code's (see Interpretation.RunSeq).
- Interpreter.NutInterpreter.RestoreBindings: undoes last first, the corrected order; the code at Sources/NutView/NutInterpreter.swift:388-403 undoes first to last.
- Interpreter.NutInterpreter.RunToken: follows the corrected `if let` undo order, not the code's (see Interpretation.RunSeq). The type switch of `run(body:)` is a separate method, one case per command kind. The `default` case that prints `UnknownToken` only covers `Head` and `Body` in a closed datatype.
- `encode(commands:)` throws for a command type it does not know. With a closed datatype there is no such command.
- Files, modification times, the cache library, PathKit and FileManager are maps in the resolver's state. The clock is the `now` parameter. Concurrency on the shared cache is not modelled. Failing reads and writes behind `try?` are not modelled.
- Resolver.ViewCommandsFor: when the template is missing the source fails without touching the cache, and the model follows it.
- The deprecated `Old*` files, `NutError.swift`'s error descriptions, `View.swift`, `NutConfig.swift` and the other wrappers are not part of this model. `OldNutParserError`'s kinds appear only as the interpreter's error values.
- The resolver's integration test expects the template path to end in `.nut.html`. The code appends `.nut`, and the model follows the code.

## Findings

| source | as written | input that shows it | evidently intended | confidence | as-written member | corrected member |
|---|---|---|---|---|---|---|
| Sources/NutView/NutLexical.swift:179-204 | `readExpression` counts parentheses also inside double quotes, so a `)` inside a string literal shifts the depth | `")")` read until `)`: the closing `)` is at depth -2, never -1, and the read fails with unexpectedEnd | stop at the first `)` outside strings that closes the expression, returning `")"` | not executed | LexSpec.ParenInStringCounterexample | LexSpec.ExpressionAtFirstStop |
| Sources/NutView/NutInterpreter.swift:388-403 | `parse(if:)` undoes `if let` bindings first to last | `\if let x = a, let x = b {` with `x` absent, `a` = 1 and `b` = 2: after the block `x` is 1 | undo last to first, so `x` is absent again | not executed | Interpretation.InOrderRestoreLeaks | Interpretation.Conditions |
