# A verified model of the `lex` scanner

This project models the single-pass lexer of a small compiler front end in
Dafny. The lexer is the function `lex` in `src/lexer.rs`, together with its
operator macro `parse_operator!`, and the token data model in
`src/types.rs`. It turns a character sequence into a sequence of tokens.
Each token has one of 17 kinds, its text, and a span (line, column, length).
The lexer panics on malformed input.

The model is functional. `Lexer.Lex(text)` is the loop started at index 0,
column 1, with no newline recorded. `Lexer.LexFrom` performs one iteration
(`Lexer.Step`) and then the rest of the loop. `Lexer.Dispatch` is the
`match` on the current character. Each of its arms returns a `Scanned`
value with these fields:

- the token, if any;
- the index of the last character consumed;
- the column counter and newline count the arm leaves;
- the loop's own span length, which the loop adds to the column counter.

A panic becomes `Err` with a `LexError` saying which condition fired. The
`rows` vector is modelled by its length, the number of newlines recorded.
This is the only part of it that reaches a token.
`LexProperties.LexLoop` is the loop written imperatively, as a method. It is
proved equal to `Lex`.

Modules follow the structure of the source:

- `Types`: token kinds, spans, tokens, and the result type.
- `CharClass`: character classes, maximal runs, occurrence counts, and column
  bookkeeping.
- `Cursors`: the loop state (`Cursor`) and an arm's result (`Scanned`).
- `Operators`: the operator macro.
- `StringLiteral`: string literals, their escape decoding, and the inverse
  (writing a value as a literal).
- `CommentScan`: `//` and `/*` comments.
- `NumberScan`: number literals and the second-dot rule.
- `Lexer`: the dispatch, one iteration, the loop, and token well-formedness.
- `StepProperties`: what one iteration does to errors, lines and columns.
- `LexProperties`: properties of the whole token stream.
- `LexScenarios`: token streams for families of inputs.

Behaviour of the code that the model keeps as written:

- The operator macro reports the line as the number of newlines seen so far.
  That is one less than every other token, so operators on the first line
  report line 0.
- Every token the operator macro builds claims length 2, also a single
  operator character. Its column advance is still the loop's span length of 1.
  A compound assignment like `+=` therefore moves the column by one, although
  it consumes two characters.
- An operator character as the last character of the input aborts the lexer,
  because the macro indexes past the end.
- A string literal's token reports the column counter after each recognised
  escape has moved it one to the right.
  - The loop's first comparison is with the body's first character rather
    than the opening quote. This never changes the outcome.
  - A backslash before any character other than `n`, `t`, `r` or `"` is kept.
- A line comment's body runs up to the newline, which the next iteration
  handles.
  - The body is counted in the column twice: once by the comment loop and
    once more by the advance.
  - `//` as the last two characters of the input aborts.
- A block comment loop stops at any `/` and right after any `*`. So the only
  block comments that close are:
  - `/*/`, an empty comment whose column steps one back. At column 1 its
    token therefore reports column 0, the only token with a column below 1;
  - a non-empty stretch free of `*` and `/`, followed by `*/`.

  Every other `/*` comment aborts as unclosed, for example `/**/` or
  `/* a*b */`.
- A second dot in a number ends the number two positions before that dot, as
  an Int. The character just before the second dot is then scanned again. So
  `1.2.3` gives Int `1.` and then Float `2.3`, and `1..5` gives Int `1`, the
  range operator and Int `5`.
- A `.` not followed by another `.` is accepted by no arm and aborts.

A line comment's body is everything after `//`, so the body of
`// line comment` keeps its leading space.

## Model

| member | source | states |
|---|---|---|
| Types.AllKinds | src/types.rs:1-22 | The token kind enumeration is closed and has exactly 17 distinct kinds. |
| Types.StructuralKinds | src/types.rs:3-11 | Nine structural kinds, each once, exactly those classified as structural. |
| Types.LiteralKinds | src/types.rs:13-17 | Five literal and comment kinds, each once, exactly those classified as literals. |
| Types.OperatorKinds | src/types.rs:19-21 | Three operator kinds, each once, exactly those classified as operators. |
| Types.KindGroupsPartition | src/types.rs:2-22 | Structural, literal and operator kinds partition the enumeration: every kind is in exactly one group. |
| Types.Pop | src/lexer.rs:169 | Dropping the last element and putting it back restores the sequence; an empty sequence stays empty. |
| Operators.ParseOperator | src/lexer.rs:5-50 | Fails exactly when the operator is the last character, and then with TrailingOperator. Otherwise: an Assignment `op=` exactly when `=` follows; a two-character Operator exactly when the character is doubled; else the operator alone. The value is always the source text consumed. The span is always (newline count, col, 2). |
| Lexer.OperatorArm | src/lexer.rs:148-151 | The operator arm fails exactly at the end of the input. Otherwise it yields a token, leaves column and newline count alone, and advances the column by the loop's span length 1. |
| Lexer.SingleCharKind | src/lexer.rs:70-114 | The single-character arms yield Assignment for `=` and nothing else for it, and otherwise a structural kind other than Colon whose character is the one that selected it. |
| Lexer.SingleCharKindSymbol | src/lexer.rs:70-114 | Looking up a kind from its character and writing the kind's character back are mutually inverse for the single-character kinds. |
| Lexer.ScanColon | src/lexer.rs:115-147 | `::` gives ConstAssignment, `:=` gives Assignment, and any other colon gives Colon. The two-character forms are taken exactly when such a next character exists. The value is the source text consumed, and the span length is its length. |
| Lexer.WordLoop | src/lexer.rs:322-325 | The word loop stops at the end of the maximal run of word characters and has collected exactly that run. |
| Lexer.ScanWord | src/lexer.rs:319-337 | A word token is the maximal non-empty run of word characters starting at the word start. Its span length is the run's length, and the arm's last index is the run's last character. |
| Lexer.SlashArm | src/lexer.rs:211-263 | `/` fails exactly at the end of the input (LoneSlash) or when the comment it opens fails. Otherwise it yields a token that ends inside the input. |
| Lexer.DefaultArm | src/lexer.rs:264-344 | The catch-all arm fails exactly when the character is not a digit, not the start of `..`, not whitespace and not a word start. It then fails with UnexpectedValue of that character. Successful scans end inside the input. |
| Lexer.Dispatch | src/lexer.rs:69-345 | Every successful arm consumes at least the current character and ends inside the input, and the column the next iteration starts from stays positive. |
| Lexer.Step | src/lexer.rs:347-352 | One iteration strictly advances the index, stays within the input and keeps the column positive. |
| Lexer.LexFrom | src/lexer.rs:60-353 | The loop never yields more tokens than there are characters left. |
| Lexer.Lex | src/lexer.rs:52-58 | The lexer never yields more tokens than the input has characters. |
| Lexer.Cons | src/lexer.rs:349-352 | Appending the iteration's token adds one element exactly when there is a token, and adds nothing else. |
| Lexer.OperatorArmSound | src/lexer.rs:5-50 | Operator-macro tokens are well formed (length 2, one or two characters) and are the source text at the operator. |
| Lexer.SlashArmSound | src/lexer.rs:211-263 | Tokens of the `/` arm are well formed and taken from the source at the slash. |
| Lexer.DefaultArmSound | src/lexer.rs:264-344 | Numbers, ranges and words from the catch-all arm are well formed and taken from the source at the current index. |
| Lexer.DispatchSound | src/lexer.rs:69-345 | Every token any arm produces is well formed and taken from the source at the current index. This relates the arms to an independent per-kind description of tokens. |
| Lexer.StepSound | src/lexer.rs:60-352 | A token one iteration appends is well formed and taken from the source at the iteration's start index. |
| Lexer.LexFromWellFormed | src/lexer.rs:60-353 | Every token the loop yields from any state is well formed. |
| Lexer.LexWellFormed | src/lexer.rs:52-358 | Every token the lexer yields is well formed. |
| Lexer.WordWellFormed | src/lexer.rs:319-337 | Word tokens start with a letter or `_`, continue with word characters, and are the source text. |
| Lexer.StringTextAt | src/lexer.rs:152-210 | A string token's value is the decoded body up to the closing quote, and its span length is that value's length plus 2. |
| Lexer.CommentExtent | src/lexer.rs:211-257 | A comment that scans ends inside the input and always yields a token. |
| Lexer.CommentWellFormed | src/lexer.rs:211-257 | A comment token's value is the source text after its two opening characters, and its span length is the body plus 2. |
| Lexer.LineCommentWellFormed | src/lexer.rs:221-257 | The same for a `//` comment. |
| Lexer.BlockCommentWellFormed | src/lexer.rs:221-257 | The same for a `/*` comment. |
| Lexer.NumberWellFormed | src/lexer.rs:265-298 | Number tokens start with a digit, are digits and at most one dot (a Float has exactly one), and are the source text. |
| CharClass.RunEnd | src/lexer.rs:322-325 | The end of a maximal run: every character before it is in the run, and the character at it is not (or the input has ended). |
| CharClass.RunEndUnique | src/lexer.rs:270 | Any position with the maximal-run properties is the run end. |
| CharClass.Occurrences | src/lexer.rs:232-235 | The number of newlines recorded over a text (one `rows` push per newline) is at most the text's length. |
| CharClass.OccurrencesPositive | src/lexer.rs:232-235 | A character is counted at least once exactly when it occurs in the text. |
| CharClass.OccurrencesAppend | src/lexer.rs:232-235 | Newline (and dot) counts add up over concatenation. |
| CharClass.ColAfter | src/lexer.rs:229-235 | The column counter after walking a comment body is positive whenever the body is non-empty or the counter started positive. |
| CharClass.ColAfterLastNewline | src/lexer.rs:229-235 | After a newline the counter restarts: it ends one past the number of characters after the last newline, whatever it was before. |
| CharClass.ColAfterNoNewline | src/lexer.rs:230 | Over text with no newline the column counter moves by the text's length. |
| CharClass.ColAfterAppend | src/lexer.rs:229-235 | Column bookkeeping over concatenated text composes. |
| StringLiteral.Decode | src/lexer.rs:165-192 | Decoding shortens the raw body by exactly one character per recognised escape, and a non-empty body decodes to a non-empty value. |
| StringLiteral.DecodeSnoc | src/lexer.rs:165-192 | Decoding read left to right agrees with the loop's right-end view. An escape completed by the new character replaces the trailing backslash with the escape's value; any other character is appended. |
| StringLiteral.EscapesSnoc | src/lexer.rs:168-187 | The escape count grows by one exactly when the new character completes an escape. |
| StringLiteral.StringEnd | src/lexer.rs:158-163 | The literal ends at the first `"` not preceded by a backslash, or at the end of the input when there is none. |
| StringLiteral.StringLoop | src/lexer.rs:158-196 | The string loop stops inside the input only on a quote, and only moves the column to the right. |
| StringLiteral.StringLoopStep | src/lexer.rs:165-195 | One iteration inside the literal keeps the loop's invariant: the accumulator is the decoded raw text and the column has moved by its escapes. |
| StringLiteral.StringLoopDecodes | src/lexer.rs:158-196 | From any point inside the literal, the loop ends at the closing quote. It has accumulated exactly the decoded body and moved the column by the number of escapes. |
| StringLiteral.StringLoopFirst | src/lexer.rs:156 | Starting the loop with the first body character as the previous character behaves like starting it with the opening quote. |
| StringLiteral.ScanString | src/lexer.rs:152-210 | Fails with UnterminatedString exactly when no closing quote exists. Otherwise the token is the decoded body, its column is moved by the escapes, and its length is the decoded length plus 2. The column then moves by the literal's raw width. |
| StringLiteral.DecodeEscape | src/lexer.rs:165-192 | Decoding inverts escaping for every value without a backslash, and the escaped body has one escape per special character. |
| StringLiteral.EscapeQuotes | src/lexer.rs:159-163 | In an escaped body every quote follows a backslash, so no quote inside it closes the literal. |
| CommentScan.CommentLoop | src/lexer.rs:223-236 | The comment loop has pushed exactly the text it passed, moved the column over it with a reset at every newline, and recorded one line per newline. |
| CommentScan.LineLoopStop | src/lexer.rs:223-226 | A line comment's loop stops at the first newline or the end of the input. |
| CommentScan.BlockLoopStop | src/lexer.rs:223-225 | A block comment's loop passes the longest stretch free of `*` and `/`. It stops right after a `*` that ends the stretch, or on the `/` or the end of input that ends it. |
| CommentScan.ScanComment | src/lexer.rs:211-257 | The comment arm fails exactly when `//` or `/*` ends the input (CommentAtEnd) or a block comment is not well formed. A `//` comment's body is the text up to the next newline or the end of input, reported at the column after the body with length body+2, and the arm stops before the newline. A `/*` comment is the loop-free outcome BlockCommentSpec. |
| CommentScan.LineComment | src/lexer.rs:221-257 | A line comment's body runs up to, not including, the next newline (or the end of input), and the newline is left for the next iteration. The column is moved by the body, and the length is the body plus 2. |
| CommentScan.LineScanFacts | src/lexer.rs:223-236 | On a line comment the loop records no newline and moves the column by the body's length. |
| CommentScan.BlockComment | src/lexer.rs:221-257 | The block comment as the loop scans it equals the loop-free description BlockCommentSpec. It is either the empty `/*/` form, or a stretch free of `*` and `/` closed by `*/` with newlines recorded and the column reset, or UnclosedComment. |
| CommentScan.BlockScanFacts | src/lexer.rs:223-246 | What the block comment loop leaves: closed right away on `/`; closed after the body when well formed; not closed otherwise. |
| CommentScan.BlockClosed | src/lexer.rs:238-257 | A closed block comment, given what the loop left, is the loop-free outcome. |
| NumberScan.NumberLoop | src/lexer.rs:270-283 | The number loop never stops before the position it starts from, minus the rewind. |
| NumberScan.NumberLoopWholeRun | src/lexer.rs:270-283 | With at most one dot in the run, the loop keeps the whole run and is a Float exactly when the run holds a dot. |
| NumberScan.NumberLoopStopsEarly | src/lexer.rs:270-283 | With two or more dots, the loop stops one position before the second dot. It keeps the text before that position, which holds one dot, and is not a Float. |
| NumberScan.NumberLoopSecondDot | src/lexer.rs:271-276 | Meeting the second dot pops the last character, steps back one and clears the Float flag. |
| NumberScan.NumberLoopOutcome | src/lexer.rs:266-283 | The loop started after the first digit has one of the two outcomes above, decided by the number of dots in the run. |
| NumberScan.ScanNumber | src/lexer.rs:265-298 | A number token is source text of digits and at most one dot, with span length equal to its length. With at most one dot it is the whole run, a Float exactly when it holds the dot. Otherwise it is an Int ending two positions before the second dot. |
| StepProperties.StepSilent | src/lexer.rs:310-318 | Whitespace, and only whitespace, yields no token. A newline records a line and resets the column to 1; other whitespace moves the column one right. |
| StepProperties.StepFailure | src/lexer.rs:69-345 | An iteration aborts exactly when one of the listed conditions holds, and with that condition. The conditions are: trailing operator, lone slash, comment opener at end, unclosed block comment, unterminated string, unexpected character. |
| StepProperties.StepLine | src/lexer.rs:5-67 | Operator-macro tokens report the newline count as their line, and every other token reports one more. |
| StepProperties.StepLines | src/lexer.rs:223-236 | A token leaves the newline count unchanged, except that a comment adds the newlines of its body. |
| StepProperties.StepColumn | src/lexer.rs:347-352 | Column after a token: +1 for the operator macro, +2·body+2 for a line comment, and the body's column movement plus body+2 for a block comment (+1 for the empty `/*/`). Every other token moves it by exactly the characters consumed. |
| StepProperties.DispatchLineComment | src/lexer.rs:211-257 | A `//` with a body after it is scanned as a line comment. |
| StepProperties.DispatchBlockComment | src/lexer.rs:211-257 | A `/*` with a body after it is scanned as the loop-free block comment outcome. |
| StepProperties.CommentArmOnly | src/lexer.rs:211-257 | Only a `/` followed by `/` or `*` and a body produces a Comment token. |
| LexProperties.LexFromEmits | src/lexer.rs:349-352 | An iteration that yields a token puts it in front of the rest of the stream. |
| LexProperties.LexFromSkips | src/lexer.rs:349-352 | An iteration that yields nothing leaves the rest of the stream as it is. |
| LexProperties.LexEmptyIff | src/lexer.rs:310-318 | From any state, the loop yields no tokens exactly when the rest of the input is all whitespace. |
| LexProperties.LexWhitespaceOnly | src/lexer.rs:52-358 | The lexer yields no tokens exactly when the input is all whitespace. |
| LexProperties.Starts | src/lexer.rs:60-353 | The start indices of the tokens lie inside the input and strictly increase. |
| LexProperties.SourceOrder | src/lexer.rs:60-353 | Tokens come in source order: the i-th token is taken from the source at the i-th start index. |
| LexProperties.WordToEnd | src/lexer.rs:319-337 | A word running to the end of the input is one Word token at the current column, on the line after the recorded newlines. |
| LexProperties.LexWord | src/lexer.rs:319-337 | A word on its own is one Word token covering the whole text. |
| LexProperties.NumberToEnd | src/lexer.rs:265-298 | A number with at most one dot running to the end of the input is one token, a Float exactly when it holds the dot. |
| LexProperties.LexDigits | src/lexer.rs:265-298 | Digits on their own are one Int token. |
| LexProperties.LexFloat | src/lexer.rs:265-298 | Two digit runs around one dot are one Float token covering the text. |
| LexProperties.StringRoundTrip | src/lexer.rs:152-210 | Writing a value without backslashes as a literal and lexing it gives back the value as one String token. The token's length is the value's length plus 2, and it is reported at the column after the escapes. |
| LexProperties.LexLoop | src/lexer.rs:52-358 | The imperative loop over a mutable index, column, newline count and token list computes the same result as the recursive model. |
| LexScenarios.LexFailsAtStart | src/lexer.rs:69-345 | A first character that gives a reason to abort aborts the whole lexer with that reason. |
| LexScenarios.NumberSecondDotAt | src/lexer.rs:270-298 | A number meeting its second dot at `z` is the Int ending two positions before `z`. |
| LexScenarios.StepRange | src/lexer.rs:299-309 | `..` yields the Operator `Range` with length 2 and advances two characters and two columns. |
| LexScenarios.StepSingleOperator | src/lexer.rs:31-46 | An operator neither doubled nor followed by `=` yields the one-character Operator with length 2 on the newline count, and moves the column by one. |
| LexScenarios.StepOperatorAssignment | src/lexer.rs:11-20 | An operator followed by `=` yields the two-character Assignment and consumes both characters, yet moves the column by one. |
| LexScenarios.LineCommentUpTo | src/lexer.rs:221-257 | A line comment body ending at a newline is exactly the text before the newline, and the arm stops just before it. |
| LexScenarios.RangeBetweenNumbers | src/lexer.rs:265-309 | `a..b` for digit runs lexes to Int `a`, Operator `Range` and Int `b`, with their columns. |
| LexScenarios.SecondDotRescan | src/lexer.rs:270-298 | `a.d.c` lexes to Int `a.` and then Float `d.c`: the first number ends at its first dot, and scanning resumes at the digit before the second dot. |
| LexScenarios.LineCommentThenWord | src/lexer.rs:221-318 | `//body`, a newline and a word give the comment (body kept as written, column after the body) and then the word on line 2, column 1. |
| LexScenarios.NewlineAt | src/lexer.rs:311-313 | A newline in the code records a line, resets the column and yields nothing. |
| LexScenarios.UnclosedBlockComment | src/lexer.rs:238-245 | `/*` followed by text without `*` or `/` aborts with UnclosedComment. |
| LexScenarios.StepEmptyBlockComment | src/lexer.rs:238-252 | `/*/` yields an empty Comment reported one column to the left of the slash, consumes three characters and leaves the column one to the right. |
| LexScenarios.EmptyBlockCommentAtStart | src/lexer.rs:238-252 | `/*/` at the start of the input is one Comment token at line 1, column 0, length 2. |
| LexScenarios.OperatorThenWord | src/lexer.rs:5-50 | An operator before a word is reported on line 0 with length 2 and moves the column by one, so the word stands at column 2 of line 1. |
| LexScenarios.CompoundAssignmentThenNumber | src/lexer.rs:9-20 | `op=` before digits is an Assignment on line 0, and the number after it is reported at column 2. |
| LexScenarios.LoneDot | src/lexer.rs:299-343 | A dot not followed by a dot aborts with UnexpectedValue('.'). |
| LexScenarios.TrailingOperatorFails | src/lexer.rs:9-11 | An operator character alone aborts with TrailingOperator. |

## Left out

- `src/main.rs`: reading the source file and printing tokens is I/O around the lexer.
- Unicode: `is_numeric`, `is_alphabetic`, `is_alphanumeric` and `is_whitespace` are modelled on their ASCII part. A non-ASCII letter, digit or space is treated as an unexpected character.
- Panic messages and the 20-character preview of the rest of the input (src/lexer.rs:339-342) are not modelled. An error carries its kind, and for an unexpected character the character itself.
- The values stored in `rows` (src/lexer.rs:233, 312) and the final push after the loop (src/lexer.rs:355) are not modelled. Only their number reaches a token, as the line.
- `usize` overflow is not modelled: indices, columns and counts are unbounded naturals. The column never underflows: `col -= 1` (src/lexer.rs:242) runs on every closed block comment, and the counter is at least 1 there. After a non-empty body the result is still at least 1. In the empty `/*/` form it can reach 0 (see `LexScenarios.EmptyBlockCommentAtStart`).
- The `Debug`, `Copy` and `Clone` derives of `src/types.rs` have no counterpart. Dafny datatypes are immutable values.
- NumberScan.NumberLoop: its contract only bounds where the loop stops. What it keeps is stated by NumberLoopWholeRun and NumberLoopStopsEarly.
