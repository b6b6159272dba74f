# Lexer and token buffer of the `sc` expression front end

This project models the scanning front end of a small arithmetic-expression
compiler written in C# (`sc/Program.cs`). It covers these parts:

- **`SyntaxKind`**, the closed enumeration of token kinds, and
  **`SyntaxToken`**, the immutable record of a kind, a start position, the
  consumed text and an optional value. These are the datatypes `Syntax.SyntaxKind`
  (the enum at sc/Program.cs:33-45, with its constructors in declaration order)
  and `Syntax.SyntaxToken` (the class at sc/Program.cs:47-61, whose four
  get-only properties become the fields of an immutable datatype). The nullable
  `object? Value` is an `Option<int>`, because the lexer only ever stores a
  boxed `int` there (sc/Program.cs:110).
- **`Lexer`**, a pull-based scanner holding an immutable text and a mutable
  cursor. It is modelled as the class `Lexing.Lexer`. Its `NextToken`
  keeps the source's two `while` loops and its chain of operator tests. It
  is proved against `Lexing.Scan`, a pure function that gives the token and
  the new cursor for any text and cursor. `Lexing.Tokenize` is the whole
  stream a fresh lexer returns, up to its end-of-file token. The lemmas about
  `Scan` and `Tokenize` state what the scanner promises:
  - end of file is returned repeatedly without moving;
  - every other call makes progress;
  - the texts of the tokens before end of file reconstruct the input (the end-of-file token's own text is `"\0"`);
  - positions are contiguous;
  - digit and white-space runs are maximal;
  - unrecognised characters become one-character bad tokens;
  - every token other than end of file re-lexes, at position 0, to itself; the end-of-file token's `"\0"` re-lexes as a bad token.
- **`Parser`** is only the token-buffering part, because that is all the parsing
  code there is. Its constructor drains a lexer into a list and keeps every
  token that is not a `BadToken`. `Peek` and `Current` then give bounded
  lookahead over that buffer. The class is `Parsing.Parser`. Its drain loop
  is `Parsing.Parser.Drain`, proved to produce `Parsing.Buffer(text)`: the
  lexer's stream with bad tokens removed.

Some of the code's behaviour looks unintended. The model keeps the code as written:

- The filter at sc/Program.cs:174-175 tests `BadToken` twice. The second test
  was evidently meant to be `WhitespaceToken`. As written, white-space tokens
  stay in the parser's buffer. No diagnostics are recorded.
- `int.TryParse` leaves 0 behind when it fails. A digit run beyond the
  32-bit range therefore gets the value `Some(0)`, not "no value".
- The end-of-file token's text is the one-character string `"\0"`. The
  sentinel does appear in a token, and that token ends one character past
  the input (`Lexing.TokenizeEnd` pins it at position `|text|`).

The character classes are predicates:

- `Syntax.IsDigit` is the ASCII digits `'0'..'9'`.
- `Syntax.IsWhiteSpace` is the full list of characters .NET's
  `char.IsWhiteSpace` accepts. It is written as ranges, and
  `Syntax.WhiteSpaceListed` proves that it matches that list, character by character.

`int.TryParse` on a run of digits is an overflow-checked, digit-by-digit
parse (`Syntax.ParseDigits`). It is proved to agree with the mathematical
value of the digits (`Syntax.DecimalValue`) whenever that value fits a
signed 32-bit integer.

## Model

| member | source | states |
|---|---|---|
| `Syntax.IsDigit` | sc/Program.cs:101-104 | a character is a digit exactly when it is one of `0123456789` |
| `Syntax.WhiteSpaceListed` | sc/Program.cs:113-116 | a character is white space exactly when it is one of the 25 characters .NET's `char.IsWhiteSpace` accepts: U+0009..U+000D, space, U+0085, U+00A0, U+1680, U+2000..U+200A, U+2028, U+2029, U+202F, U+205F and U+3000 |
| `Syntax.OperatorKind` | sc/Program.cs:124-135 | a character has an operator kind exactly when it is one of `+ - * / ( )`, and that kind's text is the character itself |
| `Syntax.OperatorTableRoundTrip` | sc/Program.cs:124-135 | each of `+ - * / ( )` maps to exactly one operator kind and back, and no operator character is a digit, white space or the sentinel |
| `Syntax.CharacterClassesDisjoint` | sc/Program.cs:101-117 | no character is both a digit and white space, and the sentinel `'\0'` is neither, so both run loops stop at the end of the text |
| `Syntax.ParseDigits` | sc/Program.cs:109 | the overflow-checked digit-by-digit parse yields the decimal value of the run when it fits a signed 32-bit integer and fails otherwise |
| `Syntax.TryParseInt32` | sc/Program.cs:107-110 | the value stored for a digit run is its decimal value when that is at most 2147483647, and otherwise the 0 a failed `TryParse` leaves |
| `Lexing.RunEnd` | sc/Program.cs:103-107 | the cursor after a run loop: every character it passed satisfies the class, and the character it stops at (if any) does not |
| `Lexing.Scan` | sc/Program.cs:92-139 | one `NextToken` call: at or past the end, an EOF token at the cursor with text `"\0"`, no value and no move (so every later call returns the same token); inside the text, a token at the cursor whose text is exactly the consumed input, at least one character long |
| `Lexing.ScanClassifies` | sc/Program.cs:101-138 | inside the text, a digit starts a maximal all-digit number token carrying `Some(TryParse value)`, white space starts a maximal all-white-space token with no value, and any other character gives a one-character token with no value, of its operator kind or else `BadToken` |
| `Lexing.Tokenize` | sc/Program.cs:170-180 | the stream a lexer returns until end of file starts with the token at the cursor, and its last token is its only end-of-file token |
| `Lexing.TokenizeEnd` | sc/Program.cs:98-99 | a scan from inside the input ends with the token `(EndOfFileToken, length, "\0", no value)` |
| `Lexing.TokenizeLossless` | sc/Program.cs:103-138 | the texts of the tokens before end of file concatenate to exactly the rest of the input |
| `Lexing.TokenizeContiguous` | sc/Program.cs:103-138 | the first token starts at the cursor, each token covers exactly the input between its position and the next token's, positions strictly increase, and end of file sits at the input's length |
| `Lexing.NoAdjacentRuns` | sc/Program.cs:101-122 | in a scan, a number token is never followed by a number token nor a white-space token by a white-space token (runs are maximal across calls) |
| `Lexing.BadCharacterToken` | sc/Program.cs:138 | every character that is neither digit, white space nor operator appears in the stream as a bad token holding just that character at its own position |
| `Lexing.RelexTokenText` | sc/Program.cs:92-139 | lexing any non-EOF token's text on its own gives back the same token (kind, text, value) at position 0 and consumes that whole text |
| `Lexing.Lexer.constructor` | sc/Program.cs:71-74 | a new lexer holds the given text with its cursor at 0 |
| `Lexing.Lexer.Current` | sc/Program.cs:76-85 | the character under the cursor inside the text, and past its end the sentinel, which is neither digit nor white space |
| `Lexing.Lexer.Next` | sc/Program.cs:87-90 | advances the cursor by one |
| `Lexing.Lexer.NextToken` | sc/Program.cs:92-139 | the returned token and the new cursor are exactly `Scan` of the text at the old cursor |
| `Parsing.WithoutBadTokens` | sc/Program.cs:174-178 | the filtered tokens contain no bad token, are no more than the input, and keep the input's last token when it is not bad |
| `Parsing.WithoutBadTokensKeeps` | sc/Program.cs:174-178 | a token is in the filtered sequence exactly when it is in the input and is not a bad token (so white space is kept) |
| `Parsing.Buffer` | sc/Program.cs:166-182 | the contents of `_tokens`: non-empty, holds no bad token, and its last element is its only end-of-file token, the lexer's `(EndOfFileToken, length, "\0", no value)` |
| `Parsing.Parser.Drain` | sc/Program.cs:166-180 | the do-while loop over a fresh lexer collects exactly the lexer's stream with bad tokens removed, in order |
| `Parsing.Parser.constructor` | sc/Program.cs:164-183 | the token array holds exactly that buffer and the cursor is 0 |
| `Parsing.Parser.Peek` | sc/Program.cs:185-192 | within the buffer, the token at cursor + offset, past it the last token; the result is end of file exactly when the index reaches the last slot, and is never a bad token |
| `Parsing.Parser.Current` | sc/Program.cs:194 | the first buffered token, which is end of file exactly when the buffer holds only it |

## Left out

- The console driver loop (sc/Program.cs:12-31): line-by-line console input and output formatting, which is I/O.
- `SyntaxNode` and `ExpressionSyntax` (sc/Program.cs:142-150): empty abstract classes with no behaviour.
- `Syntax.IsDigit`, `Lexing.BadCharacterToken`: `char.IsDigit` is modelled on ASCII `'0'..'9'` only. In the model, any other Unicode decimal digit (U+0663, say) becomes a one-character `BadToken`, which the parser's buffer drops. In the source, `char.IsDigit` accepts it, so it starts a `NumberToken`. `TryParse` then fails on that token and leaves the value 0, and the parser keeps the token.
- `Syntax.TryParseInt32`: models `int.TryParse` only on non-empty runs of ASCII digits, which is all the lexer ever passes it; signs, surrounding white space and culture rules of the library call are not modelled.
- `Parsing.Parser.Peek`: requires `position + offset` to be non-negative; a negative index would throw in the source and is not modelled.
- `Lexing.Scan`, `Lexing.BadCharacterToken` and `Lexing.TokenizeEnd`: the text is a sequence of Unicode scalar values, not of UTF-16 code units as a C# `string` is. Outside the Basic Multilingual Plane the positions differ. For such a character (U+1F600, say), the source's `_text.Length`, `_text[_position]` and `Substring(_position - 1, 1)` see two surrogate code units and return two one-unit bad tokens. The model returns it as one bad token. Every later position, every later token in the parser's buffer and the end-of-file position then differ by one per such character.
- Positions are `nat` rather than 32-bit `int`: a string's length always fits an `int`, so the cursor cannot overflow.
- The constructor's do-while loop is a static method, `Parsing.Parser.Drain`, which the constructor calls. The loop's statements are unchanged.
- The `List<SyntaxToken>` the constructor fills is a `seq` and `ToArray` is a fresh array initialised from it; list capacity growth is not modelled.
- The parser's `_position` field is never assigned in the source; the model keeps it as a field fixed at 0. No expression parsing, `MatchToken` or diagnostics exist in the code, so none are modelled.
