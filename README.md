# A verified model of the SRL lexer and parser

This project models the front end of srl-rust, a Rust implementation of the
Simple Regex Language (SRL). SRL writes regular expressions as English-like
keyword phrases, for example `begin with capture (letter) twice`.

The model covers four parts:

- **The lexer** (`src/lexer/mod.rs`). It is a state machine over a character
  cursor, a `buffer`, a `last_char` and a mode (`None`, `Identifier`,
  `String`, `Number`, `CharOrDigit`, `EndOfFile`, `Done`, `Error`):
  - identifier mode builds multi-word keywords and looks them up in a
    keyword table;
  - string, number and char-or-digit modes read the values that follow
    some keywords;
  - after each token, `next_state` picks the next mode from the token's kind.
- **The character classes** the lexer relies on (`src/lexer/srlchar.rs`).
- **The parser loop** (`src/parser.rs`). It drains the lexer into a list of
  character expressions.
- **The older lexer** (`src/lexer.rs`). It is identifier-only.

The keyword table and `MAX_SPC_INDEX` are not part of the model's sources.
They are abstract: a `map<string, Token>` and a `nat`, passed in as `Config`.

## Files

- `wrappers.dfy`: `Option` and `Result`.
- `srlchar.dfy`: module `SrlChar`. It holds the `SrlChar` predicates, ASCII
  letter and digit tests, and ASCII lower-casing.
- `tokens.dfy`: module `Tokens`. It holds the token kinds the lexer and
  parser use. The kinds are nested, as the code matches on them:
  `Character(Raw)`, `Quantifier(Exactly)`, `Group(As)`, and so on.
- `lexer.dfy`: module `SrlLexer`. Each loop of the lexer is written twice:
  - as a recursive function on a snapshot `Lex` of the lexer's fields;
  - as a method of class `Lexer` that runs the loop on the fields
    themselves.

  Each method is proved to leave the fields and return the token that its
  function gives.
- `lexer_facts.dfy`: module `LexerFacts`. It proves three things:
  - the invariant `Quiet` that holds between calls of `next`;
  - a measure that strictly decreases on every live call;
  - the behaviour once the lexer is finished or failed.

  It also defines the token stream (`TokenStream`, `Final`).
- `keywords.dfy`: module `KeywordScan`. `Squash` is the canonical form of a
  keyword as spelled in the input. It is lower-cased, leading separators are
  dropped, and each run of separators after a word becomes one space. The
  module proves what identifier mode does with that form.
- `literals.dfy`: module `LiteralScan`. It covers the string, number and
  char-or-digit modes, and the dispatch of `next_token`.
- `parser.dfy`: module `SrlParser`. The parser loop is a function `Drain`
  and a class `Parser`. The main theorem is that parsing equals a fold
  over the token stream.
- `old_lexer.dfy`: module `OldLexer`. It is the older lexer, with its own
  class and lemmas.

## Differences from the documented behaviour

Where the documented behaviour and the code disagree, the model follows the
code:

- **A parenthesis after an unknown word.** In identifier mode, the buffer may
  be non-empty and not a keyword, and still shorter than `MAX_SPC_INDEX`. A
  parenthesis met then is consumed like a separator, and a space is appended
  (`src/lexer/mod.rs:142`, `155-159`). It is not an error and it is not
  returned. A parenthesis after a space therefore leaves two spaces in the
  buffer.
- **Number mode at a parenthesis.** With no digits read, a parenthesis gives
  the token NUMBER with an empty value (`src/lexer/mod.rs:255-261`). It is
  not an error.
- **`at least`.** `AtLeast` is not in the list of quantifiers that switch to
  number mode (`src/lexer/mod.rs:59`). It goes to identifier mode.
- **The first keyword wins, not the longest.** Identifier mode looks the
  buffer up at the end of every word and returns the first hit
  (`src/lexer/mod.rs:149-154`). A keyword that is a prefix of a longer one
  hides it. `once` and `once or more` are both keywords, and an input that
  starts with `once or more` gives the token `once`, with the cursor after
  `once` (`KeywordScan.OnceHidesLongerKeyword`).
- **End of input in identifier and number modes.** These modes set
  `EndOfFile` themselves instead of choosing the next mode from the token.
- **char-or-digit mode** does not record its character in `last_char`.
- **`TokenType::String`**, the kind of a string value, is named `StringValue`
  here. This avoids a clash with the mode `String`. `State::None` is named
  `Start`.

## Model

| member | source | states |
|---|---|---|
| SrlChar.ToAsciiLower | src/lexer/mod.rs:139 | ASCII lower-casing. A letter maps to a lower-case letter. An upper-case letter moves by 32. Every other character is unchanged. |
| SrlChar.ClassMembers | src/lexer/srlchar.rs:12-38 | The separators are exactly space, comma, newline and tab. The quotes are exactly `'` and `"`. The backslash class is exactly `\`, and the space class is exactly `' '`. |
| SrlChar.SpaceIsSeparator | src/lexer/srlchar.rs:12-30 | A space is a separator. |
| SrlChar.GroupCharIsStartOrEnd | src/lexer/srlchar.rs:16-26 | A group character is exactly `(` or `)`, which is the union of group start and group end. The two are disjoint. |
| SrlChar.IsSrlWhitespace | src/lexer/srlchar.rs:12-14 | The separator class: space, comma, newline or tab (membership stated by `ClassMembers`). |
| SrlChar.IsGroupStart | src/lexer/srlchar.rs:16-18 | `(`. |
| SrlChar.IsGroupEnd | src/lexer/srlchar.rs:20-22 | `)`. |
| SrlChar.IsGroupChar | src/lexer/srlchar.rs:24-26 | Either parenthesis (stated by `GroupCharIsStartOrEnd`). |
| SrlChar.IsSpace | src/lexer/srlchar.rs:28-30 | The space character. |
| SrlChar.IsQuote | src/lexer/srlchar.rs:32-34 | A single or double quote. |
| SrlChar.IsBackslash | src/lexer/srlchar.rs:36-38 | The backslash. |
| SrlChar.ClassesDisjoint | src/lexer/srlchar.rs:12-38 | Separators, group characters, quotes and the backslash are pairwise disjoint. None of them is an ASCII letter or digit. |
| SrlLexer.GetToken | src/lexer/mod.rs:147-150 | `get_token`: the token a key maps to in the keyword table, or none. |
| SrlLexer.NextState | src/lexer/mod.rs:47-75 | `next_state`: the mode after a token, by its kind (stated as a table by `LexerFacts.NextStateTable`). |
| SrlLexer.SkipSpace | src/lexer/mod.rs:123-125 | `skip_space`: separators are skipped while the buffer is empty or after a space. |
| SrlLexer.IdentLoop | src/lexer/mod.rs:131-184 | The loop of `next_identifier`, branch for branch. Its properties are `LexerFacts.IdentLoopSettles` and the `KeywordScan` lemmas. |
| SrlLexer.LexIdentifier | src/lexer/mod.rs:128-185 | `next_identifier`: identifier mode, then its loop. |
| SrlLexer.StringOpen | src/lexer/mod.rs:193-210 | The first loop of `next_string`, up to the opening quote (`StringOpenSettles`, `StringNeedsQuote`). |
| SrlLexer.StringBody | src/lexer/mod.rs:212-240 | The second loop of `next_string`, with its escapes (`StringBodySettles`, `StringBodyReads`, `StringBodyNoQuote`). |
| SrlLexer.LexString | src/lexer/mod.rs:188-241 | `next_string`: string mode, then both loops (`StringRoundTrip`). |
| SrlLexer.NumberLoop | src/lexer/mod.rs:247-278 | The loop of `next_number` and its end-of-input case (`NumberLoopSettles`, `NumberScan`). |
| SrlLexer.LexNumber | src/lexer/mod.rs:244-279 | `next_number`: number mode, then its loop. |
| SrlLexer.CharOrDigitLoop | src/lexer/mod.rs:284-305 | The loop of `next_char_or_digit` (`CharOrDigitLoopSettles`, `CharOrDigitScan`). |
| SrlLexer.LexCharOrDigit | src/lexer/mod.rs:282-306 | `next_char_or_digit`: char-or-digit mode, then its loop. |
| SrlLexer.LexToken | src/lexer/mod.rs:310-336 | `next_token`: skip separators and dispatch on the first character (`LexTokenSettles`, `StartDispatch`). |
| SrlLexer.LexNext | src/lexer/mod.rs:343-356 | `Iterator::next`: dispatch on the mode (`LexerFacts.NextKeepsQuiet`). |
| SrlLexer.Lexer.IsError | src/lexer/mod.rs:118-120 | `is_error`: the mode is `Error`. |
| SrlLexer.Lexer.constructor | src/lexer/mod.rs:32-39 | A new lexer is at position 0, with an empty buffer, `last_char` a space and mode `None`. |
| SrlLexer.Lexer.NextIdentifier | src/lexer/mod.rs:128-185 | The loop on the fields leaves exactly the fields and the token given by `LexIdentifier`. |
| SrlLexer.Lexer.NextString | src/lexer/mod.rs:188-241 | The same for both loops of `next_string` and `LexString`. |
| SrlLexer.Lexer.NextNumber | src/lexer/mod.rs:244-279 | The same for `next_number` and `LexNumber`. |
| SrlLexer.Lexer.NextCharOrDigit | src/lexer/mod.rs:282-306 | The same for `next_char_or_digit` and `LexCharOrDigit`. |
| SrlLexer.Lexer.NextToken | src/lexer/mod.rs:310-336 | The same for `next_token` and `LexToken`. |
| SrlLexer.Lexer.Next | src/lexer/mod.rs:343-356 | The same for `Iterator::next` and `LexNext`, the dispatch on the mode. |
| LexerFacts.NextStateTable | src/lexer/mod.rs:47-75 | The mode after a token, as iff facts. `Raw`, `Literally`, `OneOf` and `As` go to string mode. `Exactly`, `Between` and `And` go to number mode. Every specification goes to char-or-digit mode. Other group words go to `None`. Everything else goes to identifier mode. It is never an end or error mode. |
| LexerFacts.IdentLoopSettles | src/lexer/mod.rs:128-185 | Identifier mode never moves backwards. Unless it fails, it leaves an empty buffer. It ends in `Done` only with the EOF token. Unless a keyword maps to the EOF token, returning the EOF token means `Done`. A call that returns nothing is an error when both parentheses are keywords. From an empty buffer it consumes input or stops. |
| LexerFacts.StringOpenSettles | src/lexer/mod.rs:193-210 | The same facts for the search for the opening quote. It always consumes input or fails. |
| LexerFacts.StringBodySettles | src/lexer/mod.rs:212-240 | The same facts for the string body. No escape is pending when it returns a token. |
| LexerFacts.NumberLoopSettles | src/lexer/mod.rs:247-278 | The same facts for number mode. From an empty buffer it consumes input, fails, or returns to identifier mode. |
| LexerFacts.CharOrDigitLoopSettles | src/lexer/mod.rs:284-306 | The same facts for char-or-digit mode. It always consumes input or fails. |
| LexerFacts.LexTokenSettles | src/lexer/mod.rs:310-336 | The same facts for `next_token`. It consumes input, or it ends failed or done. |
| LexerFacts.NextKeepsQuiet | src/lexer/mod.rs:343-356 | Every call of `next` keeps the invariant between calls. A live call strictly decreases the measure. A failed or finished lexer returns nothing and changes nothing. Reaching `Done` returns the EOF token at the end of the input. Unless a keyword maps to the EOF token, returning it means the lexer is `Done`. With both parentheses keywords, returning nothing means the lexer is failed or finished. |
| LexerFacts.TerminalForever | src/lexer/mod.rs:354 | Once failed or finished, any number of calls leaves the lexer unchanged and returns nothing. |
| LexerFacts.EndYieldsOneEof | src/lexer/mod.rs:350-353 | At the end of the input, a lexer in mode `None`, `Identifier` or `EndOfFile` returns the EOF token once. It then becomes `Done` and returns nothing after that. |
| LexerFacts.FinalIsTerminal | src/lexer/mod.rs:343-356 | With both parentheses keywords, the lexer is failed or finished once it first returns nothing, and it returns nothing again. |
| LexerFacts.StreamEndsWithEof | src/lexer/mod.rs:334-335 | A token stream that leaves the lexer `Done` ends with the EOF token. |
| LexerFacts.EofOnlyLast | src/lexer/mod.rs:343-356 | When no keyword maps to the EOF token, the EOF token occurs in the token stream only as its last token. |
| KeywordScan.SquashShape | src/lexer/mod.rs:131-159 | The canonical keyword form holds only lower-case letters and single spaces, and it never starts with a space. |
| KeywordScan.SquashKeepsLetters | src/lexer/mod.rs:137-141 | With spaces removed, the canonical form is the input's letters, lower-cased, in order. |
| KeywordScan.SeparatorRun | src/lexer/mod.rs:155-159 | A non-empty run of separators adds one space after a word, and nothing anywhere else. |
| KeywordScan.SeparatorRunsCollapse | src/lexer/mod.rs:131-159 | Replacing one non-empty separator run by any other does not change the keyword looked up. |
| KeywordScan.SquashIgnoresCase | src/lexer/mod.rs:137-141 | Inputs that agree up to letter case and choice of separator spell the same keyword. |
| KeywordScan.SquashBegin | src/lexer/test.rs:5-7 | "bEgin" spells "begin". |
| KeywordScan.SquashExample | src/lexer/test.rs:5-7 | "bEgin with" spells "begin with". |
| KeywordScan.ScanWords | src/lexer/mod.rs:131-159 | Reading letters and separators without a keyword hit leaves exactly the canonical form of what was read in the buffer. |
| KeywordScan.ScanKeyword | src/lexer/mod.rs:128-185 | The keyword theorem. A hit at a separator or parenthesis returns that token, leaves the terminator unread, empties the buffer and sets the next mode. A hit at the end of the input returns the token and goes to `EndOfFile`. A miss at the end is an error. A miss at a separator or a parenthesis once the buffer has reached `MAX_SPC_INDEX` is an error. A miss at a parenthesis below it consumes the parenthesis and appends a space. |
| KeywordScan.SkipLeadingSeparators | src/lexer/mod.rs:131-135 | Separators before the first letter are skipped and change nothing else. |
| KeywordScan.ScanParenOrEnd | src/lexer/mod.rs:143-148 | With only separators before it, a parenthesis is consumed and returned as its own table token, and the mode stays identifier. The end of the input gives the EOF token and `Done`. |
| KeywordScan.ScanInvalidChar | src/lexer/mod.rs:165-168 | A character that is not a letter, separator or parenthesis is an error. |
| KeywordScan.BeginWithExample | src/lexer/test.rs:5-7 | On an input starting "bEgin with ", with "begin with" a keyword and "begin" not, the first token is "begin with". The cursor stops before the following space, and the buffer is empty. |
| KeywordScan.SquashOnce | src/lexer/mod.rs:137-141 | "once" is already in canonical form. |
| KeywordScan.OnceHidesLongerKeyword | src/lexer/mod.rs:149-154 | On an input starting "once ", with both "once" and "once or more" keywords, the first token is "once". The cursor stops at the following space, and the buffer is empty: the first hit wins over the longer keyword. |
| LiteralScan.StringBodyChar | src/lexer/mod.rs:212-235 | Reading the written form of one character appends exactly that character to the buffer, whether it was escaped or not. |
| LiteralScan.StringBodyReads | src/lexer/mod.rs:212-231 | The body loop reads the escaped form of any payload up to the closing quote. It returns that payload, with the cursor just past the quote, an empty buffer and identifier mode. |
| LiteralScan.StringBodyUnterminated | src/lexer/mod.rs:212-240 | A body that the input ends in right after the escaped form of some payload, possibly with one more lone backslash, is an error. That covers bodies whose quotes are all escaped. |
| LiteralScan.StringDropsStrayBackslash | src/lexer/mod.rs:213-220 | A backslash before a character other than a backslash or the closing quote is dropped, and the character is kept. |
| LiteralScan.StringOpenSkips | src/lexer/mod.rs:193-196 | Separators before the opening quote are skipped. |
| LiteralScan.StringRoundTrip | src/lexer/mod.rs:188-231 | The string round trip. Separators, a quote, the escaped form of any payload and the same quote give the string token of that payload, with the cursor after the closing quote and identifier mode. |
| LiteralScan.StringUnterminated | src/lexer/mod.rs:188-240 | Separators, a quote, and the escaped form of a payload that the input ends in, possibly with one more lone backslash, are an error. |
| LiteralScan.StringBodyNoQuote | src/lexer/mod.rs:212-240 | Whatever the body holds, including stray backslashes, the string is an error when its quote character does not occur again before the end of the input. |
| LiteralScan.StringNoClosingQuote | src/lexer/mod.rs:188-240 | Separators, an opening quote, and no later occurrence of that quote character are an error. |
| LiteralScan.StringNeedsQuote | src/lexer/mod.rs:193-210 | A first non-separator that is not a quote is consumed and the lexer fails. Reaching the end of the input with no quote is an error. |
| LiteralScan.NumberSkips | src/lexer/mod.rs:247-250 | Separators before the first digit are skipped. |
| LiteralScan.NumberDigits | src/lexer/mod.rs:251-254 | Digits are appended to the buffer in order. |
| LiteralScan.NumberEnd | src/lexer/mod.rs:255-278 | Once no digit is left, the following happens. A separator or parenthesis returns NUMBER with the buffer, leaves the terminator unread and goes to identifier mode. The end of the input returns NUMBER and `EndOfFile` when digits were read, and is an error otherwise. Any other character is an error. |
| LiteralScan.NumberScan | src/lexer/mod.rs:244-279 | Digits followed by a separator or parenthesis give NUMBER with those digits, the terminator unread, and identifier mode. Digits at the end give NUMBER and `EndOfFile`. No digits before a parenthesis give NUMBER "". No digits at the end is an error. Any other character after the digits is an error. |
| LiteralScan.CharOrDigitSkips | src/lexer/mod.rs:284-286 | Separators are skipped in char-or-digit mode. |
| LiteralScan.CharOrDigitScan | src/lexer/mod.rs:282-306 | After separators, one digit gives DIGIT and one letter gives CHAR with its case kept, both consumed, then identifier mode. Any other character, or the end of the input, is an error. |
| LiteralScan.TokenSkips | src/lexer/mod.rs:311-315 | Separators before a token are skipped. |
| LiteralScan.StartDispatch | src/lexer/mod.rs:310-336 | After separators, a quote starts a string, a letter or parenthesis an identifier, and a digit a number. Any other character is an error. The end of the input gives EOF and `Done`. |
| SrlParser.ParseCharacterSpec | src/parser.rs:39-61 | `parse_character` on the lexer's fields: string-taking kinds read the next token and need a string; other character kinds give an expression without payload; anything else fails (`HandlePair`, `FoldPair`, `FoldSingle`). |
| SrlParser.Handle | src/parser.rs:22-29 | One turn of the loop of `parse` on a token read. |
| SrlParser.Drain | src/parser.rs:21-30 | The loop of `parse`, until the lexer returns nothing (`DrainIsFold`). |
| SrlParser.ParseSpec | src/parser.rs:20-37 | `parse`: the collected expressions, or an error when the lexer ended in error (`ParseIsFold`). |
| SrlParser.HandleKeepsQuiet | src/parser.rs:22-25 | One turn of the loop keeps the lexer invariant and never increases the measure. An expression it builds carries the character token just read. |
| SrlParser.FoldShape | src/parser.rs:21-30 | There are no more expressions than tokens. Each expression is built from a character token of the stream. It has a payload exactly when its kind takes a string, and the payload is the value of a string token of the stream. |
| SrlParser.FoldDropsNonCharacters | src/parser.rs:22-29 | Tokens that are not characters add nothing. |
| SrlParser.FoldPair | src/parser.rs:41-55 | `literally`, `one of` and `raw` take the next token. They add an expression with its payload only when that token is a string, and nothing otherwise. |
| SrlParser.FoldSingle | src/parser.rs:56-58 | Any other character token adds one expression without payload. Any other token adds nothing. |
| SrlParser.HandlePair | src/parser.rs:41-55 | For a kind that takes a string, `parse_character` reads the next token. It builds the expression with that token's value when the token is a string, and fails otherwise. |
| SrlParser.DrainStop | src/parser.rs:21 | When the lexer returns nothing, the loop stops with what it has. |
| SrlParser.StreamUnroll | src/parser.rs:21 | One token read is the head of the token stream. |
| SrlParser.DrainUnroll | src/parser.rs:21-30 | One turn of the loop, and the measure that makes it terminate. |
| SrlParser.MissingPayload | src/parser.rs:44-54 | A string-taking kind at the end of the stream adds nothing and ends the loop where the stream ends. |
| SrlParser.SingleStep | src/parser.rs:56-59 | The fold theorem for a token whose kind takes no string. |
| SrlParser.PairStep | src/parser.rs:41-55 | The fold theorem for a string-taking kind followed by a token. |
| SrlParser.DrainIsFold | src/parser.rs:20-37 | With both parentheses keywords, the loop appends the fold of the token stream to what it had, and leaves the lexer where the stream ends. |
| SrlParser.ParseIsFold | src/parser.rs:20-37 | `parse` is `Err` exactly when the lexer ends in error. Otherwise it is `Ok` of the fold of the token stream, and the lexer is then `Done`. |
| SrlParser.Parser.constructor | src/parser.rs:13-18 | A new parser holds the lexer and an empty list. |
| SrlParser.Parser.ParseCharacter | src/parser.rs:39-61 | The method leaves the lexer and returns the result given by `ParseCharacterSpec`. |
| SrlParser.Parser.Parse | src/parser.rs:20-37 | The loop leaves the list and the lexer given by `Drain`. It returns `Err` exactly when the lexer is in error, and the collected list otherwise. |
| OldLexer.IsSrcSpace | src/lexer.rs:83-92 | `is_src_space`: a space is skipped while the buffer is empty or after a space; a comma, newline or tab only while the buffer is empty (`OldSkipsSeparators`, `OldCommaAfterSpace`). |
| OldLexer.IdentLoop | src/lexer.rs:104-139 | The loop of the old `next_identifier`, which consumes each character before looking at it (`OldIdentProgress`, `OldKeyword`). |
| OldLexer.LexIdentifier | src/lexer.rs:101-140 | The old `next_identifier`: identifier mode, then its loop. |
| OldLexer.LexNext | src/lexer.rs:146-151 | The old `Iterator::next`: only modes `None` and `Identifier` read anything (`OldNextProgress`). |
| OldLexer.OldIdentProgress | src/lexer.rs:101-140 | A call either returns a table token, with at least one character consumed, an empty buffer and identifier mode, or returns nothing and ends in `EndOfFile` (at the end of the input) or `Error`. |
| OldLexer.OldNextProgress | src/lexer.rs:146-151 | `next` acts only in modes `None` and `Identifier`, with the progress above. In every other mode it returns nothing and changes nothing. |
| OldLexer.OldSkipsSeparators | src/lexer.rs:83-92 | With an empty buffer, every separator is skipped. |
| OldLexer.OldWordVerbatim | src/lexer.rs:110-112 | Letters are appended to the buffer as written, with no lower-casing. |
| OldLexer.OldKeyword | src/lexer.rs:113-127 | A word ended by a separator behaves as follows. A hit returns the token, consumes the separator and resets the buffer. A miss below `MAX_SPC_INDEX` appends one space. A longer miss is an error. |
| OldLexer.OldWordEnd | src/lexer.rs:113-127 | At the separator right after a word the following happens. A keyword is returned, with the separator consumed and the buffer emptied. A miss below `MAX_SPC_INDEX` goes on with a space appended. A longer miss is an error. |
| OldLexer.OldEndDropsWord | src/lexer.rs:133-139 | At the end of the input the buffer is not looked up. The call returns nothing and sets `EndOfFile`. |
| OldLexer.OldCommaAfterSpace | src/lexer.rs:83-92 | A comma after a space is not skipped once the buffer is non-empty. It adds a second space. |
| OldLexer.OldInvalidChar | src/lexer.rs:128-131 | A character that is neither a letter nor a separator is consumed, nothing is returned, and the lexer goes to `Error`. |
| OldLexer.OldTerminal | src/lexer.rs:146-151 | After `EndOfFile` or `Error`, `next` returns nothing and changes nothing. |
| OldLexer.Lexer.constructor | src/lexer.rs:38-45 | A new old lexer is at position 0, with an empty buffer, `last_char` a space and mode `None`. |
| OldLexer.Lexer.NextIdentifier | src/lexer.rs:101-140 | The loop on the fields leaves exactly the fields and the token given by `LexIdentifier`. |
| OldLexer.Lexer.Next | src/lexer.rs:146-151 | The same for `next` and `LexNext`. |

## Left out

- **Keyword table and `MAX_SPC_INDEX`.** `get_token`, `get_*_token` and
  `MAX_SPC_INDEX` come from `src/grammar`, which is not part of this model.
  They are an abstract map and number. The token helpers (`get_string_token`
  and the others) are modelled as building a token of the matching kind from
  the buffer. The EOF token has the value "eof".
- **The grammar.** `src/grammar/mod.rs`, `src/grammar.rs` and
  `src/grammar/tests.rs` are `pest` grammar macros handled by a library, and
  the lexer does not call them.
- **`src/token.rs` and `src/ast.rs`.** The datatypes here follow how the
  lexer and parser use these types, not these declarations.
  `Expr::from(tk)` and `ast::Character { ty, spec }` are both modelled as
  `CharacterExpr(token, payload)`.
- **`src/lib.rs`, the regex builder and error messages.** Errors are a
  single failure value.
- **Unicode.** The code guards its letter and digit tests with `is_ascii`, so
  characters are treated as ASCII. `char::is_digit(10)` in `next_token` and
  `next_number` is written as the ASCII digit test.
- **Iterators.** The peekable character iterator is a position into the
  input string. `peek` reads at the position, and `next` reads and advances.
- SrlParser.DrainIsFold: proved only when both parentheses are keywords.
  Otherwise the lexer can return nothing without stopping (a parenthesis
  missing from the table, `src/lexer/mod.rs:143-148`), and `parse` goes on
  reading after it.
- SrlParser.ParseIsFold: proved under the same condition.
- LexerFacts.FinalIsTerminal: proved under the same condition.
- KeywordScan.ScanKeyword: only covers words that end in a letter. A buffer
  that ends in a space, after a miss at a parenthesis, is covered only by the
  general facts in `IdentLoopSettles`.
