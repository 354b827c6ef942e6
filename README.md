# Lexer of a toy C-like language, modelled in Dafny

The interpreter's only logic is its tokenizer in `src/main.rs`. This project
models that tokenizer as it is written and proves what it does.

- `Tokens` (tokens.dfy) holds the token kinds, with the source's own spelling
  (`Indentifier`, `RighBrace`). It also holds the `Token` record and
  `Classify`, the conversion `From<Option<&str>> for TokenType`, whose
  behaviour `ClassifySpec` states. `Token::new`
  only builds the record, so it is the datatype constructor `Token(kind, literal)`.
- `Lexing` (lexer.dfy) holds the `Lexer` class. It has the input, the two
  cursors `startOfCurrentToken` and `readPosition`, and a `Next` method with
  the source's `while` loop. `Next` is proved against the pure function
  `NextStep`, whose behaviour `NextStepSpec` states. `Run` gives the calls
  made on a new lexer, and a ghost `history` ties the object's fields to it. The lemmas about
  `NextStep` and `Run` state the properties. `Drain` models the
  `for token in lexer` loop of the test drivers.
- `Scenarios` (scenarios.dfy) shows what the code does on the inputs of
  `basic_test` and `advanced_test`, and on a few small edge-case inputs.

One call of `next`, as written:

1. It sets `startOfCurrentToken` to the old `readPosition` and adds one to `readPosition`.
2. If `readPosition` has reached the end of the input, there is no literal.
3. Otherwise it scans on while the characters are alphabetic.
4. It then cuts the literal `input[start..readPosition]` and classifies it.

It never skips whitespace and never produces `Integer` or an `EOF` token.
When the token start is past the end of the input, it returns `None`,
modelled as `Exhausted`. It panics in two cases, modelled as `Panic(site)`:

- `LiteralUnwrap`: the token starts on the last character.
- `EndIndexUnwrap`: the alphabetic run reaches the end of the input.

A consequence is proved in `FirstStopPanics` and `Drain`: on a non-empty
input the scan never ends with `None`. It always ends in a panic.

The test drivers expect more than the code does, and the model follows the
code:

- `advanced_test` (src/main.rs:170-191) expects whitespace to be skipped and
  `Integer` tokens for `5` and `10`. The code skips nothing and never
  produces `Integer`.
- Both expected lists end with `Token::new(TokenType::EOF, None)`
  (src/main.rs:146, 190). The code returns `None` on empty input and panics
  on any other input, so no `EOF` token is ever produced.

So the scenarios model the code. On `"=+(){},;"` the eighth call panics
instead of yielding `Semicolon`. On `"@"` the first call panics. The second
lexeme of the `advanced_test` input is `" five"`, classified `Illegal`.

## Model

| member | source | states |
|---|---|---|
| Tokens.Classify | src/main.rs:44-72 | no lexeme is `EOF` and nothing else is, and `Integer` is never produced; `ClassifySpec` and `SpellingClassifies` state the rest |
| Tokens.ClassifySpec | src/main.rs:44-72 | `None` and only `None` gives `EOF`; `Integer` is never returned; a fixed kind comes only from its own spelling (`"fn"` exactly for `Function`, `"let"` exactly for `Let`, the eight symbols for theirs); `Indentifier` iff all characters are alphabetic or `_` and the lexeme is not a keyword; `Illegal` iff the lexeme is neither a symbol nor identifier text |
| Tokens.SpellingClassifies | src/main.rs:47-57 | each symbol and keyword spelling classifies as its own kind (the converse of the fixed-kind clause of `ClassifySpec`) |
| Tokens.KeywordNeedsWholeLexeme | src/main.rs:56-63 | keywords match only the whole lexeme: `letx`, `lets`, `fnord` are identifiers |
| Tokens.EmptyLexemeIsIdentifier | src/main.rs:58-63 | the empty lexeme passes the `all` test and is an identifier |
| Lexing.AlphabeticRunEnd | src/main.rs:101-111 | the scan from a position stops at the first non-alphabetic character or at the end, and everything it passed is alphabetic |
| Lexing.NextStep | src/main.rs:95-111 | every call moves the read position strictly forward |
| Lexing.NextStepSpec | src/main.rs:93-131 | one call: `None` iff the old read position is at or past the end; the literal unwrap panics iff the token starts on the last character; the end-index unwrap panics iff everything after the first character is alphabetic up to the end; a token is produced only with the new read position inside the input, its literal is exactly `input[old readPosition..new readPosition]`, all but its first character are alphabetic, the character after it is not, and its kind is the classification of the literal; after `None` or a panic the read position is at or past the end |
| Lexing.Run | src/main.rs:95-96 | after `calls` calls on a new lexer there are `calls` results, the read position is at least `calls`, and the token start is below the read position |
| Lexing.RunSpellsPrefix | src/main.rs:113-121 | while every call has produced a token, the literals abut and together spell `input[..readPosition]`, whitespace included, with `readPosition` inside the input |
| Lexing.RunStopIsFinal | src/main.rs:124-125 | after a call returns `None` or panics, the read position is at or past the end and every later call returns `None` |
| Lexing.EmptyInputExhausted | src/main.rs:98-99 | on empty input the first call and every later one return `None` |
| Lexing.FirstStopPanics | src/main.rs:113-128 | on non-empty input the first call that does not produce a token panics |
| Lexing.ScanStops | src/main.rs:95-96 | within `|input| + 1` calls some call does not produce a token |
| Lexing.Lexer.constructor | src/main.rs:81-87 | `Lexer::new` stores the input and sets both cursors to 0 |
| Lexing.Lexer.Next | src/main.rs:93-131 | the new token start is the old read position, the read position grows, and the result and new read position are those of `NextStep`; the object stays consistent with `Run` |
| Lexing.Drain | src/main.rs:151-155 | consuming the lexer until it stops: it stops with `None` iff the input is empty and panics otherwise; the tokens received are those of `Run`, their literals spell a prefix of the input, and on non-empty input that prefix never includes the last character |
| Scenarios.BasicTestScenario | src/main.rs:135-155 | on `"=+(){},;"` the first seven calls yield `Assign` … `Comma` with their one-character literals and the eighth panics |
| Scenarios.AdvancedTestSecondToken | src/main.rs:161-172 | on the `advanced_test` input the first two tokens are `Let("let")` and `Illegal(" five")` |
| Scenarios.SingleCharacterPanics | src/main.rs:124-129 | on `"@"` the first call panics on the literal unwrap |
| Scenarios.MaximalMunch | src/main.rs:101-111 | on `"letx;"` the first token is `Indentifier("letx")` |
| Scenarios.RunAfterSymbol | src/main.rs:101-111 | on `"=ab;"` the alphabetic run follows a symbol: the first token is `Illegal("=ab")` |
| Scenarios.WordAtEndPanics | src/main.rs:114-120 | on `"letx"` the run reaches the end and the end-index unwrap panics |

## Left out

- `main` and the `println!` calls: console output only.
- The `assert_eq!` comparisons of `basic_test` and `advanced_test`. The
  drivers appear only as the `Drain` loop and the scenario inputs.
  `advanced_test`'s expected list cannot be met by this code.
- Unicode: `IsAlphabetic` accepts ASCII letters only, where `char::is_alphabetic`
  is Unicode-wide. The source compares `input.len()`, a byte count, with
  character indices. The model treats input as ASCII, where the two agree.
  On other input the model does not describe the code.
- `Lexing.Lexer.Next`: does not model the `usize` overflow of `read_position += 1`. It would need about 2^64 calls after the end.
- `Lexing.Lexer.Next`: scans with local copies of the two cursors and stores
  them in the fields when the call returns (or panics). The source updates
  the fields as it goes. Nothing else sees the object during a call, so the
  end state is the same. The `println!` inside the loop is not modelled.
- `Lexing.Lexer.Next`: a panic is a returned value, and the fields keep the
  values they had at the panic. Unwinding is not modelled.
- The `Iterator` trait, `enumerate`, and the derived `Debug`/`PartialEq`
  implementations: plumbing only. `next` is a method returning a `Next` value.
- Whitespace skipping, integer lexing and an emitted `EOF` token are absent
  from the code, so the model does not have them.
