/**
 * Token kinds, tokens and the classifier that turns a lexeme (or its
 * absence) into a token kind. The names of the kinds are the source's own,
 * misspellings included (`Indentifier`, `RighBrace`).
 */
module Tokens {

  datatype Option<+T> = None | Some(value: T)

  datatype TokenType =
    | Illegal
    | EOF
    // identifiers and literals
    | Indentifier
    | Integer
    // operators
    | Assign
    | Plus
    // delimiters
    | Comma
    | Semicolon
    | LeftParenthesis
    | RightParenthesis
    | LeftBrace
    | RighBrace
    // keywords
    | Function
    | Let

  /** A token; `Token(kind, literal)` is also what `Token::new` builds. */
  datatype Token = Token(tokenType: TokenType, literal: Option<string>)

  /** `char::is_alphabetic`, restricted to ASCII input. */
  predicate IsAlphabetic(c: char) {
    'a' <= c <= 'z' || 'A' <= c <= 'Z'
  }

  /** Every character is alphabetic or an underscore (true of the empty string). */
  predicate IsIdentifierText(s: string) {
    forall i :: 0 <= i < |s| ==> IsAlphabetic(s[i]) || s[i] == '_'
  }

  /** The one-character lexemes that have a kind of their own. */
  const Symbols: set<string> := {"=", "+", "(", ")", "{", "}", ",", ";"}

  /** The kinds that exactly one lexeme maps to. */
  predicate IsFixed(k: TokenType) {
    k.Assign? || k.Plus? || k.LeftParenthesis? || k.RightParenthesis? ||
    k.LeftBrace? || k.RighBrace? || k.Comma? || k.Semicolon? ||
    k.Function? || k.Let?
  }

  /** The lexeme of a fixed kind. */
  function Spelling(k: TokenType): string
    requires IsFixed(k)
  {
    match k
    case Assign => "="
    case Plus => "+"
    case LeftParenthesis => "("
    case RightParenthesis => ")"
    case LeftBrace => "{"
    case RighBrace => "}"
    case Comma => ","
    case Semicolon => ";"
    case Function => "fn"
    case Let => "let"
  }

  /**
   * `TokenType::from(Option<&str>)`: no lexeme is `EOF`, and `Integer` is never
   * produced; `ClassifySpec` and `SpellingClassifies` state the rest.
   */
  function Classify(value: Option<string>): (k: TokenType)
    ensures k == EOF <==> value.None?
    ensures k != Integer
  {
    match value
    case None => EOF
    case Some(s) =>
      if s == "=" then Assign
      else if s == "+" then Plus
      else if s == "(" then LeftParenthesis
      else if s == ")" then RightParenthesis
      else if s == "{" then LeftBrace
      else if s == "}" then RighBrace
      else if s == "," then Comma
      else if s == ";" then Semicolon
      else if s == "fn" then Function
      else if s == "let" then Let
      else if IsIdentifierText(s) then Indentifier
      else Illegal
  }

  /**
   * The classifier matches the whole lexeme against the symbols and the two
   * keywords, then tests for identifier text, and otherwise gives `Illegal`;
   * no lexeme at all is `EOF`. `Integer` is never produced.
   */
  lemma ClassifySpec(value: Option<string>, k: TokenType)
    requires k == Classify(value)
    ensures k == EOF <==> value.None?
    ensures k != Integer
    ensures IsFixed(k) ==> value == Some(Spelling(k))
    ensures k == Indentifier <==>
              value.Some? && IsIdentifierText(value.value) &&
              value.value != "fn" && value.value != "let"
    ensures k == Illegal <==>
              value.Some? && value.value !in Symbols && !IsIdentifierText(value.value)
  {
    if value.Some? && value.value in Symbols {
      var s := value.value;
      assert !(IsAlphabetic(s[0]) || s[0] == '_');
    }
  }

  /** Each fixed kind is what its own spelling classifies as (the converse is a clause of `ClassifySpec`). */
  lemma SpellingClassifies(k: TokenType)
    requires IsFixed(k)
    ensures Classify(Some(Spelling(k))) == k
  {
  }

  /** Keywords are matched only as the whole lexeme: a longer word that starts with one is an identifier. */
  lemma KeywordNeedsWholeLexeme(s: string)
    requires s == "letx" || s == "fnord" || s == "lets"
    ensures Classify(Some(s)) == Indentifier
  {
    assert IsIdentifierText(s) by {
      forall i | 0 <= i < |s| ensures IsAlphabetic(s[i]) {
      }
    }
  }

  /** The empty lexeme counts as identifier text, so it is classified as an identifier. */
  lemma EmptyLexemeIsIdentifier()
    ensures Classify(Some("")) == Indentifier
  {
  }
}
