/**
 * What the lexer does, as written, on the inputs of the two test drivers and
 * on a few small inputs that show its edge cases.
 */
module Scenarios {
  import opened Tokens
  import opened Lexing

  /** The input of `basic_test`. */
  const BasicInput: string := "=+(){},;"

  /** The input of `advanced_test`, line by line. */
  const AdvancedInput: string :=
    "let five = 5;\n" +
    "let ten = 10;\n" +
    "\n" +
    "let add = fn(x, y) {\n" +
    "x + y;\n" +
    "};\n" +
    "\n" +
    "let result = add(five, ten);\n"

  /** The run that starts at `i` ends at the first non-alphabetic character at or after `i`. */
  lemma RunEndsAt(input: string, i: nat, e: nat)
    requires i <= e < |input|
    requires forall k :: i <= k < e ==> IsAlphabetic(input[k])
    requires !IsAlphabetic(input[e])
    ensures AlphabeticRunEnd(input, i) == e
  {
  }

  /** The token of the one-character lexeme at `p`. */
  function OneCharacterToken(input: string, p: nat): Token
    requires p < |input|
  {
    Token(Classify(Some([input[p]])), Some([input[p]]))
  }

  /** One `Emit` of a one-character token for each of the first `calls` characters. */
  function OneCharacterSteps(input: string, calls: nat): seq<Next>
    requires calls <= |input|
  {
    if calls == 0 then []
    else OneCharacterSteps(input, calls - 1) + [Emit(OneCharacterToken(input, calls - 1))]
  }

  /**
   * While no character after the first is alphabetic, each of the first
   * `calls` calls takes exactly one character.
   */
  lemma {:induction false} OneCharacterRun(input: string, calls: nat)
    requires calls < |input|
    requires forall k :: 0 < k <= calls ==> !IsAlphabetic(input[k])
    ensures Run(input, calls).readPosition == calls
    ensures Run(input, calls).steps == OneCharacterSteps(input, calls)
  {
    if calls > 0 {
      OneCharacterRun(input, calls - 1);
      var p := calls - 1;
      RunEndsAt(input, p + 1, p + 1);
      assert input[p..p + 1] == [input[p]];
      assert NextStep(input, p) == Outcome(Emit(OneCharacterToken(input, p)), p + 1);
    }
  }

  /** No character of the `basic_test` input is alphabetic. */
  lemma BasicHasNoLetters()
    ensures |BasicInput| == 8
    ensures forall k :: 0 <= k < |BasicInput| ==> !IsAlphabetic(BasicInput[k])
  {
  }

  /** The seven one-character tokens of the `basic_test` input before its last character. */
  lemma BasicTokens()
    ensures OneCharacterSteps(BasicInput, 7) == [
              Emit(Token(Assign, Some("="))),
              Emit(Token(Plus, Some("+"))),
              Emit(Token(LeftParenthesis, Some("("))),
              Emit(Token(RightParenthesis, Some(")"))),
              Emit(Token(LeftBrace, Some("{"))),
              Emit(Token(RighBrace, Some("}"))),
              Emit(Token(Comma, Some(",")))]
  {
  }

  /** The first seven calls on the `basic_test` input. */
  lemma BasicFirstSeven()
    ensures Run(BasicInput, 7).readPosition == 7
    ensures Run(BasicInput, 7).steps == [
              Emit(Token(Assign, Some("="))),
              Emit(Token(Plus, Some("+"))),
              Emit(Token(LeftParenthesis, Some("("))),
              Emit(Token(RightParenthesis, Some(")"))),
              Emit(Token(LeftBrace, Some("{"))),
              Emit(Token(RighBrace, Some("}"))),
              Emit(Token(Comma, Some(",")))]
  {
    BasicHasNoLetters();
    BasicTokens();
    OneCharacterRun(BasicInput, 7);
  }

  /**
   * `basic_test`: the first seven calls give the seven one-character tokens
   * the test expects; the eighth, on the final `;`, panics instead of giving
   * `Semicolon`, so the test's `EOF` is never reached.
   */
  lemma BasicTestScenario()
    ensures Run(BasicInput, 8).steps == [
              Emit(Token(Assign, Some("="))),
              Emit(Token(Plus, Some("+"))),
              Emit(Token(LeftParenthesis, Some("("))),
              Emit(Token(RightParenthesis, Some(")"))),
              Emit(Token(LeftBrace, Some("{"))),
              Emit(Token(RighBrace, Some("}"))),
              Emit(Token(Comma, Some(","))),
              Panic(LiteralUnwrap)]
  {
    BasicFirstSeven();
    RunOneMore(BasicInput, 7);
  }

  /** `let` is cut from the start of the `advanced_test` input. */
  lemma AdvancedFirstStep()
    ensures NextStep(AdvancedInput, 0) == Outcome(Emit(Token(Let, Some("let"))), 3)
  {
    var input := AdvancedInput;
    assert input[..14] == "let five = 5;\n";
    RunEndsAt(input, 1, 3);
    assert input[0..3] == "let";
  }

  /** The second lexeme of the `advanced_test` input keeps its leading space. */
  lemma AdvancedSecondStep()
    ensures NextStep(AdvancedInput, 3) == Outcome(Emit(Token(Illegal, Some(" five"))), 8)
  {
    var input := AdvancedInput;
    assert input[..14] == "let five = 5;\n";
    RunEndsAt(input, 4, 8);
    assert input[3..8] == " five";
    assert !IsIdentifierText(" five") by {
      assert !(IsAlphabetic(" five"[0]) || " five"[0] == '_');
    }
  }

  /**
   * `advanced_test`: the first token is `let`, but the second is `" five"`
   * and `Illegal`, because the space before `five` is not skipped.
   */
  lemma AdvancedTestSecondToken()
    ensures Run(AdvancedInput, 2).steps == [
              Emit(Token(Let, Some("let"))),
              Emit(Token(Illegal, Some(" five")))]
  {
    AdvancedFirstStep();
    AdvancedSecondStep();
    RunOneMore(AdvancedInput, 0);
    RunOneMore(AdvancedInput, 1);
  }

  /** A single illegal character is not a token followed by the end: the first call panics. */
  lemma SingleCharacterPanics()
    ensures Run("@", 1).steps == [Panic(LiteralUnwrap)]
  {
  }

  /** Maximal munch: `letx` is one identifier, not `let` and then `x`. */
  lemma MaximalMunch()
    ensures NextStep("letx;", 0) == Outcome(Emit(Token(Indentifier, Some("letx"))), 4)
  {
    RunEndsAt("letx;", 1, 4);
    assert "letx;"[0..4] == "letx";
    KeywordNeedsWholeLexeme("letx");
  }

  /** The alphabetic run is taken whatever the first character is. */
  lemma RunAfterSymbol()
    ensures NextStep("=ab;", 0) == Outcome(Emit(Token(Illegal, Some("=ab"))), 3)
  {
    RunEndsAt("=ab;", 1, 3);
    assert "=ab;"[0..3] == "=ab";
    assert !IsIdentifierText("=ab") by {
      assert !(IsAlphabetic("=ab"[0]) || "=ab"[0] == '_');
    }
  }

  /** A word that runs to the end of the input panics on the end index. */
  lemma WordAtEndPanics()
    ensures NextStep("letx", 0).result == Panic(EndIndexUnwrap)
  {
  }
}
