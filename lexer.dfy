/**
 * The `Lexer` of src/main.rs: an input string and two cursors,
 * `startOfCurrentToken` and `readPosition`, and a `next` step that cuts the
 * next lexeme out of the input.
 *
 * As written, `next` never skips whitespace, takes the first character
 * whatever it is and then only alphabetic characters, returns `None` (here
 * `Exhausted`) instead of an `EOF` token, and panics on one of two `unwrap`s
 * when a lexeme reaches the end of the input (here `Panic(site)`).
 */
module Lexing {
  import opened Tokens

  /** Which `unwrap` in `next` panics. */
  datatype PanicSite =
    | LiteralUnwrap   // the lexeme was never cut: `token_literal.unwrap()`
    | EndIndexUnwrap  // the run reached the end: `char_indices().nth(read_position).unwrap()`

  /** What one call of `next` does: `Some(token)`, `None`, or a panic. */
  datatype Next = Emit(token: Token) | Exhausted | Panic(site: PanicSite)

  /** The result of one call together with the new read position. */
  datatype Outcome = Outcome(result: Next, readPosition: nat)

  /** The end of the run of alphabetic characters that starts at `i`. */
  function AlphabeticRunEnd(input: string, i: nat): (e: nat)
    requires i <= |input|
    ensures i <= e <= |input|
    ensures forall k :: i <= k < e ==> IsAlphabetic(input[k])
    ensures e < |input| ==> !IsAlphabetic(input[e])
    decreases |input| - i
  {
    if i < |input| && IsAlphabetic(input[i]) then AlphabeticRunEnd(input, i + 1) else i
  }

  /**
   * One call of `next` from read position `readPosition`; the new
   * `startOfCurrentToken` is always the old `readPosition`. What the call
   * does is stated by `NextStepSpec`.
   */
  function NextStep(input: string, readPosition: nat): (o: Outcome)
    ensures o.readPosition > readPosition
  {
    var start := readPosition;
    var position := readPosition + 1;
    if position >= |input| then
      Outcome(if start >= |input| then Exhausted else Panic(LiteralUnwrap), position)
    else
      var stop := AlphabeticRunEnd(input, position);
      if stop == |input| then
        Outcome(Panic(EndIndexUnwrap), stop)
      else
        var literal := input[start..stop];
        Outcome(Emit(Token(Classify(Some(literal)), Some(literal))), stop)
  }

  /**
   * What one call does: `None` exactly when the token would start at or past
   * the end; the literal unwrap panics exactly when it starts on the last
   * character; the end-index unwrap panics exactly when everything after the
   * first character is alphabetic; otherwise the token is the first
   * character and the alphabetic run after it, cut out of the input and
   * classified, and the read position stops on the non-alphabetic character
   * after it.
   */
  lemma NextStepSpec(input: string, readPosition: nat, o: Outcome)
    requires o == NextStep(input, readPosition)
    ensures o.readPosition > readPosition
    ensures o.result == Exhausted <==> readPosition >= |input|
    ensures o.result == Panic(LiteralUnwrap) <==> readPosition + 1 == |input|
    ensures o.result == Panic(EndIndexUnwrap) <==>
              readPosition + 1 < |input| &&
              forall k :: readPosition < k < |input| ==> IsAlphabetic(input[k])
    ensures !o.result.Emit? ==> o.readPosition >= |input|
    ensures o.result.Emit? ==>
              o.readPosition < |input| &&
              (forall k :: readPosition < k < o.readPosition ==> IsAlphabetic(input[k])) &&
              !IsAlphabetic(input[o.readPosition]) &&
              var literal := input[readPosition..o.readPosition];
              o.result.token == Token(Classify(Some(literal)), Some(literal))
  {
  }

  /** The calls made so far on a lexer, and its two cursors after them. */
  datatype Trace = Trace(steps: seq<Next>, start: nat, readPosition: nat)

  /** `calls` calls of `next` on a freshly built lexer over `input`. */
  function Run(input: string, calls: nat): (t: Trace)
    ensures |t.steps| == calls
    ensures t.readPosition >= calls
    ensures calls > 0 ==> t.start < t.readPosition
  {
    if calls == 0 then Trace([], 0, 0)
    else
      var before := Run(input, calls - 1);
      var o := NextStep(input, before.readPosition);
      Trace(before.steps + [o.result], before.readPosition, o.readPosition)
  }

  predicate AllEmitted(steps: seq<Next>) {
    forall i :: 0 <= i < |steps| ==> steps[i].Emit?
  }

  /** The tokens of the `Emit` steps, in order. */
  function Emitted(steps: seq<Next>): seq<Token> {
    if steps == [] then []
    else
      var last := steps[|steps| - 1];
      Emitted(steps[..|steps| - 1]) + if last.Emit? then [last.token] else []
  }

  /** The literals of `tokens`, concatenated in order. */
  function Text(tokens: seq<Token>): string {
    if tokens == [] then ""
    else
      Text(tokens[..|tokens| - 1]) + LiteralText(tokens[|tokens| - 1])
  }

  /** One more call extends the run by the outcome of `NextStep` at the current read position. */
  lemma RunOneMore(input: string, calls: nat)
    ensures Run(input, calls + 1).steps ==
              Run(input, calls).steps + [NextStep(input, Run(input, calls).readPosition).result]
    ensures Run(input, calls + 1).start == Run(input, calls).readPosition
    ensures Run(input, calls + 1).readPosition == NextStep(input, Run(input, calls).readPosition).readPosition
  {
  }

  /** A run that ends at `readPosition`, extended by the outcome of one more call there. */
  lemma RunExtends(input: string, steps: seq<Next>, readPosition: nat, o: Outcome, after: seq<Next>)
    requires Run(input, |steps|).steps == steps && Run(input, |steps|).readPosition == readPosition
    requires o == NextStep(input, readPosition) && after == steps + [o.result]
    ensures Run(input, |after|) == Trace(after, readPosition, o.readPosition)
  {
    RunOneMore(input, |steps|);
  }

  /** The literal of a token, or nothing when it has none. */
  function LiteralText(token: Token): string {
    match token.literal
    case Some(s) => s
    case None => ""
  }

  lemma TextAppend(tokens: seq<Token>, token: Token)
    ensures Text(tokens + [token]) == Text(tokens) + LiteralText(token)
  {
    assert (tokens + [token])[..|tokens|] == tokens;
  }

  lemma EmittedAppend(steps: seq<Next>, step: Next)
    ensures Emitted(steps + [step]) == Emitted(steps) + if step.Emit? then [step.token] else []
  {
    assert (steps + [step])[..|steps|] == steps;
  }

  /** Text that spells the input up to `start`, extended by the literal `input[start..end]`. */
  lemma TextExtends(input: string, tokens: seq<Token>, token: Token, start: nat, end: nat)
    requires start <= end <= |input|
    requires Text(tokens) == input[..start] && token.literal == Some(input[start..end])
    ensures Text(tokens + [token]) == input[..end]
  {
    TextAppend(tokens, token);
    assert input[..end] == input[..start] + input[start..end];
  }

  /** A producing step extends text that spells the input up to its read position. */
  lemma EmitExtendsText(input: string, tokens: seq<Token>, readPosition: nat)
    requires readPosition <= |input| && Text(tokens) == input[..readPosition]
    requires NextStep(input, readPosition).result.Emit?
    ensures NextStep(input, readPosition).readPosition < |input|
    ensures Text(tokens + [NextStep(input, readPosition).result.token]) ==
              input[..NextStep(input, readPosition).readPosition]
  {
    var o := NextStep(input, readPosition);
    NextStepSpec(input, readPosition, o);
    TextExtends(input, tokens, o.result.token, readPosition, o.readPosition);
  }

  /**
   * As long as every call has produced a token, the literals abut and
   * together spell the input up to the read position; nothing is skipped,
   * whitespace included, and the read position is still inside the input.
   */
  lemma {:induction false} RunSpellsPrefix(input: string, calls: nat)
    requires AllEmitted(Run(input, calls).steps)
    ensures Run(input, calls).readPosition <= |input|
    ensures Text(Emitted(Run(input, calls).steps)) == input[..Run(input, calls).readPosition]
    ensures calls > 0 ==> Run(input, calls).readPosition < |input|
  {
    if calls > 0 {
      var before := Run(input, calls - 1);
      var o := NextStep(input, before.readPosition);
      var steps := before.steps + [o.result];
      assert Run(input, calls) == Trace(steps, before.readPosition, o.readPosition);
      assert AllEmitted(before.steps) by {
        forall i | 0 <= i < calls - 1 ensures before.steps[i].Emit? {
          assert before.steps[i] == steps[i];
        }
      }
      assert o.result.Emit? by {
        assert o.result == steps[calls - 1];
      }
      RunSpellsPrefix(input, calls - 1);
      EmittedAppend(before.steps, o.result);
      EmitExtendsText(input, Emitted(before.steps), before.readPosition);
    }
  }

  /**
   * Once a call has returned `None` or panicked, the read position is at or
   * past the end of the input and every later call returns `None`.
   */
  lemma {:induction false} RunStopIsFinal(input: string, calls: nat, i: nat)
    requires i < calls
    requires !Run(input, calls).steps[i].Emit?
    ensures Run(input, calls).readPosition >= |input|
    ensures forall j :: i < j < calls ==> Run(input, calls).steps[j] == Exhausted
  {
    var before := Run(input, calls - 1);
    if i < calls - 1 {
      assert before.steps[i] == Run(input, calls).steps[i];
      RunStopIsFinal(input, calls - 1, i);
      forall j | i < j < calls
        ensures Run(input, calls).steps[j] == Exhausted
      {
        if j < calls - 1 {
          assert before.steps[j] == Run(input, calls).steps[j];
        }
      }
    }
  }

  /** On empty input the first call, and every later one, returns `None`. */
  lemma {:induction false} EmptyInputExhausted(calls: nat)
    ensures forall j :: 0 <= j < calls ==> Run("", calls).steps[j] == Exhausted
  {
    if calls > 0 {
      EmptyInputExhausted(calls - 1);
      RunOneMore("", calls - 1);
    }
  }

  /**
   * On a non-empty input the first call that does not produce a token
   * panics: the scan never ends with `None`.
   */
  lemma FirstStopPanics(input: string, calls: nat)
    requires input != []
    requires calls > 0
    requires AllEmitted(Run(input, calls - 1).steps)
    requires !Run(input, calls).steps[calls - 1].Emit?
    ensures Run(input, calls).steps[calls - 1].Panic?
  {
    RunSpellsPrefix(input, calls - 1);
  }

  /** Every scan stops (returns `None` or panics) within `|input| + 1` calls. */
  lemma ScanStops(input: string)
    ensures !AllEmitted(Run(input, |input| + 1).steps)
  {
    if AllEmitted(Run(input, |input| + 1).steps) {
      RunSpellsPrefix(input, |input| + 1);
    }
  }

  /**
   * A lexer over `input`. Its ghost `history` records the results of the
   * calls of `Next` so far; `Valid` says the cursors are those of `Run`.
   */
  class Lexer {
    const input: string
    var startOfCurrentToken: nat
    var readPosition: nat
    ghost var history: seq<Next>

    ghost predicate Valid()
      reads this
    {
      Run(input, |history|) == Trace(history, startOfCurrentToken, readPosition)
    }

    /** `Lexer::new`: both cursors at the start. */
    constructor (input: string)
      ensures Valid()
      ensures this.input == input && history == []
      ensures startOfCurrentToken == 0 && readPosition == 0
    {
      this.input := input;
      startOfCurrentToken := 0;
      readPosition := 0;
      history := [];
    }

    /** `next`: start at the old read position, take one character and then an alphabetic run. */
    method Next() returns (r: Next)
      requires Valid()
      modifies this
      ensures Valid()
      ensures history == old(history) + [r]
      ensures startOfCurrentToken == old(readPosition)
      ensures readPosition > old(readPosition)
      ensures Outcome(r, readPosition) == NextStep(input, old(readPosition))
    {
      ghost var o := NextStep(input, readPosition);
      var literal: Option<string> := None;
      var start := readPosition;
      var position := readPosition + 1;

      if position >= |input| {
        literal := None;
      } else {
        while position < |input| && IsAlphabetic(input[position])
          invariant start < position <= |input|
          invariant AlphabeticRunEnd(input, position) == AlphabeticRunEnd(input, start + 1)
          decreases |input| - position
        {
          position := position + 1;
        }
        if position == |input| {
          // `char_indices().nth(read_position)` is `None`
          r := Panic(EndIndexUnwrap);
          assert o == Outcome(r, position);
          startOfCurrentToken, readPosition := start, position;
          history := history + [r];
          RunExtends(input, old(history), start, o, history);
          return;
        }
        literal := Some(input[start..position]);
      }

      if start >= |input| {
        r := Exhausted;
      } else if literal.None? {
        r := Panic(LiteralUnwrap);
      } else {
        r := Emit(Token(Classify(literal), literal));
      }
      assert o == Outcome(r, position);
      startOfCurrentToken, readPosition := start, position;
      history := history + [r];
      RunExtends(input, old(history), start, o, history);
    }
  }

  /** Each token as the result of a producing call. */
  function Emits(tokens: seq<Token>): seq<Next> {
    seq(|tokens|, i requires 0 <= i < |tokens| => Emit(tokens[i]))
  }

  /**
   * The `for token in lexer` loop of the test drivers: call `Next` until it
   * stops producing tokens. The loop ends with `None` only on empty input
   * and in a panic otherwise; the tokens it got spell a prefix of the input,
   * and on non-empty input never its last character.
   */
  method Drain(input: string) returns (tokens: seq<Token>, stop: Next)
    ensures !stop.Emit?
    ensures stop == Exhausted <==> input == []
    ensures input != [] ==> stop.Panic?
    ensures |Text(tokens)| <= |input| && Text(tokens) == input[..|Text(tokens)|]
    ensures input != [] ==> |Text(tokens)| < |input|
    ensures Run(input, |tokens| + 1).steps == Emits(tokens) + [stop]
  {
    var lexer := new Lexer(input);
    tokens := [];
    stop := lexer.Next();
    NextStepSpec(input, 0, Outcome(stop, lexer.readPosition));
    while stop.Emit?
      invariant lexer.Valid() && lexer.input == input
      invariant lexer.history == Emits(tokens) + [stop]
      invariant tokens != [] ==> lexer.startOfCurrentToken < |input|
      invariant tokens == [] ==> lexer.startOfCurrentToken == 0
      invariant stop == Exhausted <==> lexer.startOfCurrentToken >= |input|
      invariant Text(tokens) == input[..lexer.startOfCurrentToken]
      invariant stop.Emit? ==>
                  lexer.readPosition < |input| &&
                  stop.token.literal == Some(input[lexer.startOfCurrentToken..lexer.readPosition])
      decreases |input| - lexer.readPosition
    {
      TextExtends(input, tokens, stop.token, lexer.startOfCurrentToken, lexer.readPosition);
      assert Emits(tokens + [stop.token]) == Emits(tokens) + [stop];
      tokens := tokens + [stop.token];
      ghost var position := lexer.readPosition;
      stop := lexer.Next();
      NextStepSpec(input, position, Outcome(stop, lexer.readPosition));
    }
  }
}
