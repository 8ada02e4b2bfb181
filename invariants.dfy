/** The invariants every handler of the calculator keeps: the display mirrors
    the operand being typed, the left operand and the operation are pending
    together, and an operand being typed is a well-formed decimal numeral. */
module Invariants {
  import opened Engine

  /** An operand as the keypad builds it: digits with at most one point,
      starting with a digit, and no leading zero except "0" and "0.". */
  predicate IsTypedNumeral(t: string) {
    && |t| > 0
    && IsDigitChar(t[0])
    && (forall i | 0 <= i < |t| :: IsDigitChar(t[i]) || t[i] == '.')
    && multiset(t)['.'] <= 1
    && (t[0] == '0' && |t| > 1 ==> t[1] == '.')
  }

  /** The invariant of every reachable state. */
  predicate Inv(s: State) {
    && s.display == s.currentValue
    && s.currentValue != ""
    && (s.previousValue.None? <==> s.operation.None?)
    && (s.previousValue.Some? ==> s.previousValue.value != "")
    && (!s.waitingForOperand ==> IsTypedNumeral(s.currentValue))
  }

  /** An input the keypad can produce: digit buttons send one digit each. */
  predicate IsKeypadInput(input: Input) {
    input.PressDigit? ==> IsDigitKey(input.digit)
  }

  lemma InitialInv()
    ensures Inv(Initial)
  {
  }

  lemma ClearEntryInv(s: State)
    requires Inv(s)
    ensures Inv(ClearEntry(s))
  {
  }

  /** Dropping the last character of a typed numeral leaves a typed numeral. */
  lemma BackspaceInv(s: State)
    requires Inv(s)
    ensures Inv(Backspace(s))
  {
  }

  /** A digit key extends a typed numeral, or starts one. */
  lemma InputDigitInv(s: State, digit: string)
    requires Inv(s) && IsDigitKey(digit)
    ensures Inv(InputDigit(s, digit))
  {
  }

  /** The point is appended only to an operand without one. */
  lemma InputDecimalInv(s: State)
    requires Inv(s)
    ensures Inv(InputDecimal(s))
  {
  }

  lemma PerformOperationInv(s: State, next: Op, evaluate: Arithmetic)
    requires Inv(s)
    ensures Inv(PerformOperation(s, next, evaluate))
  {
  }

  lemma CalculateResultInv(s: State, evaluate: Arithmetic)
    requires Inv(s)
    ensures Inv(CalculateResult(s, evaluate))
  {
  }

  lemma StepInv(s: State, input: Input, evaluate: Arithmetic)
    requires Inv(s) && IsKeypadInput(input)
    ensures Inv(Step(s, input, evaluate))
  {
    match input
    case PressDigit(d) => InputDigitInv(s, d);
    case PressDecimal => InputDecimalInv(s);
    case PressOperator(op) => PerformOperationInv(s, op, evaluate);
    case PressEquals => CalculateResultInv(s, evaluate);
    case PressClearAll => InitialInv();
    case PressClearEntry => ClearEntryInv(s);
    case PressBackspace => BackspaceInv(s);
  }

  /** Every state a keypad session reaches satisfies the invariant. */
  lemma {:induction false} RunInv(s: State, inputs: seq<Input>, evaluate: Arithmetic)
    requires Inv(s)
    requires forall i | 0 <= i < |inputs| :: IsKeypadInput(inputs[i])
    ensures Inv(Run(s, inputs, evaluate))
    decreases |inputs|
  {
    if inputs != [] {
      StepInv(s, inputs[0], evaluate);
      RunInv(Step(s, inputs[0], evaluate), inputs[1..], evaluate);
    }
  }

  /** While an operand is being typed it holds at most one decimal point. */
  lemma AtMostOnePoint(inputs: seq<Input>, evaluate: Arithmetic)
    requires forall i | 0 <= i < |inputs| :: IsKeypadInput(inputs[i])
    ensures var r := Run(Initial, inputs, evaluate);
            !r.waitingForOperand ==> multiset(r.currentValue)['.'] <= 1
  {
    InitialInv();
    RunInv(Initial, inputs, evaluate);
  }
}
