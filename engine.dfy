/** The calculator engine of Calculator.tsx as a pure state machine.
    Each handler of the component is one atomic transition from the state
    before the call to the state after it: every read inside a handler sees
    the old values, and the setters it calls take effect together. */
module Engine {

  datatype Option<+T> = None | Some(value: T)

  /** The four operators the keypad and the keyboard can select. */
  datatype Op = Plus | Minus | Times | Divide

  /** The symbol the component stores in `operation` and shows beside
      the pending left operand. */
  function Symbol(op: Op): (sym: string)
    ensures |sym| == 1
  {
    match op
    case Plus => "+"
    case Minus => "-"
    case Times => "\U{D7}"
    case Divide => "\U{F7}"
  }

  /** A string that a JavaScript number prints as: never empty. */
  type Numeral = s: string | s != [] witness "0"

  /** The host's floating-point evaluation of `previous op current`: both
      operands parsed with parseFloat, combined with + - * /, printed with
      toString. It is a parameter of the model, not modelled itself. */
  type Arithmetic = (Op, string, string) -> Numeral

  /** The five fields of the component's state. */
  datatype State = State(
    display: string,
    currentValue: string,
    previousValue: Option<string>,
    operation: Option<Op>,
    waitingForOperand: bool)

  /** The values the component starts with, and the values clearAll restores. */
  const Initial := State("0", "0", None, None, false)

  /** What a key press or a button click asks the engine to do. */
  datatype Input =
    | PressDigit(digit: string)
    | PressDecimal
    | PressOperator(op: Op)
    | PressEquals
    | PressClearAll
    | PressClearEntry
    | PressBackspace

  predicate IsDigitChar(c: char) {
    '0' <= c <= '9'
  }

  /** A key the digit buttons supply: exactly one decimal digit. */
  predicate IsDigitKey(key: string) {
    |key| == 1 && IsDigitChar(key[0])
  }

  /** clearEntry: a fresh "0" operand; a pending operation survives. */
  function ClearEntry(s: State): (r: State)
    ensures r.display == r.currentValue == "0" && !r.waitingForOperand
    ensures r.previousValue == s.previousValue && r.operation == s.operation
  {
    s.(display := "0", currentValue := "0", waitingForOperand := false)
  }

  /** backspace: nothing while waiting for an operand; otherwise the last
      character goes, and an operand of one character becomes "0". */
  function Backspace(s: State): (r: State)
    ensures s.waitingForOperand ==> r == s
    ensures !s.waitingForOperand ==> r.display == r.currentValue != ""
    ensures !s.waitingForOperand && |s.currentValue| > 1 ==>
              r.currentValue + [s.currentValue[|s.currentValue| - 1]] == s.currentValue
    ensures !s.waitingForOperand && |s.currentValue| <= 1 ==> r.currentValue == "0"
    ensures r.previousValue == s.previousValue && r.operation == s.operation
    ensures r.waitingForOperand == s.waitingForOperand
  {
    if s.waitingForOperand then s
    else
      var newValue := if |s.currentValue| > 1 then s.currentValue[..|s.currentValue| - 1] else "0";
      s.(currentValue := newValue, display := newValue)
  }

  /** inputDigit: a waiting engine starts a new operand with the key; a lone
      "0" is replaced by it; any other operand is extended by it. */
  function InputDigit(s: State, digit: string): (r: State)
    ensures r.display == r.currentValue && !r.waitingForOperand
    ensures r.previousValue == s.previousValue && r.operation == s.operation
    ensures s.waitingForOperand || s.currentValue == "0" ==> r.currentValue == digit
    ensures !s.waitingForOperand && s.currentValue != "0" ==>
              r.currentValue == s.currentValue + digit
  {
    if s.waitingForOperand then
      s.(currentValue := digit, display := digit, waitingForOperand := false)
    else
      var newValue := if s.currentValue == "0" then digit else s.currentValue + digit;
      s.(currentValue := newValue, display := newValue)
  }

  /** inputDecimal: a waiting engine starts the operand "0."; otherwise a
      point is appended unless the operand already holds one. */
  function InputDecimal(s: State): (r: State)
    ensures '.' in r.currentValue && !r.waitingForOperand
    ensures r.previousValue == s.previousValue && r.operation == s.operation
    ensures s.waitingForOperand ==> r.display == r.currentValue == "0."
    ensures !s.waitingForOperand && '.' in s.currentValue ==> r == s
    ensures !s.waitingForOperand && '.' !in s.currentValue ==>
              r.display == r.currentValue == s.currentValue + "."
  {
    if s.waitingForOperand then
      s.(currentValue := "0.", display := "0.", waitingForOperand := false)
    else if '.' !in s.currentValue then
      s.(currentValue := s.currentValue + ".", display := s.currentValue + ".")
    else
      s
  }

  /** performOperation: with no left operand the current one is stored;
      with a pending operation, the pending pair is folded into the left
      operand, the current operand and the display; in every case `next`
      becomes the pending operation and the engine waits for an operand.
      The fold does not look at `waitingForOperand`. */
  function PerformOperation(s: State, next: Op, evaluate: Arithmetic): (r: State)
    ensures r.operation == Some(next) && r.waitingForOperand
    ensures r.previousValue.Some?
    ensures s.previousValue.None? ==>
              r.previousValue == Some(s.currentValue)
              && r.currentValue == s.currentValue && r.display == s.display
    ensures s.previousValue.Some? && s.operation.Some? ==>
              r.previousValue == Some(r.currentValue)
              && r.display == r.currentValue
              == evaluate(s.operation.value, s.previousValue.value, s.currentValue)
    ensures s.previousValue.Some? && s.operation.None? ==>
              r.previousValue == s.previousValue
              && r.currentValue == s.currentValue && r.display == s.display
  {
    match (s.previousValue, s.operation)
    case (None, _) =>
      s.(previousValue := Some(s.currentValue), waitingForOperand := true, operation := Some(next))
    case (Some(previous), Some(op)) =>
      var result := evaluate(op, previous, s.currentValue);
      State(result, result, Some(result), Some(next), true)
    case (Some(_), None) =>
      s.(waitingForOperand := true, operation := Some(next))
  }

  /** calculateResult: nothing unless a left operand (a non-empty string,
      as JavaScript's truthiness test demands) and an operation are pending;
      otherwise the pair is evaluated into the display and the current
      operand, the pending pair is cleared and the engine waits. */
  function CalculateResult(s: State, evaluate: Arithmetic): (r: State)
    ensures s.previousValue.None? || s.previousValue == Some("") || s.operation.None? ==> r == s
    ensures s.previousValue.Some? && s.previousValue.value != "" && s.operation.Some? ==>
              r.display == r.currentValue
              == evaluate(s.operation.value, s.previousValue.value, s.currentValue)
              && r.previousValue.None? && r.operation.None? && r.waitingForOperand
  {
    match (s.previousValue, s.operation)
    case (Some(previous), Some(op)) =>
      if previous == "" then s
      else
        var result := evaluate(op, previous, s.currentValue);
        State(result, result, None, None, true)
    case _ => s
  }

  /** One input handled to completion. */
  function Step(s: State, input: Input, evaluate: Arithmetic): State {
    match input
    case PressDigit(d) => InputDigit(s, d)
    case PressDecimal => InputDecimal(s)
    case PressOperator(op) => PerformOperation(s, op, evaluate)
    case PressEquals => CalculateResult(s, evaluate)
    case PressClearAll => Initial
    case PressClearEntry => ClearEntry(s)
    case PressBackspace => Backspace(s)
  }

  /** A session: inputs handled one after another, first to last. */
  function Run(s: State, inputs: seq<Input>, evaluate: Arithmetic): State
    decreases |inputs|
  {
    if inputs == [] then s else Run(Step(s, inputs[0], evaluate), inputs[1..], evaluate)
  }
}
