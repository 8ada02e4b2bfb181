/** The Calculator component: five state fields that its handlers update in
    place, each handler one atomic transition of the Engine. */
module Component {
  import opened Engine
  import Invariants
  import Keys

  class Calculator {
    var display: string
    var currentValue: string
    var previousValue: Option<string>
    var operation: Option<Op>
    var waitingForOperand: bool

    /** The host's number parsing, arithmetic and printing. */
    const evaluate: Arithmetic

    /** The five fields as one value. */
    function Snapshot(): State
      reads this
    {
      State(display, currentValue, previousValue, operation, waitingForOperand)
    }

    ghost predicate Valid()
      reads this
    {
      Invariants.Inv(Snapshot())
    }

    /** The initial values of the five state hooks. */
    constructor (evaluate: Arithmetic)
      ensures Snapshot() == Initial && Valid()
      ensures this.evaluate == evaluate
    {
      display := "0";
      currentValue := "0";
      previousValue := None;
      operation := None;
      waitingForOperand := false;
      this.evaluate := evaluate;
    }

    method ClearAll()
      modifies this
      ensures Snapshot() == Initial && Valid()
    {
      display := "0";
      currentValue := "0";
      previousValue := None;
      operation := None;
      waitingForOperand := false;
    }

    method ClearEntry()
      modifies this
      ensures Snapshot() == Engine.ClearEntry(old(Snapshot()))
      ensures old(Valid()) ==> Valid()
    {
      if Valid() {
        Invariants.ClearEntryInv(Snapshot());
      }
      display := "0";
      currentValue := "0";
      waitingForOperand := false;
    }

    method Backspace()
      modifies this
      ensures Snapshot() == Engine.Backspace(old(Snapshot()))
      ensures old(Valid()) ==> Valid()
    {
      if Valid() {
        Invariants.BackspaceInv(Snapshot());
      }
      if waitingForOperand {
        return;
      }
      var newValue := if |currentValue| > 1 then currentValue[..|currentValue| - 1] else "0";
      currentValue := newValue;
      display := newValue;
    }

    method InputDigit(digit: string)
      modifies this
      ensures Snapshot() == Engine.InputDigit(old(Snapshot()), digit)
      ensures old(Valid()) && IsDigitKey(digit) ==> Valid()
    {
      if Valid() && IsDigitKey(digit) {
        Invariants.InputDigitInv(Snapshot(), digit);
      }
      if waitingForOperand {
        currentValue := digit;
        display := digit;
        waitingForOperand := false;
      } else {
        var newValue := if currentValue == "0" then digit else currentValue + digit;
        currentValue := newValue;
        display := newValue;
      }
    }

    method InputDecimal()
      modifies this
      ensures Snapshot() == Engine.InputDecimal(old(Snapshot()))
      ensures old(Valid()) ==> Valid()
    {
      if Valid() {
        Invariants.InputDecimalInv(Snapshot());
      }
      if waitingForOperand {
        currentValue := "0.";
        display := "0.";
        waitingForOperand := false;
        return;
      }
      if '.' !in currentValue {
        // both setters read the value from before the call
        var typed := currentValue;
        currentValue := typed + ".";
        display := typed + ".";
      }
    }

    method PerformOperation(nextOperation: Op)
      modifies this
      ensures Snapshot() == Engine.PerformOperation(old(Snapshot()), nextOperation, evaluate)
      ensures old(Valid()) ==> Valid()
    {
      if Valid() {
        Invariants.PerformOperationInv(Snapshot(), nextOperation, evaluate);
      }
      if previousValue.None? {
        previousValue := Some(currentValue);
      } else if operation.Some? {
        var resultString := evaluate(operation.value, previousValue.value, currentValue);
        previousValue := Some(resultString);
        display := resultString;
        currentValue := resultString;
      }
      waitingForOperand := true;
      operation := Some(nextOperation);
    }

    method CalculateResult()
      modifies this
      ensures Snapshot() == Engine.CalculateResult(old(Snapshot()), evaluate)
      ensures old(Valid()) ==> Valid()
    {
      if Valid() {
        Invariants.CalculateResultInv(Snapshot(), evaluate);
      }
      if previousValue.None? || previousValue.value == "" || operation.None? {
        return;
      }
      var resultString := evaluate(operation.value, previousValue.value, currentValue);
      display := resultString;
      currentValue := resultString;
      previousValue := None;
      operation := None;
      waitingForOperand := true;
    }

    /** handleKeyDown: normalise the key and call the handler it names. */
    method HandleKeyDown(key: string)
      modifies this
      ensures Snapshot() == match Keys.KeyInput(key)
                            case None => old(Snapshot())
                            case Some(input) => Step(old(Snapshot()), input, evaluate)
      ensures old(Valid()) && (|key| == 1 || !Keys.HasDigit(key)) ==> Valid()
    {
      if |key| == 1 {
        Keys.SingleCharacterKeys(key);
      }
      if !Keys.HasDigit(key) {
        Keys.NamedKeysAreKeypadInputs(key);
      }
      match Keys.KeyInput(key)
      case None =>
      case Some(input) =>
        match input
        case PressDigit(d) => InputDigit(d);
        case PressDecimal => InputDecimal();
        case PressOperator(op) => PerformOperation(op);
        case PressEquals => CalculateResult();
        case PressClearAll => ClearAll();
        case PressClearEntry => assert false; // no key reaches clearEntry
        case PressBackspace => Backspace();
    }
  }

  /** The keypad sequence 5 + 3 + 2 = on a fresh calculator shows
      (5 + 3) + 2, evaluated left to right. */
  method ChainOnKeypad(evaluate: Arithmetic) returns (shown: string)
    ensures shown == evaluate(Plus, evaluate(Plus, "5", "3"), "2")
  {
    var calculator := new Calculator(evaluate);
    calculator.InputDigit("5");
    calculator.PerformOperation(Plus);
    calculator.InputDigit("3");
    calculator.PerformOperation(Plus);
    calculator.InputDigit("2");
    calculator.CalculateResult();
    shown := calculator.display;
  }

  /** Typing 1 . . 5 on the keyboard of a fresh calculator shows "1.5":
      the second point is ignored. */
  method DecimalOnKeyboard(evaluate: Arithmetic) returns (shown: string)
    ensures shown == "1.5"
  {
    Keys.DigitKeys("1");
    Keys.DigitKeys("5");
    assert Keys.KeyInput(".") == Some(PressDecimal) by { Keys.Shortcuts(); }
    var calculator := new Calculator(evaluate);
    calculator.HandleKeyDown("1");
    calculator.HandleKeyDown(".");
    calculator.HandleKeyDown(".");
    calculator.HandleKeyDown("5");
    shown := calculator.display;
  }
}
