/** The keyboard binding of the calculator (handleKeyDown): a key name is
    normalised and then dispatched to at most one handler. */
module Keys {
  import opened Engine
  import Invariants

  /** What the pattern /\d/ tests: the key contains a decimal digit
      somewhere, not that it is one. */
  predicate HasDigit(key: string) {
    exists i | 0 <= i < |key| :: IsDigitChar(key[i])
  }

  /** Enter stands for =, and * and / for the keypad's multiplication and
      division signs; the three rewrites are applied in turn. */
  function Normalize(key: string): string {
    var k1 := if key == "Enter" then "=" else key;
    var k2 := if k1 == "*" then Symbol(Times) else k1;
    if k2 == "/" then Symbol(Divide) else k2
  }

  /** The key names, other than those holding a digit, that reach a handler. */
  const BoundKeys: set<string> :=
    {"Enter", "*", "/", ".", "Backspace", "Escape", "+", "-", Symbol(Times), Symbol(Divide), "="}

  /** The handler a key press reaches, if any. */
  function KeyInput(key: string): (r: Option<Input>)
    ensures (r.Some? && r.value.PressDigit?) <==> HasDigit(key)
    ensures r.Some? && r.value.PressDigit? ==> r.value.digit == key
    ensures r.None? <==> !HasDigit(key) && key !in BoundKeys
    ensures r != Some(PressClearEntry)
  {
    var k := Normalize(key);
    if HasDigit(k) then Some(PressDigit(k))
    else if k == "." then Some(PressDecimal)
    else if k == "Backspace" then Some(PressBackspace)
    else if k == "Escape" then Some(PressClearAll)
    else if k == "+" then Some(PressOperator(Plus))
    else if k == "-" then Some(PressOperator(Minus))
    else if k == Symbol(Times) then Some(PressOperator(Times))
    else if k == Symbol(Divide) then Some(PressOperator(Divide))
    else if k == "=" then Some(PressEquals)
    else None
  }

  /** The keyboard shortcuts: Enter and = evaluate, * and the multiplication
      sign multiply, / and the division sign divide, Escape clears all. */
  lemma Shortcuts()
    ensures KeyInput("Enter") == KeyInput("=") == Some(PressEquals)
    ensures KeyInput("*") == KeyInput(Symbol(Times)) == Some(PressOperator(Times))
    ensures KeyInput("/") == KeyInput(Symbol(Divide)) == Some(PressOperator(Divide))
    ensures KeyInput("+") == Some(PressOperator(Plus)) && KeyInput("-") == Some(PressOperator(Minus))
    ensures KeyInput("Escape") == Some(PressClearAll)
    ensures KeyInput("Backspace") == Some(PressBackspace)
    ensures KeyInput(".") == Some(PressDecimal)
  {
    assert !HasDigit("Enter") && !HasDigit("Escape") && !HasDigit("Backspace");
  }

  /** Each digit key types itself. */
  lemma DigitKeys(key: string)
    requires IsDigitKey(key)
    ensures KeyInput(key) == Some(PressDigit(key))
  {
  }

  /** A one-character key is either ignored or an input the keypad could
      also have produced, so the invariants of the keypad hold for it. */
  lemma SingleCharacterKeys(key: string)
    requires |key| == 1
    ensures KeyInput(key).Some? ==> Invariants.IsKeypadInput(KeyInput(key).value)
  {
  }

  /** A key without a digit, such as Enter, Escape or Backspace, is either
      ignored or an input the keypad could also have produced. */
  lemma NamedKeysAreKeypadInputs(key: string)
    requires !HasDigit(key)
    ensures KeyInput(key).Some? ==> Invariants.IsKeypadInput(KeyInput(key).value)
  {
  }

  /** A named key that merely contains a digit, such as F1, is typed into
      the operand as it is: after clearAll the display reads "F1". */
  lemma FunctionKeyTypedAsDigit()
    ensures KeyInput("F1") == Some(PressDigit("F1"))
    ensures InputDigit(Initial, "F1").display == "F1"
    ensures !Invariants.IsTypedNumeral("F1")
  {
    assert IsDigitChar("F1"[1]);
  }
}
