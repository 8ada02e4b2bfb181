# Calculator engine

A model of the calculator component in `src/components/Calculator.tsx`: five
pieces of component state (`display`, `currentValue`, `previousValue`,
`operation`, `waitingForOperand`), the seven handlers that update them
(`clearAll`, `clearEntry`, `backspace`, `inputDigit`, `inputDecimal`,
`performOperation`, `calculateResult`) and the keyboard dispatch
`handleKeyDown`.

Each handler reads the state as it was before the call, because React applies
the setters together. So each handler is one atomic transition. The modules are:

- `Engine` (engine.dfy): the state as a `State` value, one pure transition
  function per handler, `Step` (one input) and `Run` (a session of inputs).
- `Component` (component.dfy): the class `Calculator`, whose five fields the
  handler methods assign in place. Each method's postcondition ties the new
  fields to the `Engine` transition of the old ones and states that the
  invariant is kept.
- `Invariants` (invariants.dfy): the invariant of every reachable state, and
  proofs that each handler keeps it. The display mirrors the operand. The left
  operand and the operation are pending together. An operand being typed is a
  well-formed numeral with at most one point.
- `Sessions` (sessions.dfy): what sequences of presses do. Typed digits
  collapse leading zeros. Chained operators fold left to right. Backspace
  undoes typing. The repeated-operator quirk is stated as a lemma.
- `Keys` (keys.dfy): `handleKeyDown`'s key normalisation and dispatch as a
  pure function.

Floating-point parsing, arithmetic and printing (`parseFloat`, `+ - * /`,
`toString`) are not modelled. They are the parameter `evaluate: Arithmetic`,
a function from the operator and the two operand strings to a non-empty
string. Every theorem holds for every such function. The only assumption is
that a printed number is never the empty string.

Two behaviours of the code are kept as written:
- `calculateResult` treats an empty-string left operand like a missing one,
  because JavaScript's `!previousValue` is true for `""`. The model keeps this
  test. The invariant shows that such a state is never reached.
- The display is not always a numeral: `handleKeyDown` types any key that
  merely contains a digit (such as `F1`) into the operand, so the numeral
  invariant holds only for one-digit keys. The keypad buttons and the digit
  keys supply exactly those. `Keys.FunctionKeyTypedAsDigit` shows the `F1`
  case.

## Model

| member | source | states |
|---|---|---|
| Engine.ClearEntry | src/components/Calculator.tsx:19-23 | display and operand become "0" and waiting is cleared; the pending left operand and operation are untouched |
| Engine.Backspace | src/components/Calculator.tsx:25-34 | no change while waiting; otherwise an operand of at most one character becomes "0", a longer one loses exactly its last character, the display mirrors the non-empty operand, and nothing else changes |
| Engine.InputDigit | src/components/Calculator.tsx:36-46 | when waiting, or when the operand is a lone "0", the operand becomes the key; otherwise the key is appended; the display mirrors it, the flag is cleared, the pending pair is untouched |
| Engine.InputDecimal | src/components/Calculator.tsx:48-60 | the operand always holds a point afterwards; when waiting it is "0."; an operand with a point is left as it is; one without gets "." appended; the pending pair is untouched |
| Engine.PerformOperation | src/components/Calculator.tsx:62-98 | the new operation is pending and the engine waits; with nothing pending the operand becomes the left operand and the display is unchanged; with a pending pair its evaluation becomes left operand, operand and display; with a left operand but no operation only the operation and the flag change |
| Engine.CalculateResult | src/components/Calculator.tsx:100-132 | with no pending left operand (absent or the empty string) or no operation nothing changes; otherwise the evaluation is shown and becomes the operand, the pending pair is cleared, the engine waits |
| Invariants.InitialInv | src/components/Calculator.tsx:5-9 | the initial state satisfies the invariant |
| Invariants.ClearEntryInv | src/components/Calculator.tsx:19-23 | clearEntry keeps the invariant |
| Invariants.BackspaceInv | src/components/Calculator.tsx:25-34 | backspace keeps the invariant: dropping the last character of a well-formed numeral leaves one, and the operand is never empty |
| Invariants.InputDigitInv | src/components/Calculator.tsx:36-46 | a one-digit key keeps the invariant, with no leading zero other than "0" and "0." |
| Invariants.InputDecimalInv | src/components/Calculator.tsx:48-60 | inputDecimal keeps the invariant: an operand being typed never holds two points |
| Invariants.PerformOperationInv | src/components/Calculator.tsx:62-98 | performOperation keeps the invariant: the left operand and the operation become present together |
| Invariants.CalculateResultInv | src/components/Calculator.tsx:100-132 | calculateResult keeps the invariant: the left operand and the operation become absent together |
| Invariants.StepInv | src/components/Calculator.tsx:11-132 | every handler keeps the invariant, for any input the keypad can produce |
| Invariants.RunInv | src/components/Calculator.tsx:202-303 | every state a session of keypad inputs reaches satisfies the invariant |
| Invariants.AtMostOnePoint | src/components/Calculator.tsx:56-59 | in every reachable state an operand being typed holds at most one point |
| Sessions.Collapsed | src/components/Calculator.tsx:36-46 | the operand denoted by typed digits is non-empty, starts with "0" only when it is "0", and holds only digits |
| Sessions.CollapsedSnoc | src/components/Calculator.tsx:42 | the collapsed reading of typed digits grows exactly as inputDigit grows the operand |
| Sessions.TypeOperand | src/components/Calculator.tsx:36-46 | typing digits into a fresh operand shows them with leading zeros collapsed and changes nothing else |
| Sessions.TypedDigitsAfterClearAll | src/components/Calculator.tsx:11-46 | from any state, after clearAll the display reads the typed digits with leading zeros collapsed |
| Sessions.ChainState | src/components/Calculator.tsx:62-98 | after an operand chain is typed, everything before the last operand is folded into the left operand, left to right |
| Sessions.ChainEvaluatesLeftToRight | src/components/Calculator.tsx:100-132 | = at the end of a chain shows the left-to-right evaluation, with no precedence, and leaves nothing pending |
| Sessions.FivePlusThreePlusTwo | src/components/Calculator.tsx:65-97 | 5 + 3 + 2 = shows (5 + 3) + 2 |
| Sessions.TwelvePlusEight | src/components/Calculator.tsx:36-46 | 1 2 + 8 = adds 12 and 8 |
| Sessions.NineDividedByZero | src/components/Calculator.tsx:118-131 | 9 / 0 = is evaluated like any division and leaves an ordinary result state |
| Sessions.RepeatedOperatorFoldsSameOperand | src/components/Calculator.tsx:65-93 | pressing an operator twice folds the stored operand with itself, because the fold does not check waitingForOperand |
| Sessions.EqualsAfterOperatorReusesOperand | src/components/Calculator.tsx:101-128 | = right after an operator evaluates the operand with itself |
| Sessions.InputDecimalIdempotent | src/components/Calculator.tsx:48-60 | inputDecimal twice is inputDecimal once |
| Sessions.EqualsIdempotent | src/components/Calculator.tsx:101 | a second = after a result changes nothing |
| Sessions.BackspaceUndoesDigit | src/components/Calculator.tsx:25-46 | backspace undoes any one-character key typed into an operand, including the replacement of a lone "0" |
| Sessions.BackspaceUndoesDecimal | src/components/Calculator.tsx:25-60 | backspace undoes a point typed into an operand |
| Sessions.RepeatedBackspace | src/components/Calculator.tsx:25-34 | k backspaces drop the last k characters; once k reaches the operand's length the operand is "0", and further backspaces change nothing |
| Keys.KeyInput | src/components/Calculator.tsx:134-159 | a key reaches inputDigit with its whole name exactly when it contains a digit; it is ignored exactly when it holds no digit and is not a bound key; no key reaches clearEntry |
| Keys.Shortcuts | src/components/Calculator.tsx:137-158 | Enter and = evaluate, * multiplies, / divides, Escape clears all, Backspace and . reach their handlers |
| Keys.DigitKeys | src/components/Calculator.tsx:141-143 | each digit key types itself |
| Keys.SingleCharacterKeys | src/components/Calculator.tsx:141-159 | a one-character key is ignored or acts like a keypad button |
| Keys.NamedKeysAreKeypadInputs | src/components/Calculator.tsx:137-159 | a key without a digit (Enter, Escape, Backspace, the operators) is ignored or acts like a keypad button |
| Keys.FunctionKeyTypedAsDigit | src/components/Calculator.tsx:141-143 | the key F1 is typed into the operand as "F1", which is not a numeral |
| Component.Calculator.constructor | src/components/Calculator.tsx:5-9 | the fields start as "0", "0", null, null, false, satisfying the invariant |
| Component.Calculator.ClearAll | src/components/Calculator.tsx:11-17 | all five fields are reset to their initial values |
| Component.Calculator.ClearEntry | src/components/Calculator.tsx:19-23 | the new fields are Engine.ClearEntry of the old; the invariant is kept |
| Component.Calculator.Backspace | src/components/Calculator.tsx:25-34 | the new fields are Engine.Backspace of the old; the invariant is kept |
| Component.Calculator.InputDigit | src/components/Calculator.tsx:36-46 | the new fields are Engine.InputDigit of the old; the invariant is kept for one-digit keys |
| Component.Calculator.InputDecimal | src/components/Calculator.tsx:48-60 | the new fields are Engine.InputDecimal of the old, both setters reading the old operand; the invariant is kept |
| Component.Calculator.PerformOperation | src/components/Calculator.tsx:62-98 | the new fields are Engine.PerformOperation of the old; the invariant is kept |
| Component.Calculator.CalculateResult | src/components/Calculator.tsx:100-132 | the new fields are Engine.CalculateResult of the old; the invariant is kept |
| Component.Calculator.HandleKeyDown | src/components/Calculator.tsx:134-159 | an ignored key changes nothing; any other key applies the handler Keys.KeyInput names; a one-character key, or any key without a digit, keeps the invariant |
| Component.ChainOnKeypad | src/components/Calculator.tsx:202-303 | clicking 5 + 3 + 2 = on a fresh component displays (5 + 3) + 2 |
| Component.DecimalOnKeyboard | src/components/Calculator.tsx:134-159 | typing 1 . . 5 on a fresh component displays "1.5" |

## Left out

- Rendering: the JSX, the class names, the icons, the keypad layout, focus and `tabIndex`. The secondary line that shows `previousValue` and `operation` is presentation; only the operator symbols are modelled (`Engine.Symbol`).
- `event.preventDefault()` in `handleKeyDown`. It is a browser side effect; only the choice of handler is modelled.
- Floating-point evaluation and number printing, including division by zero giving `Infinity` or `NaN`. These are the abstract parameter `evaluate`.
- The `default` branches of the two `switch` statements (lines 86-87 and 121-122). `operation` is a four-valued type here, and every caller passes one of the four symbols, so neither branch is reachable.
- React's scheduling and re-rendering, beyond treating each handler as one atomic transition.
- The unused `inputValue` at line 63.
- `String.prototype.slice(0, -1)` drops a UTF-16 code unit, while the model drops one Unicode character. The two differ only for operands with characters outside the Basic Multilingual Plane. Such operands can come only from the host arithmetic or from unusual key names.
- `src/App.tsx` and `src/components/cloudfront-theme-demo.tsx` only render the component and hold no logic.
