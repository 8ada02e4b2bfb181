/** What sequences of presses do: typing an operand, chaining operators
    left to right, repeated backspace, and the quirks of the handlers. */
module Sessions {
  import opened Engine

  predicate AllDigits(ds: string) {
    forall i | 0 <= i < |ds| :: IsDigitChar(ds[i])
  }

  /** The operand a run of digit keys denotes: the digits with leading
      zeros collapsed, "0" when nothing but zeros (or nothing) was typed. */
  function Collapsed(ds: string): (r: string)
    ensures |r| > 0 && (r[0] == '0' ==> r == "0")
    ensures AllDigits(ds) ==> AllDigits(r)
  {
    if ds == [] then "0"
    else if ds[0] == '0' then Collapsed(ds[1..])
    else ds
  }

  /** One digit press per character. */
  function DigitPresses(ds: string): (presses: seq<Input>)
    ensures |presses| == |ds|
  {
    seq(|ds|, i requires 0 <= i < |ds| => PressDigit([ds[i]]))
  }

  /** Handling `a` then `b` is handling `a + b`. */
  lemma {:induction false} RunAppend(s: State, a: seq<Input>, b: seq<Input>, evaluate: Arithmetic)
    ensures Run(s, a + b, evaluate) == Run(Run(s, a, evaluate), b, evaluate)
    decreases |a|
  {
    if a != [] {
      assert (a + b)[0] == a[0];
      assert (a + b)[1..] == a[1..] + b;
      RunAppend(Step(s, a[0], evaluate), a[1..], b, evaluate);
    } else {
      assert a + b == b;
    }
  }

  lemma RunSnoc(s: State, a: seq<Input>, input: Input, evaluate: Arithmetic)
    ensures Run(s, a + [input], evaluate) == Step(Run(s, a, evaluate), input, evaluate)
  {
    RunAppend(s, a, [input], evaluate);
  }

  /** Typing one more digit after `ds` is what inputDigit does to the
      operand `ds` denotes. */
  lemma {:induction false} CollapsedSnoc(ds: string, c: char)
    ensures Collapsed(ds + [c]) == if Collapsed(ds) == "0" then [c] else Collapsed(ds) + [c]
  {
    if ds == [] {
      assert ds + [c] == [c];
    } else if ds[0] == '0' {
      assert (ds + [c])[1..] == ds[1..] + [c];
      CollapsedSnoc(ds[1..], c);
    } else {
      assert (ds + [c])[0] == ds[0];
    }
  }

  /** A state in which the next digit starts a new operand. */
  predicate AwaitsOperand(s: State) {
    s.waitingForOperand || s.currentValue == "0"
  }

  /** Typing digits into a fresh operand shows them with leading zeros
      collapsed, and touches nothing but the operand, the display and the
      waiting flag. */
  lemma {:induction false} TypeOperand(s: State, ds: string, evaluate: Arithmetic)
    requires AwaitsOperand(s) && AllDigits(ds) && ds != []
    ensures Run(s, DigitPresses(ds), evaluate)
            == s.(display := Collapsed(ds), currentValue := Collapsed(ds), waitingForOperand := false)
    decreases |ds|
  {
    var init, c := ds[..|ds| - 1], ds[|ds| - 1];
    assert ds == init + [c];
    assert DigitPresses(ds) == DigitPresses(init) + [PressDigit([c])];
    RunSnoc(s, DigitPresses(init), PressDigit([c]), evaluate);
    CollapsedSnoc(init, c);
    if init == [] {
      assert DigitPresses(init) == [];
      assert [c] == Collapsed([c]);
    } else {
      TypeOperand(s, init, evaluate);
    }
  }

  /** From any state, after clearAll the display reads the digits typed,
      leading zeros collapsed. */
  lemma TypedDigitsAfterClearAll(s: State, ds: string, evaluate: Arithmetic)
    requires AllDigits(ds)
    ensures Run(s, [PressClearAll] + DigitPresses(ds), evaluate).display == Collapsed(ds)
  {
    RunAppend(s, [PressClearAll], DigitPresses(ds), evaluate);
    assert Run(s, [PressClearAll], evaluate) == Initial;
    if ds != [] {
      TypeOperand(Initial, ds, evaluate);
    }
  }

  /** An operator followed by the digits of its right operand. */
  datatype Term = Term(op: Op, operand: string)

  predicate WellTyped(first: string, terms: seq<Term>) {
    && AllDigits(first)
    && forall k | 0 <= k < |terms| :: AllDigits(terms[k].operand) && terms[k].operand != []
  }

  /** The presses that type `first`, then each operator and its operand. */
  function Presses(first: string, terms: seq<Term>): seq<Input>
    decreases |terms|
  {
    if terms == [] then DigitPresses(first)
    else
      var last := terms[|terms| - 1];
      Presses(first, terms[..|terms| - 1]) + [PressOperator(last.op)] + DigitPresses(last.operand)
  }

  /** Reference evaluation: left to right, no precedence. */
  function LeftToRight(evaluate: Arithmetic, first: string, terms: seq<Term>): (v: string)
    ensures v != ""
    decreases |terms|
  {
    if terms == [] then Collapsed(first)
    else
      var last := terms[|terms| - 1];
      evaluate(last.op, LeftToRight(evaluate, first, terms[..|terms| - 1]), Collapsed(last.operand))
  }

  /** After the last operand of a chain is typed, everything before it has
      been folded into the pending left operand. */
  lemma {:induction false} ChainState(evaluate: Arithmetic, first: string, terms: seq<Term>)
    requires WellTyped(first, terms) && terms != []
    ensures var last := terms[|terms| - 1];
            Run(Initial, Presses(first, terms), evaluate)
            == State(Collapsed(last.operand), Collapsed(last.operand),
                     Some(LeftToRight(evaluate, first, terms[..|terms| - 1])), Some(last.op), false)
    decreases |terms|
  {
    var init, last := terms[..|terms| - 1], terms[|terms| - 1];
    assert WellTyped(first, init);
    var before := Run(Initial, Presses(first, init), evaluate);
    RunAppend(Initial, Presses(first, init) + [PressOperator(last.op)], DigitPresses(last.operand), evaluate);
    RunSnoc(Initial, Presses(first, init), PressOperator(last.op), evaluate);
    var afterOp := PerformOperation(before, last.op, evaluate);
    if init == [] {
      if first != [] {
        TypeOperand(Initial, first, evaluate);
      }
      assert before == Initial.(display := Collapsed(first), currentValue := Collapsed(first));
    } else {
      ChainState(evaluate, first, init);
      assert init[..|init| - 1] == terms[..|terms| - 2];
    }
    assert afterOp.previousValue == Some(LeftToRight(evaluate, first, init));
    TypeOperand(afterOp, last.operand, evaluate);
  }

  /** Pressing = at the end of a chain shows the left-to-right evaluation
      and leaves nothing pending. */
  lemma ChainEvaluatesLeftToRight(evaluate: Arithmetic, first: string, terms: seq<Term>)
    requires WellTyped(first, terms) && terms != []
    ensures var r := Run(Initial, Presses(first, terms) + [PressEquals], evaluate);
            r.display == r.currentValue == LeftToRight(evaluate, first, terms)
            && r.previousValue.None? && r.operation.None? && r.waitingForOperand
  {
    RunSnoc(Initial, Presses(first, terms), PressEquals, evaluate);
    ChainState(evaluate, first, terms);
  }

  /** 5 + 3 + 2 = folds as (5 + 3) + 2. */
  lemma FivePlusThreePlusTwo(evaluate: Arithmetic)
    ensures Run(Initial, [PressDigit("5"), PressOperator(Plus), PressDigit("3"),
                          PressOperator(Plus), PressDigit("2"), PressEquals], evaluate).display
            == evaluate(Plus, evaluate(Plus, "5", "3"), "2")
  {
  }

  /** 1 2 + 8 = adds the typed operands 12 and 8. */
  lemma TwelvePlusEight(evaluate: Arithmetic)
    ensures Run(Initial, [PressDigit("1"), PressDigit("2"), PressOperator(Plus),
                          PressDigit("8"), PressEquals], evaluate).display
            == evaluate(Plus, "12", "8")
  {
    assert "1" + "2" == "12";
  }

  /** 9 / 0 = hands the division to the host arithmetic like any other:
      no error state arises. */
  lemma NineDividedByZero(evaluate: Arithmetic)
    ensures Run(Initial, [PressDigit("9"), PressOperator(Divide), PressDigit("0"), PressEquals], evaluate)
            == State(evaluate(Divide, "9", "0"), evaluate(Divide, "9", "0"), None, None, true)
  {
  }

  /** Pressing an operator twice folds the pending pair with the same
      operand on both sides: the second press does not check
      waitingForOperand. */
  lemma RepeatedOperatorFoldsSameOperand(s: State, first: Op, second: Op, evaluate: Arithmetic)
    requires s.previousValue.None?
    ensures var r := PerformOperation(PerformOperation(s, first, evaluate), second, evaluate);
            r.display == r.currentValue == evaluate(first, s.currentValue, s.currentValue)
            && r.previousValue == Some(r.currentValue) && r.operation == Some(second)
  {
  }

  /** = right after an operator evaluates the operand with itself. */
  lemma EqualsAfterOperatorReusesOperand(s: State, op: Op, evaluate: Arithmetic)
    requires s.previousValue.None? && s.currentValue != ""
    ensures CalculateResult(PerformOperation(s, op, evaluate), evaluate).display
            == evaluate(op, s.currentValue, s.currentValue)
  {
  }

  /** inputDecimal twice in one operand is inputDecimal once. */
  lemma InputDecimalIdempotent(s: State)
    ensures InputDecimal(InputDecimal(s)) == InputDecimal(s)
  {
  }

  /** calculateResult with nothing pending changes nothing, so pressing =
      again after a result is a no-op. */
  lemma EqualsIdempotent(s: State, evaluate: Arithmetic)
    ensures var r := CalculateResult(s, evaluate);
            s.operation.Some? && s.previousValue.Some? && s.previousValue.value != "" ==>
              CalculateResult(r, evaluate) == r
  {
  }

  /** Backspace undoes a key typed into an operand. */
  lemma BackspaceUndoesDigit(s: State, c: char)
    requires !s.waitingForOperand && s.display == s.currentValue && s.currentValue != ""
    ensures Backspace(InputDigit(s, [c])) == s
  {
  }

  /** Backspace undoes a decimal point typed into an operand. */
  lemma BackspaceUndoesDecimal(s: State)
    requires !s.waitingForOperand && s.display == s.currentValue && s.currentValue != ""
    requires '.' !in s.currentValue
    ensures Backspace(InputDecimal(s)) == s
  {
  }

  function Backspaces(k: nat): (presses: seq<Input>)
    ensures |presses| == k
  {
    seq(k, _ => PressBackspace)
  }

  /** k backspaces remove the last k characters of an operand being typed;
      the backspace after an operand is down to one character makes it "0",
      and further backspaces change nothing. */
  lemma {:induction false} RepeatedBackspace(s: State, k: nat, evaluate: Arithmetic)
    requires !s.waitingForOperand && s.display == s.currentValue && s.currentValue != ""
    ensures var t := s.currentValue;
            Run(s, Backspaces(k), evaluate)
            == s.(currentValue := if k < |t| then t[..|t| - k] else "0",
                  display := if k < |t| then t[..|t| - k] else "0")
  {
    if k > 0 {
      assert Backspaces(k) == Backspaces(k - 1) + [PressBackspace];
      RunSnoc(s, Backspaces(k - 1), PressBackspace, evaluate);
      RepeatedBackspace(s, k - 1, evaluate);
    }
  }
}
