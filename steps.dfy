/** The three-step wizard: its step labels and the Previous and Next buttons. */
module WizardSteps {

  const Steps: seq<string> := ["Select Products", "Product Details", "Presentation Settings"]

  /** `steps.length - 1`, the index of the settings step. */
  const LastStep: nat := |Steps| - 1

  function Max(a: int, b: int): int { if a < b then b else a }

  function Min(a: int, b: int): int { if a < b then a else b }

  /** The Previous button: `Math.max(0, prev - 1)`. */
  function PreviousStep(step: nat): (r: nat)
    ensures step == 0 ==> r == 0
    ensures step > 0 ==> r + 1 == step
  {
    Max(0, step - 1)
  }

  /** The step update of the Next button away from the last step: `Math.min(steps.length - 1, prev + 1)`. */
  function NextStep(step: nat): (r: nat)
    ensures r <= LastStep
    ensures step < LastStep ==> r == step + 1
    ensures step >= LastStep ==> r == LastStep
  {
    Min(LastStep, step + 1)
  }

  /** The two navigation buttons under the step content. */
  datatype Button = PreviousButton | NextButton

  /** Whether pressing `b` at `step` generates the catalog instead of moving. */
  predicate Generates(step: nat, b: Button) {
    b == NextButton && step == LastStep
  }

  /** The step after pressing `b`: Next on the last step generates and stays put. */
  function Press(step: nat, b: Button): (r: nat)
    ensures step <= LastStep ==> r <= LastStep
    ensures Generates(step, b) ==> r == step
  {
    match b
    case PreviousButton => PreviousStep(step)
    case NextButton => if step == LastStep then step else NextStep(step)
  }

  /** The step after a run of button presses. */
  function Run(step: nat, presses: seq<Button>): nat
    decreases |presses|
  {
    if |presses| == 0 then step else Run(Press(step, presses[0]), presses[1..])
  }

  /** No sequence of presses leaves the range of steps. */
  lemma {:induction false} RunStaysInRange(step: nat, presses: seq<Button>)
    requires step <= LastStep
    ensures Run(step, presses) <= LastStep
    decreases |presses|
  {
    if |presses| > 0 {
      RunStaysInRange(Press(step, presses[0]), presses[1..]);
    }
  }

  /** Away from the last step, Previous undoes Next. */
  lemma PreviousUndoesNext(step: nat)
    requires step < LastStep
    ensures Press(Press(step, NextButton), PreviousButton) == step
  {
  }

  /** Away from the first step, Next undoes Previous. */
  lemma NextUndoesPrevious(step: nat)
    requires 0 < step <= LastStep
    ensures Press(Press(step, PreviousButton), NextButton) == step
  {
  }

  /** Each press moves by at most one step, and only Next on the last step generates. */
  lemma PressMovesByOne(step: nat, b: Button)
    requires step <= LastStep
    ensures Press(step, b) == step || Press(step, b) == step + 1 || Press(step, b) + 1 == step
    ensures Press(step, b) == step <==> Generates(step, b) || (b == PreviousButton && step == 0)
  {
  }

  /** From the first step, Next twice reaches the settings step and a third Next generates. */
  lemma ThreeNextsScenario()
    ensures Run(0, [NextButton, NextButton]) == LastStep
    ensures Generates(Run(0, [NextButton, NextButton]), NextButton)
  {
    assert [NextButton, NextButton][1..] == [NextButton];
  }
}
