/**
 * The horizontal status tracker: a row of steps, each completed, current or
 * neither, a progress bar as wide as the share of completed steps, and a label
 * counting them.
 */
module StatusTracker {
  import opened Wrappers
  import opened JsCollections
  import opened JsStrings

  /** One step; a step without a `current` flag is not current. */
  datatype StatusStep = StatusStep(id: string, title: string, completed: bool, current: bool, date: string)

  predicate IsCompleted(step: StatusStep) {
    step.completed
  }

  /** `steps.filter(step => step.completed).length` */
  function CompletedSteps(steps: seq<StatusStep>): (n: nat)
    ensures n <= |steps|
    ensures n == |steps| <==> forall i | 0 <= i < |steps| :: steps[i].completed
    ensures n == 0 <==> forall i | 0 <= i < |steps| :: !steps[i].completed
  {
    FilterKeepsAll(steps, IsCompleted);
    FilterKeepsNone(steps, IsCompleted);
    |Filter(steps, IsCompleted)|
  }

  /** The count is the number of steps whose `completed` flag is set. */
  lemma {:induction false} CompletedStepsCount(steps: seq<StatusStep>)
    ensures CompletedSteps(steps) == |set i | 0 <= i < |steps| && steps[i].completed|
    decreases |steps|
  {
    if steps != [] {
      var n := |steps| - 1;
      var init := steps[..n];
      CompletedStepsCount(init);
      var before := set i | 0 <= i < |init| && init[i].completed;
      var after := set i | 0 <= i < |steps| && steps[i].completed;
      assert n !in before;
      if steps[n].completed {
        assert after == before + {n};
      } else {
        assert after == before;
      }
    }
  }

  /** When exactly the first `k` steps are completed, `k` steps are counted. */
  lemma {:induction false} CompletedPrefixCount(steps: seq<StatusStep>, k: nat)
    requires k <= |steps|
    requires forall i | 0 <= i < |steps| :: steps[i].completed <==> i < k
    ensures CompletedSteps(steps) == k
    decreases |steps|
  {
    if k < |steps| {
      var init := steps[..|steps| - 1];
      assert forall i | 0 <= i < |init| :: init[i] == steps[i];
      CompletedPrefixCount(init, k);
      assert Filter(steps, IsCompleted) == Filter(init, IsCompleted);
    }
  }

  /**
   * `(completedSteps / steps.length) * 100`, as a percentage; `None` stands for
   * the `NaN` an empty step list gives.
   */
  function ProgressWidth(steps: seq<StatusStep>): (r: Option<real>)
    ensures r.Some? <==> |steps| > 0
    ensures r.Some? ==> 0.0 <= r.value <= 100.0
    ensures r == Some(100.0) <==> |steps| > 0 && forall i | 0 <= i < |steps| :: steps[i].completed
    ensures r == Some(0.0) <==> |steps| > 0 && forall i | 0 <= i < |steps| :: !steps[i].completed
  {
    if |steps| == 0 then None
    else
      PercentBounds(CompletedSteps(steps), |steps|);
      Some((CompletedSteps(steps) as real / |steps| as real) * 100.0)
  }

  /** The share of `c` in `n`, as a percentage, is 0 exactly for none and 100 exactly for all. */
  lemma PercentBounds(c: nat, n: nat)
    requires 0 < n && c <= n
    ensures 0.0 <= (c as real / n as real) * 100.0 <= 100.0
    ensures (c as real / n as real) * 100.0 == 100.0 <==> c == n
    ensures (c as real / n as real) * 100.0 == 0.0 <==> c == 0
  {
    var q := c as real / n as real;
    assert q * n as real == c as real;
    if c == n {
      assert (q - 1.0) * n as real == 0.0;
    }
    if c == 0 {
      assert q * n as real == 0.0;
    }
  }

  /** How a step's icon and title are drawn. */
  datatype Look = Done | Active | Idle

  /** The icon and title style: a completed step is drawn as done even when it is also current. */
  function StepLook(step: StatusStep): (l: Look)
    ensures l == Done <==> step.completed
    ensures l == Active <==> step.current && !step.completed
    ensures l == Idle <==> !step.current && !step.completed
  {
    if step.completed then Done else if step.current then Active else Idle
  }

  /** The icon shows the small dot instead of the step's own icon. */
  predicate ShowsDot(step: StatusStep) {
    step.current && !step.completed
  }

  /** The dot appears exactly on the steps drawn as active. */
  lemma DotOnlyWhenActive(step: StatusStep)
    ensures ShowsDot(step) <==> StepLook(step) == Active
    ensures step.completed ==> !ShowsDot(step)
  {
  }

  const LabelStart := "Progress:"
  const LabelOf := "of"
  const LabelSteps := "steps"
  const LabelEnd := "completed"

  /**
   * `Progress: ${completedSteps} of ${steps.length} steps completed`; read word
   * by word, it gives back both counts (each numeral reads back to its number by
   * `ParseNatToString`).
   */
  function ProgressLabel(steps: seq<StatusStep>): (r: string)
    ensures Split(r, " ")
         == [LabelStart, NatToString(CompletedSteps(steps)), LabelOf, NatToString(|steps|), LabelSteps, LabelEnd]
  {
    NumeralHasNoSpace(CompletedSteps(steps));
    NumeralHasNoSpace(|steps|);
    LabelWordsHaveNoSpace();
    SplitSixWords(LabelStart, NatToString(CompletedSteps(steps)), LabelOf, NatToString(|steps|), LabelSteps, LabelEnd);
    LabelStart + " " + (NatToString(CompletedSteps(steps)) + " " + (LabelOf + " " + (NatToString(|steps|) + " "
    + (LabelSteps + " " + LabelEnd))))
  }

  /** A numeral holds no space. */
  lemma NumeralHasNoSpace(n: nat)
    ensures forall i | 0 <= i < |NatToString(n)| :: NatToString(n)[i] != ' '
  {
  }

  /** None of the label's fixed words holds a space. */
  lemma LabelWordsHaveNoSpace()
    ensures NoSpace(LabelStart) && NoSpace(LabelOf) && NoSpace(LabelSteps) && NoSpace(LabelEnd)
  {
  }

  ghost predicate NoSpace(w: string) {
    forall i | 0 <= i < |w| :: w[i] != ' '
  }

  /** A space-free word in front of a string adds one word to its split. */
  lemma SplitCons(w: string, rest: string, parts: seq<string>)
    requires NoSpace(w) && Split(rest, " ") == parts
    ensures Split(w + " " + rest, " ") == [w] + parts
  {
    SplitWord(w, ' ', rest);
  }

  /** Space-free words joined by single spaces split back into those words, for two to six words. */
  lemma SplitTwoWords(w0: string, w1: string)
    requires NoSpace(w0) && NoSpace(w1)
    ensures Split(w0 + " " + w1, " ") == [w0, w1]
  {
    SplitLastWord(w1, ' ');
    SplitCons(w0, w1, [w1]);
  }

  lemma SplitThreeWords(w0: string, w1: string, w2: string)
    requires NoSpace(w0) && NoSpace(w1) && NoSpace(w2)
    ensures Split(w0 + " " + (w1 + " " + w2), " ") == [w0, w1, w2]
  {
    SplitTwoWords(w1, w2);
    SplitCons(w0, w1 + " " + w2, [w1, w2]);
  }

  lemma SplitFourWords(w0: string, w1: string, w2: string, w3: string)
    requires NoSpace(w0) && NoSpace(w1) && NoSpace(w2) && NoSpace(w3)
    ensures Split(w0 + " " + (w1 + " " + (w2 + " " + w3)), " ") == [w0, w1, w2, w3]
  {
    SplitThreeWords(w1, w2, w3);
    SplitCons(w0, w1 + " " + (w2 + " " + w3), [w1, w2, w3]);
  }

  lemma SplitFiveWords(w0: string, w1: string, w2: string, w3: string, w4: string)
    requires NoSpace(w0) && NoSpace(w1) && NoSpace(w2) && NoSpace(w3) && NoSpace(w4)
    ensures Split(w0 + " " + (w1 + " " + (w2 + " " + (w3 + " " + w4))), " ") == [w0, w1, w2, w3, w4]
  {
    SplitFourWords(w1, w2, w3, w4);
    SplitCons(w0, w1 + " " + (w2 + " " + (w3 + " " + w4)), [w1, w2, w3, w4]);
  }

  lemma SplitSixWords(w0: string, w1: string, w2: string, w3: string, w4: string, w5: string)
    requires NoSpace(w0) && NoSpace(w1) && NoSpace(w2) && NoSpace(w3) && NoSpace(w4) && NoSpace(w5)
    ensures Split(w0 + " " + (w1 + " " + (w2 + " " + (w3 + " " + (w4 + " " + w5)))), " ") == [w0, w1, w2, w3, w4, w5]
  {
    SplitFiveWords(w1, w2, w3, w4, w5);
    SplitCons(w0, w1 + " " + (w2 + " " + (w3 + " " + (w4 + " " + w5))), [w1, w2, w3, w4, w5]);
  }
}
