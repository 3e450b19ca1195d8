/** The loop of parse, one turn after the other, for the files that are followed step by step. */
module DlisTurns {
  import opened DlisMachine

  lemma VrTurn(c: Config, s: State, t: State)
    requires s.code.ExpectingVr? && s.trail >= 0 && StepVr(s) == Go(t)
    ensures Loop(c, s) == Loop(c, t)
  {
  }

  lemma LrsTurn(c: Config, s: State, t: State)
    requires s.code.ExpectingLrs? && s.trail >= 0 && StepLrs(c, s) == Go(t)
    ensures Loop(c, s) == Loop(c, t)
  {
  }

  lemma HeaderTurn(c: Config, s: State, t: State)
    requires s.code.ExpectingIflrHeader? && s.trail >= 0 && StepHeader(c, s) == Go(t)
    ensures Loop(c, s) == Loop(c, t)
  {
  }

  lemma DataTurn(c: Config, s: State, t: State)
    requires s.code.ExpectingIflrData? && s.trail >= 0 && StepData(c, s) == Go(t)
    ensures Loop(c, s) == Loop(c, t)
  {
  }

  lemma TrailingTurn(c: Config, s: State, t: State)
    requires s.code.ExpectingTrailing? && s.trail >= 0 && StepTrailing(s) == Go(t)
    ensures Loop(c, s) == Loop(c, t)
  {
  }

  lemma LastTurn(c: Config, s: State)
    requires s.code.ExpectingIflrData? && s.trail >= 0 && StepData(c, s).Wait?
    ensures Loop(c, s) == StepData(c, s).s
  {
  }

  lemma Rests(c: Config, s: State)
    requires Step(c, s) == Wait(s)
    ensures Loop(c, s) == s
  {
  }
}
