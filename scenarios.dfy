/**
 * Worked examples of backward elimination and of the delegate slot, on three
 * feature columns A, B and C and an intercept reported with p-value 0.9.
 */
module Scenarios {
  import opened Dataframes
  import opened Elimination
  import opened Parameters
  import opened StepwiseRegressions

  const A: Key := Column("A")
  const B: Key := Column("B")
  const C: Key := Column("C")

  /** A base regressor that finds B insignificant on {A, B, C}, and A and C
      significant once B is gone. */
  function ExampleOracle(cols: set<Key>): PValues
  {
    if cols == {A, B, C} then map[Constant := 0.9, A := 0.01, B := 0.20, C := 0.03]
    else if cols == {A, C} then map[Constant := 0.9, A := 0.01, C := 0.02]
    else map[]
  }

  /** With aOut = 0.05 and no iteration bound, B is dropped in the first
      round and the second round stops with A and C both significant. */
  lemma ExampleRun(select: Chooser)
    requires SelectsMax(select)
    ensures Eliminate(ExampleOracle, select, 0.05, INT_MAX as int, {A, B, C}) ==
      Run([{A, B, C}, {A, C}], {A, C}, AllSignificant)
  {
    var p1 := ExampleOracle({A, B, C});
    DecideSpec(p1, 0.05, select);
    var d1 := Decide(p1, 0.05, select);
    assert p1.Keys == {Constant, A, B, C};
    assert d1.Drop? by {
      assert !(p1[B] <= 0.05);
    }
    assert d1.key == B by {
      assert WorstAboveThreshold(p1, 0.05, d1.key);
      assert p1[B] <= p1[d1.key];
    }
    assert {A, B, C} - {B} == {A, C};
    EliminateStep(ExampleOracle, select, 0.05, INT_MAX as int, {A, B, C}, []);

    var p2 := ExampleOracle({A, C});
    DecideSpec(p2, 0.05, select);
    assert p2.Keys == {Constant, A, C};
    assert Decide(p2, 0.05, select) == Halt(AllSignificant);
    EliminateStep(ExampleOracle, select, 0.05, INT_MAX as int - 1, {A, C}, [{A, B, C}]);
  }

  /** With a bound of zero no round runs: the surviving columns are the
      starting ones, whatever the oracle. */
  lemma ZeroBound(pvalues: Oracle, select: Chooser, aOut: real, cols: set<Key>)
    requires SelectsMax(select)
    ensures Eliminate(pvalues, select, aOut, MaxIterationsBound(Some(0)), cols) == Run([], cols, BoundReached)
  {
    EliminateWithinBudget(pvalues, select, aOut, MaxIterationsBound(Some(0)), cols);
  }

  /** Fitting the example with the default parameters: two scoring
      delegates, both deleted, then one retained on {A, C}; deleting the
      model afterwards deletes that one, and deleting again changes nothing. */
  method ExampleFitThenDelete(select: Chooser)
    returns (outcome: FitOutcome, model: StepwiseRegression, data: Dataframe)
    requires SelectsMax(select)
    ensures outcome == Fitted
    ensures data.xColumns == {A, B, C} && !data.deleted
    ensures model.mlregressor == None
    ensures model.delegates ==
      [Delegate(Scoring({A, B, C}, None), Deleted),
       Delegate(Scoring({A, C}, None), Deleted),
       Delegate(Retained({A, C}, None), Deleted)]
  {
    var parameters := new TrainingParameters();
    var accepted := parameters.SetRegressionClass(RegressorClass("LinearRegression", true));
    model := new StepwiseRegression(parameters);
    data := new Dataframe({A, B, C});
    ExampleRun(select);
    ghost var workingCopy;
    outcome, workingCopy := model.Fit(data, ExampleOracle, select);
    assert ScoringLog([{A, B, C}, {A, C}], None) ==
      [Delegate(Scoring({A, B, C}, None), Deleted), Delegate(Scoring({A, C}, None), Deleted)];
    model.Delete();
    ghost var once := model.delegates;
    model.Delete();
    assert model.delegates == once;
  }

  /** A class without the p-value capability is rejected and leaves the
      configured class unset. */
  method RejectIncompatibleClass() returns (outcome: Outcome, parameters: TrainingParameters)
    ensures outcome == Fail(NotStepwiseCompatible)
    ensures parameters.regressionClass == None
    ensures parameters.maxIterations == None && parameters.aout == 0.05
  {
    parameters := new TrainingParameters();
    outcome := parameters.SetRegressionClass(RegressorClass("NoPValues", false));
  }
}
