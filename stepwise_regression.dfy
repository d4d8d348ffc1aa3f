/**
 * The stepwise regression model: backward elimination driving a base
 * regressor, and the one-slot field (`mlregressor`) holding the current
 * delegate instance.
 *
 * Delegates are identified by the order in which they were created. The
 * ghost log `delegates` records, for each one, what it was created for and
 * whether it is still live, has been deleted or has been closed.
 */
module StepwiseRegressions {
  import opened Dataframes
  import opened Elimination
  import opened Parameters

  /** What a delegate was created for. */
  datatype Role =
    | Scoring(columns: set<Key>, parameters: Option<RegressorParameters>)   // an elimination round
    | Retained(columns: set<Key>, parameters: Option<RegressorParameters>)  // the final retrain
    | Loaded                                                                // bound to stored state by predict

  /** The last lifecycle call made on a delegate: none yet, `delete` or
      `close`. A delegate deleted by a round and later closed through the
      slot is recorded as `Closed`. */
  datatype Status = Live | Deleted | Closed

  datatype Delegate = Delegate(role: Role, status: Status)

  /** The result of fitting. `NoMaximalPValue`: a round reported a p-value
      for the intercept only, so there was no maximal entry to select. */
  datatype FitOutcome = Fitted | NoMaximalPValue

  ghost function WithStatus(ds: seq<Delegate>, id: nat, s: Status): (ds': seq<Delegate>)
    requires id < |ds|
    ensures |ds'| == |ds| && ds'[id] == Delegate(ds[id].role, s)
    ensures forall i :: 0 <= i < |ds| && i != id ==> ds'[i] == ds[i]
  {
    ds[id := ds[id].(status := s)]
  }

  /** The log entries of the elimination rounds: one deleted scoring
      delegate per round, trained on that round's columns. */
  function ScoringLog(rounds: seq<set<Key>>, params: Option<RegressorParameters>): (log: seq<Delegate>)
    ensures |log| == |rounds|
  {
    seq(|rounds|, i requires 0 <= i < |rounds| => Delegate(Scoring(rounds[i], params), Deleted))
  }

  lemma ScoringLogAppend(log: seq<Delegate>, rounds: seq<set<Key>>, cols: set<Key>, params: Option<RegressorParameters>)
    ensures log + ScoringLog(rounds + [cols], params) ==
      log + ScoringLog(rounds, params) + [Delegate(Scoring(cols, params), Deleted)]
  {
    assert ScoringLog(rounds + [cols], params) ==
      ScoringLog(rounds, params) + [Delegate(Scoring(cols, params), Deleted)];
  }

  class StepwiseRegression {
    const trainingParameters: TrainingParameters
    /** The delegate slot: the id of the delegate it holds, if any. */
    var mlregressor: Option<nat>
    /** How many delegates have been created; the next one gets this id. */
    var instances: nat
    ghost var delegates: seq<Delegate>

    ghost predicate Valid()
      reads this
    {
      instances == |delegates| &&
      (mlregressor.Some? ==> mlregressor.value < |delegates|)
    }

    constructor (trainingParameters: TrainingParameters)
      ensures Valid()
      ensures this.trainingParameters == trainingParameters
      ensures mlregressor == None && delegates == []
    {
      this.trainingParameters := trainingParameters;
      mlregressor := None;
      instances := 0;
      delegates := [];
    }

    /** The factory standing in for reflective instantiation: a fresh, live
        delegate. The slot is left to the caller. */
    method NewInstance(role: Role) returns (id: nat)
      requires Valid()
      modifies this
      ensures Valid()
      ensures id == old(|delegates|)
      ensures delegates == old(delegates) + [Delegate(role, Live)]
      ensures mlregressor == old(mlregressor)
    {
      id := instances;
      instances := instances + 1;
      delegates := delegates + [Delegate(role, Live)];
    }

    /** One elimination round: a new delegate takes the slot, is trained on
        the data, reports its p-values and is deleted. The slot keeps
        holding the deleted delegate. */
    method RunRegression(trainingData: Dataframe, pvalues: Oracle) returns (p: PValues)
      requires Valid()
      modifies this
      ensures Valid()
      ensures p == pvalues(trainingData.xColumns)
      ensures delegates == old(delegates) +
        [Delegate(Scoring(trainingData.xColumns, trainingParameters.regressionTrainingParameters), Deleted)]
      ensures mlregressor == Some(old(|delegates|))
    {
      var id := NewInstance(Scoring(trainingData.xColumns, trainingParameters.regressionTrainingParameters));
      mlregressor := Some(id);
      p := pvalues(trainingData.xColumns);
      delegates := WithStatus(delegates, id, Deleted);
    }

    /** The elimination run on the columns `cols` under the current
        parameters. */
    ghost function PlannedRun(cols: set<Key>, pvalues: Oracle, select: Chooser): Run
      reads trainingParameters
      requires SelectsMax(select)
    {
      Eliminate(pvalues, select, trainingParameters.aout,
                MaxIterationsBound(trainingParameters.maxIterations), cols)
    }

    /** Backward elimination on a copy of the training data, then one final
        retrain on the surviving columns. */
    method Fit(trainingData: Dataframe, pvalues: Oracle, select: Chooser)
      returns (outcome: FitOutcome, ghost workingCopy: Dataframe)
      requires Valid() && SelectsMax(select)
      requires trainingParameters.regressionClass.Some?
      modifies this
      ensures Valid()
      ensures unchanged(trainingData)
      ensures var run := PlannedRun(trainingData.xColumns, pvalues, select);
        && (outcome == Fitted <==> run.stop != OnlyConstant)
        // one deleted delegate per elimination round, trained on that round's
        // columns, then the retained one when fitting succeeds
        && delegates == old(delegates) +
             ScoringLog(run.rounds, trainingParameters.regressionTrainingParameters) +
             (if outcome == Fitted
              then [Delegate(Retained(run.final, trainingParameters.regressionTrainingParameters), Live)]
              else [])
        // the drops happened on a fresh copy, released only when fitting succeeds
        && workingCopy.xColumns == run.final
      // at most maxIterations scoring delegates and the final one; with a
      // bound of zero or less only the final one, on the caller's columns
      ensures |delegates| <= old(|delegates|) + Max0(MaxIterationsBound(trainingParameters.maxIterations)) + 1
      ensures MaxIterationsBound(trainingParameters.maxIterations) <= 0 ==>
        outcome == Fitted &&
        delegates == old(delegates) +
          [Delegate(Retained(trainingData.xColumns, trainingParameters.regressionTrainingParameters), Live)]
      // the slot holds the last delegate created
      ensures mlregressor == Some(|delegates| - 1)
      ensures fresh(workingCopy)
      ensures workingCopy.deleted <==> outcome == Fitted
    {
      EliminateWithinBudget(pvalues, select, trainingParameters.aout,
                            MaxIterationsBound(trainingParameters.maxIterations), trainingData.xColumns);
      var copied := trainingData.Copy();
      var failed := BackwardElimination(copied, pvalues, select);
      if failed {
        // only the intercept had a p-value: selecting the maximal entry of
        // the emptied map yields no entry and fitting fails
        outcome, workingCopy := NoMaximalPValue, copied;
        return;
      }
      var id := NewInstance(Retained(copied.xColumns, trainingParameters.regressionTrainingParameters));
      mlregressor := Some(id);
      copied.Delete();
      outcome, workingCopy := Fitted, copied;
    }

    /** The elimination loop of fitting, dropping columns from `copied` in
        place; `failed` when a round found no maximal p-value. */
    method BackwardElimination(copied: Dataframe, pvalues: Oracle, select: Chooser) returns (failed: bool)
      requires Valid() && SelectsMax(select)
      modifies this, copied
      ensures Valid()
      ensures copied.deleted == old(copied.deleted)
      ensures var run := PlannedRun(old(copied.xColumns), pvalues, select);
        && (run.rounds == [] ==> mlregressor == old(mlregressor))
        && (run.rounds != [] ==> mlregressor == Some(|delegates| - 1))
        && (failed <==> run.stop == OnlyConstant)
        && delegates == old(delegates) + ScoringLog(run.rounds, trainingParameters.regressionTrainingParameters)
        && copied.xColumns == run.final
    {
      var maxIterations := MaxIterationsBound(trainingParameters.maxIterations);
      ghost var params := trainingParameters.regressionTrainingParameters;
      ghost var run := PlannedRun(copied.xColumns, pvalues, select);
      ghost var log := delegates;

      var iteration := 0;
      ghost var done: seq<set<Key>> := [];
      failed := false;
      var stopped := false;
      while iteration < maxIterations && !stopped
        invariant Valid()
        invariant copied.deleted == old(copied.deleted)
        invariant 0 <= iteration && |done| == iteration + (if stopped then 1 else 0)
        invariant !stopped ==>
          !failed &&
          run == Prefixed(done, Eliminate(pvalues, select, trainingParameters.aout, maxIterations - iteration, copied.xColumns))
        invariant stopped ==> run.rounds == done && run.final == copied.xColumns && (failed <==> run.stop == OnlyConstant)
        invariant delegates == log + ScoringLog(done, params)
        invariant done == [] ==> mlregressor == old(mlregressor)
        invariant done != [] ==> mlregressor == Some(|delegates| - 1)
        decreases maxIterations - iteration, if stopped then 0 else 1
      {
        ghost var before := done;
        done := done + [copied.xColumns];
        ScoringLogAppend(log, before, copied.xColumns, params);
        stopped, failed := EliminationRound(copied, pvalues, select, maxIterations - iteration, before, run);
        if !stopped {
          iteration := iteration + 1;
        }
      }
    }

    /** One pass of the elimination loop: score the current columns, then
        stop, or drop the worst column and stop when none is left. */
    method EliminationRound(copied: Dataframe, pvalues: Oracle, select: Chooser,
                            ghost budget: int, ghost done: seq<set<Key>>, ghost run: Run)
      returns (stopped: bool, failed: bool)
      requires Valid() && SelectsMax(select) && budget > 0
      requires run == Prefixed(done, Eliminate(pvalues, select, trainingParameters.aout, budget, copied.xColumns))
      modifies this, copied
      ensures Valid()
      ensures copied.deleted == old(copied.deleted)
      ensures delegates == old(delegates) +
        [Delegate(Scoring(old(copied.xColumns), trainingParameters.regressionTrainingParameters), Deleted)]
      ensures mlregressor == Some(|delegates| - 1)
      ensures stopped ==>
        run.rounds == done + [old(copied.xColumns)] && run.final == copied.xColumns &&
        (failed <==> run.stop == OnlyConstant)
      ensures !stopped ==>
        !failed &&
        run == Prefixed(done + [old(copied.xColumns)],
                        Eliminate(pvalues, select, trainingParameters.aout, budget - 1, copied.xColumns))
    {
      ghost var cols := copied.xColumns;
      var aOut := trainingParameters.aout;
      var pvals := RunRegression(copied, pvalues);
      var decision := Decide(pvals, aOut, select);
      if decision.Halt? {
        HaltStep(pvalues, select, aOut, budget, cols, done);
        return true, decision.reason == OnlyConstant;
      }
      DropStep(pvalues, select, aOut, budget, cols, done, decision.key);
      copied.DropXColumns({decision.key});
      var remaining := copied.XColumnSize();
      stopped, failed := remaining == 0, false;
    }

    /** Prediction: when the slot is empty, a delegate bound to the stored
        model is created in it first; a held delegate is used as it is. */
    method Predict()
      requires Valid()
      requires trainingParameters.regressionClass.Some?
      modifies this
      ensures Valid()
      ensures old(mlregressor).Some? ==> mlregressor == old(mlregressor) && delegates == old(delegates)
      ensures old(mlregressor).None? ==>
        mlregressor == Some(old(|delegates|)) && delegates == old(delegates) + [Delegate(Loaded, Live)]
    {
      if mlregressor.None? {
        var id := NewInstance(Loaded);
        mlregressor := Some(id);
      }
    }

    /** Deletes the held delegate, if any, and empties the slot. */
    method Delete()
      requires Valid()
      modifies this
      ensures Valid()
      ensures mlregressor == None
      ensures delegates ==
        if old(mlregressor).None? then old(delegates)
        else WithStatus(old(delegates), old(mlregressor).value, Deleted)
    {
      if mlregressor.Some? {
        delegates := WithStatus(delegates, mlregressor.value, Deleted);
        mlregressor := None;
      }
    }

    /** Closes the held delegate, if any, and empties the slot. */
    method Close()
      requires Valid()
      modifies this
      ensures Valid()
      ensures mlregressor == None
      ensures delegates ==
        if old(mlregressor).None? then old(delegates)
        else WithStatus(old(delegates), old(mlregressor).value, Closed)
    {
      if mlregressor.Some? {
        delegates := WithStatus(delegates, mlregressor.value, Closed);
        mlregressor := None;
      }
    }
  }
}
