# Stepwise regression: backward elimination and the delegate slot

This project models the core of datumbox's `StepwiseRegression`. That core is:

- the backward-elimination loop of `_fit`;
- `runRegression`, which scores one set of columns with a throw-away base regressor;
- the one-slot `mlregressor` field that `_fit`, `_predict`, `delete` and `close` reassign;
- the `TrainingParameters` defaults and the validated setter `setRegressionClass`.

The modules are:

- `Dataframes` (`dataframe.dfy`): the part of the dataframe that the core uses. It holds the feature column keys, including the reserved intercept key `Constant`, a deep copy, in-place column removal, the column count, and disposal.
- `Parameters` (`training_parameters.dfy`): the training parameters as a class with setters. An unset `maxIterations` stands for `Integer.MAX_VALUE` (`int32` newtype).
- `Elimination` (`elimination.dfy`): backward elimination as pure specification.
  - The base regressor is an oracle from a column set to a p-value map.
  - The maximum selection is a chooser. The only thing assumed of it is that it returns a key holding a largest value.
  - `Eliminate` computes the run: the column set of each round, the surviving columns, and why the loop stopped.
  - `ValidRun` is an independent, tie-break-free description of every run the loop allows. `EliminateIsValidRun` connects the two.
- `StepwiseRegressions` (`stepwise_regression.dfy`): the model as a class. It has the `mlregressor` slot, a counter of created delegates, and a ghost log of every delegate: what it was created for, and whether it is live, deleted or closed.
  - `Fit` copies the data, runs the loop in `BackwardElimination` (one `EliminationRound` per pass), then retrains once on the survivors.
  - Each method's contract ties the new log and slot to `Eliminate`.
- `Scenarios` (`scenarios.dfy`): worked examples. They cover the three-column run, a zero bound, fit-then-delete-twice, and a rejected regressor class.

Four behaviours of the code that the model keeps as written:

- **No range checks.** The threshold and the iteration bound are not range-checked: `setAout` and `setMaxIterations` store whatever they are given.
- **Literal final retrain.** The final retrain always happens, even when the last round dropped nothing.
- **No cleanup on failure.** Nothing is released on a failure path: there is no `try`/`finally`.
- **Slot overwritten without disposal.** Whatever delegate the slot held before a fit is overwritten without being disposed.

Two more behaviours of the code as written:

- After each round, `runRegression` leaves the slot holding the delegate it has just deleted.
- When a round reports a p-value only for the intercept, no maximal entry is left to select. The model makes this an explicit outcome, `NoMaximalPValue`: no final retrain happens and the working copy is not released.

## Model

All source paths are under `datumbox-framework-core/src/main/java/com/datumbox/framework/core/machinelearning/regression/`.

| member | source | states |
|---|---|---|
| Dataframes.Dataframe.Copy | datumbox-framework-core/src/main/java/com/datumbox/framework/core/machinelearning/regression/StepwiseRegression.java:226-227 | the working copy is a fresh dataframe with the caller's columns, not yet released |
| Dataframes.Dataframe.DropXColumns | datumbox-framework-core/src/main/java/com/datumbox/framework/core/machinelearning/regression/StepwiseRegression.java:248-250 | the named columns are removed in place and nothing else changes |
| Dataframes.Dataframe.XColumnSize | datumbox-framework-core/src/main/java/com/datumbox/framework/core/machinelearning/regression/StepwiseRegression.java:252-254 | the count is the number of feature columns, zero exactly when none is left |
| Dataframes.Dataframe.Delete | datumbox-framework-core/src/main/java/com/datumbox/framework/core/machinelearning/regression/StepwiseRegression.java:267 | releases the copy and keeps its column set |
| Parameters.MaxIterationsBound | datumbox-framework-core/src/main/java/com/datumbox/framework/core/machinelearning/regression/StepwiseRegression.java:220-223 | the definition is the body: an unset bound is `Integer.MAX_VALUE`, a set one is itself; the ensures only states that the bound never exceeds `Integer.MAX_VALUE` |
| Parameters.TrainingParameters.constructor | datumbox-framework-core/src/main/java/com/datumbox/framework/core/machinelearning/regression/StepwiseRegression.java:63-71 | defaults: `maxIterations` unset, `aout = 0.05`, no regression class, no regressor parameters |
| Parameters.TrainingParameters.SetMaxIterations | datumbox-framework-core/src/main/java/com/datumbox/framework/core/machinelearning/regression/StepwiseRegression.java:89-91 | stores the bound unchecked; other fields unchanged |
| Parameters.TrainingParameters.SetAout | datumbox-framework-core/src/main/java/com/datumbox/framework/core/machinelearning/regression/StepwiseRegression.java:112-114 | stores the threshold unchecked; other fields unchanged |
| Parameters.TrainingParameters.SetRegressionClass | datumbox-framework-core/src/main/java/com/datumbox/framework/core/machinelearning/regression/StepwiseRegression.java:134-139 | passes exactly when the class has the p-value capability. A rejected class fails with `NotStepwiseCompatible` and leaves the field as it was. An accepted class is stored. Other fields are unchanged |
| Parameters.TrainingParameters.SetRegressionTrainingParameters | datumbox-framework-core/src/main/java/com/datumbox/framework/core/machinelearning/regression/StepwiseRegression.java:157-159 | stores the regressor's parameters untouched |
| Elimination.Decide | datumbox-framework-core/src/main/java/com/datumbox/framework/core/machinelearning/regression/StepwiseRegression.java:234-245 | one round's decision on the reported p-values; its contract is stated by `DecideSpec` |
| Elimination.DecideSpec | datumbox-framework-core/src/main/java/com/datumbox/framework/core/machinelearning/regression/StepwiseRegression.java:234-245 | a round stops on an empty map exactly when the map is empty. It finds no maximal entry exactly when only the intercept is reported. It stops as all-significant exactly when some feature is reported and every feature p-value is `<= aOut`. Otherwise the dropped key is not the intercept, has a largest feature p-value, and that value is `> aOut` |
| Elimination.Eliminate | datumbox-framework-core/src/main/java/com/datumbox/framework/core/machinelearning/regression/StepwiseRegression.java:230-256 | the loop as a recursive function over the remaining iterations; its contract is stated by `EliminateIsValidRun` and `EliminateWithinBudget` |
| Elimination.DropIsRemoval | datumbox-framework-core/src/main/java/com/datumbox/framework/core/machinelearning/regression/StepwiseRegression.java:248-250 | when the oracle reports only present columns, dropping the worst key removes exactly one present column, and that column is worst and above the threshold |
| Elimination.EliminateIsValidRun | datumbox-framework-core/src/main/java/com/datumbox/framework/core/machinelearning/regression/StepwiseRegression.java:230-256 | for every maximal selection, the loop's run is a valid run. Every round but the last removes one worst column above the threshold and leaves some. The last round stops for one of the loop's reasons, and that reason's condition holds |
| Elimination.EliminateWithinBudget | datumbox-framework-core/src/main/java/com/datumbox/framework/core/machinelearning/regression/StepwiseRegression.java:220-230 | at most `maxIterations` rounds run, exactly that many when the bound stopped the loop, and none with a bound `<= 0` (the survivors are then the starting columns) |
| Elimination.RoundShrinksByOne | datumbox-framework-core/src/main/java/com/datumbox/framework/core/machinelearning/regression/StepwiseRegression.java:248-255 | round i trains on a subset of the starting columns with exactly i fewer, never on an empty set after the first, and with the intercept whenever it started with it |
| Elimination.RunTerminates | datumbox-framework-core/src/main/java/com/datumbox/framework/core/machinelearning/regression/StepwiseRegression.java:252-255 | even unbounded, a valid run has at most as many rounds as starting columns (one if there are none) |
| Elimination.ConstantNeverDropped | datumbox-framework-core/src/main/java/com/datumbox/framework/core/machinelearning/regression/StepwiseRegression.java:239-250 | the survivors are a subset of the starting columns and keep the intercept |
| Elimination.DroppedCount | datumbox-framework-core/src/main/java/com/datumbox/framework/core/machinelearning/regression/StepwiseRegression.java:248-255 | exactly one column goes per removal round: survivors plus rounds equals starting columns, plus one when the last round dropped nothing |
| Elimination.DecideChoiceFree | datumbox-framework-core/src/main/java/com/datumbox/framework/core/machinelearning/regression/StepwiseRegression.java:240 | without tied feature p-values, every maximal selection makes the same decision |
| Elimination.EliminateChoiceFree | datumbox-framework-core/src/main/java/com/datumbox/framework/core/machinelearning/regression/StepwiseRegression.java:230-256 | when the oracle never reports ties, the whole run does not depend on the tie-break |
| Elimination.SomeMaxKey | datumbox-framework-core/src/main/java/com/datumbox/framework/core/machinelearning/regression/StepwiseRegression.java:240 | every non-empty p-value map has a key holding a largest value |
| Elimination.ChooserExists | datumbox-framework-core/src/main/java/com/datumbox/framework/core/machinelearning/regression/StepwiseRegression.java:240 | a selection meeting the maximality requirement exists |
| StepwiseRegressions.StepwiseRegression.constructor | datumbox-framework-core/src/main/java/com/datumbox/framework/core/machinelearning/regression/StepwiseRegression.java:170-172 | a new model has an empty slot and has created no delegate |
| StepwiseRegressions.StepwiseRegression.NewInstance | datumbox-framework-core/src/main/java/com/datumbox/framework/core/machinelearning/regression/StepwiseRegression.java:272-277 | the factory creates one fresh live delegate and leaves the slot to the caller |
| StepwiseRegressions.StepwiseRegression.RunRegression | datumbox-framework-core/src/main/java/com/datumbox/framework/core/machinelearning/regression/StepwiseRegression.java:270-287 | returns the oracle's p-values for the current columns. It logs one delegate, trained on those columns with the configured parameters and then deleted. The slot keeps that deleted delegate |
| StepwiseRegressions.StepwiseRegression.EliminationRound | datumbox-framework-core/src/main/java/com/datumbox/framework/core/machinelearning/regression/StepwiseRegression.java:231-255 | one pass of the loop advances the planned run by exactly one round: it stops where the run stops, or leaves the copy on the run's next column set |
| StepwiseRegressions.StepwiseRegression.BackwardElimination | datumbox-framework-core/src/main/java/com/datumbox/framework/core/machinelearning/regression/StepwiseRegression.java:229-256 | the loop leaves the copy on the planned run's surviving columns. It logs one deleted scoring delegate per round of that run. It fails exactly when the run ended on an intercept-only map |
| StepwiseRegressions.StepwiseRegression.Fit | datumbox-framework-core/src/main/java/com/datumbox/framework/core/machinelearning/regression/StepwiseRegression.java:217-268 | the caller's data is untouched, and all drops happen on a fresh copy that is released exactly when fitting succeeds. The log gains one deleted delegate per round, trained on that round's columns, then one live delegate retained on the survivors. That makes at most `maxIterations + 1` trainings, and only the final one, on the caller's columns, when the bound is `<= 0`. The slot holds the last delegate |
| StepwiseRegressions.StepwiseRegression.Predict | datumbox-framework-core/src/main/java/com/datumbox/framework/core/machinelearning/regression/StepwiseRegression.java:206-213 | a delegate bound to stored state is created in the slot only when the slot is empty; a held delegate is kept |
| StepwiseRegressions.StepwiseRegression.Delete | datumbox-framework-core/src/main/java/com/datumbox/framework/core/machinelearning/regression/StepwiseRegression.java:185-192 | the held delegate, if any, is marked deleted and the slot emptied; with an empty slot nothing changes |
| StepwiseRegressions.StepwiseRegression.Close | datumbox-framework-core/src/main/java/com/datumbox/framework/core/machinelearning/regression/StepwiseRegression.java:196-203 | the held delegate, if any, is marked closed and the slot emptied; with an empty slot nothing changes |
| Scenarios.ExampleRun | datumbox-framework-core/src/main/java/com/datumbox/framework/core/machinelearning/regression/StepwiseRegression.java:229-256 | the loop works through the three-column example. With p-values {A: 0.01, B: 0.20, C: 0.03} and aOut 0.05, round 1 drops B. Round 2 reports {A: 0.01, C: 0.02} and stops, leaving {A, C} |
| Scenarios.ZeroBound | datumbox-framework-core/src/main/java/com/datumbox/framework/core/machinelearning/regression/StepwiseRegression.java:220-230 | a bound of zero runs no round and keeps the original columns |
| Scenarios.ExampleFitThenDelete | datumbox-framework-core/src/main/java/com/datumbox/framework/core/machinelearning/regression/StepwiseRegression.java:185-268 | fitting the example succeeds and leaves the caller's data as it was. Deleting the model afterwards deletes the one retained delegate, and a second delete changes nothing |
| Scenarios.RejectIncompatibleClass | datumbox-framework-core/src/main/java/com/datumbox/framework/core/machinelearning/regression/StepwiseRegression.java:134-139 | a class without the p-value capability is rejected and leaves the defaults in place |

## Left out

- The base regressor's training, prediction and p-value computation (`fit`, `predict`, `getFeaturePvalues`, line 283) are foreign code. They are an uninterpreted oracle over column sets. Only the delegate's lifecycle is tracked, and `Predict` takes no data.
- Reflective construction through `Trainable.newInstance` (lines 209, 259-264, 272-277) is a factory that hands out the next delegate id. The database name and configuration it passes are not modelled.
- The tie-break of `MapMethods.selectMaxKeyValue` (line 240) is not part of this model. Only maximality of the selected key is assumed. `EliminateChoiceFree` shows that the choice matters only when feature p-values tie.
- `selectMaxKeyValue` on an emptied map is not visible. The model does not invent a key for it: it stops with `NoMaximalPValue`, without the final retrain and without releasing the working copy.
- Storage, persistence and the storage-level difference between `close` and `delete` are not modelled. Only the slot transitions and the delegate's status are.
- Exceptions, `null` arguments and `null` parameter values are not modelled, for example a `null` `aout` or a `null` regression class. Neither is any cleanup on a failure path; the code has none.
- `Fit` overwrites a delegate the slot may already hold, without disposing it: `runRegression` does so at line 272 whenever a round runs, and the final retrain at lines 259-264 when none does. Whether the surrounding trainer disposes it beforehand depends on code that is not part of this model.
- Getters (lines 80-82, 101-103, 123-125, 147-149) only return fields. The model reads the fields directly.
- The constructor that loads a stored model (lines 179-181) is not modelled separately. Its parameters are given to the model's constructor, as for a new model.
- `Double` p-values and the threshold are `real`. The code only compares them, so floating-point rounding is not modelled.
