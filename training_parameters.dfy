/**
 * The training parameters of stepwise regression: the iteration bound, the
 * p-value exit threshold, the base regression class (validated against the
 * p-value capability when it is set) and the base regressor's own training
 * parameters, which are forwarded untouched.
 */
module Parameters {

  /** Java's `Integer` range. */
  newtype int32 = x: int | -0x8000_0000 <= x < 0x8000_0000

  const INT_MAX: int32 := 0x7fff_ffff

  datatype Option<T> = None | Some(value: T)

  /** A base regression class; `stepwiseCompatible` says whether it declares
      the capability of reporting feature p-values. */
  datatype RegressorClass = RegressorClass(name: string, stepwiseCompatible: bool)

  /** The base regressor's training parameters, opaque to stepwise regression. */
  datatype RegressorParameters = RegressorParameters(description: string)

  datatype ConfigError = NotStepwiseCompatible

  datatype Outcome = Pass | Fail(error: ConfigError)

  /** The number of elimination rounds allowed: an unset bound is `INT_MAX`. */
  function MaxIterationsBound(maxIterations: Option<int32>): (bound: int)
    ensures bound <= INT_MAX as int
  {
    match maxIterations
    case None => INT_MAX as int
    case Some(n) => n as int
  }

  class TrainingParameters {
    var maxIterations: Option<int32>
    var aout: real
    var regressionClass: Option<RegressorClass>
    var regressionTrainingParameters: Option<RegressorParameters>

    /** The defaults: no iteration bound, threshold 0.05, nothing else set. */
    constructor ()
      ensures maxIterations == None && aout == 0.05
      ensures regressionClass == None && regressionTrainingParameters == None
    {
      maxIterations := None;
      aout := 0.05;
      regressionClass := None;
      regressionTrainingParameters := None;
    }

    method SetMaxIterations(maxIterations: Option<int32>)
      modifies this
      ensures this.maxIterations == maxIterations
      ensures aout == old(aout) && regressionClass == old(regressionClass)
      ensures regressionTrainingParameters == old(regressionTrainingParameters)
    {
      this.maxIterations := maxIterations;
    }

    method SetAout(aout: real)
      modifies this
      ensures this.aout == aout
      ensures maxIterations == old(maxIterations) && regressionClass == old(regressionClass)
      ensures regressionTrainingParameters == old(regressionTrainingParameters)
    {
      this.aout := aout;
    }

    /** Rejects a class without the p-value capability and leaves the field as
        it was; otherwise stores the class. */
    method SetRegressionClass(regressionClass: RegressorClass) returns (outcome: Outcome)
      modifies this
      ensures outcome == Pass <==> regressionClass.stepwiseCompatible
      ensures outcome.Fail? ==> outcome.error == NotStepwiseCompatible
      ensures this.regressionClass ==
        if regressionClass.stepwiseCompatible then Some(regressionClass) else old(this.regressionClass)
      ensures maxIterations == old(maxIterations) && aout == old(aout)
      ensures regressionTrainingParameters == old(regressionTrainingParameters)
    {
      if !regressionClass.stepwiseCompatible {
        return Fail(NotStepwiseCompatible);
      }
      this.regressionClass := Some(regressionClass);
      outcome := Pass;
    }

    method SetRegressionTrainingParameters(regressionTrainingParameters: Option<RegressorParameters>)
      modifies this
      ensures this.regressionTrainingParameters == regressionTrainingParameters
      ensures maxIterations == old(maxIterations) && aout == old(aout)
      ensures regressionClass == old(regressionClass)
    {
      this.regressionTrainingParameters := regressionTrainingParameters;
    }
  }
}
