/** The errors the model of the diffusion code reports. Every modelled
    operation returns a `Result` instead of raising. All but `NonFiniteScale`
    name an exception that `NMSlibTransformer`, `Diffusor.fit_transform` or
    `multiscale` raises; `NonFiniteScale` stands for the infinite or NaN
    column numpy returns with a warning. */
module Results {

  datatype Option<+T> = None | Some(value: T)

  /** The errors, each commented with the exception it stands for. */
  datatype Error =
    | UnknownMetric      // KeyError: metric missing from the space table
    | NotFitted          // AttributeError: `transform` before `fit` has built the index
    | NoQueries          // ValueError: unpacking the results of zero queries
    | RaggedRows         // ValueError: stacking neighbour rows of unequal length
    | ShortRows          // ValueError: CSR index pointer runs past the stored data
    | BandwidthIndex     // IndexError: adaptive_k - 1 is not an index of a row
    | ComponentCount     // ValueError/TypeError: eigs needs 0 < n_components < N - 1
    | NoKnee             // TypeError: round(None) when the knee detector finds no knee
    | GapIndex           // IndexError: too few drops for the eigengap fallback
    | MissingEigenpair   // KeyError: a retained position is not a label of the eigenvalue Series
    | NonFiniteScale     // an eigenvalue equal to 1 makes lambda / (1 - lambda) non-finite

  datatype Result<+T> = Ok(value: T) | Err(error: Error) {

    predicate IsFailure() {
      Err?
    }

    function PropagateFailure<U>(): Result<U>
      requires Err?
    {
      Err(error)
    }

    function Extract(): T
      requires Ok?
    {
      value
    }
  }
}
