/** How the pipeline's operations end: a value, a returned Go error, or a
    runtime panic (index out of range), which Go does not return but
    raises; a panic passes through every caller unchanged. */
module Outcomes {
  import opened Types

  /** The errors the pipeline returns, each tagged with the context the
      source wraps it in. */
  datatype Failure =
    | SearchFailed(cause: string)                   // "could not query new transactions to proof: %w"
    | BlockResultsFailed(height: nat, cause: string) // "failed to fetch block results for height = %d: %w"
    | TxProofFailed(tx: Bytes, inner: Failure)       // "could not proof transaction with hash=%s: %w"
    | MarshalFailed(cause: string)                  // a Marshal error, returned as it is
    | ProofRejected(cause: string)                  // a proof.Verify error, returned as it is

  datatype Outcome<T> =
    | Ok(value: T)
    | Err(error: Failure)
    | Panic(index: nat, length: nat)

  /** A Go slice, where `nil` and an empty slice are different answers. */
  datatype Slice<T> = Nil | Items(elems: seq<T>)
}
