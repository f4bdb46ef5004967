/** Failure-compatible result type used where the C# code would throw. */
module Outcomes {

  /** The ways the modelled code can fail at run time. */
  datatype MeshError =
    | ChunkOutOfBounds      // SplitMeshAtChunk's explicit IndexOutOfRangeException
    | CellOutOfRange        // a quad-cell array read outside [0, R)^2
    | VertexOutOfRange      // a vertex/normal list read outside [0, Count)
    | IndexListOutOfRange   // an index list read outside [0, Count)
    | ChunkListOutOfRange   // a chunk id at or past the chunk look-up table's length
    | DivideByZero          // a chunk resolution of 0 used as a divisor

  datatype Result<+T> = Ok(value: T) | Err(error: MeshError) {

    predicate IsFailure() {
      Err?
    }

    function PropagateFailure<U>(): Result<U>
      requires Err?
    {
      Err(error)
    }

    function Extract(): T
      requires Ok?
    {
      value
    }
  }

  datatype Option<+T> = None | Some(value: T)
}
