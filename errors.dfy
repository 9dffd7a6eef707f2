/** The exceptions raised by the solver, and a result type that carries them. */
module Errors {

  /** One variant per `raise` in the solver. */
  datatype Error =
    | SingleBoatsOnly        // NotImplementedError from `expand`: boats on both banks do not add up to one
    | NoBoats                // RuntimeError from `expand`: neither bank holds the boat
    | InvalidMove            // RuntimeError from `move_left` / `move_right`: load outside 1..2 people
    | NotImplemented         // NotImplementedError from `solve_iddfs` / `solve_astar`
    | InvalidMode(mode: string)  // ValueError from `solve`: unknown search mode

  /** Either the value an operation returns or the exception it raises. */
  datatype Result<T> = Success(value: T) | Failure(error: Error)
}
