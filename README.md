# Missionaries and cannibals: a verified model of the solver core

This project models the core of `cannibal.py`. That script solves the
missionaries-and-cannibals river-crossing puzzle by uninformed search. The
model has three modules:

- `Errors` (`errors.dfy`) holds the exceptions the solver raises and a
  `Result` type that carries them.
- `States` (`state.dfy`) models the `State` class. A bank configuration is six
  integers: cannibals, missionaries and boats on the left and right banks, in
  the constructor's order. It also models the safety test `fails`, the move
  operators `move_left` and `move_right`, the successor generator `expand`,
  and field-wise equality `__eq__`. These are pure functions on a datatype.
  `Successors` gives an independent description of `expand`: a table of the
  five boat loads, filtered by what the boat's bank holds.
  `ExpandFollowsLoadTable` proves that the two agree.
- `Search` (`search.dfy`) models `solve_bfs`, `solve_dfs` and `solve`.
  The two searches are methods with `while` loops. They pop from a fringe
  held as a sequence, test the goal, drop unsafe and already-visited
  states, and append to a `visited` sequence. Both loops keep one shared
  invariant, `SearchInv`, and two lemmas (`DropKeepsInv`, `ExpandKeepsInv`)
  show how an iteration preserves it.

The main result is that each search decides reachability. A crossing is a
chain of `expand` steps, each leaving a safe state. A search raises exactly
when the start is safe, is not the goal, and its boats do not add up to one.
When it does not raise, it returns `Success(b)`, where `b` holds exactly
when the goal can be reached from the start by a crossing. The expanded
states are described once, by the predicate `Explored`.

Termination is proved. Every state a search meets lies in a
finite box computed from the start (`BoxOf`, `Universe`), so the number of
distinct visited states is bounded.

Integers are unbounded, as in Python. Negative counts and boat counts other
than 0 and 1 are accepted and handled as the source handles them. Python's
truthiness test `if self.right_boats:` is modelled as `rightBoats != 0`.

## Model

| member | source | states |
|---|---|---|
| `States.Fails` | cannibal.py:44-48 | A state fails only if some bank has at least one missionary and more cannibals than missionaries. It never fails when neither bank has missionaries, or when missionaries are at least as many as cannibals on both banks. |
| `States.MoveLeft` | cannibal.py:81-91 | Raises `InvalidMove` exactly when the load is outside 1..2 people. Otherwise all three totals are kept, the left bank gains exactly the requested missionaries and cannibals, and one boat passes from right to left. |
| `States.MoveRight` | cannibal.py:93-103 | The mirror of `MoveLeft`: same error condition, same conservation, and the people and one boat pass from left to right. |
| `States.MoveRoundTrip` | cannibal.py:81-103 | A valid move in one direction is undone exactly by the same load carried back. |
| `States.Expand` | cannibal.py:50-79 | Raises `SingleBoatsOnly` exactly when the boats do not add up to one. The "No boats" error is therefore unreachable. It returns at most five successors, and none when the boat's bank holds nobody. |
| `States.ExpandFollowsLoadTable` | cannibal.py:68-79 | For a single boat, `expand` returns exactly the loads 1M, 2M, 1C, 1M+1C, 2C, in that order, that fit what the boat's bank holds, carried away from that bank. |
| `States.CarryTableIsLoads` | cannibal.py:68-79 | Carrying the load table in either direction gives the same list as the five guarded appends. |
| `States.SuccessorCarriesLoad` | cannibal.py:68-79 | Every successor is one table load that fits the boat's bank, moved across by `move_left` or `move_right`. |
| `States.ExpandConserves` | cannibal.py:69-103 | Every successor keeps the totals of missionaries, cannibals and boats, and so keeps a single boat. |
| `States.ExpandPreservesWellFormed` | cannibal.py:69-103 | From a state with non-negative counts and one boat, `expand` succeeds, and every successor again has non-negative counts and one boat. |
| `States.ExpandFlipsBoat` | cannibal.py:57-66 | The boat leaves the bank that held it: with the boat on the right it moves one boat to the left; otherwise the boat ends up on the right. |
| `States.Equal` | cannibal.py:105-111 | Field-by-field comparison of the six counts holds exactly when the two configurations are equal. |
| `States.OutnumberedBankFails` | cannibal.py:44-48 | Two missionaries with three cannibals on one bank is unsafe. |
| `Search.SolveBfs` | cannibal.py:140-163 | Returns true when start equals goal, even if the goal is unsafe. Returns true only if the goal is reachable and false only if it is not. Raises exactly when a safe, non-goal start lacks a single boat. The states it expanded are distinct, safe, not the goal, and reachable. |
| `Search.SolveDfs` | cannibal.py:165-189 | The same guarantees as `SolveBfs`, for the stack fringe with successors pushed in reverse. |
| `Search.StackPopsInGenerationOrder` | cannibal.py:186-188 | After the reversed successors are pushed, the k-th pop returns the k-th successor generated. |
| `Search.Solve` | cannibal.py:128-138 | For `bfs` and `dfs`, raises exactly when the search does, and then with the search's `SingleBoatsOnly` (Python's `NotImplementedError`). For `iddfs` and `astar`, raises `NotImplemented`. For any other mode, raises `InvalidMode` carrying the mode. |
| `Search.ExhaustedMeansUnreachable` | cannibal.py:144-163 | Once the fringe is empty, the visited states are closed under expansion, so no crossing from the start ends at the goal. |
| `Search.CrossingStaysCovered` | cannibal.py:152-162 | With an empty fringe, every state on a crossing from the start is either visited or an unsafe non-goal state that was dropped. |
| `Search.ExpandKeepsInv` | cannibal.py:156-162 | Marking a safe, unvisited, non-goal node visited and pushing its successors, in either order, keeps the search invariant. |
| `Search.DropKeepsInv` | cannibal.py:148-159 | Dropping a popped node that is unsafe or already visited keeps the search invariant. |
| `Search.ReachableStep` | cannibal.py:160-162 | A crossing to a safe state extends by any of its successors. |
| `Search.ExpandStaysInBox` | cannibal.py:69-103 | Successors of a state in the box stay in the box, so the states a search can meet form a finite set. |
| `Search.Reverse` | cannibal.py:186-187 | Reversing keeps the length of the successor list; `ReverseIndex` and `ReverseMembers` give its elements. |
| `Search.ReverseIndex` | cannibal.py:186-187 | Reversing a list puts element `k` at position `n - 1 - k`. |
| `Search.ClassicIsSolvable` | cannibal.py:50-103 | Three missionaries and three cannibals, all on the left bank with the boat, can all cross by an eleven-move crossing. |
| `Search.SolveClassicBfs` | cannibal.py:140-163 | Breadth-first search reports success on the classic puzzle. |

## Left out

- `StateFile.read_file` (cannibal.py:13-32) is file reading and line parsing. Start and goal states are parameters of the model.
- `State.__str__` and every `print` in the search loops only format output.
- `main` and `USAGE` handle command-line arguments and exit the process.
- `solve_iddfs` and `solve_astar` only raise `NotImplementedError`. `Solve` models that raise. There is no iterative deepening, A* search, heuristic or predecessor link to model.
- Python's exceptions become `Failure` values. Nothing models how they propagate to `main`, or how `main` catches `NotImplementedError`.
- The searches keep the fringe and `visited` as sequences that are reassigned, not as a mutable `deque` and list. Aliasing does not arise, because both are local to one call.
- Python's `list.reverse` works in place. `Reverse` returns a new sequence holding the elements in the order the in-place reversal leaves them.

## Notes

- The searches return only a boolean, and `solve` discards even that.
  Neither search keeps an expanded-node count, a path or a predecessor
  link. `Solve` therefore returns only errors, and the guarantees live on
  `SolveBfs` and `SolveDfs`.
- `expand` returns no successors when the boat's bank holds nobody.
- No path is returned, so nothing is proved about move counts, including
  whether breadth-first search finds a shortest crossing.
