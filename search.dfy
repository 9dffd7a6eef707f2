/**
 * The uninformed searches of cannibal.py: `solve_bfs`, `solve_dfs` and the
 * `solve` dispatcher. Both searches run the same loop over a fringe and a
 * list of visited states; only the end of the fringe they pop from, and the
 * order they push successors in, differ.
 */
module Search {
  import opened Errors
  import opened States

  // ---------------------------------------------------------------------
  // What a search is meant to decide.

  /** A crossing: every state but the last is safe, and each next state is
      one of its predecessor's successors. The last state may be unsafe: the
      searches test for the goal before they test for safety. */
  ghost predicate IsCrossing(p: seq<State>) {
    forall i :: 0 <= i < |p| - 1 ==> !Fails(p[i]) && p[i + 1] in Successors(p[i])
  }

  /** `t` can be reached from `start` by a crossing. */
  ghost predicate Reachable(start: State, t: State) {
    exists p :: |p| > 0 && p[0] == start && p[|p| - 1] == t && IsCrossing(p)
  }

  lemma ReachableFromItself(start: State)
    ensures Reachable(start, start)
  {
    assert IsCrossing([start]);
  }

  /** A crossing to a safe state extends by any of its successors. */
  lemma {:induction false} ReachableStep(start: State, t: State, u: State)
    requires Reachable(start, t) && !Fails(t) && u in Successors(t)
    ensures Reachable(start, u)
  {
    var p :| |p| > 0 && p[0] == start && p[|p| - 1] == t && IsCrossing(p);
    var q := p + [u];
    assert forall i :: 0 <= i < |p| ==> q[i] == p[i];
    assert IsCrossing(q);
  }

  // ---------------------------------------------------------------------
  // A finite set of states that holds every state a search can meet; the
  // searches terminate because each expansion adds a new state of it to
  // `visited`.

  /** Bounds that every state reachable from one start obeys. */
  datatype Box = Box(
    missionaries: int, cannibals: int,
    loLeftMissionaries: int, loRightMissionaries: int,
    loLeftCannibals: int, loRightCannibals: int,
    hiRightBoats: int, floor: int)

  function Min(a: int, b: int): int { if a <= b then a else b }
  function Max(a: int, b: int): int { if a <= b then b else a }

  /** No bank count drops below its start value or zero; the boat count on
      the right never rises above its start value or one, and falls below
      zero only while people leave the right bank at least as fast. */
  function BoxOf(s: State): Box {
    Box(TotalMissionaries(s), TotalCannibals(s),
        Min(s.leftMissionaries, 0), Min(s.rightMissionaries, 0),
        Min(s.leftCannibals, 0), Min(s.rightCannibals, 0),
        Max(s.rightBoats, 1), s.rightBoats - s.rightMissionaries - s.rightCannibals)
  }

  ghost predicate InBox(b: Box, t: State) {
    b.loLeftMissionaries <= 0 && b.loRightMissionaries <= 0 &&
    b.loLeftCannibals <= 0 && b.loRightCannibals <= 0 && b.hiRightBoats >= 1 &&
    TotalMissionaries(t) == b.missionaries &&
    t.leftMissionaries >= b.loLeftMissionaries && t.rightMissionaries >= b.loRightMissionaries &&
    TotalCannibals(t) == b.cannibals &&
    t.leftCannibals >= b.loLeftCannibals && t.rightCannibals >= b.loRightCannibals &&
    OneBoat(t) && t.rightBoats <= b.hiRightBoats &&
    (t.rightBoats >= 0 || t.rightBoats - t.rightMissionaries - t.rightCannibals >= b.floor)
  }

  lemma StartInBox(s: State)
    requires OneBoat(s)
    ensures InBox(BoxOf(s), s)
  {
  }

  /** Successors of a state in the box stay in the box. */
  lemma ExpandStaysInBox(b: Box, t: State)
    requires InBox(b, t)
    ensures forall u :: u in Successors(t) ==> InBox(b, u)
  {
    forall u | u in Successors(t) ensures InBox(b, u) {
      var l := SuccessorCarriesLoad(t, u);
      assert l.missionaries >= 0 && l.cannibals >= 0 && ValidLoad(l.missionaries, l.cannibals);
      if Crossing(t) == ToLeft {
        assert u == MoveLeft(t, l.missionaries, l.cannibals).value;
      } else {
        assert t.rightBoats == 0 && u == MoveRight(t, l.missionaries, l.cannibals).value;
      }
    }
  }

  /** The box as a finite set. */
  ghost function Universe(b: Box): (u: set<State>)
    ensures forall t :: InBox(b, t) ==> t in u
  {
    var loRb := Min(0, b.floor + b.loRightMissionaries + b.loRightCannibals);
    var u := set lc, lm, lb, rc, rm, rb |
      b.loLeftCannibals <= lc <= b.cannibals - b.loRightCannibals &&
      b.loLeftMissionaries <= lm <= b.missionaries - b.loRightMissionaries &&
      1 - b.hiRightBoats <= lb <= 1 - loRb &&
      b.loRightCannibals <= rc <= b.cannibals - b.loLeftCannibals &&
      b.loRightMissionaries <= rm <= b.missionaries - b.loLeftMissionaries &&
      loRb <= rb <= b.hiRightBoats &&
      InBox(b, State(lc, lm, lb, rc, rm, rb))
      :: State(lc, lm, lb, rc, rm, rb);
    assert forall t :: InBox(b, t) ==>
      t == State(t.leftCannibals, t.leftMissionaries, t.leftBoats,
                 t.rightCannibals, t.rightMissionaries, t.rightBoats);
    u
  }

  /** Every state a search starting at `start` can hold. */
  ghost predicate InScope(start: State, t: State) {
    t == start || (OneBoat(start) && InBox(BoxOf(start), t))
  }

  ghost function Scope(start: State): (u: set<State>)
    ensures forall t :: InScope(start, t) ==> t in u
  {
    Universe(BoxOf(start)) + {start}
  }

  lemma ExpandStaysInScope(start: State, t: State)
    requires InScope(start, t)
    ensures forall u :: u in Successors(t) ==> InScope(start, u)
  {
    if OneBoat(start) {
      StartInBox(start);
      ExpandStaysInBox(BoxOf(start), t);
    }
  }

  lemma SeenShrinks(u: set<State>, seen: set<State>, x: State)
    requires x in u && x !in seen
    ensures |u - (seen + {x})| < |u - seen|
  {
    assert u - seen == (u - (seen + {x})) + {x};
  }

  // ---------------------------------------------------------------------
  // The loop invariant shared by both searches, and the two ways one
  // iteration that neither returns nor raises keeps it.

  /** No state is visited twice. */
  ghost predicate Distinct(visited: seq<State>) {
    forall i, j :: 0 <= i < j < |visited| ==> visited[i] != visited[j]
  }

  /** Every successor of a visited state is on the fringe, visited, or was
      dropped as unsafe without being the goal. */
  ghost predicate Closed(goal: State, fringe: seq<State>, visited: seq<State>) {
    forall t, u :: t in visited && u in Successors(t) ==>
      u in fringe || u in visited || (u != goal && Fails(u))
  }

  /** Everything in `states` is reachable from the start and within scope. */
  ghost predicate Found(start: State, states: seq<State>) {
    forall t :: t in states ==> Reachable(start, t) && InScope(start, t)
  }

  /** `visited` holds distinct, safe, non-goal states with one boat; the
      visited states and the start are closed as above; everything on the
      fringe or visited is reachable from the start; only the start state
      can lack a single boat, and if it does and is to be expanded, nothing
      has happened yet. */
  ghost predicate SearchInv(start: State, goal: State, fringe: seq<State>, visited: seq<State>) {
    Distinct(visited) &&
    (forall t :: t in visited ==> !Fails(t) && t != goal && OneBoat(t)) &&
    Closed(goal, fringe, visited) &&
    (start in fringe || start in visited || (start != goal && Fails(start))) &&
    Found(start, fringe) && Found(start, visited) &&
    (forall t :: t in fringe && !OneBoat(t) ==> t == start) &&
    (start != goal && !Fails(start) && !OneBoat(start) ==> fringe == [start] && visited == [])
  }

  /** Once the fringe is empty the visited states are closed under
      expansion, so a crossing from the start never ends at the goal. */
  lemma {:induction false} ExhaustedMeansUnreachable(start: State, goal: State, visited: seq<State>)
    requires SearchInv(start, goal, [], visited)
    ensures !Reachable(start, goal)
  {
    if Reachable(start, goal) {
      var p :| |p| > 0 && p[0] == start && p[|p| - 1] == goal && IsCrossing(p);
      CrossingStaysCovered(start, goal, visited, p, |p| - 1);
      assert false;
    }
  }

  lemma {:induction false} CrossingStaysCovered(start: State, goal: State, visited: seq<State>, p: seq<State>, k: nat)
    requires SearchInv(start, goal, [], visited)
    requires |p| > 0 && p[0] == start && IsCrossing(p) && k < |p|
    ensures p[k] in visited || (p[k] != goal && Fails(p[k]))
  {
    if k > 0 {
      CrossingStaysCovered(start, goal, visited, p, k - 1);
    }
  }

  /** A search begins with the start state alone on the fringe. */
  lemma InitialInv(start: State, goal: State)
    ensures SearchInv(start, goal, [start], [])
  {
    ReachableFromItself(start);
  }

  /** `node` was popped from the front or the back of `fringe`, leaving `rest`. */
  predicate Popped(fringe: seq<State>, node: State, rest: seq<State>) {
    |fringe| > 0 &&
    ((node == fringe[0] && rest == fringe[1..]) ||
     (node == fringe[|fringe| - 1] && rest == fringe[..|fringe| - 1]))
  }

  lemma PoppedMembers(fringe: seq<State>, node: State, rest: seq<State>)
    requires Popped(fringe, node, rest)
    ensures forall t :: t in fringe <==> t == node || t in rest
  {
    if node == fringe[0] && rest == fringe[1..] {
      assert fringe == [node] + rest;
    } else {
      assert fringe == rest + [node];
    }
  }

  /** A popped state lies in the scope of the search. */
  lemma PoppedInScope(start: State, goal: State, fringe: seq<State>, node: State, rest: seq<State>, visited: seq<State>)
    requires SearchInv(start, goal, fringe, visited) && Popped(fringe, node, rest)
    ensures node in Scope(start)
  {
    assert node in fringe;
  }

  /** Popping `node` and dropping it, as unsafe or already visited. */
  lemma DropKeepsInv(start: State, goal: State, fringe: seq<State>, node: State, rest: seq<State>, visited: seq<State>)
    requires SearchInv(start, goal, fringe, visited) && Popped(fringe, node, rest)
    requires node != goal && (Fails(node) || node in visited)
    ensures SearchInv(start, goal, rest, visited)
  {
    PoppedMembers(fringe, node, rest);
    ClosedAfterDrop(goal, fringe, node, rest, visited);
    assert Found(start, rest);
  }

  lemma ClosedAfterDrop(goal: State, fringe: seq<State>, node: State, rest: seq<State>, visited: seq<State>)
    requires Closed(goal, fringe, visited)
    requires forall t :: t in fringe <==> t == node || t in rest
    requires node in visited || (node != goal && Fails(node))
    ensures Closed(goal, rest, visited)
  {
    forall t, u | t in visited && u in Successors(t)
      ensures u in rest || u in visited || (u != goal && Fails(u))
    {
      if u in fringe && u != node {
        assert u in rest;
      }
    }
  }

  lemma ClosedAfterExpand(goal: State, fringe: seq<State>, node: State, rest: seq<State>,
                          visited: seq<State>, pushed: seq<State>)
    requires Closed(goal, fringe, visited)
    requires forall t :: t in fringe <==> t == node || t in rest
    requires forall u :: u in pushed <==> u in Successors(node)
    ensures Closed(goal, rest + pushed, visited + [node])
  {
    var fringe', visited' := rest + pushed, visited + [node];
    forall t, u | t in visited' && u in Successors(t)
      ensures u in fringe' || u in visited' || (u != goal && Fails(u))
    {
      if t == node {
        assert u in pushed;
      } else {
        assert t in visited;
        if u in fringe {
          if u == node {
            assert u in visited';
          } else {
            assert u in rest;
          }
        } else if u in visited {
          assert u in visited';
        }
      }
    }
  }

  /** Popping `node`, marking it visited and pushing its successors in any
      order (`pushed` holds exactly the successors). */
  lemma ExpandKeepsInv(start: State, goal: State, fringe: seq<State>, node: State, rest: seq<State>,
                       visited: seq<State>, pushed: seq<State>)
    requires SearchInv(start, goal, fringe, visited) && Popped(fringe, node, rest)
    requires node != goal && !Fails(node) && node !in visited && OneBoat(node)
    requires forall u :: u in pushed <==> u in Successors(node)
    ensures SearchInv(start, goal, rest + pushed, visited + [node])
  {
    var fringe', visited' := rest + pushed, visited + [node];
    PoppedMembers(fringe, node, rest);
    assert forall t :: t in visited' <==> t in visited || t == node;
    assert forall t :: t in fringe' <==> t in rest || t in pushed;
    assert Distinct(visited') by {
      forall i, j | 0 <= i < j < |visited'| ensures visited'[i] != visited'[j] {
        if j == |visited| {
          assert visited'[i] in visited;
        }
      }
    }
    ClosedAfterExpand(goal, fringe, node, rest, visited, pushed);
    assert Found(start, fringe') by {
      assert Reachable(start, node) && InScope(start, node);
      forall u | u in pushed
        ensures Reachable(start, u) && InScope(start, u)
      {
        ReachableStep(start, node, u);
        ExpandStaysInScope(start, node);
      }
    }
    assert Found(start, visited');
  }

  /** What a search promises about the states it expanded: each once, each
      safe, none the goal, all reachable from the start. */
  ghost predicate Explored(start: State, goal: State, expanded: seq<State>) {
    Distinct(expanded) &&
    (forall t :: t in expanded ==> !Fails(t) && t != goal && Reachable(start, t))
  }

  /** The popped node is the goal: it was reachable, so success is right. */
  lemma GoalPoppedOutcome(start: State, goal: State, fringe: seq<State>, node: State, rest: seq<State>, visited: seq<State>)
    requires SearchInv(start, goal, fringe, visited) && Popped(fringe, node, rest) && node == goal
    ensures Reachable(start, goal)
    ensures start == goal || Fails(start) || OneBoat(start)
    ensures Explored(start, goal, visited)
  {
    PoppedMembers(fringe, node, rest);
  }

  /** Expanding the popped node raised: it can only be the bad start. */
  lemma RaisedOutcome(start: State, goal: State, fringe: seq<State>, node: State, rest: seq<State>, visited: seq<State>)
    requires SearchInv(start, goal, fringe, visited) && Popped(fringe, node, rest)
    requires node != goal && !Fails(node) && node !in visited && !OneBoat(node)
    ensures node == start && start != goal && !Fails(start) && !OneBoat(start)
    ensures Explored(start, goal, visited + [node])
  {
    PoppedMembers(fringe, node, rest);
  }

  /** The fringe ran dry: the goal is unreachable. */
  lemma ExhaustedOutcome(start: State, goal: State, visited: seq<State>)
    requires SearchInv(start, goal, [], visited)
    ensures start != goal && (Fails(start) || OneBoat(start))
    ensures !Reachable(start, goal)
    ensures Explored(start, goal, visited)
  {
    ReachableFromItself(start);
    ExhaustedMeansUnreachable(start, goal, visited);
  }

  // ---------------------------------------------------------------------
  // The searches.

  /** `solve_bfs`: the fringe is a queue; successors join at the back. */
  method SolveBfs(start: State, goal: State) returns (r: Result<bool>, ghost explored: seq<State>)
    ensures start == goal ==> r == Success(true)
    ensures r.Failure? <==> start != goal && !Fails(start) && !OneBoat(start)
    ensures r.Failure? ==> r.error == SingleBoatsOnly
    ensures r == Success(true) ==> Reachable(start, goal)
    ensures r == Success(false) ==> !Reachable(start, goal)
    ensures Explored(start, goal, explored)
  {
    var visited: seq<State> := [];
    var fringe := [start];
    ghost var seen: set<State> := {};
    ghost var scope := Scope(start);
    InitialInv(start, goal);
    while fringe != []
      invariant SearchInv(start, goal, fringe, visited)
      invariant forall t :: t in seen <==> t in visited
      invariant seen <= scope
      decreases |scope - seen|, |fringe|
    {
      ghost var before := fringe;
      var node := fringe[0];
      fringe := fringe[1..];
      if Equal(node, goal) {
        GoalPoppedOutcome(start, goal, before, node, fringe, visited);
        return Success(true), visited;
      }
      if Fails(node) {
        DropKeepsInv(start, goal, before, node, fringe, visited);
        continue;
      }
      if node in visited {
        DropKeepsInv(start, goal, before, node, fringe, visited);
        continue;
      }
      PoppedInScope(start, goal, before, node, fringe, visited);
      SeenShrinks(scope, seen, node);
      ghost var previous := visited;
      visited := visited + [node];
      seen := seen + {node};
      var successors := Expand(node);
      if successors.Failure? {
        RaisedOutcome(start, goal, before, node, fringe, previous);
        return Failure(successors.error), visited;
      }
      ExpandFollowsLoadTable(node);
      ExpandKeepsInv(start, goal, before, node, fringe, previous, successors.value);
      fringe := fringe + successors.value;
    }
    ExhaustedOutcome(start, goal, visited);
    return Success(false), visited;
  }

  /** `solve_dfs`: the fringe is a stack; successors are pushed reversed so
      that the first one generated is the next one popped. */
  method SolveDfs(start: State, goal: State) returns (r: Result<bool>, ghost explored: seq<State>)
    ensures start == goal ==> r == Success(true)
    ensures r.Failure? <==> start != goal && !Fails(start) && !OneBoat(start)
    ensures r.Failure? ==> r.error == SingleBoatsOnly
    ensures r == Success(true) ==> Reachable(start, goal)
    ensures r == Success(false) ==> !Reachable(start, goal)
    ensures Explored(start, goal, explored)
  {
    var visited: seq<State> := [];
    var fringe := [start];
    ghost var seen: set<State> := {};
    ghost var scope := Scope(start);
    InitialInv(start, goal);
    while fringe != []
      invariant SearchInv(start, goal, fringe, visited)
      invariant forall t :: t in seen <==> t in visited
      invariant seen <= scope
      decreases |scope - seen|, |fringe|
    {
      ghost var before := fringe;
      var node := fringe[|fringe| - 1];
      fringe := fringe[..|fringe| - 1];
      if Equal(node, goal) {
        GoalPoppedOutcome(start, goal, before, node, fringe, visited);
        return Success(true), visited;
      }
      if Fails(node) {
        DropKeepsInv(start, goal, before, node, fringe, visited);
        continue;
      }
      if node in visited {
        DropKeepsInv(start, goal, before, node, fringe, visited);
        continue;
      }
      PoppedInScope(start, goal, before, node, fringe, visited);
      SeenShrinks(scope, seen, node);
      ghost var previous := visited;
      visited := visited + [node];
      seen := seen + {node};
      var successors := Expand(node);
      if successors.Failure? {
        RaisedOutcome(start, goal, before, node, fringe, previous);
        return Failure(successors.error), visited;
      }
      var expanded := Reverse(successors.value);
      ExpandFollowsLoadTable(node);
      ReverseMembers(successors.value);
      ExpandKeepsInv(start, goal, before, node, fringe, previous, expanded);
      fringe := fringe + expanded;
    }
    ExhaustedOutcome(start, goal, visited);
    return Success(false), visited;
  }

  /** `list.reverse`: the last element first. */
  function Reverse<T>(xs: seq<T>): (r: seq<T>)
    ensures |r| == |xs|
  {
    if xs == [] then [] else [xs[|xs| - 1]] + Reverse(xs[..|xs| - 1])
  }

  lemma {:induction false} ReverseIndex<T>(xs: seq<T>, k: nat)
    requires k < |xs|
    ensures Reverse(xs)[k] == xs[|xs| - 1 - k]
  {
    if k > 0 {
      ReverseIndex(xs[..|xs| - 1], k - 1);
    }
  }

  lemma ReverseMembers<T>(xs: seq<T>)
    ensures forall x :: x in Reverse(xs) <==> x in xs
  {
    forall x | x in Reverse(xs) ensures x in xs {
      var k :| 0 <= k < |xs| && Reverse(xs)[k] == x;
      ReverseIndex(xs, k);
    }
    forall x | x in xs ensures x in Reverse(xs) {
      var k :| 0 <= k < |xs| && xs[k] == x;
      ReverseIndex(xs, |xs| - 1 - k);
    }
  }

  /** After pushing reversed successors onto a stack, the k-th pop returns
      the k-th successor generated: depth-first explores in generation order. */
  lemma StackPopsInGenerationOrder(fringe: seq<State>, successors: seq<State>, k: nat)
    requires k < |successors|
    ensures var stack := fringe + Reverse(successors);
      |stack| == |fringe| + |successors| && stack[|stack| - 1 - k] == successors[k]
  {
    ReverseIndex(successors, |successors| - 1 - k);
  }

  /** `solve`: run the search the mode names; the search's answer is not
      passed on, so only a raised error reaches the caller. */
  method Solve(start: State, goal: State, mode: string) returns (r: Result<()>)
    ensures (mode == "bfs" || mode == "dfs") ==>
      (r.Failure? <==> start != goal && !Fails(start) && !OneBoat(start))
    ensures (mode == "bfs" || mode == "dfs") && r.Failure? ==> r.error == SingleBoatsOnly
    ensures (mode == "iddfs" || mode == "astar") ==> r == Failure(NotImplemented)
    ensures mode !in ["bfs", "dfs", "iddfs", "astar"] ==> r == Failure(InvalidMode(mode))
  {
    if mode == "bfs" {
      var found, _ := SolveBfs(start, goal);
      r := if found.Failure? then Failure(found.error) else Success(());
    } else if mode == "dfs" {
      var found, _ := SolveDfs(start, goal);
      r := if found.Failure? then Failure(found.error) else Success(());
    } else if mode == "iddfs" {
      r := Failure(NotImplemented);
    } else if mode == "astar" {
      r := Failure(NotImplemented);
    } else {
      r := Failure(InvalidMode(mode));
    }
  }

  // ---------------------------------------------------------------------
  // The classic puzzle: three missionaries and three cannibals start on the
  // left bank with the boat and must all reach the right bank.

  const ClassicStart := State(3, 3, 1, 0, 0, 0)
  const ClassicGoal := State(0, 0, 0, 3, 3, 1)

  /** A configuration with `m` missionaries and `c` cannibals on the left
      bank out of three each, and the boat on the left or right. */
  function Left(m: int, c: int, boatLeft: bool): State {
    if boatLeft then State(c, m, 1, 3 - c, 3 - m, 0) else State(c, m, 0, 3 - c, 3 - m, 1)
  }

  lemma ExpandedIsSuccessor(s: State, t: State)
    requires Expand(s).Success? && t in Expand(s).value
    ensures !Fails(s) ==> t in Successors(s)
  {
    ExpandFollowsLoadTable(s);
  }

  /** The classic puzzle has an eleven-move crossing. */
  lemma ClassicIsSolvable()
    ensures Reachable(ClassicStart, ClassicGoal)
  {
    var p := [Left(3, 3, true), Left(3, 1, false), Left(3, 2, true), Left(3, 0, false),
              Left(3, 1, true), Left(1, 1, false), Left(2, 2, true), Left(0, 2, false),
              Left(0, 3, true), Left(0, 1, false), Left(0, 2, true), Left(0, 0, false)];
    forall i | 0 <= i < |p| - 1
      ensures !Fails(p[i]) && p[i + 1] in Successors(p[i])
    {
      ExpandedIsSuccessor(p[i], p[i + 1]);
    }
    assert IsCrossing(p);
  }

  /** Breadth-first search reports success on the classic puzzle. */
  method SolveClassicBfs() returns (r: Result<bool>)
    ensures r == Success(true)
  {
    ClassicIsSolvable();
    assert OneBoat(ClassicStart);
    var found, _ := SolveBfs(ClassicStart, ClassicGoal);
    assert found.Success? && found.value;
    r := found;
  }
}
