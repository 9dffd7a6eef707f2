/**
 * A bank configuration of the missionaries-and-cannibals puzzle and its
 * move generator: the `State` class of cannibal.py.
 */
module States {
  import opened Errors

  /** Six counts, in the order the source's constructor takes them. Python
      integers are unbounded, so nothing here is restricted to be non-negative. */
  datatype State = State(
    leftCannibals: int, leftMissionaries: int, leftBoats: int,
    rightCannibals: int, rightMissionaries: int, rightBoats: int)

  function TotalMissionaries(s: State): int { s.leftMissionaries + s.rightMissionaries }
  function TotalCannibals(s: State): int { s.leftCannibals + s.rightCannibals }
  function TotalBoats(s: State): int { s.leftBoats + s.rightBoats }

  /** The only boat configuration `expand` supports. */
  predicate OneBoat(s: State) { TotalBoats(s) == 1 }

  /** A configuration a loader reads from a sane file: no negative counts, one boat. */
  predicate WellFormed(s: State) {
    s.leftCannibals >= 0 && s.leftMissionaries >= 0 && s.leftBoats >= 0 &&
    s.rightCannibals >= 0 && s.rightMissionaries >= 0 && s.rightBoats >= 0 &&
    OneBoat(s)
  }

  /** A transfer keeps every total and moves people and one boat between banks. */
  predicate Conserves(s: State, t: State) {
    TotalMissionaries(t) == TotalMissionaries(s) &&
    TotalCannibals(t) == TotalCannibals(s) &&
    TotalBoats(t) == TotalBoats(s)
  }

  /** `fails`: some bank that has missionaries has more cannibals than missionaries. */
  predicate Fails(s: State)
    ensures s.leftMissionaries <= 0 && s.rightMissionaries <= 0 ==> !Fails(s)
    ensures s.leftCannibals <= s.leftMissionaries && s.rightCannibals <= s.rightMissionaries ==> !Fails(s)
    ensures Fails(s) ==> (0 < s.leftMissionaries < s.leftCannibals) || (0 < s.rightMissionaries < s.rightCannibals)
  {
    (s.leftCannibals > s.leftMissionaries && s.leftMissionaries > 0) ||
    (s.rightCannibals > s.rightMissionaries && s.rightMissionaries > 0)
  }

  /** A boat load must carry one or two people. */
  predicate ValidLoad(missionaries: int, cannibals: int) {
    1 <= missionaries + cannibals <= 2
  }

  /** `move_left`: carry the load from the right bank to the left bank. */
  function MoveLeft(s: State, missionaries: int, cannibals: int): (r: Result<State>)
    ensures r.Failure? <==> !ValidLoad(missionaries, cannibals)
    ensures r.Failure? ==> r.error == InvalidMove
    ensures r.Success? ==> Conserves(s, r.value)
    ensures r.Success? ==>
      r.value.leftMissionaries - s.leftMissionaries == missionaries &&
      r.value.leftCannibals - s.leftCannibals == cannibals &&
      r.value.leftBoats == s.leftBoats + 1 && r.value.rightBoats == s.rightBoats - 1
  {
    if missionaries + cannibals > 2 || missionaries + cannibals < 1 then
      Failure(InvalidMove)
    else
      Success(State(
        s.leftCannibals + cannibals,
        s.leftMissionaries + missionaries,
        s.leftBoats + 1,
        s.rightCannibals - cannibals,
        s.rightMissionaries - missionaries,
        s.rightBoats - 1))
  }

  /** `move_right`: carry the load from the left bank to the right bank. */
  function MoveRight(s: State, missionaries: int, cannibals: int): (r: Result<State>)
    ensures r.Failure? <==> !ValidLoad(missionaries, cannibals)
    ensures r.Failure? ==> r.error == InvalidMove
    ensures r.Success? ==> Conserves(s, r.value)
    ensures r.Success? ==>
      r.value.rightMissionaries - s.rightMissionaries == missionaries &&
      r.value.rightCannibals - s.rightCannibals == cannibals &&
      r.value.rightBoats == s.rightBoats + 1 && r.value.leftBoats == s.leftBoats - 1
  {
    if missionaries + cannibals > 2 || missionaries + cannibals < 1 then
      Failure(InvalidMove)
    else
      Success(State(
        s.leftCannibals - cannibals,
        s.leftMissionaries - missionaries,
        s.leftBoats - 1,
        s.rightCannibals + cannibals,
        s.rightMissionaries + missionaries,
        s.rightBoats + 1))
  }

  /** A move to one side is undone by the same load carried back. */
  lemma MoveRoundTrip(s: State, missionaries: int, cannibals: int)
    ensures MoveLeft(s, missionaries, cannibals).Success? ==>
      MoveRight(MoveLeft(s, missionaries, cannibals).value, missionaries, cannibals) == Success(s)
    ensures MoveRight(s, missionaries, cannibals).Success? ==>
      MoveLeft(MoveRight(s, missionaries, cannibals).value, missionaries, cannibals) == Success(s)
  {
  }

  datatype Direction = ToLeft | ToRight

  /** The move operator `expand` binds: `move_left` or `move_right`. */
  function Move(s: State, dir: Direction, missionaries: int, cannibals: int): Result<State> {
    match dir
    case ToLeft => MoveLeft(s, missionaries, cannibals)
    case ToRight => MoveRight(s, missionaries, cannibals)
  }

  /** The loads `expand` tries, in its order, each guarded by what the boat's bank holds. */
  function Loads(s: State, dir: Direction, missionaries: int, cannibals: int): seq<State> {
    (if missionaries > 0 then [Move(s, dir, 1, 0).value] else []) +
    (if missionaries > 1 then [Move(s, dir, 2, 0).value] else []) +
    (if cannibals > 0 then [Move(s, dir, 0, 1).value] else []) +
    (if cannibals > 0 && missionaries > 0 then [Move(s, dir, 1, 1).value] else []) +
    (if cannibals > 1 then [Move(s, dir, 0, 2).value] else [])
  }

  /** Which way the boat goes: away from the bank holding it (Python truthiness). */
  function Crossing(s: State): Direction {
    if s.rightBoats != 0 then ToLeft else ToRight
  }

  /** The missionaries and cannibals on the bank that holds the boat. */
  function BoatBankMissionaries(s: State): int {
    if s.rightBoats != 0 then s.rightMissionaries else s.leftMissionaries
  }
  function BoatBankCannibals(s: State): int {
    if s.rightBoats != 0 then s.rightCannibals else s.leftCannibals
  }

  /** `expand`: every successor reachable by one boat crossing. */
  function Expand(s: State): (r: Result<seq<State>>)
    ensures r.Failure? <==> !OneBoat(s)
    ensures r.Failure? ==> r.error == SingleBoatsOnly
    ensures r.Success? ==> |r.value| <= 5
    ensures r.Success? && BoatBankMissionaries(s) <= 0 && BoatBankCannibals(s) <= 0 ==> r.value == []
  {
    if s.rightBoats + s.leftBoats != 1 then
      Failure(SingleBoatsOnly)
    else if s.rightBoats != 0 then
      Success(Loads(s, ToLeft, s.rightMissionaries, s.rightCannibals))
    else if s.leftBoats != 0 then
      Success(Loads(s, ToRight, s.leftMissionaries, s.leftCannibals))
    else
      Failure(NoBoats)
  }

  /** `__eq__`: compares the six fields one by one. */
  function Equal(a: State, b: State): (r: bool)
    ensures r <==> a == b
  {
    a.leftCannibals == b.leftCannibals &&
    a.leftMissionaries == b.leftMissionaries &&
    a.leftBoats == b.leftBoats &&
    a.rightCannibals == b.rightCannibals &&
    a.rightMissionaries == b.rightMissionaries &&
    a.rightBoats == b.rightBoats
  }

  // ---------------------------------------------------------------------
  // An independent description of `expand`: the table of five boat loads,
  // filtered by what the boat's bank holds.

  datatype Load = Load(missionaries: int, cannibals: int)

  /** A load the move operators accept. */
  type BoatLoad = l: Load | ValidLoad(l.missionaries, l.cannibals) witness Load(1, 0)

  /** The five loads a boat of capacity two can carry, in the order tried. */
  const BoatLoads: seq<BoatLoad> := [Load(1, 0), Load(2, 0), Load(0, 1), Load(1, 1), Load(0, 2)]

  /** The bank holds at least as many of each kind as the load takes. */
  predicate Fits(l: Load, missionaries: int, cannibals: int) {
    (l.missionaries > 0 ==> missionaries >= l.missionaries) &&
    (l.cannibals > 0 ==> cannibals >= l.cannibals)
  }

  /** Carry every fitting load of `loads` in direction `dir`, keeping their order. */
  function Carry(s: State, dir: Direction, loads: seq<BoatLoad>, missionaries: int, cannibals: int): (r: seq<State>)
    ensures |r| <= |loads|
  {
    if loads == [] then []
    else
      (if Fits(loads[0], missionaries, cannibals)
       then [Move(s, dir, loads[0].missionaries, loads[0].cannibals).value] else []) +
      Carry(s, dir, loads[1..], missionaries, cannibals)
  }

  /** The successors of a state by the load table, or none when `expand`
      would raise. */
  function Successors(s: State): seq<State> {
    if OneBoat(s) then Carry(s, Crossing(s), BoatLoads, BoatBankMissionaries(s), BoatBankCannibals(s))
    else []
  }

  /** Carrying the whole table is what `expand`'s five guarded appends do. */
  lemma {:induction false} CarryTableIsLoads(s: State, dir: Direction, missionaries: int, cannibals: int)
    ensures Carry(s, dir, BoatLoads, missionaries, cannibals) == Loads(s, dir, missionaries, cannibals)
  {
    var m, c, L := missionaries, cannibals, BoatLoads;
    var x1 := if m > 0 then [Move(s, dir, 1, 0).value] else [];
    var x2 := if m > 1 then [Move(s, dir, 2, 0).value] else [];
    var x3 := if c > 0 then [Move(s, dir, 0, 1).value] else [];
    var x4 := if c > 0 && m > 0 then [Move(s, dir, 1, 1).value] else [];
    var x5 := if c > 1 then [Move(s, dir, 0, 2).value] else [];
    assert L[4..][1..] == [];
    assert Carry(s, dir, L[4..], m, c) == x5;
    assert L[3..][1..] == L[4..];
    assert Carry(s, dir, L[3..], m, c) == x4 + x5;
    assert L[2..][1..] == L[3..];
    assert Carry(s, dir, L[2..], m, c) == x3 + (x4 + x5);
    assert L[1..][1..] == L[2..];
    assert Carry(s, dir, L[1..], m, c) == x2 + (x3 + (x4 + x5));
    assert Carry(s, dir, L, m, c) == x1 + (x2 + (x3 + (x4 + x5)));
    AppendAssociates(x1, x2, x3, x4, x5);
  }

  lemma AppendAssociates(a: seq<State>, b: seq<State>, c: seq<State>, d: seq<State>, e: seq<State>)
    ensures a + (b + (c + (d + e))) == a + b + c + d + e
  {
  }

  /** `expand` carries exactly the fitting loads of the table, in table order. */
  lemma ExpandFollowsLoadTable(s: State)
    requires OneBoat(s)
    ensures Expand(s) == Success(Successors(s))
  {
    CarryTableIsLoads(s, Crossing(s), BoatBankMissionaries(s), BoatBankCannibals(s));
  }

  /** Every successor is one fitting load of the table carried across. */
  lemma SuccessorCarriesLoad(s: State, t: State) returns (l: BoatLoad)
    requires t in Successors(s)
    ensures l in BoatLoads && Fits(l, BoatBankMissionaries(s), BoatBankCannibals(s))
    ensures Move(s, Crossing(s), l.missionaries, l.cannibals) == Success(t)
  {
    l := CarriedLoad(s, Crossing(s), BoatLoads, BoatBankMissionaries(s), BoatBankCannibals(s), t);
  }

  lemma {:induction false} CarriedLoad(s: State, dir: Direction, loads: seq<BoatLoad>, missionaries: int, cannibals: int, t: State)
    returns (l: BoatLoad)
    requires t in Carry(s, dir, loads, missionaries, cannibals)
    ensures l in loads && Fits(l, missionaries, cannibals)
    ensures Move(s, dir, l.missionaries, l.cannibals) == Success(t)
  {
    var head := loads[0];
    if Fits(head, missionaries, cannibals) && t == Move(s, dir, head.missionaries, head.cannibals).value {
      l := head;
    } else {
      l := CarriedLoad(s, dir, loads[1..], missionaries, cannibals, t);
    }
  }

  /** Every successor keeps the totals, hence the single boat. */
  lemma ExpandConserves(s: State, t: State)
    requires t in Successors(s)
    ensures Conserves(s, t) && OneBoat(t)
  {
    var l := SuccessorCarriesLoad(s, t);
  }

  /** Expanding a well-formed state yields only well-formed states: the
      availability guards never take more people than a bank holds. */
  lemma ExpandPreservesWellFormed(s: State)
    requires WellFormed(s)
    ensures Expand(s).Success?
    ensures forall t :: t in Expand(s).value ==> WellFormed(t)
  {
  }

  /** Every successor has the boat on the bank opposite to where it was. */
  lemma ExpandFlipsBoat(s: State, t: State)
    requires Expand(s).Success? && t in Expand(s).value
    ensures Crossing(s) == ToLeft ==> t.rightBoats == s.rightBoats - 1 && t.leftBoats == s.leftBoats + 1
    ensures Crossing(s) == ToRight ==> t.leftBoats == 0 && t.rightBoats == 1
  {
  }

  /** Two missionaries facing three cannibals on one bank is unsafe. */
  lemma OutnumberedBankFails()
    ensures Fails(State(3, 2, 1, 0, 0, 0))
  {
  }
}
