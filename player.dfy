/**
 * One player's board: the cells holding a ship and the cells shot at, the
 * shot and placement operations, and the fleet validator with its flood fill
 * (src/models/Player.ts).
 */
module Players {
  import opened Wrappers
  import opened Constants
  import opened Sequences
  import opened BoardPositions

  datatype ShotError = AlreadyShot(at: BoardPosition)

  /** Why a fleet was refused; the source reports these as messages. */
  datatype FleetError =
    | NoShipsPlaced
    | NotInLine(at: BoardPosition)
    | WrongShipCount(expected: nat, found: nat)
    | WrongLengths

  /** The { valid, error } record returned by validateShips. */
  datatype Validation = Valid | Invalid(reason: FleetError)

  // ---------------------------------------------------------------------------
  // The pure meaning of placing ships and shooting

  /** The ship cells after clicking p during placement: p is removed if present, added otherwise. */
  function Toggle(ships: set<BoardPosition>, p: BoardPosition): (r: set<BoardPosition>)
    ensures p in r <==> p !in ships
    ensures forall q :: q != p ==> (q in r <==> q in ships)
  {
    if p in ships then ships - {p} else ships + {p}
  }

  /** Clicking the same cell twice restores the ship cells. */
  lemma ToggleTwice(ships: set<BoardPosition>, p: BoardPosition)
    ensures Toggle(Toggle(ships, p), p) == ships
  {
    var once := Toggle(ships, p);
    assert forall q :: q in Toggle(once, p) <==> q in ships;
  }

  /** countOfShipCellsAlive: the ship cells not shot yet. */
  function CountAlive(ships: set<BoardPosition>, shots: set<BoardPosition>): (n: nat)
    ensures n <= |ships|
    ensures n == 0 <==> ships <= shots
  {
    AliveCells(ships, shots);
    |ships - shots|
  }

  lemma AliveCells(ships: set<BoardPosition>, shots: set<BoardPosition>)
    ensures |ships - shots| <= |ships|
    ensures |ships - shots| == 0 <==> ships <= shots
  {
    assert ships - shots <= ships;
    if ships <= shots {
      assert ships - shots == {};
    } else {
      var x :| x in ships && x !in shots;
      assert x in ships - shots;
    }
  }

  /** A new shot lowers the number of live ship cells by one on a hit and leaves it on a miss. */
  lemma CountAliveAfterShot(ships: set<BoardPosition>, shots: set<BoardPosition>, p: BoardPosition)
    requires p !in shots
    ensures CountAlive(ships, shots + {p}) == CountAlive(ships, shots) - (if p in ships then 1 else 0)
  {
    if p in ships {
      assert ships - (shots + {p}) == (ships - shots) - {p};
    } else {
      assert ships - (shots + {p}) == ships - shots;
    }
  }

  // ---------------------------------------------------------------------------
  // Connected groups of ship cells

  /** A walk through cells of S, each step to a touching cell. */
  ghost predicate IsPath(S: set<BoardPosition>, path: seq<BoardPosition>) {
    && |path| > 0
    && (forall i :: 0 <= i < |path| ==> path[i] in S)
    && (forall i :: 0 <= i < |path| - 1 ==> Adjacent(path[i], path[i + 1]))
  }

  ghost predicate Connected(S: set<BoardPosition>, a: BoardPosition, b: BoardPosition) {
    exists path :: IsPath(S, path) && path[0] == a && path[|path| - 1] == b
  }

  /** The 8-connected component of S that contains a (empty when a is not in S). */
  ghost function Component(S: set<BoardPosition>, a: BoardPosition): set<BoardPosition> {
    set b | b in S && Connected(S, a, b)
  }

  /** No ship cell touches a cell of C from outside C. */
  ghost predicate Closed(S: set<BoardPosition>, C: set<BoardPosition>) {
    forall q, r :: q in C && r in S && Adjacent(q, r) ==> r in C
  }

  lemma ConnectedSelf(S: set<BoardPosition>, a: BoardPosition)
    requires a in S
    ensures a in Component(S, a)
  {
    assert IsPath(S, [a]);
  }

  lemma ConnectedEnds(S: set<BoardPosition>, a: BoardPosition, b: BoardPosition)
    requires Connected(S, a, b)
    ensures a in S && b in S
  {
    var path :| IsPath(S, path) && path[0] == a && path[|path| - 1] == b;
  }

  lemma ConnectedStep(S: set<BoardPosition>, a: BoardPosition, b: BoardPosition, c: BoardPosition)
    requires Connected(S, a, b) && c in S && Adjacent(b, c)
    ensures Connected(S, a, c)
  {
    var path :| IsPath(S, path) && path[0] == a && path[|path| - 1] == b;
    var longer := path + [c];
    assert IsPath(S, longer);
  }

  lemma ConnectedSymmetric(S: set<BoardPosition>, a: BoardPosition, b: BoardPosition)
    requires Connected(S, a, b)
    ensures Connected(S, b, a)
  {
    var path :| IsPath(S, path) && path[0] == a && path[|path| - 1] == b;
    var back := seq(|path|, i requires 0 <= i < |path| => path[|path| - 1 - i]);
    assert IsPath(S, back);
  }

  lemma ConnectedTransitive(S: set<BoardPosition>, a: BoardPosition, b: BoardPosition, c: BoardPosition)
    requires Connected(S, a, b) && Connected(S, b, c)
    ensures Connected(S, a, c)
  {
    var p1 :| IsPath(S, p1) && p1[0] == a && p1[|p1| - 1] == b;
    var p2 :| IsPath(S, p2) && p2[0] == b && p2[|p2| - 1] == c;
    var joined := p1 + p2[1..];
    forall i | 0 <= i < |joined| - 1 ensures Adjacent(joined[i], joined[i + 1]) {
      if i >= |p1| - 1 {
        assert joined[i] == p2[i - |p1| + 1];
        assert joined[i + 1] == p2[i - |p1| + 2];
      }
    }
    assert IsPath(S, joined);
  }

  /** Every cell of a component has that same component. */
  lemma ComponentOfMember(S: set<BoardPosition>, a: BoardPosition, b: BoardPosition)
    requires b in Component(S, a)
    ensures Component(S, b) == Component(S, a)
  {
    ConnectedSymmetric(S, a, b);
    forall c | c in Component(S, b) ensures c in Component(S, a) {
      ConnectedTransitive(S, a, b, c);
    }
    forall c | c in Component(S, a) ensures c in Component(S, b) {
      ConnectedTransitive(S, b, a, c);
    }
  }

  /** Two components are equal or share no cell. */
  lemma ComponentsEqualOrDisjoint(S: set<BoardPosition>, a: BoardPosition, b: BoardPosition)
    ensures Component(S, a) == Component(S, b) || Component(S, a) !! Component(S, b)
  {
    if c :| c in Component(S, a) && c in Component(S, b) {
      ComponentOfMember(S, a, c);
      ComponentOfMember(S, b, c);
    }
  }

  lemma {:induction false} ClosedPath(S: set<BoardPosition>, C: set<BoardPosition>, path: seq<BoardPosition>, i: nat)
    requires Closed(S, C) && IsPath(S, path) && path[0] in C
    requires i < |path|
    ensures path[i] in C
  {
    if i > 0 {
      ClosedPath(S, C, path, i - 1);
    }
  }

  /** A closed set of ship cells that holds a holds a's whole component. */
  lemma ClosedContainsComponent(S: set<BoardPosition>, C: set<BoardPosition>, a: BoardPosition)
    requires a in C && Closed(S, C)
    ensures Component(S, a) <= C
  {
    forall b | b in Component(S, a) ensures b in C {
      var path :| IsPath(S, path) && path[0] == a && path[|path| - 1] == b;
      ClosedPath(S, C, path, |path| - 1);
    }
  }

  /**
   * The flood fill's frontier invariant: every ship cell touching the group
   * is in the group or still waiting on the stack.
   */
  ghost predicate Frontier(S: set<BoardPosition>, ship: set<BoardPosition>, stack: seq<BoardPosition>)
  {
    forall q, a :: q in ship && a in S && Adjacent(q, a) ==> a in ship || a in stack
  }

  /** A cell of a stack is its top or a cell of the stack below the top. */
  lemma PopMembers(stack: seq<BoardPosition>)
    requires |stack| > 0
    ensures forall a :: a in stack ==> a == stack[|stack| - 1] || a in stack[..|stack| - 1]
  {
    assert stack == stack[..|stack| - 1] + [stack[|stack| - 1]];
  }

  /** Popping a cell that is not a new ship cell keeps the frontier. */
  lemma FrontierSkip(S: set<BoardPosition>, ship: set<BoardPosition>, stack: seq<BoardPosition>)
    requires |stack| > 0 && Frontier(S, ship, stack)
    requires stack[|stack| - 1] !in S || stack[|stack| - 1] in ship
    ensures Frontier(S, ship, stack[..|stack| - 1])
  {
    PopMembers(stack);
  }

  /** Visiting a new ship cell and pushing its new neighbours keeps the frontier. */
  lemma FrontierVisit(S: set<BoardPosition>, ship: set<BoardPosition>, stack: seq<BoardPosition>, pushed: seq<BoardPosition>)
    requires |stack| > 0 && Frontier(S, ship, stack)
    requires forall q :: q in stack[..|stack| - 1] ==> q in pushed
    requires forall a :: a in S && a !in ship + {stack[|stack| - 1]} && Adjacent(stack[|stack| - 1], a) ==> a in pushed
    ensures Frontier(S, ship + {stack[|stack| - 1]}, pushed)
  {
    PopMembers(stack);
  }

  /**
   * What the flood fill leaves behind: cells connected to start, closed under
   * touching ship cells, holding start if it is a ship cell. That is its component.
   */
  lemma FloodFillComplete(S: set<BoardPosition>, start: BoardPosition, ship: set<BoardPosition>)
    requires ship <= S
    requires forall q :: q in ship ==> Connected(S, start, q)
    requires start in S ==> start in ship
    requires Closed(S, ship)
    ensures ship == Component(S, start)
  {
    forall b | b in Component(S, start) ensures start in S {
      ConnectedEnds(S, start, b);
    }
    forall q | q in ship ensures start in S {
      ConnectedEnds(S, start, q);
    }
    if start in S {
      ClosedContainsComponent(S, ship, start);
    }
  }

  // ---------------------------------------------------------------------------
  // The fleet

  /** g is the component of some ship cell. */
  ghost predicate IsComponentOf(S: set<BoardPosition>, g: set<BoardPosition>) {
    exists q :: q in S && g == Component(S, q)
  }

  /** The cells of a list of groups. */
  ghost function Union(groups: seq<set<BoardPosition>>): set<BoardPosition> {
    if groups == [] then {} else groups[0] + Union(groups[1..])
  }

  /** groups lists every component of S exactly once. */
  ghost predicate IsComponentPartition(S: set<BoardPosition>, groups: seq<set<BoardPosition>>) {
    && (forall i :: 0 <= i < |groups| ==> IsComponentOf(S, groups[i]))
    && (forall i, j :: 0 <= i < j < |groups| ==> groups[i] !! groups[j])
    && Union(groups) == S
  }

  /** shipsFound.map(ship => ship.size). */
  function Sizes(groups: seq<set<BoardPosition>>): (r: seq<int>)
    ensures |r| == |groups|
  {
    if groups == [] then [] else [|groups[0]|] + Sizes(groups[1..])
  }

  /**
   * A legal fleet: the ship cells split into components that are all straight
   * lines and whose sizes are the required ship lengths.
   */
  ghost predicate FleetLegal(S: set<BoardPosition>) {
    exists groups :: LegalPartition(S, groups)
  }

  /** groups lists the components of S, each a straight line, with the required sizes. */
  ghost predicate LegalPartition(S: set<BoardPosition>, groups: seq<set<BoardPosition>>) {
    && IsComponentPartition(S, groups)
    && (forall i :: 0 <= i < |groups| ==> IsLine(groups[i]))
    && multiset(Sizes(groups)) == multiset(ShipsToPlace)
  }

  lemma {:induction false} SizesConcat(a: seq<set<BoardPosition>>, b: seq<set<BoardPosition>>)
    ensures Sizes(a + b) == Sizes(a) + Sizes(b)
  {
    if a == [] {
      assert a + b == b;
    } else {
      assert (a + b)[0] == a[0];
      assert (a + b)[1..] == a[1..] + b;
      SizesConcat(a[1..], b);
    }
  }

  lemma {:induction false} SizesRemoveAt(b: seq<set<BoardPosition>>, k: nat)
    requires k < |b|
    ensures multiset(Sizes(b)) == multiset{|b[k]|} + multiset(Sizes(b[..k] + b[k + 1..]))
  {
    var pre, x, post := b[..k], b[k], b[k + 1..];
    assert b == pre + ([x] + post);
    SizesConcat(pre, [x] + post);
    SizesConcat([x], post);
    assert Sizes([x]) == [|x|];
    SizesConcat(pre, post);
  }

  /** The multiset of sizes depends only on the multiset of groups. */
  lemma {:induction false} SizesPermutation(a: seq<set<BoardPosition>>, b: seq<set<BoardPosition>>)
    requires multiset(a) == multiset(b)
    ensures multiset(Sizes(a)) == multiset(Sizes(b))
  {
    if a == [] {
      assert |b| == |multiset(b)| == 0;
    } else {
      var k := MatchHead(a, b);
      SizesPermutation(a[1..], b[..k] + b[k + 1..]);
      SizesRemoveAt(b, k);
      SizesRemoveAt(a, 0);
    }
  }

  lemma PartitionDistinct(S: set<BoardPosition>, groups: seq<set<BoardPosition>>)
    requires IsComponentPartition(S, groups)
    ensures Distinct(groups)
    ensures forall i :: 0 <= i < |groups| ==> groups[i] != {}
  {
    forall i | 0 <= i < |groups| ensures groups[i] != {} {
      assert IsComponentOf(S, groups[i]);
      var q :| q in S && groups[i] == Component(S, q);
      ConnectedSelf(S, q);
    }
  }

  /** Any two ways of listing the components of S are permutations of each other. */
  lemma PartitionsArePermutations(S: set<BoardPosition>, a: seq<set<BoardPosition>>, b: seq<set<BoardPosition>>)
    requires IsComponentPartition(S, a) && IsComponentPartition(S, b)
    ensures multiset(a) == multiset(b)
    ensures multiset(Sizes(a)) == multiset(Sizes(b))
  {
    PartitionDistinct(S, a);
    PartitionDistinct(S, b);
    forall g | g in a ensures g in b {
      PartitionMemberListed(S, a, b, g);
    }
    forall g | g in b ensures g in a {
      PartitionMemberListed(S, b, a, g);
    }
    assert Elements(a) == Elements(b);
    DistinctPermutations(a, b);
    SizesPermutation(a, b);
  }

  /** Every listing of the components of S has as many groups, of the same sizes, as a given one. */
  lemma PartitionUnique(S: set<BoardPosition>, groups: seq<set<BoardPosition>>)
    requires IsComponentPartition(S, groups)
    ensures forall other :: IsComponentPartition(S, other) ==>
              |other| == |groups| && multiset(Sizes(other)) == multiset(Sizes(groups))
  {
    forall other | IsComponentPartition(S, other)
      ensures |other| == |groups| && multiset(Sizes(other)) == multiset(Sizes(groups))
    {
      PartitionsArePermutations(S, groups, other);
      assert |multiset(groups)| == |multiset(other)|;
    }
  }

  lemma PartitionMemberListed(S: set<BoardPosition>, a: seq<set<BoardPosition>>, b: seq<set<BoardPosition>>, g: set<BoardPosition>)
    requires IsComponentPartition(S, a) && IsComponentPartition(S, b)
    requires g in a
    ensures g in b
  {
    var i :| 0 <= i < |a| && a[i] == g;
    assert IsComponentOf(S, a[i]);
    var q :| q in S && g == Component(S, q);
    UnionMembers(b, q);
    var j :| 0 <= j < |b| && q in b[j];
    assert IsComponentOf(S, b[j]);
    var q' :| q' in S && b[j] == Component(S, q');
    ComponentOfMember(S, q', q);
  }

  lemma {:induction false} UnionMembers(groups: seq<set<BoardPosition>>, q: BoardPosition)
    ensures q in Union(groups) <==> exists i :: 0 <= i < |groups| && q in groups[i]
  {
    if groups != [] {
      UnionMembers(groups[1..], q);
      if q in Union(groups[1..]) {
        var i :| 0 <= i < |groups[1..]| && q in groups[1..][i];
        assert q in groups[i + 1];
      }
      if i :| 0 <= i < |groups| && q in groups[i] {
        if i > 0 {
          assert q in groups[1..][i - 1];
        }
      }
    }
  }

  lemma {:induction false} DisjointUnionSize(groups: seq<set<BoardPosition>>)
    requires forall i, j :: 0 <= i < j < |groups| ==> groups[i] !! groups[j]
    ensures |Union(groups)| == Sum(Sizes(groups))
  {
    if groups != [] {
      var rest := groups[1..];
      assert forall i, j :: 0 <= i < j < |rest| ==> rest[i] !! rest[j] by {
        forall i, j | 0 <= i < j < |rest| ensures rest[i] !! rest[j] {
          assert rest[i] == groups[i + 1] && rest[j] == groups[j + 1];
        }
      }
      DisjointUnionSize(rest);
      forall q | q in groups[0] ensures q !in Union(rest) {
        UnionMembers(rest, q);
        forall i | 0 <= i < |rest| ensures q !in rest[i] {
          assert rest[i] == groups[i + 1];
        }
      }
      assert groups[0] !! Union(rest);
    }
  }

  /** The sizes of the components of S add up to the number of ship cells. */
  lemma PartitionSizesSum(S: set<BoardPosition>, groups: seq<set<BoardPosition>>)
    requires IsComponentPartition(S, groups)
    ensures Sum(Sizes(groups)) == |S|
  {
    DisjointUnionSize(groups);
  }

  /** A legal fleet covers exactly 5 + 4 + 3 + 3 + 2 = 17 cells in 5 ships. */
  lemma FleetLegalSize(S: set<BoardPosition>)
    requires FleetLegal(S)
    ensures |S| == 17
    ensures forall groups :: IsComponentPartition(S, groups) ==> |groups| == |ShipsToPlace|
  {
    var groups :| LegalPartition(S, groups);
    PartitionSizesSum(S, groups);
    SumPermutation(Sizes(groups), ShipsToPlace);
    assert Sum(ShipsToPlace) == 17 by {
      assert ShipsToPlace[1..][1..][1..][1..][1..] == [];
    }
    forall other | IsComponentPartition(S, other) ensures |other| == |ShipsToPlace| {
      PartitionsArePermutations(S, groups, other);
      assert |multiset(Sizes(other))| == |Sizes(other)|;
      assert |multiset(ShipsToPlace)| == |ShipsToPlace|;
    }
  }

  /** A component takes in every ship cell touching it. */
  lemma ComponentClosed(S: set<BoardPosition>, a: BoardPosition)
    ensures Closed(S, Component(S, a))
  {
    forall q, r | q in Component(S, a) && r in S && Adjacent(q, r) ensures r in Component(S, a) {
      ConnectedStep(S, a, q, r);
    }
  }

  /** The cells of an unbroken row, from p rightwards to q, are connected. */
  lemma {:induction false} RowConnected(S: set<BoardPosition>, C: set<BoardPosition>, p: BoardPosition, q: BoardPosition)
    requires C <= S && IsRowSegment(C) && p in C && q in C && p.x <= q.x
    ensures Connected(S, p, q)
    decreases q.x - p.x
  {
    if p.x == q.x {
      assert IsPath(S, [p]);
    } else {
      var r: BoardPosition := if p.x == q.x - 1 then p else Pos(q.x - 1, p.y);
      assert r in C;
      RowConnected(S, C, p, r);
      ConnectedStep(S, p, r, q);
    }
  }

  /** The cells of an unbroken column, from p upwards to q, are connected. */
  lemma {:induction false} ColumnConnected(S: set<BoardPosition>, C: set<BoardPosition>, p: BoardPosition, q: BoardPosition)
    requires C <= S && IsColumnSegment(C) && p in C && q in C && p.y <= q.y
    ensures Connected(S, p, q)
    decreases q.y - p.y
  {
    if p.y == q.y {
      assert IsPath(S, [p]);
    } else {
      var r: BoardPosition := if p.y == q.y - 1 then p else Pos(p.x, q.y - 1);
      assert r in C;
      ColumnConnected(S, C, p, r);
      ConnectedStep(S, p, r, q);
    }
  }

  /** Any two cells of a straight line of ship cells are connected. */
  lemma LineConnected(S: set<BoardPosition>, C: set<BoardPosition>, p: BoardPosition, q: BoardPosition)
    requires C <= S && IsLine(C) && p in C && q in C
    ensures Connected(S, p, q)
  {
    if IsRowSegment(C) {
      if p.x <= q.x {
        RowConnected(S, C, p, q);
      } else {
        RowConnected(S, C, q, p);
        ConnectedSymmetric(S, q, p);
      }
    } else {
      if p.y <= q.y {
        ColumnConnected(S, C, p, q);
      } else {
        ColumnConnected(S, C, q, p);
        ConnectedSymmetric(S, q, p);
      }
    }
  }

  /**
   * The fleet as a player sees it: non-empty, straight, unbroken ships that
   * share no cell, cover every ship cell, never touch one another (diagonally
   * included) and have the required lengths.
   */
  ghost predicate ShipsApartLayout(S: set<BoardPosition>, groups: seq<set<BoardPosition>>) {
    && Union(groups) == S
    && (forall i, j :: 0 <= i < j < |groups| ==> groups[i] !! groups[j])
    && (forall i :: 0 <= i < |groups| ==> groups[i] != {} && IsLine(groups[i]))
    && (forall i, j, p, q :: 0 <= i < |groups| && 0 <= j < |groups| && i != j && p in groups[i] && q in groups[j] ==>
          !Adjacent(p, q))
    && multiset(Sizes(groups)) == multiset(ShipsToPlace)
  }

  /** No two ships of a legal fleet touch, diagonally included. */
  lemma LegalShipsApart(S: set<BoardPosition>, groups: seq<set<BoardPosition>>, i: int, j: int, p: BoardPosition, q: BoardPosition)
    requires LegalPartition(S, groups)
    requires 0 <= i < |groups| && 0 <= j < |groups| && i != j && p in groups[i] && q in groups[j]
    ensures !Adjacent(p, q)
  {
    assert IsComponentOf(S, groups[i]);
    var a :| a in S && groups[i] == Component(S, a);
    ComponentClosed(S, a);
    UnionMembers(groups, q);
    assert groups[i] !! groups[j] by {
      if i > j {
        assert groups[j] !! groups[i];
      }
    }
  }

  /** Ships laid out apart from each other are exactly the components of the ship cells. */
  lemma SeparatedGroupIsComponent(S: set<BoardPosition>, groups: seq<set<BoardPosition>>, i: int)
    requires ShipsApartLayout(S, groups) && 0 <= i < |groups|
    ensures IsComponentOf(S, groups[i])
  {
    var g := groups[i];
    var a :| a in g;
    UnionMembers(groups, a);
    assert g <= S by {
      forall c | c in g ensures c in S {
        UnionMembers(groups, c);
      }
    }
    forall c, r | c in g && r in S && Adjacent(c, r) ensures r in g {
      UnionMembers(groups, r);
      var k :| 0 <= k < |groups| && r in groups[k];
      assert k == i;
    }
    ClosedContainsComponent(S, g, a);
    forall c | c in g ensures c in Component(S, a) {
      LineConnected(S, g, a, c);
    }
  }

  /**
   * A legal fleet is, in both directions, a listing of ships laid out apart:
   * the algorithm's components are exactly the player's ships.
   */
  lemma LegalPartitionIsShipsApart(S: set<BoardPosition>, groups: seq<set<BoardPosition>>)
    ensures LegalPartition(S, groups) <==> ShipsApartLayout(S, groups)
  {
    if LegalPartition(S, groups) {
      PartitionDistinct(S, groups);
      forall i, j, p, q | 0 <= i < |groups| && 0 <= j < |groups| && i != j && p in groups[i] && q in groups[j]
        ensures !Adjacent(p, q)
      {
        LegalShipsApart(S, groups, i, j, p, q);
      }
    }
    if ShipsApartLayout(S, groups) {
      forall i | 0 <= i < |groups| ensures IsComponentOf(S, groups[i]) {
        SeparatedGroupIsComponent(S, groups, i);
      }
    }
  }

  /** A fleet is legal exactly when its ship cells can be listed as ships laid out apart. */
  lemma FleetLegalShipsApart(S: set<BoardPosition>)
    ensures FleetLegal(S) <==> exists groups :: ShipsApartLayout(S, groups)
  {
    forall groups ensures LegalPartition(S, groups) <==> ShipsApartLayout(S, groups) {
      LegalPartitionIsShipsApart(S, groups);
    }
  }

  /** A component that is not a straight line rules the fleet out. */
  lemma BentComponentIllegal(S: set<BoardPosition>, a: BoardPosition)
    requires a in S && !IsLine(Component(S, a))
    ensures !FleetLegal(S)
  {
    if FleetLegal(S) {
      var groups :| LegalPartition(S, groups);
      UnionMembers(groups, a);
      var i :| 0 <= i < |groups| && a in groups[i];
      assert IsComponentOf(S, groups[i]);
      var q :| q in S && groups[i] == Component(S, q);
      ComponentOfMember(S, q, a);
      assert false;
    }
  }

  /** Component sizes other than the required lengths rule the fleet out. */
  lemma WrongSizesIllegal(S: set<BoardPosition>, groups: seq<set<BoardPosition>>)
    requires IsComponentPartition(S, groups)
    requires multiset(Sizes(groups)) != multiset(ShipsToPlace)
    ensures !FleetLegal(S)
  {
    if FleetLegal(S) {
      var other :| LegalPartition(S, other);
      PartitionsArePermutations(S, groups, other);
      assert false;
    }
  }

  /** Components of S, listed without overlap: what getAllShipCellsGroups builds up. */
  ghost predicate ComponentList(S: set<BoardPosition>, found: seq<set<BoardPosition>>) {
    && (forall i :: 0 <= i < |found| ==> IsComponentOf(S, found[i]))
    && (forall i, j :: 0 <= i < j < |found| ==> found[i] !! found[j])
  }

  lemma {:induction false} UnionAppend(groups: seq<set<BoardPosition>>, g: set<BoardPosition>)
    ensures Union(groups + [g]) == Union(groups) + g
  {
    if groups == [] {
      assert [] + [g] == [g];
      assert [g][1..] == [];
    } else {
      assert (groups + [g])[1..] == groups[1..] + [g];
      UnionAppend(groups[1..], g);
    }
  }

  /** A cell listed in some component of the list has that component, so its own component is listed. */
  lemma ListedComponent(S: set<BoardPosition>, found: seq<set<BoardPosition>>, i: nat, p: BoardPosition)
    requires ComponentList(S, found) && i < |found| && p in found[i]
    ensures Component(S, p) == found[i]
  {
    assert IsComponentOf(S, found[i]);
    var q :| q in S && found[i] == Component(S, q);
    ComponentOfMember(S, q, p);
  }

  /** Appending the component of a cell not yet listed keeps the list free of overlap. */
  lemma AppendComponent(S: set<BoardPosition>, found: seq<set<BoardPosition>>, p: BoardPosition)
    requires ComponentList(S, found) && p in S
    requires forall i :: 0 <= i < |found| ==> p !in found[i]
    ensures ComponentList(S, found + [Component(S, p)])
    ensures Union(found + [Component(S, p)]) == Union(found) + Component(S, p)
  {
    var g := Component(S, p);
    var found' := found + [g];
    ConnectedSelf(S, p);
    forall i | 0 <= i < |found| ensures found[i] !! g {
      assert IsComponentOf(S, found[i]);
      var q :| q in S && found[i] == Component(S, q);
      ComponentsEqualOrDisjoint(S, q, p);
    }
    forall i, j | 0 <= i < j < |found'| ensures found'[i] !! found'[j] {
      if j < |found| {
        assert found'[i] == found[i] && found'[j] == found[j];
      } else {
        assert found'[i] == found[i] && found'[j] == g;
      }
    }
    forall i | 0 <= i < |found'| ensures IsComponentOf(S, found'[i]) {
      if i < |found| {
        assert found'[i] == found[i];
        assert IsComponentOf(S, found[i]);
      } else {
        assert found'[i] == g;
      }
    }
    UnionAppend(found, g);
  }

  lemma AppendLine(found: seq<set<BoardPosition>>, g: set<BoardPosition>)
    requires forall i :: 0 <= i < |found| ==> IsLine(found[i])
    requires IsLine(g)
    ensures forall i :: 0 <= i < |found + [g]| ==> IsLine((found + [g])[i])
  {
    forall i | 0 <= i < |found + [g]| ensures IsLine((found + [g])[i]) {
      if i < |found| {
        assert (found + [g])[i] == found[i];
      }
    }
  }

  /** When every listed component is a line, so is the component of every covered cell. */
  lemma PartitionLines(S: set<BoardPosition>, found: seq<set<BoardPosition>>)
    requires ComponentList(S, found) && Union(found) == S
    requires forall i :: 0 <= i < |found| ==> IsLine(found[i])
    ensures forall q :: q in S ==> IsLine(Component(S, q))
  {
    forall q | q in S ensures IsLine(Component(S, q)) {
      UnionMembers(found, q);
      var i :| 0 <= i < |found| && q in found[i];
      ListedComponent(S, found, i, q);
    }
  }

  // ---------------------------------------------------------------------------
  // The board object

  class Player {
    var ships: set<BoardPosition>
    var shots: set<BoardPosition>

    constructor ()
      ensures ships == {} && shots == {}
    {
      ships := {};
      shots := {};
    }

    /** hasShot: the set of shot keys holds p's key. */
    function HasShot(p: BoardPosition): (b: bool)
      reads this
      ensures b <==> ToString(p) in KeysOf(shots)
    {
      KeysOfMember(shots, p);
      p in shots
    }

    /** hasShipCell: the set of ship keys holds p's key. */
    function HasShipCell(p: BoardPosition): (b: bool)
      reads this
      ensures b <==> ToString(p) in KeysOf(ships)
    {
      KeysOfMember(ships, p);
      p in ships
    }

    /** placeShipCell: remove the ship cell at p if there is one, add it otherwise. */
    method PlaceShipCell(p: BoardPosition)
      modifies this
      ensures ships == Toggle(old(ships), p)
      ensures shots == old(shots)
    {
      if HasShipCell(p) {
        ships := ships - {p};
        return;
      }
      ships := ships + {p};
    }

    /** receiveShot: refuse a cell already shot; otherwise record the shot and report a hit. */
    method ReceiveShot(p: BoardPosition) returns (r: Result<bool, ShotError>)
      modifies this
      ensures old(p in shots) ==> r == Err(AlreadyShot(p)) && shots == old(shots)
      ensures old(p !in shots) ==> r == Ok(p in old(ships)) && shots == old(shots) + {p}
      ensures ships == old(ships)
      ensures old(shots) <= shots
    {
      if HasShot(p) {
        return Err(AlreadyShot(p));
      }
      shots := shots + {p};
      return Ok(HasShipCell(p));
    }

    /** countOfShipCellsAlive: none are left exactly when every ship cell has been shot. */
    function CountOfShipCellsAlive(): (n: nat)
      reads this
      ensures n <= |ships|
      ensures n == 0 <==> ships <= shots
    {
      CountAlive(ships, shots)
    }

    /**
     * The inner loop of the flood fill: pushes, in adjacency order, every
     * neighbour of current that is a ship cell not yet in the group.
     */
    method PushNewShipCells(current: BoardPosition, ship: set<BoardPosition>, stack: seq<BoardPosition>)
      returns (r: seq<BoardPosition>)
      ensures forall q :: q in stack ==> q in r
      ensures forall q :: q in r ==> q in stack || (q in ships && q !in ship && Adjacent(current, q))
      ensures forall a :: a in ships && a !in ship && Adjacent(current, a) ==> a in r
    {
      var adjacent := AdjacentPositions(current);
      AdjacentPositionsSpec(current);
      r := stack;
      for j := 0 to |adjacent|
        invariant forall q :: q in stack ==> q in r
        invariant forall q :: q in r ==> q in stack || (q in ships && q !in ship && Adjacent(current, q))
        invariant forall k :: 0 <= k < j && adjacent[k] in ships && adjacent[k] !in ship ==> adjacent[k] in r
      {
        var adj := adjacent[j];
        if HasShipCell(adj) && adj !in ship {
          r := r + [adj];
        }
      }
    }

    /**
     * The flood fill of getShipCellsGroup: starting from start, collects every
     * ship cell reachable through touching ship cells, in insertion order.
     */
    method CollectShipCells(start: BoardPosition) returns (ship: set<BoardPosition>, order: seq<BoardPosition>)
      ensures ship == Component(ships, start)
      ensures Elements(order) == ship && Distinct(order)
    {
      ship := {};
      order := [];
      var navigationStack: seq<BoardPosition> := [start];
      while |navigationStack| > 0
        invariant ship <= ships
        invariant Elements(order) == ship && Distinct(order)
        invariant forall q :: q in ship ==> Connected(ships, start, q)
        invariant forall q :: q in navigationStack && q in ships ==> Connected(ships, start, q)
        invariant start in ships ==> start in ship || start in navigationStack
        invariant Frontier(ships, ship, navigationStack)
        decreases |ships - ship|, |navigationStack|
      {
        ghost var stack := navigationStack;
        var current := navigationStack[|navigationStack| - 1];
        navigationStack := navigationStack[..|navigationStack| - 1];
        PopMembers(stack);
        if !(HasShipCell(current) && current !in ship) {
          FrontierSkip(ships, ship, stack);
          continue;
        }
        VisitShrinks(ships, ship, current);
        AppendFresh(order, current);
        var pushed := PushNewShipCells(current, ship + {current}, navigationStack);
        FrontierVisit(ships, ship, stack, pushed);
        forall q | q in pushed && q in ships && q !in navigationStack ensures Connected(ships, start, q) {
          ConnectedStep(ships, start, current, q);
        }
        ship := ship + {current};
        order := order + [current];
        navigationStack := pushed;
      }
      FloodFillComplete(ships, start, ship);
    }

    /**
     * getShipCellsGroup: collect, by an explicit stack, the cells reachable from
     * start through touching ship cells, and refuse the group unless it is in line.
     */
    method GetShipCellsGroup(start: BoardPosition) returns (r: Result<set<BoardPosition>, FleetError>)
      ensures r.Ok? <==> IsLine(Component(ships, start))
      ensures r.Ok? ==> r.value == Component(ships, start)
      ensures r.Err? ==> r.error == NotInLine(start)
    {
      var ship, order := CollectShipCells(start);
      AreInLineStringsOfKeys(order);
      AreInLineSpec(order);
      var inLine := AreInLineStrings(Keys(order));
      if !inLine.value {
        return Err(NotInLine(start));
      }
      return Ok(ship);
    }

    /**
     * getAllShipCellsGroups: walk the ship cells, skip those already in a found
     * group, and flood-fill a new group from each of the others; the first group
     * that is not in line aborts the walk.
     */
    method GetAllShipCellsGroups() returns (r: Result<seq<set<BoardPosition>>, FleetError>)
      ensures r.Ok? <==> forall q :: q in ships ==> IsLine(Component(ships, q))
      ensures r.Ok? ==> IsComponentPartition(ships, r.value)
      ensures r.Ok? ==> forall i :: 0 <= i < |r.value| ==> IsLine(r.value[i])
      ensures r.Err? ==> r.error.NotInLine? && r.error.at in ships && !IsLine(Component(ships, r.error.at))
    {
      var shipsFound: seq<set<BoardPosition>> := [];
      var remaining := ships;  // the cells the for-of loop has not reached yet
      while remaining != {}
        invariant remaining <= ships
        invariant ComponentList(ships, shipsFound)
        invariant forall i :: 0 <= i < |shipsFound| ==> IsLine(shipsFound[i])
        invariant Union(shipsFound) <= ships
        invariant forall q :: q in ships && q !in remaining ==> q in Union(shipsFound)
        decreases |remaining|
      {
        var cell :| cell in remaining;
        RemoveShrinks(remaining, cell);
        remaining := remaining - {cell};
        if exists i :: 0 <= i < |shipsFound| && cell in shipsFound[i] {
          UnionMembers(shipsFound, cell);
          continue;
        }
        FromStringToString(cell);
        var position := FromString(ToString(cell));
        var ship := GetShipCellsGroup(position.value);
        if ship.Err? {
          return Err(ship.error);
        }
        AppendComponent(ships, shipsFound, cell);
        AppendLine(shipsFound, ship.value);
        ConnectedSelf(ships, cell);
        shipsFound := shipsFound + [ship.value];
      }
      PartitionLines(ships, shipsFound);
      return Ok(shipsFound);
    }

    /**
     * validateShips: the fleet is accepted exactly when the ship cells split into
     * straight components whose sizes are the required ship lengths.
     */
    method ValidateShips() returns (r: Validation)
      ensures ships == {} ==> r == Invalid(NoShipsPlaced)
      ensures r.Valid? <==> FleetLegal(ships)
      ensures r.Valid? ==> |ships| == 17
      ensures r.Invalid? && r.reason.NotInLine? ==>
                r.reason.at in ships && !IsLine(Component(ships, r.reason.at))
      ensures r.Invalid? && r.reason.WrongShipCount? ==>
                && r.reason.expected == |ShipsToPlace| != r.reason.found
                && forall groups :: IsComponentPartition(ships, groups) ==> |groups| == r.reason.found
      ensures r.Invalid? && r.reason.WrongLengths? ==>
                forall groups :: IsComponentPartition(ships, groups) ==> multiset(Sizes(groups)) != multiset(ShipsToPlace)
      ensures r == Invalid(NoShipsPlaced) <==> ships == {}
      ensures ships != {} && (exists q :: q in ships && !IsLine(Component(ships, q))) ==>
                r.Invalid? && r.reason.NotInLine?
      ensures && ships != {}
              && (forall q :: q in ships ==> IsLine(Component(ships, q)))
              && (forall groups :: IsComponentPartition(ships, groups) ==> |groups| != |ShipsToPlace|)
              ==> r.Invalid? && r.reason.WrongShipCount?
      ensures && ships != {}
              && (forall q :: q in ships ==> IsLine(Component(ships, q)))
              && (forall groups :: IsComponentPartition(ships, groups) ==> |groups| == |ShipsToPlace|)
              && !FleetLegal(ships)
              ==> r == Invalid(WrongLengths)
    {
      if |ships| == 0 && |ShipsToPlace| != 0 {
        assert ShipsToPlace[0] in multiset(ShipsToPlace);
        WrongSizesIllegal(ships, []);
        return Invalid(NoShipsPlaced);
      }
      var shipsFound := GetAllShipCellsGroups();
      if shipsFound.Err? {
        BentComponentIllegal(ships, shipsFound.error.at);
        return Invalid(shipsFound.error);
      }
      var groups := shipsFound.value;
      if |groups| != |ShipsToPlace| {
        assert |multiset(Sizes(groups))| != |multiset(ShipsToPlace)|;
        WrongSizesIllegal(ships, groups);
        PartitionUnique(ships, groups);
        return Invalid(WrongShipCount(|ShipsToPlace|, |groups|));
      }
      if multiset(Sizes(groups)) != multiset(ShipsToPlace) {
        WrongSizesIllegal(ships, groups);
        PartitionUnique(ships, groups);
        return Invalid(WrongLengths);
      }
      assert LegalPartition(ships, groups);
      FleetLegalSize(ships);
      return Valid;
    }
  }
}
