/** The grid world (GridMDP): a process built from a rectangular grid of rewards, where an
    absent entry is a wall. The rows are reversed first, so that row 0 is the bottom row and
    y grows upward; states are the (x, y) cells that are not walls; the four headings are
    the actions; the intended move succeeds with probability 0.8 and the moves turned right
    and turned left happen with probability 0.1 each; a move into a wall or off the grid
    leaves the agent where it is. */
module GridWorld {
  import opened Wrappers
  import opened Geometry
  import opened MarkovDecision
  import TerminalAware

  /** A grid coordinate (x, y). */
  type Cell = Vec

  /** One row of the grid as authored: a reward, or None for a wall. */
  type Row = seq<Option<real>>

  const DEFAULT_INIT: Cell := (0, 0)

  /** The grid world's shared action list: the four headings, in ORIENTATIONS order. */
  const GRID_ACTIONS: seq<Action<Vec>> := [Act(EAST), Act(NORTH), Act(WEST), Act(SOUTH)]

  datatype GridMdp = GridMdp(base: Mdp<Cell, Vec>, rows: nat, cols: nat, grid: seq<Row>)

  function MapGet<K, V>(m: map<K, V>, k: K): Option<V>
  {
    if k in m then Some(m[k]) else None
  }

  /** The rows in the opposite order. */
  function Reversed<T>(s: seq<T>): (r: seq<T>)
    ensures |r| == |s|
    ensures forall i :: 0 <= i < |s| ==> r[i] == s[|s| - 1 - i]
  {
    if s == [] then [] else Reversed(s[1..]) + [s[0]]
  }

  /** A cell that is not a wall. */
  predicate Traversable(c: Option<real>)
  {
    c.Some?
  }

  /** Every row has at least `cols` entries, so every cell below `cols` can be read. */
  predicate CoversColumns(g: seq<Row>, cols: nat)
  {
    forall y :: 0 <= y < |g| ==> cols <= |g[y]|
  }

  /** The non-wall cells of the (already reversed) grid. */
  function GridStates(g: seq<Row>, cols: nat): set<Cell>
    requires CoversColumns(g, cols)
  {
    set x: int, y: int | 0 <= x < cols && 0 <= y < |g| && Traversable(g[y][x]) :: (x, y)
  }

  lemma InGridStates(g: seq<Row>, cols: nat, c: Cell)
    requires CoversColumns(g, cols)
    ensures c in GridStates(g, cols) <==> 0 <= c.0 < cols && 0 <= c.1 < |g| && Traversable(g[c.1][c.0])
  {
    if 0 <= c.0 < cols && 0 <= c.1 < |g| && Traversable(g[c.1][c.0]) {
      assert c == (c.0, c.1);
    }
  }

  /** The reward of each non-wall cell: the value stored at that cell. */
  function GridRewards(g: seq<Row>, cols: nat): map<Cell, real>
    requires CoversColumns(g, cols)
  {
    map c | c in GridStates(g, cols) :: (InGridStates(g, cols, c); g[c.1][c.0].value)
  }

  /** go: the neighbour in direction d when it is a state, else the agent stays at s. */
  function Go(states: set<Cell>, s: Cell, d: Vec): (r: Cell)
    ensures VectorAdd(s, d) in states ==> r == VectorAdd(s, d)
    ensures VectorAdd(s, d) !in states ==> r == s
    ensures s in states ==> r in states
  {
    var s1 := VectorAdd(s, d);
    if s1 in states then s1 else s
  }

  /** calculate_T: for a heading, the 0.8 / 0.1 / 0.1 outcomes of moving as intended,
      turned right and turned left; for the "no action" marker, a zero-weight self-loop. */
  function CalculateT(states: set<Cell>, s: Cell, a: Action<Vec>): (r: seq<Outcome<Cell>>)
    ensures a.Act? ==>
      && |r| == 3
      && r[0] == Outcome(0.8, Go(states, s, a.a))
      && r[1] == Outcome(0.1, Go(states, s, TurnRight(a.a)))
      && r[2] == Outcome(0.1, Go(states, s, TurnLeft(a.a)))
    ensures a.Act? ==> SumProbs(r) == 1.0
    ensures a == NoAction ==> r == [Outcome(0.0, s)]
    ensures s in states ==> forall k :: 0 <= k < |r| ==> r[k].next in states
  {
    if a.Act? then
      var r := [Outcome(0.8, Go(states, s, a.a)),
                Outcome(0.1, Go(states, s, TurnRight(a.a))),
                Outcome(0.1, Go(states, s, TurnLeft(a.a)))];
      SumProbsOfThree(r[0], r[1], r[2]);
      r
    else
      [Outcome(0.0, s)]
  }

  lemma SumProbsOfThree<S>(o0: Outcome<S>, o1: Outcome<S>, o2: Outcome<S>)
    ensures SumProbs([o0, o1, o2]) == o0.prob + o1.prob + o2.prob
  {
    var r := [o0, o1, o2];
    assert r[..2] == [o0, o1] && [o0, o1][..1] == [o0] && [o0][..0] == [];
    assert SumProbs([o0]) == o0.prob;
    assert SumProbs([o0, o1]) == SumProbs([o0]) + o1.prob;
    assert SumProbs(r) == SumProbs([o0, o1]) + o2.prob;
  }

  /** The transition row of one state: every heading, each with calculate_T's outcomes. */
  function GridRow(states: set<Cell>, s: Cell): map<Action<Vec>, seq<Outcome<Cell>>>
  {
    map a | a in GRID_ACTIONS :: CalculateT(states, s, a)
  }

  function GridTransitions(states: set<Cell>): Table<Cell, Vec>
  {
    map s | s in states :: GridRow(states, s)
  }

  /** The whole GridMDP constructor on the grid as the caller authored it: reverse the rows;
      an empty grid or a row shorter than the (new) first row is an index error; then the
      base constructor with the collected states, rewards and transitions. */
  function GridSpec(authored: seq<Row>, terminals: set<Cell>, init: Cell, gamma: real): (r: Result<GridMdp, Error>)
    ensures authored == [] ==> r == Err(EmptyGrid)
    ensures authored != [] && !CoversColumns(authored, |authored[|authored| - 1]|) ==> r == Err(RaggedGrid)
    ensures r.Ok? <==>
      authored != [] && CoversColumns(authored, |authored[|authored| - 1]|) && ValidGamma(gamma)
    ensures r.Ok? ==>
      && r.value.rows == |authored| && r.value.cols == |authored[|authored| - 1]|
      && r.value.grid == Reversed(authored) && r.value.base.gamma == gamma
      && r.value.base.init == init && r.value.base.terminals == terminals
  {
    var g := Reversed(authored);
    if |g| == 0 then Err(EmptyGrid)
    else
      var cols := |g[0]|;
      assert CoversColumns(g, cols) <==> CoversColumns(authored, cols) by {
        if CoversColumns(authored, cols) {
          forall y | 0 <= y < |g| ensures cols <= |g[y]| {
            assert g[y] == authored[|g| - 1 - y];
          }
        }
        if CoversColumns(g, cols) {
          forall y | 0 <= y < |g| ensures cols <= |authored[y]| {
            assert g[|g| - 1 - y] == authored[y];
          }
        }
      }
      if !CoversColumns(g, cols) then Err(RaggedGrid)
      else
        var states := GridStates(g, cols);
        var base := NewMdp(init, Shared(GRID_ACTIONS), terminals, Some(GridTransitions(states)),
                           Some(GridRewards(g, cols)), Some(states), gamma);
        match base
        case Err(e) => Err(e)
        case Ok(m) => Ok(GridMdp(m, |g|, cols, g))
  }

  /** grid.reverse(): reverses the caller's list of rows in place. */
  method ReverseRows(grid: array<Row>)
    modifies grid
    ensures grid[..] == Reversed(old(grid[..]))
  {
    var n := grid.Length;
    var lo, hi := 0, n - 1;
    while lo < hi
      invariant 0 <= lo <= hi + 1 <= n && lo + hi == n - 1
      invariant forall k :: 0 <= k < lo ==> grid[k] == old(grid[n - 1 - k]) && grid[n - 1 - k] == old(grid[k])
      invariant forall k :: lo <= k <= hi ==> grid[k] == old(grid[k])
    {
      grid[lo], grid[hi] := grid[hi], grid[lo];
      lo, hi := lo + 1, hi - 1;
    }
    ghost var authored := old(grid[..]);
    assert forall k :: 0 <= k < n ==> grid[..][k] == Reversed(authored)[k];
  }

  /** The nested loop over columns and rows that collects the non-wall cells and their
      rewards. */
  method CollectCells(g: seq<Row>, cols: nat) returns (states: set<Cell>, reward: map<Cell, real>)
    requires CoversColumns(g, cols)
    ensures states == GridStates(g, cols)
    ensures reward == GridRewards(g, cols)
  {
    states, reward := {}, map[];
    for x := 0 to cols
      invariant forall c :: c in states <==> 0 <= c.0 < x && 0 <= c.1 < |g| && Traversable(g[c.1][c.0])
      invariant reward.Keys == states
      invariant forall c :: c in reward ==>
        0 <= c.0 < cols && 0 <= c.1 < |g| && Traversable(g[c.1][c.0]) && reward[c] == g[c.1][c.0].value
    {
      for y := 0 to |g|
        invariant forall c :: c in states <==>
          0 <= c.0 && 0 <= c.1 < |g| && (c.0 < x || (c.0 == x && c.1 < y)) && Traversable(g[c.1][c.0])
        invariant reward.Keys == states
        invariant forall c :: c in reward ==>
          0 <= c.0 < cols && 0 <= c.1 < |g| && Traversable(g[c.1][c.0]) && reward[c] == g[c.1][c.0].value
      {
        if Traversable(g[y][x]) {
          states := states + {(x, y)};
          reward := reward[(x, y) := g[y][x].value];
        }
      }
    }
    forall c ensures c in states <==> c in GridStates(g, cols) {
      InGridStates(g, cols, c);
    }
  }

  /** The nested loop over states and headings that fills the transition table. */
  method FillTransitions(states: set<Cell>) returns (t: Table<Cell, Vec>)
    ensures t == GridTransitions(states)
  {
    t := map[];
    var pending := states;
    while pending != {}
      invariant pending <= states
      invariant t.Keys == states - pending
      invariant forall s :: s in t ==> t[s] == GridRow(states, s)
      decreases pending
    {
      var s :| s in pending;
      var row := map[];
      for i := 0 to |GRID_ACTIONS|
        invariant forall a :: a in row <==> a in GRID_ACTIONS[..i]
        invariant forall a :: a in row ==> row[a] == CalculateT(states, s, a)
      {
        row := row[GRID_ACTIONS[i] := CalculateT(states, s, GRID_ACTIONS[i])];
      }
      assert GRID_ACTIONS[..|GRID_ACTIONS|] == GRID_ACTIONS;
      t := t[s := row];
      pending := pending - {s};
    }
  }

  /** GridMDP.__init__: reverses the caller's rows in place and builds the process. */
  method NewGridMdp(grid: array<Row>, terminals: set<Cell>, init: Cell, gamma: real) returns (r: Result<GridMdp, Error>)
    modifies grid
    ensures grid[..] == Reversed(old(grid[..]))
    ensures r == GridSpec(old(grid[..]), terminals, init, gamma)
  {
    ReverseRows(grid);
    var g := grid[..];
    if grid.Length == 0 {
      return Err(EmptyGrid);
    }
    var rows, cols := grid.Length, |grid[0]|;
    if !CoversColumns(g, cols) {
      return Err(RaggedGrid);
    }
    var states, reward := CollectCells(g, cols);
    var transitions := FillTransitions(states);
    var base := NewMdp(init, Shared(GRID_ACTIONS), terminals, Some(transitions), Some(reward), Some(states), gamma);
    match base
    case Err(e) =>
      r := Err(e);
    case Ok(m) =>
      r := Ok(GridMdp(m, rows, cols, g));
  }

  /** GridMDP's T: a table lookup for a heading; the zero-weight self-loop on the queried
      state for the "no action" marker. */
  function GridT(gm: GridMdp, s: Cell, a: Action<Vec>): (r: Result<seq<Outcome<Cell>>, Error>)
    ensures a == NoAction ==> r == Ok([Outcome(0.0, s)])
    ensures a.Act? ==> (r.Ok? <==> s in gm.base.transitions && a in gm.base.transitions[s])
    ensures a.Act? && r.Ok? ==> r.value == gm.base.transitions[s][a]
  {
    var t := gm.base.transitions;
    if a == NoAction then Ok([Outcome(0.0, s)])
    else if s !in t then Err(UnknownState)
    else if a !in t[s] then Err(UnknownAction)
    else Ok(t[s][a])
  }

  /** to_grid: a state-indexed table laid out in the grid's shape as authored, row 0 on
      top, with None where the table has no entry. */
  function ToGrid<V>(gm: GridMdp, mapping: map<Cell, V>): (r: seq<seq<Option<V>>>)
    ensures |r| == gm.rows
    ensures forall i :: 0 <= i < |r| ==> |r[i]| == gm.cols
    ensures forall i, x :: 0 <= i < gm.rows && 0 <= x < gm.cols ==> r[i][x] == MapGet(mapping, (x, gm.rows - 1 - i))
  {
    Reversed(seq(gm.rows, y requires 0 <= y < gm.rows =>
      seq(gm.cols, x requires 0 <= x < gm.cols => MapGet(mapping, (x, y)))))
  }

  /** The parts of a built grid world, in terms of its reversed grid. */
  lemma GridSpecParts(authored: seq<Row>, terminals: set<Cell>, init: Cell, gamma: real)
    requires GridSpec(authored, terminals, init, gamma).Ok?
    ensures var gm := GridSpec(authored, terminals, init, gamma).value;
      && CoversColumns(gm.grid, gm.cols)
      && gm.grid == Reversed(authored) && gm.rows == |gm.grid|
      && gm.base.states == GridStates(gm.grid, gm.cols)
      && gm.base.reward == GridRewards(gm.grid, gm.cols)
      && gm.base.transitions == GridTransitions(gm.base.states)
      && gm.base.actions == Shared(GRID_ACTIONS)
  {
  }

  /** The states of a built grid world are exactly the non-wall cells of the grid as the
      caller authored it, read with y counted from the bottom row, and each state's reward is
      the value written in its cell. */
  lemma GridStatesOfAuthored(authored: seq<Row>, terminals: set<Cell>, init: Cell, gamma: real)
    requires GridSpec(authored, terminals, init, gamma).Ok?
    ensures var gm := GridSpec(authored, terminals, init, gamma).value;
      forall x, y :: (x, y) in gm.base.states <==>
        0 <= x < gm.cols && 0 <= y < gm.rows && authored[gm.rows - 1 - y][x].Some?
    ensures var gm := GridSpec(authored, terminals, init, gamma).value;
      && gm.base.reward.Keys == gm.base.states
      && forall c :: c in gm.base.reward ==>
        0 <= c.0 < gm.cols && 0 <= c.1 < gm.rows && authored[gm.rows - 1 - c.1][c.0] == Some(gm.base.reward[c])
  {
    var gm := GridSpec(authored, terminals, init, gamma).value;
    var g := Reversed(authored);
    forall x, y ensures (x, y) in gm.base.states <==>
      0 <= x < gm.cols && 0 <= y < gm.rows && authored[gm.rows - 1 - y][x].Some?
    {
      InGridStates(g, gm.cols, (x, y));
    }
    forall c | c in gm.base.reward
      ensures 0 <= c.0 < gm.cols && 0 <= c.1 < gm.rows && authored[gm.rows - 1 - c.1][c.0] == Some(gm.base.reward[c])
    {
      InGridStates(g, gm.cols, c);
    }
  }

  /** In the table built for any state set, no outcome leaves the state set. */
  lemma GridSuccessorsAreKeys(states: set<Cell>)
    ensures GridTransitions(states).Keys == states
    ensures SuccessorsAreKeys(GridTransitions(states))
  {
    var t: Table<Cell, Vec> := GridTransitions(states);
    forall s1, a, k | s1 in t && a in t[s1] && 0 <= k < |t[s1][a]| ensures t[s1][a][k].next in t {
      assert t[s1][a] == CalculateT(states, s1, a);
    }
  }

  /** Deriving the states from the built table gives back the state set. */
  lemma GridDerivedStates(states: set<Cell>)
    ensures DerivedStates(GridTransitions(states)) == states
  {
    GridSuccessorsAreKeys(states);
    DerivedStatesAreKeysIff(GridTransitions(states));
  }

  /** Every (state, heading) distribution of the built table sums to 1. */
  lemma GridDistributionsSumToOne(states: set<Cell>)
    ensures DistributionsSumToOne(GridTransitions(states))
  {
    var t: Table<Cell, Vec> := GridTransitions(states);
    forall s1 | s1 in t ensures RowSumsToOne(t[s1]) {
      forall a | a in t[s1] ensures SumsToOne(t[s1][a]) {
        assert t[s1][a] == CalculateT(states, s1, a);
      }
    }
  }

  /** The built table's row for a state: exactly the four headings, each with
      calculate_T's outcomes. */
  lemma GridRowShape(states: set<Cell>, s: Cell)
    requires s in states
    ensures var t := GridTransitions(states);
      && s in t
      && (forall a :: a in t[s] <==> a in GRID_ACTIONS)
      && (forall d :: d in ORIENTATIONS ==> Act(d) in t[s] && t[s][Act(d)] == CalculateT(states, s, Act(d)))
      && (forall d :: d !in ORIENTATIONS ==> Act(d) !in t[s])
  {
  }

  /** Every state of a built grid world has a row for exactly the four headings; each
      heading's outcome list is calculate_T's 0.8 / 0.1 / 0.1 list, sums to 1 and stays among
      the states; any other heading is an unknown action. */
  lemma GridTransitionsShape(authored: seq<Row>, terminals: set<Cell>, init: Cell, gamma: real, s: Cell)
    requires GridSpec(authored, terminals, init, gamma).Ok?
    requires s in GridSpec(authored, terminals, init, gamma).value.base.states
    ensures var gm := GridSpec(authored, terminals, init, gamma).value;
      && s in gm.base.transitions
      && (forall a :: a in gm.base.transitions[s] <==> a in GRID_ACTIONS)
      && (forall d :: d in ORIENTATIONS ==>
            && GridT(gm, s, Act(d)) == Ok(CalculateT(gm.base.states, s, Act(d)))
            && |GridT(gm, s, Act(d)).value| == 3
            && SumProbs(GridT(gm, s, Act(d)).value) == 1.0
            && forall k :: 0 <= k < 3 ==> GridT(gm, s, Act(d)).value[k].next in gm.base.states)
      && (forall d :: d !in ORIENTATIONS ==> GridT(gm, s, Act(d)) == Err(UnknownAction))
  {
    GridSpecParts(authored, terminals, init, gamma);
    var gm := GridSpec(authored, terminals, init, gamma).value;
    GridRowShape(gm.base.states, s);
    forall d | d in ORIENTATIONS
      ensures GridT(gm, s, Act(d)) == Ok(CalculateT(gm.base.states, s, Act(d)))
    {
    }
  }

  /** A built grid world passes every check of the consistency check except possibly the
      two that depend on the caller's arguments: it is consistent exactly when the initial
      cell and all terminal cells are states. */
  lemma GridConsistencyIff(authored: seq<Row>, terminals: set<Cell>, init: Cell, gamma: real)
    requires GridSpec(authored, terminals, init, gamma).Ok?
    ensures var m := GridSpec(authored, terminals, init, gamma).value.base;
      Consistent(m) <==> init in m.states && terminals <= m.states
  {
    GridSpecParts(authored, terminals, init, gamma);
    var m := GridSpec(authored, terminals, init, gamma).value.base;
    GridDerivedStates(m.states);
    GridDistributionsSumToOne(m.states);
  }

  /** The offered actions: the four headings in a non-terminal state, only the marker in a
      terminal one. */
  lemma GridActionsOffered(authored: seq<Row>, terminals: set<Cell>, init: Cell, gamma: real, s: Cell)
    requires GridSpec(authored, terminals, init, gamma).Ok?
    ensures var m := GridSpec(authored, terminals, init, gamma).value.base;
      && Actions(m, s) == (if s in terminals then Shared([NoAction]) else Shared(GRID_ACTIONS))
      && ActionsAt(m, s) == Ok(if s in terminals then [NoAction] else GRID_ACTIONS)
  {
  }

  /** With the marker the grid world and MDP2 give the same placeholder: a zero-weight
      self-loop on the queried state. */
  lemma PlaceholdersAgree(gm: GridMdp, s: Cell)
    ensures GridT(gm, s, NoAction) == TerminalAware.Mdp2T(gm.base, s, NoAction)
    ensures GridT(gm, s, NoAction) == Ok(TerminalAware.Placeholder(s))
  {
  }

  /** to_grid of the reward table gives back the grid exactly as the caller authored it
      (before the in-place reversal), None at the walls, when every row has the same length. */
  lemma ToGridRoundTrip(authored: seq<Row>, terminals: set<Cell>, init: Cell, gamma: real)
    requires GridSpec(authored, terminals, init, gamma).Ok?
    requires forall i :: 0 <= i < |authored| ==> |authored[i]| == |authored[0]|
    ensures var gm := GridSpec(authored, terminals, init, gamma).value;
      ToGrid(gm, gm.base.reward) == authored
  {
    var gm := GridSpec(authored, terminals, init, gamma).value;
    var out := ToGrid(gm, gm.base.reward);
    var g := Reversed(authored);
    forall i | 0 <= i < |authored| ensures out[i] == authored[i] {
      forall x | 0 <= x < gm.cols ensures out[i][x] == authored[i][x] {
        var y := gm.rows - 1 - i;
        assert g[y] == authored[i];
        InGridStates(g, gm.cols, (x, y));
      }
    }
  }

  lemma MapsAgreeingOnGetAreEqual<K, V>(m1: map<K, V>, m2: map<K, V>)
    requires forall k :: k in m1 || k in m2 ==> MapGet(m1, k) == MapGet(m2, k)
    ensures m1 == m2
  {
    assert forall k :: k in m1 <==> k in m2 by {
      forall k ensures k in m1 <==> k in m2 {
        if k in m1 || k in m2 { assert MapGet(m1, k) == MapGet(m2, k); }
      }
    }
  }

  /** to_grid puts the entry of in-grid cell c at row rows - 1 - c.1, column c.0. */
  lemma ToGridAt<V>(gm: GridMdp, m: map<Cell, V>, c: Cell)
    requires 0 <= c.0 < gm.cols && 0 <= c.1 < gm.rows
    ensures ToGrid(gm, m)[gm.rows - 1 - c.1][c.0] == MapGet(m, c)
  {
  }

  /** Within the grid's bounds to_grid loses nothing: two tables over in-grid cells with the
      same to_grid are the same table. */
  lemma ToGridDeterminesMapping<V>(gm: GridMdp, m1: map<Cell, V>, m2: map<Cell, V>)
    requires forall c :: c in m1 ==> 0 <= c.0 < gm.cols && 0 <= c.1 < gm.rows
    requires forall c :: c in m2 ==> 0 <= c.0 < gm.cols && 0 <= c.1 < gm.rows
    requires ToGrid(gm, m1) == ToGrid(gm, m2)
    ensures m1 == m2
  {
    forall c | c in m1 || c in m2 ensures MapGet(m1, c) == MapGet(m2, c) {
      ToGridAt(gm, m1, c);
      ToGridAt(gm, m2, c);
    }
    MapsAgreeingOnGetAreEqual(m1, m2);
  }

  /** The cell test exactly as the source writes it: Python's truth test on the cell, which
      is false for a wall (None) and also for a reward of 0. */
  predicate KeptAsWritten(c: Option<real>)
  {
    c.Some? && c.value != 0.0
  }

  /** The states the source's loop actually collects: never more than the non-wall cells. */
  function GridStatesAsWritten(g: seq<Row>, cols: nat): (r: set<Cell>)
    requires CoversColumns(g, cols)
    ensures r <= GridStates(g, cols)
    ensures forall c :: c in GridStates(g, cols) && c !in r ==> g[c.1][c.0] == Some(0.0)
  {
    var r := set x: int, y: int | 0 <= x < cols && 0 <= y < |g| && KeptAsWritten(g[y][x]) :: (x, y);
    forall c | c in r ensures c in GridStates(g, cols) {
      InGridStates(g, cols, c);
    }
    forall c | c in GridStates(g, cols) && c !in r ensures g[c.1][c.0] == Some(0.0) {
      InGridStates(g, cols, c);
    }
    r
  }

  /** A single open cell with reward 0: the source's loop drops it, although only None is
      meant to mark a wall. */
  lemma ZeroRewardCellDropped()
    ensures GridStatesAsWritten([[Some(0.0)]], 1) == {}
    ensures GridStates([[Some(0.0)]], 1) == {(0, 0)}
  {
    var g: seq<Row> := [[Some(0.0)]];
    forall c ensures c in GridStates(g, 1) <==> c == (0, 0) {
      InGridStates(g, 1, c);
    }
  }
}
