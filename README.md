# Markov Decision Process model (mdp.py)

A Dafny model of `mdp.py`, a small Markov Decision Process library. It has three parts:

- **`MDP`** holds an initial state, the actions (one list shared by all states, or one list per state), the terminal states, a transition table and a reward table. The transition table maps each state and action to a list of (probability, successor) pairs. `MDP` also holds the state set and a discount factor `gamma`. Its constructor rejects a `gamma` outside (0, 1]. It takes the state set as given or derives it from the transition table, and gives every state reward 0 when no reward table is given. It answers `R(s)`, `T(s, a)` and `actions(s)`, and its consistency check asserts that the tables fit together.
- **`MDP2`** is the same process, but its `T` answers the "no action" marker (Python's `None`, offered in terminal states) with a zero-probability self-loop.
- **`GridMDP`** builds the process from a grid of rewards in which `None` marks a wall. It first reverses the caller's list of rows in place, so that row 0 is the bottom row. Its states are the non-wall `(x, y)` cells and its actions are the four headings. A move goes the intended way with probability 0.8, and turned right or turned left with probability 0.1 each. A move into a wall or off the grid leaves the agent in place. `to_grid` lays a state-indexed table back out in the grid's authored shape.

Modules:

- `Wrappers` (wrappers.dfy): `Option` and `Result`.
- `Geometry` (geometry.dfy): vector addition, the headings and the turns.
- `MarkovDecision` (mdp.dfy): the base process.
- `TerminalAware` (terminal_mdp.dfy): `MDP2`.
- `GridWorld` (grid_mdp.dfy): `GridMDP`.
- `Scenarios` (scenarios.dfy): concrete cases.

How each part of the source is modelled:

- **The base process is a value.** `MDP` objects are never changed after construction. So `Mdp` is a datatype, and the constructor is the function `NewMdp`. It returns `Ok` of the process, or `Err` of the exception the source raises.
- **The consistency check is a method.** `CheckConsistency` loops over the table's states, then each state's actions, and adds up each outcome list's probabilities in a third loop. It is proved to pass exactly when the predicate `Consistent` holds. When it fails, it names the first assertion that fails.
- **The grid-world constructor is a method.** `NewGridMdp` reverses the caller's `array` of rows in place (`ReverseRows`). It then collects the states and rewards in a nested loop over columns and rows (`CollectCells`), and fills the transition table in a nested loop over states and headings (`FillTransitions`). It is proved equal to the pure description `GridSpec`, and the lemmas about the built process are stated on `GridSpec`.
- **Types.** Probabilities and rewards are exact reals. Base states and actions are type parameters. Grid cells and headings are integer pairs. The "no action" marker is `NoAction` of `Action<A>`.

Notes on the source text, and how the model reads it:

- mdp.py:28 reads `self.states = = states or …`, which does not parse. The model takes it as the evident assignment.
- mdp.py:73 calls `transitions.key()`, which does not exist. The model uses the table's keys (`DerivedStates`).
- mdp.py:34 and 38 store the action list in an instance attribute `actions`. That attribute hides the method `actions(s)` of mdp.py:62. In the model, `Actions` and the `actions` field are separate.
- When the actions were given as a per-state dictionary, `actions(s)` (mdp.py:69) returns the whole dictionary, not the list for `s` that its docstring promises (see Findings). `Actions` models the code as written and `ActionsAt` the documented behaviour; the grid world and MDP2 lemmas use `ActionsAt`, and for a shared list the two agree.
- mdp.py:157 refers to an undefined `state`. The model uses the queried state `s`.
- mdp.py:115 returns the 3-tuple `(0,0,s)`, where every other outcome is a pair. The model reads it as the pair `(0.0, s)`. The two placeholders then agree: `GridWorld.PlaceholdersAgree` shows that `MDP2` and `GridMDP` give the same answer for the marker.
- `MDP2.T` has no "transition model is missing" check. For an empty table it fails with an unknown state (`TerminalAware.Mdp2TAgreesWithBase`).
- The probability check at mdp.py:102 is a strict `abs(s-1) < 0.001`. A distribution summing to exactly 0.999 therefore fails: the tolerance is exclusive, so a sum exactly 0.001 away from 1 is rejected (`Scenarios.ProbabilityTolerance`).

## Model

| member | source | states |
|---|---|---|
| `Geometry.TurnsFollowOrientations` | mdp.py:150-152 | turning right moves one step back along the four headings (east, north, west, south) and turning left one step forward, wrapping around |
| `Geometry.TurnsAreInverse` | mdp.py:150-152 | on a heading, turning right and turning left undo each other; both give a heading, and the three headings used by one move are distinct |
| `MarkovDecision.NewMdp` | mdp.py:23-47 | construction succeeds exactly when gamma is in (0, 1] (1 accepted, 0 rejected) and states or transitions are given; the states are the given ones or those derived from the table; an absent table becomes the empty one; an absent reward table gives each state 0 |
| `MarkovDecision.DeriveStates` | mdp.py:71-80 | an absent table gives no state set; otherwise the result contains every key and every successor of every outcome, and every member is a key or some outcome's successor |
| `MarkovDecision.DerivedStatesAreKeysIff` | mdp.py:71-77 | the derived states equal the table's keys exactly when every successor in the table is a key |
| `MarkovDecision.R` | mdp.py:49-52 | defined exactly for states with a reward entry, giving that entry; otherwise an unknown-state failure |
| `MarkovDecision.T` | mdp.py:54-60 | an empty table fails with "transition model is missing"; otherwise succeeds exactly when the state and action are recorded, returning the stored list unchanged |
| `MarkovDecision.Actions` | mdp.py:62-69 | as written: a terminal state offers only the "no action" marker; any other state gets the configured action value, a per-state table included |
| `MarkovDecision.ActionsAt` | mdp.py:62-69 | as documented: the marker in a terminal state, else the shared list, else the state's own entry of a per-state table, a state without one being a key error |
| `MarkovDecision.ActionsAsWrittenReturnsTable` | mdp.py:62-69 | with a shared list or in a terminal state both readings give the same list; with a per-state table in a non-terminal state the code as written returns the whole table and the documented reading the state's entry |
| `MarkovDecision.RewardRoundTrip` | mdp.py:47-52 | after construction, R returns exactly the supplied reward of each state, or 0 for every state when none was supplied |
| `MarkovDecision.TransitionRoundTrip` | mdp.py:41-60 | after construction with a non-empty table, T returns the supplied list for every recorded pair; with an absent or empty table every T query fails and the empty-table warning is raised |
| `MarkovDecision.CheckConsistency` | mdp.py:82-102 | passes exactly when derived states equal the states, init is a state, reward keys equal the states, all terminals are states and every recorded (state, action) list sums to 1 within 0.001; a failure names the first failing assertion |
| `TerminalAware.NewMdp2` | mdp.py:110-111 | succeeds exactly when gamma is in (0, 1]; the states are always derived from the given table |
| `TerminalAware.Mdp2T` | mdp.py:113-117 | the marker gives a single zero-probability self-loop on the queried state; a real action gives the stored list exactly when it is recorded |
| `TerminalAware.Mdp2TAgreesWithBase` | mdp.py:113-117 | for a real action MDP2's T equals the base T on a non-empty table; on an empty table the base reports the missing model and MDP2 an unknown state |
| `TerminalAware.TerminalStateSelfLoops` | mdp.py:113-115 | in a terminal state the only offered action is the marker, and MDP2 answers it with the zero-weight self-loop |
| `GridWorld.Go` | mdp.py:159-163 | the neighbour in the given direction when that cell is a state, else the same cell; from a state the result is always a state |
| `GridWorld.CalculateT` | mdp.py:148-154 | for a heading: three outcomes, 0.8 intended, 0.1 turned right, 0.1 turned left, summing to 1; for the marker a zero self-loop; from a state every successor is a state |
| `GridWorld.InGridStates` | mdp.py:134-137 | a cell is collected exactly when it lies inside the grid and is not a wall |
| `GridWorld.GridSpec` | mdp.py:127-146 | an empty grid and a row shorter than the new first row are index errors; construction succeeds exactly when neither happens and gamma is valid; rows, columns, reversed grid, gamma, init and terminals are recorded |
| `GridWorld.ReverseRows` | mdp.py:128 | the caller's rows end up in reverse order |
| `GridWorld.CollectCells` | mdp.py:134-138 | the nested loop yields exactly the grid's states and rewards |
| `GridWorld.FillTransitions` | mdp.py:140-145 | the nested loop yields exactly the table of calculate_T rows for every state and heading |
| `GridWorld.NewGridMdp` | mdp.py:127-146 | the caller's rows are reversed in place, and the result is exactly `GridSpec` of the rows as authored |
| `GridWorld.GridT` | mdp.py:156-157 | the marker gives a zero self-loop on the queried state; a heading gives the stored list exactly when it is recorded |
| `GridWorld.GridSpecParts` | mdp.py:127-146 | a built grid world's states, rewards, transitions and actions are those collected from the reversed grid |
| `GridWorld.GridStatesOfAuthored` | mdp.py:128-138 | the states are exactly the non-wall cells of the grid as authored, with y counted from the bottom row; each state's reward is the value in its cell |
| `GridWorld.GridSuccessorsAreKeys` | mdp.py:141-163 | the built table's keys are the states and no outcome leaves them |
| `GridWorld.GridDerivedStates` | mdp.py:139-146 | deriving the states from the built table gives back the state set |
| `GridWorld.GridDistributionsSumToOne` | mdp.py:148-152 | every (state, heading) distribution of the built table sums to 1 |
| `GridWorld.GridRowShape` | mdp.py:140-145 | every state's row holds exactly the four headings, each with calculate_T's outcomes |
| `GridWorld.GridTransitionsShape` | mdp.py:140-157 | T for a state and heading gives three outcomes 0.8/0.1/0.1 summing to 1, all states; any other heading is an unknown action |
| `GridWorld.GridConsistencyIff` | mdp.py:82-102 | a built grid world is consistent exactly when its initial cell and all terminal cells are states |
| `GridWorld.GridActionsOffered` | mdp.py:140-146 | a non-terminal state offers the four headings, a terminal one only the marker, under both readings of actions(s) |
| `GridWorld.PlaceholdersAgree` | mdp.py:156-157 | the grid world's answer to the marker equals MDP2's: a zero self-loop on the queried state |
| `GridWorld.ToGrid` | mdp.py:165-170 | rows lists of cols entries; output row i, column x holds the table's entry for (x, rows-1-i), or None |
| `GridWorld.ToGridAt` | mdp.py:165-170 | an in-grid cell's entry appears at row rows-1-y, column x |
| `GridWorld.ToGridRoundTrip` | mdp.py:128-170 | for a rectangular grid, to_grid of the reward table reproduces the grid exactly as the caller authored it, None at walls |
| `GridWorld.ToGridDeterminesMapping` | mdp.py:165-170 | two tables over in-grid cells with the same to_grid are equal |
| `GridWorld.GridStatesAsWritten` | mdp.py:136-137 | the source's truth test collects a subset of the non-wall cells; every cell it misses holds reward 0 |
| `GridWorld.ZeroRewardCellDropped` | mdp.py:136 | a single open cell of reward 0 is dropped by the truth test but is a state of the corrected model |
| `Scenarios.GammaBounds` | mdp.py:24-25 | gamma 0 and 1.5 are rejected, gamma 1 accepted |
| `Scenarios.PerStateActions` | mdp.py:62-69 | with actions {0: [a1], 1: [a2]}, actions(0) as written is the whole table, as documented [a1]; a state without an entry is a key error |
| `Scenarios.ProbabilityTolerance` | mdp.py:96-102 | sums of 0.95 and exactly 0.999 fail the strict probability check, naming the pair; 0.9995 passes |
| `Scenarios.SampleStates` | mdp.py:128-138 | the 3-by-3 sample grid with a wall in the middle has exactly its eight other cells as states |
| `Scenarios.SampleMoveEast` | mdp.py:148-163 | moving east from (0, 0) in the sample: (1, 0) with 0.8, blocked by the bottom edge with 0.1, (0, 1) with 0.1 |
| `Scenarios.SampleGrid` | mdp.py:127-163 | the sample grid world is built, has eight states, reward 1 at (2, 0), is consistent and answers T((0, 0), east) as above |

## Left out

- Console output: the warnings printed at mdp.py:43 and mdp.py:79 are not modelled as I/O. The first is the predicate `EmptyTransitionWarning`; the second is the absent result of `DeriveStates`.
- `to_arros` (mdp.py:172-178): presentation glyphs only, and it fails on the misspelt `policy.itmes()`.
- The imports of `random`, `numpy` and `argmax` (mdp.py:1-4) are unused. The `utils` module is not part of this model; its `vector_add`, `orientations`, `turn_right` and `turn_left` are defined in `Geometry` as the unit vectors, with the turns as 90-degree rotations.
- Python's `or` fallbacks (mdp.py:28, 41, 47) treat an empty state set, table or reward table as absent. The model treats only an absent argument (`None`) as absent. For the grid world the two readings agree, because its state set, rewards and table are all empty together.
- MarkovDecision.NewMdp: with neither a state set nor a transition table, mdp.py:28 stores `None` as the state set (mdp.py:79-80) and still builds the object when a reward table is given (mdp.py:47); it fails with a type error only when no reward table is given either. The model rejects every such call with `MissingStates`, since an object without a state set is unusable.
- TerminalAware.NewMdp2: takes the transition table as a plain table, not an optional one. mdp.py:110-111 would pass a `None` table through to the base constructor, which then derives no states and stores an empty table; that call is not modelled.
- Dynamic typing: an action argument that is neither a list nor a dict (mdp.py:32-38), and states of mixed types, are ruled out by the types.
- Exception classes: the failures are the cases of `Error`, not Python's ValueError, KeyError, IndexError and TypeError.
- Floating point: probabilities and rewards are exact reals, so 0.8 + 0.1 + 0.1 is exactly 1.
- Aliasing: `GridMDP` keeps the caller's list object as `self.grid`, so later changes to it are visible through the object. The model stores a copy of the reversed rows.
- Python objects can be changed after construction; that is not modelled, since nothing in the source does it.

## Findings

| source | as written | input that shows it | evidently intended | confidence | as-written member | corrected member |
|---|---|---|---|---|---|---|
| mdp.py:136 | `if grid[y][x]` is Python's truth test, false for a reward of 0 as well as for `None`, so open cells with reward 0 are dropped from the states | the one-cell grid `[[0.0]]`: no states as written | only `None` marks a wall (the class comment: "Use None for unreachable states"), so a 0-reward cell is a state | likely; not executed | `GridWorld.GridStatesAsWritten` (shown by `GridWorld.ZeroRewardCellDropped`) | `GridWorld.GridStates` (proved by `GridWorld.GridStatesOfAuthored`) |
| mdp.py:69 | in a non-terminal state `actions(s)` returns `self.actions` whatever its form, so a per-state dictionary is returned whole | actions `{0: [a1], 1: [a2]}` and state 0: the whole dictionary is returned | the docstring at mdp.py:63, "Return list of actions that are available to agent in state s": state 0's list `[a1]` | likely; not executed | `MarkovDecision.Actions` (shown by `MarkovDecision.ActionsAsWrittenReturnsTable` and `Scenarios.PerStateActions`) | `MarkovDecision.ActionsAt` (used by `GridWorld.GridActionsOffered` and `TerminalAware.TerminalStateSelfLoops`) |
