# Pyxelate in Dafny

Pyxelate is a small engine for cellular automata. A `Universe` is a one- or
two-dimensional square grid of dead (0) and alive (1) cells. A `RuleList` is an
ordered list of `Rule`s. Each rule has a window (a small array of cells), a
center inside that window, and the value the centered cell `becomes` when the
window matches. `Universe.apply` runs one generation: it pads a snapshot of
the grid with dead cells, compares every rule's window with every cell's
neighbourhood, and writes the outcomes into a copy of the grid. A `Simulator`
calls `apply` once per step. Two demonstrations build rule lists on top of
this:
- `life.py` builds Conway's Game of Life by enumerating all 512 3-by-3
  neighbourhoods and seeds a glider on a 20-by-20 plane.
- `rule_110.py` builds Wolfram's elementary rule 110 from three rules and
  seeds a line of 50 cells.

The model is a set of pure functions over immutable datatypes:

| file | module | contents |
|---|---|---|
| `outcomes.dfy` | `Outcomes` | `Option`, `Result`, the `Error` each `ValueError`/`IndexError` stands for, and `Outcome`, a state paired with the error that interrupted a mutating call |
| `ndarray.dfy` | `NdArrays` | numpy arrays as a shape plus row-major data |
| `rules.dfy` | `Rules` | `Size`, `Rule` and its constructor, `RuleList` |
| `universe.dfy` | `Universes` | the grid, construction, `__repr__`, `transform` |
| `evolution.dfy` | `Evolution` | `apply` |
| `evolution_facts.dfy` | `StepFacts` | what `apply` computes, cell by cell |
| `order.dfy` | `RuleOrder` | when the order of a rule list does not matter |
| `simulator.dfy` | `Simulators` | `Simulator.step` |
| `life.dfy` | `Life` | `get_life_rule_list` and the glider of `life_sim` |
| `life_enumeration.dfy` | `LifeEnumeration` | the powerset enumeration yields every 3-by-3 state once |
| `life_rules.dfy` | `LifeRules` | which rules the Life list holds |
| `conway.dfy` | `Conway` | the Life list computes Conway's Game of Life |
| `rule110.dfy` | `Rule110` | the rule 110 list and its agreement with Wolfram's numbering |

The code is followed as written, including where it departs from the
intended behaviour:
- **One dimension, first match.** The rule loop breaks at the first match
  (`universe.py:167`), so the first matching rule in list order decides
  (`StepFacts.ApplyLine`).
- **Two dimensions, last match.** The loop has no `break`, so every match
  overwrites the cell and the last matching rule decides
  (`StepFacts.ApplyPlane`). The rule list is meant to give first-match-wins
  precedence in both cases.
- **Column bound.** The two-dimensional column loop ends at the extent plus
  the *vertical* padding (`universe.py:173`).
  - When the tallest window is shorter than the widest, the right-most
    columns are never visited and keep their old values
    (`StepFacts.WideWindowsSkipRightColumns`).
  - When it is taller, the loop visits columns past the right edge. A match
    there writes outside the new grid, and numpy raises
    (`StepFacts.TallWindowsWritePastRightEdge`). Past the right edge the
    slice of the padded grid can be cut short, and numpy then broadcasts it
    against the window. An empty slice against a one-column window compares
    nothing and so matches, even a window of live cells
    (`StepFacts.EmptySliceMatchesPastRightEdge`). A one-column slice is
    compared with every column of the window. For every non-empty grid, a step
    raises exactly when such a match exists (`StepFacts.ApplyPlaneRaises`).
  - With equal extents, as for the Life list, every column is visited and
    nothing raises (`StepFacts.ApplyPlaneSucceeds`).
- **Mismatches and errors.**
  - Whichever rule decides, an unmatched cell keeps its old value.
  - An empty rule list raises from `max` (`NoRules`).
  - A two-dimensional universe of size 0 raises from `np.pad`, because
    `np.array([])` has rank 1 (`PadShapeMismatch`).
- **Initial arrays.** `__check_initial` compares the shape tuple with an int
  (`universe.py:114`), which is never equal. So a universe can never be
  built from an initial array: the model returns `InitialRankMismatch` or
  `InitialNotSquare`.
- **Partial transforms.** `transform` over a collection stops at the first
  location of the wrong arity, and the cells set before it stay set. The
  model returns the partially updated universe together with the error
  (`Outcome`). `Simulator.step` is modelled the same way.
- **Negative sizes.** A negative `Size` builds an empty grid (`[0] * -3` is
  `[]`), so the extent is `max(0, size)`.

Outside inputs: there is no I/O. `print_universe` and the printing loops are
left out. `Universe.__repr__` is modelled as a string function (`Repr`).

## Model

| member | source | states |
|---|---|---|
| Rules.MakeRule | pyxelate/universe.py:27-41 | a bare int center becomes a one-tuple; the rule is built exactly when the center's arity equals the window's rank, and it stores the window and outcome unchanged; otherwise the result is the center-rank error |
| Rules.AddRule | pyxelate/universe.py:52-58 | the new rule goes after every existing rule, which are kept in order |
| Rules.IterateAfterAddRules | pyxelate/universe.py:52-65 | iterating after a sequence of `add_rule` calls yields the old rules and then the added ones, in insertion order |
| Rules.BuiltListIteratesInOrder | pyxelate/universe.py:46-65 | a list built from empty by `add_rule` calls iterates exactly the added rules, in order |
| Universes.NewUniverse | pyxelate/universe.py:70-115 | construction succeeds exactly for 1 or 2 dimensions with a finite size and no initial array; every error case (bad dimensions, both or neither of size and initial, an infinite size, the initial-array checks) yields its own error; a built universe is valid, has the requested dimensions and extent, and every cell is dead |
| Universes.SizedUniverseRepr | pyxelate/universe.py:92-121 | a freshly sized universe renders as n zeros in 1-D, and in 2-D as n lines of n zeros joined by newlines (the empty string when n = 0) |
| Universes.ReprRoundTrip | pyxelate/universe.py:117-121 | reading the rendering of a 0/1 universe back gives the same grid, so `__repr__` loses nothing |
| Universes.TransformAt | pyxelate/universe.py:131-137 | a single location of the wrong arity raises; otherwise exactly that cell takes the new state and every other cell is unchanged |
| Universes.TransformAll | pyxelate/universe.py:138-145 | the loop succeeds exactly when no location has the wrong arity; the cells set are exactly those named before the first bad location; all others are unchanged |
| Universes.Transform | pyxelate/universe.py:123-145 | for one location or a collection: the universe stays valid with the same extent; an error is raised only for a location of the wrong arity; afterwards a cell holds the new state exactly when it was named before the first bad location |
| Universes.TransformIdempotent | pyxelate/universe.py:123-145 | transforming twice with the same locations and state gives the same universe and the same error as transforming once |
| Evolution.MaxExtent | pyxelate/universe.py:160 | the padding is an upper bound on every window's extent along the axis, and some window attains it |
| Evolution.Apply | pyxelate/universe.py:147-182 | a rule of the wrong rank raises before anything changes; so does an empty list; a one-dimensional step always succeeds otherwise; a 2-D universe of size 0 raises, and only such a universe raises `PadShapeMismatch`; on a non-empty 2-D universe with a valid rule list the only possible error is the out-of-bounds column write; every error is one of the four `apply` can raise; a successful step keeps validity, extent and dimensions |
| StepFacts.ApplyPlaneRaises | pyxelate/universe.py:169-180 | on a non-empty 2-D universe with a non-empty rank-2 rule list, `apply` raises exactly when some rule, aligned on a cell of a visited column past the right edge (n <= j < n + vp - hp), matches the padded snapshot there, and the error is then the out-of-bounds write. A match here is one of three cases. Either the whole window fits inside the padded width and equals the dead-bordered neighbourhood; or the slice is empty and the window is one column wide; or one column is left and the window equals the (dead) neighbourhood |
| StepFacts.EmptySliceMatchesPastRightEdge | pyxelate/universe.py:172-180 | a 3-by-1 window of live cells over the dead 1-by-1 grid matches no neighbourhood, yet `apply` raises: at column index 3 the slice is empty, it broadcasts against the one-column window, and the write to column 2 is out of bounds |
| StepFacts.ApplyLine | pyxelate/universe.py:157-167 | on a line, new cell i is the outcome of the first rule in list order whose window equals the dead-bordered neighbourhood at the rule's center; if no rule matches, the old cell |
| StepFacts.ApplyPlane | pyxelate/universe.py:168-182 | on a plane, in a visited column, new cell (i, j) is the outcome of the last matching rule in list order, or the old cell if none matches; in a column the loop never visits, the old cell |
| StepFacts.Step2Cell | pyxelate/universe.py:171-180 | the same, per cell, for the padded loops over an n-by-n grid with any paddings at least the window extents |
| StepFacts.ApplyPlaneSucceeds | pyxelate/universe.py:169-173 | if no window is taller than the widest window, a 2-D step of a non-empty grid raises nothing |
| StepFacts.WideWindowsSkipRightColumns | pyxelate/universe.py:169-180 | a 1-by-3 window on a 1-by-1 grid matches the only cell, yet `apply` leaves the grid unchanged because the column loop stops early |
| StepFacts.TallWindowsWritePastRightEdge | pyxelate/universe.py:169-180 | a 3-by-1 window on a 1-by-1 grid makes `apply` raise, because the column loop writes past the right edge |
| RuleOrder.ApplyIgnoresOrder | pyxelate/universe.py:153-182 | for rules that share one window shape and center, and never give two outcomes for one window, any list with the same members gives the same `apply` result, errors included |
| Simulators.Step | pyxelate/universe.py:196-203 | stepping keeps the rules, the validity, the extent and the dimensions of the universe; any error raised is one that `apply` raises |
| Simulators.StepNothing | pyxelate/universe.py:202-203 | zero or a negative number of steps changes nothing and raises nothing |
| Simulators.StepOnce | pyxelate/universe.py:202-203 | one step is one `apply`: on success, its universe; on an error, the old universe and that error |
| Simulators.StepComposes | pyxelate/universe.py:196-203 | a + b steps are a steps followed by b steps; if the first a steps raised, the later ones add nothing |
| Simulators.StepRejectsBadRules | pyxelate/universe.py:153-160 | a list with a rule of the wrong rank, or an empty list, makes any positive number of steps raise at once and leave the universe as it was |
| Life.SetOnes | pyxelate/life.py:24-25 | cell k is set exactly when k is in the subset; every other cell keeps its value |
| Life.StateFor | pyxelate/life.py:23-26 | the state of a subset of 0..8 is a 3-by-3 array whose k-th row-major cell is alive exactly when k is in the subset |
| LifeEnumeration.CombinationsSound | pyxelate/life.py:15-17 | every combination of size r of an increasing sequence has r elements, in increasing order |
| LifeEnumeration.CombinationsComplete | pyxelate/life.py:15-17 | every increasing selection from an increasing sequence is among its combinations of that size |
| LifeEnumeration.CombinationsDistinct | pyxelate/life.py:15-17 | no combination is listed twice |
| LifeEnumeration.CombinationsCount | pyxelate/life.py:15-17 | there are binomial(|s|, r) combinations of size r |
| LifeEnumeration.PowersetComplete | pyxelate/life.py:15-17 | every increasing selection is in the powerset |
| LifeEnumeration.PowersetDistinct | pyxelate/life.py:15-17 | no subset is listed twice in the powerset |
| LifeEnumeration.PowersetSize | pyxelate/life.py:15-17 | summing the binomials over every size gives 2^n subsets |
| LifeEnumeration.SubsetCell | pyxelate/life.py:21-26 | subset element i sets the cell in row i / 3, column i % 3, and no other |
| LifeEnumeration.StatesBinary | pyxelate/life.py:21-26 | every state is a 3-by-3 array of dead and alive cells |
| LifeEnumeration.StatesCover | pyxelate/life.py:21-26 | every 3-by-3 array of dead and alive cells is one of the states |
| LifeEnumeration.StatesDistinct | pyxelate/life.py:21-26 | no state is listed twice |
| LifeEnumeration.StatesCount | pyxelate/life.py:21-26 | there are exactly 512 states |
| LifeRules.LifeRuleExact | pyxelate/life.py:28-36 | the loop body adds a rule for a state exactly when Conway's B3/S23 rule changes its center, and that rule is centered at (1, 1) and gives Conway's outcome |
| LifeRules.LifeRuleListMembers | pyxelate/life.py:12-38 | the Life list holds exactly the 0/1 3-by-3 windows whose center Conway's rule changes, each centered at (1, 1) with Conway's outcome |
| LifeRules.LifeWindowsDistinct | pyxelate/life.py:21-38 | no window appears twice in the Life list |
| LifeRules.ConwayRulesValid | pyxelate/life.py:29-36 | every Life rule is a well-formed rank-2 rule with its center inside its 3-by-3 window; all share one frame, and one window never gives two outcomes |
| LifeRules.ConwayRulesExtent | pyxelate/life.py:29-36 | the Life list is not empty and its windows are all 3 tall and 3 wide, so both paddings are 3 |
| Conway.LifeAtMostOneMatch | pyxelate/universe.py:174-180 | at most one Life rule matches any cell, so the missing `break` in the two-dimensional loop makes no difference for the Life list |
| LifeRules.LifeOrderIrrelevant | pyxelate/life.py:28-38 | any reordering, or repetition, of the Life rules gives the same `apply` result |
| Conway.ConwayApply | pyxelate/life.py:28-36 | for any list that is the Life list as far as `apply` can tell: a line raises a rank error; an empty plane raises; on a non-empty 0/1 plane `apply` is one generation of Conway's Game of Life, computed from the eight neighbours with dead cells beyond the edge |
| Conway.LifeIsConway | pyxelate/life.py:12-38 | the same three facts for `get_life_rule_list()` itself |
| Conway.LifeSimulation | pyxelate/life.py:46-51 | k steps of a simulator with the Life list on a non-empty 0/1 plane are k Conway generations and raise nothing |
| Conway.Glider | pyxelate/life.py:44 | on a plane of extent at least 4, the glider `transform` raises nothing and makes exactly the five glider cells alive, leaving the others |
| Conway.GliderSeed | pyxelate/life.py:43-44 | on the new 20-by-20 universe, the glider cells are alive and every other cell is dead |
| Conway.LifeSim | pyxelate/life.py:41-51 | in `life_sim`, after the seed, k steps are k Conway generations of the seeded grid, and none raises |
| Rule110.Rule110RulesBuilt | pyxelate/rule_110.py:11-14 | the three rules are accepted, their bare center 1 is stored as (1,), and the list yields them in the order they were added |
| Rule110.MatchesThree | pyxelate/universe.py:164-165 | a length-3 window centered at 1 matches cell i exactly when it spells cells i-1, i, i+1 |
| Rule110.TableIsWolfram110 | pyxelate/rule_110.py:12-14 | on 0/1 neighbourhoods, what the three rules do (first match, else keep the center) is bit 4l+2c+r of 110 |
| Rule110.Rule110Cell | pyxelate/rule_110.py:11-14 | one `apply` of the three rules sets each cell by the table: 001 and 101 give 1, 111 gives 0, any other neighbourhood keeps the center |
| Rule110.Rule110IsWolfram | pyxelate/rule_110.py:11-14 | on a 0/1 line, `apply` with the rule 110 list is exactly one generation of Wolfram's elementary automaton 110, with dead cells beyond both ends |
| Rule110.Rule110OrderIrrelevant | pyxelate/rule_110.py:11-14 | any reordering of the three rules gives the same `apply` result |
| Rule110.Rule110Simulation | pyxelate/rule_110.py:19-24 | k steps of a simulator whose list holds the three rule 110 rules, on a 0/1 line, are k generations of rule 110 and raise nothing |
| Rule110.SetIndices | pyxelate/rule_110.py:17 | on a line, `transform` at a list of bare indices inside it sets exactly those cells and raises nothing |
| Rule110.Seed | pyxelate/rule_110.py:16-17 | the thirteen seed indices lie inside the line of 50; after the seed exactly those cells are alive |
| Rule110.Rule110Sim | pyxelate/rule_110.py:10-24 | in `rule_110_sim`, after the seed, k steps are k generations of rule 110 from the seeded line, and none raises |

## Left out

- `Simulator.print_universe`, and the printing loops of `life_sim` and `rule_110_sim`: output only. The loops' ten `step()` calls are covered for any number of steps by `Conway.LifeSim` and `Rule110.Rule110Sim`.
- `test.py`, the `sys.path` manipulation and the `__main__` blocks: not part of the engine.
- The float dtype of the Life windows (`np.zeros(9)`): the model keeps integers, and 0.0 and 1.0 compare equal to 0 and 1.
- Universes.Transform: a location outside the grid is excluded by a precondition (`TargetsInRange`), but only for the locations the loop writes, i.e. those before the first location of the wrong arity. numpy would wrap a negative index or raise `IndexError` for one that is too large.
- Evolution.Apply: a rule whose center lies outside its window (`CenterInside`) is excluded by a precondition, because its slice could start before the padded grid, where numpy's negative indices would wrap around. A slice cut short at the right end is modelled as numpy broadcasts it: the full width is compared cell by cell, an empty slice matches a one-column window, and a one-column slice is compared with every window column. The remaining cuts have shapes that do not broadcast, and the model counts them as no match. Older numpy releases return False for such a comparison; newer ones raise `ValueError` instead, which the model does not follow.
- StepFacts.ApplyPlaneRaises: its "exactly when" takes a non-broadcastable cut slice as no match, as older numpy does. Under newer numpy such a comparison raises `ValueError` before any write, so a step can also raise there.
- Universes.NewUniverse: the initial-array path is modelled only as its two errors. The comparison at `universe.py:114` makes the path always raise, so the copy of the initial array is never reached.
- Size: `Size` stores any `int` or `None`; `is_infinite` is the predicate `Rules.IsInfinite`. Its one use is the infinite-size error that `Universes.NewUniverse` states.
- Glider period: the claim that a glider on the 20-by-20 plane reappears shifted by one row and one column after four steps is not proved. `Conway.LifeSim` reduces it to four generations of `Conway.ConwayStep` on a concrete 400-cell grid. Evaluating that symbolically costs more than the rest of the model.
- Integer widths: cell values and sizes are unbounded integers. numpy's 64-bit integers do not overflow at the sizes involved.
