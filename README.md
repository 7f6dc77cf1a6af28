# penguin_swarm in Dafny

penguin_swarm simulates a huddle of penguins on a rectangular grid of tiles.
Each agent (a penguin, or an obstacle that never moves) has a diamond-shaped
body centred on a tile. In each epoch the environment shuffles its agent list
and then takes each agent's proposed move, in that order. The proposal is the
agent's `get_move` attribute, which the environment reads without calling it,
so the model takes the proposals as a parameter. A move is accepted when it
keeps the body on the grid and the agent does not collide with any other
agent; each accepted move advances the simulation clock.

A penguin chooses its move from its neighbours' positions:
- its target is their summed offset ("average") or the closest one ("closest");
- when cold it walks towards the target, when hot it walks away, and inside its comfortable band it only jitters;
- the walk is greedy, one tile per step, for `movement_speed` steps.

An agent dies when its body temperature is set outside its death thresholds.

Three helpers round off the core:
- `natural_sort` orders file names with their digit runs compared as numbers;
- `square_coord` lists the lattice points on the contour of a square;
- `config_gen` checks an INI configuration against a fixed schema and writes
  one configuration per point of a 4 x 5 x 5 x 5 parameter sweep.

Modules, one per source file, plus two shared helper modules:

| module | models |
|---|---|
| `Geometry` | tiles, L1 distance, the bounds margin and the diamond body shared by the environment and the policies |
| `Agents` | `src/agent.py`: one `Agent` class with position, body temperature and alive flag as mutable state |
| `Environments` | `src/environment.py`: the `Environment` class (agent list, clock, canvas) and a pure specification of an epoch |
| `Penguins` | `Penguin.get_move` of `src/penguin.py` |
| `Obstacles` | `Obstacle.get_move` of `src/obstacle.py` |
| `BlindPenProto` | `square_coord` of `blind_pen_proto.py` |
| `Ascii` | ASCII digits, `str.lower`, `int()` of a digit run and `str()` of a natural number |
| `Simulate` | `natural_sort` of `simulate.py` |
| `ConfigGen` | `parse_config` and the sweep in `main` of `src/config_gen.py` |

Imperative code is modelled imperatively:
- `Environment` and `Agent` are classes whose methods update fields;
- `draw_agent`, `check_valid_pos`, the walk loop of `get_move`, `square_coord`
  and the sweep of `config_gen.main` are methods with loops.

Each of these methods is proved against a pure specification function
(`EpochFrom`, `Admissible`, `Walk`, `Decide`, `IsSweep`, ...), and properties
of those functions are proved as lemmas.

## Model

| member | source | states |
|---|---|---|
| Geometry.BoundedBodyInGrid | src/environment.py:97-102 | a centre that passes the bounds test of check_valid_pos keeps every tile of its diamond body on the grid |
| Geometry.CollidesIffOverlap | src/environment.py:103-105 | the collision test between two bodies of positive radius holds exactly when some tile lies in both diamond bodies |
| Agents.Agent.constructor | src/agent.py:27-44 | every attribute is stored as given; the agent starts alive and the initial temperature is not checked |
| Agents.Agent.Kill | src/agent.py:80-82 | afterwards the agent is dead; nothing else changes |
| Agents.Agent.SetBodyTemp | src/agent.py:93-98 | the temperature is stored; the agent is alive afterwards iff it was alive and low <= t <= high (boundaries survive) |
| Agents.Agent.SetPosition | src/agent.py:105-108 | the position afterwards is the given tile; temperature and alive flag are untouched |
| Agents.DeadStaysDead | src/agent.py:93-98 | no sequence of temperature assignments revives a dead agent |
| Agents.Agent.IsCollision | src/environment.py:104 | for bodies of positive radius, two agents collide iff some tile lies in both diamond bodies at their current positions; the test is symmetric |
| Agents.AliveAfterIff | src/agent.py:93-98 | after a sequence of assignments the agent is alive iff it started alive and every assigned temperature was within [low, high] |
| Environments.TurnMovesOnlyTheAgent | src/environment.py:84-89 | in its turn an agent moves to its proposal exactly when check_valid_pos accepts it, and no other agent moves |
| Environments.EpochAcceptsAtMostOnePerTurn | src/environment.py:84-89 | the clock advances by at most the number of agents in one epoch |
| Environments.EpochKeepsBounds | src/environment.py:86-88 | if every centre passes the bounds test before an epoch, every centre still passes it afterwards |
| Environments.AdmissibleIgnoresSelf | src/environment.py:103-105 | the collision scan skips the agent itself, so inserting it into the list at any index, with any position, does not change the verdict |
| Environments.CurrentPositionCheckAdmitsOverlap | src/environment.py:94-106 | two non-colliding unit bodies end an epoch on the same tile, because the scan tests the current position and not the proposed one |
| Environments.ReindexPreservesMultiset | src/environment.py:83 | shuffling by a permutation keeps every agent with its multiplicity |
| Environments.DropLastIndex | src/environment.py:83 | deleting the largest index from a permutation of 0..n-1 leaves a permutation of 0..n-2 |
| Environments.Environment.constructor | src/environment.py:38-66 | a white height x width canvas, no agents and time 0 |
| Environments.Environment.ValidPos | src/environment.py:94-106 | the check on the position snapshot is the bounds test on the proposed centre and no collision of the agent with any other list entry |
| Environments.Environment.CheckValidPos | src/environment.py:94-106 | the result is the bounds test on the proposed centre and a collision scan over every other agent; out-of-bounds rows or columns are rejected |
| Environments.Environment.AddAgent | src/environment.py:108-114 | the agent is appended iff check_valid_pos accepts its own position; otherwise the list is unchanged; the invariant (all centres in bounds) is kept |
| Environments.Environment.DrawAgent | src/environment.py:134-142 | exactly the tiles of the agent's diamond body get the colour; every other canvas tile keeps its colour |
| Environments.Environment.PaintMirrored | src/environment.py:139-142 | exactly the four mirrored tiles c + (+-i, +-j) get the colour |
| Environments.Environment.RunEpoch | src/environment.py:81-92 | the list becomes the shuffled list (same agents); positions and clock are those of the epoch specification over the shuffled list; temperatures and alive flags are unchanged; all centres stay in bounds |
| Environments.Environment.PlayTurns | src/environment.py:84-89 | the loop over the list ends with the positions and clock the epoch specification gives |
| Environments.Environment.Shuffle | src/environment.py:83 | the list is reordered by the permutation, keeps every agent, and positions are carried along |
| Environments.Environment.TakeTurn | src/environment.py:85-89 | one turn: the agent moves iff its proposal is admissible, and the clock counts the accepted move |
| Penguins.ArgMin | src/penguin.py:41-42 | np.argmin: the index of a minimal element, with no earlier element equal to that minimum |
| Penguins.GetMove | src/penguin.py:14-78 | the proposed move is the decision computed from the agent's position, core temperature, thresholds, policy, speed, neighbours and jitter |
| Penguins.WalkGreedy | src/penguin.py:55-76 | after `speed` steps the walk is max(0, d0 - speed) from the target and at most `speed` tiles from its start |
| Penguins.StepOnce | src/penguin.py:56-76 | one iteration takes the first candidate of minimal distance and gets one tile closer (or stays at the target) |
| Penguins.StepIsArgMin | src/penguin.py:56-76 | the first minimal entry of the five-distance list is the tile of the stated tie-break (column gap first, then row gap) |
| Penguins.StepDistance | src/penguin.py:55-76 | a step moves one tile, or none at the target, and reduces the distance to the target by one |
| Penguins.WalkDistance | src/penguin.py:55-76 | after n steps the distance to the target is max(0, d0 - n) |
| Penguins.WalkWithinSpeed | src/penguin.py:55-76 | a walk of n steps ends within n tiles of where it started |
| Penguins.WalkStaysAtTarget | src/penguin.py:55-76 | a walk that starts on the target never leaves it |
| Penguins.NoWalkWithoutReason | src/penguin.py:29-52 | with no neighbours, or with the core temperature in the comfortable band, the move is the jittered position |
| Penguins.DecideWalks | src/penguin.py:46-78 | when cold (hot) the move approaches the own position plus (minus) the target offset by `speed` tiles, or reaches it, and stays within `speed` tiles of the jittered start |
| Penguins.JitteredStartNear | src/penguin.py:29 | the jittered start is within 3 tiles of the own position on each axis |
| Penguins.AverageIsSum | src/penguin.py:35-38 | the "average" target offset is the sum of the neighbour positions minus n times the own position, not their mean |
| Penguins.ClosestIsFirstMinimal | src/penguin.py:40-43 | the "closest" offset is a neighbour offset of minimal L1 norm, and no earlier neighbour has that norm |
| Obstacles.GetMove | src/obstacle.py:17-31 | an obstacle proposes its current position |
| Obstacles.IgnoresNeighbours | src/obstacle.py:17-31 | the proposal is the same whatever the neighbour list, the empty one included |
| Obstacles.ApplyMove | src/obstacle.py:31 | accepting an obstacle's proposal leaves its position, temperature and alive flag as they were, and the next proposal is the same |
| BlindPenProto.SquareCoord | blind_pen_proto.py:11-42 | n == 0 gives [(0, 0)]. For n > 0 the result is duplicate-free and lies on the ring max(abs x, abs y) == n. With vortex it is the whole ring, 8n points, starting with the four corners. Without vortex it is exactly the non-corner ring points, 8n - 4 of them. A negative n gives the corners or nothing |
| BlindPenProto.ListedStep | blind_pen_proto.py:38-41 | the four points appended for -n < i < n are new, distinct, non-corner ring points, and all of those with that edge coordinate |
| BlindPenProto.ListedSkip | blind_pen_proto.py:36-37 | skipping i = -n and i = n loses no non-corner point |
| Ascii.ValueOfNatToString | src/config_gen.py:150-153 | int(str(n)) == n |
| Ascii.NatToStringInjective | src/config_gen.py:150-153 | distinct numbers have distinct decimal strings |
| Ascii.LeadingZero | simulate.py:13 | a leading zero does not change int() of a digit run |
| Ascii.DigitRunsSplit | simulate.py:14 | a maximal digit run and what follows it are recovered from the joined string |
| Ascii.LowerIdempotent | simulate.py:13 | lower-casing twice is lower-casing once |
| Ascii.LowerCharProperties | simulate.py:13 | lower-casing keeps digit-ness, leaves digits alone, is idempotent and leaves no upper-case letter |
| Ascii.SplitDependsOnDigitsOnly | simulate.py:14 | where the digit runs start and end depends only on which characters are digits |
| Simulate.Key | simulate.py:13-14 | the key starts with a text element, as re.split with a capturing group makes it |
| Simulate.KeyLtIrreflexive | simulate.py:15 | no key is below itself |
| Simulate.KeyLtTransitive | simulate.py:15 | the key order is transitive |
| Simulate.KeyLtAsymmetric | simulate.py:15 | two keys are never each below the other |
| Simulate.KeyLtTotal | simulate.py:15 | any two distinct keys are ordered one way or the other |
| Simulate.KeyLtSplit | simulate.py:15 | if a < c then any b lies above a or below c |
| Simulate.SortedBy | simulate.py:15 | the sorted list is a permutation of the input |
| Simulate.NaturalSort | simulate.py:12-15 | natural_sort returns a rearrangement of its input: the same names with the same multiplicities |
| Simulate.InsertOrdered | simulate.py:15 | inserting into a key-ordered list keeps it key-ordered |
| Simulate.SortedByOrdered | simulate.py:15 | the output is ordered by key |
| Simulate.WithKeyInsert | simulate.py:15 | an inserted element goes after every element with the same key |
| Simulate.SortedByStable | simulate.py:15 | elements with equal keys keep their input order |
| Simulate.NaturalSortOrderedAndStable | simulate.py:12-15 | natural_sort returns a permutation of its input, in key order, with equal keys in input order |
| Simulate.KeyAlternates | simulate.py:14 | keys alternate text and numbers, starting and ending with text |
| Simulate.KeysMeetSameKind | simulate.py:14-15 | two keys compared element by element always compare text with text and numbers with numbers, so Python's TypeError for mixed elements cannot arise |
| Simulate.KeyOfRuns | simulate.py:13-14 | a text run, a digit run and a rest give the key [lower(text), int(digits)] followed by the key of the rest |
| Simulate.DigitRunsCompareNumerically | simulate.py:13-15 | with the same text prefix, the smaller number sorts first whatever follows |
| Simulate.EqualValuesEqualKeys | simulate.py:13-14 | digit runs of equal value give equal keys, so leading zeros are ignored |
| Simulate.EpochTwoBeforeTen | simulate.py:13-15 | the key of "Epoch_2" is below the key of "Epoch_10" |
| Simulate.EpochsSortNumerically | simulate.py:12-15 | natural_sort(["Epoch_10", "Epoch_2"]) == ["Epoch_2", "Epoch_10"] |
| Simulate.LeadingZerosExample | simulate.py:13-14 | "a007" and "a7" have equal keys |
| Simulate.LowerSplit | simulate.py:13-14 | lower-casing a name keeps its split points and its digit run |
| Simulate.KeyIgnoresCase | simulate.py:13-14 | a name and its lower-cased form have the same key |
| ConfigGen.FirstMissingOption | src/config_gen.py:103-106 | none is missing iff the section has every option; otherwise the reported option is listed and absent |
| ConfigGen.FirstMissing | src/config_gen.py:98-106 | nothing is missing iff every schema section is present with every option; a reported section is absent, a reported option is absent from a present section |
| ConfigGen.ParseConfig | src/config_gen.py:84-108 | the configuration is returned unchanged iff the file exists and has every required section and option; otherwise None |
| ConfigGen.ExtraEntriesIgnored | src/config_gen.py:98-106 | extra sections, options or defaults never make a passing file fail |
| ConfigGen.SetOption | src/config_gen.py:149-153 | an assignment changes that one option of that section and nothing else |
| ConfigGen.OverrideFrame | src/config_gen.py:149-153 | the overwrite changes exactly general.name and the four penguin options; everything else keeps its template value, and a passing template still passes |
| ConfigGen.FieldInjective | src/config_gen.py:138 | a tag, a number and a rest starting with a non-digit can be read back |
| ConfigGen.FileNameInjective | src/config_gen.py:138 | different parameter tuples get different file names |
| ConfigGen.SweepListsInjective | src/config_gen.py:129-132 | none of the four sweep lists repeats a value |
| ConfigGen.IndexDigits | src/config_gen.py:134-137 | the position of iteration (i, j, l, m) is below 500 and its base-5 digits are i, j, l and m |
| ConfigGen.IndexOf | src/config_gen.py:134-137 | each of the 500 positions belongs to exactly one iteration |
| ConfigGen.FileNamesDistinct | src/config_gen.py:134-138 | different iterations write to different files |
| ConfigGen.SweepWritesDistinctValidFiles | src/config_gen.py:134-155 | no two of the 500 writes go to the same file, and every written file passes the schema check |
| ConfigGen.CompleteHasOverriddenSections | src/config_gen.py:32-46 | a file that passes the schema check has the sections the sweep overwrites |
| ConfigGen.GenerateConfigs | src/config_gen.py:129-155 | with a failing template nothing is written; otherwise exactly the 500 overwritten templates are written, in loop order, under their file names |
| ConfigGen.DoneAppend | src/config_gen.py:149-155 | writing iteration (i, j, l, m) at its position extends the completed prefix of the sweep |
| ConfigGen.DoneAll | src/config_gen.py:134-137 | a completed prefix of length 500 is the whole sweep |

## Left out

- Logging, the coloured log set-up, directory creation and image output
  (`Environment.draw`, its call after every accepted move, `Environment.run`, the GIF frames) are I/O.
  `draw_agent` is modelled on the canvas, with colours as given values.
- Randomness is a parameter:
  - the shuffle of `run_epoch` is any permutation `order` of the list;
  - the penguin's jitter is any offset with components in [-3, 3].
- `Environments.Environment.RunEpoch`: `run_epoch` reads the `get_move` attribute without calling it,
  so the proposed moves are a parameter `moves`, one per agent of the shuffled list.
  `Penguins.GetMove` and `Obstacles.GetMove` model what a call would return.
- The thermal model (`thermal_env`, conductivities, metabolism, `thermal_points`) is not part of this model.
  `get_move`'s `thermal_points` argument is unused by its body and dropped.
- `club_penguin.py`, `src/main.py` and `blind_pen_proto.py`'s plotting code are not part of this model.
- `Agents.Agent`: `src/agent.py` does not define `body_radius`, `is_collision`, `core_temp`, the move
  thresholds, the policy or the speed. Its subclasses' constructors are not part of this model.
  - One class carries the union of these attributes.
  - `is_collision` is modelled as diamond overlap at the agents' current positions.
  - `core_temp` is the scalar body temperature.
- Coordinates are integers. Float positions or sizes that the Python signatures allow are not modelled.
- `Penguins.GetMove`: positions are tuples (the getter at src/agent.py:100-103), so the difference
  `n.position - self.position` at src/penguin.py:35 raises a TypeError for every non-empty neighbour
  list. The model computes the evidently intended componentwise difference of numpy vectors and does
  not model the crash.
- `Penguins.GetMove`: with the difference fixed, a policy string other than "average" or "closest"
  leaves `target_pos` unbound, and a NameError follows once the core temperature is outside the
  comfortable band (inside it, `best_pos` is returned without reading `target_pos`). `Policy` has
  only the two values, so that path is not modelled.
- `Agents.Agent.SetBodyTemp`: temperatures are reals. Python floats include NaN, and NaN
  survives both strict comparisons at src/agent.py:96-97; that case is not modelled.
- `Environments.Environment.DrawAgent` requires the body to lie on the canvas. numpy would wrap
  negative indices to the far edge; the requires holds for every centre that passed the
  bounds test (`Geometry.BoundedBodyInGrid`).
- `Simulate.SortedBy` is a stable insertion sort. It returns the same list as Python's Timsort
  because both are stable sorts under a total order; the algorithm itself is not modelled.
- `Simulate.Key` works on ASCII: `str.isdigit` and `str.lower` are modelled for ASCII only. A text
  element against a number raises a TypeError in Python; the model orders text first, and
  `Simulate.KeysMeetSameKind` shows that comparison never happens.
- `BlindPenProto.SquareCoord` takes an integer `n`; non-integer `n` (a TypeError in `range`) is not modelled.
- `ConfigGen`:
  - Reading and writing files through configparser is not modelled: a configuration is a value
    (defaults and sections), and the writes are returned as a list of (file name, contents).
  - configparser's option-name lower-casing, value interpolation and the directory paths are left out.
- The environment does not keep agents from overlapping after a move. Its collision scan tests the
  mover's current position, not the proposed one, so two bodies can end an epoch on the same tile
  (`Environments.CurrentPositionCheckAdmitsOverlap`). The model keeps this behaviour.
