# MissionAres core, modelled in Dafny

MissionAres is a puzzle game. The player programs a list of commands for each
rover on a tile grid (move up, down, left, right, wait) and then executes the
program. Rovers on shadowed tiles lose battery. The puzzle is solved when every
rover stands on a finish tile, and fails when a rover runs out of battery.

This project models the logical core of the game and proves properties of it:

- `level.dfy` (module `Level`): the level-text parser.
  - Its character scan is a loop of methods carrying an invariant (`ScanChar`, `ScanLine`).
  - Then comes the shift that puts the bottom row at y == 1 (`ShiftTiles`, `ShiftLinks`).
  - `Load` ties the result to a position-by-position description of the text.
- `rover.dfy` (module `Rovers`): the rover-execution resource, as a class `ActionExecution`.
  - Starting a program, one frame's index advance and all-done test, and resuming after an evaluation.
- `puzzle_evaluation.dfy` (module `PuzzleEvaluation`): battery drain in place over the rover array, and the Solved/Failed decision.
- `control_ui.dfy` (module `ControlUi`): the program-authoring handlers, as a class `ActionListResource`.
  - Append with a cap, delete, clear, and rover selection by button or click.
  - Also the Execute gate, the grouping of equal consecutive commands into displayed runs, and the entity-descendant test.
- `actions.dfy` (module `Actions`): the command vocabulary and the initial program.
- `wrappers.dfy`: an `Option` type.

Fixed-width integers follow debug-build Rust semantics. An overflow panics, so a
value that would leave its range (`i8` counters and coordinates, `u8` battery)
becomes a precondition. The one explicit wrap-around is the `as usize` cast of a
robot button's `i32` index.

Engine inputs are parameters of the model:

- the events of a frame;
- the button interactions;
- whether a level asset is loaded;
- whether a rover reached its target tile this frame.

Mapping of tile kinds: `S` Start (INITIVM), `E` Finish (FINIS), `P` and the
digits `1`..`8` Path (SEMITA), `D` PowerStation (SATVRNALIA), `I` Relay
(INGENII), `C` Crater (CRATERA).

## Model

| member | source | states |
|---|---|---|
| Actions.ImgPath | src/game_control/actions.rs:26-34 | every icon path lies under the `command_icons/` directory |
| Actions.ImgPathInjective | src/game_control/actions.rs:26-34 | distinct action types get distinct icon paths |
| Actions.InitialActionList | src/game_control/actions.rs:40-43 | the initial program is one empty list with rover 0 selected |
| Actions.InitialIsWellTagged | src/game_control/actions.rs:14-23 | the initial program satisfies the invariant that every action sits in the list of the rover it names |
| Level.Load | src/level.rs:88-233 | height is the number of lines and width the longest line; rover and crystal counts are the numbers of `S` and `E`; each tile character yields its unshadowed tile at (column, height − row) and no other tile exists; the wire map is symmetric; occurrences 0–1, 2–3, … of each digit `1`..`8` are wired both ways, a leftover odd occurrence has no wire, and every wire comes from such a pair |
| Level.ScanChar | src/level.rs:119-200 | one character of the scan: the column advances (a newline leaves it unchanged); the counters and width are those of the text read so far; a tile character places its unshadowed tile at its cell and nothing else does; a digit closes the wire of its pending occurrence or opens one |
| Level.CharBounds | src/level.rs:119-200 | the `i8` column and counters cannot overflow while a character is read, given the bounds on the whole text |
| Level.CharStep | src/level.rs:117-201 | a character with exactly that effect moves the scan invariant one character on: every tile character read so far has its tile and no other tile exists, and the wires and pending ends are those of the digits read so far |
| Level.ScanStart | src/level.rs:97-109 | the empty maps and zero counters the parse starts from satisfy the scan invariant before the first line |
| Level.ScanLine | src/level.rs:117-203 | reading a whole line keeps the scan invariant and leaves the level index alone |
| Level.NextRow | src/level.rs:203 | finishing a row and incrementing the height re-establishes the invariant at the start of the next row |
| Level.LinksStep | src/level.rs:150-157 | a digit closes the wire opened by its pending occurrence (removing it from pending), otherwise opens one; other characters leave the wires alone |
| Level.Finished | src/level.rs:111-203 | after the last line, the raw maps hold exactly the tiles, counts and wires of the text, in row-negated coordinates |
| Level.ShiftedLoaded | src/level.rs:205-232 | once every line is read, shifting the raw maps up by the height gives everything the load promises |
| Level.ShiftTiles | src/level.rs:216-222 | the copied tile map is the original with every key moved up by the height, and nothing else |
| Level.ShiftLinks | src/level.rs:224-230 | the copied wire map moves both endpoints of every wire up by the height, and nothing else |
| Level.OccShift | src/level.rs:216-230 | the occurrence sequence of a digit after the shift is the pointwise shift of the unshifted one |
| Level.TilesMatchShift | src/level.rs:216-222 | the shift carries the text-tile correspondence over to the final coordinates |
| Level.SymmetricShift | src/level.rs:224-230 | the shift keeps wires symmetric |
| Level.PairedShift | src/level.rs:224-230 | the shift keeps the pairing of digit occurrences |
| Level.LinksFromPairsShift | src/level.rs:224-230 | after the shift every wire still comes from a pair of equal digits |
| Level.PosInLevelIffTileCell | src/level.rs:301-306 | on a loaded level a position is in the level exactly when a tile character sits at that cell |
| Level.MaxColumnsBound | src/level.rs:199-200 | no line is wider than the level width |
| Level.TilesInBounds | src/level.rs:117-232 | every tile of a loaded level has 0 ≤ x < width, 1 ≤ y ≤ height and no shadow |
| Rovers.Moved | src/rover.rs:105-119 | Wait and only Wait keeps the position; Up/Down change y by exactly one; Left/Right change x by exactly one |
| Rovers.Opposite | src/rover.rs:105-119 | Wait is its own opposite and every move has a different opposite |
| Rovers.MovesCancel | src/rover.rs:105-119 | a move followed by its opposite returns the rover to where it was |
| Rovers.AllDoneFrom | src/rover.rs:182-186 | the short-circuit scan is true iff every rover from index i on is past the end of its list |
| Rovers.AllDone | src/rover.rs:182-186 | `all_done` is true iff every active index is at least the length of its rover's list |
| Rovers.Advanced | src/rover.rs:143-175 | each index entry grows by exactly the number of settled rovers carrying that identifier; the vector length is kept |
| Rovers.Perform | src/rover.rs:100-119 | performing an action changes only the logical position, by that action's offset |
| Rovers.Started | src/rover.rs:95-120 | every rover performs the first action of the list its identifier selects |
| Rovers.Continued | src/rover.rs:204-230 | the k-th rover performs action `idx[k]` of list k; rovers without a list stay put |
| Rovers.StartedAll | src/rover.rs:87-121 | the rover count is kept across all execute events of a frame |
| Rovers.ContinuedAll | src/rover.rs:199-232 | the rover count is kept across all InProgress responses of a frame |
| Rovers.ActionExecution.constructor | src/rover.rs:47-51 | the resource starts inactive, with no lists and the index vector [0, 0] |
| Rovers.ActionExecution.Start | src/rover.rs:87-121 | one execute event activates execution, installs the lists, resets the indices to [0, 0], and moves every rover by its list's first action |
| Rovers.ActionExecution.Step | src/rover.rs:133-191 | inactive or no level: nothing changes; otherwise every settled rover advances its own index once and sends one request, and execution stays active iff no rover settled and not all lists are done |
| Rovers.ActionExecution.Continue | src/rover.rs:199-231 | only InProgress has an effect: it re-activates execution and moves each rover by its current action, leaving lists and indices alone |
| Rovers.ActionExecution.StartExecution | src/rover.rs:82-122 | all execute events in order; the last one's lists are installed |
| Rovers.ActionExecution.ContinueExecution | src/rover.rs:194-233 | all responses in order; execution is active afterwards iff it was before or some response was InProgress |
| Rovers.InProgressPrefix | src/rover.rs:199-200 | fewer responses never hold more InProgress answers |
| PuzzleEvaluation.FirstMissing | src/puzzle_evaluation.rs:56-65 | the index of the first rover standing on no tile, or the rover count when all stand on tiles |
| PuzzleEvaluation.Drained | src/puzzle_evaluation.rs:67-75 | a rover on a shadowed tile loses exactly one battery unit, on an unshadowed tile none, and nothing else changes |
| PuzzleEvaluation.AfterPass | src/puzzle_evaluation.rs:56-80 | reference definition of one pass: each rover before the first one without a tile is drained as `Drained` says and the rest are untouched; its contract keeps the rover count |
| PuzzleEvaluation.EvaluatePass | src/puzzle_evaluation.rs:54-91 | the in-place pass leaves the rovers as `AfterPass` says and returns the verdict: no tile, all on finish, out of battery, or undecided |
| PuzzleEvaluation.OnPuzzleEvaluationRequest | src/puzzle_evaluation.rs:30-93 | no level: nothing is emitted and no rover changes; otherwise the answers and rovers are those of processing the requests one by one, stopping after Solved or at a missing tile |
| PuzzleEvaluation.AnsweringStep | src/puzzle_evaluation.rs:38-92 | one request, by its verdict: a missing tile ends the handler with the answers so far, Solved is the last answer, Failed is written and the loop goes on, and an undecided request writes nothing |
| PuzzleEvaluation.SolvedIffAllOnFinish | src/puzzle_evaluation.rs:54-85 | a pass answers Solved iff every rover stands on a finish tile |
| PuzzleEvaluation.NoRoversSolved | src/puzzle_evaluation.rs:54-85 | with no rovers, a pass answers Solved |
| PuzzleEvaluation.FailedOnlyWhenEmpty | src/puzzle_evaluation.rs:82-91 | Failed means not all rovers are on finish tiles and some rover has battery 0 after the drain |
| PuzzleEvaluation.DrainIsExact | src/puzzle_evaluation.rs:67-75 | after a full pass each rover keeps its position and loses one unit exactly when its tile is shadowed |
| PuzzleEvaluation.DrainedOnFinishStillSolves | src/puzzle_evaluation.rs:67-85 | a rover drained to 0 on a finish tile does not prevent Solved |
| PuzzleEvaluation.AbortLeavesRest | src/puzzle_evaluation.rs:56-75 | at a missing tile the pass aborts with no verdict; every earlier rover has lost one unit exactly when its tile is shadowed, and the rover without a tile and all later ones are untouched |
| PuzzleEvaluation.SolvedEndsTheFrame | src/puzzle_evaluation.rs:38-86 | at most one answer per request, and Solved can only be the last answer of a frame |
| ControlUi.Appended | src/ui/control_ui.rs:867-874 | a press appends `(type, selection)` to the selected list only if the selection exists and that list holds fewer than 12000 commands; all other lists are unchanged |
| ControlUi.AppendedAllIsCapped | src/ui/control_ui.rs:819-887 | a frame's presses append their commands in order until the list holds `MAX_COMMANDS` (12000); later ones are dropped and other lists never change |
| ControlUi.AppendedAllMissing | src/ui/control_ui.rs:867 | presses for a selection with no list change nothing |
| ControlUi.Removed | src/ui/control_ui.rs:923-927 | deleting removes exactly the element at the action index of the named list, keeping the order of the rest and all other lists |
| ControlUi.RemovedMultiset | src/ui/control_ui.rs:923-927 | the deleted command is the only one missing from the list |
| ControlUi.Cleared | src/ui/control_ui.rs:949-951 | clearing empties every list and keeps the number of lists |
| ControlUi.HasNoActions | src/ui/control_ui.rs:771 | true iff every list is empty |
| ControlUi.HasCommands | src/ui/control_ui.rs:175-176 | true iff some list is non-empty |
| ControlUi.ClearShownIffExecutable | src/ui/control_ui.rs:175-176 | the clear button is shown exactly when Execute is allowed, that is when the all-empty test of the execute handler fails |
| ControlUi.ClearedHasNoActions | src/ui/control_ui.rs:949-951 | after a clear, Execute is refused and the clear button is hidden |
| ControlUi.AppendedKeeps | src/ui/control_ui.rs:867-874 | appending keeps every action in its own rover's list and every list within the cap |
| ControlUi.RemovedKeeps | src/ui/control_ui.rs:923-927 | deleting keeps the same invariant |
| ControlUi.ClearedKeeps | src/ui/control_ui.rs:949-951 | clearing establishes the same invariant |
| ControlUi.InitialKeeps | src/game_control/actions.rs:40-43 | the initial program satisfies the same invariant |
| ControlUi.Expand | src/ui/control_ui.rs:334-371 | the commands a sequence of runs stands for have as many entries as the counts add up to |
| ControlUi.RunsCover | src/ui/control_ui.rs:334-371 | the run counts sum to the list length, and a list has no runs iff it is empty |
| ControlUi.CloseRun | src/ui/control_ui.rs:346-356 | emitting the open run yields a correct grouping of the prefix read so far |
| ControlUi.GroupStep | src/ui/control_ui.rs:342-360 | a command of the open run's type lengthens it; any other type emits the open run, if any, and opens a new one; either way the runs so far group the list read so far |
| ControlUi.EmitLast | src/ui/control_ui.rs:362-371 | after the loop, emitting the open run, if any, completes a correct grouping of the whole list |
| ControlUi.GroupRuns | src/ui/control_ui.rs:334-371 | the runs spell out the list's action types, are non-empty, alternate in type and report the last index of each run |
| ControlUi.RebuildRuns | src/ui/control_ui.rs:325-371 | one column per rover (at most six, the colour count); a rover with a list gets its correct grouping, one without gets none |
| ControlUi.IsDescendantIffInSubtree | src/ui/control_ui.rs:1099-1113 | `is_descendant(p, t)` holds iff t is p or lies in the subtree of some child of p |
| ControlUi.FirstOwner | src/ui/control_ui.rs:1071-1087 | the first rover, in query order, one of whose children has the clicked entity below it, or none |
| ControlUi.AsUsize | src/ui/control_ui.rs:898 | the `i32` to `usize` cast keeps non-negative values and wraps negative ones to the top of the range |
| ControlUi.LastPressed | src/ui/control_ui.rs:895-901 | the button of the last press in the frame, present iff some button was pressed |
| ControlUi.ActionListResource.constructor | src/game_control/actions.rs:40-43 | the resource starts as the initial program |
| ControlUi.ActionListResource.CommandButtonHandler | src/ui/control_ui.rs:812-887 | presses append to the selected list as `AppendedAll` says; one write per successful append, each written list carrying the selection; the number of writes is the number of presses that fit under the cap |
| ControlUi.ActionListResource.DeleteActionHandler | src/ui/control_ui.rs:914-938 | every pressed delete button removes its element in order; one write iff something was pressed |
| ControlUi.ActionListResource.ClearAllHandler | src/ui/control_ui.rs:940-963 | any press empties every list; one write iff something was pressed |
| ControlUi.ActionListResource.RobotButtonHandler | src/ui/control_ui.rs:889-912 | the last pressed button's index, cast to `usize`, becomes the selection; the lists are untouched; one write iff something was pressed |
| ControlUi.ActionListResource.RoverClick | src/ui/control_ui.rs:1059-1096 | outside Programming nothing changes; otherwise the first owning rover's identifier becomes the selection, written only if it differs from the old one |
| ControlUi.FirstOwnerIsFirst | src/ui/control_ui.rs:1071-1087 | the rover the nested search stops at is the first owner |
| ControlUi.ExecuteHandler | src/ui/control_ui.rs:759-810 | an attempt is a button press, or Space in Programming; help is shown iff an attempt meets all-empty lists; otherwise an attempt switches to Execution and sends exactly the current lists; without an attempt nothing happens |
| ControlUi.SentListsMayNotStart | src/rover.rs:96-102 | lists that execute_handler sends, because not all are empty, can still fail start_execution's demands: a second rover with an empty list, or a rover identifier of 2 or more against the index vector `[0, 0]` |

## Left out

- Rendering: the smooth movement between tiles in `action_execution` is floating point. Whether a rover reached its target tile in a frame is an input of `Rovers.ActionExecution.Step`.
- Particles, audio, button colours, scaling, scrolling and all UI layout are left out.
- The shadow-mask pixel sampling that sets a tile's shadow flag is left out. Tiles come out of the parser unshadowed, and puzzle evaluation takes the shadow flags as given.
- File and asset I/O are left out.
  - The async reader's text reaches `Level.Load` already split into lines, as Rust's `lines()` splits it. That split strips the newline, so the parser's newline branch is modelled but cannot be reached.
  - The level index is a `nat`; the source's `u32` setting is not bounded.
  - The shadow-map image handle is not part of `Level.Level`.
- Bevy's scheduling, queries and events are left out. A frame's events and a query's rovers are sequences or arrays, in iteration order.
- Level.Load: the `i8` width, height and counters may not overflow (debug-build panic), so it requires at most 127 lines, 127 columns, 127 `S` and 127 `E`. Release-build wrap-around is not modelled.
- Rovers.ActionExecution.Step: with a level handle present it assumes the asset is loaded, so the `unwrap` panic at src/rover.rs:137 is not modelled; `levelLoaded` stands for both lookups.
- Rovers.CanStart: `Rovers.ActionExecution.Start` and `StartExecution` require it of every rover, so the panics of start_execution are not modelled: indexing the lists by the identifier (src/rover.rs:98), indexing the index vector `[0, 0]` (src/rover.rs:101), and the `unwrap` of a missing first action (src/rover.rs:102). It also requires that the first move stays in `i8`.
- Rovers.CanContinue: `Rovers.ActionExecution.Continue` and `ContinueExecution` require it, so indexing the index vector at src/rover.rs:211 and the `unwrap` of a missing current action at src/rover.rs:212 are not modelled as panics.
- Rovers.AllDoneDefined: `Rovers.AllDone` requires that every list the short-circuit scan reads exists, so the out-of-range `action_list[i]` at src/rover.rs:186 is not modelled as a panic.
- Rovers.CanAdvance: `Rovers.ActionExecution.Step` requires, for a running and loaded execution, that each settled rover's identifier indexes the index vector, so the panics of `action_list[robot_num]` at src/rover.rs:146 and of `active_action_idx[robot_num]` at src/rover.rs:173 are not modelled.
- ControlUi.DeletesDefined: `ControlUi.ActionListResource.DeleteActionHandler` requires that each delete names an existing list and an existing command, so the `unwrap` and `remove` panics at src/ui/control_ui.rs:923-927 are not modelled.
- ControlUi.ActionListResource.CommandButtonHandler: it requires that any press or hover finds the selection below the six rover colours, so the colour `unwrap` panics at src/ui/control_ui.rs:865 and src/ui/control_ui.rs:878 are not modelled.
- ControlUi.SentListsMayNotStart: `ControlUi.ExecuteHandler` sends any lists that are not all empty, but `Rovers.CanStart` can fail for them: a rover whose own list is empty, or one whose identifier is 2 or more. The game panics there. The model keeps the two systems apart and does not model that panic; this lemma shows both cases.
- Rovers.ActionExecution.Step: the rovers are a value sequence, because only their identifiers are read there; the positions are unchanged by that system's logical part.
- `PuzzleResponseEvent` is imported by src/rover.rs:4 but not defined in src/puzzle_evaluation.rs, which comes from a different revision and emits separate solved and failed events. `Rovers.PuzzleResponse` assumes the variants InProgress, Solved and Failed. How the evaluation's answers become responses is not modelled.
- The debug-log entity request of `on_rover_click` and the `execute_action_by_key` debug shortcut are left out.
- Help dialog contents: ExecuteHandler only reports that help is shown.
