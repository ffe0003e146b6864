# Explorer goal sequencer

This project models the control logic of the explorer node of a ROS navigation program
(`src/main.cpp`). The node loads four 2-D targets from the parameter server. It is
meant to send the robot to each target in turn through the move_base action interface,
and to rotate the robot in place after every arrival. As written it sends only the
first target, because the rotation routine never returns (see below).

The model has five modules:

- `Goals`: a target is the list of numbers read from one parameter. The goal for the
  target under the cursor has frame `"map"`, position `(x, y, 0)` and orientation
  `w = 1` (`fetch_next_explorer_goal`).
- `Catalogue`: the parameter names `/aruco_lookup_locations/target_1` to `target_4`,
  `getParam` on a map of parameters, and the catalogue the loading loop builds.
- `Sequencing`: the main loop as a pure state machine over the catalogue, the cursor
  (`current_target_id`), the goal-sent flag (`explorer_goal_sent`) and a `hung` mark.
  `Step` is one iteration. `Run` runs the loop over the action statuses polled in
  successive iterations. It records the goals sent, and stops with `fault` where an
  iteration would index the catalogue out of range.
- `ExplorerNode`: the globals as a class `Explorer` whose methods update them in place.
  `LoadTargets` is the loading `for` loop, `Tick` one loop iteration, `RunLoop` the
  `while (ros::ok())` loop, and `UpdateOdom` the odometry callback. `Launch` is `main`.
  Each method is proved against the `Sequencing` and `Catalogue` functions.

The rotation routine `rotate_robot` is an abstract step with two behaviours:

- `Diverges` is the code as written. Its unconditional `while (true)` never returns.
  The model marks the state `hung`, and nothing changes after that.
- `Settles` is a routine that returns, as the commented-out settle test intended.

Under `Diverges` the advance branch of the loop is unreachable. The program sends the
goal for `target_1` and nothing more (`DivergingRotationNeverAdvances`,
`LaunchAsWrittenSendsFirstTarget`). Under `Settles` the advance bound is wrong (see
Findings).

Where the intended design and the code disagree, the model follows the code:

- Target parameters are not validated. An absent parameter, or one that is not a list,
  loads as an empty entry. A list of the wrong length, such as `[1.0]`, loads as it is.
- Aborted and other non-success statuses are not handled differently from Pending or
  Active. They leave the state alone apart from setting the flag.
- The rotation routine has no timeout and never returns.
- The loop does not stop at the end of the catalogue. Its guard is `current_target_id < 5`.

## Model

| member | source | states |
|---|---|---|
| Goals.FetchNextGoal | src/main.cpp:90-102 | the goal is in frame "map", with orientation w = 1 (x, y, z = 0) and position z = 0; it requires the cursor to index an entry that has x and y |
| Goals.GoalCarriesTarget | src/main.cpp:93-99 | the goal's planar position is exactly the first two numbers of targets[cursor], so a two-number target is recovered from its goal |
| Goals.SameGoalIffSamePosition | src/main.cpp:93-98 | two catalogue entries give the same goal if and only if they agree on x and y |
| Catalogue.NatToStringInjective | src/main.cpp:117 | std::to_string on non-negative ints is injective |
| Catalogue.TargetParamNamesDistinct | src/main.cpp:117 | different loop indices read different parameter names |
| Catalogue.GetParam | src/main.cpp:118-119 | getParam yields the stored list when the name is present and leaves the vector empty when it is absent |
| Catalogue.FetchTargets | src/main.cpp:116-121 | loading indices lo..hi-1 gives hi-lo entries, the k-th read from parameter lo+k |
| Catalogue.LoadedTargets | src/main.cpp:116-121 | the catalogue has exactly four entries, entry k read from target_(k+1), in parameter order |
| Catalogue.CompleteConfigurationIsWellFormed | src/main.cpp:116-121 | when all four parameters are present with x and y, a goal can be built for every entry |
| Catalogue.MissingParameterBreaksCatalogue | src/main.cpp:118-120 | a missing parameter is loaded silently as an empty entry, so no goal can be built for that position |
| Sequencing.Init | src/main.cpp:17-21 | at program start the cursor is 0, no goal has been sent, and control is in the loop |
| Sequencing.Step | src/main.cpp:164-182 | a goal is sent iff none was outstanding, and it is the current target's goal; the cursor moves by 0 or 1, and by 1 iff a success was followed by a rotation that returned and the guard held; the flag is clear afterwards iff the cursor moved; a success with a diverging rotation loses control for good; the catalogue never changes |
| Sequencing.Run | src/main.cpp:164-196 | a run sends at most one goal per iteration, never changes the catalogue, and stops on a fault only where the next goal cannot be built |
| Sequencing.SendsInCatalogueOrder | src/main.cpp:164-182 | for any polled statuses, the goals a run sends are consecutive catalogue targets starting at the first unsent one: each at most once, in order, never past the end |
| Sequencing.CursorNeverDecreases | src/main.cpp:177-178 | over any run the cursor never decreases and grows by at most one per iteration |
| Sequencing.AsWrittenCursorBounded | src/main.cpp:177-178 | with the guard as written, a cursor starting in [0, 5] stays in [0, 5] |
| Sequencing.NoSuccessSendsOnce | src/main.cpp:167-173 | with no success polled, a run sends exactly one goal if none was outstanding and none otherwise; afterwards only the flag has changed, and it is set |
| Sequencing.TerminalIsIdempotent | src/main.cpp:173-182 | once the flag is set and the guard fails, no goal is sent again and the cursor stays put; with a rotation that returns, the state does not change at all |
| Sequencing.DivergingRotationNeverAdvances | src/main.cpp:173-180 | with the rotation routine as written, the cursor never moves, at most one goal is sent, and no lookup goes out of range |
| Sequencing.AsWrittenSendsOnlyFirstTarget | src/main.cpp:164-182 | from program start with the diverging rotation, the only goal ever sent is target 0's |
| Sequencing.AsWrittenOverrunsCatalogue | src/main.cpp:177-180 | with the guard as written, a settling rotation and only successes, a well-formed catalogue of at most five entries is sent in order and the cursor then reaches the catalogue size with the flag clear, so the run faults |
| Sequencing.AsWrittenOverrunsFourTargets | src/main.cpp:177 | for four targets, five successes send goals 0..3 and then fault at cursor 4 |
| Sequencing.AsWrittenOverrunsWithPendingPolls | src/main.cpp:173-180 | with the guard as written and a Pending poll before each Succeeded, a well-formed catalogue of at most five entries is sent in order and the run then faults at cursor \|targets\| |
| Sequencing.AsWrittenStepLeavesCatalogue | src/main.cpp:93 | from cursor 3 of four with a goal outstanding, a success leads to cursor 4 with the flag clear, where the next lookup is out of range |
| Sequencing.CorrectedKeepsCursorInRange | src/main.cpp:177 | with the corrected guard, every iteration keeps the cursor a valid index and the next iteration defined |
| Sequencing.CorrectedNeverFaults | src/main.cpp:177 | with the corrected guard, no run from a valid cursor ever looks up a target out of range |
| Sequencing.CorrectedVisitsEachTargetOnce | src/main.cpp:164-182 | with the corrected guard and only successes, each remaining target is sent exactly once, in order, and the loop rests on the last target with the flag set (it keeps polling rather than stopping) |
| Sequencing.TwoTargetScenario | src/main.cpp:164-182 | for targets (1.0, 0.0), (2.0, 1.5) and three successes, the corrected loop sends exactly those two goals, and the loop as written faults at cursor 2 |
| ExplorerNode.Explorer.constructor | src/main.cpp:16-21 | the globals start with no targets, cursor 0 and no goal sent |
| ExplorerNode.Explorer.UpdateOdom | src/main.cpp:67-69 | the stored odometry becomes the argument, and nothing else changes |
| ExplorerNode.Explorer.LoadTargets | src/main.cpp:116-121 | the catalogue becomes the old catalogue followed by the four loaded targets |
| ExplorerNode.Explorer.Tick | src/main.cpp:164-182 | the globals and the goal sent are those of Sequencing.Step with the guard as written |
| ExplorerNode.Explorer.RunLoop | src/main.cpp:164-196 | the globals, the goals sent and the fault are those of Sequencing.Run with the guard as written |
| ExplorerNode.Launch | src/main.cpp:104-199 | main sends exactly the goals the specification's run sends from program start over the loaded catalogue |
| ExplorerNode.LaunchAsWrittenSendsFirstTarget | src/main.cpp:72-87 | with a complete configuration and rotate_robot as written, main sends the goal for target_1 and nothing more |
| ExplorerNode.LaunchSettlingOverruns | src/main.cpp:116-180 | with a complete configuration and a rotation that returns, five successes send the four goals and then fault at cursor 4 |

## Left out

- ROS plumbing is not modelled: ros::init, the publisher and subscriber, the action client, `waitForServer`, `sendGoal`, `getState` and `loop_rate.sleep`. They are foreign middleware calls. The polled status is an input, and a sent goal is an output.
- `broadcast` and `listen` are not modelled. They publish and look up a constant tf2 transform and log the result, and they do not affect sequencing.
- The body of `rotate_robot` is not modelled: the 0.8 rad/s velocity command and the loop that prints the odometry. The routine is only the abstract step `Diverges` or `Settles`.
- Callback scheduling is not modelled. As written, nothing services the subscriber's callback queue: `ros::spinOnce()` is commented out and the rotation routine never yields. So `update_odom_value` is never actually called. `UpdateOdom` models what the callback would do if it ran: a store that overwrites the odometry.
- Floating-point values are `real`. Only their identity matters, so NaN and rounding are not modelled.
- Timestamps (`ros::Time::now()`) and all logging are left out.
- Catalogue.GetParam: a parameter is either absent or a list of numbers. A list with an element that is not a number is not modelled. `getParam` resizes the vector for such a list and fills it only partly.
- The commented-out follower code and the unused `follower_goal_sent` flag are left out. They are dead code.
- Sequencing.Run: `ros::ok()` becoming false is modelled as the end of the status sequence. An out-of-range lookup is undefined behaviour in the source; the model stops the run there with `fault`.

## Findings

| source | as written | input that shows it | evidently intended | confidence | as-written member | corrected member |
|---|---|---|---|---|---|---|
| src/main.cpp:177 | the cursor advances while `current_target_id < 5`, but only four targets are loaded (lines 116-121) and the next iteration reads `targets[current_target_id]` (line 93) | four well-formed targets, a rotation routine that returns, and five `SUCCEEDED` polls: the fifth iteration reads `targets[4]` | advance only while the next index is inside the catalogue (`cursor + 1 < \|targets\|`), then stay on the last target with the flag set; the loop keeps polling, and because the status stays SUCCEEDED it enters the rotation routine again on every later iteration (the model does not record rotation calls), where the intended design would stop the loop | high; not executed; unreachable as written because `rotate_robot` never returns | Sequencing.AsWrittenOverrunsFourTargets | Sequencing.CorrectedNeverFaults |

The `Explorer` class keeps the guard as written, since it models the program as it
stands. The corrected guard is `Sequencing.Guard.Corrected`. Its properties are proved
in `CorrectedKeepsCursorInRange`, `CorrectedNeverFaults` and
`CorrectedVisitsEachTargetOnce`.
