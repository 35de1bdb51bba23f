# Train bot: a verified model of its play loop

The Train bot is a netbots client that drives counter-clockwise around the
edge of a square arena. Its `play()` loop runs forever. Each iteration:

1. asks the server for its info (health, game number, points);
2. does nothing more while its health is 0;
3. resets its wall-following state when the game number changes;
4. asks for its location;
5. picks the nearest wall if none is chosen yet, then turns to the next wall
   when the one ahead is within the turn distance;
6. sends a new direction only when the heading changed;
7. re-sends speed 50 every time.

A failed info request ends the process. Any other failed request is a
warning that ends the iteration.

This project models that loop in Dafny 4.11.

- `Walls` (walls.dfy) holds the tables. It defines the modes and headings,
  the wall distances, wall selection (a scan with a strict `<`, proved to
  return the first minimum), the guarded transition, and the heading table.
- `Train` (train.dfy) is the functional specification. `Step` gives one
  iteration's new state, the requests it sent in order, and how it ended.
  `Steps` runs a finite list of iterations and stops when the process would
  exit.
- `TrainProperties` (train_properties.dfy) proves what one iteration and a
  run guarantee.
- `Bot` (bot.dfy) is the loop as it runs. Its `Controller` class has the
  loop's variables as fields (`gameNumber`, `currentMode`, `turnDistance`,
  `requestedDirection`). Its `Tick` and `Play` methods update those fields
  step by step, and are proved to match `Step` and `Steps`.

Modelling choices:

- The server's replies are inputs. One `TickInput` holds the info reply (or
  its failure), the location reply (or its failure), and whether the
  direction and speed sends succeed. A request counts as issued even when
  its reply is an error.
- `currentMode`, `turnDistance` and `requestedDirection` are Python locals.
  They have no value until the first game-number change. The model says so
  with `State.nav == None`, or `bound == false` in the class. If the bot is
  alive in game 0 before any change, line 58 reads `currentMode` unbound.
  This raises a `NameError`, which is not the socket exception the loop
  catches, so the process dies. The model's iteration then ends `Crashed`,
  after the location request has gone out.
- Headings are the four values `H0`, `H90`, `H180` and `H270`. The code sends
  0, pi/2, pi and 3pi/2 radians and only ever compares them for equality.
- `Controller.UpdateMode` and `Controller.SendCommands` are pieces of
  `Tick`, split out so the proof stays small. The source has them inline in
  `play()`.
- The mode is assigned before the direction and speed sends. Selection
  assigns it at robots/train.py:74 and the transitions at lines 85, 89, 93
  and 97. The sends come later, at lines 115 and 121. So a failed send keeps
  the new mode with the old heading still recorded, and the next iteration
  sends that heading again (`TrainProperties.FailedSendKeepsNewMode`). Only
  a failed location request leaves the state exactly as the game-reset step
  left it.

## Model

| member | source | states |
|---|---|---|
| Walls.FirstMinIndex | robots/train.py:67-72 | The strict-`<` scan over the first k distances ends on an index below k. `FirstMinIndexIsFirstMinimum` proves that index is the first minimum. |
| Walls.FirstMinIndexIsFirstMinimum | robots/train.py:67-72 | The left-to-right scan that replaces its pick only on a strictly smaller value ends on a minimum of the scanned distances. Every entry before the pick is strictly larger. |
| Walls.NearestWall | robots/train.py:60-74 | The mode chosen by wall selection is always one of the four walls, never start. |
| Walls.NearestWallIsNearest | robots/train.py:60-74 | A mode is the selected wall if and only if it is no farther than every wall and strictly nearer than every wall before it in the order left, bottom, right, top. |
| Walls.SelectWall | robots/train.py:60-74 | The for loop over the four (wall, distance) choices returns the selected wall. That wall is the nearest one, with ties going to the earliest in scan order. |
| Walls.Turn | robots/train.py:83-98 | The if/elif transition chain. `TurnFollowsCycle` proves it moves only to the next wall counter-clockwise, exactly when that wall is nearer than the turn distance. |
| Walls.HeadingOf | robots/train.py:100-111 | The heading table. `HeadingFollowsWall` proves each heading points at the next wall and no two walls share a heading. |
| Walls.TurnFollowsCycle | robots/train.py:83-98 | From a wall the transition goes only to the next wall counter-clockwise, and it does so exactly when that wall is nearer than the turn distance. From start it changes nothing. |
| Walls.HeadingFollowsWall | robots/train.py:100-111 | Along each wall the heading points at the next wall of the cycle. Distinct walls have distinct headings. |
| Walls.WallExamples | robots/train.py:60-98 | At (50, 50) in a 100 arena the left wall wins the four-way tie. Tracking bottom with turn distance 20, the bot turns right at x = 85 but not at x = 70. |
| Train.Enter | robots/train.py:39-52 | The game-reset step. `NewGameResets` and `LocationFailureKeepsState` prove what it leaves. |
| Train.Steer | robots/train.py:58-98 | Wall selection when the mode is start, then one transition. `SteerTracksWall` proves the result is always a wall, one step round the cycle at most. |
| Train.Command | robots/train.py:100-128 | The direction send on a change and the speed send, with the failure endings. `DirectionOnlyOnChange` and `SpeedSentUnlessDirectionFails` prove its requests, recorded heading and ending from the inputs. |
| Train.Step | robots/train.py:26-128 | One iteration: new state, requests in order, ending. `Bot.Controller.Tick` is proved equal to it. The lemmas `InfoFailureIsFatal` through `SecondTickSkipsDirection` state its properties. |
| Train.Steps | robots/train.py:25-128 | The loop over a finite list of iterations, stopping at a fatal ending. `Bot.Controller.Play` is proved equal to it. `StepsKeepInv` and `DisabledRunIsSilent` state its properties. |
| TrainProperties.InfoFailureIsFatal | robots/train.py:27-33 | A failed info request ends the run. Only that request was sent and the state is unchanged. |
| TrainProperties.DisabledTickIsSilent | robots/train.py:35-37 | With health 0 only the info request is sent. Nothing changes, not even the recorded game number. |
| TrainProperties.NewGameResets | robots/train.py:39-52 | A live bot seeing a new game number records it and behaves exactly as from the reset state: mode start, turn distance arenaSize/5, no direction. The reset survives a failed location request. |
| TrainProperties.LocationFailureKeepsState | robots/train.py:54-56 | A failed location request sends no command and ends with a warning. The state is what the game reset left, which is the old state when the game did not change. |
| TrainProperties.CrashesOnlyBeforeFirstGame | robots/train.py:23-58 | Reading the unset wall state happens if and only if the bot is alive, has seen no game change, and gets its location. Under the invariant that means game number 0. |
| TrainProperties.SteerTracksWall | robots/train.py:58-98 | After selection and the transition the mode is always a wall. From a wall it stays or moves one step round the cycle, and it moves exactly when the next wall is within the turn distance. |
| TrainProperties.DirectionOnlyOnChange | robots/train.py:100-128 | Once the location is known the new mode is kept whether or not the sends succeed. A direction request is sent if and only if the new heading differs from the recorded one, and only for that heading. The heading is recorded unless its send failed (`directionOk` false). The ending is a direction warning when a needed send failed, and otherwise follows the speed reply. |
| TrainProperties.SpeedReassertedLast | robots/train.py:118-121 | A speed-50 request is sent if and only if the iteration ends acted or with a speed warning. It is then the last request, the only speed request, and comes after any direction request. |
| TrainProperties.SpeedSentUnlessDirectionFails | robots/train.py:113-128 | In a live iteration with a location and a game seen, a speed-50 request is sent if and only if the direction send was not needed or succeeded. It is then the last and only speed request, and the iteration ends acted exactly when the speed reply succeeds. |
| TrainProperties.ActedTickSettles | robots/train.py:100-121 | After a fully successful iteration the bot tracks a wall, and the recorded direction is that wall's heading. |
| TrainProperties.SecondTickSkipsDirection | robots/train.py:113-116 | After a successful iteration, a next live iteration in the same game that stays on the same wall sends no direction request. |
| TrainProperties.StepKeepsInv | robots/train.py:39-121 | Every iteration keeps the controller invariant. Before any game the game number is 0. After that the turn distance is arenaSize/5 and no direction is recorded while the mode is start. |
| TrainProperties.TurnDistancePositive | robots/train.py:49 | Under the invariant a positive arena gives a positive turn distance. |
| TrainProperties.StepsKeepInv | robots/train.py:25-128 | Any run of the loop keeps the controller invariant. |
| TrainProperties.DisabledRunIsSilent | robots/train.py:25-37 | While health stays 0 the loop sends exactly one info request per iteration and never changes its state. |
| TrainProperties.BottomWallRunExample | robots/train.py:58-121 | Two live iterations along the bottom wall: the first picks bottom and sends heading 0 then speed. The second sends only the speed. |
| TrainProperties.FailedSendKeepsNewMode | robots/train.py:83-128 | A failed direction send keeps the new mode (right) with the old heading recorded. The next iteration sends the new heading again. |
| Bot.Controller.constructor | robots/train.py:22-23 | The controller starts with game number 0, no wall state, and the invariant. |
| Bot.Controller.Tick | robots/train.py:26-128 | One iteration updates the fields to `Step`'s new state and returns `Step`'s requests and ending. It keeps the invariant. |
| Bot.Controller.UpdateMode | robots/train.py:58-98 | Wall selection when the mode is start, then the if/elif transition chain, sets the mode `Steer` gives. |
| Bot.Controller.SendCommands | robots/train.py:100-128 | The direction request is sent only on a change, then the speed request. A failed send ends with a warning. Requests and the new recorded direction are those of `Command`. |
| Bot.Controller.Play | robots/train.py:25-128 | The loop over a finite list of iterations stops at a fatal end. It leaves the state, requests and halting flag that `Steps` gives, and keeps the invariant. |

## Left out

- `main()` is not modelled. It parses arguments, sets the log level, opens the socket and sends the join request (robots/train.py:142-177), which is process setup and I/O. The arena size is a parameter.
- `quit()` and the SIGINT handler (robots/train.py:135-139, 182) are not modelled. They are process exit and signal handling. A fatal failure is the `Quit` ending, and a run stops there.
- `log(...)` calls and the `points` field are not modelled beyond the reply. They only produce text.
- `netbots_ipc`, `netbots_math`, `netbots_log` and the `sys.path` setup (robots/train.py:9-17) are not part of this model. `sendRecvMessage` is a reply-or-failure input.
- Reply dictionaries that lack a key (a `KeyError`) are not modelled. The server's replies are taken to be well formed.
- Float rounding is not modelled. Arena size, positions and the turn distance are exact reals, so `arenaSize - x`, `arenaSize - turnDistance` and `arenaSize / 5` are exact. A wall-selection tie or a turn threshold that rounds differently in Python floats is not captured.
- Floating-point radians for the headings are not modelled. The four headings are distinct constants, and only their equality matters.
- The `while True` loop never ends, and it busy-polls while health is 0. The model covers single iterations and finite runs of iterations.
