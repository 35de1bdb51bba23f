/**
  One iteration of the Train bot's play loop, as a function of the
  controller's state and the server's replies, and the loop itself over a
  finite list of iterations.

  Every iteration asks for the bot's info, then (when the bot is alive) its
  location, then possibly sets its direction and always sets its speed. The
  server's replies are inputs: a reply that is an error is modelled as a
  failed outcome, and a request whose reply failed still counts as issued.
 */
module Train {
  import opened Wrappers
  import opened Walls

  /** The speed the bot asks for on every iteration that gets that far. */
  const Speed: int := 50

  /** The requests the play loop sends to the server. */
  datatype Request =
    | GetInfo
    | GetLocation
    | SetDirection(direction: Heading)
    | SetSpeed(speed: int)

  /** Reply to a getInfo request; `points` is only reported, never acted on. */
  datatype InfoReply = InfoOk(health: real, gameNumber: int, points: real) | InfoFailed

  /** Reply to a getLocation request. */
  datatype LocationReply = LocationOk(x: real, y: real) | LocationFailed

  /** What the server answers during one iteration; a part is read only when
      the iteration gets as far as the matching request. */
  datatype TickInput = TickInput(
    info: InfoReply,
    location: LocationReply,
    directionOk: bool,
    speedOk: bool)

  /** How one iteration ends. */
  datatype TickEnd =
    | Acted             // the speed request went through
    | Disabled          // health is 0: nothing more is sent
    | Warned(failed: Request)  // a recoverable failure of this request ended the iteration
    | Quit              // the info request failed: the process exits
    | Crashed           // the wall state was read before any game had set it
  {
    /** The play loop does not go on after this iteration. */
    predicate Halts() {
      Quit? || Crashed?
    }
  }

  /** The wall-following state that every new game resets. */
  datatype Nav = Nav(mode: Mode, turnDistance: real, requestedDirection: Option<Heading>)

  /** The controller state: the last game number seen (0 before any game),
      and the wall-following state, which does not exist (None) until the
      first new game has been seen. */
  datatype State = State(gameNumber: int, nav: Option<Nav>)

  const Initial: State := State(0, None)

  /** The state right after a new game with this number is seen. */
  function NewGame(gameNumber: int, arenaSize: real): State {
    State(gameNumber, Some(Nav(Start, arenaSize / 5.0, None)))
  }

  datatype TickResult = TickResult(state: State, requests: seq<Request>, end: TickEnd)

  /** Game reset: a game number other than the recorded one starts a new game. */
  function Enter(s: State, gameNumber: int, arenaSize: real): State {
    if gameNumber != s.gameNumber then NewGame(gameNumber, arenaSize) else s
  }

  /** Wall selection when no wall is chosen yet, then one guarded transition. */
  function Steer(nav: Nav, x: real, y: real, arenaSize: real): Mode {
    var m := if nav.mode == Start then NearestWall(x, y, arenaSize) else nav.mode;
    Turn(m, x, y, arenaSize, nav.turnDistance)
  }

  /** The speed request, sent unconditionally once the iteration gets this far. */
  function SendSpeed(s: State, sent: seq<Request>, speedOk: bool): TickResult {
    TickResult(s, sent + [SetSpeed(Speed)], if speedOk then Acted else Warned(SetSpeed(Speed)))
  }

  /** The commands for the new mode, and only those requests: a direction
      request only when its heading differs from the last one requested, then
      the speed request. The new mode is kept even when a send fails. */
  function Command(gameNumber: int, nav: Nav, mode: Mode, input: TickInput): TickResult
    requires mode.IsWall()
  {
    var h := HeadingOf(mode);
    var moved := nav.(mode := mode);
    if Some(h) != nav.requestedDirection then
      if input.directionOk then
        SendSpeed(State(gameNumber, Some(moved.(requestedDirection := Some(h)))),
                  [SetDirection(h)], input.speedOk)
      else
        TickResult(State(gameNumber, Some(moved)), [SetDirection(h)], Warned(SetDirection(h)))
    else
      SendSpeed(State(gameNumber, Some(moved)), [], input.speedOk)
  }

  /** One iteration of the play loop. */
  function Step(s: State, arenaSize: real, input: TickInput): TickResult {
    match input.info
    case InfoFailed => TickResult(s, [GetInfo], Quit)
    case InfoOk(health, gameNumber, _) =>
      if health == 0.0 then TickResult(s, [GetInfo], Disabled)
      else
        var s' := Enter(s, gameNumber, arenaSize);
        match input.location
        case LocationFailed => TickResult(s', [GetInfo, GetLocation], Warned(GetLocation))
        case LocationOk(x, y) =>
          match s'.nav
          case None => TickResult(s', [GetInfo, GetLocation], Crashed)
          case Some(nav) =>
            var c := Command(s'.gameNumber, nav, Steer(nav, x, y, arenaSize), input);
            c.(requests := [GetInfo, GetLocation] + c.requests)
  }

  datatype RunResult = RunResult(state: State, requests: seq<Request>, halted: bool)

  /** The play loop over a finite list of iterations; it stops early when an
      iteration ends the process. */
  function Steps(s: State, arenaSize: real, inputs: seq<TickInput>): RunResult
    decreases |inputs|
  {
    if inputs == [] then RunResult(s, [], false)
    else
      var t := Step(s, arenaSize, inputs[0]);
      if t.end.Halts() then RunResult(t.state, t.requests, true)
      else
        var rest := Steps(t.state, arenaSize, inputs[1..]);
        RunResult(rest.state, t.requests + rest.requests, rest.halted)
  }

  /** The controller invariant: before any game the recorded number is still 0;
      afterwards the turn distance is a fifth of the arena and no direction is
      recorded while no wall is chosen. */
  ghost predicate Inv(s: State, arenaSize: real) {
    match s.nav
    case None => s.gameNumber == 0
    case Some(nav) =>
      nav.turnDistance == arenaSize / 5.0
      && (nav.mode == Start ==> nav.requestedDirection == None)
  }

  predicate Alive(input: TickInput) {
    input.info.InfoOk? && input.info.health != 0.0
  }
}
