/**
  What one iteration of the play loop, and the loop over many iterations,
  guarantee: which requests go out and in what order, how the state moves,
  and what each failure leaves behind.
 */
module TrainProperties {
  import opened Wrappers
  import opened Walls
  import opened Train

  /** A failed info request is fatal: nothing else is sent and the state is left as it was. */
  lemma InfoFailureIsFatal(s: State, arenaSize: real, input: TickInput)
    requires input.info.InfoFailed?
    ensures Step(s, arenaSize, input) == TickResult(s, [GetInfo], Quit)
  {
  }

  /** With health 0 only the info request goes out, and nothing changes,
      not even the recorded game number. */
  lemma DisabledTickIsSilent(s: State, arenaSize: real, input: TickInput)
    requires input.info.InfoOk? && input.info.health == 0.0
    ensures Step(s, arenaSize, input) == TickResult(s, [GetInfo], Disabled)
  {
  }

  /** A live bot that sees a new game number forgets everything about the
      previous game: it behaves exactly as from a freshly reset state (wall
      not chosen, turn distance a fifth of the arena, no direction recorded),
      and that reset happens before the location request, so it survives a
      failed location request. */
  lemma NewGameResets(s: State, arenaSize: real, input: TickInput)
    requires Alive(input) && input.info.gameNumber != s.gameNumber
    ensures Step(s, arenaSize, input) == Step(NewGame(input.info.gameNumber, arenaSize), arenaSize, input)
    ensures Step(s, arenaSize, input).state.gameNumber == input.info.gameNumber
    ensures input.location.LocationFailed? ==>
      Step(s, arenaSize, input).state == NewGame(input.info.gameNumber, arenaSize)
  {
  }

  /** A failed location request is a warning: no command goes out, and the
      state is what the game reset left, which is the old state when the
      game number did not change. */
  lemma LocationFailureKeepsState(s: State, arenaSize: real, input: TickInput)
    requires Alive(input) && input.location.LocationFailed?
    ensures Step(s, arenaSize, input) ==
      TickResult(Enter(s, input.info.gameNumber, arenaSize), [GetInfo, GetLocation], Warned(GetLocation))
    ensures input.info.gameNumber == s.gameNumber ==> Step(s, arenaSize, input).state == s
  {
  }

  /** The wall state is read before it exists exactly when the bot is alive,
      has never seen a game number other than the one it starts with, and
      learns its location; under the invariant that game number is 0. */
  lemma CrashesOnlyBeforeFirstGame(s: State, arenaSize: real, input: TickInput)
    ensures Step(s, arenaSize, input).end == Crashed <==>
      && s.nav.None?
      && Alive(input)
      && input.info.gameNumber == s.gameNumber
      && input.location.LocationOk?
    ensures Inv(s, arenaSize) && Step(s, arenaSize, input).end == Crashed ==>
      input.info.gameNumber == 0 && Step(s, arenaSize, input).requests == [GetInfo, GetLocation]
  {
  }

  /** After wall selection and the transition the bot always tracks a wall;
      from a wall it either stays or moves one step round the cycle, and it
      moves exactly when the next wall is nearer than the turn distance. */
  lemma SteerTracksWall(nav: Nav, x: real, y: real, arenaSize: real)
    ensures Steer(nav, x, y, arenaSize).IsWall()
    ensures nav.mode.IsWall() ==>
      Steer(nav, x, y, arenaSize) ==
        if WallDistance(Next(nav.mode), x, y, arenaSize) < nav.turnDistance then Next(nav.mode) else nav.mode
    ensures nav.mode == Start ==>
      Steer(nav, x, y, arenaSize) == Turn(NearestWall(x, y, arenaSize), x, y, arenaSize, nav.turnDistance)
  {
  }

  /** Once the location is known the new mode is kept whatever happens to the
      sends; a direction request is sent exactly when the new heading differs
      from the one last requested, only for that heading, and it is recorded
      unless its send failed; a failed direction send ends the iteration, and
      otherwise the speed send decides how it ends. */
  lemma DirectionOnlyOnChange(s: State, arenaSize: real, input: TickInput)
    requires Alive(input) && input.location.LocationOk?
    requires Enter(s, input.info.gameNumber, arenaSize).nav.Some?
    ensures
      var nav := Enter(s, input.info.gameNumber, arenaSize).nav.value;
      var m := Steer(nav, input.location.x, input.location.y, arenaSize);
      var h := HeadingOf(m);
      var t := Step(s, arenaSize, input);
      && t.state.gameNumber == input.info.gameNumber
      && t.state.nav.Some?
      && t.state.nav.value.mode == m
      && t.state.nav.value.turnDistance == nav.turnDistance
      && (SetDirection(h) in t.requests <==> nav.requestedDirection != Some(h))
      && (forall d :: SetDirection(d) in t.requests ==> d == h)
      && t.state.nav.value.requestedDirection ==
           (if nav.requestedDirection != Some(h) && !input.directionOk then nav.requestedDirection else Some(h))
      && t.end ==
           (if nav.requestedDirection != Some(h) && !input.directionOk then Warned(SetDirection(h))
            else if input.speedOk then Acted
            else Warned(SetSpeed(Speed)))
  {
  }

  /** A speed request of 50 goes out exactly when the iteration gets past the
      direction step; it is then the only speed request and the last request,
      after any direction request. */
  lemma SpeedReassertedLast(s: State, arenaSize: real, input: TickInput)
    ensures var t := Step(s, arenaSize, input);
      SetSpeed(Speed) in t.requests <==> t.end == Acted || t.end == Warned(SetSpeed(Speed))
    ensures var t := Step(s, arenaSize, input);
      t.end == Acted || t.end == Warned(SetSpeed(Speed)) ==>
        && 3 <= |t.requests| <= 4
        && t.requests[|t.requests| - 1] == SetSpeed(Speed)
        && forall i :: 0 <= i < |t.requests| - 1 ==> !t.requests[i].SetSpeed?
  {
  }

  /** A live iteration that learns its location, once a game has been seen,
      sends exactly one speed request of 50, as its last request, unless a
      needed direction request failed; the speed reply alone decides whether
      the iteration then ends with a warning. */
  lemma SpeedSentUnlessDirectionFails(s: State, arenaSize: real, input: TickInput)
    requires Alive(input) && input.location.LocationOk?
    requires Enter(s, input.info.gameNumber, arenaSize).nav.Some?
    ensures
      var nav := Enter(s, input.info.gameNumber, arenaSize).nav.value;
      var h := HeadingOf(Steer(nav, input.location.x, input.location.y, arenaSize));
      var t := Step(s, arenaSize, input);
      var reached := nav.requestedDirection == Some(h) || input.directionOk;
      && (SetSpeed(Speed) in t.requests <==> reached)
      && (reached ==>
            && t.requests[|t.requests| - 1] == SetSpeed(Speed)
            && (forall i :: 0 <= i < |t.requests| - 1 ==> !t.requests[i].SetSpeed?)
            && t.end == (if input.speedOk then Acted else Warned(SetSpeed(Speed))))
  {
  }

  /** After an iteration that went through, the bot tracks a wall and the
      recorded direction is that wall's heading. */
  lemma ActedTickSettles(s: State, arenaSize: real, input: TickInput)
    requires Step(s, arenaSize, input).end == Acted
    ensures var nav := Step(s, arenaSize, input).state.nav;
      nav.Some? && nav.value.mode.IsWall() && nav.value.requestedDirection == Some(HeadingOf(nav.value.mode))
  {
  }

  /** Direction de-duplication across iterations: when an iteration went
      through and the next one, in the same game, stays on the same wall, the
      next one sends no direction request. */
  lemma SecondTickSkipsDirection(s: State, arenaSize: real, first: TickInput, second: TickInput)
    requires Step(s, arenaSize, first).end == Acted
    requires Alive(second) && second.location.LocationOk?
    requires second.info.gameNumber == Step(s, arenaSize, first).state.gameNumber
    ensures var t1 := Step(s, arenaSize, first);
      var t2 := Step(t1.state, arenaSize, second);
      t2.state.nav.Some? && t2.state.nav.value.mode == t1.state.nav.value.mode ==>
        forall d :: SetDirection(d) !in t2.requests
  {
  }

  /** Every iteration keeps the controller invariant. */
  lemma StepKeepsInv(s: State, arenaSize: real, input: TickInput)
    requires Inv(s, arenaSize)
    ensures Inv(Step(s, arenaSize, input).state, arenaSize)
  {
  }

  /** Under the invariant a positive arena gives a positive turn distance. */
  lemma TurnDistancePositive(s: State, arenaSize: real)
    requires Inv(s, arenaSize) && s.nav.Some? && arenaSize > 0.0
    ensures s.nav.value.turnDistance > 0.0
  {
  }

  /** The play loop keeps the controller invariant over any run. */
  lemma {:induction false} StepsKeepInv(s: State, arenaSize: real, inputs: seq<TickInput>)
    requires Inv(s, arenaSize)
    ensures Inv(Steps(s, arenaSize, inputs).state, arenaSize)
    decreases |inputs|
  {
    if inputs != [] {
      StepKeepsInv(s, arenaSize, inputs[0]);
      var t := Step(s, arenaSize, inputs[0]);
      if !t.end.Halts() {
        StepsKeepInv(t.state, arenaSize, inputs[1..]);
      }
    }
  }

  /** While health stays 0 the loop only polls the info request, once per
      iteration, and the state never changes. */
  lemma {:induction false} DisabledRunIsSilent(s: State, arenaSize: real, inputs: seq<TickInput>)
    requires forall i :: 0 <= i < |inputs| ==> inputs[i].info.InfoOk? && inputs[i].info.health == 0.0
    ensures Steps(s, arenaSize, inputs) == RunResult(s, seq(|inputs|, _ => GetInfo), false)
    decreases |inputs|
  {
    if inputs != [] {
      DisabledTickIsSilent(s, arenaSize, inputs[0]);
      DisabledRunIsSilent(s, arenaSize, inputs[1..]);
      assert [GetInfo] + seq(|inputs| - 1, _ => GetInfo) == seq(|inputs|, _ => GetInfo);
    }
  }

  /** Two live iterations in one game driving along the bottom wall: the first
      picks the bottom wall and turns towards the right wall, the second only
      re-asserts the speed. */
  lemma BottomWallRunExample()
    ensures
      var alive := InfoOk(100.0, 1, 0.0);
      Steps(NewGame(1, 100.0), 100.0,
            [TickInput(alive, LocationOk(50.0, 5.0), true, true),
             TickInput(alive, LocationOk(60.0, 5.0), true, true)])
      == RunResult(State(1, Some(Nav(Bottom, 20.0, Some(H0)))),
                   [GetInfo, GetLocation, SetDirection(H0), SetSpeed(50),
                    GetInfo, GetLocation, SetSpeed(50)],
                   false)
  {
    var alive := InfoOk(100.0, 1, 0.0);
    var first := TickInput(alive, LocationOk(50.0, 5.0), true, true);
    var second := TickInput(alive, LocationOk(60.0, 5.0), true, true);
    var settled := State(1, Some(Nav(Bottom, 20.0, Some(H0))));
    NearestWallIsNearest(Bottom, 50.0, 5.0, 100.0);
    assert Step(NewGame(1, 100.0), 100.0, first)
      == TickResult(settled, [GetInfo, GetLocation, SetDirection(H0), SetSpeed(50)], Acted);
    assert Step(settled, 100.0, second) == TickResult(settled, [GetInfo, GetLocation, SetSpeed(50)], Acted);
    assert [first, second][1..] == [second];
    assert Steps(settled, 100.0, [second]) == RunResult(settled, [GetInfo, GetLocation, SetSpeed(50)], false);
  }

  /** The mode is assigned before the sends: tracking the bottom wall near the
      right wall, a failed direction request leaves the bot tracking the right
      wall with the old heading still recorded, so the next iteration sends
      the new heading again. */
  lemma FailedSendKeepsNewMode()
    ensures
      var s := State(1, Some(Nav(Bottom, 20.0, Some(H0))));
      var input := TickInput(InfoOk(100.0, 1, 0.0), LocationOk(85.0, 50.0), false, true);
      var t := Step(s, 100.0, input);
      && t == TickResult(State(1, Some(Nav(Right, 20.0, Some(H0)))),
                         [GetInfo, GetLocation, SetDirection(H90)], Warned(SetDirection(H90)))
      && Step(t.state, 100.0, input.(directionOk := true)).requests
           == [GetInfo, GetLocation, SetDirection(H90), SetSpeed(50)]
  {
  }
}
