/**
  The Train bot's play loop as it runs: a controller whose fields are the
  loop's variables, updated step by step in each iteration, with the requests
  of an iteration returned in the order they are sent. Each method is proved
  to do what Train.Step and Train.Steps say.
 */
module Bot {
  import opened Wrappers
  import opened Walls
  import opened Train
  import TrainProperties

  class Controller {
    /** Side of the square arena, from the server's configuration. */
    const arenaSize: real

    /** The last game number seen; 0 before any game. */
    var gameNumber: int

    /** False until the first new game is seen: before that the three fields
        below hold no value of the bot's (their values are placeholders). */
    var bound: bool
    var currentMode: Mode
    var turnDistance: real
    var requestedDirection: Option<Heading>

    /** The controller's state as a value. */
    function Snapshot(): State
      reads this
    {
      State(gameNumber, if bound then Some(Nav(currentMode, turnDistance, requestedDirection)) else None)
    }

    ghost predicate Valid()
      reads this
    {
      Inv(Snapshot(), arenaSize)
    }

    constructor (arenaSize: real)
      ensures this.arenaSize == arenaSize
      ensures Snapshot() == Initial
      ensures Valid()
    {
      this.arenaSize := arenaSize;
      gameNumber := 0;
      bound := false;
      currentMode := Start;
      turnDistance := 0.0;
      requestedDirection := None;
    }

    /** One iteration of the play loop: the requests it sends, in order, and
        how it ends. */
    method Tick(input: TickInput) returns (requests: seq<Request>, end: TickEnd)
      requires Valid()
      modifies this
      ensures Valid()
      ensures var t := Step(old(Snapshot()), arenaSize, input);
        Snapshot() == t.state && requests == t.requests && end == t.end
    {
      ghost var start := Snapshot();
      TrainProperties.StepKeepsInv(start, arenaSize, input);
      requests := [GetInfo];
      if input.info.InfoFailed? {
        end := Quit;
        return;
      }
      if input.info.health == 0.0 {
        end := Disabled;
        return;
      }
      if input.info.gameNumber != gameNumber {
        gameNumber := input.info.gameNumber;
        bound := true;
        currentMode := Start;
        turnDistance := arenaSize / 5.0;
        requestedDirection := None;
      }
      assert Snapshot() == Enter(start, input.info.gameNumber, arenaSize);
      requests := requests + [GetLocation];
      if input.location.LocationFailed? {
        end := Warned(GetLocation);
        return;
      }
      var x, y := input.location.x, input.location.y;
      if !bound {
        end := Crashed;
        return;
      }
      UpdateMode(x, y);
      var sent;
      sent, end := SendCommands(input);
      requests := requests + sent;
    }

    /** Wall selection when no wall is chosen yet, then at most one transition
        to the next wall counter-clockwise. */
    method UpdateMode(x: real, y: real)
      requires bound
      modifies this`currentMode
      ensures currentMode == Steer(old(Snapshot()).nav.value, x, y, arenaSize)
    {
      if currentMode == Start {
        currentMode := SelectWall(x, y, arenaSize);
      }
      if currentMode == Left && y < turnDistance {
        currentMode := Bottom;
      } else if currentMode == Bottom && x > arenaSize - turnDistance {
        currentMode := Right;
      } else if currentMode == Right && y > arenaSize - turnDistance {
        currentMode := Top;
      } else if currentMode == Top && x < turnDistance {
        currentMode := Left;
      }
    }

    /** The direction request when the heading changed, then the speed request;
        a failed send ends the iteration with a warning. */
    method SendCommands(input: TickInput) returns (requests: seq<Request>, end: TickEnd)
      requires bound && currentMode.IsWall()
      modifies this`requestedDirection
      ensures var t := Command(gameNumber, old(Snapshot()).nav.value, currentMode, input);
        Snapshot() == t.state && requests == t.requests && end == t.end
    {
      requests := [];
      var newDirection := HeadingOf(currentMode);
      if Some(newDirection) != requestedDirection {
        requests := requests + [SetDirection(newDirection)];
        if !input.directionOk {
          end := Warned(SetDirection(newDirection));
          return;
        }
        requestedDirection := Some(newDirection);
      }
      requests := requests + [SetSpeed(Speed)];
      end := if input.speedOk then Acted else Warned(SetSpeed(Speed));
    }

    /** The play loop over a finite list of iterations, stopping when an
        iteration ends the process. */
    method Play(inputs: seq<TickInput>) returns (requests: seq<Request>, halted: bool)
      requires Valid()
      modifies this
      ensures Valid()
      ensures var r := Steps(old(Snapshot()), arenaSize, inputs);
        Snapshot() == r.state && requests == r.requests && halted == r.halted
    {
      requests, halted := [], false;
      var i := 0;
      while i < |inputs| && !halted
        invariant 0 <= i <= |inputs|
        invariant Valid()
        invariant !halted ==>
          var rest := Steps(Snapshot(), arenaSize, inputs[i..]);
          Steps(old(Snapshot()), arenaSize, inputs) == RunResult(rest.state, requests + rest.requests, rest.halted)
        invariant halted ==>
          Steps(old(Snapshot()), arenaSize, inputs) == RunResult(Snapshot(), requests, true)
      {
        var sent, end := Tick(inputs[i]);
        assert inputs[i..][1..] == inputs[i + 1..];
        requests := requests + sent;
        halted := end.Halts();
        i := i + 1;
      }
    }
  }
}
