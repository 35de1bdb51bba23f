/**
  The wall-following tables of the Train bot: which wall it tracks, how it
  picks the nearest wall at the start of a game, when it turns to the next
  wall, and which heading it drives along each wall.

  The arena is a square of side `arenaSize` with its corner at the origin;
  positions are exact reals.
 */
module Walls {

  /** The wall the bot drives along; Start means no wall is chosen yet this game. */
  datatype Mode = Start | Left | Bottom | Right | Top {

    predicate IsWall() {
      this != Start
    }
  }

  /** The four headings the bot ever requests, named by their angle in degrees
      (0 points towards increasing x, 90 towards increasing y). The bot sends
      them in radians: 0, pi/2, pi and 3pi/2. */
  datatype Heading = H0 | H90 | H180 | H270

  /** The walls in the order in which wall selection scans them. */
  const Walls: seq<Mode> := [Left, Bottom, Right, Top]

  /** Position of a wall in the scan order. */
  function Rank(w: Mode): (i: nat)
    requires w.IsWall()
    ensures i < |Walls| && Walls[i] == w
  {
    match w
    case Left => 0
    case Bottom => 1
    case Right => 2
    case Top => 3
  }

  /** Distance from (x, y) to a wall of the arena. */
  function WallDistance(w: Mode, x: real, y: real, arenaSize: real): real
    requires w.IsWall()
  {
    match w
    case Left => x
    case Bottom => y
    case Right => arenaSize - x
    case Top => arenaSize - y
  }

  /** The candidate distances in scan order. */
  function Distances(x: real, y: real, arenaSize: real): (ds: seq<real>)
    ensures |ds| == |Walls|
  {
    seq(|Walls|, i requires 0 <= i < |Walls| => WallDistance(Walls[i], x, y, arenaSize))
  }

  /** The index that a left-to-right scan of ds[..k] ends on, when it replaces
      its pick only by a strictly smaller value. */
  function FirstMinIndex(ds: seq<real>, k: nat): (j: nat)
    requires 0 < k <= |ds|
    ensures j < k
  {
    if k == 1 then 0
    else
      var j := FirstMinIndex(ds, k - 1);
      if ds[k - 1] < ds[j] then k - 1 else j
  }

  /** The scan ends on a minimum, and on the first one: every earlier entry is strictly larger. */
  lemma {:induction false} FirstMinIndexIsFirstMinimum(ds: seq<real>, k: nat)
    requires 0 < k <= |ds|
    ensures forall i :: 0 <= i < k ==> ds[FirstMinIndex(ds, k)] <= ds[i]
    ensures forall i :: 0 <= i < FirstMinIndex(ds, k) ==> ds[FirstMinIndex(ds, k)] < ds[i]
  {
    if k > 1 {
      FirstMinIndexIsFirstMinimum(ds, k - 1);
    }
  }

  /** The wall chosen when the bot does not yet know which wall to follow. */
  function NearestWall(x: real, y: real, arenaSize: real): (m: Mode)
    ensures m.IsWall()
  {
    Walls[FirstMinIndex(Distances(x, y, arenaSize), |Walls|)]
  }

  /** m is a wall at least as close as every other wall, and strictly closer
      than every wall that comes before it in the scan order. */
  ghost predicate IsNearest(m: Mode, x: real, y: real, arenaSize: real) {
    && m.IsWall()
    && (forall w: Mode :: w.IsWall() ==>
          WallDistance(m, x, y, arenaSize) <= WallDistance(w, x, y, arenaSize))
    && (forall w: Mode :: w.IsWall() && Rank(w) < Rank(m) ==>
          WallDistance(w, x, y, arenaSize) > WallDistance(m, x, y, arenaSize))
  }

  /** Wall selection picks exactly the wall of minimum distance, ties going to
      the earliest of left, bottom, right, top. */
  lemma NearestWallIsNearest(m: Mode, x: real, y: real, arenaSize: real)
    ensures IsNearest(m, x, y, arenaSize) <==> m == NearestWall(x, y, arenaSize)
  {
    var ds := Distances(x, y, arenaSize);
    var j := FirstMinIndex(ds, |Walls|);
    FirstMinIndexIsFirstMinimum(ds, |Walls|);
    var n := NearestWall(x, y, arenaSize);
    assert Rank(n) == j;
    forall w: Mode | w.IsWall()
      ensures WallDistance(w, x, y, arenaSize) == ds[Rank(w)]
    {
    }
    assert IsNearest(n, x, y, arenaSize);
  }

  /** Wall selection as the bot runs it: a scan over the four (wall, distance)
      choices that replaces the pick only on a strictly smaller distance. */
  method SelectWall(x: real, y: real, arenaSize: real) returns (pickMode: Mode)
    ensures pickMode == NearestWall(x, y, arenaSize)
    ensures IsNearest(pickMode, x, y, arenaSize)
  {
    var choices := [(Left, x), (Bottom, y), (Right, arenaSize - x), (Top, arenaSize - y)];
    ghost var ds := Distances(x, y, arenaSize);
    assert forall k :: 0 <= k < |choices| ==> choices[k] == (Walls[k], ds[k]);
    pickMode := choices[0].0;
    var pickDistance := choices[0].1;
    for i := 1 to |choices|
      invariant pickMode == Walls[FirstMinIndex(ds, i)]
      invariant pickDistance == ds[FirstMinIndex(ds, i)]
    {
      if choices[i].1 < pickDistance {
        pickMode := choices[i].0;
        pickDistance := choices[i].1;
      }
    }
    NearestWallIsNearest(pickMode, x, y, arenaSize);
  }

  /** The next wall counter-clockwise: left, bottom, right, top, left. */
  function Next(w: Mode): Mode
    requires w.IsWall()
  {
    match w
    case Left => Bottom
    case Bottom => Right
    case Right => Top
    case Top => Left
  }

  /** The guarded transition: at most one step, to the next wall, when the
      position is close to the wall the bot is heading for. */
  function Turn(m: Mode, x: real, y: real, arenaSize: real, turnDistance: real): Mode {
    if m == Left && y < turnDistance then Bottom
    else if m == Bottom && x > arenaSize - turnDistance then Right
    else if m == Right && y > arenaSize - turnDistance then Top
    else if m == Top && x < turnDistance then Left
    else m
  }

  /** A tracked wall is left for the next one in the cycle exactly when the
      next wall is nearer than the turn distance; otherwise (and from Start)
      the mode is kept. */
  lemma TurnFollowsCycle(m: Mode, x: real, y: real, arenaSize: real, turnDistance: real)
    ensures !m.IsWall() ==> Turn(m, x, y, arenaSize, turnDistance) == m
    ensures m.IsWall() ==>
      Turn(m, x, y, arenaSize, turnDistance) ==
        if WallDistance(Next(m), x, y, arenaSize) < turnDistance then Next(m) else m
  {
  }

  /** The heading the bot drives along each wall. */
  function HeadingOf(m: Mode): Heading
    requires m.IsWall()
  {
    match m
    case Left => H270
    case Bottom => H0
    case Right => H90
    case Top => H180
  }

  /** The heading that points straight at a wall. */
  function Toward(w: Mode): Heading
    requires w.IsWall()
  {
    match w
    case Left => H180
    case Bottom => H270
    case Right => H0
    case Top => H90
  }

  /** Along each wall the bot heads for the next wall of the cycle, so it goes
      round the arena counter-clockwise; distinct walls give distinct headings. */
  lemma HeadingFollowsWall(m: Mode, w: Mode)
    requires m.IsWall() && w.IsWall()
    ensures HeadingOf(m) == Toward(Next(m))
    ensures HeadingOf(m) == HeadingOf(w) <==> m == w
  {
  }

  /** Two worked cases: from the arena's centre every wall is 50 away and
      left wins the tie; tracking the bottom wall with turn distance 20, the
      bot turns right at x = 85 but not at x = 70. */
  lemma WallExamples()
    ensures NearestWall(50.0, 50.0, 100.0) == Left
    ensures Turn(Bottom, 85.0, 50.0, 100.0, 20.0) == Right
    ensures Turn(Bottom, 70.0, 50.0, 100.0, 20.0) == Bottom
  {
    NearestWallIsNearest(Left, 50.0, 50.0, 100.0);
  }
}
