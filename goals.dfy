/**
 * Navigation goals for the explorer robot (src/main.cpp, fetch_next_explorer_goal).
 *
 * A target is the list of numbers read from one configuration parameter; only its
 * first two entries (x and y) are used.  Coordinates are `real`: no arithmetic is done
 * on them, only their identity matters.  The goal's timestamp is left out.
 */
module Goals {

  /** One entry of the target catalogue, as loaded: nothing checks its length. */
  type Target = seq<real>

  datatype Point = Point(x: real, y: real, z: real)
  datatype Quaternion = Quaternion(x: real, y: real, z: real, w: real)

  /** A move_base goal: the target pose and the frame it is expressed in. */
  datatype Goal = Goal(frameId: string, position: Point, orientation: Quaternion)

  const MapFrame: string := "map"

  /** Orientation with only w set to 1, every other component left at its default 0. */
  const Identity: Quaternion := Quaternion(0.0, 0.0, 0.0, 1.0)

  /** The goal for `targets[cursor]` can be built: the index is in range and the entry has x and y. */
  predicate CanFetch(targets: seq<Target>, cursor: int)
  {
    0 <= cursor < |targets| && |targets[cursor]| >= 2
  }

  /** Every entry of the catalogue carries at least x and y. */
  predicate WellFormedCatalogue(targets: seq<Target>)
  {
    forall i :: 0 <= i < |targets| ==> |targets[i]| >= 2
  }

  /**
   * The goal for the target under the cursor: frame "map", position (x, y, 0),
   * orientation w = 1.  Indexing outside the catalogue, or a target without two
   * numbers, is undefined behaviour in the source, hence the precondition.
   */
  function FetchNextGoal(targets: seq<Target>, cursor: int): (g: Goal)
    requires CanFetch(targets, cursor)
    ensures g.frameId == MapFrame
    ensures g.orientation == Identity
    ensures g.position.z == 0.0
  {
    var next := targets[cursor];
    Goal(MapFrame, Point(next[0], next[1], 0.0), Identity)
  }

  /** The planar target a goal drives to. */
  function GoalTarget(g: Goal): (t: Target)
    ensures |t| == 2
  {
    [g.position.x, g.position.y]
  }

  /** The goal carries exactly the x and y of the selected target, and nothing else of it. */
  lemma GoalCarriesTarget(targets: seq<Target>, cursor: int)
    requires CanFetch(targets, cursor)
    ensures GoalTarget(FetchNextGoal(targets, cursor)) == targets[cursor][..2]
    ensures |targets[cursor]| == 2 ==> GoalTarget(FetchNextGoal(targets, cursor)) == targets[cursor]
  {
    var t := targets[cursor];
    assert GoalTarget(FetchNextGoal(targets, cursor)) == [t[0], t[1]];
    assert t[..2] == [t[0], t[1]];
    if |t| == 2 {
      assert t == t[..2];
    }
  }

  /** Two catalogue entries yield the same goal exactly when they agree on x and y. */
  lemma SameGoalIffSamePosition(targets: seq<Target>, i: int, j: int)
    requires CanFetch(targets, i) && CanFetch(targets, j)
    ensures FetchNextGoal(targets, i) == FetchNextGoal(targets, j) <==> targets[i][..2] == targets[j][..2]
  {
    GoalCarriesTarget(targets, i);
    GoalCarriesTarget(targets, j);
  }
}
