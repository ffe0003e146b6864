/**
 * The explorer node's global state and the code of main that updates it in place
 * (src/main.cpp): the catalogue `targets`, the cursor `current_target_id`, the flag
 * `explorer_goal_sent` and the odometry store `explorer_odom`.
 *
 * The ROS calls are not modelled: the parameter server is a map, the action status
 * polled in each iteration is an input, and sending a goal is recorded as an output.
 */
module ExplorerNode {
  import opened Options
  import opened Goals
  import opened Catalogue
  import opened Sequencing

  /** The part of an odometry message this model keeps (the node stores the whole message); no arithmetic is done on it. */
  datatype Odometry = Odometry(frameId: string, position: Point, orientation: Quaternion)

  const NoOdometry: Odometry := Odometry("", Point(0.0, 0.0, 0.0), Quaternion(0.0, 0.0, 0.0, 0.0))

  class Explorer {
    var targets: seq<Target>
    var cursor: int
    var goalSent: bool
    /** Control has entered a rotation routine that never returns. */
    var hung: bool
    var odom: Odometry
    /** How the post-arrival rotation routine behaves. */
    const rotation: Rotation

    /** The sequencing part of the state. */
    function State(): (s: LoopState)
      reads this
      ensures s.targets == targets && s.cursor == cursor && s.goalSent == goalSent && s.hung == hung
    {
      LoopState(targets, cursor, goalSent, hung)
    }

    /** The globals as statically initialised: no targets, cursor 0, no goal sent. */
    constructor (rotation: Rotation)
      ensures State() == Init([])
      ensures odom == NoOdometry && this.rotation == rotation
    {
      targets := [];
      cursor := 0;
      goalSent := false;
      hung := false;
      odom := NoOdometry;
      this.rotation := rotation;
    }

    /** The odometry subscriber's callback: the stored sample is replaced wholesale. */
    method UpdateOdom(o: Odometry)
      modifies this`odom
      ensures odom == o
    {
      odom := o;
    }

    /** Reads target_1 .. target_4 and appends each, in order, to the catalogue. */
    method LoadTargets(params: Params)
      modifies this`targets
      ensures targets == old(targets) + LoadedTargets(params)
    {
      var i := FirstIndex;
      while i < EndIndex
        invariant FirstIndex <= i <= EndIndex
        invariant targets == old(targets) + FetchTargets(params, FirstIndex, i)
      {
        var target := GetParam(params, TargetParamName(i));
        FetchTargetsSnoc(params, FirstIndex, i);
        targets := targets + [target];
        i := i + 1;
      }
    }

    /** One iteration of the main loop, with the action status it polls. */
    method Tick(status: Status) returns (sent: Option<Goal>)
      requires Ready(State())
      modifies this`cursor, this`goalSent, this`hung
      ensures var r := Step(AsWritten, old(State()), status, rotation);
        State() == r.next && sent == r.sent
    {
      if hung {
        return None;
      }
      sent := None;
      if !goalSent {
        sent := Some(FetchNextGoal(targets, cursor));
        goalSent := true;
      }
      if status == Succeeded {
        match rotation
        case Diverges =>
          hung := true;
        case Settles =>
          if cursor < AdvanceLimit {
            cursor := cursor + 1;
            goalSent := false;
          }
      }
    }

    /**
     * The main loop over the statuses polled in successive iterations; it stops early
     * where the next iteration would look up a target out of range.
     */
    method RunLoop(statuses: seq<Status>) returns (sent: seq<Goal>, fault: bool)
      modifies this`cursor, this`goalSent, this`hung
      ensures var t := Run(AsWritten, old(State()), statuses, rotation);
        State() == t.final && sent == t.dispatched && fault == t.fault
    {
      sent, fault := [], false;
      var i := 0;
      while i < |statuses|
        invariant 0 <= i <= |statuses|
        invariant targets == old(targets)
        invariant var t := Run(AsWritten, State(), statuses[i..], rotation);
          Run(AsWritten, old(State()), statuses, rotation) == Trace(t.final, sent + t.dispatched, t.fault)
      {
        if !Ready(State()) {
          fault := true;
          return;
        }
        ghost var before := State();
        assert statuses[i..][0] == statuses[i] && statuses[i..][1..] == statuses[i + 1..];
        var g := Tick(statuses[i]);
        assert Run(AsWritten, before, statuses[i..], rotation).dispatched
            == AsSeq(g) + Run(AsWritten, State(), statuses[i + 1..], rotation).dispatched;
        sent := sent + AsSeq(g);
        i := i + 1;
      }
    }
  }

  /**
   * main: the globals start as initialised, the catalogue is loaded, and the loop runs
   * over the polled statuses.  What it sends is what the specification's run sends
   * from program start.
   */
  method Launch(params: Params, rotation: Rotation, statuses: seq<Status>) returns (sent: seq<Goal>, fault: bool)
    ensures var t := Run(AsWritten, Init(LoadedTargets(params)), statuses, rotation);
      sent == t.dispatched && fault == t.fault
  {
    var node := new Explorer(rotation);
    node.LoadTargets(params);
    assert node.targets == LoadedTargets(params);
    assert node.State() == Init(LoadedTargets(params));
    sent, fault := node.RunLoop(statuses);
  }

  /**
   * With a complete configuration and the rotation routine as written, main sends the
   * goal for target_1 and nothing more.
   */
  lemma LaunchAsWrittenSendsFirstTarget(params: Params, statuses: seq<Status>)
    requires CompleteConfiguration(params) && |statuses| > 0
    ensures var t := Run(AsWritten, Init(LoadedTargets(params)), statuses, Diverges);
      !t.fault && t.dispatched == [FetchNextGoal(LoadedTargets(params), 0)]
  {
    CompleteConfigurationIsWellFormed(params);
    AsWrittenSendsOnlyFirstTarget(LoadedTargets(params), statuses);
  }

  /**
   * With a complete configuration and a rotation that returns, five successes drive main
   * through the four targets and into the lookup of a fifth that does not exist.
   */
  lemma LaunchSettlingOverruns(params: Params)
    requires CompleteConfiguration(params)
    ensures var t := Run(AsWritten, Init(LoadedTargets(params)), Repeat(Succeeded, 5), Settles);
      t.fault && t.final.cursor == 4 == |LoadedTargets(params)|
      && t.dispatched == GoalsFrom(LoadedTargets(params), 0)
  {
    CompleteConfigurationIsWellFormed(params);
    AsWrittenOverrunsFourTargets(LoadedTargets(params));
  }
}
