/**
 * The explorer's goal-sequencing state machine (src/main.cpp, the `while (ros::ok())`
 * loop of main), as a pure specification.
 *
 * One loop iteration sends the goal for the current target if none is outstanding,
 * polls the action status (an input here), and on success runs the rotation routine
 * and then, guarded by `current_target_id < 5`, advances the cursor and clears the flag.
 *
 * The rotation routine rotate_robot is an abstract step.  As written it never returns
 * (an unconditional `while (true)`): `Diverges` models that by a `hung` state in which
 * the loop makes no further progress.  `Settles` models a routine that does return,
 * as the commented-out settle test was meant to; only then is the advance branch reached.
 */
module Sequencing {
  import opened Options
  import opened Goals

  /** actionlib's SimpleClientGoalState values. */
  datatype Status = Pending | Active | Recalled | Rejected | Preempted | Aborted | Succeeded | Lost

  /** Whether the post-arrival rotation routine returns control to the loop. */
  datatype Rotation = Diverges | Settles

  /** The advance guard: as written (`cursor < 5`), or corrected to stay inside the catalogue. */
  datatype Guard = AsWritten | Corrected

  /**
   * The loop's state: the catalogue, `current_target_id`, `explorer_goal_sent`, and
   * whether control is stuck inside a rotation routine that never returns.
   */
  datatype LoopState = LoopState(targets: seq<Target>, cursor: int, goalSent: bool, hung: bool)

  /** The state after one iteration and the goal sent during it, if any. */
  datatype StepResult = StepResult(next: LoopState, sent: Option<Goal>)

  /**
   * The outcome of running the loop over a sequence of polled statuses: the last state,
   * the goals sent in order, and whether the run stopped at an out-of-range goal lookup.
   */
  datatype Trace = Trace(final: LoopState, dispatched: seq<Goal>, fault: bool)

  /** The bound in `if (current_target_id < 5)`. */
  const AdvanceLimit: int := 5

  /** Program start: cursor 0, no goal sent. */
  function Init(targets: seq<Target>): (s: LoopState)
    ensures s.targets == targets && s.cursor == 0 && !s.goalSent && !s.hung
  {
    LoopState(targets, 0, false, false)
  }

  /** The next iteration is defined: if it has to build a goal, the goal can be built. */
  predicate Ready(s: LoopState)
  {
    s.hung || s.goalSent || CanFetch(s.targets, s.cursor)
  }

  predicate Advances(g: Guard, s: LoopState)
  {
    match g
    case AsWritten => s.cursor < AdvanceLimit
    case Corrected => s.cursor + 1 < |s.targets|
  }

  /** One iteration of the main loop. */
  function Step(g: Guard, s: LoopState, status: Status, rotation: Rotation): (r: StepResult)
    requires Ready(s)
    ensures r.next.targets == s.targets
    // a goal is sent exactly when none was outstanding, and it is the current target's
    ensures r.sent.Some? <==> !s.hung && !s.goalSent
    ensures r.sent.Some? ==> r.sent.value == FetchNextGoal(s.targets, s.cursor)
    // the cursor moves by exactly one, and only after a success whose rotation returned
    ensures r.next.cursor == s.cursor || r.next.cursor == s.cursor + 1
    ensures r.next.cursor == s.cursor + 1 <==>
              !s.hung && status == Succeeded && rotation == Settles && Advances(g, s)
    // in the loop, the flag is left set unless the cursor advanced, which clears it
    ensures !s.hung ==> (r.next.goalSent <==> r.next.cursor == s.cursor)
    // control is lost for good once a success enters a rotation that never returns
    ensures r.next.hung <==> s.hung || (status == Succeeded && rotation == Diverges)
    ensures s.hung ==> r.next == s
  {
    if s.hung then StepResult(s, None)
    else
      var sent := if s.goalSent then None else Some(FetchNextGoal(s.targets, s.cursor));
      var polled := s.(goalSent := true);
      if status != Succeeded then StepResult(polled, sent)
      else match rotation
        case Diverges => StepResult(polled.(hung := true), sent)
        case Settles =>
          if Advances(g, polled) then StepResult(polled.(cursor := polled.cursor + 1, goalSent := false), sent)
          else StepResult(polled, sent)
  }

  /**
   * The loop run over the statuses polled in successive iterations.  The run stops with
   * `fault` when an iteration would index the catalogue out of range (undefined
   * behaviour in the source); otherwise it ends when the statuses do (shutdown).
   */
  function Run(g: Guard, s: LoopState, statuses: seq<Status>, rotation: Rotation): (t: Trace)
    ensures t.final.targets == s.targets
    ensures |t.dispatched| <= |statuses|
    ensures t.fault ==> !Ready(t.final)
    decreases |statuses|
  {
    if |statuses| == 0 then Trace(s, [], false)
    else if !Ready(s) then Trace(s, [], true)
    else
      var r := Step(g, s, statuses[0], rotation);
      var rest := Run(g, r.next, statuses[1..], rotation);
      Trace(rest.final, AsSeq(r.sent) + rest.dispatched, rest.fault)
  }

  /** The goals for targets[c], ..., targets[|targets| - 1], in order. */
  function GoalsFrom(targets: seq<Target>, c: nat): (gs: seq<Goal>)
    requires WellFormedCatalogue(targets) && c <= |targets|
    ensures |gs| == |targets| - c
    ensures forall k :: 0 <= k < |gs| ==> gs[k] == FetchNextGoal(targets, c + k)
    decreases |targets| - c
  {
    if c == |targets| then [] else [FetchNextGoal(targets, c)] + GoalsFrom(targets, c + 1)
  }

  function Repeat(status: Status, n: nat): (ss: seq<Status>)
    ensures |ss| == n
    ensures forall k :: 0 <= k < n ==> ss[k] == status
  {
    if n == 0 then [] else [status] + Repeat(status, n - 1)
  }

  // ---------------------------------------------------------------------------
  // Properties of runs

  /** The cursor never decreases, and moves at most once per iteration. */
  lemma {:induction false} CursorNeverDecreases(g: Guard, s: LoopState, statuses: seq<Status>, rotation: Rotation)
    ensures s.cursor <= Run(g, s, statuses, rotation).final.cursor <= s.cursor + |statuses|
    decreases |statuses|
  {
    if |statuses| > 0 && Ready(s) {
      var r := Step(g, s, statuses[0], rotation);
      CursorNeverDecreases(g, r.next, statuses[1..], rotation);
    }
  }

  /** The index of the next target whose goal has not been sent yet. */
  function NextUnsent(s: LoopState): int
  {
    s.cursor + (if s.goalSent then 1 else 0)
  }

  /**
   * Whatever the polled statuses, the goals a run sends are the catalogue's targets in
   * order, each at most once: they continue from the first unsent target without gap
   * or repetition, and never go past the end of the catalogue.
   */
  lemma {:induction false} SendsInCatalogueOrder(g: Guard, s: LoopState, statuses: seq<Status>, rotation: Rotation)
    requires WellFormedCatalogue(s.targets) && 0 <= s.cursor <= |s.targets|
    requires s.hung ==> s.goalSent
    requires s.goalSent ==> s.cursor < |s.targets|
    ensures var t := Run(g, s, statuses, rotation);
      && NextUnsent(s) <= NextUnsent(t.final) <= |s.targets|
      && |t.dispatched| == NextUnsent(t.final) - NextUnsent(s)
      && forall i :: 0 <= i < |t.dispatched| ==> t.dispatched[i] == FetchNextGoal(s.targets, NextUnsent(s) + i)
    decreases |statuses|
  {
    if |statuses| > 0 && Ready(s) {
      var r := Step(g, s, statuses[0], rotation);
      assert NextUnsent(r.next) == NextUnsent(s) + |AsSeq(r.sent)|;
      SendsInCatalogueOrder(g, r.next, statuses[1..], rotation);
    }
  }

  /** As written, a cursor that starts in [0, 5] stays there. */
  lemma {:induction false} AsWrittenCursorBounded(s: LoopState, statuses: seq<Status>, rotation: Rotation)
    requires 0 <= s.cursor <= AdvanceLimit
    ensures 0 <= Run(AsWritten, s, statuses, rotation).final.cursor <= AdvanceLimit
    decreases |statuses|
  {
    if |statuses| > 0 && Ready(s) {
      var r := Step(AsWritten, s, statuses[0], rotation);
      AsWrittenCursorBounded(r.next, statuses[1..], rotation);
    }
  }

  /**
   * Without a success, the loop sends at most one goal: the first iteration sends it
   * if none was outstanding, and every later one finds the flag set.
   */
  lemma {:induction false} NoSuccessSendsOnce(g: Guard, s: LoopState, statuses: seq<Status>, rotation: Rotation)
    requires Ready(s) && !s.hung
    requires forall k :: 0 <= k < |statuses| ==> statuses[k] != Succeeded
    ensures var t := Run(g, s, statuses, rotation);
      && !t.fault
      && t.final == (if |statuses| == 0 then s else s.(goalSent := true))
      && t.dispatched == (if s.goalSent || |statuses| == 0 then [] else [FetchNextGoal(s.targets, s.cursor)])
    decreases |statuses|
  {
    if |statuses| > 0 {
      var r := Step(g, s, statuses[0], rotation);
      assert r.next == s.(goalSent := true);
      NoSuccessSendsOnce(g, r.next, statuses[1..], rotation);
    }
  }

  /**
   * Once the flag is set and the guard no longer lets the cursor advance, the state is
   * terminal: no goal is ever sent again and the cursor stays where it is.  With a
   * rotation that returns, the state does not change at all.
   */
  lemma {:induction false} TerminalIsIdempotent(g: Guard, s: LoopState, statuses: seq<Status>, rotation: Rotation)
    requires s.goalSent && !Advances(g, s)
    ensures var t := Run(g, s, statuses, rotation);
      && !t.fault && t.dispatched == [] && t.final.cursor == s.cursor && t.final.goalSent
      && (rotation == Settles ==> t.final == s)
    decreases |statuses|
  {
    if |statuses| > 0 {
      var r := Step(g, s, statuses[0], rotation);
      assert r.sent == None && r.next.cursor == s.cursor && r.next.goalSent;
      assert rotation == Settles ==> r.next == s;
      TerminalIsIdempotent(g, r.next, statuses[1..], rotation);
    }
  }

  /**
   * The rotation routine as written never returns, so the advance branch is never
   * reached: the cursor never moves, at most one goal is ever sent, and no lookup
   * goes out of range.
   */
  lemma {:induction false} DivergingRotationNeverAdvances(g: Guard, s: LoopState, statuses: seq<Status>)
    requires Ready(s)
    ensures var t := Run(g, s, statuses, Diverges);
      && !t.fault
      && t.final.cursor == s.cursor
      && |t.dispatched| <= (if s.hung || s.goalSent then 0 else 1)
    decreases |statuses|
  {
    if |statuses| > 0 {
      var r := Step(g, s, statuses[0], Diverges);
      assert r.next.hung || r.next.goalSent;
      DivergingRotationNeverAdvances(g, r.next, statuses[1..]);
    }
  }

  /** From program start with the rotation as written, only the first target is ever sent. */
  lemma AsWrittenSendsOnlyFirstTarget(targets: seq<Target>, statuses: seq<Status>)
    requires CanFetch(targets, 0)
    ensures var t := Run(AsWritten, Init(targets), statuses, Diverges);
      && !t.fault && t.final.cursor == 0
      && t.dispatched == (if |statuses| == 0 then [] else [FetchNextGoal(targets, 0)])
  {
    DivergingRotationNeverAdvances(AsWritten, Init(targets), statuses);
    if |statuses| > 0 {
      var r := Step(AsWritten, Init(targets), statuses[0], Diverges);
      DivergingRotationNeverAdvances(AsWritten, r.next, statuses[1..]);
    }
  }

  // ---------------------------------------------------------------------------
  // The advance bound against the catalogue size

  /**
   * As written, with a rotation that returns and every goal succeeding, a catalogue of
   * at most five well-formed targets is walked to the end and the cursor then reaches
   * |targets| with the flag clear: the next iteration looks up targets[|targets|].
   */
  lemma {:induction false} AsWrittenOverrunsCatalogue(targets: seq<Target>, c: nat)
    requires WellFormedCatalogue(targets) && |targets| <= AdvanceLimit && c <= |targets|
    ensures Run(AsWritten, LoopState(targets, c, false, false), Repeat(Succeeded, |targets| - c + 1), Settles)
         == Trace(LoopState(targets, |targets|, false, false), GoalsFrom(targets, c), true)
    decreases |targets| - c
  {
    var s := LoopState(targets, c, false, false);
    var statuses := Repeat(Succeeded, |targets| - c + 1);
    if c < |targets| {
      var r := Step(AsWritten, s, Succeeded, Settles);
      assert r.next == LoopState(targets, c + 1, false, false);
      assert statuses[1..] == Repeat(Succeeded, |targets| - (c + 1) + 1);
      AsWrittenOverrunsCatalogue(targets, c + 1);
    }
  }

  /** The loaded catalogue has four entries; the guard lets the cursor reach 4. */
  lemma AsWrittenOverrunsFourTargets(targets: seq<Target>)
    requires WellFormedCatalogue(targets) && |targets| == 4
    ensures Run(AsWritten, Init(targets), Repeat(Succeeded, 5), Settles)
         == Trace(LoopState(targets, 4, false, false), GoalsFrom(targets, 0), true)
  {
    AsWrittenOverrunsCatalogue(targets, 0);
  }

  /** n arrivals as the action client reports them: pending after the send, then succeeded. */
  function Arrivals(n: nat): (ss: seq<Status>)
    ensures |ss| == 2 * n
    ensures forall k :: 0 <= k < |ss| ==> ss[k] == (if k % 2 == 0 then Pending else Succeeded)
  {
    if n == 0 then [] else
      var rest := Arrivals(n - 1);
      assert forall k :: 2 <= k < 2 * n ==> ([Pending, Succeeded] + rest)[k] == rest[k - 2] && (k - 2) % 2 == k % 2;
      [Pending, Succeeded] + rest
  }

  /**
   * The overrun does not depend on successes being polled in the iteration that sends:
   * with a Pending poll before each Succeeded, the run as written still walks the whole
   * catalogue and then looks up targets[|targets|].
   */
  lemma {:induction false} AsWrittenOverrunsWithPendingPolls(targets: seq<Target>, c: nat)
    requires WellFormedCatalogue(targets) && |targets| <= AdvanceLimit && c <= |targets|
    ensures Run(AsWritten, LoopState(targets, c, false, false), Arrivals(|targets| - c) + [Pending], Settles)
         == Trace(LoopState(targets, |targets|, false, false), GoalsFrom(targets, c), true)
    decreases |targets| - c
  {
    var s := LoopState(targets, c, false, false);
    var statuses := Arrivals(|targets| - c) + [Pending];
    if c < |targets| {
      var r1 := Step(AsWritten, s, Pending, Settles);
      assert r1.next == LoopState(targets, c, true, false);
      var r2 := Step(AsWritten, r1.next, Succeeded, Settles);
      assert r2.next == LoopState(targets, c + 1, false, false) && r2.sent == None;
      assert statuses[0] == Pending && statuses[1..][0] == Succeeded;
      assert statuses[1..][1..] == Arrivals(|targets| - (c + 1)) + [Pending];
      AsWrittenOverrunsWithPendingPolls(targets, c + 1);
    }
  }

  /** The single iteration that breaks it: from the last target, success leaves no valid index. */
  lemma AsWrittenStepLeavesCatalogue(targets: seq<Target>)
    requires WellFormedCatalogue(targets) && |targets| == 4
    ensures Ready(LoopState(targets, 3, true, false))
    ensures Step(AsWritten, LoopState(targets, 3, true, false), Succeeded, Settles).next
         == LoopState(targets, 4, false, false)
    ensures !Ready(LoopState(targets, 4, false, false))
  {
  }

  /** With the corrected guard, every iteration keeps the cursor a valid catalogue index. */
  lemma CorrectedKeepsCursorInRange(s: LoopState, status: Status, rotation: Rotation)
    requires WellFormedCatalogue(s.targets) && 0 <= s.cursor < |s.targets|
    ensures var n := Step(Corrected, s, status, rotation).next;
      0 <= n.cursor < |n.targets| && Ready(n)
  {
  }

  /** With the corrected guard, no run from a valid cursor ever looks up a target out of range. */
  lemma {:induction false} CorrectedNeverFaults(s: LoopState, statuses: seq<Status>, rotation: Rotation)
    requires WellFormedCatalogue(s.targets) && 0 <= s.cursor < |s.targets|
    ensures !Run(Corrected, s, statuses, rotation).fault
    decreases |statuses|
  {
    if |statuses| > 0 {
      var r := Step(Corrected, s, statuses[0], rotation);
      CorrectedKeepsCursorInRange(s, statuses[0], rotation);
      CorrectedNeverFaults(r.next, statuses[1..], rotation);
    }
  }

  /**
   * With the corrected guard, a rotation that returns and every goal succeeding, each
   * remaining target is sent exactly once, in catalogue order, and the loop then rests
   * on the last target with the flag set.
   */
  lemma {:induction false} CorrectedVisitsEachTargetOnce(targets: seq<Target>, c: nat, statuses: seq<Status>)
    requires WellFormedCatalogue(targets) && c < |targets|
    requires |statuses| >= |targets| - c
    requires forall k :: 0 <= k < |statuses| ==> statuses[k] == Succeeded
    ensures Run(Corrected, LoopState(targets, c, false, false), statuses, Settles)
         == Trace(LoopState(targets, |targets| - 1, true, false), GoalsFrom(targets, c), false)
    decreases |targets| - c
  {
    var s := LoopState(targets, c, false, false);
    var r := Step(Corrected, s, statuses[0], Settles);
    if c + 1 < |targets| {
      assert r.next == LoopState(targets, c + 1, false, false);
      CorrectedVisitsEachTargetOnce(targets, c + 1, statuses[1..]);
    } else {
      assert r.next == LoopState(targets, c, true, false);
      TerminalIsIdempotent(Corrected, r.next, statuses[1..], Settles);
    }
  }

  /**
   * Two targets (1.0, 0.0) and (2.0, 1.5), three successes: the corrected loop sends the
   * two goals and no third; the loop as written instead reaches a lookup of targets[2].
   */
  lemma TwoTargetScenario()
    ensures var targets := [[1.0, 0.0], [2.0, 1.5]];
      var corrected := Run(Corrected, Init(targets), Repeat(Succeeded, 3), Settles);
      var asWritten := Run(AsWritten, Init(targets), Repeat(Succeeded, 3), Settles);
      && !corrected.fault
      && |corrected.dispatched| == 2
      && corrected.dispatched[0].position == Point(1.0, 0.0, 0.0)
      && corrected.dispatched[1].position == Point(2.0, 1.5, 0.0)
      && corrected.final.cursor == 1
      && asWritten.fault
      && asWritten.final.cursor == 2
      && |asWritten.dispatched| == 2
  {
    var targets: seq<Target> := [[1.0, 0.0], [2.0, 1.5]];
    CorrectedVisitsEachTargetOnce(targets, 0, Repeat(Succeeded, 3));
    AsWrittenOverrunsCatalogue(targets, 0);
  }
}
