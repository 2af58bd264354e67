/** The customer's progress display (components/OrderStatusTracker.tsx):
    four steps in pipeline order; a cancelled order gets its own notice. */
module OrderStatusTracker {
  import opened Types

  /** `statusSteps`, in display order. */
  const Steps: seq<Status> := [Pending, InProgress, Ready, Completed]

  /** `Array.prototype.findIndex` over `Steps`: -1 when absent. */
  function FindIndexFrom(steps: seq<Status>, s: Status): (r: int)
    ensures -1 <= r < |steps|
    ensures r >= 0 ==> steps[r] == s && forall j :: 0 <= j < r ==> steps[j] != s
    ensures r == -1 ==> s !in steps
  {
    if steps == [] then -1
    else if steps[0] == s then 0
    else
      var k := FindIndexFrom(steps[1..], s);
      if k == -1 then -1 else k + 1
  }

  /** The position of a status in the pipeline Pending < In Progress <
      Ready < Completed; -1 for Cancelled, which is not a step. */
  function StepIndex(s: Status): (r: int)
    ensures s == Cancelled <==> r == -1
    ensures r >= 0 ==> r < |Steps| && Steps[r] == s
  {
    match s
    case Pending => 0
    case InProgress => 1
    case Ready => 2
    case Completed => 3
    case Cancelled => -1
  }

  /** `statusSteps.findIndex(step => step.status === status)` is the
      pipeline position. */
  lemma FindIndexIsStepIndex(s: Status)
    ensures FindIndexFrom(Steps, s) == StepIndex(s)
  {
    var k := FindIndexFrom(Steps, s);
    if k == -1 {
      assert s !in Steps;
    } else {
      assert Steps[k] == s && forall j :: 0 <= j < k ==> Steps[j] != s;
    }
  }

  /** The two flags computed for each step. */
  datatype StepState = StepState(isCompleted: bool, isCurrent: bool)

  /** What the tracker renders. */
  datatype TrackerView = CancelledNotice | Progress(steps: seq<StepState>)

  /** The tracker: the cancelled notice, or one state per step from
      `index < currentStatusIndex` and `index === currentStatusIndex`. */
  function Tracker(status: Status): (v: TrackerView)
    ensures v.CancelledNotice? <==> status == Cancelled
    ensures v.Progress? ==> |v.steps| == |Steps|
    ensures v.Progress? ==> forall i :: 0 <= i < |v.steps| ==>
              (v.steps[i].isCurrent <==> Steps[i] == status)
  {
    if status == Cancelled then CancelledNotice
    else
      var current := FindIndexFrom(Steps, status);
      Progress(seq(|Steps|, i requires 0 <= i < |Steps| =>
        StepState(i < current, i == current)))
  }

  /** The number of completed steps in a row of step states. */
  function CompletedCount(steps: seq<StepState>): nat
  {
    if steps == [] then 0
    else CompletedCount(steps[..|steps| - 1]) + (if steps[|steps| - 1].isCompleted then 1 else 0)
  }

  /** For a status that is not cancelled exactly one step is current, the
      steps before it are completed (as many as its index), and no step is
      both completed and current. */
  lemma TrackerSteps(status: Status)
    requires status != Cancelled
    ensures Tracker(status).Progress?
    ensures var steps := Tracker(status).steps;
      && (forall i :: 0 <= i < |steps| ==> (steps[i].isCurrent <==> i == StepIndex(status)))
      && (forall i :: 0 <= i < |steps| ==> (steps[i].isCompleted <==> i < StepIndex(status)))
      && (forall i :: 0 <= i < |steps| ==> !(steps[i].isCompleted && steps[i].isCurrent))
      && CompletedCount(steps) == StepIndex(status)
  {
    var steps := Tracker(status).steps;
    var k := StepIndex(status);
    FindIndexIsStepIndex(status);
    assert steps[..0] == [];
    assert steps[..1][..0] == [];
    assert steps[..2][..1] == steps[..1];
    assert steps[..3][..2] == steps[..2];
    assert steps[..3] == steps[..|steps| - 1];
    assert CompletedCount(steps[..1]) == (if 0 < k then 1 else 0);
    assert CompletedCount(steps[..2]) == (if 0 < k then 1 else 0) + (if 1 < k then 1 else 0);
    assert CompletedCount(steps[..3]) == (if 0 < k then 1 else 0) + (if 1 < k then 1 else 0) + (if 2 < k then 1 else 0);
  }

  /** A completed order shows the first three steps completed and the
      last one current. */
  lemma TrackerAtCompleted()
    ensures Tracker(Completed) == Progress([StepState(true, false), StepState(true, false),
                                            StepState(true, false), StepState(false, true)])
  {
    FindIndexIsStepIndex(Completed);
  }
}
