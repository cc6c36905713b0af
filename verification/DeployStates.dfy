/**
  The deployment state machine: a fixed table of allowed edges between lifecycle states.
  A status column may also hold a text the machine no longer declares; such rows are
  represented by `Legacy`.
 */
module DeployStates {

  datatype Status =
    | Pending
    | Building
    | Deploying
    | Running
    | Draining
    | Stopped
    | Failed
    | RolledBack
    | Legacy(name: string)

  // The edge table; a legacy status has no entry.
  function Targets(from: Status): seq<Status> {
    match from
    case Pending => [Building, Failed]
    case Building => [Deploying, Running, Failed]
    case Deploying => [Running, Failed]
    case Running => [Failed, RolledBack, Draining]
    case Draining => [Stopped, Failed, Running]
    case Stopped => [Running]
    case Failed => []
    case RolledBack => []
    case Legacy(_) => []
  }

  predicate IsValidState(s: Status) {
    !s.Legacy?
  }

  predicate CanTransition(from: Status, to: Status) {
    from != to && to in Targets(from)
  }

  /** The table read by target: where each state can be entered from. */
  lemma EntriesByTarget(from: Status, to: Status)
    ensures CanTransition(from, to) <==>
      match to
      case Building => from == Pending
      case Deploying => from == Building
      case Running => from in {Building, Deploying, Draining, Stopped}
      case Draining => from == Running
      case Stopped => from == Draining
      case Failed => from in {Pending, Building, Deploying, Running, Draining}
      case RolledBack => from == Running
      case _ => false
  {
  }

  // A state no edge leaves.
  predicate IsAbsorbing(s: Status) {
    s == Failed || s == RolledBack
  }

  // A nonempty sequence of statuses, each led to from the one before by a table edge.
  ghost predicate Path(p: seq<Status>) {
    p != [] && forall k :: 0 <= k < |p| - 1 ==> CanTransition(p[k], p[k + 1])
  }

  // Table paths that start in a declared state stay among declared states, and stop for good
  // at the first absorbing state.
  lemma {:induction false} PathStaysDeclared(p: seq<Status>)
    requires Path(p) && IsValidState(p[0])
    ensures forall k :: 0 <= k < |p| ==> IsValidState(p[k])
    ensures forall k :: 0 <= k < |p| && IsAbsorbing(p[k]) ==> k == |p| - 1
  {
    if |p| > 1 {
      assert CanTransition(p[0], p[1]);
      PathStaysDeclared(p[1..]);
      forall k | 0 <= k < |p| ensures IsValidState(p[k]) && (IsAbsorbing(p[k]) ==> k == |p| - 1) {
        assert k > 0 ==> p[k] == p[1..][k - 1];
      }
    }
  }
}
