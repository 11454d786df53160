/** The lifecycle of an AI request (karsasec/ai/state_machine.py). */
module AiStateMachine {

  /** The eight states of the source, and any other string a caller may pass. */
  datatype Status =
    | Created | Reserved | Routed | InFlight | ProviderFailed
    | Completed | Failed | Cancelled
    | Unknown(name: string)

  function AllowedTransitions(s: Status): set<Status> {
    match s
    case Created => {Reserved, Cancelled, Failed}
    case Reserved => {Routed, Cancelled, Failed}
    case Routed => {InFlight, ProviderFailed, Failed, Cancelled}
    case InFlight => {Completed, ProviderFailed, Failed, Cancelled}
    case ProviderFailed => {Routed, Failed, Cancelled}
    case _ => {}
  }

  predicate IsTerminal(s: Status) {
    s in {Completed, Failed, Cancelled}
  }

  /** What `validate_state_transition` accepts. */
  predicate CanTransition(current: Status, next: Status) {
    !current.Unknown? && !next.Unknown? && current != next && next in AllowedTransitions(current)
  }

  /** Not yet reserved, holding a reservation, settled. */
  ghost function Phase(s: Status): nat {
    if s == Created then 0 else if IsTerminal(s) then 2 else 1
  }

  /**
   A request moves forward through the phases. Only inside the middle phase can a status be left and
   come back (IN_FLIGHT, PROVIDER_FAILED, ROUTED, IN_FLIGHT).
   */
  lemma PhaseNeverFalls(a: Status, b: Status)
    requires CanTransition(a, b)
    ensures Phase(a) <= Phase(b)
    ensures Phase(a) == Phase(b) ==> Phase(a) == 1
    ensures b != Created
  {
  }

  ghost predicate LegalPath(path: seq<Status>) {
    forall i :: 0 < i < |path| ==> CanTransition(path[i - 1], path[i])
  }

  /** No run of legal transitions leaves a terminal state or returns to CREATED. */
  lemma {:induction false} LegalPathPhases(path: seq<Status>, i: nat, j: nat)
    requires LegalPath(path) && i < j < |path|
    ensures Phase(path[i]) <= Phase(path[j]) && !IsTerminal(path[i]) && path[j] != Created
    decreases j
  {
    PhaseNeverFalls(path[j - 1], path[j]);
    if i < j - 1 {
      LegalPathPhases(path, i, j - 1);
    }
  }

  /** What leads to each status: the transitions seen from their ends. */
  lemma Predecessors(s: Status, next: Status)
    ensures CanTransition(s, next) <==>
              match next
              case Reserved => s == Created
              case Routed => s in {Reserved, ProviderFailed}
              case InFlight => s == Routed
              case ProviderFailed => s in {Routed, InFlight}
              case Completed => s == InFlight
              case Failed => s in {Created, Reserved, Routed, InFlight, ProviderFailed}
              case Cancelled => s in {Created, Reserved, Routed, InFlight, ProviderFailed}
              case _ => false
  {
  }

  /** Every run to COMPLETED begins with CREATED, RESERVED, ROUTED and was in flight just before its end. */
  lemma CompletedPath(path: seq<Status>)
    requires LegalPath(path) && path != [] && path[0] == Created && path[|path| - 1] == Completed
    ensures |path| >= 5 && path[1] == Reserved && path[2] == Routed && path[|path| - 2] == InFlight
    ensures forall i :: 2 <= i < |path| - 1 ==> path[i] in {Routed, InFlight, ProviderFailed}
  {
    var n := |path|;
    assert n > 1 && CanTransition(path[n - 2], path[n - 1]);
    Predecessors(path[n - 2], path[n - 1]);
    NotEnded(path, 1);
    assert CanTransition(path[0], path[1]);
    NotEnded(path, 2);
    assert CanTransition(path[1], path[2]);
    forall i | 2 <= i < n - 1 ensures path[i] in {Routed, InFlight, ProviderFailed} {
      NotEnded(path, i);
      Underway(path, i);
    }
  }

  /** Before its last status a run has not ended. */
  lemma NotEnded(path: seq<Status>, i: nat)
    requires LegalPath(path) && path != [] && path[0] == Created && path[|path| - 1] == Completed && i < |path|
    ensures i < |path| - 1 ==> !IsTerminal(path[i])
    ensures path[i] == Reserved || path[i] == Created ==> i < |path| - 1
  {
    if i < |path| - 1 {
      LegalPathPhases(path, i, |path| - 1);
    }
  }

  lemma {:induction false} Underway(path: seq<Status>, i: nat)
    requires LegalPath(path) && path != [] && path[0] == Created && 2 <= i < |path| && !IsTerminal(path[i])
    ensures path[i] in {Routed, InFlight, ProviderFailed}
  {
    Predecessors(path[i - 1], path[i]);
    assert CanTransition(path[i - 1], path[i]);
    if i == 2 {
      assert CanTransition(path[0], path[1]);
      Predecessors(path[0], path[1]);
    } else {
      LegalPathPhases(path, i - 1, i);
      Underway(path, i - 1);
    }
  }
}
