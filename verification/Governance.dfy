/**
 The governance state machine: transition and role tables, role-collapse warnings, and what one
 lifecycle transition does to the registry.  `LifecycleManager` performs it in place; `Transition` is
 its specification.
 */
module Governance {
  import opened Prelude

  /** The lifecycle states; `Other` is any other text that the status column may come to hold. */
  datatype Status = Drafting | Reviewing | Approved | Rejected | Enabled | Paused | Revoked | Other(text: string)

  /** Every column of a swarm row other than its status, by name. */
  datatype Swarm = Swarm(status: Status, fields: map<string, string>)

  datatype Severity = Warn | Block

  /** The parts of a warning that its decision fingerprint digests and that can vary here. */
  datatype Fingerprint = Fingerprint(severity: Severity, swarmId: nat, target: Status)

  datatype Warning = Warning(fingerprint: Fingerprint, reduction: string)

  datatype Decision = BlockedBySystem | Deferred | AcknowledgedAndProceeded

  datatype WarningRecord = WarningRecord(warning: Warning, actor: string, role: string, decision: Decision)

  datatype AssuranceEvent = AssuranceEvent(swarmId: nat, warningId: nat, actor: string, role: string, reduction: string,
      action: string)

  datatype Event =
    | Transitioned(swarmId: nat, actor: string, role: string, from: Status, to: Status)
    | WarningRecorded(swarmId: nat, actor: string, warningId: nat)
    | AssuranceRecorded(swarmId: nat, actor: string, eventId: nat)
    | Created(swarmId: nat, actor: string)
    | Updated(swarmId: nat, actor: string)

  /** The registry tables that governance reads and writes; records are identified by their position. */
  datatype Registry = Registry(swarms: map<nat, Swarm>, nextId: nat, events: seq<Event>, warnings: seq<WarningRecord>,
      assurance: seq<AssuranceEvent>)

  /** `ALLOWED_TRANSITIONS` */
  predicate IsAllowed(from: Status, to: Status) {
    match from
    case Drafting => to == Reviewing || to == Revoked
    case Reviewing => to == Approved || to == Rejected || to == Drafting
    case Approved => to == Enabled || to == Revoked
    case Rejected => to == Drafting
    case Enabled => to == Paused || to == Revoked
    case Paused => to == Enabled || to == Revoked
    case Revoked => false
    case Other(_) => false
  }

  /** `TRANSITION_ROLES.get(...)` */
  function RequiredRole(from: Status, to: Status): Option<string> {
    match (from, to)
    case (Drafting, Reviewing) => Some("author")
    case (Reviewing, Approved) => Some("reviewer")
    case (Reviewing, Rejected) => Some("reviewer")
    case (Reviewing, Drafting) => Some("reviewer")
    case (Approved, Enabled) => Some("publisher")
    case (Approved, Revoked) => Some("publisher")
    case (Rejected, Drafting) => Some("author")
    case (Enabled, Paused) => Some("publisher")
    case (Enabled, Revoked) => Some("publisher")
    case (Paused, Enabled) => Some("publisher")
    case (Paused, Revoked) => Some("publisher")
    case (Drafting, Revoked) => Some("publisher")
    case _ => None
  }

  /** `if required_role and actor_role != required_role` */
  predicate RoleAccepted(from: Status, to: Status, role: string) {
    var required := RequiredRole(from, to);
    required.None? || role == required.value
  }

  predicate ActedAs(e: Event, swarmId: nat, actor: string, role: string) {
    e.Transitioned? && e.swarmId == swarmId && e.actor == actor && e.role == role
  }

  predicate HasActedAs(events: seq<Event>, swarmId: nat, actor: string, role: string) {
    exists i :: 0 <= i < |events| && ActedAs(events[i], swarmId, actor, role)
  }

  predicate IsCreator(swarms: map<nat, Swarm>, swarmId: nat, actor: string) {
    swarmId in swarms && "created_by" in swarms[swarmId].fields && swarms[swarmId].fields["created_by"] == actor
  }

  /** `get_actor_roles_for_swarm`: the roles of the actor's recorded transitions, and author for the creator. */
  function ActorRoles(r: Registry, swarmId: nat, actor: string): set<string> {
    (set i | 0 <= i < |r.events| && r.events[i].Transitioned? && r.events[i].swarmId == swarmId
       && r.events[i].actor == actor :: r.events[i].role)
    + (if IsCreator(r.swarms, swarmId, actor) then {"author"} else {})
  }

  const GOVERNANCE_ROLES: set<string> := {"author", "reviewer", "publisher"}

  predicate IsChecked(to: Status) {
    to == Approved || to == Enabled || to == Paused || to == Revoked
  }

  function ReductionType(prior: set<string>, role: string): string {
    if prior == {"author"} && role == "reviewer" then "author_reviewer_role_collapse"
    else if prior == {"reviewer"} && role == "publisher" then "reviewer_publisher_role_collapse"
    else "single_operator_path"
  }

  /** `_evaluate_transition_warnings`: at most one warning, for an actor who held another role before. */
  function TransitionWarning(r: Registry, swarmId: nat, actor: string, role: string, to: Status): Option<Warning> {
    if !IsChecked(to) then None
    else
      var prior := ActorRoles(r, swarmId, actor);
      if prior == {} || prior == {role} then None
      else
        var severity := if GOVERNANCE_ROLES <= prior + {role} then Block else Warn;
        Some(Warning(Fingerprint(severity, swarmId, to), ReductionType(prior, role)))
  }

  /** `persist_warning_records` for one warning, with its mirrored event. */
  function PersistWarning(r: Registry, w: Warning, actor: string, role: string, decision: Decision): Registry {
    r.(warnings := r.warnings + [WarningRecord(w, actor, role, decision)],
       events := r.events + [WarningRecorded(w.fingerprint.swarmId, actor, |r.warnings|)])
  }

  /** `_to_governance_action_type` */
  function ActionType(to: Status): string {
    if to == Approved then "plan_approval" else if to == Enabled then "publish_approval" else "other"
  }

  /** The warning is persisted as acknowledged and a reduced-assurance event refers to that record. */
  function Acknowledge(r: Registry, w: Warning, actor: string, role: string): Registry {
    var p := PersistWarning(r, w, actor, role, AcknowledgedAndProceeded);
    var event := AssuranceEvent(w.fingerprint.swarmId, |r.warnings|, actor, role, w.reduction,
        ActionType(w.fingerprint.target));
    p.(assurance := p.assurance + [event],
       events := p.events + [AssuranceRecorded(w.fingerprint.swarmId, actor, |r.assurance|)])
  }

  /** Some cited record carries the fingerprint. */
  predicate IsCited(r: Registry, warningIds: seq<nat>, f: Fingerprint) {
    exists i :: 0 <= i < |warningIds| && warningIds[i] < |r.warnings|
      && r.warnings[warningIds[i]].warning.fingerprint == f
  }

  function Move(r: Registry, swarmId: nat, actor: string, role: string, to: Status): Registry
    requires swarmId in r.swarms
  {
    var s := r.swarms[swarmId];
    r.(swarms := r.swarms[swarmId := s.(status := to)],
       events := r.events + [Transitioned(swarmId, actor, role, s.status, to)])
  }

  /** Whether a transition gets past the tables: the swarm exists, the move is allowed and the role fits. */
  predicate PassesTables(r: Registry, swarmId: nat, to: Option<Status>, role: string) {
    swarmId in r.swarms && to.Some? && IsAllowed(r.swarms[swarmId].status, to.value)
        && RoleAccepted(r.swarms[swarmId].status, to.value, role)
  }

  /** `LifecycleManager.transition`; `to` is `None` for a target that is no lifecycle state. */
  function Transition(r: Registry, swarmId: nat, to: Option<Status>, actor: string, role: string,
      warningIds: seq<nat>): (Registry, bool)
  {
    if !PassesTables(r, swarmId, to, role) then (r, false)
    else
      match TransitionWarning(r, swarmId, actor, role, to.value)
      case None => (Move(r, swarmId, actor, role, to.value), true)
      case Some(w) =>
        if w.fingerprint.severity == Block then (PersistWarning(r, w, actor, role, BlockedBySystem), false)
        else if !IsCited(r, warningIds, w.fingerprint) then (PersistWarning(r, w, actor, role, Deferred), false)
        else (Move(Acknowledge(r, w, actor, role), swarmId, actor, role, to.value), true)
  }

  /** The lifecycle manager over its repository, table by table. */
  class LifecycleManager {
    var swarms: map<nat, Swarm>
    var nextId: nat
    var events: seq<Event>
    var warnings: seq<WarningRecord>
    var assurance: seq<AssuranceEvent>

    function Snapshot(): Registry
      reads this
    {
      Registry(swarms, nextId, events, warnings, assurance)
    }

    constructor (r: Registry)
      ensures Snapshot() == r
    {
      swarms, nextId, events, warnings, assurance := r.swarms, r.nextId, r.events, r.warnings, r.assurance;
    }

    /** `persist_warning_records` */
    method Persist(w: Warning, actor: string, role: string, decision: Decision) returns (id: nat)
      modifies this
      ensures Snapshot() == PersistWarning(old(Snapshot()), w, actor, role, decision)
      ensures id == |old(warnings)|
    {
      id := |warnings|;
      warnings := warnings + [WarningRecord(w, actor, role, decision)];
      events := events + [WarningRecorded(w.fingerprint.swarmId, actor, id)];
    }

    /** The fingerprints of the cited records that exist. */
    method CollectFingerprints(warningIds: seq<nat>) returns (provided: set<Fingerprint>)
      ensures forall f :: f in provided <==> IsCited(Snapshot(), warningIds, f)
    {
      provided := {};
      for i := 0 to |warningIds|
        invariant forall f :: f in provided <==>
                    exists k :: 0 <= k < i && warningIds[k] < |warnings|
                      && warnings[warningIds[k]].warning.fingerprint == f
      {
        if warningIds[i] < |warnings| {
          provided := provided + {warnings[warningIds[i]].warning.fingerprint};
        }
      }
    }

    /** `transition` */
    method DoTransition(swarmId: nat, to: Option<Status>, actor: string, role: string, warningIds: seq<nat>)
        returns (ok: bool)
      modifies this
      ensures (Snapshot(), ok) == Transition(old(Snapshot()), swarmId, to, actor, role, warningIds)
    {
      if swarmId !in swarms { return false; }
      var from := swarms[swarmId].status;
      if to.None? { return false; }
      if !IsAllowed(from, to.value) { return false; }
      if !RoleAccepted(from, to.value, role) { return false; }
      var warning := TransitionWarning(Snapshot(), swarmId, actor, role, to.value);
      if warning.Some? {
        var w := warning.value;
        if w.fingerprint.severity == Block {
          var _ := Persist(w, actor, role, BlockedBySystem);
          return false;
        }
        var provided := CollectFingerprints(warningIds);
        if w.fingerprint !in provided {
          var _ := Persist(w, actor, role, Deferred);
          return false;
        }
        var id := Persist(w, actor, role, AcknowledgedAndProceeded);
        assurance := assurance + [AssuranceEvent(swarmId, id, actor, role, w.reduction, ActionType(to.value))];
        events := events + [AssuranceRecorded(swarmId, actor, |assurance| - 1)];
      }
      swarms := swarms[swarmId := swarms[swarmId].(status := to.value)];
      events := events + [Transitioned(swarmId, actor, role, from, to.value)];
      return true;
    }
  }
}
