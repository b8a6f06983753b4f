/** What holds in every registry reachable through the skill gateway and the lifecycle manager. */
module GovernanceRuns {
  import opened Prelude
  import opened Governance
  import opened SkillAbi
  import Text

  datatype Operation =
    | CreateSwarm(name: string, description: string, createdBy: string)
    | LinkSwarm(swarmId: nat, column: string, id: string)
    | UpdateSwarm(swarmId: nat, actor: string, fields: Assignments)
    | MoveSwarm(swarmId: nat, to: Option<Status>, actor: string, role: string, warningIds: seq<nat>)

  function Apply(r: Registry, op: Operation): (Registry, bool) {
    match op
    case CreateSwarm(name, description, createdBy) => Create(r, name, description, createdBy)
    case LinkSwarm(swarmId, column, id) => if column in LINKS then (Link(r, swarmId, column, id), true) else (r, false)
    case UpdateSwarm(swarmId, actor, fields) => UpdateDefinition(r, swarmId, actor, fields)
    case MoveSwarm(swarmId, to, actor, role, warningIds) => Transition(r, swarmId, to, actor, role, warningIds)
  }

  const EMPTY: Registry := Registry(map[], 0, [], [], [])

  function Run(ops: seq<Operation>): Registry {
    if ops == [] then EMPTY else Apply(Run(ops[..|ops| - 1]), ops[|ops| - 1]).0
  }

  // ---------- replaying the event log ----------

  /** The status that the recorded transitions of a swarm lead to, starting from drafting. */
  function Replay(events: seq<Event>, swarmId: nat): Status {
    if events == [] then Drafting
    else
      var last := events[|events| - 1];
      if last.Transitioned? && last.swarmId == swarmId then last.to else Replay(events[..|events| - 1], swarmId)
  }

  /** Every recorded transition left the status that the events before it led to, by an allowed move in its role. */
  ghost predicate IsLegalLog(events: seq<Event>) {
    forall i :: 0 <= i < |events| && events[i].Transitioned? ==>
      var e := events[i];
      && Replay(events[..i], e.swarmId) == e.from
      && IsAllowed(e.from, e.to)
      && RequiredRole(e.from, e.to) == Some(e.role)
  }

  lemma ReplayExtends(events: seq<Event>, e: Event, swarmId: nat)
    ensures Replay(events + [e], swarmId) ==
            if e.Transitioned? && e.swarmId == swarmId then e.to else Replay(events, swarmId)
  {
    assert (events + [e])[..|events|] == events;
  }

  lemma LegalExtends(events: seq<Event>, e: Event)
    requires IsLegalLog(events)
    requires e.Transitioned? ==>
               && Replay(events, e.swarmId) == e.from && IsAllowed(e.from, e.to)
               && RequiredRole(e.from, e.to) == Some(e.role)
    ensures IsLegalLog(events + [e])
  {
    var more := events + [e];
    forall i | 0 <= i < |more| && more[i].Transitioned?
      ensures Replay(more[..i], more[i].swarmId) == more[i].from
              && IsAllowed(more[i].from, more[i].to) && RequiredRole(more[i].from, more[i].to) == Some(more[i].role)
    {
      assert more[..i] == events[..i];
      if i == |events| { assert events[..i] == events; }
    }
  }

  /** An allowed move always has a required role. */
  lemma AllowedNeedsRole(from: Status, to: Status)
    requires IsAllowed(from, to)
    ensures RequiredRole(from, to).Some?
  {
  }

  // ---------- the three-role rule ----------

  /** Once a publisher has acted, only publisher moves remain possible. */
  predicate IsPublished(s: Status) {
    s == Enabled || s == Paused || s == Revoked
  }

  ghost predicate HoldsAllRoles(events: seq<Event>, swarmId: nat, actor: string) {
    && HasActedAs(events, swarmId, actor, "author")
    && HasActedAs(events, swarmId, actor, "reviewer")
    && HasActedAs(events, swarmId, actor, "publisher")
  }

  lemma ActedExtends(events: seq<Event>, e: Event, swarmId: nat, actor: string, role: string)
    ensures HasActedAs(events + [e], swarmId, actor, role) <==>
            HasActedAs(events, swarmId, actor, role) || ActedAs(e, swarmId, actor, role)
  {
    var more := events + [e];
    if i :| 0 <= i < |events| && ActedAs(events[i], swarmId, actor, role) {
      assert more[i] == events[i];
    }
    if ActedAs(e, swarmId, actor, role) {
      assert more[|events|] == e;
    }
  }

  /** The acting roles that the registry reports are those of the log, and author for the creator. */
  lemma RolesFromLog(r: Registry, swarmId: nat, actor: string, role: string)
    ensures role in ActorRoles(r, swarmId, actor) <==>
            HasActedAs(r.events, swarmId, actor, role) || (role == "author" && IsCreator(r.swarms, swarmId, actor))
  {
    if i :| 0 <= i < |r.events| && ActedAs(r.events[i], swarmId, actor, role) {
      assert r.events[i].role in ActorRoles(r, swarmId, actor);
    }
  }

  /** Nobody acted as publisher on a swarm that is not published. */
  ghost predicate PublishersComeLast(s: Swarm, events: seq<Event>, swarmId: nat) {
    IsPublished(s.status) || forall actor :: !HasActedAs(events, swarmId, actor, "publisher")
  }

  /** Nobody acted on a swarm as author, reviewer and publisher, counting its creation as authorship. */
  ghost predicate RolesSeparated(swarms: map<nat, Swarm>, events: seq<Event>, swarmId: nat) {
    forall actor ::
      !(IsAuthorAndReviewer(swarms, events, swarmId, actor) && HasActedAs(events, swarmId, actor, "publisher"))
  }

  ghost predicate IsAuthorAndReviewer(swarms: map<nat, Swarm>, events: seq<Event>, swarmId: nat, actor: string) {
    && (HasActedAs(events, swarmId, actor, "author") || IsCreator(swarms, swarmId, actor))
    && HasActedAs(events, swarmId, actor, "reviewer")
  }

  // ---------- the invariant ----------

  /** Every acknowledged warning was deferred before under the same fingerprint, and has its assurance event. */
  ghost predicate WarningsAccounted(warnings: seq<WarningRecord>, assurance: seq<AssuranceEvent>) {
    && (forall i :: 0 <= i < |warnings| && warnings[i].decision == AcknowledgedAndProceeded ==>
          WasDeferred(warnings[..i], warnings[i].warning.fingerprint) && HasAssurance(assurance, i))
    && (forall i :: 0 <= i < |warnings| ==>
          (warnings[i].decision == BlockedBySystem <==> warnings[i].warning.fingerprint.severity == Block))
    && (forall k :: 0 <= k < |assurance| ==>
          assurance[k].warningId < |warnings| && warnings[assurance[k].warningId].decision == AcknowledgedAndProceeded)
  }

  ghost predicate WasDeferred(warnings: seq<WarningRecord>, f: Fingerprint) {
    exists j :: 0 <= j < |warnings| && warnings[j].decision == Deferred && warnings[j].warning.fingerprint == f
  }

  ghost predicate HasAssurance(assurance: seq<AssuranceEvent>, warningId: nat) {
    exists k :: 0 <= k < |assurance| && assurance[k].warningId == warningId
  }

  ghost predicate IdsBounded(r: Registry) {
    && (forall id <- r.swarms :: id < r.nextId)
    && (forall i :: 0 <= i < |r.events| ==> r.events[i].swarmId < r.nextId)
  }

  ghost predicate RolesKept(r: Registry) {
    && (forall id <- r.swarms :: PublishersComeLast(r.swarms[id], r.events, id))
    && (forall id :: RolesSeparated(r.swarms, r.events, id))
  }

  /** What every operation keeps. */
  ghost predicate Invariant(r: Registry) {
    IdsBounded(r) && RolesKept(r) && WarningsAccounted(r.warnings, r.assurance)
  }

  /** The log is legal, and replayed it gives every swarm's status. */
  ghost predicate LogFollows(r: Registry) {
    IsLegalLog(r.events) && forall id <- r.swarms :: r.swarms[id].status == Replay(r.events, id)
  }

  lemma OtherEventKeepsInvariant(r: Registry, e: Event)
    requires !e.Transitioned? && e.swarmId < r.nextId && Invariant(r)
    ensures Invariant(r.(events := r.events + [e]))
  {
    var more := r.events + [e];
    forall id: nat, actor: string, role: string
      ensures HasActedAs(more, id, actor, role) <==> HasActedAs(r.events, id, actor, role)
    {
      ActedExtends(r.events, e, id, actor, role);
    }
    forall id ensures RolesSeparated(r.swarms, more, id) {
      assert RolesSeparated(r.swarms, r.events, id);
    }
  }

  lemma OtherEventKeepsLog(r: Registry, e: Event)
    requires !e.Transitioned?
    ensures IsLegalLog(r.events) ==> IsLegalLog(r.events + [e])
    ensures forall id :: Replay(r.events + [e], id) == Replay(r.events, id)
  {
    if IsLegalLog(r.events) {
      LegalExtends(r.events, e);
    }
    forall id { ReplayExtends(r.events, e, id); }
  }

  lemma EmptyInvariant()
    ensures Invariant(EMPTY)
  {
  }

  /** The tables send publishers only to published states, and everyone else only away from unpublished ones. */
  lemma PublisherMovesPublish(from: Status, to: Status, role: string)
    requires IsAllowed(from, to) && RequiredRole(from, to) == Some(role)
    ensures role == "publisher" ==> IsPublished(to) && IsChecked(to)
    ensures role != "publisher" ==> !IsPublished(from)
    ensures role == "author" || role == "reviewer" || role == "publisher"
  {
  }

  lemma ThirdRoleBlocks(r: Registry, swarmId: nat, actor: string, to: Status)
    requires IsChecked(to) && {"author", "reviewer"} <= ActorRoles(r, swarmId, actor)
    ensures var w := TransitionWarning(r, swarmId, actor, "publisher", to);
              w.Some? && w.value.fingerprint.severity == Block
  {
    var prior := ActorRoles(r, swarmId, actor);
    assert GOVERNANCE_ROLES <= prior + {"publisher"};
    assert prior != {"publisher"};
  }

  /** A publisher move that is not blocked is made by nobody who was both author and reviewer. */
  lemma UnblockedPublisher(r: Registry, swarmId: nat, actor: string, to: Status)
    requires IsChecked(to)
    requires var w := TransitionWarning(r, swarmId, actor, "publisher", to);
               w.None? || w.value.fingerprint.severity == Warn
    ensures !IsAuthorAndReviewer(r.swarms, r.events, swarmId, actor)
  {
    RolesFromLog(r, swarmId, actor, "author");
    RolesFromLog(r, swarmId, actor, "reviewer");
    if IsAuthorAndReviewer(r.swarms, r.events, swarmId, actor) {
      ThirdRoleBlocks(r, swarmId, actor, to);
    }
  }

  lemma MoveKeepsInvariant(r: Registry, swarmId: nat, actor: string, role: string, to: Status)
    requires Invariant(r) && PassesTables(r, swarmId, Some(to), role)
    requires role == "publisher" ==> !IsAuthorAndReviewer(r.swarms, r.events, swarmId, actor)
    ensures Invariant(Move(r, swarmId, actor, role, to))
  {
    AllowedNeedsRole(r.swarms[swarmId].status, to);
    PublisherMovesPublish(r.swarms[swarmId].status, to, role);
    hide IsAllowed, RequiredRole, WarningsAccounted;
    MoveKeepsRoles(r, swarmId, actor, role, to);
  }

  lemma MoveKeepsRoles(r: Registry, swarmId: nat, actor: string, role: string, to: Status)
    requires swarmId in r.swarms && RolesKept(r)
    requires role == "publisher" ==> IsPublished(to) && !IsAuthorAndReviewer(r.swarms, r.events, swarmId, actor)
    requires role != "publisher" ==> !IsPublished(r.swarms[swarmId].status)
    ensures RolesKept(Move(r, swarmId, actor, role, to))
  {
    var e := Transitioned(swarmId, actor, role, r.swarms[swarmId].status, to);
    var r' := Move(r, swarmId, actor, role, to);
    forall id: nat, a: string, x: string
      ensures HasActedAs(r'.events, id, a, x) <==> HasActedAs(r.events, id, a, x) || ActedAs(e, id, a, x)
    {
      ActedExtends(r.events, e, id, a, x);
    }
    hide HasActedAs;
    forall id | id in r'.swarms ensures PublishersComeLast(r'.swarms[id], r'.events, id) {
      assert PublishersComeLast(r.swarms[id], r.events, id);
    }
    forall id ensures RolesSeparated(r'.swarms, r'.events, id) {
      assert RolesSeparated(r.swarms, r.events, id);
      if id in r.swarms { assert PublishersComeLast(r.swarms[id], r.events, id); }
    }
  }

  lemma PersistKeepsInvariant(r: Registry, w: Warning, actor: string, role: string, decision: Decision)
    requires Invariant(r) && w.fingerprint.swarmId < r.nextId && decision != AcknowledgedAndProceeded
    requires decision == BlockedBySystem <==> w.fingerprint.severity == Block
    ensures Invariant(PersistWarning(r, w, actor, role, decision))
  {
    var record := WarningRecord(w, actor, role, decision);
    RecordKeepsAccounts(r.warnings, r.assurance, record);
    OtherEventKeepsInvariant(r.(warnings := r.warnings + [record]),
        WarningRecorded(w.fingerprint.swarmId, actor, |r.warnings|));
  }

  lemma RecordKeepsAccounts(warnings: seq<WarningRecord>, assurance: seq<AssuranceEvent>, record: WarningRecord)
    requires WarningsAccounted(warnings, assurance) && record.decision != AcknowledgedAndProceeded
    requires record.decision == BlockedBySystem <==> record.warning.fingerprint.severity == Block
    ensures WarningsAccounted(warnings + [record], assurance)
  {
    var more := warnings + [record];
    assert forall i :: 0 <= i < |warnings| ==> more[..i] == warnings[..i];
  }

  /** Citing a record of a warn-level warning means that the same warning was once deferred. */
  lemma CitedWasDeferred(r: Registry, warningIds: seq<nat>, f: Fingerprint)
    requires WarningsAccounted(r.warnings, r.assurance) && IsCited(r, warningIds, f) && f.severity == Warn
    ensures WasDeferred(r.warnings, f)
  {
    var i :| 0 <= i < |warningIds| && warningIds[i] < |r.warnings|
        && r.warnings[warningIds[i]].warning.fingerprint == f;
    var cited := warningIds[i];
    if r.warnings[cited].decision == AcknowledgedAndProceeded {
      var j :| 0 <= j < cited && r.warnings[..cited][j].decision == Deferred
          && r.warnings[..cited][j].warning.fingerprint == f;
      assert r.warnings[j].decision == Deferred;
    }
  }

  lemma AcknowledgeKeepsAccounts(warnings: seq<WarningRecord>, assurance: seq<AssuranceEvent>, record: WarningRecord,
      event: AssuranceEvent)
    requires WarningsAccounted(warnings, assurance) && WasDeferred(warnings, record.warning.fingerprint)
    requires record.decision == AcknowledgedAndProceeded && record.warning.fingerprint.severity == Warn
    requires event.warningId == |warnings|
    ensures WarningsAccounted(warnings + [record], assurance + [event])
  {
    var more, events := warnings + [record], assurance + [event];
    forall i | 0 <= i < |more| && more[i].decision == AcknowledgedAndProceeded
      ensures WasDeferred(more[..i], more[i].warning.fingerprint) && HasAssurance(events, i)
    {
      assert more[..i] == warnings[..i];
      if i == |warnings| {
        assert warnings[..i] == warnings;
        assert events[|assurance|].warningId == i;
      } else {
        var k :| 0 <= k < |assurance| && assurance[k].warningId == i;
        assert events[k].warningId == i;
      }
    }
  }

  lemma AcknowledgeKeepsInvariant(r: Registry, w: Warning, actor: string, role: string, warningIds: seq<nat>)
    requires Invariant(r) && w.fingerprint.swarmId < r.nextId && w.fingerprint.severity == Warn
    requires IsCited(r, warningIds, w.fingerprint)
    ensures Invariant(Acknowledge(r, w, actor, role))
  {
    CitedWasDeferred(r, warningIds, w.fingerprint);
    var ack := Acknowledge(r, w, actor, role);
    AcknowledgeKeepsAccounts(r.warnings, r.assurance, ack.warnings[|r.warnings|], ack.assurance[|r.assurance|]);
    var r1 := r.(warnings := ack.warnings, assurance := ack.assurance);
    var e1 := WarningRecorded(w.fingerprint.swarmId, actor, |r.warnings|);
    OtherEventKeepsInvariant(r1, e1);
    OtherEventKeepsInvariant(r1.(events := r1.events + [e1]),
        AssuranceRecorded(w.fingerprint.swarmId, actor, |r.assurance|));
  }

  lemma TransitionKeepsInvariant(r: Registry, swarmId: nat, to: Option<Status>, actor: string, role: string,
      warningIds: seq<nat>)
    requires Invariant(r)
    ensures Invariant(Transition(r, swarmId, to, actor, role, warningIds).0)
  {
    if PassesTables(r, swarmId, to, role) {
      var from := r.swarms[swarmId].status;
      AllowedNeedsRole(from, to.value);
      PublisherMovesPublish(from, to.value, role);
      var warning := TransitionWarning(r, swarmId, actor, role, to.value);
      if warning.Some? && warning.value.fingerprint.severity == Block {
        PersistKeepsInvariant(r, warning.value, actor, role, BlockedBySystem);
      } else {
        if role == "publisher" { UnblockedPublisher(r, swarmId, actor, to.value); }
        if warning.None? {
          MoveKeepsInvariant(r, swarmId, actor, role, to.value);
        } else if !IsCited(r, warningIds, warning.value.fingerprint) {
          PersistKeepsInvariant(r, warning.value, actor, role, Deferred);
        } else {
          var w := warning.value;
          AcknowledgeKeepsInvariant(r, w, actor, role, warningIds);
          AcknowledgeKeepsRoles(r, w, actor, role, swarmId);
          MoveKeepsInvariant(Acknowledge(r, w, actor, role), swarmId, actor, role, to.value);
        }
      }
    }
  }

  lemma AcknowledgeKeepsRoles(r: Registry, w: Warning, actor: string, role: string, swarmId: nat)
    ensures IsAuthorAndReviewer(r.swarms, Acknowledge(r, w, actor, role).events, swarmId, actor)
            == IsAuthorAndReviewer(r.swarms, r.events, swarmId, actor)
  {
    var e1 := WarningRecorded(w.fingerprint.swarmId, actor, |r.warnings|);
    var e2 := AssuranceRecorded(w.fingerprint.swarmId, actor, |r.assurance|);
    ActedExtends(r.events, e1, swarmId, actor, "author");
    ActedExtends(r.events + [e1], e2, swarmId, actor, "author");
    ActedExtends(r.events, e1, swarmId, actor, "reviewer");
    ActedExtends(r.events + [e1], e2, swarmId, actor, "reviewer");
  }

  /** Replacing a row keeps the invariant while nobody has published the swarm, or its status and creator stay. */
  lemma ReplacingKeepsInvariant(r: Registry, swarmId: nat, s: Swarm)
    requires Invariant(r) && swarmId in r.swarms
    requires !IsPublished(r.swarms[swarmId].status)
             || (s.status == r.swarms[swarmId].status && SameCreator(s, r.swarms[swarmId]))
    ensures Invariant(r.(swarms := r.swarms[swarmId := s]))
  {
    var r' := r.(swarms := r.swarms[swarmId := s]);
    hide HasActedAs, WarningsAccounted;
    assert PublishersComeLast(r.swarms[swarmId], r.events, swarmId);
    forall id ensures RolesSeparated(r'.swarms, r'.events, id) {
      assert RolesSeparated(r.swarms, r.events, id);
    }
  }

  ghost predicate SameCreator(s: Swarm, t: Swarm) {
    ("created_by" in s.fields <==> "created_by" in t.fields) &&
    ("created_by" in s.fields ==> s.fields["created_by"] == t.fields["created_by"])
  }

  lemma LinkKeepsInvariant(r: Registry, swarmId: nat, column: string, id: string)
    requires Invariant(r) && column in LINKS
    ensures Invariant(Link(r, swarmId, column, id))
  {
    if swarmId in r.swarms {
      var s := r.swarms[swarmId];
      assert column != "created_by";
      hide Invariant, IsPublished;
      ReplacingKeepsInvariant(r, swarmId, s.(fields := s.fields + map[column := id]));
    }
  }

  lemma UpdateKeepsInvariant(r: Registry, swarmId: nat, actor: string, fields: Assignments)
    requires Invariant(r)
    ensures Invariant(UpdateDefinition(r, swarmId, actor, fields).0)
  {
    if UpdateDefinition(r, swarmId, actor, fields).1 {
      var s := Assigned(r.swarms[swarmId], fields);
      ReplacingKeepsInvariant(r, swarmId, s);
      OtherEventKeepsInvariant(r.(swarms := r.swarms[swarmId := s]), Updated(swarmId, actor));
    }
  }

  lemma CreateKeepsInvariant(r: Registry, name: string, description: string, createdBy: string)
    requires Invariant(r)
    ensures Invariant(Create(r, name, description, createdBy).0)
  {
    var r' := Create(r, name, description, createdBy).0;
    if r' != r {
      var id := r.nextId;
      NoEventsOf(r.events, id);
      var r1 := r'.(events := r.events);
      hide HasActedAs, WarningsAccounted;
      forall other ensures RolesSeparated(r1.swarms, r1.events, other) {
        assert RolesSeparated(r.swarms, r.events, other);
      }
      forall other | other in r1.swarms ensures PublishersComeLast(r1.swarms[other], r1.events, other) {
        assert other in r.swarms ==> PublishersComeLast(r.swarms[other], r.events, other);
      }
      OtherEventKeepsInvariant(r1, Created(id, createdBy));
    }
  }

  lemma {:induction false} NoEventsOf(events: seq<Event>, id: nat)
    requires forall i :: 0 <= i < |events| ==> events[i].swarmId < id
    ensures Replay(events, id) == Drafting
    ensures forall actor, role :: !HasActedAs(events, id, actor, role)
  {
    if events != [] {
      NoEventsOf(events[..|events| - 1], id);
    }
  }

  lemma ApplyKeepsInvariant(r: Registry, op: Operation)
    requires Invariant(r)
    ensures Invariant(Apply(r, op).0)
  {
    hide Invariant, Create, Link, UpdateDefinition, Transition;
    match op {
      case CreateSwarm(name, description, createdBy) =>
        CreateKeepsInvariant(r, name, description, createdBy);
      case LinkSwarm(swarmId, column, id) =>
        if column in LINKS {
          LinkKeepsInvariant(r, swarmId, column, id);
        }
      case UpdateSwarm(swarmId, actor, fields) =>
        UpdateKeepsInvariant(r, swarmId, actor, fields);
      case MoveSwarm(swarmId, to, actor, role, warningIds) =>
        TransitionKeepsInvariant(r, swarmId, to, actor, role, warningIds);
    }
  }

  lemma {:induction false} RunKeepsInvariant(ops: seq<Operation>)
    ensures Invariant(Run(ops))
  {
    if ops == [] {
      EmptyInvariant();
    } else {
      RunKeepsInvariant(ops[..|ops| - 1]);
      ApplyKeepsInvariant(Run(ops[..|ops| - 1]), ops[|ops| - 1]);
    }
  }

  // ---------- the main results ----------

  /** In every run no actor acts on one swarm as author, reviewer and publisher; creating it counts as authorship. */
  lemma NoActorHoldsAllThreeRoles(ops: seq<Operation>, swarmId: nat, actor: string)
    ensures var r := Run(ops);
            && !HoldsAllRoles(r.events, swarmId, actor)
            && !(IsCreator(r.swarms, swarmId, actor) && HasActedAs(r.events, swarmId, actor, "reviewer")
               && HasActedAs(r.events, swarmId, actor, "publisher"))
  {
    RunKeepsInvariant(ops);
    assert RolesSeparated(Run(ops).swarms, Run(ops).events, swarmId);
  }

  // ---------- when the log tells the status ----------

  /** The last value given to the status column, under whatever spelling of its name. */
  function StatusAssigned(fields: Assignments): Option<string> {
    if fields == [] then None
    else
      var last := fields[|fields| - 1];
      if ColumnOf(last.0) == Some(STATUS) then Some(last.1) else StatusAssigned(fields[..|fields| - 1])
  }

  /** An accepted update either leaves the status column out or gives it the value it has. */
  predicate KeepsStatus(r: Registry, op: Operation) {
    op.UpdateSwarm? && UpdateDefinition(r, op.swarmId, op.actor, op.fields).1 ==>
      var text := StatusAssigned(op.fields);
      text.None? || StatusNamed(text.value) == r.swarms[op.swarmId].status
  }

  lemma {:induction false} AssignedStatus(s: Swarm, fields: Assignments)
    ensures Assigned(s, fields).status == var text := StatusAssigned(fields);
                                          if text.None? then s.status else StatusNamed(text.value)
  {
    hide StatusNamed, ColumnOf;
    if fields != [] {
      AssignedStatus(s, fields[..|fields| - 1]);
    }
  }

  lemma {:induction false} TransitionKeepsLog(r: Registry, swarmId: nat, to: Option<Status>, actor: string,
      role: string,
      warningIds: seq<nat>)
    requires LogFollows(r)
    ensures LogFollows(Transition(r, swarmId, to, actor, role, warningIds).0)
  {
    var (after, ok) := Transition(r, swarmId, to, actor, role, warningIds);
    if !ok {
      RefusalMovesNothing(r, swarmId, to, actor, role, warningIds);
      RefusalKeepsLegal(r, swarmId, to, actor, role, warningIds);
    } else {
      AllowedNeedsRole(r.swarms[swarmId].status, to.value);
      var warning := TransitionWarning(r, swarmId, actor, role, to.value);
      hide IsAllowed, RequiredRole, TransitionWarning, IsLegalLog;
      if warning.None? {
        MoveKeepsLog(r, swarmId, actor, role, to.value);
      } else {
        AcknowledgeKeepsLog(r, warning.value, actor, role);
        MoveKeepsLog(Acknowledge(r, warning.value, actor, role), swarmId, actor, role, to.value);
      }
    }
  }

  lemma {:induction false} MoveKeepsLog(r: Registry, swarmId: nat, actor: string, role: string, to: Status)
    requires LogFollows(r) && PassesTables(r, swarmId, Some(to), role)
    ensures LogFollows(Move(r, swarmId, actor, role, to))
  {
    var from := r.swarms[swarmId].status;
    var e := Transitioned(swarmId, actor, role, from, to);
    AllowedNeedsRole(from, to);
    LegalExtends(r.events, e);
    forall id { ReplayExtends(r.events, e, id); }
  }

  lemma AcknowledgeKeepsLog(r: Registry, w: Warning, actor: string, role: string)
    requires LogFollows(r)
    ensures LogFollows(Acknowledge(r, w, actor, role))
  {
    var p := PersistWarning(r, w, actor, role, AcknowledgedAndProceeded);
    OtherEventKeepsLog(r, WarningRecorded(w.fingerprint.swarmId, actor, |r.warnings|));
    OtherEventKeepsLog(p, AssuranceRecorded(w.fingerprint.swarmId, actor, |r.assurance|));
  }

  lemma {:induction false} RefusalKeepsLegal(r: Registry, swarmId: nat, to: Option<Status>, actor: string, role: string,
      warningIds: seq<nat>)
    requires IsLegalLog(r.events) && !Transition(r, swarmId, to, actor, role, warningIds).1
    ensures IsLegalLog(Transition(r, swarmId, to, actor, role, warningIds).0.events)
  {
    var warning := if PassesTables(r, swarmId, to, role) then TransitionWarning(r, swarmId, actor, role, to.value)
        else None;
    if warning.Some? {
      OtherEventKeepsLog(r, WarningRecorded(warning.value.fingerprint.swarmId, actor, |r.warnings|));
    }
  }

  /** An operation keeps log and status together exactly when it keeps the status or records its move. */
  lemma LogFollowsIff(r: Registry, op: Operation)
    requires IdsBounded(r) && LogFollows(r)
    ensures LogFollows(Apply(r, op).0) <==> KeepsStatus(r, op)
  {
    match op {
      case CreateSwarm(name, description, createdBy) =>
        NoEventsOf(r.events, r.nextId);
        OtherEventKeepsLog(r, Created(r.nextId, createdBy));
      case LinkSwarm(swarmId, column, id) =>
      case UpdateSwarm(swarmId, actor, fields) =>
        UpdateKeepsLogIff(r, swarmId, actor, fields);
      case MoveSwarm(swarmId, to, actor, role, warningIds) =>
        TransitionKeepsLog(r, swarmId, to, actor, role, warningIds);
    }
  }

  lemma UpdateKeepsLogIff(r: Registry, swarmId: nat, actor: string, fields: Assignments)
    requires LogFollows(r)
    ensures LogFollows(UpdateDefinition(r, swarmId, actor, fields).0) <==>
            KeepsStatus(r, UpdateSwarm(swarmId, actor, fields))
  {
    if UpdateDefinition(r, swarmId, actor, fields).1 {
      AssignedStatus(r.swarms[swarmId], fields);
      ReplacingKeepsLogIff(r, swarmId, Assigned(r.swarms[swarmId], fields), Updated(swarmId, actor));
      hide LogFollows, StatusNamed, StatusAssigned, Assigned, NamesColumns;
    }
  }

  lemma ReplacingKeepsLogIff(r: Registry, swarmId: nat, s: Swarm, e: Event)
    requires LogFollows(r) && swarmId in r.swarms && !e.Transitioned?
    ensures LogFollows(r.(swarms := r.swarms[swarmId := s], events := r.events + [e])) <==>
            s.status == r.swarms[swarmId].status
  {
    OtherEventKeepsLog(r, e);
    hide IsLegalLog, Replay;
    var after := r.(swarms := r.swarms[swarmId := s], events := r.events + [e]);
    assert after.swarms[swarmId] == s;
  }

  /** Every operation of a run, in the registry it meets, keeps the status or records its move. */
  ghost predicate StatusKept(ops: seq<Operation>) {
    forall n :: 0 <= n < |ops| ==> KeepsStatus(Run(ops[..n]), ops[n])
  }

  /** The log tells the status at every point of a run exactly when every update of the run keeps the status. */
  lemma {:induction false} LogFollowsThroughoutIff(ops: seq<Operation>)
    ensures (forall n :: 0 <= n <= |ops| ==> LogFollows(Run(ops[..n]))) <==> StatusKept(ops)
  {
    hide LogFollows, KeepsStatus;
    if StatusKept(ops) {
      forall n | 0 <= n <= |ops| ensures LogFollows(Run(ops[..n])) {
        KeptLogFollows(ops, n);
      }
    } else {
      var n :| 0 <= n < |ops| && !KeepsStatus(Run(ops[..n]), ops[n]);
      if LogFollows(Run(ops[..n])) {
        RunKeepsInvariant(ops[..n]);
        LogFollowsIff(Run(ops[..n]), ops[n]);
        assert ops[..n + 1][..n] == ops[..n];
        assert !LogFollows(Run(ops[..n + 1]));
      }
    }
  }

  lemma {:induction false} KeptLogFollows(ops: seq<Operation>, n: nat)
    requires StatusKept(ops) && n <= |ops|
    ensures LogFollows(Run(ops[..n]))
  {
    if n > 0 {
      KeptLogFollows(ops, n - 1);
      hide LogFollows, KeepsStatus;
      RunKeepsInvariant(ops[..n - 1]);
      LogFollowsIff(Run(ops[..n - 1]), ops[n - 1]);
      assert ops[..n][..n - 1] == ops[..n - 1];
    }
  }

  /** In a run whose updates keep the status, the recorded transitions replay to the current status of every swarm. */
  lemma {:induction false} EventsReplayToStatus(ops: seq<Operation>, swarmId: nat)
    requires StatusKept(ops) && swarmId in Run(ops).swarms
    ensures Run(ops).swarms[swarmId].status == Replay(Run(ops).events, swarmId)
    ensures IsLegalLog(Run(ops).events)
  {
    KeptLogFollows(ops, |ops|);
    assert ops[..|ops|] == ops;
  }

  /** No key spells the status column in any way but its own. */
  predicate PlainKeys(fields: Assignments) {
    forall i :: 0 <= i < |fields| && ColumnOf(fields[i].0) == Some(STATUS) ==> fields[i].0 == STATUS
  }

  /** A caller who does not respell the status column always keeps the status. */
  lemma PlainKeysKeepStatus(r: Registry, swarmId: nat, actor: string, fields: Assignments)
    requires PlainKeys(fields)
    ensures KeepsStatus(r, UpdateSwarm(swarmId, actor, fields))
  {
    if StatusAssigned(fields).Some? {
      var i := StatusKey(fields);
      assert fields[i].0 == STATUS;
    }
  }

  lemma {:induction false} StatusKey(fields: Assignments) returns (i: nat)
    requires StatusAssigned(fields).Some?
    ensures i < |fields| && ColumnOf(fields[i].0) == Some(STATUS)
  {
    hide ColumnOf;
    i := |fields| - 1;
    if ColumnOf(fields[i].0) != Some(STATUS) {
      i := StatusKey(fields[..i]);
    }
  }

  /**
   A transition made despite a role-collapse warning: the warning was deferred earlier under the same
   fingerprint, and the step persists it as acknowledged, with an assurance event that names the record.
   */
  lemma {:induction false} CollapseIsAccounted(ops: seq<Operation>, swarmId: nat, to: Status, actor: string,
      role: string,
      warningIds: seq<nat>)
    requires var r := Run(ops);
             Transition(r, swarmId, Some(to), actor, role, warningIds).1
                 && TransitionWarning(r, swarmId, actor, role, to).Some?
    ensures var r := Run(ops);
            var w := TransitionWarning(r, swarmId, actor, role, to).value;
            var after := Transition(r, swarmId, Some(to), actor, role, warningIds).0;
            && w.fingerprint.severity == Warn
            && WasDeferred(r.warnings, w.fingerprint)
            && after.warnings == r.warnings + [WarningRecord(w, actor, role, AcknowledgedAndProceeded)]
            && |after.assurance| == |r.assurance| + 1 && after.assurance[|r.assurance|].warningId == |r.warnings|
            && after.assurance[|r.assurance|].reduction == w.reduction
            && |after.events| == |r.events| + 3
  {
    RunKeepsInvariant(ops);
    CitedWasDeferred(Run(ops), warningIds, TransitionWarning(Run(ops), swarmId, actor, role, to).value.fingerprint);
  }

  /** A refused transition changes no swarm and records no transition, whatever it adds to the warnings. */
  lemma RefusalMovesNothing(r: Registry, swarmId: nat, to: Option<Status>, actor: string, role: string,
      warningIds: seq<nat>)
    requires !Transition(r, swarmId, to, actor, role, warningIds).1
    ensures var after := Transition(r, swarmId, to, actor, role, warningIds).0;
            && after.swarms == r.swarms && after.assurance == r.assurance
            && r.events <= after.events && r.warnings <= after.warnings
            && forall id :: Replay(after.events, id) == Replay(r.events, id)
  {
    var warning := if PassesTables(r, swarmId, to, role) then TransitionWarning(r, swarmId, actor, role, to.value)
        else None;
    if warning.Some? {
      forall id { ReplayExtends(r.events, WarningRecorded(warning.value.fingerprint.swarmId, actor, |r.warnings|),
          id); }
    }
  }

  // ---------- what is enabled is what was submitted ----------

  /** The definition that the last successful submission for review found. */
  ghost function Submitted(ops: seq<Operation>, swarmId: nat): Option<map<string, string>> {
    if ops == [] then None
    else
      var before, op := Run(ops[..|ops| - 1]), ops[|ops| - 1];
      if op.MoveSwarm? && op.swarmId == swarmId && op.to == Some(Reviewing) && Apply(before, op).1
      then Some(Definition(before.swarms[swarmId]))
      else Submitted(ops[..|ops| - 1], swarmId)
  }

  predicate IsUnderReviewOrLive(s: Status) {
    s == Reviewing || s == Approved || s == Enabled || s == Paused
  }

  /** An accepted update does not give the status column one of these statuses. */
  predicate StaysOffLive(r: Registry, op: Operation) {
    op.UpdateSwarm? && UpdateDefinition(r, op.swarmId, op.actor, op.fields).1 ==>
      var text := StatusAssigned(op.fields);
      text.None? || !IsUnderReviewOrLive(StatusNamed(text.value))
  }

  ghost predicate LiveKept(ops: seq<Operation>) {
    forall n :: 0 <= n < |ops| ==> StaysOffLive(Run(ops[..n]), ops[n])
  }

  /** Keeping the status is more than enough. */
  lemma KeptStatusStaysOffLive(r: Registry, op: Operation)
    requires KeepsStatus(r, op)
    ensures StaysOffLive(r, op)
  {
    hide StatusNamed, StatusAssigned;
  }

  /** One operation keeps a definition under review or live, unless it is the submission itself. */
  lemma OperationKeepsDefinition(r: Registry, op: Operation, swarmId: nat)
    requires StaysOffLive(r, op) && forall id <- r.swarms :: id < r.nextId
    requires var after := Apply(r, op).0; swarmId in after.swarms && IsUnderReviewOrLive(after.swarms[swarmId].status)
    requires !(op.MoveSwarm? && op.swarmId == swarmId && op.to == Some(Reviewing) && Apply(r, op).1)
    ensures swarmId in r.swarms && IsUnderReviewOrLive(r.swarms[swarmId].status)
    ensures Definition(Apply(r, op).0.swarms[swarmId]) == Definition(r.swarms[swarmId])
  {
    match op {
      case CreateSwarm(_, _, _) =>
      case LinkSwarm(id, column, link) =>
        if column in LINKS && id in r.swarms {
          LinkKeepsDefinition(r.swarms[id], column, link);
        }
      case UpdateSwarm(id, _, fields) =>
        if Apply(r, op).1 {
          AssignedStatus(r.swarms[id], fields);
          hide Assigned, StatusNamed, StatusAssigned, NamesColumns, Definition;
        }
      case MoveSwarm(id, to, actor, role, warningIds) =>
        hide TransitionWarning, RequiredRole, Definition;
    }
  }

  lemma LinkKeepsDefinition(s: Swarm, column: string, id: string)
    requires column in LINKS
    ensures Definition(s.(fields := s.fields + map[column := id])) == Definition(s)
  {}

  /** Unless an update sets a live status itself, a swarm under review or live has the definition that was submitted. */
  lemma {:induction false} LiveDefinitionWasSubmitted(ops: seq<Operation>, swarmId: nat)
    requires var r := Run(ops); swarmId in r.swarms && IsUnderReviewOrLive(r.swarms[swarmId].status)
    requires LiveKept(ops)
    ensures Submitted(ops, swarmId) == Some(Definition(Run(ops).swarms[swarmId]))
  {
    var front, op := ops[..|ops| - 1], ops[|ops| - 1];
    var before := Run(front);
    RunKeepsInvariant(front);
    assert StaysOffLive(Run(ops[..|ops| - 1]), ops[|ops| - 1]);
    assert LiveKept(front) by {
      forall n | 0 <= n < |front| ensures StaysOffLive(Run(front[..n]), front[n]) {
        assert front[..n] == ops[..n] && StaysOffLive(Run(ops[..n]), ops[n]);
      }
    }
    hide Invariant, LiveKept, StaysOffLive, Definition;
    if !(op.MoveSwarm? && op.swarmId == swarmId && op.to == Some(Reviewing) && Apply(before, op).1) {
      OperationKeepsDefinition(before, op, swarmId);
      LiveDefinitionWasSubmitted(front, swarmId);
    }
  }

  /** On a swarm that was never submitted, an accepted update breaks this exactly when it sets a live status. */
  lemma NeverSubmittedIff(ops: seq<Operation>, update: Operation)
    requires update.UpdateSwarm? && Apply(Run(ops), update).1 && Submitted(ops, update.swarmId).None?
    ensures var more := ops + [update];
            var s := Run(more).swarms[update.swarmId];
            (IsUnderReviewOrLive(s.status) ==> Submitted(more, update.swarmId) == Some(Definition(s))) <==>
            StaysOffLive(Run(ops), update)
  {
    assert (ops + [update])[..|ops|] == ops;
    AssignedStatus(Run(ops).swarms[update.swarmId], update.fields);
    hide StatusNamed, StatusAssigned, Assigned, NamesColumns, Definition;
  }

  /** A failing input: an upper-case spelling passes the guard, and moves a drafting swarm without review or event. */
  lemma {:induction false} RespelledStatusMoves(ops: seq<Operation>)
    requires ops == [CreateSwarm("n", "", "a"), UpdateSwarm(0, "a", [("LIFECYCLE_STATUS", "enabled")])]
    ensures var r := Run(ops);
            && 0 in r.swarms && r.swarms[0].status == Enabled
            && Replay(r.events, 0) == Drafting && Submitted(ops, 0) == None && !StatusKept(ops)
  {
    var r1 := Run(ops[..1]);
    JustCreated(ops[..1], "n", "", "a");
    hide Create, UpdateDefinition, Transition, StatusNamed, ColumnOf;
    assert Run(ops) == Apply(r1, ops[1]).0;
    RespelledUpdate(r1, 0, "a");
    ReplayExtends(r1.events, Updated(0, "a"), 0);
    assert ops[..1][..0] == [] && Submitted(ops[..1], 0) == None;
    assert !KeepsStatus(Run(ops[..1]), ops[1]);
  }

  lemma JustCreated(ops: seq<Operation>, name: string, description: string, createdBy: string)
    requires ops == [CreateSwarm(name, description, createdBy)] && name != "" && Text.Strip(name) == name
    ensures var r := Run(ops);
            0 in r.swarms && r.swarms[0].status == Drafting && Replay(r.events, 0) == Drafting
  {
    assert ops[..0] == [];
    assert Run(ops) == Create(EMPTY, name, description, createdBy).0;
    ReplayExtends([], Created(0, createdBy), 0);
    assert [] + [Created(0, createdBy)] == [Created(0, createdBy)];
  }

  lemma RespelledUpdate(r: Registry, swarmId: nat, actor: string)
    requires swarmId in r.swarms && r.swarms[swarmId].status == Drafting
    ensures var fields := [("LIFECYCLE_STATUS", "enabled")];
            var (after, ok) := UpdateDefinition(r, swarmId, actor, fields);
            && ok && swarmId in after.swarms && after.swarms[swarmId].status == Enabled
            && after.events == r.events + [Updated(swarmId, actor)]
            && !KeepsStatus(r, UpdateSwarm(swarmId, actor, fields))
  {
    var fields := [("LIFECYCLE_STATUS", "enabled")];
    RespelledStatus();
    assert STATUS[0] == 'l' && fields[0].0[0] == 'L';
    hide ColumnOf;
    assert fields[..0] == [] && NamesColumns(fields);
    AssignedStatus(r.swarms[swarmId], fields);
    assert StatusAssigned(fields) == Some("enabled");
    NamedEnabled();
    hide StatusNamed, Assigned;
  }

  lemma NamedEnabled()
    ensures StatusNamed("enabled") == Enabled
  {
    assert |"reviewing"| == 9 && |"approved"| == |"rejected"| == |"drafting"| == 8;
  }

  lemma RespelledStatus()
    ensures ColumnOf("LIFECYCLE_STATUS") == Some(STATUS)
  {
    assert Text.Lower("LIFECYCLE_STATUS") == "lifecycle_status";
  }
}
