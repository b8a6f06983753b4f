/**
 What an actor who acts on one swarm in more than one role must go through, told from the tables and
 the log alone.
 */
module RoleCollapse {
  import opened Prelude
  import opened Governance
  import opened SkillAbi
  import opened GovernanceRuns

  // ---------- the moves that the tables accept ----------

  /** From, to, and the role that the move belongs to. */
  const MOVES: set<(Status, Status, string)> := {
    (Drafting, Reviewing, "author"), (Rejected, Drafting, "author"),
    (Reviewing, Approved, "reviewer"), (Reviewing, Rejected, "reviewer"), (Reviewing, Drafting, "reviewer"),
    (Approved, Enabled, "publisher"), (Enabled, Paused, "publisher"), (Paused, Enabled, "publisher"),
    (Drafting, Revoked, "publisher"), (Approved, Revoked, "publisher"), (Enabled, Revoked, "publisher"),
    (Paused, Revoked, "publisher")}

  lemma AcceptedMoves(from: Status, to: Status, role: string)
    ensures IsAllowed(from, to) && RoleAccepted(from, to, role) <==> (from, to, role) in MOVES
  {
    if IsAllowed(from, to) {
      AllowedNeedsRole(from, to);
    }
  }

  /** Every recorded move is one of these, so that an approval, say, is always a reviewer's act. */
  ghost predicate MovesAreKnown(events: seq<Event>) {
    forall i :: 0 <= i < |events| && events[i].Transitioned? ==> (events[i].from, events[i].to, events[i].role) in MOVES
  }

  // ---------- one transition ----------

  /** The states whose entry is checked for role collapse. */
  const GATED: set<Status> := {Approved, Enabled, Paused, Revoked}

  /** The actor recorded a move of the swarm in the role, or created it, which counts as authorship. */
  ghost predicate Held(r: Registry, swarmId: nat, actor: string, role: string) {
    HasActedAs(r.events, swarmId, actor, role) || (role == "author" && IsCreator(r.swarms, swarmId, actor))
  }

  ghost predicate HeldAnother(r: Registry, swarmId: nat, actor: string, role: string) {
    exists other :: other != role && Held(r, swarmId, actor, other)
  }

  ghost predicate HeldTheOtherTwo(r: Registry, swarmId: nat, actor: string, role: string) {
    forall other <- ["author", "reviewer", "publisher"] :: other == role || Held(r, swarmId, actor, other)
  }

  ghost predicate HeldOnly(r: Registry, swarmId: nat, actor: string, role: string) {
    forall other :: Held(r, swarmId, actor, other) <==> other == role
  }

  ghost function Reduction(r: Registry, swarmId: nat, actor: string, role: string): string {
    if role == "reviewer" && HeldOnly(r, swarmId, actor, "author") then "author_reviewer_role_collapse"
    else if role == "publisher" && HeldOnly(r, swarmId, actor, "reviewer") then "reviewer_publisher_role_collapse"
    else "single_operator_path"
  }

  lemma PriorRoles(r: Registry, swarmId: nat, actor: string)
    ensures forall role :: role in ActorRoles(r, swarmId, actor) <==> Held(r, swarmId, actor, role)
  {
    forall role ensures role in ActorRoles(r, swarmId, actor) <==> Held(r, swarmId, actor, role) {
      RolesFromLog(r, swarmId, actor, role);
    }
  }

  /** An actor is warned exactly when the target is gated and the actor held another role before. */
  lemma WarnedIff(r: Registry, swarmId: nat, actor: string, role: string, to: Status)
    ensures TransitionWarning(r, swarmId, actor, role, to).Some? <==>
            to in GATED && HeldAnother(r, swarmId, actor, role)
  {
    PriorRoles(r, swarmId, actor);
    var prior := ActorRoles(r, swarmId, actor);
    hide ActorRoles, Held;
    if prior != {} && prior != {role} {
      var other := SomeOther(prior, role);
      assert Held(r, swarmId, actor, other);
    }
  }

  lemma SomeOther(prior: set<string>, role: string) returns (other: string)
    requires prior != {} && prior != {role}
    ensures other in prior && other != role
  {
    var rest := prior - {role};
    assert prior == rest || prior == rest + {role};
    other := SomeElement(rest);
  }

  lemma WarningTells(r: Registry, swarmId: nat, actor: string, role: string, to: Status)
    requires TransitionWarning(r, swarmId, actor, role, to).Some?
    ensures TransitionWarning(r, swarmId, actor, role, to).value
            == Warning(Fingerprint(if HeldTheOtherTwo(r, swarmId, actor, role) then Block else Warn, swarmId, to),
                       Reduction(r, swarmId, actor, role))
  {
    PriorRoles(r, swarmId, actor);
    var prior := ActorRoles(r, swarmId, actor);
    hide ActorRoles, Held;
    assert GOVERNANCE_ROLES <= prior + {role} <==> HeldTheOtherTwo(r, swarmId, actor, role) by {
      assert forall other <- ["author", "reviewer", "publisher"] :: other in GOVERNANCE_ROLES;
      assert "author" in ["author", "reviewer", "publisher"] && "reviewer" in ["author", "reviewer", "publisher"]
             && "publisher" in ["author", "reviewer", "publisher"];
    }
    assert prior == {"author"} <==> HeldOnly(r, swarmId, actor, "author");
    assert prior == {"reviewer"} <==> HeldOnly(r, swarmId, actor, "reviewer");
  }

  /** The move of the tables, with its one event. */
  ghost predicate IsMove(before: Registry, after: Registry, swarmId: nat, actor: string, role: string, to: Status) {
    && swarmId in before.swarms
    && after.swarms == before.swarms[swarmId := before.swarms[swarmId].(status := to)]
    && |after.events| > 0
    && after.events[|after.events| - 1] == Transitioned(swarmId, actor, role, before.swarms[swarmId].status, to)
  }

  /** Someone without another role, or on the way to a state that is not gated, moves at once and unwarned. */
  lemma UnwarnedMove(r: Registry, swarmId: nat, to: Status, actor: string, role: string, warningIds: seq<nat>)
    requires swarmId in r.swarms && (r.swarms[swarmId].status, to, role) in MOVES
    requires to !in GATED || !HeldAnother(r, swarmId, actor, role)
    ensures var (after, ok) := Transition(r, swarmId, Some(to), actor, role, warningIds);
            && ok && IsMove(r, after, swarmId, actor, role, to)
            && |after.events| == |r.events| + 1 && r.events <= after.events
            && after.warnings == r.warnings && after.assurance == r.assurance
  {
    AcceptedMoves(r.swarms[swarmId].status, to, role);
    WarnedIff(r, swarmId, actor, role, to);
    hide TransitionWarning, IsAllowed, RoleAccepted, HeldAnother;
  }

  /** A cited record warns of the same: entering the state on this swarm, with the chance to proceed. */
  ghost predicate CitesWarning(r: Registry, warningIds: seq<nat>, swarmId: nat, to: Status) {
    exists id <- warningIds :: id < |r.warnings| && r.warnings[id].warning.fingerprint == Fingerprint(Warn, swarmId, to)
  }

  /**
   Someone with another role is stopped with a record of the warning, for good when no role is left; a
   next time, citing such a record, the move succeeds and adds the acknowledgment and its assurance event.
   It does not matter whom the cited record had warned.
   */
  lemma WarnedMove(r: Registry, swarmId: nat, to: Status, actor: string, role: string, warningIds: seq<nat>)
    requires swarmId in r.swarms && (r.swarms[swarmId].status, to, role) in MOVES
    requires to in GATED && HeldAnother(r, swarmId, actor, role)
    ensures var (after, ok) := Transition(r, swarmId, Some(to), actor, role, warningIds);
            var third, n := HeldTheOtherTwo(r, swarmId, actor, role), |r.warnings|;
            var cited := !third && CitesWarning(r, warningIds, swarmId, to);
            var warning := Warning(Fingerprint(if third then Block else Warn, swarmId, to),
                                   Reduction(r, swarmId, actor, role));
            && ok == cited
            && after.warnings == r.warnings + [WarningRecord(warning, actor, role,
                 if third then BlockedBySystem else if cited then AcknowledgedAndProceeded else Deferred)]
            && (if cited
                then && IsMove(r, after, swarmId, actor, role, to)
                     && after.assurance == r.assurance + [AssuranceEvent(swarmId, n, actor, role, warning.reduction,
                          if to == Approved then "plan_approval" else if to == Enabled then "publish_approval"
                          else "other")]
                     && |after.events| == |r.events| + 3 && r.events <= after.events
                     && after.events[|r.events|] == WarningRecorded(swarmId, actor, n)
                     && after.events[|r.events| + 1] == AssuranceRecorded(swarmId, actor, |r.assurance|)
                else && after.swarms == r.swarms && after.assurance == r.assurance
                     && after.events == r.events + [WarningRecorded(swarmId, actor, n)])
  {
    AcceptedMoves(r.swarms[swarmId].status, to, role);
    WarnedIff(r, swarmId, actor, role, to);
    WarningTells(r, swarmId, actor, role, to);
    CitesIffCited(r, warningIds, swarmId, to);
    hide TransitionWarning, IsAllowed, RoleAccepted, HeldAnother, HeldTheOtherTwo, Reduction, IsCited, CitesWarning;
  }

  lemma CitesIffCited(r: Registry, warningIds: seq<nat>, swarmId: nat, to: Status)
    ensures CitesWarning(r, warningIds, swarmId, to) <==> IsCited(r, warningIds, Fingerprint(Warn, swarmId, to))
  {
  }

  // ---------- whole runs ----------

  /** The actor of the i-th event, a move into a gated state, is recorded earlier in another role on that swarm. */
  ghost predicate CollapsesAt(events: seq<Event>, i: nat)
    requires i < |events|
  {
    var e := events[i];
    && e.Transitioned? && e.to in GATED
    && exists j, other :: 0 <= j < i && other != e.role && ActedAs(events[j], e.swarmId, e.actor, other)
  }

  /**
   The two events before the i-th name the acknowledgment of its warning, for that swarm, target, actor
   and role, and the assurance event that refers to it; the warning was deferred before.
   */
  ghost predicate AcknowledgedAt(r: Registry, i: nat)
    requires 2 <= i < |r.events| && r.events[i].Transitioned?
  {
    var e, recorded, assured := r.events[i], r.events[i - 2], r.events[i - 1];
    && recorded.WarningRecorded? && recorded.swarmId == e.swarmId && recorded.actor == e.actor
    && assured.AssuranceRecorded? && assured.swarmId == e.swarmId && assured.actor == e.actor
    && recorded.warningId < |r.warnings| && assured.eventId < |r.assurance|
    && var record, event := r.warnings[recorded.warningId], r.assurance[assured.eventId];
    && record.decision == AcknowledgedAndProceeded && record.actor == e.actor && record.role == e.role
    && record.warning.fingerprint == Fingerprint(Warn, e.swarmId, e.to)
    && event.warningId == recorded.warningId && event.actor == e.actor && event.role == e.role
    && WasDeferred(r.warnings[..recorded.warningId], record.warning.fingerprint)
  }

  ghost predicate CollapsesAcknowledged(r: Registry) {
    forall i :: 0 <= i < |r.events| && CollapsesAt(r.events, i) ==> i >= 2 && AcknowledgedAt(r, i)
  }

  ghost predicate LogIsSound(r: Registry) {
    MovesAreKnown(r.events) && CollapsesAcknowledged(r)
  }

  /** The tables only grow, so what was accounted for stays accounted for. */
  lemma SoundnessOfOldEvents(r: Registry, after: Registry)
    requires LogIsSound(r) && r.events <= after.events && r.warnings <= after.warnings && r.assurance <= after.assurance
    ensures forall i :: 0 <= i < |r.events| && CollapsesAt(after.events, i) ==> i >= 2 && AcknowledgedAt(after, i)
  {
    forall i | 0 <= i < |r.events| && CollapsesAt(after.events, i) ensures i >= 2 && AcknowledgedAt(after, i) {
      assert after.events[..i] == r.events[..i];
      assert CollapsesAt(r.events, i);
      var id := r.events[i - 2].warningId;
      assert after.warnings[..id] == r.warnings[..id];
    }
  }

  lemma WarnedMoveGrows(r: Registry, swarmId: nat, to: Status, actor: string, role: string, warningIds: seq<nat>)
    requires swarmId in r.swarms && (r.swarms[swarmId].status, to, role) in MOVES
    requires to in GATED && HeldAnother(r, swarmId, actor, role)
    ensures var (after, ok) := Transition(r, swarmId, Some(to), actor, role, warningIds);
            && r.events <= after.events && r.warnings <= after.warnings && r.assurance <= after.assurance
            && (!ok ==> |after.events| == |r.events| + 1)
            && forall i :: |r.events| <= i < |after.events| && i != |r.events| + 2 ==> !after.events[i].Transitioned?
  {
    WarnedMove(r, swarmId, to, actor, role, warningIds);
    hide Transition, HeldAnother, HeldTheOtherTwo, Reduction, CitesWarning;
  }

  /** Proceeding despite a warning leaves the acknowledgment behind the move. */
  lemma WarnedMoveIsAcknowledged(r: Registry, swarmId: nat, to: Status, actor: string, role: string,
      warningIds: seq<nat>)
    requires Invariant(r) && swarmId in r.swarms && (r.swarms[swarmId].status, to, role) in MOVES
    requires to in GATED && HeldAnother(r, swarmId, actor, role)
    ensures var (after, ok) := Transition(r, swarmId, Some(to), actor, role, warningIds);
            ok ==> && |after.events| == |r.events| + 3
                   && after.events[|r.events| + 2] == Transitioned(swarmId, actor, role, r.swarms[swarmId].status, to)
                   && AcknowledgedAt(after, |r.events| + 2)
  {
    WarnedMove(r, swarmId, to, actor, role, warningIds);
    var (after, ok) := Transition(r, swarmId, Some(to), actor, role, warningIds);
    hide Transition, HeldAnother, HeldTheOtherTwo, Reduction, CitesWarning, IsCited, WasDeferred, WarningsAccounted;
    if ok {
      CitesIffCited(r, warningIds, swarmId, to);
      CitedWasDeferred(r, warningIds, Fingerprint(Warn, swarmId, to));
      assert after.warnings[..|r.warnings|] == r.warnings;
    }
  }

  /** Someone without another role is recorded in no other role. */
  lemma NoCollapse(r: Registry, swarmId: nat, actor: string, role: string, j: nat, other: string)
    requires j < |r.events| && other != role && ActedAs(r.events[j], swarmId, actor, other)
    ensures HeldAnother(r, swarmId, actor, role)
  {
    assert Held(r, swarmId, actor, other);
  }

  lemma OneMoveKeepsSound(r: Registry, after: Registry)
    requires LogIsSound(r) && r.events <= after.events && r.warnings <= after.warnings && r.assurance <= after.assurance
    requires forall i :: |r.events| <= i < |after.events| - 1 ==> !after.events[i].Transitioned?
    requires var last := |after.events| - 1;
             last >= |r.events| && after.events[last].Transitioned? ==>
               && (after.events[last].from, after.events[last].to, after.events[last].role) in MOVES
               && (CollapsesAt(after.events, last) ==> last >= 2 && AcknowledgedAt(after, last))
    ensures LogIsSound(after)
  {
    SoundnessOfOldEvents(r, after);
    hide AcknowledgedAt;
    forall i | 0 <= i < |after.events| && after.events[i].Transitioned?
      ensures (after.events[i].from, after.events[i].to, after.events[i].role) in MOVES
    {
      if i < |r.events| {
        assert after.events[i] == r.events[i];
      }
    }
  }

  lemma UnwarnedMoveKeepsSound(r: Registry, swarmId: nat, to: Status, actor: string, role: string,
      warningIds: seq<nat>)
    requires LogIsSound(r) && swarmId in r.swarms && (r.swarms[swarmId].status, to, role) in MOVES
    requires to !in GATED || !HeldAnother(r, swarmId, actor, role)
    ensures LogIsSound(Transition(r, swarmId, Some(to), actor, role, warningIds).0)
  {
    var after := Transition(r, swarmId, Some(to), actor, role, warningIds).0;
    UnwarnedMove(r, swarmId, to, actor, role, warningIds);
    forall j, other | 0 <= j < |r.events| && other != role && ActedAs(after.events[j], swarmId, actor, other)
      ensures to !in GATED
    {
      NoCollapse(r, swarmId, actor, role, j, other);
    }
    hide LogIsSound, AcknowledgedAt, Transition, HeldAnother;
    OneMoveKeepsSound(r, after);
  }

  lemma WarnedMoveKeepsSound(r: Registry, swarmId: nat, to: Status, actor: string, role: string, warningIds: seq<nat>)
    requires Invariant(r) && LogIsSound(r) && swarmId in r.swarms && (r.swarms[swarmId].status, to, role) in MOVES
    requires to in GATED && HeldAnother(r, swarmId, actor, role)
    ensures LogIsSound(Transition(r, swarmId, Some(to), actor, role, warningIds).0)
  {
    var after := Transition(r, swarmId, Some(to), actor, role, warningIds).0;
    WarnedMoveGrows(r, swarmId, to, actor, role, warningIds);
    WarnedMoveIsAcknowledged(r, swarmId, to, actor, role, warningIds);
    hide LogIsSound, AcknowledgedAt, CollapsesAt, Transition, HeldAnother, HeldTheOtherTwo, Reduction, CitesWarning,
        Invariant, IsMove;
    OneMoveKeepsSound(r, after);
  }

  lemma TransitionKeepsSound(r: Registry, swarmId: nat, to: Option<Status>, actor: string, role: string,
      warningIds: seq<nat>)
    requires Invariant(r) && LogIsSound(r)
    ensures LogIsSound(Transition(r, swarmId, to, actor, role, warningIds).0)
  {
    if PassesTables(r, swarmId, to, role) {
      AcceptedMoves(r.swarms[swarmId].status, to.value, role);
      hide LogIsSound, Transition, HeldAnother, Invariant;
      if to.value in GATED && HeldAnother(r, swarmId, actor, role) {
        WarnedMoveKeepsSound(r, swarmId, to.value, actor, role, warningIds);
      } else {
        UnwarnedMoveKeepsSound(r, swarmId, to.value, actor, role, warningIds);
      }
    }
  }

  lemma {:induction false} RunIsSound(ops: seq<Operation>)
    ensures LogIsSound(Run(ops))
  {
    if ops != [] {
      var front, op := ops[..|ops| - 1], ops[|ops| - 1];
      RunIsSound(front);
      RunKeepsInvariant(front);
      hide LogIsSound, Invariant, Transition, Create, UpdateDefinition;
      if op.MoveSwarm? {
        TransitionKeepsSound(Run(front), op.swarmId, op.to, op.actor, op.role, op.warningIds);
      } else {
        OtherOperationKeepsSound(Run(front), op);
      }
    }
  }

  lemma OtherOperationKeepsSound(r: Registry, op: Operation)
    requires LogIsSound(r) && !op.MoveSwarm?
    ensures LogIsSound(Apply(r, op).0)
  {
    hide Assigned, NamesColumns, AcknowledgedAt, LogIsSound;
    OneMoveKeepsSound(r, Apply(r, op).0);
  }

  /** In every run each recorded move is one of the table's, an approval always a reviewer's. */
  lemma RolesOfMoves(ops: seq<Operation>, i: nat)
    requires i < |Run(ops).events| && Run(ops).events[i].Transitioned?
    ensures var e := Run(ops).events[i];
            && (e.from, e.to, e.role) in MOVES
            && (e.to == Approved ==> e.role == "reviewer")
            && (e.to in {Enabled, Paused, Revoked} ==> e.role == "publisher")
            && (e.to == Reviewing ==> e.role == "author")
  {
    RunIsSound(ops);
    var events := Run(ops).events;
    hide Run, CollapsesAcknowledged;
    assert (events[i].from, events[i].to, events[i].role) in MOVES;
    KnownMove(events[i].from, events[i].to, events[i].role);
  }

  lemma KnownMove(from: Status, to: Status, role: string)
    requires (from, to, role) in MOVES
    ensures to == Approved ==> role == "reviewer"
    ensures to in {Enabled, Paused, Revoked} ==> role == "publisher"
    ensures to == Reviewing ==> role == "author"
  {
  }

  /**
   In every run, a recorded move to approved, enabled, paused or revoked by someone recorded earlier in
   another role on that swarm is behind the acknowledgment of a warning that was deferred before.
   */
  lemma CollapseIsAcknowledged(ops: seq<Operation>, i: nat, j: nat)
    requires j < i < |Run(ops).events|
    requires var e, earlier := Run(ops).events[i], Run(ops).events[j];
             && e.Transitioned? && e.to in {Approved, Enabled, Paused, Revoked}
             && earlier.Transitioned? && earlier.swarmId == e.swarmId && earlier.actor == e.actor
             && earlier.role != e.role
    ensures i >= 2 && AcknowledgedAt(Run(ops), i)
  {
    RunIsSound(ops);
    var r := Run(ops);
    assert ActedAs(r.events[j], r.events[i].swarmId, r.events[i].actor, r.events[j].role);
    assert CollapsesAt(r.events, i);
    hide Run, AcknowledgedAt;
  }

  /** The same of the creator, who need not be recorded in any role: the next move after any run. */
  lemma CreatorCollapseIsAcknowledged(ops: seq<Operation>, swarmId: nat, to: Status, actor: string, role: string,
      warningIds: seq<nat>)
    requires IsCreator(Run(ops).swarms, swarmId, actor) && role != "author"
    requires to in {Approved, Enabled, Paused, Revoked}
    requires Transition(Run(ops), swarmId, Some(to), actor, role, warningIds).1
    ensures var after := Transition(Run(ops), swarmId, Some(to), actor, role, warningIds).0;
            var last := |after.events| - 1;
            last >= 2 && after.events[last].Transitioned? && AcknowledgedAt(after, last)
  {
    var r := Run(ops);
    RunKeepsInvariant(ops);
    AcceptedMoves(r.swarms[swarmId].status, to, role);
    assert Held(r, swarmId, actor, "author");
    hide Run, Invariant, AcknowledgedAt;
    WarnedMoveIsAcknowledged(r, swarmId, to, actor, role, warningIds);
  }
}
