/** `SwarmSkillABI`: the gateway through which skills define and revise swarms, but never move them. */
module SkillAbi {
  import opened Prelude
  import opened Governance
  import Text

  const STATUS := "lifecycle_status"

  /** The columns of the swarm table. */
  const COLUMNS: set<string> := {
    "swarm_id", "swarm_name", "description", "lifecycle_status", "accepted_intent_id", "behavior_sequence_id",
    "schedule_id", "delivery_id", "latest_run_id", "created_by", "created_at", "updated_at"}

  /** The links that may be set at any time; all other columns are the swarm's definition. */
  const LINKS: set<string> := {"schedule_id", "delivery_id"}

  function Definition(s: Swarm): map<string, string> {
    s.fields - LINKS
  }

  /** Keyword arguments: keys and values in the order given. */
  type Assignments = seq<(string, string)>

  /** The column that a key names in an SQL statement, where upper and lower case are the same. */
  function ColumnOf(key: string): Option<string> {
    if Text.Lower(key) in COLUMNS then Some(Text.Lower(key)) else None
  }

  function StatusNamed(text: string): Status {
    if text == "drafting" then Drafting
    else if text == "reviewing" then Reviewing
    else if text == "approved" then Approved
    else if text == "rejected" then Rejected
    else if text == "enabled" then Enabled
    else if text == "paused" then Paused
    else if text == "revoked" then Revoked
    else Other(text)
  }

  /** One assignment; the update time is overwritten by the clock and not modelled. */
  function Assign(s: Swarm, column: string, value: string): Swarm {
    if column == STATUS then s.(status := StatusNamed(value))
    else if column == "updated_at" then s
    else s.(fields := s.fields[column := value])
  }

  /** `SET` with the columns that the keys name; of two keys for one column the later counts. */
  function Assigned(s: Swarm, fields: Assignments): Swarm {
    if fields == [] then s
    else
      var before, last := Assigned(s, fields[..|fields| - 1]), fields[|fields| - 1];
      if ColumnOf(last.0).None? then before else Assign(before, ColumnOf(last.0).value, last.1)
  }

  /** Every key names a column other than the row's own id; any other statement raises. */
  predicate NamesColumns(fields: Assignments) {
    forall i :: 0 <= i < |fields| ==> ColumnOf(fields[i].0).Some? && ColumnOf(fields[i].0) != Some("swarm_id")
  }

  /** `repo.create_swarm` and the `swarm_created` event; a blank name raises. */
  function Create(r: Registry, name: string, description: string, createdBy: string): (Registry, bool) {
    if Text.Strip(name) == "" then (r, false)
    else
      var fields := map["swarm_name" := Text.Strip(name), "description" := description, "created_by" := createdBy];
      (r.(swarms := r.swarms[r.nextId := Swarm(Drafting, fields)],
          nextId := r.nextId + 1,
          events := r.events + [Created(r.nextId, createdBy)]), true)
  }

  /** `repo.update_swarm` of the row, if it is there. */
  function SetFields(r: Registry, swarmId: nat, fields: map<string, string>): Registry {
    if swarmId !in r.swarms then r
    else r.(swarms := r.swarms[swarmId := r.swarms[swarmId].(fields := r.swarms[swarmId].fields + fields)])
  }

  /** `configure_schedule` and `configure_delivery`: link a new schedule or delivery, in any state. */
  function Link(r: Registry, swarmId: nat, column: string, id: string): Registry
    requires column in LINKS
  {
    SetFields(r, swarmId, map[column := id])
  }

  /** `update_swarm_definition`: refused for the status key as spelled here and outside drafting and rejected. */
  function UpdateDefinition(r: Registry, swarmId: nat, actor: string, fields: Assignments): (Registry, bool) {
    if (exists i :: 0 <= i < |fields| && fields[i].0 == STATUS) || swarmId !in r.swarms then (r, false)
    else if r.swarms[swarmId].status != Drafting && r.swarms[swarmId].status != Rejected then (r, false)
    else if !NamesColumns(fields) then (r, false)
    else
      (r.(swarms := r.swarms[swarmId := Assigned(r.swarms[swarmId], fields)],
          events := r.events + [Updated(swarmId, actor)]), true)
  }

  class SwarmSkillAbi {
    const repo: LifecycleManager

    constructor (repo: LifecycleManager)
      ensures this.repo == repo
    {
      this.repo := repo;
    }

    method CreateSwarmDefinition(name: string, description: string, createdBy: string) returns (ok: bool, id: nat)
      modifies repo
      ensures (repo.Snapshot(), ok) == Create(old(repo.Snapshot()), name, description, createdBy)
      ensures ok ==> id == old(repo.nextId)
    {
      id := repo.nextId;
      if Text.Strip(name) == "" { return false, id; }
      repo.swarms := repo.swarms[id :=
          Swarm(Drafting, map["swarm_name" := Text.Strip(name), "description" := description,
          "created_by" := createdBy])];
      repo.nextId := id + 1;
      repo.events := repo.events + [Created(id, createdBy)];
      return true, id;
    }

    method Configure(swarmId: nat, column: string, id: string)
      requires column in LINKS
      modifies repo
      ensures repo.Snapshot() == Link(old(repo.Snapshot()), swarmId, column, id)
    {
      if swarmId in repo.swarms {
        repo.swarms := repo.swarms[swarmId :=
            repo.swarms[swarmId].(fields := repo.swarms[swarmId].fields + map[column := id])];
      }
    }

    method UpdateSwarmDefinition(swarmId: nat, actor: string, fields: Assignments) returns (ok: bool)
      modifies repo
      ensures (repo.Snapshot(), ok) == UpdateDefinition(old(repo.Snapshot()), swarmId, actor, fields)
    {
      if exists i :: 0 <= i < |fields| && fields[i].0 == STATUS { return false; }
      if swarmId !in repo.swarms { return false; }
      var s := repo.swarms[swarmId];
      if s.status != Drafting && s.status != Rejected { return false; }
      for i := 0 to |fields|
        invariant s == Assigned(repo.swarms[swarmId], fields[..i])
        invariant NamesColumns(fields[..i])
      {
        assert fields[..i + 1][..i] == fields[..i];
        var column := ColumnOf(fields[i].0);
        if column.None? || column.value == "swarm_id" { return false; }
        s := Assign(s, column.value, fields[i].1);
      }
      assert fields[..|fields|] == fields;
      repo.swarms := repo.swarms[swarmId := s];
      repo.events := repo.events + [Updated(swarmId, actor)];
      return true;
    }

    /** `archive_swarm` */
    method ArchiveSwarm(swarmId: nat, actor: string) returns (ok: bool)
      modifies repo
      ensures (repo.Snapshot(), ok) == Transition(old(repo.Snapshot()), swarmId, Some(Revoked), actor, "publisher", [])
    {
      ok := repo.DoTransition(swarmId, Some(Revoked), actor, "publisher", []);
    }
  }
}
