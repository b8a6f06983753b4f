/** Stage 6 of the definition pipeline: assigning dependencies and checking them for cycles. */
module DependencyStage {
  import opened Prelude
  import opened Digraph
  import ActionTable
  import Kahn

  datatype Action = Action(id: string, name: string, stepOrder: int)

  /** `(action_id, depends_on)` */
  type Dependency = (string, string)

  datatype Row = Row(step: int, dependencies: seq<int>)

  function Ids(actions: seq<Action>): set<string> {
    set a <- actions :: a.id
  }

  predicate IsKnown(d: Dependency, ids: set<string>) {
    d.0 in ids && d.1 in ids
  }

  /** The dependency graph; dependencies on or of unknown actions are skipped. */
  ghost function KnownEdges(dependencies: seq<Dependency>, ids: set<string>): Edges<string> {
    if dependencies == [] then []
    else
      var last := dependencies[|dependencies| - 1];
      KnownEdges(dependencies[..|dependencies| - 1], ids) + if IsKnown(last, ids) then [(last.1, last.0)] else []
  }

  lemma {:induction false} KnownEdgeMeaning(dependencies: seq<Dependency>, ids: set<string>, e: (string, string))
    ensures e in KnownEdges(dependencies, ids) <==> e.0 in ids && e.1 in ids && (e.1, e.0) in dependencies
  {
    if dependencies != [] {
      var rest, last := dependencies[..|dependencies| - 1], dependencies[|dependencies| - 1];
      KnownEdgeMeaning(rest, ids, e);
      assert dependencies == rest + [last];
      assert (e.1, e.0) == last <==> e == (last.1, last.0);
    }
  }

  lemma KnownEdgesStep(dependencies: seq<Dependency>, ids: set<string>, i: nat)
    requires i < |dependencies|
    ensures var d := dependencies[i];
            var before := KnownEdges(dependencies[..i], ids);
            KnownEdges(dependencies[..i + 1], ids) == if IsKnown(d, ids) then before + [(d.1, d.0)] else before
  {
    assert dependencies[..i + 1][..i] == dependencies[..i];
  }

  /** `name_map.get(n, n)`: of several actions with one id the last gives the name. */
  function NameOf(actions: seq<Action>, id: string): string {
    if actions == [] then id
    else if actions[|actions| - 1].id == id then actions[|actions| - 1].name
    else NameOf(actions[..|actions| - 1], id)
  }

  /** No report on an acyclic graph; otherwise the names of exactly the actions on or behind a cycle. */
  ghost predicate IsNameReport(actions: seq<Action>, edges: Edges<string>, report: Option<seq<string>>) {
    if Acyclic(edges) then report == None
    else
      report.Some? && exists order: seq<string> ::
        && Distinct(order)
        && (forall id :: id in order <==> id in Ids(actions) && BehindCycle(edges, id))
        && report.value == NamesOf(actions, order)
  }

  function NamesOf(actions: seq<Action>, order: seq<string>): seq<string> {
    seq(|order|, i requires 0 <= i < |order| => NameOf(actions, order[i]))
  }

  /** `validate_dependencies` */
  method ValidateDependencies(actions: seq<Action>, dependencies: seq<Dependency>) returns (report: Option<seq<string>>)
    ensures IsNameReport(actions, KnownEdges(dependencies, Ids(actions)), report)
  {
    var ids := Ids(actions);
    ghost var edges := KnownEdges(dependencies, ids);
    if actions == [] || dependencies == [] {
      NoEdges(dependencies, ids);
      return None;
    }
    var inDegree, taken;
    var adj, inDegree0 := BuildGraph(dependencies, ids);
    inDegree, taken := Kahn.Drain(ids, edges, adj, inDegree0);
    Kahn.CycleShowsInNodes(ids, edges);
    hide Kahn.Built, BehindCycle, Acyclic, KnownEdges, Ids, NamesOf, Distinct;
    if taken < |ids| {
      var order := Positive(ids, inDegree);
      report := Some(NamesOf(actions, order));
      NamesAreReport(actions, edges, order);
      return;
    }
    return None;
  }

  lemma NamesAreReport(actions: seq<Action>, edges: Edges<string>, order: seq<string>)
    requires !Acyclic(edges) && Distinct(order)
    requires forall id :: id in order <==> id in Ids(actions) && BehindCycle(edges, id)
    ensures IsNameReport(actions, edges, Some(NamesOf(actions, order)))
  {
    hide Acyclic, Distinct, Ids, BehindCycle, NamesOf;
  }

  lemma NoEdges(dependencies: seq<Dependency>, ids: set<string>)
    requires ids == {} || dependencies == []
    ensures Acyclic(KnownEdges(dependencies, ids))
  {
    var edges := KnownEdges(dependencies, ids);
    forall e ensures e !in edges {
      KnownEdgeMeaning(dependencies, ids, e);
    }
    forall p ensures !(IsPath(edges, p) && |p| > 1) {
      if |p| > 1 { assert (p[0], p[1]) !in edges; }
    }
  }

  method BuildGraph(dependencies: seq<Dependency>, ids: set<string>)
      returns (adj: map<string, seq<string>>, inDegree: map<string, int>)
    ensures Kahn.Built(ids, KnownEdges(dependencies, ids), adj, inDegree)
  {
    adj, inDegree := map[], map id | id in ids :: 0;
    Kahn.NothingBuilt(ids, inDegree);
    assert dependencies[..0] == [] && dependencies[..|dependencies|] == dependencies;
    for i := 0 to |dependencies|
      invariant Kahn.Built(ids, KnownEdges(dependencies[..i], ids), adj, inDegree)
    {
      hide Kahn.Built, KnownEdges;
      KnownEdgesStep(dependencies, ids, i);
      var d := dependencies[i];
      if IsKnown(d, ids) {
        adj, inDegree := Kahn.AddEdge(ids, KnownEdges(dependencies[..i], ids), adj, inDegree, d.1, d.0);
      }
    }
  }

  /** `[aid for aid in action_ids if in_degree.get(aid, 0) > 0]` */
  method Positive(ids: set<string>, inDegree: map<string, int>) returns (order: seq<string>)
    requires inDegree.Keys == ids
    ensures Distinct(order)
    ensures forall id :: id in order <==> id in ids && inDegree[id] > 0
  {
    order := [];
    var left := ids;
    while left != {}
      invariant left <= ids && Distinct(order)
      invariant forall id :: id in order <==> id in ids && id !in left && inDegree[id] > 0
      decreases |left|
    {
      var id := Pick(left);
      if inDegree[id] > 0 { order := order + [id]; }
      left := left - {id};
    }
  }

  // ---------- _stage_assign_dependencies ----------

  /** `action_ids_by_step.get(...)`: the last action with that step order, unless its id is empty. */
  function IdAtStep(actions: seq<Action>, stepOrder: int): Option<string> {
    if actions == [] then None
    else if actions[|actions| - 1].stepOrder == stepOrder then
      (if actions[|actions| - 1].id == "" then None else Some(actions[|actions| - 1].id))
    else IdAtStep(actions[..|actions| - 1], stepOrder)
  }

  /** The dependencies that one table row declares; steps of the table count from one. */
  function RowDependencies(actions: seq<Action>, id: string, steps: seq<int>): seq<Dependency> {
    if steps == [] then []
    else
      var on := IdAtStep(actions, steps[|steps| - 1] - 1);
      RowDependencies(actions, id, steps[..|steps| - 1]) + if on.None? then [] else [(id, on.value)]
  }

  function TableDependencies(actions: seq<Action>, rows: seq<Row>): seq<Dependency> {
    if rows == [] then []
    else
      var last := rows[|rows| - 1];
      var id := IdAtStep(actions, last.step - 1);
      TableDependencies(actions, rows[..|rows| - 1]) +
          if id.None? then [] else RowDependencies(actions, id.value, last.dependencies)
  }

  lemma {:induction false} RowMeaning(actions: seq<Action>, id: string, steps: seq<int>, d: Dependency)
    ensures d in RowDependencies(actions, id, steps) <==>
            d.0 == id && exists s <- steps :: IdAtStep(actions, s - 1) == Some(d.1)
  {
    hide IdAtStep;
    if steps != [] {
      var front, last := steps[..|steps| - 1], steps[|steps| - 1];
      RowMeaning(actions, id, front, d);
      assert steps == front + [last];
      assert forall s :: s in steps <==> s in front || s == last;
      if IdAtStep(actions, last - 1) == Some(d.1) { assert last in steps; }
    }
  }

  /** The row names the action `d.0`, and one of its dependencies names the action `d.1`. */
  ghost predicate Records(actions: seq<Action>, row: Row, d: Dependency) {
    IdAtStep(actions, row.step - 1) == Some(d.0)
    && exists s <- row.dependencies :: IdAtStep(actions, s - 1) == Some(d.1)
  }

  /** A dependency is recorded exactly when some row declares it between steps that have actions. */
  lemma {:induction false} TableMeaning(actions: seq<Action>, rows: seq<Row>, d: Dependency)
    ensures d in TableDependencies(actions, rows) <==> exists row <- rows :: Records(actions, row, d)
  {
    hide IdAtStep;
    if rows != [] {
      var front, last := rows[..|rows| - 1], rows[|rows| - 1];
      TableMeaning(actions, front, d);
      var id := IdAtStep(actions, last.step - 1);
      if id.Some? { RowMeaning(actions, id.value, last.dependencies, d); }
      assert Records(actions, last, d) <==> id.Some? && d in RowDependencies(actions, id.value, last.dependencies);
      assert rows == front + [last];
      hide Records, RowDependencies;
      assert forall row :: row in rows <==> row in front || row == last;
      assert d in TableDependencies(actions, rows) <==>
          d in TableDependencies(actions, front) || Records(actions, last, d);
      if Records(actions, last, d) { assert last in rows; }
    }
  }

  /** The fallback: every action depends on the one before it. */
  function ChainDependencies(actions: seq<Action>): (deps: seq<Dependency>)
    ensures actions != [] ==> |deps| == |actions| - 1
  {
    if |actions| < 2 then []
    else seq(|actions| - 1, i requires 0 <= i < |actions| - 1 => (actions[i + 1].id, actions[i].id))
  }

  /** Without a table exactly the pairs of neighbours are recorded, in order, the later depending on the earlier. */
  lemma ChainMeaning(actions: seq<Action>, d: Dependency)
    ensures d in ChainDependencies(actions) <==>
              exists i :: 0 < i < |actions| && d == (actions[i].id, actions[i - 1].id)
    ensures forall i :: 0 < i < |actions| ==> ChainDependencies(actions)[i - 1] == (actions[i].id, actions[i - 1].id)
  {
    var deps := ChainDependencies(actions);
    forall i | 0 < i < |actions| ensures deps[i - 1] == (actions[i].id, actions[i - 1].id) {}
    if d in deps {
      var i :| 0 <= i < |deps| && deps[i] == d;
      assert d == (actions[i + 1].id, actions[(i + 1) - 1].id);
    }
    if i :| 0 < i < |actions| && d == (actions[i].id, actions[i - 1].id) {
      assert deps[i - 1] == d;
    }
  }

  predicate TableDeclaresAny(rows: seq<Row>) {
    exists i :: 0 <= i < |rows| && rows[i].dependencies != []
  }

  /** `_stage_assign_dependencies`: the count of recorded dependencies, or InvalidDependencies. */
  method AssignDependencies(actions: seq<Action>, rows: seq<Row>) returns (r: Outcome<nat>, recorded: seq<Dependency>)
    ensures actions == [] ==> recorded == [] && r == Ok(0)
    ensures actions != [] && TableDeclaresAny(rows) ==> recorded == TableDependencies(actions, rows)
    ensures actions != [] && !TableDeclaresAny(rows) ==> recorded == ChainDependencies(actions)
    ensures actions != [] ==> r == if Acyclic(KnownEdges(recorded, Ids(actions))) then Ok(|recorded|) else Raised
  {
    recorded := [];
    if actions == [] { return Ok(0), recorded; }
    if TableDeclaresAny(rows) {
      recorded := RecordTable(actions, rows);
    } else {
      recorded := RecordChain(actions);
    }
    var report := ValidateDependencies(actions, recorded);
    return if report.Some? then Raised else Ok(|recorded|), recorded;
  }

  method RecordTable(actions: seq<Action>, rows: seq<Row>) returns (recorded: seq<Dependency>)
    ensures recorded == TableDependencies(actions, rows)
  {
    hide IdAtStep;
    recorded := [];
    for i := 0 to |rows|
      invariant recorded == TableDependencies(actions, rows[..i])
    {
      assert rows[..i + 1][..i] == rows[..i];
      var id := IdAtStep(actions, rows[i].step - 1);
      if id.Some? {
        var row := RecordRow(actions, id.value, rows[i].dependencies);
        recorded := recorded + row;
      }
    }
    assert rows[..|rows|] == rows;
  }

  method RecordRow(actions: seq<Action>, id: string, steps: seq<int>) returns (recorded: seq<Dependency>)
    ensures recorded == RowDependencies(actions, id, steps)
  {
    hide IdAtStep;
    recorded := [];
    for j := 0 to |steps|
      invariant recorded == RowDependencies(actions, id, steps[..j])
    {
      assert steps[..j + 1][..j] == steps[..j];
      var on := IdAtStep(actions, steps[j] - 1);
      if on.Some? {
        recorded := recorded + [(id, on.value)];
      }
    }
    assert steps[..|steps|] == steps;
  }

  method RecordChain(actions: seq<Action>) returns (recorded: seq<Dependency>)
    requires actions != []
    ensures recorded == ChainDependencies(actions)
  {
    recorded := [];
    for i := 1 to |actions|
      invariant |recorded| == i - 1
      invariant forall k :: 0 <= k < i - 1 ==> recorded[k] == (actions[k + 1].id, actions[k].id)
    {
      recorded := recorded + [(actions[i].id, actions[i - 1].id)];
    }
  }

  lemma AtOneIndex<N>(order: seq<N>, i: nat, j: nat)
    requires Distinct(order) && i < |order| && j < |order| && order[i] == order[j]
    ensures i == j
  {}

  /** The action order itself is a topological order of the fallback chain. */
  lemma ChainIsTopological(actions: seq<Action>, order: seq<string>)
    requires Distinct(order) && order == seq(|actions|, i requires 0 <= i < |actions| => actions[i].id)
    ensures IsTopological(KnownEdges(ChainDependencies(actions), Ids(actions)), order)
  {
    var deps, ids := ChainDependencies(actions), Ids(actions);
    var edges := KnownEdges(deps, ids);
    forall e, j | e in edges && 0 <= j < |order| && e.1 == order[j] ensures e.0 in order[..j] {
      KnownEdgeMeaning(deps, ids, e);
      var k :| 0 <= k < |deps| && deps[k] == (e.1, e.0);
      AtOneIndex(order, k + 1, j);
      assert order[k] == e.0 && order[..j][k] == order[k];
    }
  }

  /** The fallback chain over distinct actions is never rejected. */
  lemma ChainIsAcyclic(actions: seq<Action>)
    requires DistinctActions(actions)
    ensures Acyclic(KnownEdges(ChainDependencies(actions), Ids(actions)))
  {
    var deps, ids := ChainDependencies(actions), Ids(actions);
    var edges := KnownEdges(deps, ids);
    var order := seq(|actions|, i requires 0 <= i < |actions| => actions[i].id);
    ChainIsTopological(actions, order);
    forall v | v in ids ensures !BehindCycle(edges, v) {
      var i :| 0 <= i < |actions| && actions[i].id == v;
      assert order[i] == v;
      TopologicalIsBehindNoCycle(edges, order, v);
    }
    forall e | e in edges ensures e.0 in ids && e.1 in ids {
      KnownEdgeMeaning(deps, ids, e);
    }
    Kahn.CycleShowsInNodes(ids, edges);
  }

  /** The rows that a canonical action table holds. */
  function RowsOf(table: seq<ActionTable.ActionEntry>): (rows: seq<Row>)
    ensures |rows| == |table|
    ensures forall i :: 0 <= i < |table| ==> rows[i] == Row(table[i].step, table[i].dependencies)
  {
    seq(|table|, i requires 0 <= i < |table| => Row(table[i].step, table[i].dependencies))
  }

  /** The place of an action in the list order of steps; distinct ids make it unique. */
  function StepOrderOf(actions: seq<Action>, id: string): int {
    if actions == [] then 0
    else if actions[|actions| - 1].id == id then actions[|actions| - 1].stepOrder
    else StepOrderOf(actions[..|actions| - 1], id)
  }

  ghost predicate DistinctActions(actions: seq<Action>) {
    forall i, j :: 0 <= i < j < |actions| ==> actions[i].id != actions[j].id
  }

  lemma {:induction false} IdAtItsStep(actions: seq<Action>, stepOrder: int)
    requires DistinctActions(actions) && IdAtStep(actions, stepOrder).Some?
    ensures exists k :: 0 <= k < |actions| && actions[k].id == IdAtStep(actions, stepOrder).value
              && actions[k].stepOrder == stepOrder
    ensures StepOrderOf(actions, IdAtStep(actions, stepOrder).value) == stepOrder
  {
    var n := |actions| - 1;
    if actions[n].stepOrder != stepOrder {
      IdAtItsStep(actions[..n], stepOrder);
      var k :| 0 <= k < n && actions[..n][k].id == IdAtStep(actions[..n], stepOrder).value
          && actions[..n][k].stepOrder == stepOrder;
      assert actions[k].id != actions[n].id;
    }
  }

  /** Over actions with distinct ids, the dependencies of a table whose rows look back are never rejected. */
  lemma BackwardRowsAreAcyclic(actions: seq<Action>, rows: seq<Row>)
    requires DistinctActions(actions)
    requires forall row <- rows :: forall s <- row.dependencies :: s < row.step
    ensures Acyclic(KnownEdges(TableDependencies(actions, rows), Ids(actions)))
  {
    var deps := TableDependencies(actions, rows);
    var edges := KnownEdges(deps, Ids(actions));
    var rank := (id: string) => StepOrderOf(actions, id);
    hide IdAtStep, StepOrderOf, TableDependencies, DistinctActions, Acyclic;
    forall e | e in edges ensures rank(e.0) < rank(e.1) {
      KnownEdgeMeaning(deps, Ids(actions), e);
      TableMeaning(actions, rows, (e.1, e.0));
      var row :| row in rows && Records(actions, row, (e.1, e.0));
      var s :| s in row.dependencies && IdAtStep(actions, s - 1) == Some(e.0);
      IdAtItsStep(actions, row.step - 1);
      IdAtItsStep(actions, s - 1);
    }
    RankedIsAcyclic(edges, rank);
  }

  /** In particular this stage accepts every table that the action table's own validation accepts. */
  lemma {:induction false} WellFormedTableIsAccepted(actions: seq<Action>, table: seq<ActionTable.ActionEntry>)
    requires DistinctActions(actions) && ActionTable.IsWellFormed(table)
    ensures Acyclic(KnownEdges(TableDependencies(actions, RowsOf(table)), Ids(actions)))
  {
    var rows := RowsOf(table);
    forall row, s | row in rows && s in row.dependencies ensures s < row.step {
      var i :| 0 <= i < |rows| && rows[i] == row;
      assert ActionTable.IsWellFormedEntry(table[i], i + 1);
    }
    BackwardRowsAreAcyclic(actions, rows);
  }
}
