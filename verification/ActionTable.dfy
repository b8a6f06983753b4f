/** The action table: its validation rules, the cycle report of `_detect_cycles`, and its lifecycle. */
module ActionTable {
  import opened Prelude
  import opened Digraph
  import Ordering
  import Kahn
  import Text

  datatype ActionEntry = ActionEntry(step: int, verb: string, object_: string, dependencies: seq<int>)

  datatype Violation =
    | NoActions
    | EmptyVerb(step: int)
    | EmptyObject(step: int)
    | NotSequential
    | MissingStep(step: int, dep: int)
    | NotEarlier(step: int, dep: int)
    | Cycle(steps: seq<int>)

  function Steps(actions: seq<ActionEntry>): set<int> {
    set a <- actions :: a.step
  }

  /** The edges of one action: from each known step it depends on. */
  ghost function EdgesOf(a: ActionEntry, deps: seq<int>, steps: set<int>): Edges<int> {
    if deps == [] then []
    else
      var last := deps[|deps| - 1];
      EdgesOf(a, deps[..|deps| - 1], steps) + if last in steps then [(last, a.step)] else []
  }

  /** The dependency graph restricted to known steps. */
  ghost function DependencyEdges(actions: seq<ActionEntry>, steps: set<int>): Edges<int> {
    if actions == [] then []
    else
      var last := actions[|actions| - 1];
      DependencyEdges(actions[..|actions| - 1], steps) + EdgesOf(last, last.dependencies, steps)
  }

  lemma {:induction false} EdgesOfMeaning(a: ActionEntry, deps: seq<int>, steps: set<int>, e: (int, int))
    ensures e in EdgesOf(a, deps, steps) <==> e.1 == a.step && e.0 in deps && e.0 in steps
  {
    if deps != [] {
      EdgesOfMeaning(a, deps[..|deps| - 1], steps, e);
      assert deps == deps[..|deps| - 1] + [deps[|deps| - 1]];
    }
  }

  ghost predicate Declares(a: ActionEntry, e: (int, int)) {
    e.1 == a.step && e.0 in a.dependencies
  }

  /** An edge is there exactly when some action declares it and its source is a known step. */
  lemma {:induction false} EdgeMeaning(actions: seq<ActionEntry>, steps: set<int>, e: (int, int))
    ensures e in DependencyEdges(actions, steps) <==> e.0 in steps && exists a <- actions :: Declares(a, e)
  {
    if actions != [] {
      var rest, last := actions[..|actions| - 1], actions[|actions| - 1];
      EdgeMeaning(rest, steps, e);
      EdgesOfMeaning(last, last.dependencies, steps, e);
      assert actions == rest + [last];
      assert last in actions;
    }
  }

  /** `sorted(...)` of a set. */
  ghost predicate IsSorted(order: seq<int>, s: set<int>) {
    && (forall v :: v in order <==> v in s)
    && forall i, j :: 0 <= i < j < |order| ==> order[i] < order[j]
  }

  method Sorted(s: set<int>) returns (order: seq<int>)
    ensures IsSorted(order, s)
  {
    order := Ordering.InOrder(map v | v in s :: v);
  }

  /**
   `_detect_cycles`: no report when the graph over the known steps is acyclic, and otherwise one that
   lists, in order, exactly the steps that lie on a cycle or behind one.
   */
  method DetectCycles(actions: seq<ActionEntry>) returns (errors: seq<Violation>)
    ensures IsCycleReport(actions, errors)
  {
    if actions == [] {
      NoEdgesAcyclic(Steps(actions));
      return [];
    }
    var steps := Steps(actions);
    var inDegree, taken;
    ghost var edges := DependencyEdges(actions, steps);
    var adj, inDegree0 := BuildGraph(actions, steps);
    inDegree, taken := Kahn.Drain(steps, edges, adj, inDegree0);
    Kahn.CycleShowsInNodes(steps, edges);
    hide Kahn.Built, BehindCycle, Acyclic;
    var cycleSet := set s | s in steps && inDegree[s] > 0;
    assert cycleSet == set s | s in steps && BehindCycle(edges, s);
    if taken < |steps| {
      var cycleSteps := Sorted(cycleSet);
      return [Cycle(cycleSteps)];
    }
    return [];
  }

  /** The loops that fill the adjacency lists and the in-degrees. */
  method BuildGraph(actions: seq<ActionEntry>, steps: set<int>)
      returns (adj: map<int, seq<int>>, inDegree: map<int, int>)
    requires steps == Steps(actions)
    ensures Kahn.Built(steps, DependencyEdges(actions, steps), adj, inDegree)
  {
    adj, inDegree := map[], map s | s in steps :: 0;
    Kahn.NothingBuilt(steps, inDegree);
    assert actions[..0] == [];
    for i := 0 to |actions|
      invariant Kahn.Built(steps, DependencyEdges(actions[..i], steps), adj, inDegree)
    {
      hide Kahn.Built;
      assert actions[..i + 1][..i] == actions[..i];
      assert actions[i] in actions;
      adj, inDegree := AddDependencies(steps, actions[i], DependencyEdges(actions[..i], steps), adj, inDegree);
    }
    assert actions[..|actions|] == actions;
  }

  lemma EdgesOfStep(edges: Edges<int>, a: ActionEntry, deps: seq<int>, j: nat, steps: set<int>)
    requires j < |deps|
    ensures var before := edges + EdgesOf(a, deps[..j], steps);
            edges + EdgesOf(a, deps[..j + 1], steps) ==
                if deps[j] in steps then before + [(deps[j], a.step)] else before
  {
    assert deps[..j + 1][..j] == deps[..j];
    var before, e := EdgesOf(a, deps[..j], steps), (deps[j], a.step);
    assert edges + (before + [e]) == (edges + before) + [e];
  }

  /** The inner loop over one action's dependencies. */
  method AddDependencies(steps: set<int>, a: ActionEntry, ghost edges: Edges<int>, adj0: map<int, seq<int>>,
      inDegree0: map<int, int>)
    returns (adj: map<int, seq<int>>, inDegree: map<int, int>)
    requires a.step in steps && Kahn.Built(steps, edges, adj0, inDegree0)
    ensures Kahn.Built(steps, edges + EdgesOf(a, a.dependencies, steps), adj, inDegree)
  {
    var deps := a.dependencies;
    assert deps[..0] == [] && deps[..|deps|] == deps;
    assert edges + EdgesOf(a, [], steps) == edges;
    hide Kahn.Built, EdgesOf;
    adj, inDegree := adj0, inDegree0;
    for j := 0 to |deps|
      invariant Kahn.Built(steps, edges + EdgesOf(a, deps[..j], steps), adj, inDegree)
    {
      EdgesOfStep(edges, a, deps, j, steps);
      if deps[j] in steps {
        adj, inDegree := Kahn.AddEdge(steps, edges + EdgesOf(a, deps[..j], steps), adj, inDegree, deps[j], a.step);
      }
    }
  }

  ghost predicate IsCycleReport(actions: seq<ActionEntry>, errors: seq<Violation>) {
    var edges := DependencyEdges(actions, Steps(actions));
    if Acyclic(edges) then errors == []
    else exists order :: errors == [Cycle(order)]
           && IsSorted(order, set s | s in Steps(actions) && BehindCycle(edges, s))
  }

  lemma NoEdgesAcyclic(steps: set<int>)
    ensures Acyclic(DependencyEdges([], steps))
  {
    var none: Edges<int> := [];
    forall u ensures !OnCycle(none, u) {
      forall p ensures !(IsPath(none, p) && |p| > 1) {
        if |p| > 1 { assert (p[0], p[1]) !in none; }
      }
    }
  }

  // ---------- validate_action_table ----------

  const AMBIGUOUS_VERBS: set<string> := {
    "process", "handle", "manage", "do", "perform",
    "deal with", "take care of", "work on", "address",
    "update"
  }

  predicate IsBlank(s: string) {
    Text.Strip(s) == ""
  }

  function BlankErrors(a: ActionEntry): seq<Violation> {
    (if IsBlank(a.verb) then [EmptyVerb(a.step)] else []) + (if IsBlank(a.object_) then [EmptyObject(a.step)] else [])
  }

  function DependencyError(a: ActionEntry, dep: int, steps: set<int>): seq<Violation> {
    if dep !in steps then [MissingStep(a.step, dep)]
    else if dep >= a.step then [NotEarlier(a.step, dep)]
    else []
  }

  function Concat<T>(parts: seq<seq<T>>): seq<T> {
    if parts == [] then [] else Concat(parts[..|parts| - 1]) + parts[|parts| - 1]
  }

  function DependencyErrors(a: ActionEntry, steps: set<int>): seq<Violation> {
    Concat(seq(|a.dependencies|, i requires 0 <= i < |a.dependencies| => DependencyError(a, a.dependencies[i], steps)))
  }

  predicate IsSequential(actions: seq<ActionEntry>) {
    forall i :: 0 <= i < |actions| ==> actions[i].step == i + 1
  }

  /** All errors but those of the cycle search, in the order they are reported. */
  function RuleErrors(actions: seq<ActionEntry>): seq<Violation> {
    Concat(seq(|actions|, i requires 0 <= i < |actions| => BlankErrors(actions[i])))
    + (if IsSequential(actions) then [] else [NotSequential])
    + Concat(seq(|actions|, i requires 0 <= i < |actions| => DependencyErrors(actions[i], Steps(actions))))
  }

  /** What the specification asks of a table. */
  ghost predicate IsWellFormed(actions: seq<ActionEntry>) {
    && actions != []
    && forall i :: 0 <= i < |actions| ==> IsWellFormedEntry(actions[i], i + 1)
  }

  ghost predicate IsWellFormedEntry(a: ActionEntry, position: int) {
    !IsBlank(a.verb) && !IsBlank(a.object_) && a.step == position && forall d <- a.dependencies :: 1 <= d < position
  }

  lemma {:induction false} ConcatEmpty<T>(parts: seq<seq<T>>)
    ensures Concat(parts) == [] <==> forall i :: 0 <= i < |parts| ==> parts[i] == []
  {
    if parts != [] {
      ConcatEmpty(parts[..|parts| - 1]);
    }
  }

  lemma NoDependencyErrors(a: ActionEntry, steps: set<int>)
    ensures DependencyErrors(a, steps) == [] <==> forall d <- a.dependencies :: d in steps && d < a.step
  {
    var parts := seq(|a.dependencies|,
        i requires 0 <= i < |a.dependencies| => DependencyError(a, a.dependencies[i], steps));
    ConcatEmpty(parts);
    if forall i :: 0 <= i < |parts| ==> parts[i] == [] {
      forall d | d in a.dependencies ensures d in steps && d < a.step {
        var i :| 0 <= i < |a.dependencies| && a.dependencies[i] == d;
        assert parts[i] == [];
      }
    }
  }

  lemma SequentialSteps(actions: seq<ActionEntry>, v: int)
    requires IsSequential(actions)
    ensures v in Steps(actions) <==> 1 <= v <= |actions|
  {
    if 1 <= v <= |actions| {
      assert actions[v - 1] in actions;
    }
  }

  lemma EntryRules(actions: seq<ActionEntry>, i: nat)
    requires IsSequential(actions) && i < |actions|
    ensures BlankErrors(actions[i]) == [] && DependencyErrors(actions[i], Steps(actions)) == [] <==>
            IsWellFormedEntry(actions[i], i + 1)
  {
    NoDependencyErrors(actions[i], Steps(actions));
    forall d | d in actions[i].dependencies ensures d in Steps(actions) <==> 1 <= d <= |actions| {
      SequentialSteps(actions, d);
    }
  }

  /** The rules find nothing exactly on well-formed tables. */
  lemma RulesMeanWellFormed(actions: seq<ActionEntry>)
    requires actions != []
    ensures RuleErrors(actions) == [] <==> IsWellFormed(actions)
  {
    var blanks := seq(|actions|, i requires 0 <= i < |actions| => BlankErrors(actions[i]));
    var deps := seq(|actions|, i requires 0 <= i < |actions| => DependencyErrors(actions[i], Steps(actions)));
    ConcatEmpty(blanks);
    ConcatEmpty(deps);
    if IsSequential(actions) {
      forall i | 0 <= i < |actions| ensures blanks[i] == [] && deps[i] == [] <==> IsWellFormedEntry(actions[i], i + 1) {
        EntryRules(actions, i);
      }
      hide IsWellFormedEntry, BlankErrors, DependencyErrors;
    }
  }

  /** A cycle always comes with a dependency error, so the cycle search never rejects a table alone. */
  lemma CycleComesWithOtherErrors(actions: seq<ActionEntry>)
    ensures !Acyclic(DependencyEdges(actions, Steps(actions))) ==> RuleErrors(actions) != []
  {
    var steps := Steps(actions);
    var edges := DependencyEdges(actions, steps);
    if RuleErrors(actions) == [] {
      var deps := seq(|actions|, i requires 0 <= i < |actions| => DependencyErrors(actions[i], steps));
      ConcatEmpty(deps);
      forall e | e in edges ensures e.0 < e.1 {
        EdgeMeaning(actions, steps, e);
        var a :| a in actions && Declares(a, e);
        var i :| 0 <= i < |actions| && actions[i] == a;
        assert deps[i] == [];
        NoDependencyErrors(a, steps);
      }
      RankedIsAcyclic(edges, (v: int) => v);
    }
  }

  datatype ValidationResult = ValidationResult(valid: bool, errors: seq<Violation>, warnings: seq<int>)

  /** `validate_action_table`: valid exactly on well-formed tables. */
  method ValidateActionTable(actions: seq<ActionEntry>) returns (r: ValidationResult)
    ensures r.valid <==> IsWellFormed(actions)
    ensures r.valid <==> r.errors == []
    ensures actions != [] ==>
              RuleErrors(actions) <= r.errors && IsCycleReport(actions, r.errors[|RuleErrors(actions)|..])
  {
    if actions == [] {
      return ValidationResult(false, [NoActions], []);
    }
    var steps := Steps(actions);
    var rules := RuleErrors(actions);
    var cycles := DetectCycles(actions);
    var warnings: seq<int> := [];
    for i := 0 to |actions| {
      if Text.Strip(Text.Lower(actions[i].verb)) in AMBIGUOUS_VERBS {
        warnings := warnings + [actions[i].step];
      }
    }
    RulesMeanWellFormed(actions);
    CycleComesWithOtherErrors(actions);
    var errors := rules + cycles;
    assert errors[|rules|..] == cycles;
    return ValidationResult(|errors| == 0, errors, warnings);
  }

  // ---------- lifecycle ----------

  datatype Stage = Draft | Validated | Accepted | Compiled

  class Table {
    const actions: seq<ActionEntry>
    var stage: Stage
    var validatedAt: Option<int>
    var acceptedAt: Option<int>
    var compiledAt: Option<int>

    /** A table past the draft stage is well formed and carries the time of every step it took. */
    ghost predicate Valid()
      reads this
    {
      && (stage != Draft <==> validatedAt.Some?)
      && (stage == Accepted || stage == Compiled <==> acceptedAt.Some?)
      && (stage == Compiled <==> compiledAt.Some?)
      && (stage != Draft ==> IsWellFormed(actions))
    }

    constructor (actions: seq<ActionEntry>)
      ensures Valid() && this.actions == actions && stage == Draft
    {
      this.actions := actions;
      stage := Draft;
      validatedAt, acceptedAt, compiledAt := None, None, None;
    }

    /** `mark_validated` */
    method MarkValidated(now: int) returns (ok: bool)
      requires Valid()
      modifies this
      ensures Valid()
      ensures ok <==> old(stage) == Draft && IsWellFormed(actions)
      ensures if ok then stage == Validated && validatedAt == Some(now) else unchanged(this)
    {
      if stage != Draft { return false; }
      var r := ValidateActionTable(actions);
      if !r.valid { return false; }
      stage, validatedAt := Validated, Some(now);
      return true;
    }

    /** `mark_accepted` */
    method MarkAccepted(now: int) returns (ok: bool)
      requires Valid()
      modifies this
      ensures Valid()
      ensures ok <==> old(stage) == Validated
      ensures if ok then stage == Accepted && acceptedAt == Some(now) && validatedAt == old(validatedAt)
              else unchanged(this)
    {
      if stage != Validated { return false; }
      stage, acceptedAt := Accepted, Some(now);
      return true;
    }

    /** `mark_compiled` */
    method MarkCompiled(now: int) returns (ok: bool)
      requires Valid()
      modifies this
      ensures Valid()
      ensures ok <==> old(stage) == Accepted
      ensures if ok then stage == Compiled && compiledAt == Some(now) && acceptedAt == old(acceptedAt)
              && validatedAt == old(validatedAt)
              else unchanged(this)
    {
      if stage != Accepted { return false; }
      stage, compiledAt := Compiled, Some(now);
      return true;
    }
  }
}
