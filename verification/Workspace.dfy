/**
 The workspace as the executor changes it: files by canonical relative path, and the directories
 that hold them.  An effect is `None` when the operation fails; it then changes nothing.
 */
module Workspace {
  import opened Prelude
  import opened Artifacts

  datatype Tree = Tree(files: map<string, string>, dirs: set<string>)

  /** The directories on the way to `path`. */
  function Parents(path: string): set<string> {
    set i: nat | 0 < i < |path| && path[i] == '/' :: path[..i]
  }

  /** Nothing is both file and directory, and every entry's parents are directories. */
  ghost predicate WellFormed(t: Tree) {
    && t.files.Keys !! t.dirs
    && (forall p <- t.files :: Parents(p) <= t.dirs)
    && (forall p <- t.dirs :: Parents(p) <= t.dirs)
  }

  /** `mkdir(parents=True, exist_ok=True)` of the parent directory succeeds. */
  predicate ParentsUsable(t: Tree, path: string) {
    forall d <- Parents(path) :: d !in t.files
  }

  function Put(t: Tree, path: string, content: string): Tree {
    Tree(t.files[path := content], t.dirs + Parents(path))
  }

  /** What one operation does to the tree, or `None` where the source records a failed action. */
  function Effect(t: Tree, operation: string, path: string, content: string): Option<Tree> {
    if operation == "create" then
      if ParentsUsable(t, path) && path !in t.dirs then Some(Put(t, path, content)) else None
    else if operation == "modify" then
      if path in t.files then Some(Put(t, path, content)) else None
    else if operation == "delete" then
      if path in t.dirs then None else Some(t.(files := t.files - {path}))
    else if operation == "append" then
      if ParentsUsable(t, path) && path !in t.dirs
      then Some(Put(t, path, (if path in t.files then t.files[path] else "") + content))
      else None
    else None
  }

  function StepEffect(t: Tree, s: Step): Option<Tree> {
    Effect(t, s.operation, s.path, s.content)
  }

  lemma ParentsNest(path: string, d: string)
    requires d in Parents(path)
    ensures Parents(d) <= Parents(path) && |d| < |path|
  {
    var i: nat :| 0 < i < |path| && path[i] == '/' && path[..i] == d;
    forall e | e in Parents(d) ensures e in Parents(path) {
      var j: nat :| 0 < j < |d| && d[j] == '/' && d[..j] == e;
      assert path[j] == '/' && path[..j] == e;
    }
  }

  lemma EffectKeepsWellFormed(t: Tree, operation: string, path: string, content: string)
    requires WellFormed(t)
    ensures var r := Effect(t, operation, path, content); r.Some? ==> WellFormed(r.value)
  {
    forall d | d in Parents(path) ensures Parents(d) <= Parents(path) && d != path {
      ParentsNest(path, d);
    }
  }

  // ---------- folding steps ----------

  /** The tree after the steps, all of which succeed. */
  ghost predicate AllSucceed(t: Tree, steps: seq<Step>) {
    steps == [] || (AllSucceed(t, steps[..|steps| - 1])
        && StepEffect(Fold(t, steps[..|steps| - 1]), steps[|steps| - 1]).Some?)
  }

  /** The effects of the steps, in order; a step that fails has none. */
  ghost function Fold(t: Tree, steps: seq<Step>): Tree {
    if steps == [] then t
    else
      var before := Fold(t, steps[..|steps| - 1]);
      var after := StepEffect(before, steps[|steps| - 1]);
      if after.Some? then after.value else before
  }

  /** One file's content after the steps, looking only at the steps on that file. */
  ghost function ContentAfter(path: string, initial: Option<string>, steps: seq<Step>): Option<string> {
    if steps == [] then initial
    else
      var before := ContentAfter(path, initial, steps[..|steps| - 1]);
      var s := steps[|steps| - 1];
      if s.path != path then before
      else if s.operation == "delete" then None
      else if s.operation == "append" then Some((if before.Some? then before.value else "") + s.content)
      else Some(s.content)
  }

  function Lookup(t: Tree, path: string): Option<string> {
    if path in t.files then Some(t.files[path]) else None
  }

  /** The folded tree holds in every file exactly what that file's own steps leave there. */
  lemma {:induction false} FoldPerFile(t: Tree, steps: seq<Step>, path: string)
    requires AllSucceed(t, steps)
    ensures Lookup(Fold(t, steps), path) == ContentAfter(path, Lookup(t, path), steps)
  {
    if steps != [] {
      FoldPerFile(t, steps[..|steps| - 1], path);
    }
  }

  /** A file that no step names keeps its content. */
  lemma {:induction false} UnnamedFileUnchanged(t: Tree, steps: seq<Step>, path: string)
    requires forall s <- steps :: s.path != path
    ensures Lookup(Fold(t, steps), path) == Lookup(t, path)
  {
    if steps != [] {
      UnnamedFileUnchanged(t, steps[..|steps| - 1], path);
    }
  }

  lemma {:induction false} FoldKeepsWellFormed(t: Tree, steps: seq<Step>)
    requires WellFormed(t)
    ensures WellFormed(Fold(t, steps))
  {
    if steps != [] {
      FoldKeepsWellFormed(t, steps[..|steps| - 1]);
      var s := steps[|steps| - 1];
      EffectKeepsWellFormed(Fold(t, steps[..|steps| - 1]), s.operation, s.path, s.content);
    }
  }
}
