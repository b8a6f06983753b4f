/**
 The path-prefix tests of the runtime.  The validator and the execution gate use `Covers`, the
 ToolGate uses `WithinScope`; `ScopeTestsCompared` says exactly where they differ.
 */
module ScopePath {
  import opened Text

  /** `path == a or path.startswith(a.rstrip("/") + "/")` */
  predicate Covers(allowed: string, path: string) {
    path == allowed || StartsWith(path, TrimSlashes(allowed) + "/")
  }

  predicate CoveredByAny(allowed: seq<string>, path: string) {
    exists i :: 0 <= i < |allowed| && Covers(allowed[i], path)
  }

  /** The ToolGate's test, which trims the target as well. */
  predicate WithinScope(allowed: string, path: string) {
    TrimSlashes(path) == TrimSlashes(allowed) || StartsWith(TrimSlashes(path), TrimSlashes(allowed) + "/")
  }

  predicate WithinAnyScope(allowed: seq<string>, path: string) {
    exists i :: 0 <= i < |allowed| && WithinScope(allowed[i], path)
  }

  lemma {:induction false} TrimOnlySlashes(s: string, n: nat)
    requires n <= |s| && forall i :: n <= i < |s| ==> s[i] == '/'
    ensures TrimSlashes(s) == TrimSlashes(s[..n])
    decreases |s|
  {
    if n < |s| {
      assert s[..|s| - 1][..n] == s[..n];
      TrimOnlySlashes(s[..|s| - 1], n);
    } else {
      assert s[..n] == s;
    }
  }

  lemma TrimIdempotent(s: string)
    ensures TrimSlashes(TrimSlashes(s)) == TrimSlashes(s)
  {
  }

  /** The ToolGate admits what the validator admits, and besides only paths equal up to final slashes. */
  lemma ScopeTestsCompared(allowed: string, path: string)
    ensures WithinScope(allowed, path) <==> Covers(allowed, path) || TrimSlashes(path) == TrimSlashes(allowed)
  {
    var a, t := TrimSlashes(allowed), TrimSlashes(path);
    if StartsWith(path, a + "/") {
      if |t| <= |a| {
        assert forall i :: |a| <= i < |path| ==> path[i] == '/';
        TrimOnlySlashes(path, |a|);
        assert path[..|a|] == a;
        TrimIdempotent(allowed);
      } else {
        assert t == path[..|t|];
        assert (a + "/") == path[..|a| + 1] == t[..|a| + 1];
      }
    }
    if StartsWith(t, a + "/") {
      assert path[..|a| + 1] == t[..|a| + 1];
    }
  }

  /**
   A scope covers itself and whatever lies below it; a path that goes on with anything but a slash, as
   `docs2` does after `docs`, is outside.
   */
  lemma ScopeMeaning(scope: string, next: char, rest: string)
    requires TrimSlashes(scope) == scope
    ensures next == '/' ==> Covers(scope, scope + [next] + rest) && WithinScope(scope, scope + [next] + rest)
    ensures next != '/' ==> !Covers(scope, scope + [next] + rest) && !WithinScope(scope, scope + [next] + rest)
    ensures Covers(scope, scope) && WithinScope(scope, scope)
  {
    var path := scope + [next] + rest;
    assert path[|scope|] == next;
    ScopeTestsCompared(scope, path);
    if next == '/' {
      assert path == scope + "/" + rest;
    } else {
      assert |TrimSlashes(path)| > |scope|;
    }
  }

  /** What the validator lets through the ToolGate lets through. */
  lemma ValidatorImpliesToolGate(allowed: seq<string>, path: string)
    requires CoveredByAny(allowed, path)
    ensures WithinAnyScope(allowed, path)
  {
    var i :| 0 <= i < |allowed| && Covers(allowed[i], path);
    ScopeTestsCompared(allowed[i], path);
  }

  // ---------- canonical relative paths ----------

  /** A relative path without empty, `.` or `..` segments; the workspace tree is keyed by these. */
  predicate Canonical(path: string) {
    forall segment <- Split(path, '/') :: segment != "" && segment != "." && segment != ".."
  }

  lemma CanonicalIsNotEmpty(path: string)
    requires Canonical(path)
    ensures path != ""
  {
    assert Split("", '/') == [""];
    assert "" in Split("", '/');
  }
}
