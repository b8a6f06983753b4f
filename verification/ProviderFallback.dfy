/** The inference client: choosing a provider, retrying it, falling back to the others in registry order. */
module ProviderFallback {
  import opened Prelude
  import opened ProviderPolicy
  import opened Retry

  // ---------- choosing a provider ----------

  function Sum(xs: seq<int>): int {
    if xs == [] then 0 else Sum(xs[..|xs| - 1]) + xs[|xs| - 1]
  }

  /** Integer part of `a / b`, towards zero. */
  function Truncated(a: int, b: int): int
    requires b > 0
  {
    if a >= 0 then a / b else -(-a / b)
  }

  function Max(a: int, b: int): int {
    if a >= b then a else b
  }

  /** The latency part of a score: a penalty when the average breaks a non-zero limit, else a bonus for speed. */
  function LatencyScore(history: seq<int>, limit: Option<int>): int {
    if history == [] then 0
    else if limit.Some? && limit.value != 0 && Sum(history) > limit.value * |history| then -30
    else Max(0, 20 - Truncated(Sum(history), 100 * |history|))
  }

  function Score(cat: Catalog, history: map<string, seq<int>>, req: Request, pid: string): int {
    50
    + (if req.constraints.preferred == Some(pid) then 20 else 0)
    + (10 - if pid in cat.priority then cat.priority[pid] else 5)
    + LatencyScore(if pid in history then history[pid] else [], req.constraints.maxLatency)
  }

  /** A provider the client has, and the policy allows. */
  predicate Eligible(cat: Catalog, providers: set<string>, req: Request, pid: string) {
    pid in providers && Allowed(cat, req, pid)
  }

  datatype Selection = Selected(pid: string) | Unavailable | AllDenied

  /** The provider at position `k` of the registry's list: the highest score, the earliest among equals. */
  ghost predicate IsBestAt(cat: Catalog, providers: set<string>, history: map<string, seq<int>>, req: Request, k: nat) {
    var capable := Capable(cat, req.capability);
    && k < |capable| && Eligible(cat, providers, req, capable[k])
    && forall j :: 0 <= j < |capable| && Eligible(cat, providers, req, capable[j]) ==>
         if j < k then Score(cat, history, req, capable[j]) < Score(cat, history, req, capable[k])
         else Score(cat, history, req, capable[j]) <= Score(cat, history, req, capable[k])
  }

  // ---------- what a score rewards ----------

  function Priority(cat: Catalog, pid: string): int {
    if pid in cat.priority then cat.priority[pid] else 5
  }

  function Latencies(history: map<string, seq<int>>, pid: string): seq<int> {
    if pid in history then history[pid] else []
  }

  /** The average latency is above the request's limit; a limit of zero is none. */
  predicate BreaksLimit(history: seq<int>, limit: Option<int>) {
    history != [] && limit.Some? && limit.value != 0 && Sum(history) > limit.value * |history|
  }

  /** The preferred provider, when eligible, loses only to one whose priority number is at least 20 lower. */
  lemma PreferenceCounts(cat: Catalog, providers: set<string>, history: map<string, seq<int>>, req: Request, k: nat,
      j: nat)
    requires IsBestAt(cat, providers, history, req, k)
    requires j < |Capable(cat, req.capability)| && Eligible(cat, providers, req, Capable(cat, req.capability)[j])
    ensures var best, other := Capable(cat, req.capability)[k], Capable(cat, req.capability)[j];
            req.constraints.preferred == Some(other) && Latencies(history, best) == Latencies(history, other) ==>
              best == other || Priority(cat, best) + 20 <= Priority(cat, other)
  {
    hide LatencyScore, Eligible;
    var best, other := Capable(cat, req.capability)[k], Capable(cat, req.capability)[j];
    assert Score(cat, history, req, other) <= Score(cat, history, req, best);
  }

  /** One that breaks the limit beats one that keeps it only by preference or a priority number 30 lower or more. */
  lemma BreakingCosts(cat: Catalog, providers: set<string>, history: map<string, seq<int>>, req: Request, k: nat,
      j: nat)
    requires IsBestAt(cat, providers, history, req, k)
    requires j < |Capable(cat, req.capability)| && Eligible(cat, providers, req, Capable(cat, req.capability)[j])
    ensures var best, other := Capable(cat, req.capability)[k], Capable(cat, req.capability)[j];
            var limit := req.constraints.maxLatency;
            BreaksLimit(Latencies(history, best), limit) && !BreaksLimit(Latencies(history, other), limit) ==>
              req.constraints.preferred == Some(best) || Priority(cat, best) + 30 <= Priority(cat, other)
  {
    hide Sum, Truncated, Eligible;
    var best, other := Capable(cat, req.capability)[k], Capable(cat, req.capability)[j];
    assert Score(cat, history, req, other) <= Score(cat, history, req, best);
  }

  /** Of two equally ranked providers within the limit the winner is never slower by 100 milliseconds or more. */
  lemma SpeedCounts(cat: Catalog, providers: set<string>, history: map<string, seq<int>>, req: Request, k: nat, j: nat)
    requires IsBestAt(cat, providers, history, req, k)
    requires j < |Capable(cat, req.capability)| && Eligible(cat, providers, req, Capable(cat, req.capability)[j])
    ensures var best, other := Capable(cat, req.capability)[k], Capable(cat, req.capability)[j];
            var h, g := Latencies(history, best), Latencies(history, other);
            && Priority(cat, best) == Priority(cat, other) && req.constraints.preferred == None
            && h != [] && g != [] && 0 <= Sum(g) < 2000 * |g| && Sum(h) >= 0
            && !BreaksLimit(h, req.constraints.maxLatency) && !BreaksLimit(g, req.constraints.maxLatency) ==>
              Sum(h) * |g| < (Sum(g) + 100 * |g|) * |h|
  {
    hide LatencyScore, BreaksLimit, Sum, Eligible;
    var best, other := Capable(cat, req.capability)[k], Capable(cat, req.capability)[j];
    var h, g, limit := Latencies(history, best), Latencies(history, other), req.constraints.maxLatency;
    assert Score(cat, history, req, other) <= Score(cat, history, req, best);
    if h != [] && g != [] && 0 <= Sum(g) < 2000 * |g| && Sum(h) >= 0 && !BreaksLimit(h, limit) && !BreaksLimit(g, limit)
       && LatencyScore(g, limit) <= LatencyScore(h, limit)
    {
      HigherScoreIsFaster(h, g, limit);
    }
  }

  lemma HigherScoreIsFaster(h: seq<int>, g: seq<int>, limit: Option<int>)
    requires h != [] && g != [] && 0 <= Sum(g) < 2000 * |g| && Sum(h) >= 0
    requires !BreaksLimit(h, limit) && !BreaksLimit(g, limit) && LatencyScore(g, limit) <= LatencyScore(h, limit)
    ensures Sum(h) * |g| < (Sum(g) + 100 * |g|) * |h|
  {
    hide Sum;
    SmallQuotient(Sum(g), 100 * |g|);
    assert Sum(h) / (100 * |h|) <= Sum(g) / (100 * |g|);
    hide LatencyScore, BreaksLimit;
    QuotientsCompare(Sum(h), |h|, Sum(g), |g|);
  }

  lemma SmallQuotient(b: nat, d: nat)
    requires d > 0 && b < 20 * d
    ensures b / d < 20
  {
    QuotientBounds(b, d);
    ProductsCompare(20, b / d, d);
  }

  lemma QuotientBounds(b: nat, d: nat)
    requires d > 0
    ensures b / d * d <= b < (b / d + 1) * d
  {
    assert b == b / d * d + b % d;
  }

  lemma QuotientsCompare(a: nat, n: nat, b: nat, m: nat)
    requires n > 0 && m > 0 && a / (100 * n) <= b / (100 * m)
    ensures a * m < (b + 100 * m) * n
  {
    var q, r := a / (100 * n), b / (100 * m);
    QuotientBounds(a, 100 * n);
    QuotientBounds(b, 100 * m);
    ProductsCompare(q, r, 100 * m * n);
    ScaledCompare(a, (q + 1) * (100 * n), m);
    ProductsCompare(r * (100 * m), b, n);
    assert a * m < (q + 1) * (100 * n) * m == q * (100 * m * n) + 100 * m * n;
    assert r * (100 * m * n) == r * (100 * m) * n <= b * n;
    assert (b + 100 * m) * n == b * n + 100 * m * n;
  }

  lemma {:induction false} ProductsCompare(x: nat, y: nat, d: nat)
    ensures x <= y ==> x * d <= y * d
    decreases d
  {
    if d > 0 {
      ProductsCompare(x, y, d - 1);
      assert x * d == x * (d - 1) + x && y * d == y * (d - 1) + y;
    }
  }

  lemma ScaledCompare(x: nat, y: nat, d: nat)
    requires x < y && d > 0
    ensures x * d < y * d
  {
    ProductsCompare(x + 1, y, d);
    assert (x + 1) * d == x * d + d;
  }

  // ---------- falling back ----------

  datatype Env = Env(cat: Catalog, providers: set<string>, req: Request, strategy: Strategy,
      replies: string -> Provider)

  datatype Result =
    | Served(output: string, pid: string, fallbackUsed: bool, latency: int)
    | Exhausted
    | NotRegistered(pid: string)
    | Denied(pid: string)

  datatype Ended = Ended(result: Result, tried: seq<string>, calls: nat)

  /** `_build_fallback_chain` */
  function Remaining(capable: seq<string>, tried: seq<string>): seq<string> {
    if capable == [] then []
    else
      var last := capable[|capable| - 1];
      Remaining(capable[..|capable| - 1], tried) + if last !in tried then [last] else []
  }

  /** The order in which providers are tried: the selected one, then the others as the registry lists them. */
  function Order(cat: Catalog, req: Request, selected: string): (o: seq<string>)
    ensures o != [] && o[0] == selected
  {
    [selected] + Remaining(Capable(cat, req.capability), [selected])
  }

  function Answers(e: Env, pid: string): bool {
    FirstSuccess(e.replies(pid), Attempts(e.strategy)).Some?
  }

  /** The loop from the provider at position `k`, which has been admitted. */
  function Fallback(e: Env, order: seq<string>, k: nat): Ended
    requires k < |order|
    decreases |order| - k
  {
    var pid := order[k];
    var p := e.replies(pid);
    var n := Calls(e.strategy, p);
    match FirstSuccess(p, Attempts(e.strategy))
    case Some(i) => Ended(Served(p(i).output, pid, k > 0, Latency(p, n)), order[..k + 1], n)
    case None =>
      if k + 1 == |order| then Ended(Exhausted, order[..k + 1], n)
      else if order[k + 1] !in e.providers then Ended(NotRegistered(order[k + 1]), order[..k + 1], n)
      else if !Allowed(e.cat, e.req, order[k + 1]) then Ended(Denied(order[k + 1]), order[..k + 1], n)
      else
        var rest := Fallback(e, order, k + 1);
        rest.(calls := rest.calls + n)
  }

  /** How the loop ends at position `m`: all before failed, all after the first were admitted. */
  ghost predicate EndsAt(e: Env, order: seq<string>, k: nat, m: nat, r: Ended) {
    && k <= m < |order|
    && r.tried == order[..m + 1]
    && (forall i :: k <= i < m ==> !Answers(e, order[i]))
    && (forall i :: k < i <= m ==> Eligible(e.cat, e.providers, e.req, order[i]))
    && r.calls <= (m + 1 - k) * Attempts(e.strategy)
    && match r.result
       case Served(output, pid, used, latency) =>
         Answers(e, order[m]) && pid == order[m] && used == (m > 0)
         && IsAnswer(e.replies(pid), Attempts(e.strategy), output, latency)
       case Exhausted => !Answers(e, order[m]) && m + 1 == |order|
       case NotRegistered(pid) => !Answers(e, order[m]) && m + 1 < |order| && pid == order[m + 1] && pid !in e.providers
       case Denied(pid) =>
         !Answers(e, order[m]) && m + 1 < |order| && pid == order[m + 1] && !Allowed(e.cat, e.req, pid)
  }

  /** The output of the first successful reply, and the time of all replies up to it. */
  ghost predicate IsAnswer(p: Provider, attempts: nat, output: string, latency: int) {
    exists i: nat :: IsFirstAnswer(p, attempts, i) && p(i).output == output && latency == Latency(p, i + 1)
  }

  ghost predicate IsFirstAnswer(p: Provider, attempts: nat, i: nat) {
    i < attempts && Succeeds(p(i)) && forall j: nat :: j < i ==> !Succeeds(p(j))
  }

  lemma {:induction false} FallbackMeaning(e: Env, order: seq<string>, k: nat) returns (m: nat)
    requires k < |order|
    ensures EndsAt(e, order, k, m, Fallback(e, order, k))
    decreases |order| - k
  {
    var p := e.replies(order[k]);
    var first := FirstSuccess(p, Attempts(e.strategy));
    if first.Some? {
      assert IsFirstAnswer(p, Attempts(e.strategy), first.value);
      m := k;
    } else if k + 1 == |order| || !Eligible(e.cat, e.providers, e.req, order[k + 1]) {
      m := k;
    } else {
      m := FallbackMeaning(e, order, k + 1);
      assert (m + 1 - k) * Attempts(e.strategy) == (m - k) * Attempts(e.strategy) + Attempts(e.strategy);
      hide Latency, Calls, Capable, IsAnswer;
    }
  }

  /**
   Somebody serves the request exactly when some provider in the order would answer, every provider before
   it fails, and every provider from the second up to it is registered and allowed: one that is not
   ends the loop, whoever comes after it.
   */
  lemma ServedIff(e: Env, order: seq<string>)
    requires order != []
    ensures Fallback(e, order, 0).result.Served? <==> exists m: nat :: CanServeAt(e, order, m)
  {
    var m := FallbackMeaning(e, order, 0);
    if Fallback(e, order, 0).result.Served? {
      hide Fallback, Answers;
      assert CanServeAt(e, order, m);
    } else {
      hide Fallback, CanServeAt;
      forall s: nat ensures !CanServeAt(e, order, s) {
        NobodyServes(e, order, m, s);
      }
    }
  }

  lemma NobodyServes(e: Env, order: seq<string>, m: nat, s: nat)
    requires order != [] && EndsAt(e, order, 0, m, Fallback(e, order, 0)) && !Fallback(e, order, 0).result.Served?
    ensures !CanServeAt(e, order, s)
  {
    hide Fallback, Answers, Allowed;
    assert s <= m ==> !Answers(e, order[s]);
    assert m < s < |order| ==> m + 1 < |order| && !Eligible(e.cat, e.providers, e.req, order[m + 1]);
  }

  ghost predicate CanServeAt(e: Env, order: seq<string>, m: nat) {
    && m < |order| && Answers(e, order[m])
    && (forall i :: 0 <= i < m ==> !Answers(e, order[i]))
    && (forall i :: 0 < i <= m ==> Eligible(e.cat, e.providers, e.req, order[i]))
  }

  // ---------- no provider is tried twice ----------

  lemma {:induction false} RemainingMembers(capable: seq<string>, tried: seq<string>, p: string)
    ensures p in Remaining(capable, tried) <==> p in capable && p !in tried
  {
    if capable != [] {
      RemainingMembers(capable[..|capable| - 1], tried, p);
    }
  }

  lemma {:induction false} RemainingNoRepeats(capable: seq<string>, tried: seq<string>)
    requires Distinct(capable)
    ensures Distinct(Remaining(capable, tried))
  {
    if capable != [] {
      RemainingNoRepeats(capable[..|capable| - 1], tried);
      RemainingMembers(capable[..|capable| - 1], tried, capable[|capable| - 1]);
    }
  }

  lemma {:induction false} RemainingTwice(capable: seq<string>, a: seq<string>, b: seq<string>)
    ensures Remaining(capable, a + b) == Remaining(Remaining(capable, a), b)
  {
    if capable != [] {
      var front, last := capable[..|capable| - 1], capable[|capable| - 1];
      RemainingTwice(front, a, b);
      if last !in a {
        assert (Remaining(front, a) + [last])[..|Remaining(front, a)|] == Remaining(front, a);
      } else {
        assert Remaining(capable, a) == Remaining(front, a);
      }
    }
  }

  lemma {:induction false} RemainingNone(s: seq<string>, tried: seq<string>)
    requires forall p <- s :: p in tried
    ensures Remaining(s, tried) == []
  {
    if s != [] {
      RemainingNone(s[..|s| - 1], tried);
    }
  }

  lemma {:induction false} RemainingAfterPrefix(s: seq<string>, k: nat)
    requires Distinct(s) && k <= |s|
    ensures Remaining(s, s[..k]) == s[k..]
  {
    if k == |s| {
      RemainingNone(s, s[..k]);
    } else {
      var front := s[..|s| - 1];
      RemainingAfterPrefix(front, k);
      assert front[..k] == s[..k] && s[|s| - 1] !in s[..k];
      assert s[k..] == front[k..] + [s[|s| - 1]];
    }
  }

  /** What is left after a prefix of the order is the rest of the order. */
  lemma ChainIsRestOfOrder(cat: Catalog, req: Request, selected: string, k: nat)
    requires Distinct(Capable(cat, req.capability)) && k < |Order(cat, req, selected)|
    ensures var order := Order(cat, req, selected);
            Remaining(Capable(cat, req.capability), order[..k + 1]) == order[k + 1..]
  {
    var capable, order := Capable(cat, req.capability), Order(cat, req, selected);
    var others := Remaining(capable, [selected]);
    RemainingNoRepeats(capable, [selected]);
    hide Remaining, Distinct;
    assert order[..k + 1] == [selected] + others[..k];
    RemainingTwice(capable, [selected], others[..k]);
    RemainingAfterPrefix(others, k);
  }

  lemma OrderNoRepeats(cat: Catalog, req: Request, selected: string)
    requires Distinct(Capable(cat, req.capability))
    ensures Distinct(Order(cat, req, selected))
  {
    var others := Remaining(Capable(cat, req.capability), [selected]);
    RemainingNoRepeats(Capable(cat, req.capability), [selected]);
    RemainingMembers(Capable(cat, req.capability), [selected], selected);
  }

  // ---------- latency history ----------

  const KEPT := 20

  function KeepLast(xs: seq<int>): (r: seq<int>)
    ensures |r| <= KEPT
  {
    if |xs| > KEPT then xs[|xs| - KEPT..] else xs
  }

  /** The history of every provider once `pid` has served in `latency`. */
  function WithLatency(history: map<string, seq<int>>, pid: string, latency: int): map<string, seq<int>> {
    history[pid := KeepLast((if pid in history then history[pid] else []) + [latency])]
  }

  /** The history after recording all of some latencies one by one. */
  function Remembered(all: seq<int>): seq<int> {
    if all == [] then [] else KeepLast(Remembered(all[..|all| - 1]) + [all[|all| - 1]])
  }

  /** Cutting after every latency loses nothing but what is older than the last twenty of them all. */
  lemma {:induction false} RememberedIsLastOfAll(all: seq<int>)
    ensures Remembered(all) == KeepLast(all)
  {
    if all != [] {
      var front, last := all[..|all| - 1], all[|all| - 1];
      RememberedIsLastOfAll(front);
      assert all == front + [last];
      hide KeepLast;
      KeepLastStep(front, last);
    }
  }

  lemma KeepLastStep(all: seq<int>, x: int)
    ensures KeepLast(KeepLast(all) + [x]) == KeepLast(all + [x])
  {}

  // ---------- the client ----------

  datatype Response =
    | Answered(output: string, pid: string, fallbackUsed: bool, latency: int, checks: seq<Check>, tried: seq<string>)
    | Failed(error: Error)

  class AcdsClient {
    const cat: Catalog
    const providers: set<string>
    var history: map<string, seq<int>>

    /** An empty dictionary of providers stands for the default ones. */
    constructor (cat: Catalog, providers: set<string>)
      ensures this.cat == cat && history == map[]
      ensures this.providers == if providers == {} then {"ollama", "apple_intelligence"} else providers
    {
      this.cat := cat;
      this.providers := if providers == {} then {"ollama", "apple_intelligence"} else providers;
      history := map[];
    }

    /** `_select_provider`: score the eligible providers, then take the first of a stable descending sort. */
    method SelectProvider(req: Request) returns (s: Selection)
      ensures s.Unavailable? <==> Capable(cat, req.capability) == []
      ensures s.AllDenied? ==> forall p <- Capable(cat, req.capability) :: !Eligible(cat, providers, req, p)
      ensures s.Selected? ==> exists k: nat ::
                                IsBestAt(cat, providers, history, req, k) && s.pid == Capable(cat, req.capability)[k]
    {
      var capable := Capable(cat, req.capability);
      if capable == [] { return Unavailable; }
      hide Score, Allowed;
      var best: Option<int> := None;
      s := AllDenied;
      ghost var at := 0;
      for i := 0 to |capable|
        invariant best.None? ==> s == AllDenied && forall j :: 0 <= j < i ==> !Eligible(cat, providers, req, capable[j])
        invariant best.Some? ==> && at < i && s == Selected(capable[at]) && Eligible(cat, providers, req, capable[at])
                                 && best.value == Score(cat, history, req, capable[at])
        invariant best.Some? ==> forall j :: 0 <= j < i && Eligible(cat, providers, req, capable[j]) ==>
                    if j < at then Score(cat, history, req, capable[j]) < best.value
                    else Score(cat, history, req, capable[j]) <= best.value
      {
        var pid := capable[i];
        if pid in providers {
          var v := Evaluate(cat, req, pid);
          if v.allowed {
            var score := Score(cat, history, req, pid);
            if best.None? || score > best.value {
              best, s, at := Some(score), Selected(pid), i;
            }
          }
        }
      }
      if best.Some? {
        assert IsBestAt(cat, providers, history, req, at);
      }
    }

    method BuildFallbackChain(capability: string, tried: seq<string>) returns (chain: seq<string>)
      ensures chain == Remaining(Capable(cat, capability), tried)
    {
      var capable := Capable(cat, capability);
      chain := [];
      for i := 0 to |capable|
        invariant chain == Remaining(capable[..i], tried)
      {
        assert capable[..i + 1][..i] == capable[..i];
        if capable[i] !in tried {
          chain := chain + [capable[i]];
        }
      }
      assert capable[..|capable|] == capable;
    }

    method RecordLatency(pid: string, latency: int)
      modifies this
      ensures history == WithLatency(old(history), pid, latency)
    {
      var h := if pid in history then history[pid] else [];
      h := h + [latency];
      history := history[pid := h];
      if |h| > KEPT {
        history := history[pid := h[|h| - KEPT..]];
      }
    }

    /** `_execute_with_fallback`; nothing but a served request touches the history. */
    method ExecuteWithFallback(req: Request, selected: string, strategy: Strategy, replies: string -> Provider)
        returns (r: Ended)
      requires Distinct(Capable(cat, req.capability))
      modifies this
      ensures r == Fallback(Env(cat, providers, req, strategy, replies), Order(cat, req, selected), 0)
      ensures history == match r.result
                         case Served(_, pid, _, latency) => WithLatency(old(history), pid, latency)
                         case _ => old(history)
    {
      ghost var e, order := Env(cat, providers, req, strategy, replies), Order(cat, req, selected);
      hide Order, Calls, FirstSuccess, Latency, KeepLast, Remaining, Distinct, Capable;
      var tried: seq<string> := [];
      var current := selected;
      var used := false;
      var calls := 0;
      assert order[..0] == [];
      while true
        invariant |tried| < |order| && tried == order[..|tried|] && current == order[|tried|] && used == (|tried| > 0)
        invariant history == old(history)
        invariant Fallback(e, order, 0) == var rest := Fallback(e, order, |tried|); rest.(calls := rest.calls + calls)
        decreases |order| - |tried|
      {
        ghost var k := |tried|;
        tried := tried + [current];
        assert tried == order[..k + 1];
        var result, latency, n, _ := ExecuteSingle(strategy, replies(current));
        calls := calls + n;
        if result.Some? && Succeeds(result.value) {
          RecordLatency(current, latency);
          return Ended(Served(result.value.output, current, used, latency), tried, calls);
        }
        ChainIsRestOfOrder(cat, req, selected, k);
        var chain := BuildFallbackChain(req.capability, tried);
        if chain == [] { return Ended(Exhausted, tried, calls); }
        var next := chain[0];
        if next !in providers { return Ended(NotRegistered(next), tried, calls); }
        var v := Evaluate(cat, req, next);
        if !v.allowed { return Ended(Denied(next), tried, calls); }
        current := next;
        used := true;
      }
    }

    /** `request` */
    method Request(req: Request, strategy: Strategy, replies: string -> Provider) returns (r: Response, calls: nat)
      requires Distinct(Capable(cat, req.capability))
      modifies this
      ensures req.capability == "" || req.processId == "" ==> r == Failed(ContractViolation) && calls == 0
      ensures req.capability != "" && req.processId != "" && Capable(cat, req.capability) == [] ==>
                r == Failed(CapabilityUnavailable) && calls == 0
      ensures req.capability != "" && req.processId != "" && Capable(cat, req.capability) != [] ==>
                if forall p <- Capable(cat, req.capability) :: !Eligible(cat, providers, req, p)
                then r == Failed(PolicyDenied) && calls == 0
                else exists k: nat :: IsBestAt(cat, providers, old(history), req, k)
                                      && Responds(Env(cat, providers, req, strategy, replies), k, r, calls)
      ensures r.Failed? ==> history == old(history)
      ensures r.Answered? ==> history == WithLatency(old(history), r.pid, r.latency)
    {
      calls := 0;
      if req.capability == "" { return Failed(ContractViolation), 0; }
      if req.processId == "" { return Failed(ContractViolation), 0; }
      var s := SelectProvider(req);
      match s {
        case Unavailable => return Failed(CapabilityUnavailable), 0;
        case AllDenied => return Failed(PolicyDenied), 0;
        case Selected(pid) =>
          ghost var k: nat :| IsBestAt(cat, providers, history, req, k) && pid == Capable(cat, req.capability)[k];
          hide Fallback, Order, KeepLast, Allowed, Score;
          var ended := ExecuteWithFallback(req, pid, strategy, replies);
          calls := ended.calls;
          match ended.result {
            case Served(output, server, used, latency) =>
              var v := Evaluate(cat, req, server);
              r := Answered(output, server, used, latency, v.checks, ended.tried);
            case Exhausted => r := Failed(FallbackExhausted);
            case NotRegistered(_) => r := Failed(FallbackExhausted);
            case Denied(_) => r := Failed(PolicyDenied);
          }
          assert Responds(Env(cat, providers, req, strategy, replies), k, r, calls);
      }
    }
  }

  /** How the fallback loop, started at the provider at position `k`, becomes a response. */
  ghost predicate Responds(e: Env, k: nat, r: Response, calls: nat) {
    && k < |Capable(e.cat, e.req.capability)|
    && var f := Fallback(e, Order(e.cat, e.req, Capable(e.cat, e.req.capability)[k]), 0);
    && calls == f.calls
    && match f.result
       case Served(output, pid, used, latency) =>
         r.Answered? && r.output == output && r.pid == pid && r.fallbackUsed == used && r.latency == latency
             && r.tried == f.tried
       case Denied(_) => r == Failed(PolicyDenied)
       case _ => r == Failed(FallbackExhausted)
  }

  /**
   An answer comes from a provider that the client has, the policy allows and that answered, after
   every provider tried before it failed; nobody is tried twice, `fallback_used` says that somebody
   was tried before, and no request makes more calls than all capable providers' attempts together.
  */
  lemma RequestIsSound(e: Env, history: map<string, seq<int>>, k: nat, r: Response, calls: nat)
    requires Distinct(Capable(e.cat, e.req.capability))
    requires IsBestAt(e.cat, e.providers, history, e.req, k) && Responds(e, k, r, calls)
    ensures calls <= |Capable(e.cat, e.req.capability)| * Attempts(e.strategy)
    ensures r.Answered? ==>
              && Eligible(e.cat, e.providers, e.req, r.pid)
              && IsAnswer(e.replies(r.pid), Attempts(e.strategy), r.output, r.latency)
              && r.tried != [] && r.tried[|r.tried| - 1] == r.pid && r.tried[0] == Capable(e.cat, e.req.capability)[k]
              && r.fallbackUsed == (|r.tried| > 1) && Distinct(r.tried)
              && (forall i :: 0 <= i < |r.tried| - 1 ==> !Answers(e, r.tried[i]))
    ensures r.Answered? <==> exists m: nat :: CanServeAt(e, Order(e.cat, e.req, Capable(e.cat, e.req.capability)[k]), m)
  {
    var capable := Capable(e.cat, e.req.capability);
    var order := Order(e.cat, e.req, capable[k]);
    RequestOrder(e.cat, e.req, capable[k]);
    ServedIff(e, order);
    var m := FallbackMeaning(e, order, 0);
    CallBound(m + 1, |capable|, Attempts(e.strategy));
    hide Fallback, Order, Answers, Allowed, IsAnswer, Attempts, Score, CanServeAt;
  }

  lemma CallBound(m: nat, n: nat, attempts: nat)
    requires m <= n
    ensures m * attempts <= n * attempts
  {}

  /** The order lists each capable provider once, the selected one first. */
  lemma RequestOrder(cat: Catalog, req: Request, selected: string)
    requires Distinct(Capable(cat, req.capability)) && selected in Capable(cat, req.capability)
    ensures Distinct(Order(cat, req, selected))
    ensures |Order(cat, req, selected)| == |Capable(cat, req.capability)|
  {
    OrderNoRepeats(cat, req, selected);
    RemainingDropsOne(Capable(cat, req.capability), selected);
  }

  lemma {:induction false} RemainingDropsOne(capable: seq<string>, x: string)
    requires Distinct(capable) && x in capable
    ensures |Remaining(capable, [x])| == |capable| - 1
  {
    var front, last := capable[..|capable| - 1], capable[|capable| - 1];
    if last == x {
      assert x !in front;
      RemainingAll(front, [x]);
    } else {
      assert capable == front + [last];
      RemainingDropsOne(front, x);
    }
  }

  lemma {:induction false} RemainingAll(s: seq<string>, tried: seq<string>)
    requires forall p <- s :: p !in tried
    ensures Remaining(s, tried) == s
  {
    if s != [] {
      RemainingAll(s[..|s| - 1], tried);
      assert s == s[..|s| - 1] + [s[|s| - 1]];
    }
  }

  // ---------- the shipped registry, and a longer one ----------

  /** With the shipped registry the early end skips nobody: any admissible provider that would answer serves. */
  lemma ShippedServedIff(e: Env, selected: string)
    requires e.cat == CATALOG && selected in Capable(CATALOG, e.req.capability)
    ensures var order := Order(e.cat, e.req, selected);
            Fallback(e, order, 0).result.Served? <==> exists m: nat :: CouldServe(e, order, m)
  {
    var order := Order(e.cat, e.req, selected);
    ShippedLists(e.req.capability);
    RequestOrder(e.cat, e.req, selected);
    ServedIff(e, order);
    hide Fallback, Order, Answers, Eligible;
    if m: nat :| CouldServe(e, order, m) {
      assert CanServeAt(e, order, if Answers(e, order[0]) then 0 else m);
    }
    if m: nat :| CanServeAt(e, order, m) {
      assert CouldServe(e, order, m);
    }
  }

  ghost predicate CouldServe(e: Env, order: seq<string>, m: nat) {
    m < |order| && Answers(e, order[m]) && (m > 0 ==> Eligible(e.cat, e.providers, e.req, order[m]))
  }

  /** With three providers it may skip one: the second is missing, and the third, who would answer, is not asked. */
  lemma LongerListSkips(e: Env, ok: Reply)
    requires e.cat == Catalog(map["c" := ["p", "q", "r"]], {}, {}, map[]) && e.providers == {"p", "r"}
    requires e.req == ProviderPolicy.Request("c", "run", Constraints(false, None, "low", None))
             && e.strategy == Strategy(0, 0)
    requires Succeeds(ok) && !Succeeds(e.replies("p")(0)) && e.replies("r")(0) == ok
    ensures var order := Order(e.cat, e.req, "p");
            Fallback(e, order, 0).result == NotRegistered("q") && CouldServe(e, order, 2) && order[2] == "r"
  {
    var order := Order(e.cat, e.req, "p");
    assert order == ["p", "q", "r"] by { LongerOrder(); }
    assert FirstSuccess(e.replies("p"), 0).None? && FirstSuccess(e.replies("p"), 1).None?;
    assert FirstSuccess(e.replies("r"), 0).None? && FirstSuccess(e.replies("r"), 1).Some?;
  }

  lemma LongerOrder()
    ensures Remaining(["p", "q", "r"], ["p"]) == ["q", "r"]
  {
    var three := ["p", "q", "r"];
    assert three[..2] == ["p", "q"] && three[..2][..1] == ["p"] && three[..2][..1][..0] == [];
    assert Remaining(["p"], ["p"]) == [];
    assert Remaining(["p", "q"], ["p"]) == ["q"];
  }
}
