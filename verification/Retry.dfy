/** Retries on one provider, and which errors deserve one. */
module Retry {
  import opened Prelude

  datatype Error = PolicyDenied | ContractViolation | CapabilityUnavailable | ProviderFailed | FallbackExhausted

  datatype Strategy = Strategy(maxRetries: int, backoffBase: int)

  predicate IsTerminal(e: Error) {
    e.PolicyDenied? || e.ContractViolation?
  }

  predicate IsRetryable(e: Error) {
    if IsTerminal(e) then false
    else if e.CapabilityUnavailable? then false
    else e.ProviderFailed?
  }

  predicate ShouldRetry(s: Strategy, attempt: int, e: Error) {
    if attempt >= s.maxRetries then false else IsRetryable(e)
  }

  function Pow2(n: nat): nat {
    if n == 0 then 1 else 2 * Pow2(n - 1)
  }

  function DelayMs(s: Strategy, attempt: nat): int {
    s.backoffBase * Pow2(attempt)
  }

  /** One call of a provider: an exception, or a result. Latency is in milliseconds. */
  datatype Reply = Threw(latency: int) | Returned(success: bool, output: string, latency: int)

  /** The replies a provider would give to attempts 0, 1, 2, ... */
  type Provider = nat -> Reply

  predicate Succeeds(r: Reply) {
    r.Returned? && r.success
  }

  function Latency(p: Provider, attempts: nat): int {
    if attempts == 0 then 0 else Latency(p, attempts - 1) + p(attempts - 1).latency
  }

  /** The number of the first successful attempt, when there is one among the first `attempts`. */
  function FirstSuccess(p: Provider, attempts: nat): (k: Option<nat>)
    ensures k.Some? ==> k.value < attempts && Succeeds(p(k.value)) && forall i: nat :: i < k.value ==> !Succeeds(p(i))
    ensures k.None? ==> forall i: nat :: i < attempts ==> !Succeeds(p(i))
  {
    if attempts == 0 then None
    else
      var k := FirstSuccess(p, attempts - 1);
      if k.Some? then k else if Succeeds(p(attempts - 1)) then Some(attempts - 1) else None
  }

  /** How many attempts a strategy allows; a negative `max_retries` allows none. */
  function Attempts(s: Strategy): nat {
    if s.maxRetries < 0 then 0 else s.maxRetries + 1
  }

  /** How many calls are made: up to the first success, or all that are allowed. */
  function Calls(s: Strategy, p: Provider): (n: nat)
    ensures n <= Attempts(s)
  {
    match FirstSuccess(p, Attempts(s))
    case Some(k) => k + 1
    case None => Attempts(s)
  }

  /**
   `_execute_single`: the first successful reply, if any, after as many calls as it takes and no more
   than allowed. `slept` is the back-off time between them.
   */
  method ExecuteSingle(s: Strategy, p: Provider) returns (result: Option<Reply>, latency: int, calls: nat, slept: int)
    ensures calls == Calls(s, p) && latency == Latency(p, calls)
    ensures result.Some? && Succeeds(result.value) <==> FirstSuccess(p, Attempts(s)).Some?
    ensures FirstSuccess(p, Attempts(s)).Some? ==> result == Some(p(FirstSuccess(p, Attempts(s)).value))
    ensures slept == s.backoffBase * (Pow2(if calls == 0 then 0 else calls - 1) - 1)
  {
    result := None;
    latency := 0;
    calls := 0;
    slept := 0;
    var attempt := 0;
    while attempt < s.maxRetries + 1
      invariant 0 <= attempt <= Attempts(s) && calls == attempt && latency == Latency(p, attempt)
      invariant FirstSuccess(p, attempt).None?
      invariant result.Some? ==> !Succeeds(result.value)
      invariant attempt > 0 ==> attempt < s.maxRetries + 1
      invariant slept == s.backoffBase * (Pow2(if attempt == 0 then 0 else attempt - 1) - 1)
    {
      if attempt > 0 {
        var delay := DelayMs(s, attempt - 1);
        BackoffDoubles(s.backoffBase, attempt - 1);
        slept := slept + delay;
      }
      calls := calls + 1;
      var reply := p(attempt);
      latency := latency + reply.latency;
      if reply.Threw? {
        if !ShouldRetry(s, attempt, ProviderFailed) {
          FirstSuccessKeeps(p, attempt + 1, Attempts(s));
          return None, latency, calls, slept;
        }
      } else {
        result := Some(reply);
        if reply.success {
          FirstSuccessKeeps(p, attempt + 1, Attempts(s));
          return;
        }
        if !ShouldRetry(s, attempt, ProviderFailed) {
          FirstSuccessKeeps(p, attempt + 1, Attempts(s));
          return;
        }
      }
      attempt := attempt + 1;
    }
  }

  /** More attempts do not change the first success. */
  lemma {:induction false} FirstSuccessKeeps(p: Provider, few: nat, many: nat)
    requires few <= many && (FirstSuccess(p, few).Some? || few == many)
    ensures FirstSuccess(p, many) == FirstSuccess(p, few)
  {
    if few < many {
      FirstSuccessKeeps(p, few, many - 1);
    }
  }

  lemma BackoffDoubles(base: int, k: nat)
    ensures base * (Pow2(k) - 1) + base * Pow2(k) == base * (Pow2(k + 1) - 1)
  {
    calc {
      base * (Pow2(k) - 1) + base * Pow2(k);
      base * (2 * Pow2(k) - 1);
    }
  }
}
