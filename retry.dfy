/** The `retry` decorator: call the wrapped function up to `tries` times, sleeping
    between failed attempts with a delay multiplied by `backoff` each time, and fall
    back to `ret` when every attempt raised. The k-th call's outcome is given as
    `call(k)`; sleeping is recorded in a ghost log instead of performed. */
module Retry {
  import opened Outcomes

  function Pow(b: int, k: nat): int {
    if k == 0 then 1 else b * Pow(b, k - 1)
  }

  /** The delay before the j-th retry: `delay`, multiplied by `backoff` after each sleep. */
  function Delay(delay: int, backoff: int, j: nat): int {
    if j == 0 then delay else Delay(delay, backoff, j - 1) * backoff
  }

  /** The j-th sleep lasts `delay * backoff^j`. */
  lemma {:induction false} DelayIsPower(delay: int, backoff: int, j: nat)
    ensures Delay(delay, backoff, j) == delay * Pow(backoff, j)
  {
    if j > 0 {
      DelayIsPower(delay, backoff, j - 1);
      var p := Pow(backoff, j - 1);
      assert delay * p * backoff == delay * (backoff * p);
    }
  }

  /** The value `f_retry` returns when the calls from the k-th on are tried, with
      `left` tries remaining. */
  function RetryFrom<T>(call: nat -> Outcome<T>, k: nat, left: int, ret: T): T
    decreases if left > 0 then left else 0
  {
    if left <= 0 then ret
    else match call(k)
      case Returned(v) => v
      case Raised(_) => RetryFrom(call, k + 1, left - 1, ret)
  }

  /** How many calls that takes. */
  function Attempts<T>(call: nat -> Outcome<T>, k: nat, left: int): nat
    decreases if left > 0 then left else 0
  {
    if left <= 0 then 0
    else match call(k)
      case Returned(_) => 1
      case Raised(_) => 1 + Attempts(call, k + 1, left - 1)
  }

  method RetryCall<T>(call: nat -> Outcome<T>, tries: int, delay: int, backoff: int, ret: T)
    returns (r: T, calls: nat, ghost sleeps: seq<int>)
    ensures r == RetryFrom(call, 0, tries, ret)
    ensures calls == Attempts(call, 0, tries)
    ensures calls <= if tries > 0 then tries else 0
    ensures forall j :: 0 <= j < |sleeps| ==> call(j).Raised?
    ensures forall j :: 0 <= j < |sleeps| ==> sleeps[j] == Delay(delay, backoff, j)
    ensures |sleeps| == calls || (|sleeps| == calls - 1 && call(calls - 1).Returned?)
  {
    var mtries, mdelay := tries, delay;
    var k: nat := 0;
    sleeps := [];
    AttemptsBound(call, 0, tries);
    while mtries > 0
      invariant mtries == tries - k && |sleeps| == k
      invariant mdelay == Delay(delay, backoff, k)
      invariant forall j :: 0 <= j < k ==> call(j).Raised?
      invariant forall j :: 0 <= j < k ==> sleeps[j] == Delay(delay, backoff, j)
      invariant RetryFrom(call, 0, tries, ret) == RetryFrom(call, k, mtries, ret)
      invariant Attempts(call, 0, tries) == k + Attempts(call, k, mtries)
    {
      var o := call(k);
      RetryStep(call, k, mtries, ret);
      if o.Returned? {
        r, calls := o.value, k + 1;
        return;
      }
      sleeps := sleeps + [mdelay];
      mtries := mtries - 1;
      mdelay := mdelay * backoff;
      k := k + 1;
    }
    RetryStep(call, k, mtries, ret);
    r, calls := ret, k;
  }

  /** One attempt of `f_retry`. */
  lemma RetryStep<T>(call: nat -> Outcome<T>, k: nat, left: int, ret: T)
    ensures left <= 0 ==> RetryFrom(call, k, left, ret) == ret && Attempts(call, k, left) == 0
    ensures left > 0 && call(k).Returned? ==>
      RetryFrom(call, k, left, ret) == call(k).value && Attempts(call, k, left) == 1
    ensures left > 0 && call(k).Raised? ==>
      RetryFrom(call, k, left, ret) == RetryFrom(call, k + 1, left - 1, ret)
      && Attempts(call, k, left) == 1 + Attempts(call, k + 1, left - 1)
  {
  }

  lemma {:induction false} AttemptsBound<T>(call: nat -> Outcome<T>, k: nat, left: int)
    ensures Attempts(call, k, left) <= if left > 0 then left else 0
    decreases if left > 0 then left else 0
  {
    if left > 0 && call(k).Raised? {
      AttemptsBound(call, k + 1, left - 1);
    }
  }

  /** The first attempt that does not raise supplies the result. */
  lemma {:induction false} FirstSuccessWins<T>(call: nat -> Outcome<T>, k: nat, left: int, ret: T, j: nat)
    requires k <= j < k + left && call(j).Returned?
    requires forall t :: k <= t < j ==> call(t).Raised?
    ensures RetryFrom(call, k, left, ret) == call(j).value
    ensures Attempts(call, k, left) == j - k + 1
    decreases j - k
  {
    if k < j {
      FirstSuccessWins(call, k + 1, left - 1, ret, j);
    }
  }

  /** When every attempt raises, `ret` comes back after exactly `tries` calls. */
  lemma {:induction false} AllFailReturnsDefault<T>(call: nat -> Outcome<T>, k: nat, left: int, ret: T)
    requires forall t :: k <= t < k + left ==> call(t).Raised?
    ensures RetryFrom(call, k, left, ret) == ret
    ensures Attempts(call, k, left) == if left > 0 then left else 0
    decreases if left > 0 then left else 0
  {
    if left > 0 {
      AllFailReturnsDefault(call, k + 1, left - 1, ret);
    }
  }

  /** The result is `ret` or a value one of the tried calls returned. */
  lemma {:induction false} ResultComesFromACall<T>(call: nat -> Outcome<T>, k: nat, left: int, ret: T)
    ensures RetryFrom(call, k, left, ret) == ret
      || exists j :: k <= j < k + left && call(j) == Returned(RetryFrom(call, k, left, ret))
    decreases if left > 0 then left else 0
  {
    if left > 0 && call(k).Raised? {
      ResultComesFromACall(call, k + 1, left - 1, ret);
    }
  }
}
