/** What the two backends do on whole traces of calls under one policy. */
module RateLimitTraces {
  import opened GoStrings
  import opened RateLimiter

  datatype Scope = User | Ip

  /** One limiter call: the bucket names what is counted, the scope only shows in Redis. */
  datatype Call = Call(scope: Scope, bucket: string, now: int)

  /** Each bucket has its own constant limit; all call sites use one window. */
  datatype Policy = Policy(limit: string -> int, window: int)

  function RedisKey(scope: Scope, bucket: string): string {
    (if scope == User then "ratelimit:user:" else "ratelimit:ip:") + bucket
  }

  predicate Monotone(calls: seq<Call>) {
    forall i, j :: 0 <= i < j < |calls| ==> calls[i].now <= calls[j].now
  }

  function Last(calls: seq<Call>): Call
    requires calls != []
  {
    calls[|calls| - 1]
  }

  function Init(calls: seq<Call>): seq<Call>
    requires calls != []
  {
    calls[..|calls| - 1]
  }

  // The limiter as shipped, the limiter without cleanup, and Redis without errors

  function MemoryAfter(p: Policy, calls: seq<Call>): Entries {
    if calls == [] then map[]
    else
      var c := Last(calls);
      Counted(Swept(MemoryAfter(p, Init(calls)), p.window, c.now), c.bucket, p.limit(c.bucket), p.window, c.now)
  }

  predicate MemoryAllows(p: Policy, calls: seq<Call>, c: Call) {
    Admits(Swept(MemoryAfter(p, calls), p.window, c.now), c.bucket, p.limit(c.bucket), p.window, c.now)
  }

  function PlainAfter(p: Policy, calls: seq<Call>): Entries {
    if calls == [] then map[]
    else
      var c := Last(calls);
      Counted(PlainAfter(p, Init(calls)), c.bucket, p.limit(c.bucket), p.window, c.now)
  }

  predicate PlainAllows(p: Policy, calls: seq<Call>, c: Call) {
    Admits(PlainAfter(p, calls), c.bucket, p.limit(c.bucket), p.window, c.now)
  }

  function RedisAfter(p: Policy, calls: seq<Call>): Redis {
    if calls == [] then map[]
    else
      var c := Last(calls);
      Bumped(RedisAfter(p, Init(calls)), RedisKey(c.scope, c.bucket), p.window, c.now, true)
  }

  predicate RedisAllows(p: Policy, calls: seq<Call>, c: Call) {
    Incremented(RedisAfter(p, calls), RedisKey(c.scope, c.bucket), c.now).count <= p.limit(c.bucket)
  }

  lemma PlainOne(p: Policy, calls: seq<Call>, c: Call)
    ensures PlainAfter(p, calls + [c]) == Counted(PlainAfter(p, calls), c.bucket, p.limit(c.bucket), p.window, c.now)
  {
    assert Init(calls + [c]) == calls && Last(calls + [c]) == c;
  }

  lemma RedisOne(p: Policy, calls: seq<Call>, c: Call)
    ensures RedisAfter(p, calls + [c]) == Bumped(RedisAfter(p, calls), RedisKey(c.scope, c.bucket), p.window, c.now, true)
  {
    assert Init(calls + [c]) == calls && Last(calls + [c]) == c;
  }

  // Cleanup is invisible

  ghost predicate SameRunning(m: Entries, m': Entries, window: int, now: int) {
    forall b :: Running(m, b, window, now) == Running(m', b, window, now)
  }

  lemma SweptSameRunning(m: Entries, window: int, now: int)
    requires window > 0
    ensures SameRunning(Swept(m, window, now), m, window, now)
  {
  }

  lemma SameRunningLater(m: Entries, m': Entries, window: int, t: int, now: int)
    requires t <= now && SameRunning(m, m', window, t)
    ensures SameRunning(m, m', window, now)
  {
    forall b
      ensures Running(m, b, window, now) == Running(m', b, window, now)
    {
      assert Running(m, b, window, t) == Running(m', b, window, t);
    }
  }

  lemma {:induction false} CleanupKeepsRunning(p: Policy, calls: seq<Call>, now: int)
    requires p.window > 0 && Monotone(calls) && (calls == [] || Last(calls).now <= now)
    ensures SameRunning(MemoryAfter(p, calls), PlainAfter(p, calls), p.window, now)
  {
    if calls != [] {
      var c, init := Last(calls), Init(calls);
      CleanupKeepsRunning(p, init, c.now);
      var m, m' := Swept(MemoryAfter(p, init), p.window, c.now), PlainAfter(p, init);
      SweptSameRunning(MemoryAfter(p, init), p.window, c.now);
      CountedSameRunning(m, m', c.bucket, p.limit(c.bucket), p.window, c.now);
      SameRunningLater(MemoryAfter(p, calls), PlainAfter(p, calls), p.window, c.now, now);
    }
  }

  lemma CountedSameRunning(m: Entries, m': Entries, key: string, limit: int, window: int, now: int)
    requires window > 0 && SameRunning(m, m', window, now)
    ensures SameRunning(Counted(m, key, limit, window, now), Counted(m', key, limit, window, now), window, now)
  {
    assert Running(m, key, window, now) == Running(m', key, window, now);
    forall b
      ensures Running(Counted(m, key, limit, window, now), b, window, now) ==
              Running(Counted(m', key, limit, window, now), b, window, now)
    {
      assert Running(m, b, window, now) == Running(m', b, window, now);
    }
  }

  /** The cleanup sweep changes no decision, on any trace over any number of buckets. */
  lemma CleanupInvisible(p: Policy, calls: seq<Call>, c: Call)
    requires p.window > 0 && Monotone(calls + [c])
    ensures MemoryAllows(p, calls, c) == PlainAllows(p, calls, c)
  {
    assert Monotone(calls) by {
      assert forall i :: 0 <= i < |calls| ==> (calls + [c])[i] == calls[i];
    }
    assert calls != [] ==> Last(calls) == (calls + [c])[|calls| - 1] && c == (calls + [c])[|calls|];
    CleanupKeepsRunning(p, calls, c.now);
    var m, m' := MemoryAfter(p, calls), PlainAfter(p, calls);
    SweptSameRunning(m, p.window, c.now);
    assert Running(Swept(m, p.window, c.now), c.bucket, p.window, c.now) == Running(m, c.bucket, p.window, c.now);
    assert Running(m, c.bucket, p.window, c.now) == Running(m', c.bucket, p.window, c.now);
  }

  // The two backends bisimulate

  /** Same window; Redis also counts denied calls, the in-memory counter stops at the limit. */
  predicate Matches(running: Option<WindowCounter>, present: Option<Counter>, limit: int, window: int) {
    match running
    case None => present.None?
    case Some(c) =>
      && present.Some? && present.value.expireAt == Some(c.windowStart + window)
      && present.value.count >= 1
      && c.count == if present.value.count < limit then present.value.count else limit
  }

  ghost predicate Agree(p: Policy, scopeOf: string -> Scope, m: Entries, r: Redis, now: int) {
    forall b :: Matches(Running(m, b, p.window, now), Present(r, RedisKey(scopeOf(b), b), now), p.limit(b), p.window)
  }

  ghost predicate Scoped(scopeOf: string -> Scope, calls: seq<Call>) {
    forall i :: 0 <= i < |calls| ==> calls[i].scope == scopeOf(calls[i].bucket)
  }

  lemma RedisKeyInjective(s: Scope, b: string, s': Scope, b': string)
    ensures RedisKey(s, b) == RedisKey(s', b') ==> s == s' && b == b'
  {
    var k, k' := RedisKey(s, b), RedisKey(s', b');
    if k == k' {
      assert k[10] == if s == User then 'u' else 'i';
      assert k'[10] == if s' == User then 'u' else 'i';
      var n := if s == User then 15 else 13;
      assert k[n..] == b && k'[n..] == b';
    }
  }

  lemma AgreeLater(p: Policy, scopeOf: string -> Scope, m: Entries, r: Redis, t: int, now: int)
    requires t <= now && Agree(p, scopeOf, m, r, t)
    ensures Agree(p, scopeOf, m, r, now)
  {
    forall b
      ensures Matches(Running(m, b, p.window, now), Present(r, RedisKey(scopeOf(b), b), now), p.limit(b), p.window)
    {
      assert Matches(Running(m, b, p.window, t), Present(r, RedisKey(scopeOf(b), b), t), p.limit(b), p.window);
    }
  }

  lemma AgreeStep(p: Policy, scopeOf: string -> Scope, m: Entries, r: Redis, c: Call)
    requires p.window > 0 && p.limit(c.bucket) >= 1 && c.scope == scopeOf(c.bucket)
    requires Agree(p, scopeOf, m, r, c.now)
    ensures Agree(p, scopeOf, Counted(m, c.bucket, p.limit(c.bucket), p.window, c.now),
                  Bumped(r, RedisKey(c.scope, c.bucket), p.window, c.now, true), c.now)
    ensures Admits(m, c.bucket, p.limit(c.bucket), p.window, c.now) <==>
            Incremented(r, RedisKey(c.scope, c.bucket), c.now).count <= p.limit(c.bucket)
  {
    var limit, key := p.limit(c.bucket), RedisKey(c.scope, c.bucket);
    var m', r' := Counted(m, c.bucket, limit, p.window, c.now), Bumped(r, key, p.window, c.now, true);
    assert Matches(Running(m, c.bucket, p.window, c.now), Present(r, key, c.now), limit, p.window);
    forall b
      ensures Matches(Running(m', b, p.window, c.now), Present(r', RedisKey(scopeOf(b), b), c.now), p.limit(b), p.window)
    {
      assert Matches(Running(m, b, p.window, c.now), Present(r, RedisKey(scopeOf(b), b), c.now), p.limit(b), p.window);
      RedisKeyInjective(scopeOf(b), b, c.scope, c.bucket);
    }
  }

  lemma {:induction false} AgreeAfter(p: Policy, scopeOf: string -> Scope, calls: seq<Call>, now: int)
    requires p.window > 0 && (forall b :: p.limit(b) >= 1)
    requires Monotone(calls) && Scoped(scopeOf, calls) && (calls == [] || Last(calls).now <= now)
    ensures Agree(p, scopeOf, PlainAfter(p, calls), RedisAfter(p, calls), now)
  {
    if calls != [] {
      var c, init := Last(calls), Init(calls);
      AgreeAfter(p, scopeOf, init, c.now);
      AgreeStep(p, scopeOf, PlainAfter(p, init), RedisAfter(p, init), c);
      AgreeLater(p, scopeOf, PlainAfter(p, calls), RedisAfter(p, calls), c.now, now);
    }
  }

  /** No bucket is counted both as a user's and as an address's. */
  predicate SeparateScopes(calls: seq<Call>) {
    forall i, j :: 0 <= i < |calls| && 0 <= j < |calls| && calls[i].bucket == calls[j].bucket ==>
      calls[i].scope == calls[j].scope
  }

  /** The scope each bucket of the trace is used with. */
  ghost function ScopeIn(calls: seq<Call>): string -> Scope {
    b => if exists i :: 0 <= i < |calls| && calls[i].bucket == b && calls[i].scope == User then User else Ip
  }

  lemma ScopeInFits(calls: seq<Call>)
    requires SeparateScopes(calls)
    ensures Scoped(ScopeIn(calls), calls)
  {
  }

  /** On every trace the shipped limiter and an error-free Redis take the same decision. */
  lemma BackendsAgree(p: Policy, calls: seq<Call>, c: Call)
    requires p.window > 0 && (forall b :: p.limit(b) >= 1)
    requires Monotone(calls + [c]) && SeparateScopes(calls + [c])
    ensures MemoryAllows(p, calls, c) == RedisAllows(p, calls, c)
  {
    var all := calls + [c];
    var scopeOf := ScopeIn(all);
    ScopeInFits(all);
    assert forall i :: 0 <= i < |calls| ==> all[i] == calls[i];
    assert all[|calls|] == c;
    assert calls != [] ==> Last(calls) == all[|calls| - 1];
    CleanupInvisible(p, calls, c);
    AgreeAfter(p, scopeOf, calls, c.now);
    AgreeStep(p, scopeOf, PlainAfter(p, calls), RedisAfter(p, calls), c);
  }

  /** They are the same policy exactly when every limit is positive: a limit of zero still admits
      the first call of a window in memory. */
  lemma BackendsAgreeIff(p: Policy)
    requires p.window > 0
    ensures (forall calls, c :: Monotone(calls + [c]) && SeparateScopes(calls + [c]) ==>
               MemoryAllows(p, calls, c) == RedisAllows(p, calls, c))
            <==> forall b :: p.limit(b) >= 1
  {
    if forall b :: p.limit(b) >= 1 {
      forall calls, c | Monotone(calls + [c]) && SeparateScopes(calls + [c])
        ensures MemoryAllows(p, calls, c) == RedisAllows(p, calls, c)
      {
        BackendsAgree(p, calls, c);
      }
    } else {
      var b :| p.limit(b) < 1;
      var c := Call(User, b, 0);
      assert Monotone([] + [c]) && SeparateScopes([] + [c]);
      assert MemoryAllows(p, [], c) && !RedisAllows(p, [], c);
    }
  }

  // How much gets through

  /** Admitted calls for one bucket at times in [a, b). */
  function Admitted(p: Policy, calls: seq<Call>, bucket: string, a: int, b: int): nat {
    if calls == [] then 0
    else
      var c := Last(calls);
      Admitted(p, Init(calls), bucket, a, b) +
      if c.bucket == bucket && a <= c.now < b && MemoryAllows(p, Init(calls), c) then 1 else 0
  }

  function AtLeastOne(limit: int): nat {
    if limit < 1 then 1 else limit
  }

  lemma InitMonotone(calls: seq<Call>)
    requires calls != [] && Monotone(calls)
    ensures Monotone(Init(calls)) && Init(calls) + [Last(calls)] == calls
    ensures forall i :: 0 <= i < |Init(calls)| ==> Init(calls)[i].now <= Last(calls).now
  {
  }

  lemma {:induction false} NoneBefore(p: Policy, calls: seq<Call>, bucket: string, a: int, b: int)
    requires forall i :: 0 <= i < |calls| ==> calls[i].now < a
    ensures Admitted(p, calls, bucket, a, b) == 0
  {
    if calls != [] {
      NoneBefore(p, Init(calls), bucket, a, b);
    }
  }

  /**
   * Windows of one bucket start at least a window apart and admit at most m calls each: the
   * running window `c` was preceded by at most q others reaching past `a`.
   */
  predicate Budget(m: nat, q: nat, admitted: nat, c: WindowCounter, window: int, a: int) {
    && c.count <= m && admitted <= m * q + c.count
    && (q == 0 || (q - 1) * window <= c.windowStart - a)
  }

  lemma BudgetSameWindow(m: nat, q: nat, admitted: nat, c: WindowCounter, window: int, a: int)
    requires Budget(m, q, admitted, c, window, a) && c.count < m
    ensures Budget(m, q, admitted, c.(count := c.count + 1), window, a)
    ensures Budget(m, q, admitted + 1, c.(count := c.count + 1), window, a)
  {
  }

  lemma BudgetNextWindow(m: nat, q: nat, admitted: nat, c: WindowCounter, window: int, a: int, now: int)
    requires Budget(m, q, admitted, c, window, a) && m >= 1 && window > 0 && now >= a && now >= c.windowStart + window
    ensures Budget(m, q + 1, admitted + 1, WindowCounter(now, 1), window, a)
  {
    assert m * (q + 1) == m * q + m;
    assert (q - 1) * window + window == q * window;
  }

  lemma BudgetFirst(m: nat, admitted: nat, now: int, window: int, a: int)
    requires m >= 1 && admitted <= 1
    ensures Budget(m, 0, admitted, WindowCounter(now, 1), window, a)
  {
  }

  ghost predicate Since(p: Policy, calls: seq<Call>, bucket: string, a: int, b: int, q: nat) {
    var plain := PlainAfter(p, calls);
    if bucket in plain then
      && calls != [] && plain[bucket].windowStart <= Last(calls).now
      && Budget(AtLeastOne(p.limit(bucket)), q, Admitted(p, calls, bucket, a, b), plain[bucket], p.window, a)
    else q == 0 && Admitted(p, calls, bucket, a, b) == 0
  }

  lemma SinceStep(p: Policy, calls: seq<Call>, bucket: string, a: int, b: int, q: nat) returns (q': nat)
    requires p.window > 0 && Monotone(calls) && calls != [] && Last(calls).now < b
    requires Since(p, Init(calls), bucket, a, b, q)
    ensures Since(p, calls, bucket, a, b, q')
  {
    var c, init := Last(calls), Init(calls);
    var plain, m := PlainAfter(p, init), AtLeastOne(p.limit(bucket));
    var admitted := Admitted(p, init, bucket, a, b);
    InitMonotone(calls);
    CleanupInvisible(p, init, c);
    if c.now < a {
      NoneBefore(p, calls, bucket, a, b);
    }
    hide MemoryAllows, Monotone, Budget;
    q' := q;
    if c.bucket == bucket {
      if bucket !in plain {
        BudgetFirst(m, Admitted(p, calls, bucket, a, b), c.now, p.window, a);
      } else if c.now - plain[bucket].windowStart < p.window {
        if plain[bucket].count < p.limit(bucket) {
          BudgetSameWindow(m, q, admitted, plain[bucket], p.window, a);
        }
      } else if c.now < a {
        BudgetFirst(m, 0, c.now, p.window, a);
        q' := 0;
      } else {
        BudgetNextWindow(m, q, admitted, plain[bucket], p.window, a, c.now);
        q' := q + 1;
      }
    }
  }

  lemma {:induction false} WindowsSince(p: Policy, calls: seq<Call>, bucket: string, a: int, b: int) returns (q: nat)
    requires p.window > 0 && Monotone(calls) && (calls == [] || Last(calls).now < b)
    ensures Since(p, calls, bucket, a, b, q)
  {
    q := 0;
    if calls != [] {
      InitMonotone(calls);
      q := WindowsSince(p, Init(calls), bucket, a, b);
      q := SinceStep(p, calls, bucket, a, b, q);
    }
  }

  function CeilDiv(t: int, w: int): int
    requires w > 0
  {
    (t + w - 1) / w
  }

  lemma WindowsFit(q: nat, window: int, t: int)
    requires window > 0 && t > 0 && (q == 0 || (q - 1) * window < t)
    ensures q <= CeilDiv(t, window)
  {
    var k := CeilDiv(t, window);
    assert k * window >= t;
    if q > k {
      MulMono(q - 1, k, window);
    }
  }

  lemma MulMono(x: int, y: int, w: nat)
    requires x >= y
    ensures x * w >= y * w
  {
  }

  /**
   * The rate bound: any half-open interval of length t holds at most max(1, limit) admitted calls
   * per window that fits into it, rounded up, plus one window.
   */
  lemma {:induction false} RateBound(p: Policy, calls: seq<Call>, bucket: string, a: int, t: int)
    requires p.window > 0 && t > 0 && Monotone(calls)
    ensures Admitted(p, calls, bucket, a, a + t) <= AtLeastOne(p.limit(bucket)) * (CeilDiv(t, p.window) + 1)
  {
    var m, k := AtLeastOne(p.limit(bucket)), CeilDiv(t, p.window);
    if calls == [] {
      assert m * (k + 1) >= 0;
    } else if Last(calls).now >= a + t {
      InitMonotone(calls);
      RateBound(p, Init(calls), bucket, a, t);
    } else {
      var q := WindowsSince(p, calls, bucket, a, a + t);
      if bucket in PlainAfter(p, calls) {
        WindowsFit(q, p.window, t);
        MulLe(m, q, k);
      } else {
        assert m * (k + 1) >= 0;
      }
    }
  }

  lemma MulLe(m: nat, q: nat, k: int)
    requires q <= k
    ensures m * q + m <= m * (k + 1)
  {
  }

  lemma TwoWindows(m: nat, w: int)
    requires w > 0
    ensures m * (CeilDiv(w, w) + 1) == 2 * m
  {
    assert (w + w - 1) / w == 1;
  }

  /** In particular at most twice the limit per window length, for a positive limit. */
  lemma TwiceTheLimitPerWindow(p: Policy, calls: seq<Call>, bucket: string, a: int)
    requires p.window > 0 && p.limit(bucket) >= 1 && Monotone(calls)
    ensures Admitted(p, calls, bucket, a, a + p.window) <= 2 * p.limit(bucket)
  {
    RateBound(p, calls, bucket, a, p.window);
    TwoWindows(p.limit(bucket), p.window);
  }

  lemma {:induction false} RunningIsCounted(p: Policy, calls: seq<Call>, bucket: string, b: int)
    requires p.window > 0 && Monotone(calls) && (calls == [] || Last(calls).now < b)
    ensures var plain := PlainAfter(p, calls);
            bucket in plain ==>
              && calls != [] && plain[bucket].windowStart <= Last(calls).now
              && plain[bucket].count <= Admitted(p, calls, bucket, plain[bucket].windowStart, b)
  {
    if calls != [] {
      InitMonotone(calls);
      RunningIsCounted(p, Init(calls), bucket, b);
      CleanupInvisible(p, Init(calls), Last(calls));
      hide MemoryAllows, Monotone;
    }
  }

  lemma {:induction false} AdmittedWider(p: Policy, calls: seq<Call>, bucket: string, a: int, a': int, b: int)
    requires a' <= a
    ensures Admitted(p, calls, bucket, a, b) <= Admitted(p, calls, bucket, a', b)
  {
    if calls != [] {
      AdmittedWider(p, Init(calls), bucket, a, a', b);
    }
  }

  /** No call is refused unless the limit was used up within the window before it. */
  lemma RefusalIsDeserved(p: Policy, calls: seq<Call>, c: Call)
    requires p.window > 0 && Monotone(calls + [c]) && !MemoryAllows(p, calls, c)
    ensures Admitted(p, calls, c.bucket, c.now - p.window + 1, c.now + 1) >= p.limit(c.bucket)
  {
    InitMonotone(calls + [c]);
    assert Init(calls + [c]) == calls && Last(calls + [c]) == c;
    assert calls != [] ==> Last(calls) == Init(calls + [c])[|calls| - 1];
    CleanupInvisible(p, calls, c);
    RunningIsCounted(p, calls, c.bucket, c.now + 1);
    var start := PlainAfter(p, calls)[c.bucket].windowStart;
    AdmittedWider(p, calls, c.bucket, start, c.now - p.window + 1, c.now + 1);
  }
}
