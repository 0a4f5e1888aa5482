/** After which Redis faults the two backends still agree, on every continuation without faults. */
module RateLimitAgreement {
  import opened GoStrings
  import opened RateLimiter
  import opened RateLimitTraces
  import opened RateLimitFaults

  /** What one window's in-memory counter and one Redis counter come to after j more calls at `now`. */
  function MemoryCount(running: Option<WindowCounter>, limit: int, now: int, j: nat): Option<WindowCounter> {
    match running
    case None => if j == 0 then None else Some(WindowCounter(now, if j < limit then j else limit))
    case Some(c) => Some(c.(count := if c.count + j < limit then c.count + j else limit))
  }

  function RedisCount(present: Option<Counter>, window: int, now: int, j: nat): Option<Counter> {
    match present
    case None => if j == 0 then None else Some(Counter(j, Some(now + window)))
    case Some(c) => Some(c.(count := c.count + j))
  }

  predicate MemoryAdmits(running: Option<WindowCounter>, limit: int, window: int, now: int) {
    running.None? || now - running.value.windowStart >= window || running.value.count < limit
  }

  predicate RedisAdmits(present: Option<Counter>, limit: int, now: int) {
    present.None? || (present.value.expireAt.Some? && present.value.expireAt.value <= now) || present.value.count + 1 <= limit
  }

  /** A running window and a present counter, as runs of the limiters leave them. */
  predicate Sound(running: Option<WindowCounter>, present: Option<Counter>, limit: int, window: int, now: int) {
    && (running.Some? ==> 1 <= running.value.count <= limit && now - running.value.windowStart < window)
    && (present.Some? ==> present.value.count >= 1 && (present.value.expireAt.Some? ==> now < present.value.expireAt.value))
  }

  /**
   * Counters that do not match are told apart: different counts by fewer calls than the limit, the
   * same count with different expiries by using up the limit and coming back at the earlier expiry.
   */
  lemma {:induction false} MismatchShows(running: Option<WindowCounter>, present: Option<Counter>, limit: int, window: int, now: int)
    returns (j: nat, t: int)
    requires limit >= 1 && window > 0 && Sound(running, present, limit, window, now)
    requires !Matches(running, present, limit, window)
    ensures now <= t
    ensures MemoryAdmits(MemoryCount(running, limit, now, j), limit, window, t) !=
            RedisAdmits(RedisCount(present, window, now, j), limit, t)
  {
    t := now;
    if running.None? || present.None? {
      j := limit - 1;
    } else {
      var c, r := running.value.count, present.value.count;
      if c != if r < limit then r else limit {
        j := limit - 1 - if c < r then c else r;
      } else {
        j := limit;
        var end := running.value.windowStart + window;
        t := if present.value.expireAt.Some? && present.value.expireAt.value < end then present.value.expireAt.value else end;
      }
    }
  }

  // The counters of one bucket

  function Copies(c: Call, j: nat): (calls: seq<Call>)
    ensures |calls| == j && forall i :: 0 <= i < j ==> calls[i] == c
  {
    seq(j, i => c)
  }

  lemma {:induction false} CopiesOne(c: Call, j: nat)
    requires j > 0
    ensures Copies(c, j) == Copies(c, j - 1) + [c] && Answered(Copies(c, j)) == Answered(Copies(c, j - 1)) + [Answer(c)]
  {}

  lemma {:induction false} CountsWithinLimit(p: Policy, calls: seq<Call>, bucket: string)
    requires p.limit(bucket) >= 1
    ensures bucket in PlainAfter(p, calls) ==> 1 <= PlainAfter(p, calls)[bucket].count <= p.limit(bucket)
  {
    if calls != [] {
      CountsWithinLimit(p, Init(calls), bucket);
    }
  }

  lemma {:induction false} CountedRunning(m: Entries, bucket: string, limit: int, window: int, now: int, j: nat, was: Option<WindowCounter>)
    requires window > 0 && limit >= 1 && (was.Some? ==> was.value.count <= limit)
    requires Running(m, bucket, window, now) == MemoryCount(was, limit, now, j)
    ensures Running(Counted(m, bucket, limit, window, now), bucket, window, now) == MemoryCount(was, limit, now, j + 1)
  {}

  lemma {:induction false} BumpedPresent(r: Redis, key: string, window: int, now: int, j: nat, was: Option<Counter>)
    requires window > 0 && (was.Some? ==> was.value.count >= 1)
    requires Present(r, key, now) == RedisCount(was, window, now, j)
    ensures Present(Bumped(r, key, window, now, true), key, now) == RedisCount(was, window, now, j + 1)
  {}

  lemma {:induction false} NoCopies(running: Option<WindowCounter>, limit: int, now: int, c: Call, calls: seq<Call>)
    requires running.Some? ==> running.value.count <= limit
    ensures MemoryCount(running, limit, now, 0) == running && calls + Copies(c, 0) == calls
  {}

  lemma {:induction false} CopiesRunning(p: Policy, calls: seq<Call>, c: Call, j: nat)
    requires p.window > 0 && p.limit(c.bucket) >= 1
    ensures Running(PlainAfter(p, calls + Copies(c, j)), c.bucket, p.window, c.now) ==
            MemoryCount(Running(PlainAfter(p, calls), c.bucket, p.window, c.now), p.limit(c.bucket), c.now, j)
  {
    hide PlainAfter, MemoryCount, Copies, Counted;
    var was := Running(PlainAfter(p, calls), c.bucket, p.window, c.now);
    CountsWithinLimit(p, calls, c.bucket);
    if j == 0 {
      NoCopies(was, p.limit(c.bucket), c.now, c, calls);
    } else {
      var some := calls + Copies(c, j - 1);
      CopiesRunning(p, calls, c, j - 1);
      CopiesOne(c, j);
      assert calls + Copies(c, j) == some + [c];
      PlainOne(p, some, c);
      CountedRunning(PlainAfter(p, some), c.bucket, p.limit(c.bucket), p.window, c.now, j - 1, was);
    }
  }

  lemma {:induction false} CopiesPresent(p: Policy, tried: seq<Attempt>, c: Call, j: nat)
    requires p.window > 0
    ensures Present(FaultyAfter(p, tried + Answered(Copies(c, j))), KeyOf(c), c.now) ==
            RedisCount(Present(FaultyAfter(p, tried), KeyOf(c), c.now), p.window, c.now, j)
  {
    var was := Present(FaultyAfter(p, tried), KeyOf(c), c.now);
    CountsPositive(p, tried, KeyOf(c));
    if j == 0 {
      assert tried + Answered(Copies(c, 0)) == tried;
    } else {
      var init := tried + Answered(Copies(c, j - 1));
      CopiesPresent(p, tried, c, j - 1);
      CopiesOne(c, j);
      assert tried + Answered(Copies(c, j)) == init + [Answer(c)];
      FaultyOne(p, init, Answer(c));
      BumpedPresent(FaultyAfter(p, init), KeyOf(c), p.window, c.now, j - 1, was);
    }
    hide FaultyAfter, RedisCount, Copies, KeyOf, Bumped;
  }

  lemma {:induction false} AdmitsLater(m: Entries, bucket: string, limit: int, window: int, now: int, t: int)
    requires window > 0 && now <= t
    ensures Admits(m, bucket, limit, window, t) == MemoryAdmits(Running(m, bucket, window, now), limit, window, t)
  {}

  lemma {:induction false} IncrementedLater(r: Redis, key: string, limit: int, now: int, t: int)
    requires limit >= 1 && now <= t
    ensures Incremented(r, key, t).count <= limit <==> RedisAdmits(Present(r, key, now), limit, t)
  {}

  /** The decisions on one more call at t, after j copies of a call at `c.now`. */
  lemma {:induction false} DecisionsAfterCopies(p: Policy, tried: seq<Attempt>, c: Call, j: nat, t: int)
    requires p.window > 0 && p.limit(c.bucket) >= 1 && c.now <= t
    requires Monotone(Calls(tried) + Copies(c, j) + [c.(now := t)])
    ensures MemoryAllows(p, Calls(tried) + Copies(c, j), c.(now := t)) ==
            MemoryAdmits(MemoryCount(Running(PlainAfter(p, Calls(tried)), c.bucket, p.window, c.now), p.limit(c.bucket), c.now, j),
                         p.limit(c.bucket), p.window, t)
    ensures FaultyAllows(p, tried + Answered(Copies(c, j)), Answer(c.(now := t))) ==
            RedisAdmits(RedisCount(Present(FaultyAfter(p, tried), KeyOf(c), c.now), p.window, c.now, j), p.limit(c.bucket), t)
  {
    hide MemoryAllows, PlainAfter, FaultyAfter, Monotone, Copies, MemoryCount, RedisCount, MemoryAdmits, RedisAdmits, Admits, Incremented, Running, Present;
    var calls := Calls(tried) + Copies(c, j);
    CleanupInvisible(p, calls, c.(now := t));
    CopiesRunning(p, Calls(tried), c, j);
    CopiesPresent(p, tried, c, j);
    AdmitsLater(PlainAfter(p, calls), c.bucket, p.limit(c.bucket), p.window, c.now, t);
    IncrementedLater(FaultyAfter(p, tried + Answered(Copies(c, j))), KeyOf(c), p.limit(c.bucket), c.now, t);
  }

  // The exact condition

  ghost predicate AgreeFrom(p: Policy, tried: seq<Attempt>) {
    forall more: seq<Call>, c: Call :: Monotone(Calls(tried) + more + [c]) && SeparateScopes(Calls(tried) + more + [c]) ==>
      MemoryAllows(p, Calls(tried) + more, c) == FaultyAllows(p, tried + Answered(more), Answer(c))
  }

  /** At the trace's last call, the two counters of the bucket are those of one window. */
  predicate CountersMatch(p: Policy, tried: seq<Attempt>, c: Call)
    requires tried != []
  {
    var now := tried[|tried| - 1].call.now;
    Matches(Running(PlainAfter(p, Calls(tried)), c.bucket, p.window, now), Present(FaultyAfter(p, tried), KeyOf(c), now), p.limit(c.bucket), p.window)
  }

  ghost predicate AllMatch(p: Policy, tried: seq<Attempt>) {
    forall i :: 0 <= i < |tried| ==> CountersMatch(p, tried, tried[i].call)
  }

  lemma {:induction false} CopiesInOrder(calls: seq<Call>, i: nat, j: nat, t: int)
    requires Monotone(calls) && SeparateScopes(calls) && i < |calls| && Last(calls).now <= t
    ensures var c := calls[i].(now := Last(calls).now);
            var all := calls + Copies(c, j) + [c.(now := t)];
            Monotone(all) && SeparateScopes(all)
  {
    var c := calls[i].(now := Last(calls).now);
    var all := calls + Copies(c, j) + [c.(now := t)];
    forall k | 0 <= k < |all|
      ensures k >= |calls| ==> all[k].scope == calls[i].scope && all[k].bucket == calls[i].bucket
      ensures k < |calls| ==> all[k] == calls[k]
    {}
  }

  lemma {:induction false} DisagreementShows(p: Policy, tried: seq<Attempt>, more: seq<Call>, c: Call)
    requires Monotone(Calls(tried) + more + [c]) && SeparateScopes(Calls(tried) + more + [c])
    requires MemoryAllows(p, Calls(tried) + more, c) != FaultyAllows(p, tried + Answered(more), Answer(c))
    ensures !AgreeFrom(p, tried)
  {
    hide Monotone, SeparateScopes, MemoryAllows, FaultyAllows;
  }

  lemma {:induction false} CountersSound(p: Policy, tried: seq<Attempt>, c: Call, now: int)
    requires p.limit(c.bucket) >= 1
    ensures Sound(Running(PlainAfter(p, Calls(tried)), c.bucket, p.window, now), Present(FaultyAfter(p, tried), KeyOf(c), now),
                  p.limit(c.bucket), p.window, now)
  {
    CountsWithinLimit(p, Calls(tried), c.bucket);
    CountsPositive(p, tried, KeyOf(c));
    hide PlainAfter, FaultyAfter, KeyOf;
  }

  lemma {:induction false} MismatchDisagrees(p: Policy, tried: seq<Attempt>, i: nat)
    requires p.window > 0 && (forall b :: p.limit(b) >= 1)
    requires Monotone(Calls(tried)) && SeparateScopes(Calls(tried))
    requires i < |tried| && !CountersMatch(p, tried, tried[i].call)
    ensures !AgreeFrom(p, tried)
  {
    hide PlainAfter, FaultyAfter, Monotone, SeparateScopes, MemoryAllows, FaultyAllows, AgreeFrom, Matches, Sound, Running, Present,
         MemoryCount, RedisCount, MemoryAdmits, RedisAdmits;
    var now, limit := Last(Calls(tried)).now, p.limit(tried[i].call.bucket);
    var c := tried[i].call.(now := now);
    CountersSound(p, tried, c, now);
    var j, t := MismatchShows(Running(PlainAfter(p, Calls(tried)), c.bucket, p.window, now),
                              Present(FaultyAfter(p, tried), KeyOf(c), now), limit, p.window, now);
    CopiesInOrder(Calls(tried), i, j, t);
    DecisionsAfterCopies(p, tried, c, j, t);
    DisagreementShows(p, tried, Copies(c, j), c.(now := t));
  }

  // Matching counters stay matched

  lemma {:induction false} OnlyCalledInMemory(p: Policy, calls: seq<Call>, bucket: string)
    requires bucket in PlainAfter(p, calls)
    ensures exists i :: 0 <= i < |calls| && calls[i].bucket == bucket
  {
    if calls != [] {
      var c, init := Last(calls), Init(calls);
      if c.bucket == bucket {
        assert calls[|calls| - 1].bucket == bucket;
      } else {
        OnlyCalledInMemory(p, init, bucket);
        var i :| 0 <= i < |init| && init[i].bucket == bucket;
        assert calls[i].bucket == bucket;
      }
    }
  }

  lemma {:induction false} OnlyCalledInRedis(p: Policy, tried: seq<Attempt>, key: string)
    requires key in FaultyAfter(p, tried)
    ensures exists i :: 0 <= i < |tried| && KeyOf(tried[i].call) == key
  {
    hide KeyOf;
    if tried != [] {
      var a, init := tried[|tried| - 1], tried[..|tried| - 1];
      if KeyOf(a.call) == key {
        assert KeyOf(tried[|tried| - 1].call) == key;
      } else {
        OnlyCalledInRedis(p, init, key);
        var i :| 0 <= i < |init| && KeyOf(init[i].call) == key;
        assert KeyOf(tried[i].call) == key;
      }
    }
  }

  lemma {:induction false} BucketMatches(p: Policy, scopeOf: string -> Scope, tried: seq<Attempt>, bucket: string, now: int)
    requires Scoped(scopeOf, Calls(tried)) && AllMatch(p, tried) && (tried != [] ==> now == tried[|tried| - 1].call.now)
    ensures Matches(Running(PlainAfter(p, Calls(tried)), bucket, p.window, now),
                    Present(FaultyAfter(p, tried), RedisKey(scopeOf(bucket), bucket), now), p.limit(bucket), p.window)
  {
    var key := RedisKey(scopeOf(bucket), bucket);
    hide PlainAfter, FaultyAfter, RedisKey;
    if bucket in PlainAfter(p, Calls(tried)) {
      OnlyCalledInMemory(p, Calls(tried), bucket);
      var i :| 0 <= i < |tried| && Calls(tried)[i].bucket == bucket;
      assert CountersMatch(p, tried, tried[i].call);
    } else if key in FaultyAfter(p, tried) {
      OnlyCalledInRedis(p, tried, key);
      var i :| 0 <= i < |tried| && KeyOf(tried[i].call) == key;
      RedisKeyInjective(tried[i].call.scope, tried[i].call.bucket, scopeOf(bucket), bucket);
      assert CountersMatch(p, tried, tried[i].call);
    }
  }

  lemma {:induction false} AgreeAtLastCall(p: Policy, scopeOf: string -> Scope, tried: seq<Attempt>, now: int)
    requires Scoped(scopeOf, Calls(tried)) && AllMatch(p, tried) && (tried != [] ==> tried[|tried| - 1].call.now <= now)
    ensures Agree(p, scopeOf, PlainAfter(p, Calls(tried)), FaultyAfter(p, tried), now)
  {
    hide PlainAfter, FaultyAfter, Scoped, AllMatch;
    var start := if tried == [] then now else tried[|tried| - 1].call.now;
    forall b
      ensures Matches(Running(PlainAfter(p, Calls(tried)), b, p.window, start),
                      Present(FaultyAfter(p, tried), RedisKey(scopeOf(b), b), start), p.limit(b), p.window)
    {
      BucketMatches(p, scopeOf, tried, b, start);
    }
    AgreeLater(p, scopeOf, PlainAfter(p, Calls(tried)), FaultyAfter(p, tried), start, now);
  }

  lemma {:induction false} ScopedInit(scopeOf: string -> Scope, calls: seq<Call>, c: Call)
    requires Scoped(scopeOf, calls + [c])
    ensures Scoped(scopeOf, calls) && c.scope == scopeOf(c.bucket)
  {
    assert forall i :: 0 <= i < |calls| ==> (calls + [c])[i] == calls[i];
    assert (calls + [c])[|calls|] == c;
  }

  lemma {:induction false} MonotoneInit(calls: seq<Call>, c: Call)
    requires Monotone(calls + [c])
    ensures Monotone(calls) && (calls == [] || Last(calls).now <= c.now)
  {
    InitMonotone(calls + [c]);
    assert Init(calls + [c]) == calls;
  }

  lemma {:induction false} StillAgree(p: Policy, scopeOf: string -> Scope, tried: seq<Attempt>, more: seq<Call>, now: int)
    requires p.window > 0 && (forall b :: p.limit(b) >= 1) && AllMatch(p, tried)
    requires Monotone(Calls(tried) + more) && Scoped(scopeOf, Calls(tried) + more)
    requires Calls(tried) + more == [] || Last(Calls(tried) + more).now <= now
    ensures Agree(p, scopeOf, PlainAfter(p, Calls(tried) + more), FaultyAfter(p, tried + Answered(more)), now)
  {
    hide PlainAfter, FaultyAfter, Monotone, Scoped, Agree, AllMatch, Counted, Bumped;
    if more == [] {
      assert Calls(tried) + more == Calls(tried) && tried + Answered(more) == tried;
      AgreeAtLastCall(p, scopeOf, tried, now);
    } else {
      var init, c := more[..|more| - 1], more[|more| - 1];
      var calls, some := Calls(tried) + init, tried + Answered(init);
      assert Calls(tried) + more == calls + [c];
      assert tried + Answered(more) == some + [Answer(c)];
      MonotoneInit(calls, c);
      ScopedInit(scopeOf, calls, c);
      StillAgree(p, scopeOf, tried, init, c.now);
      PlainOne(p, calls, c);
      FaultyOne(p, some, Answer(c));
      AgreeStep(p, scopeOf, PlainAfter(p, calls), FaultyAfter(p, some), c);
      AgreeLater(p, scopeOf, PlainAfter(p, calls + [c]), FaultyAfter(p, some + [Answer(c)]), c.now, now);
    }
  }

  lemma {:induction false} MatchAgrees(p: Policy, tried: seq<Attempt>, more: seq<Call>, c: Call)
    requires p.window > 0 && (forall b :: p.limit(b) >= 1) && AllMatch(p, tried)
    requires Monotone(Calls(tried) + more + [c]) && SeparateScopes(Calls(tried) + more + [c])
    ensures MemoryAllows(p, Calls(tried) + more, c) == FaultyAllows(p, tried + Answered(more), Answer(c))
  {
    hide Monotone, SeparateScopes, AllMatch, PlainAfter, FaultyAfter, ScopeIn, Scoped, MemoryAllows, Agree;
    var calls := Calls(tried) + more;
    var scopeOf := ScopeIn(calls + [c]);
    ScopeInFits(calls + [c]);
    ScopedInit(scopeOf, calls, c);
    MonotoneInit(calls, c);
    CleanupInvisible(p, calls, c);
    StillAgree(p, scopeOf, tried, more, c.now);
    AgreeStep(p, scopeOf, PlainAfter(p, calls), FaultyAfter(p, tried + Answered(more)), c);
  }

  /**
   * After any trace, with any INCRs unanswered and any EXPIREs lost, Redis takes the in-memory
   * limiter's decisions on every continuation without faults exactly when, for each bucket called, the
   * two counters match at the last call: both gone, or one window with the same end, and the same
   * count up to the limit.
   */
  lemma {:induction false} AgreementIff(p: Policy, tried: seq<Attempt>)
    requires p.window > 0 && (forall b :: p.limit(b) >= 1)
    requires Monotone(Calls(tried)) && SeparateScopes(Calls(tried))
    ensures AgreeFrom(p, tried) <==> AllMatch(p, tried)
  {
    hide FaultyAfter, MemoryAllows, FaultyAllows, Monotone, SeparateScopes, CountersMatch;
    if AllMatch(p, tried) {
      forall more: seq<Call>, c: Call | Monotone(Calls(tried) + more + [c]) && SeparateScopes(Calls(tried) + more + [c])
        ensures MemoryAllows(p, Calls(tried) + more, c) == FaultyAllows(p, tried + Answered(more), Answer(c))
      {
        MatchAgrees(p, tried, more, c);
      }
    } else {
      var i :| 0 <= i < |tried| && !CountersMatch(p, tried, tried[i].call);
      MismatchDisagrees(p, tried, i);
    }
  }

  lemma {:induction false} StuckDoesNotMatch(p: Policy, tried: seq<Attempt>, i: nat)
    requires i < |tried| && Stuck(FaultyAfter(p, tried), KeyOf(tried[i].call), 1)
    ensures !CountersMatch(p, tried, tried[i].call)
  {
    hide FaultyAfter, PlainAfter, KeyOf;
  }

  lemma {:induction false} NoLossAgrees(p: Policy, tried: seq<Attempt>, more: seq<Call>, c: Call)
    requires p.window > 0 && (forall b :: p.limit(b) >= 1)
    requires AllAnswered(tried) && !ExpireLost(p, tried)
    requires Monotone(Calls(tried) + more + [c]) && SeparateScopes(Calls(tried) + more + [c])
    ensures MemoryAllows(p, Calls(tried) + more, c) == FaultyAllows(p, tried + Answered(more), Answer(c))
  {
    hide FaultyAfter, RedisAfter, MemoryAllows, Monotone, SeparateScopes, ExpireLost;
    AnsweredLosesNothing(p, tried, more);
    NoLossNoDifference(p, tried + Answered(more));
    assert Calls(tried + Answered(more)) == Calls(tried) + more;
    BackendsAgree(p, Calls(tried) + more, c);
  }

  /** When every INCR was answered: exactly when no EXPIRE was lost after an INCR that made its key. */
  lemma {:induction false} LostExpireIff(p: Policy, tried: seq<Attempt>)
    requires p.window > 0 && (forall b :: p.limit(b) >= 1)
    requires AllAnswered(tried) && Monotone(Calls(tried)) && SeparateScopes(Calls(tried))
    ensures AgreeFrom(p, tried) <==> !ExpireLost(p, tried)
  {
    hide FaultyAfter, MemoryAllows, FaultyAllows, Monotone, SeparateScopes, ExpireLost, AllAnswered, CountersMatch;
    if ExpireLost(p, tried) {
      var i := LossLeavesStuckKey(p, tried);
      StuckDoesNotMatch(p, tried, i);
      AgreementIff(p, tried);
    } else {
      forall more: seq<Call>, c: Call | Monotone(Calls(tried) + more + [c]) && SeparateScopes(Calls(tried) + more + [c])
        ensures MemoryAllows(p, Calls(tried) + more, c) == FaultyAllows(p, tried + Answered(more), Answer(c))
      {
        NoLossAgrees(p, tried, more, c);
      }
    }
  }
}
