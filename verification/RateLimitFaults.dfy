/** Redis calls that fail: INCR may go unanswered, and EXPIRE may be lost. */
module RateLimitFaults {
  import opened RateLimiter
  import opened RateLimitTraces

  datatype Attempt = Attempt(call: Call, incrOk: bool, expireOk: bool)

  function KeyOf(c: Call): string {
    RedisKey(c.scope, c.bucket)
  }

  /** The counters after a trace of attempts: an INCR without answer counts nothing. */
  function FaultyAfter(p: Policy, tried: seq<Attempt>): Redis {
    if tried == [] then map[]
    else
      var r, a := FaultyAfter(p, tried[..|tried| - 1]), tried[|tried| - 1];
      if a.incrOk then Bumped(r, KeyOf(a.call), p.window, a.call.now, a.expireOk) else r
  }

  predicate FaultyAllows(p: Policy, tried: seq<Attempt>, a: Attempt) {
    !a.incrOk || Incremented(FaultyAfter(p, tried), KeyOf(a.call), a.call.now).count <= p.limit(a.call.bucket)
  }

  lemma FaultyOne(p: Policy, tried: seq<Attempt>, a: Attempt)
    ensures FaultyAfter(p, tried + [a]) ==
            if a.incrOk then Bumped(FaultyAfter(p, tried), KeyOf(a.call), p.window, a.call.now, a.expireOk) else FaultyAfter(p, tried)
  {
    assert (tried + [a])[..|tried|] == tried;
  }

  /** The key has no expiry, and has counted to `n` at least. */
  predicate Stuck(r: Redis, key: string, n: int) {
    key in r && r[key].expireAt.None? && r[key].count >= 1 && r[key].count >= n
  }

  lemma BumpedStaysStuck(r: Redis, key: string, n: int, key': string, window: int, now: int, expireOk: bool)
    requires Stuck(r, key, n)
    ensures Stuck(Bumped(r, key', window, now, expireOk), key, if key' == key then n + 1 else n)
  {}

  lemma {:induction false} StuckStays(p: Policy, tried: seq<Attempt>, more: seq<Attempt>, key: string, n: int)
    requires Stuck(FaultyAfter(p, tried), key, n)
    ensures Stuck(FaultyAfter(p, tried + more), key, n)
  {
    hide FaultyAfter, Bumped;
    if more == [] {
      assert tried + more == tried;
    } else {
      var init, a := more[..|more| - 1], more[|more| - 1];
      StuckStays(p, tried, init, key, n);
      assert tried + more == tried + init + [a];
      FaultyOne(p, tried + init, a);
      BumpedStaysStuck(FaultyAfter(p, tried + init), key, n, KeyOf(a.call), p.window, a.call.now, a.expireOk);
    }
  }

  /**
   * A counter without expiry never resets. Once it has used up its limit, then over every continuation,
   * whatever its calls do and on whatever keys, each later call on it is refused if and only if its
   * INCR is answered.
   */
  lemma {:induction false} LostExpireBlocks(p: Policy, tried: seq<Attempt>, more: seq<Attempt>, a: Attempt)
    requires Stuck(FaultyAfter(p, tried), KeyOf(a.call), p.limit(a.call.bucket))
    ensures !FaultyAllows(p, tried + more, a) <==> a.incrOk
  {
    StuckStays(p, tried, more, KeyOf(a.call), p.limit(a.call.bucket));
    hide FaultyAfter;
  }

  // When a lost EXPIRE matters

  /** Some INCR made its key anew, and the EXPIRE after it was lost. */
  predicate ExpireLost(p: Policy, tried: seq<Attempt>) {
    tried != [] &&
    var init, a := tried[..|tried| - 1], tried[|tried| - 1];
    ExpireLost(p, init) ||
    (a.incrOk && !a.expireOk && Incremented(FaultyAfter(p, init), KeyOf(a.call), a.call.now).count == 1)
  }

  function Calls(tried: seq<Attempt>): (calls: seq<Call>)
    ensures |calls| == |tried| && forall i :: 0 <= i < |tried| ==> calls[i] == tried[i].call
  {
    seq(|tried|, i requires 0 <= i < |tried| => tried[i].call)
  }

  function Answer(c: Call): Attempt {
    Attempt(c, true, true)
  }

  function Answered(calls: seq<Call>): (tried: seq<Attempt>)
    ensures |tried| == |calls| && forall i :: 0 <= i < |calls| ==> tried[i] == Answer(calls[i])
  {
    seq(|calls|, i requires 0 <= i < |calls| => Answer(calls[i]))
  }

  predicate AllAnswered(tried: seq<Attempt>) {
    forall i :: 0 <= i < |tried| ==> tried[i].incrOk
  }

  lemma BumpedAlike(r: Redis, key: string, window: int, now: int, expireOk: bool)
    requires expireOk || Incremented(r, key, now).count != 1
    ensures Bumped(r, key, window, now, expireOk) == Bumped(r, key, window, now, true)
  {}

  /** Without such a loss the counters are those of a Redis without errors. */
  lemma {:induction false} NoLossNoDifference(p: Policy, tried: seq<Attempt>)
    requires AllAnswered(tried) && !ExpireLost(p, tried)
    ensures FaultyAfter(p, tried) == RedisAfter(p, Calls(tried))
  {
    if tried != [] {
      var init, a := tried[..|tried| - 1], tried[|tried| - 1];
      NoLossNoDifference(p, init);
      BumpedAlike(FaultyAfter(p, init), KeyOf(a.call), p.window, a.call.now, a.expireOk);
      assert Init(Calls(tried)) == Calls(init) && Last(Calls(tried)) == a.call;
      hide Bumped;
    }
  }

  lemma {:induction false} AnsweredLosesNothing(p: Policy, tried: seq<Attempt>, more: seq<Call>)
    ensures ExpireLost(p, tried + Answered(more)) <==> ExpireLost(p, tried)
  {
    if more == [] {
      assert tried + Answered(more) == tried;
    } else {
      var init, c := more[..|more| - 1], more[|more| - 1];
      AnsweredLosesNothing(p, tried, init);
      assert tried + Answered(more) == tried + Answered(init) + [Answer(c)];
      assert (tried + Answered(init) + [Answer(c)])[..|tried + Answered(init)|] == tried + Answered(init);
    }
  }

  lemma {:induction false} CountsPositive(p: Policy, tried: seq<Attempt>, key: string)
    ensures key in FaultyAfter(p, tried) ==> FaultyAfter(p, tried)[key].count >= 1
  {
    if tried != [] {
      var init, a := tried[..|tried| - 1], tried[|tried| - 1];
      CountsPositive(p, init, key);
      CountsPositive(p, init, KeyOf(a.call));
      hide KeyOf;
    }
  }

  lemma LossSticks(r: Redis, key: string, window: int, now: int)
    requires Incremented(r, key, now).count == 1 && (key in r ==> r[key].count >= 1)
    ensures Stuck(Bumped(r, key, window, now, false), key, 1)
  {}

  lemma {:induction false} LossLeavesStuckKey(p: Policy, tried: seq<Attempt>) returns (i: nat)
    requires ExpireLost(p, tried)
    ensures i < |tried| && Stuck(FaultyAfter(p, tried), KeyOf(tried[i].call), 1)
  {
    var init, a := tried[..|tried| - 1], tried[|tried| - 1];
    assert tried == init + [a];
    if ExpireLost(p, init) {
      i := LossLeavesStuckKey(p, init);
      StuckStays(p, init, [a], KeyOf(tried[i].call), 1);
    } else {
      i := |tried| - 1;
      CountsPositive(p, init, KeyOf(a.call));
      LossSticks(FaultyAfter(p, init), KeyOf(a.call), p.window, a.call.now);
    }
  }
}
