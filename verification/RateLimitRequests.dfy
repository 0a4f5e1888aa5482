/** Requests, each of which asks for its user first and then for its address, interleaved as they come. */
module RateLimitRequests {
  import opened GoStrings
  import opened RateLimiter
  import opened RateLimitTraces

  /** A request's first check, or its second; turns of different requests interleave. */
  datatype Turn =
    | Begin(id: nat, userID: string, ip: string, action: string, now: int)
    | Finish(id: nat, now: int)

  /** The address is asked for only when the user's check passed. */
  datatype Verdict = Waiting(ipBucket: string) | Granted | Refused

  datatype Progress = Progress(calls: seq<Call>, verdicts: map<nat, Verdict>)

  function UserBucket(t: Turn): string
    requires t.Begin?
  {
    t.userID + ":" + t.action
  }

  function IpBucket(t: Turn): string
    requires t.Begin?
  {
    t.ip + ":" + t.action
  }

  /** The limiter call a turn makes; a turn that is not possible makes none. */
  function CallOf(s: Progress, t: Turn): Option<Call> {
    match t
    case Begin(id, _, _, _, now) => if id in s.verdicts then None else Some(Call(User, UserBucket(t), now))
    case Finish(id, now) =>
      if id in s.verdicts && s.verdicts[id].Waiting? then Some(Call(Ip, s.verdicts[id].ipBucket, now)) else None
  }

  function VerdictOf(t: Turn, allowed: bool): Verdict {
    if !allowed then Refused else if t.Begin? then Waiting(IpBucket(t)) else Granted
  }

  /** A run against a backend that answers a call after the calls before it with `allows`. */
  function Run(allows: (seq<Call>, Call) -> bool, turns: seq<Turn>): Progress {
    if turns == [] then Progress([], map[])
    else
      var s, t := Run(allows, turns[..|turns| - 1]), turns[|turns| - 1];
      var c := CallOf(s, t);
      if c.None? then s
      else Progress(s.calls + [c.value], s.verdicts[t.id := VerdictOf(t, allows(s.calls, c.value))])
  }

  function InMemory(p: Policy): (seq<Call>, Call) -> bool {
    (calls, c) => MemoryAllows(p, calls, c)
  }

  function InRedis(p: Policy): (seq<Call>, Call) -> bool {
    (calls, c) => RedisAllows(p, calls, c)
  }

  predicate InOrder(turns: seq<Turn>) {
    forall i, j :: 0 <= i < j < |turns| ==> turns[i].now <= turns[j].now
  }

  /** No user bucket of the run is also an address bucket of the run. */
  predicate SeparateBuckets(turns: seq<Turn>) {
    forall i, j :: 0 <= i < |turns| && 0 <= j < |turns| && turns[i].Begin? && turns[j].Begin? ==>
      UserBucket(turns[i]) != IpBucket(turns[j])
  }

  predicate HasBucket(turns: seq<Turn>, scope: Scope, bucket: string) {
    exists i :: 0 <= i < |turns| && turns[i].Begin? && bucket == if scope == User then UserBucket(turns[i]) else IpBucket(turns[i])
  }

  lemma BucketStays(turns: seq<Turn>, t: Turn, scope: Scope, bucket: string)
    requires HasBucket(turns, scope, bucket)
    ensures HasBucket(turns + [t], scope, bucket)
  {
    var i :| 0 <= i < |turns| && turns[i].Begin? && bucket == if scope == User then UserBucket(turns[i]) else IpBucket(turns[i]);
    assert (turns + [t])[i] == turns[i];
  }

  /** What is called and what is waited for comes from the turns, and the calls are in order. */
  ghost predicate Sourced(turns: seq<Turn>, s: Progress) {
    && Monotone(s.calls)
    && (forall k :: 0 <= k < |s.calls| ==>
          HasBucket(turns, s.calls[k].scope, s.calls[k].bucket) && turns != [] && s.calls[k].now <= turns[|turns| - 1].now)
    && (forall id :: id in s.verdicts && s.verdicts[id].Waiting? ==> HasBucket(turns, Ip, s.verdicts[id].ipBucket))
  }

  lemma SourcedLater(turns: seq<Turn>, t: Turn, s: Progress)
    requires Sourced(turns, s) && InOrder(turns + [t])
    ensures Sourced(turns + [t], s)
    ensures forall k :: 0 <= k < |s.calls| ==> s.calls[k].now <= t.now
  {
    var all := turns + [t];
    hide HasBucket;
    forall k | 0 <= k < |s.calls|
      ensures HasBucket(all, s.calls[k].scope, s.calls[k].bucket) && s.calls[k].now <= t.now
    {
      BucketStays(turns, t, s.calls[k].scope, s.calls[k].bucket);
      assert all[|turns| - 1].now <= all[|turns|].now;
    }
    forall id | id in s.verdicts && s.verdicts[id].Waiting?
      ensures HasBucket(all, Ip, s.verdicts[id].ipBucket)
    {
      BucketStays(turns, t, Ip, s.verdicts[id].ipBucket);
    }
  }

  lemma CallHasBucket(turns: seq<Turn>, t: Turn, s: Progress)
    requires Sourced(turns, s) && CallOf(s, t).Some?
    ensures var c := CallOf(s, t).value; HasBucket(turns + [t], c.scope, c.bucket) && c.now == t.now
  {
    if t.Begin? {
      assert (turns + [t])[|turns|] == t;
    } else {
      hide HasBucket;
      BucketStays(turns, t, Ip, s.verdicts[t.id].ipBucket);
    }
  }

  lemma BeginHasBucket(turns: seq<Turn>, t: Turn)
    requires t.Begin?
    ensures HasBucket(turns + [t], Ip, IpBucket(t))
  {
    assert (turns + [t])[|turns|] == t;
  }

  lemma InOrderInit(turns: seq<Turn>, t: Turn)
    requires InOrder(turns + [t])
    ensures InOrder(turns)
  {
    assert forall i :: 0 <= i < |turns| ==> (turns + [t])[i] == turns[i];
  }

  lemma SeparateInit(turns: seq<Turn>, t: Turn)
    requires SeparateBuckets(turns + [t])
    ensures SeparateBuckets(turns)
  {
    assert forall i :: 0 <= i < |turns| ==> (turns + [t])[i] == turns[i];
  }

  /** One more call of a run is in order with the calls before it and comes from the turns, like them. */
  lemma NextCall(turns: seq<Turn>, t: Turn, s: Progress)
    requires Sourced(turns, s) && InOrder(turns + [t]) && CallOf(s, t).Some?
    ensures var calls := s.calls + [CallOf(s, t).value];
            && Monotone(calls)
            && forall k :: 0 <= k < |calls| ==> HasBucket(turns + [t], calls[k].scope, calls[k].bucket) && calls[k].now <= t.now
  {
    SourcedLater(turns, t, s);
    CallHasBucket(turns, t, s);
    hide HasBucket, CallOf, InOrder;
  }

  lemma {:induction false} RunIsSourced(allows: (seq<Call>, Call) -> bool, turns: seq<Turn>)
    requires InOrder(turns)
    ensures Sourced(turns, Run(allows, turns))
  {
    if turns != [] {
      var init, t := turns[..|turns| - 1], turns[|turns| - 1];
      assert turns == init + [t];
      InOrderInit(init, t);
      RunIsSourced(allows, init);
      var s := Run(allows, init);
      SourcedLater(init, t, s);
      if CallOf(s, t).Some? {
        NextCall(init, t, s);
        if t.Begin? {
          BeginHasBucket(init, t);
        }
      }
      hide HasBucket, CallOf, InOrder;
    }
  }

  function CallsOf(calls: seq<Call>, scope: Scope): nat {
    if calls == [] then 0
    else CallsOf(calls[..|calls| - 1], scope) + if calls[|calls| - 1].scope == scope then 1 else 0
  }

  /** The requests with a final verdict. */
  function Decided(verdicts: map<nat, Verdict>): set<nat> {
    set id | id in verdicts && !verdicts[id].Waiting?
  }

  /** Every request makes one check of its user's bucket, and at most one, its last, of its address's. */
  lemma {:induction false} OneCheckEach(allows: (seq<Call>, Call) -> bool, turns: seq<Turn>)
    ensures var s := Run(allows, turns);
            CallsOf(s.calls, User) == |s.verdicts| && CallsOf(s.calls, Ip) <= |Decided(s.verdicts)|
  {
    if turns != [] {
      var init, t := turns[..|turns| - 1], turns[|turns| - 1];
      OneCheckEach(allows, init);
      var s, s' := Run(allows, init), Run(allows, turns);
      var c := CallOf(s, t);
      if c.Some? {
        assert s'.calls[..|s.calls|] == s.calls;
        if t.Begin? {
          assert Decided(s'.verdicts) >= Decided(s.verdicts);
        } else {
          assert Decided(s'.verdicts) == Decided(s.verdicts) + {t.id};
        }
      }
    }
  }

  lemma BucketsSeparate(turns: seq<Turn>, calls: seq<Call>)
    requires SeparateBuckets(turns) && forall k :: 0 <= k < |calls| ==> HasBucket(turns, calls[k].scope, calls[k].bucket)
    ensures SeparateScopes(calls)
  {
    forall a, b | 0 <= a < |calls| && 0 <= b < |calls| && calls[a].bucket == calls[b].bucket
      ensures calls[a].scope == calls[b].scope
    {
      assert HasBucket(turns, calls[a].scope, calls[a].bucket) && HasBucket(turns, calls[b].scope, calls[b].bucket);
    }
  }

  /**
   * `allowByUserAndIP` gives every request the same verdict on both backends, over every interleaving
   * of the requests' checks, as long as no user bucket is also an address bucket.
   */
  lemma {:induction false} RequestsAgree(p: Policy, turns: seq<Turn>)
    requires p.window > 0 && (forall b :: p.limit(b) >= 1)
    requires InOrder(turns) && SeparateBuckets(turns)
    ensures Run(InMemory(p), turns) == Run(InRedis(p), turns)
  {
    if turns != [] {
      var init, t := turns[..|turns| - 1], turns[|turns| - 1];
      assert turns == init + [t];
      InOrderInit(init, t);
      SeparateInit(init, t);
      RequestsAgree(p, init);
      RunIsSourced(InMemory(p), init);
      var s := Run(InMemory(p), init);
      hide MemoryAllows, RedisAllows, HasBucket, CallOf, InOrder, SeparateBuckets;
      if CallOf(s, t).Some? {
        NextCall(init, t, s);
        BucketsSeparate(turns, s.calls + [CallOf(s, t).value]);
        BackendsAgree(p, s.calls, CallOf(s, t).value);
      }
    }
  }

  // A user whose name is also the address

  /** k requests of one user from one address, one after the other at one instant. */
  function Rounds(userID: string, ip: string, action: string, k: nat): seq<Turn> {
    if k == 0 then [] else Rounds(userID, ip, action, k - 1) + [Begin(k - 1, userID, ip, action, 0)] + [Finish(k - 1, 0)]
  }

  function Pairs(bucket: string, k: nat): seq<Call> {
    if k == 0 then [] else Pairs(bucket, k - 1) + [Call(User, bucket, 0)] + [Call(Ip, bucket, 0)]
  }

  function AllGranted(k: nat): (verdicts: map<nat, Verdict>)
    ensures forall id: nat :: id in verdicts <==> id < k
  {
    if k == 0 then map[] else AllGranted(k - 1)[k - 1 := Granted]
  }

  lemma RunOne(allows: (seq<Call>, Call) -> bool, turns: seq<Turn>, t: Turn)
    ensures var s := Run(allows, turns);
            var c := CallOf(s, t);
            Run(allows, turns + [t]) ==
            if c.None? then s else Progress(s.calls + [c.value], s.verdicts[t.id := VerdictOf(t, allows(s.calls, c.value))])
  {
    assert (turns + [t])[..|turns|] == turns;
  }

  /** One more round, given the backend's two answers after k rounds that were all granted. */
  lemma OneMoreRound(allows: (seq<Call>, Call) -> bool, userID: string, ip: string, action: string, k: nat, user: bool, address: bool)
    requires userID + ":" + action == ip + ":" + action
    requires var b := userID + ":" + action;
             && Run(allows, Rounds(userID, ip, action, k)) == Progress(Pairs(b, k), AllGranted(k))
             && allows(Pairs(b, k), Call(User, b, 0)) == user
             && allows(Pairs(b, k) + [Call(User, b, 0)], Call(Ip, b, 0)) == address
    ensures var s := Run(allows, Rounds(userID, ip, action, k + 1));
            && (user && address ==> s == Progress(Pairs(userID + ":" + action, k + 1), AllGranted(k + 1)))
            && k in s.verdicts && s.verdicts[k] == if user && address then Granted else Refused
  {
    var turns, b := Rounds(userID, ip, action, k), userID + ":" + action;
    var first, second := Begin(k, userID, ip, action, 0), Finish(k, 0);
    hide Run;
    RunOne(allows, turns, first);
    RunOne(allows, turns + [first], second);
    assert AllGranted(k)[k := Waiting(b)][k := Granted] == AllGranted(k)[k := Granted];
  }

  lemma {:induction false} PairsMonotone(bucket: string, k: nat)
    ensures forall c :: c in Pairs(bucket, k) ==> c.now == 0
  {
    if k > 0 {
      PairsMonotone(bucket, k - 1);
    }
  }

  lemma CallsMonotone(calls: seq<Call>)
    requires forall c :: c in calls ==> c.now == 0
    ensures Monotone(calls)
  {}

  lemma PairCounted(m: Entries, bucket: string, limit: int, window: int, k: nat)
    requires window > 0 && 2 * k + 2 <= limit && m == if k == 0 then map[] else map[bucket := WindowCounter(0, 2 * k)]
    ensures Counted(Counted(m, bucket, limit, window, 0), bucket, limit, window, 0) == map[bucket := WindowCounter(0, 2 * k + 2)]
  {}

  /** In memory both checks of a round count in the one shared bucket. */
  lemma {:induction false} PairsInMemory(p: Policy, bucket: string, k: nat)
    requires p.window > 0 && 2 * k <= p.limit(bucket)
    ensures PlainAfter(p, Pairs(bucket, k)) == if k == 0 then map[] else map[bucket := WindowCounter(0, 2 * k)]
  {
    hide Counted;
    if k > 0 {
      var calls, u := Pairs(bucket, k - 1), Call(User, bucket, 0);
      PairsInMemory(p, bucket, k - 1);
      PlainOne(p, calls, u);
      PlainOne(p, calls + [u], Call(Ip, bucket, 0));
      PairCounted(PlainAfter(p, calls), bucket, p.limit(bucket), p.window, k - 1);
    }
  }

  lemma PairsAnswersInMemory(p: Policy, bucket: string, k: nat)
    requires p.window > 0 && 2 * k <= p.limit(bucket) && p.limit(bucket) >= 1
    ensures MemoryAllows(p, Pairs(bucket, k), Call(User, bucket, 0)) <==> 2 * k < p.limit(bucket)
    ensures 2 * k < p.limit(bucket) ==>
            (MemoryAllows(p, Pairs(bucket, k) + [Call(User, bucket, 0)], Call(Ip, bucket, 0)) <==> 2 * k + 1 < p.limit(bucket))
  {
    var calls, u, i := Pairs(bucket, k), Call(User, bucket, 0), Call(Ip, bucket, 0);
    PairsMonotone(bucket, k);
    CallsMonotone(calls + [u]);
    CallsMonotone(calls + [u] + [i]);
    CleanupInvisible(p, calls, u);
    CleanupInvisible(p, calls + [u], i);
    PairsInMemory(p, bucket, k);
    PlainOne(p, calls, u);
    hide MemoryAllows, PlainAfter, Pairs, Monotone;
  }

  lemma PairBumped(r: Redis, user: string, address: string, window: int, k: nat)
    requires window > 0 && user != address
    requires r == if k == 0 then map[] else map[user := Counter(k, Some(window)), address := Counter(k, Some(window))]
    ensures Bumped(Bumped(r, user, window, 0, true), address, window, 0, true) ==
            map[user := Counter(k + 1, Some(window)), address := Counter(k + 1, Some(window))]
  {}

  /** In Redis the two checks have a counter each. */
  lemma {:induction false} PairsInRedis(p: Policy, bucket: string, k: nat)
    requires p.window > 0
    ensures RedisAfter(p, Pairs(bucket, k)) ==
            if k == 0 then map[]
            else map[RedisKey(User, bucket) := Counter(k, Some(p.window)), RedisKey(Ip, bucket) := Counter(k, Some(p.window))]
  {
    if k > 0 {
      PairsInRedis(p, bucket, k - 1);
      RedisOne(p, Pairs(bucket, k - 1), Call(User, bucket, 0));
      RedisOne(p, Pairs(bucket, k - 1) + [Call(User, bucket, 0)], Call(Ip, bucket, 0));
      RedisKeyInjective(User, bucket, Ip, bucket);
      PairBumped(RedisAfter(p, Pairs(bucket, k - 1)), RedisKey(User, bucket), RedisKey(Ip, bucket), p.window, k - 1);
      hide RedisAfter, RedisKey, Bumped;
    }
  }

  lemma PairsAnswersInRedis(p: Policy, bucket: string, k: nat)
    requires p.window > 0
    ensures RedisAllows(p, Pairs(bucket, k), Call(User, bucket, 0)) <==> k + 1 <= p.limit(bucket)
    ensures RedisAllows(p, Pairs(bucket, k) + [Call(User, bucket, 0)], Call(Ip, bucket, 0)) <==> k + 1 <= p.limit(bucket)
  {
    PairsInRedis(p, bucket, k);
    RedisOne(p, Pairs(bucket, k), Call(User, bucket, 0));
    RedisKeyInjective(User, bucket, Ip, bucket);
    hide RedisAfter, RedisKey, Pairs;
  }

  /** After k rounds that were all granted, a backend's next two answers decide the next round. */
  ghost predicate GrantedSoFar(allows: (seq<Call>, Call) -> bool, userID: string, ip: string, action: string, k: nat) {
    Run(allows, Rounds(userID, ip, action, k)) == Progress(Pairs(userID + ":" + action, k), AllGranted(k))
  }

  lemma RoundInMemory(p: Policy, userID: string, ip: string, action: string, k: nat)
    requires p.window > 0 && userID + ":" + action == ip + ":" + action && p.limit(userID + ":" + action) >= 1
    requires 2 * k <= p.limit(userID + ":" + action) && GrantedSoFar(InMemory(p), userID, ip, action, k)
    ensures var granted, m := 2 * k + 2 <= p.limit(userID + ":" + action), Run(InMemory(p), Rounds(userID, ip, action, k + 1));
            && (granted ==> GrantedSoFar(InMemory(p), userID, ip, action, k + 1))
            && k in m.verdicts && m.verdicts[k] == if granted then Granted else Refused
  {
    var b := userID + ":" + action;
    PairsAnswersInMemory(p, b, k);
    hide MemoryAllows, Rounds, Pairs, AllGranted, Run;
    OneMoreRound(InMemory(p), userID, ip, action, k, MemoryAllows(p, Pairs(b, k), Call(User, b, 0)),
                 MemoryAllows(p, Pairs(b, k) + [Call(User, b, 0)], Call(Ip, b, 0)));
  }

  lemma RoundInRedis(p: Policy, userID: string, ip: string, action: string, k: nat)
    requires p.window > 0 && userID + ":" + action == ip + ":" + action && GrantedSoFar(InRedis(p), userID, ip, action, k)
    ensures var granted, r := k + 1 <= p.limit(userID + ":" + action), Run(InRedis(p), Rounds(userID, ip, action, k + 1));
            && (granted ==> GrantedSoFar(InRedis(p), userID, ip, action, k + 1))
            && k in r.verdicts && r.verdicts[k] == if granted then Granted else Refused
  {
    var b := userID + ":" + action;
    PairsAnswersInRedis(p, b, k);
    hide RedisAllows, Rounds, Pairs, AllGranted, Run;
    OneMoreRound(InRedis(p), userID, ip, action, k, RedisAllows(p, Pairs(b, k), Call(User, b, 0)),
                 RedisAllows(p, Pairs(b, k) + [Call(User, b, 0)], Call(Ip, b, 0)));
  }

  lemma NoRounds(allows: (seq<Call>, Call) -> bool, userID: string, ip: string, action: string)
    ensures GrantedSoFar(allows, userID, ip, action, 0)
  {}

  /** Up to half the limit, both backends grant every round. */
  lemma {:induction false} EarlyRoundsGranted(p: Policy, userID: string, ip: string, action: string, k: nat)
    requires p.window > 0 && userID + ":" + action == ip + ":" + action && 2 * k <= p.limit(userID + ":" + action)
    ensures GrantedSoFar(InMemory(p), userID, ip, action, k) && GrantedSoFar(InRedis(p), userID, ip, action, k)
  {
    hide GrantedSoFar, InMemory, InRedis, Run;
    if k == 0 {
      NoRounds(InMemory(p), userID, ip, action);
      NoRounds(InRedis(p), userID, ip, action);
    } else {
      EarlyRoundsGranted(p, userID, ip, action, k - 1);
      RoundInMemory(p, userID, ip, action, k - 1);
      RoundInRedis(p, userID, ip, action, k - 1);
    }
  }

  /**
   * When the user's bucket is the address's, a request uses up two of the bucket's limit in memory and
   * one of each counter in Redis: the backends agree on the first half of the limit, and part at the
   * request after it, which Redis grants and memory refuses.
   */
  lemma SharedBucketParts(p: Policy, userID: string, ip: string, action: string)
    requires p.window > 0 && userID + ":" + action == ip + ":" + action && p.limit(userID + ":" + action) >= 1
    ensures var k: nat := p.limit(userID + ":" + action) / 2;
            && Run(InMemory(p), Rounds(userID, ip, action, k)) == Run(InRedis(p), Rounds(userID, ip, action, k))
            && var m, r := Run(InMemory(p), Rounds(userID, ip, action, k + 1)), Run(InRedis(p), Rounds(userID, ip, action, k + 1));
               k in m.verdicts && m.verdicts[k] == Refused && k in r.verdicts && r.verdicts[k] == Granted
  {
    var k: nat := p.limit(userID + ":" + action) / 2;
    EarlyRoundsGranted(p, userID, ip, action, k);
    hide InMemory, InRedis, Run, Rounds, Pairs;
    RoundInMemory(p, userID, ip, action, k);
    RoundInRedis(p, userID, ip, action, k);
  }

  // Many users at many addresses

  /** Who asks for what, from where. */
  datatype Requester = Requester(userID: string, ip: string, action: string)

  function UserOf(r: Requester): string {
    r.userID + ":" + r.action
  }

  function IpOf(r: Requester): string {
    r.ip + ":" + r.action
  }

  /** All requests of the run are by these requesters. */
  ghost predicate Over(turns: seq<Turn>, requesters: iset<Requester>) {
    forall i :: 0 <= i < |turns| && turns[i].Begin? ==> Requester(turns[i].userID, turns[i].ip, turns[i].action) in requesters
  }

  /** No requester's user bucket is the address bucket of the same or another requester. */
  ghost predicate NoneCross(requesters: iset<Requester>) {
    forall a, b :: a in requesters && b in requesters ==> UserOf(a) != IpOf(b)
  }

  lemma NoneCrossSeparates(turns: seq<Turn>, requesters: iset<Requester>)
    requires Over(turns, requesters) && NoneCross(requesters)
    ensures SeparateBuckets(turns)
  {
    forall i, j | 0 <= i < |turns| && 0 <= j < |turns| && turns[i].Begin? && turns[j].Begin?
      ensures UserBucket(turns[i]) != IpBucket(turns[j])
    {
      var a := Requester(turns[i].userID, turns[i].ip, turns[i].action);
      var b := Requester(turns[j].userID, turns[j].ip, turns[j].action);
      assert UserOf(a) != IpOf(b);
    }
  }

  /** One whole request of b, then m first checks of a, all at one instant. */
  function Crossed(a: Requester, b: Requester, m: nat): seq<Turn> {
    if m == 0 then [Begin(0, b.userID, b.ip, b.action, 0)] + [Finish(0, 0)]
    else Crossed(a, b, m - 1) + [Begin(m, a.userID, a.ip, a.action, 0)]
  }

  /** The calls these turns make: b's user bucket once, and the bucket the two share. */
  function CrossedCalls(other: string, shared: string, m: nat): seq<Call> {
    if m == 0 then [Call(User, other, 0)] + [Call(Ip, shared, 0)] else CrossedCalls(other, shared, m - 1) + [Call(User, shared, 0)]
  }

  function CrossedVerdicts(ipBucket: string, m: nat): (verdicts: map<nat, Verdict>)
    ensures forall id: nat :: id in verdicts <==> id <= m
  {
    if m == 0 then map[0 := Granted] else CrossedVerdicts(ipBucket, m - 1)[m := Waiting(ipBucket)]
  }

  lemma {:induction false} CrossedTimes(other: string, shared: string, m: nat)
    ensures forall c :: c in CrossedCalls(other, shared, m) ==> c.now == 0
  {
    if m > 0 {
      CrossedTimes(other, shared, m - 1);
    }
  }

  lemma CountedOwn(m: Entries, bucket: string, limit: int, window: int, k: nat)
    requires window > 0 && k + 1 <= limit && (bucket in m <==> k > 0) && (k > 0 ==> m[bucket] == WindowCounter(0, k))
    ensures var m' := Counted(m, bucket, limit, window, 0); bucket in m' && m'[bucket] == WindowCounter(0, k + 1)
  {}

  lemma CountedOther(m: Entries, bucket: string, bucket': string, limit: int, window: int)
    requires bucket != bucket'
    ensures var m' := Counted(m, bucket', limit, window, 0); (bucket in m' <==> bucket in m) && (bucket in m ==> m'[bucket] == m[bucket])
  {}

  /** In memory the address's check and the user's checks count in one bucket. */
  lemma {:induction false} CrossedInMemory(p: Policy, other: string, shared: string, m: nat)
    requires p.window > 0 && other != shared && m + 1 <= p.limit(shared)
    ensures var plain := PlainAfter(p, CrossedCalls(other, shared, m)); shared in plain && plain[shared] == WindowCounter(0, m + 1)
  {
    hide Counted;
    if m == 0 {
      var u := Call(User, other, 0);
      PlainOne(p, [], u);
      assert [] + [u] == [u];
      PlainOne(p, [u], Call(Ip, shared, 0));
      CountedOther(map[], shared, other, p.limit(other), p.window);
      CountedOwn(PlainAfter(p, [u]), shared, p.limit(shared), p.window, 0);
    } else {
      CrossedInMemory(p, other, shared, m - 1);
      PlainOne(p, CrossedCalls(other, shared, m - 1), Call(User, shared, 0));
      CountedOwn(PlainAfter(p, CrossedCalls(other, shared, m - 1)), shared, p.limit(shared), p.window, m);
    }
  }

  lemma BumpedOwn(r: Redis, key: string, window: int, m: nat)
    requires window > 0 && (key in r <==> m > 0) && (m > 0 ==> r[key] == Counter(m, Some(window)))
    ensures var r' := Bumped(r, key, window, 0, true); key in r' && r'[key] == Counter(m + 1, Some(window))
  {}

  lemma BumpedOther(r: Redis, key: string, key': string, window: int)
    requires key != key'
    ensures var r' := Bumped(r, key', window, 0, true); (key in r' <==> key in r) && (key in r ==> r'[key] == r[key])
  {}

  /** In Redis the user's checks have a counter of their own. */
  lemma {:induction false} CrossedInRedis(p: Policy, other: string, shared: string, m: nat)
    requires p.window > 0 && other != shared
    ensures var r, key := RedisAfter(p, CrossedCalls(other, shared, m)), RedisKey(User, shared);
            (key in r <==> m > 0) && (m > 0 ==> r[key] == Counter(m, Some(p.window)))
  {
    hide RedisKey, Bumped;
    var key := RedisKey(User, shared);
    if m == 0 {
      var u := Call(User, other, 0);
      RedisKeyInjective(User, shared, Ip, shared);
      RedisKeyInjective(User, shared, User, other);
      RedisOne(p, [], u);
      assert [] + [u] == [u];
      RedisOne(p, [u], Call(Ip, shared, 0));
      BumpedOther(map[], key, RedisKey(User, other), p.window);
      BumpedOther(RedisAfter(p, [u]), key, RedisKey(Ip, shared), p.window);
    } else {
      CrossedInRedis(p, other, shared, m - 1);
      RedisOne(p, CrossedCalls(other, shared, m - 1), Call(User, shared, 0));
      BumpedOwn(RedisAfter(p, CrossedCalls(other, shared, m - 1)), key, p.window, m - 1);
    }
  }

  /** The two answers to a's next check. */
  lemma CrossedAnswers(p: Policy, other: string, shared: string, m: nat)
    requires p.window > 0 && other != shared && m + 1 <= p.limit(shared)
    ensures MemoryAllows(p, CrossedCalls(other, shared, m), Call(User, shared, 0)) <==> m + 1 < p.limit(shared)
    ensures RedisAllows(p, CrossedCalls(other, shared, m), Call(User, shared, 0))
  {
    var calls, c := CrossedCalls(other, shared, m), Call(User, shared, 0);
    CrossedTimes(other, shared, m);
    CallsMonotone(calls + [c]);
    CleanupInvisible(p, calls, c);
    CrossedInMemory(p, other, shared, m);
    CrossedInRedis(p, other, shared, m);
    hide MemoryAllows, CrossedCalls, Monotone, RedisAfter, PlainAfter, RedisKey;
  }

  ghost predicate CrossedSoFar(allows: (seq<Call>, Call) -> bool, a: Requester, b: Requester, m: nat) {
    Run(allows, Crossed(a, b, m)) == Progress(CrossedCalls(UserOf(b), IpOf(b), m), CrossedVerdicts(IpOf(a), m))
  }

  lemma FirstRequestGranted(allows: (seq<Call>, Call) -> bool, a: Requester, b: Requester)
    requires allows([], Call(User, UserOf(b), 0)) && allows([Call(User, UserOf(b), 0)], Call(Ip, IpOf(b), 0))
    ensures CrossedSoFar(allows, a, b, 0)
  {
    var first, second := Begin(0, b.userID, b.ip, b.action, 0), Finish(0, 0);
    RunOne(allows, [], first);
    assert [] + [first] == [first] && [] + [Call(User, UserOf(b), 0)] == [Call(User, UserOf(b), 0)];
    RunOne(allows, [first], second);
    assert map[0 := Waiting(IpOf(b))][0 := Granted] == map[0 := Granted];
  }

  lemma FreshCallsAllowed(p: Policy, other: string, shared: string)
    requires p.window > 0 && other != shared && p.limit(other) >= 1 && p.limit(shared) >= 1
    ensures MemoryAllows(p, [], Call(User, other, 0)) && MemoryAllows(p, [Call(User, other, 0)], Call(Ip, shared, 0))
    ensures RedisAllows(p, [], Call(User, other, 0)) && RedisAllows(p, [Call(User, other, 0)], Call(Ip, shared, 0))
  {
    var u, i := Call(User, other, 0), Call(Ip, shared, 0);
    RedisKeyInjective(User, other, Ip, shared);
    RedisOne(p, [], u);
    PlainOne(p, [], u);
    assert [] + [u] == [u];
    CallsMonotone([u] + [i]);
    CleanupInvisible(p, [u], i);
  }

  lemma OneMoreCheck(allows: (seq<Call>, Call) -> bool, a: Requester, b: Requester, m: nat)
    requires CrossedSoFar(allows, a, b, m) && UserOf(a) == IpOf(b)
    ensures var s := Run(allows, Crossed(a, b, m + 1));
            var ok := allows(CrossedCalls(UserOf(b), IpOf(b), m), Call(User, IpOf(b), 0));
            && (ok ==> CrossedSoFar(allows, a, b, m + 1))
            && m + 1 in s.verdicts && s.verdicts[m + 1] == if ok then Waiting(IpOf(a)) else Refused
  {
    hide Run;
    RunOne(allows, Crossed(a, b, m), Begin(m + 1, a.userID, a.ip, a.action, 0));
  }

  lemma {:induction false} EarlyChecksPass(p: Policy, a: Requester, b: Requester, m: nat)
    requires p.window > 0 && (forall bucket :: p.limit(bucket) >= 1)
    requires UserOf(a) == IpOf(b) && UserOf(b) != IpOf(b) && m + 1 <= p.limit(IpOf(b))
    ensures CrossedSoFar(InMemory(p), a, b, m) && CrossedSoFar(InRedis(p), a, b, m)
  {
    hide MemoryAllows, RedisAllows, CrossedSoFar, CrossedCalls, UserOf, IpOf;
    if m == 0 {
      FreshCallsAllowed(p, UserOf(b), IpOf(b));
      FirstRequestGranted(InMemory(p), a, b);
      FirstRequestGranted(InRedis(p), a, b);
    } else {
      EarlyChecksPass(p, a, b, m - 1);
      CrossedAnswers(p, UserOf(b), IpOf(b), m - 1);
      OneMoreCheck(InMemory(p), a, b, m - 1);
      OneMoreCheck(InRedis(p), a, b, m - 1);
    }
  }

  /** The limit-th check of a user after one request from an address of that name: Redis lets it pass, memory does not. */
  lemma CrossedBucketsPart(p: Policy, a: Requester, b: Requester)
    requires p.window > 0 && (forall bucket :: p.limit(bucket) >= 1)
    requires UserOf(a) == IpOf(b) && UserOf(b) != IpOf(b)
    ensures var l: nat := p.limit(IpOf(b));
            var m, r := Run(InMemory(p), Crossed(a, b, l)), Run(InRedis(p), Crossed(a, b, l));
            l in m.verdicts && m.verdicts[l] == Refused && l in r.verdicts && r.verdicts[l] == Waiting(IpOf(a))
  {
    var m: nat := p.limit(IpOf(b)) - 1;
    hide MemoryAllows, RedisAllows, CrossedSoFar, CrossedCalls, UserOf, IpOf, Run, Crossed;
    EarlyChecksPass(p, a, b, m);
    CrossedAnswers(p, UserOf(b), IpOf(b), m);
    OneMoreCheck(InMemory(p), a, b, m);
    OneMoreCheck(InRedis(p), a, b, m);
  }

  lemma {:induction false} CrossedInOrder(a: Requester, b: Requester, m: nat)
    ensures InOrder(Crossed(a, b, m)) && Over(Crossed(a, b, m), iset{a, b})
    ensures forall i :: 0 <= i < |Crossed(a, b, m)| ==> Crossed(a, b, m)[i].now == 0
  {
    if m > 0 {
      CrossedInOrder(a, b, m - 1);
    }
  }

  lemma {:induction false} RoundsInOrder(r: Requester, k: nat)
    ensures InOrder(Rounds(r.userID, r.ip, r.action, k)) && Over(Rounds(r.userID, r.ip, r.action, k), iset{r})
    ensures forall i :: 0 <= i < |Rounds(r.userID, r.ip, r.action, k)| ==> Rounds(r.userID, r.ip, r.action, k)[i].now == 0
  {
    if k > 0 {
      RoundsInOrder(r, k - 1);
    }
  }

  lemma OverMore(turns: seq<Turn>, some: iset<Requester>, requesters: iset<Requester>)
    requires Over(turns, some) && some <= requesters
    ensures Over(turns, requesters)
  {}

  ghost predicate AgreeOver(p: Policy, requesters: iset<Requester>) {
    forall turns :: Over(turns, requesters) && InOrder(turns) ==> Run(InMemory(p), turns) == Run(InRedis(p), turns)
  }

  lemma CrossingDisagrees(p: Policy, requesters: iset<Requester>, a: Requester, b: Requester)
    requires p.window > 0 && (forall bucket :: p.limit(bucket) >= 1)
    requires a in requesters && b in requesters && UserOf(a) == IpOf(b)
    ensures !AgreeOver(p, requesters)
  {
    hide Run, Over, InOrder, Rounds, Crossed, InMemory, InRedis;
    if UserOf(b) == IpOf(b) {
      var k: nat := p.limit(UserOf(b)) / 2;
      SharedBucketParts(p, b.userID, b.ip, b.action);
      RoundsInOrder(b, k + 1);
      OverMore(Rounds(b.userID, b.ip, b.action, k + 1), iset{b}, requesters);
    } else {
      CrossedBucketsPart(p, a, b);
      CrossedInOrder(a, b, p.limit(IpOf(b)));
      OverMore(Crossed(a, b, p.limit(IpOf(b))), iset{a, b}, requesters);
    }
  }

  /**
   * Whoever the requesters are, the backends give all their requests the same verdicts over all runs
   * exactly when no user bucket of theirs is also an address bucket of theirs.
   */
  lemma SharedBucketIff(p: Policy, requesters: iset<Requester>)
    requires p.window > 0 && (forall bucket :: p.limit(bucket) >= 1)
    ensures AgreeOver(p, requesters) <==> NoneCross(requesters)
  {
    hide Run, InMemory, InRedis, Over, InOrder, SeparateBuckets;
    if NoneCross(requesters) {
      forall turns | Over(turns, requesters) && InOrder(turns)
        ensures Run(InMemory(p), turns) == Run(InRedis(p), turns)
      {
        NoneCrossSeparates(turns, requesters);
        RequestsAgree(p, turns);
      }
    } else {
      var a, b :| a in requesters && b in requesters && UserOf(a) == IpOf(b);
      CrossingDisagrees(p, requesters, a, b);
    }
  }

  lemma SameBucketSameName(userID: string, ip: string, action: string)
    ensures userID + ":" + action == ip + ":" + action <==> userID == ip
  {
    var u, i := userID + ":" + action, ip + ":" + action;
    if u == i {
      assert |userID| == |ip|;
      assert u[..|userID|] == userID && i[..|ip|] == ip;
    }
  }

  /** For one requester: exactly when the user's name is not the address. */
  lemma SharedNameIff(p: Policy, r: Requester)
    requires p.window > 0 && (forall bucket :: p.limit(bucket) >= 1)
    ensures AgreeOver(p, iset{r}) <==> r.userID != r.ip
  {
    hide AgreeOver;
    SharedBucketIff(p, iset{r});
    SameBucketSameName(r.userID, r.ip, r.action);
    assert r in iset{r};
  }
}
