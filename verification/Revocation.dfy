/** Session tokens: issued with an expiry, revoked in the table and then in Redis. */
module Revocation {
  import opened GoStrings
  import opened Outcomes

  // Times are in nanoseconds.
  const MICROSECOND := 1_000
  const SECOND := 1_000_000_000
  const MINUTE := 60 * SECOND

  /** The last multiple of `unit` not after t. */
  function Floor(t: int, unit: int): int
    requires unit > 0
  {
    t - t % unit
  }

  /** `exp` in the signed token counts whole seconds. */
  datatype Claims = Claims(subject: string, issuer: string, jti: string, exp: int)

  /** The columns of `user_tokens` that revocation reads; `expiresAt` is kept to the microsecond. */
  datatype TokenRow = TokenRow(owner: string, jti: string, expiresAt: int, revoked: bool)

  /** Redis holds a revoked token's key until, but not at, the instant given. */
  datatype State = State(rows: map<string, TokenRow>, revoked: map<string, int>)

  /** `tick` is the unit the Redis client rounds a lifetime down to: one nanosecond when it does not. */
  datatype Config = Config(issuer: string, lifetime: int, useRedis: bool, tick: int)

  datatype RevokeOutcome = Revoked | TokenNotFound | RevokeUnavailable

  function Expiry(now: int, lifetime: int): int {
    now + if lifetime <= 0 then 24 * 60 * MINUTE else lifetime
  }

  function Issued(subject: string, issuer: string, jti: string, now: int, lifetime: int): Claims {
    Claims(subject, issuer, jti, Floor(Expiry(now, lifetime), SECOND))
  }

  function IssuedRow(subject: string, jti: string, now: int, lifetime: int): TokenRow {
    TokenRow(subject, jti, Floor(Expiry(now, lifetime), MICROSECOND), false)
  }

  /** What Redis still knows of the token at `now`. */
  predicate KnownRevoked(revoked: map<string, int>, jti: string, now: int) {
    jti in revoked && now < revoked[jti]
  }

  /** The middleware lets a correctly signed token through; a failed EXISTS counts as not revoked. */
  predicate Accepted(config: Config, s: State, c: Claims, now: int, existsOk: bool) {
    && now < c.exp
    && c.subject != "" && c.issuer == config.issuer
    && !(c.jti != "" && config.useRedis && existsOk && KnownRevoked(s.revoked, c.jti, now))
  }

  /** Two instants of one revocation: the lifetime is computed at `until`, the key set at `setAt`. */
  datatype Clock = Clock(until: int, setAt: int)

  /** The lifetime the Redis client sends: whole ticks, and one at least. */
  function Rounded(ttl: int, tick: int): int
    requires tick > 0
  {
    if 0 < ttl < tick then tick else Floor(ttl, tick)
  }

  function RevokedUntil(config: Config, expiresAt: int, clock: Clock): int
    requires config.tick > 0
  {
    clock.setAt + Rounded(if expiresAt - clock.until <= 0 then MINUTE else expiresAt - clock.until, config.tick)
  }

  /** The row `UPDATE … WHERE id = $1 AND user_id = $2 AND revoked_at IS NULL` finds. */
  predicate Revocable(rows: map<string, TokenRow>, userId: string, tokenId: string) {
    tokenId in rows && rows[tokenId].owner == userId && !rows[tokenId].revoked
  }

  datatype Event =
    | Issue(subject: string, jti: string, rowId: string, now: int, insert: Effect)
    | Revoke(userId: string, tokenId: string, clock: Clock, update: Effect, put: Effect)

  /** Row ids and token ids are fresh. */
  ghost predicate Possible(s: State, e: Event) {
    e.Issue? ==> e.rowId !in s.rows && e.jti !in s.revoked && forall id :: id in s.rows ==> s.rows[id].jti != e.jti
  }

  predicate KeySet(config: Config, s: State, e: Event) {
    e.Revoke? && e.update == Done && e.put != NotDone && config.useRedis &&
    Revocable(s.rows, e.userId, e.tokenId) && s.rows[e.tokenId].jti != ""
  }

  function Step(config: Config, s: State, e: Event): State
    requires config.tick > 0
  {
    match e
    case Issue(subject, jti, rowId, now, insert) =>
      if insert == NotDone then s else s.(rows := s.rows[rowId := IssuedRow(subject, jti, now, config.lifetime)])
    case Revoke(userId, tokenId, clock, update, put) =>
      State(if update != NotDone && Revocable(s.rows, userId, tokenId) then
              s.rows[tokenId := s.rows[tokenId].(revoked := true)]
            else s.rows,
            if KeySet(config, s, e) then
              s.revoked[s.rows[tokenId].jti := RevokedUntil(config, s.rows[tokenId].expiresAt, clock)]
            else s.revoked)
  }

  lemma FloorSecond(t: int)
    ensures Floor(t, SECOND) % SECOND == 0 && Floor(t, SECOND) <= t < Floor(t, SECOND) + SECOND
  {
    assert Floor(t, SECOND) == SECOND * (t / SECOND);
  }

  lemma FloorMicrosecond(t: int)
    ensures Floor(t, MICROSECOND) % MICROSECOND == 0 && Floor(t, MICROSECOND) <= t < Floor(t, MICROSECOND) + MICROSECOND
  {
    assert Floor(t, MICROSECOND) == MICROSECOND * (t / MICROSECOND);
  }

  class AuthService {
    const config: Config
    var state: State

    constructor (config: Config)
      ensures this.config == config && state == State(map[], map[])
    {
      this.config := config;
      state := State(map[], map[]);
    }

    /** `issueToken` and `InsertUserToken`: the new row's id is `rowId`. */
    method IssueToken(subject: string, jti: string, rowId: string, now: int, insert: Effect) returns (claims: Claims)
      requires config.tick > 0
      modifies this
      ensures claims == Issued(subject, config.issuer, jti, now, config.lifetime)
      ensures state == Step(config, old(state), Issue(subject, jti, rowId, now, insert))
      ensures state.revoked == old(state).revoked && state.rows - {rowId} == old(state).rows - {rowId}
      ensures insert == NotDone ==> state == old(state)
      ensures claims.subject == subject && claims.issuer == config.issuer && claims.jti == jti
      ensures var expiry := now + if config.lifetime <= 0 then 86_400_000_000_000 else config.lifetime;
              && claims.exp % 1_000_000_000 == 0 && claims.exp <= expiry < claims.exp + 1_000_000_000
              && (insert != NotDone ==>
                    && rowId in state.rows && state.rows[rowId].owner == subject && state.rows[rowId].jti == jti
                    && !state.rows[rowId].revoked && state.rows[rowId].expiresAt % 1_000 == 0
                    && state.rows[rowId].expiresAt <= expiry < state.rows[rowId].expiresAt + 1_000)
    {
      hide Floor;
      var lifetime := config.lifetime;
      if lifetime <= 0 {
        lifetime := 24 * 60 * MINUTE;
      }
      var expiry := now + lifetime;
      FloorSecond(expiry);
      FloorMicrosecond(expiry);
      claims := Claims(subject, config.issuer, jti, Floor(expiry, SECOND));
      if insert != NotDone {
        state := state.(rows := state.rows[rowId := TokenRow(subject, jti, Floor(expiry, MICROSECOND), false)]);
      }
    }

    method DeleteToken(userId: string, tokenId: string, clock: Clock, update: Effect, put: Effect) returns (result: RevokeOutcome)
      requires config.tick > 0
      modifies this
      ensures state == Step(config, old(state), Revoke(userId, tokenId, clock, update, put))
      ensures var rows := old(state).rows;
              var found := tokenId in rows && rows[tokenId].owner == userId && !rows[tokenId].revoked;
              && (result == Revoked <==> update == Done && found)
              && (result == TokenNotFound <==> update == Done && !found)
              && state.rows == (if found && update != NotDone then rows[tokenId := rows[tokenId].(revoked := true)] else rows)
              && (!found || update != Done || put == NotDone || !config.useRedis || rows[tokenId].jti == "" ==>
                    state.revoked == old(state).revoked)
              && (found && update == Done && put != NotDone && config.useRedis && rows[tokenId].jti != "" ==>
                    var row := rows[tokenId];
                    state.revoked == old(state).revoked[row.jti := RevokedUntil(config, row.expiresAt, clock)])
    {
      var found := Revocable(state.rows, userId, tokenId);
      if update != NotDone && found {
        state := state.(rows := state.rows[tokenId := state.rows[tokenId].(revoked := true)]);
      }
      if update != Done {
        return RevokeUnavailable;
      }
      if !found {
        return TokenNotFound;
      }
      var row := state.rows[tokenId];
      if config.useRedis && row.jti != "" {
        var ttl := row.expiresAt - clock.until;
        if ttl <= 0 {
          ttl := MINUTE;
        }
        if put != NotDone {
          state := state.(revoked := state.revoked[row.jti := clock.setAt + Rounded(ttl, config.tick)]);
        }
      }
      return Revoked;
    }

    method Authenticate(c: Claims, now: int, existsOk: bool) returns (ok: bool)
      ensures ok <==> Accepted(config, state, c, now, existsOk)
      ensures var knownRevoked := config.useRedis && existsOk && c.jti != "" && c.jti in state.revoked && now < state.revoked[c.jti];
              ok <==> now < c.exp && c.subject != "" && c.issuer == config.issuer && !knownRevoked
    {
      if now >= c.exp {
        return false;
      }
      if c.subject == "" || c.issuer != config.issuer {
        return false;
      }
      if c.jti != "" && config.useRedis && existsOk && KnownRevoked(state.revoked, c.jti, now) {
        return false;
      }
      return true;
    }
  }

  // Runs

  function After(config: Config, s: State, h: seq<Event>): State
    requires config.tick > 0
  {
    if h == [] then s else Step(config, After(config, s, h[..|h| - 1]), h[|h| - 1])
  }

  /** Every event of the run finds its ids fresh. */
  ghost predicate Feasible(config: Config, s: State, h: seq<Event>)
    requires config.tick > 0
  {
    forall i :: 0 <= i < |h| ==> Possible(After(config, s, h[..i]), h[i])
  }

  lemma FeasibleInit(config: Config, s: State, h: seq<Event>)
    requires config.tick > 0 && h != [] && Feasible(config, s, h)
    ensures Feasible(config, s, h[..|h| - 1])
    ensures Possible(After(config, s, h[..|h| - 1]), h[|h| - 1])
  {
    hide After, Possible;
    var init := h[..|h| - 1];
    forall i | 0 <= i < |init|
      ensures Possible(After(config, s, init[..i]), init[i])
    {
      assert init[..i] == h[..i];
    }
  }

  /** A call by anyone but the row's owner, or for a row that is not there, changes nothing. */
  lemma OthersRevokeNothing(config: Config, s: State, e: Event)
    requires config.tick > 0 && e.Revoke? && !(e.tokenId in s.rows && s.rows[e.tokenId].owner == e.userId)
    ensures Step(config, s, e) == s
  {}

  lemma StepRevokes(config: Config, s: State, e: Event, rowId: string)
    requires config.tick > 0 && rowId in Step(config, s, e).rows && Step(config, s, e).rows[rowId].revoked
    requires !(rowId in s.rows && s.rows[rowId].revoked)
    ensures e.Revoke? && e.tokenId == rowId && e.update != NotDone && rowId in s.rows && e.userId == s.rows[rowId].owner
  {
    hide RevokedUntil, Expiry, Floor;
  }

  lemma StepKeepsOwner(config: Config, s: State, e: Event, rowId: string)
    requires config.tick > 0 && Possible(s, e) && rowId in s.rows
    ensures rowId in Step(config, s, e).rows && Step(config, s, e).rows[rowId].owner == s.rows[rowId].owner
  {
    hide RevokedUntil, Expiry, Floor;
  }

  const NOTHING := State(map[], map[])

  /** Over every run a row becomes revoked only by a call of the user it was issued to. */
  lemma {:induction false} RevokedByOwner(config: Config, h: seq<Event>, rowId: string) returns (i: nat)
    requires config.tick > 0 && Feasible(config, NOTHING, h)
    requires rowId in After(config, NOTHING, h).rows && After(config, NOTHING, h).rows[rowId].revoked
    ensures i < |h| && h[i].Revoke? && h[i].tokenId == rowId && h[i].update != NotDone
    ensures h[i].userId == After(config, NOTHING, h).rows[rowId].owner
  {
    hide Step, Possible, Feasible;
    i := 0;
    if h != [] {
      var init, e := h[..|h| - 1], h[|h| - 1];
      var was := After(config, NOTHING, init);
      FeasibleInit(config, NOTHING, h);
      if rowId in was.rows && was.rows[rowId].revoked {
        i := RevokedByOwner(config, init, rowId);
        StepKeepsOwner(config, was, e, rowId);
      } else {
        i := |h| - 1;
        StepRevokes(config, was, e, rowId);
        StepKeepsOwner(config, was, e, rowId);
      }
    }
  }

  lemma {:induction false} OwnedByIssue(config: Config, h: seq<Event>, rowId: string) returns (i: nat)
    requires config.tick > 0 && Feasible(config, NOTHING, h) && rowId in After(config, NOTHING, h).rows
    ensures i < |h| && h[i].Issue? && h[i].rowId == rowId && h[i].subject == After(config, NOTHING, h).rows[rowId].owner
  {
    hide Possible, Feasible, RevokedUntil, Expiry, Floor, KeySet;
    i := 0;
    if h != [] {
      var init, e := h[..|h| - 1], h[|h| - 1];
      FeasibleInit(config, NOTHING, h);
      if rowId in After(config, NOTHING, init).rows {
        i := OwnedByIssue(config, init, rowId);
        StepKeepsOwner(config, After(config, NOTHING, init), e, rowId);
      } else {
        i := |h| - 1;
      }
    }
  }

  /** The client sends the number of whole ticks in a positive lifetime, and one when there is none. */
  lemma WholeTicks(ttl: int, tick: int)
    requires tick > 0 && ttl > 0
    ensures Rounded(ttl, tick) == tick * if ttl < tick then 1 else ttl / tick
  {}

  /** The revocation key lives as long as the row still had to, and a minute when that is over. */
  lemma KeyLifetime(config: Config, expiresAt: int, clock: Clock)
    requires config.tick == 1
    ensures RevokedUntil(config, expiresAt, clock) ==
            clock.setAt + if expiresAt <= clock.until then 60_000_000_000 else expiresAt - clock.until
  {}

  /** The token has this row, revoked or not, and no other row shares its id. */
  ghost predicate Holds(s: State, rowId: string, row: TokenRow) {
    && rowId in s.rows && s.rows[rowId].(revoked := row.revoked) == row
    && forall id :: id in s.rows && id != rowId ==> s.rows[id].jti != row.jti
  }

  function Key(s: State, jti: string): Option<int> {
    if jti in s.revoked then Some(s.revoked[jti]) else None
  }

  lemma StepKeepsRow(config: Config, s: State, e: Event, rowId: string, row: TokenRow)
    requires config.tick > 0 && Possible(s, e) && Holds(s, rowId, row)
    ensures Holds(Step(config, s, e), rowId, row)
    ensures s.rows[rowId].revoked ==> Step(config, s, e).rows[rowId].revoked
  {
    hide RevokedUntil, KeySet, Floor, Expiry;
  }

  lemma StepKeepsKey(config: Config, s: State, e: Event, rowId: string, row: TokenRow)
    requires config.tick > 0 && Possible(s, e) && Holds(s, rowId, row)
    requires s.rows[rowId].revoked || !Step(config, s, e).rows[rowId].revoked
    ensures Key(Step(config, s, e), row.jti) == Key(s, row.jti)
  {
    hide RevokedUntil, Floor, Expiry;
  }

  lemma {:induction false} RunKeepsRow(config: Config, s: State, h: seq<Event>, rowId: string, row: TokenRow)
    requires config.tick > 0 && Feasible(config, s, h) && Holds(s, rowId, row)
    ensures Holds(After(config, s, h), rowId, row)
    ensures s.rows[rowId].revoked ==> After(config, s, h).rows[rowId].revoked
    ensures s.rows[rowId].revoked || !After(config, s, h).rows[rowId].revoked ==>
            Key(After(config, s, h), row.jti) == Key(s, row.jti)
  {
    hide Feasible, Possible, Step, Key;
    if h != [] {
      var was, e := After(config, s, h[..|h| - 1]), h[|h| - 1];
      FeasibleInit(config, s, h);
      RunKeepsRow(config, s, h[..|h| - 1], rowId, row);
      StepKeepsRow(config, was, e, rowId, row);
      if was.rows[rowId].revoked || !Step(config, was, e).rows[rowId].revoked {
        StepKeepsKey(config, was, e, rowId, row);
      }
    }
  }

  lemma FloorBelow(t: int, unit: int)
    requires unit > 0
    ensures t - unit < Floor(t, unit) <= t
  {}

  lemma WholeSecondsFirst(t: int)
    ensures Floor(t, SECOND) <= Floor(t, MICROSECOND)
  {}

  /** The row of a token just issued is there, alone with its id, and Redis does not know it. */
  lemma IssuedHolds(config: Config, s: State, e: Event)
    requires config.tick > 0 && Possible(s, e) && e.Issue? && e.insert != NotDone
    ensures Holds(Step(config, s, e), e.rowId, IssuedRow(e.subject, e.jti, e.now, config.lifetime))
    ensures Key(Step(config, s, e), e.jti) == None && !Step(config, s, e).rows[e.rowId].revoked
  {
    hide Floor, Expiry;
  }

  /** What the revocation leaves in Redis, given the row it found. */
  lemma RevokeSetsKey(config: Config, s: State, e: Event, row: TokenRow)
    requires config.tick > 0 && e.Revoke? && e.update != NotDone && Holds(s, e.tokenId, row) && Revocable(s.rows, e.userId, e.tokenId)
    ensures Holds(Step(config, s, e), e.tokenId, row) && Step(config, s, e).rows[e.tokenId].revoked
    ensures Key(Step(config, s, e), row.jti) == if KeySet(config, s, e) then Some(RevokedUntil(config, row.expiresAt, e.clock)) else Key(s, row.jti)
  {
    hide RevokedUntil;
  }

  /** A key set in time outlives the token, but for less than the client's rounding; without rounding, always. */
  lemma KeyOutlivesToken(config: Config, issue: Event, clock: Clock, now: int)
    requires config.tick > 0 && issue.Issue? && clock.until <= clock.setAt <= now
    requires now < Issued(issue.subject, config.issuer, issue.jti, issue.now, config.lifetime).exp - (config.tick - 1)
    ensures now < RevokedUntil(config, IssuedRow(issue.subject, issue.jti, issue.now, config.lifetime).expiresAt, clock)
  {
    var t := Expiry(issue.now, config.lifetime);
    WholeSecondsFirst(t);
    FloorBelow(Floor(t, MICROSECOND) - clock.until, config.tick);
    hide Floor, Expiry;
  }

  /**
   * A client that rounds to milliseconds leaves a gap: a token of one hour, issued half a millisecond
   * past a full second and revoked 1.0001 seconds later, is known as revoked until 0.4 ms before it
   * expires, and accepted again from then on.
   */
  lemma MillisecondClientLeavesGap(config: Config, issue: Event, clock: Clock)
    requires config.tick == 1_000_000 && config.lifetime == 3600 * SECOND
    requires issue.Issue? && issue.now == 500_000 && clock.until == clock.setAt == SECOND + 600_000
    ensures var row := IssuedRow(issue.subject, issue.jti, issue.now, config.lifetime);
            RevokedUntil(config, row.expiresAt, clock) ==
            Issued(issue.subject, config.issuer, issue.jti, issue.now, config.lifetime).exp - 400_000
  {}

  lemma HoldsJti(s: State, rowId: string, row: TokenRow)
    requires Holds(s, rowId, row)
    ensures rowId in s.rows && s.rows[rowId].jti == row.jti
  {}

  /**
   * Revocation over every run. A token is issued and stored; anything may happen; its row is then
   * revoked; anything may happen again. From the moment the key is set the middleware accepts the
   * token exactly while it is unexpired and there is no Redis, the statement's answer or the SET was
   * lost, the lookup fails now, or the key's own lifetime, as the client rounded it, is over. No later
   * call repairs a lost SET.
   */
  lemma RevokedTokenAcceptedIff(config: Config, s: State, issue: Event, mid: seq<Event>, revoke: Event, rest: seq<Event>,
                                now: int, existsOk: bool)
    requires config.tick > 0 && Possible(s, issue) && issue.Issue? && issue.insert != NotDone
    requires issue.subject != "" && issue.jti != ""
    requires Feasible(config, Step(config, s, issue), mid)
    requires var found := After(config, Step(config, s, issue), mid);
             && revoke.Revoke? && revoke.tokenId == issue.rowId && revoke.update != NotDone
             && Revocable(found.rows, revoke.userId, issue.rowId)
             && Feasible(config, Step(config, found, revoke), rest)
    requires revoke.clock.setAt <= now
    ensures var c := Issued(issue.subject, config.issuer, issue.jti, issue.now, config.lifetime);
            var row := IssuedRow(issue.subject, issue.jti, issue.now, config.lifetime);
            var last := After(config, Step(config, After(config, Step(config, s, issue), mid), revoke), rest);
            Accepted(config, last, c, now, existsOk) <==>
            now < c.exp && (!config.useRedis || revoke.update != Done || revoke.put == NotDone || !existsOk
                            || RevokedUntil(config, row.expiresAt, revoke.clock) <= now)
  {
    hide After, Step, Possible, Feasible, Holds, Floor, Expiry, RevokedUntil;
    var row := IssuedRow(issue.subject, issue.jti, issue.now, config.lifetime);
    var stored := Step(config, s, issue);
    IssuedHolds(config, s, issue);
    RunKeepsRow(config, stored, mid, issue.rowId, row);
    var found := After(config, stored, mid);
    RevokeSetsKey(config, found, revoke, row);
    RunKeepsRow(config, Step(config, found, revoke), rest, issue.rowId, row);
    HoldsJti(found, issue.rowId, row);
  }

  /** With a client that does not round, the key's lifetime is never the reason: revocation leaves no gap. */
  lemma RevocationLeavesNoGap(config: Config, s: State, issue: Event, mid: seq<Event>, revoke: Event, rest: seq<Event>,
                              now: int, existsOk: bool)
    requires config.tick == 1 && Possible(s, issue) && issue.Issue? && issue.insert != NotDone
    requires issue.subject != "" && issue.jti != ""
    requires Feasible(config, Step(config, s, issue), mid)
    requires var found := After(config, Step(config, s, issue), mid);
             && revoke.Revoke? && revoke.tokenId == issue.rowId && revoke.update != NotDone
             && Revocable(found.rows, revoke.userId, issue.rowId)
             && Feasible(config, Step(config, found, revoke), rest)
    requires revoke.clock.until <= revoke.clock.setAt <= now
    ensures var c := Issued(issue.subject, config.issuer, issue.jti, issue.now, config.lifetime);
            var last := After(config, Step(config, After(config, Step(config, s, issue), mid), revoke), rest);
            Accepted(config, last, c, now, existsOk) <==>
            now < c.exp && (!config.useRedis || revoke.update != Done || revoke.put == NotDone || !existsOk)
  {
    hide After, Step, Possible, Feasible, Accepted, Floor, Expiry, RevokedUntil;
    RevokedTokenAcceptedIff(config, s, issue, mid, revoke, rest, now, existsOk);
    if now < Issued(issue.subject, config.issuer, issue.jti, issue.now, config.lifetime).exp {
      KeyOutlivesToken(config, issue, revoke.clock, now);
    }
  }
}
