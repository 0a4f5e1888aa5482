/** Temporary share links, kept in Redis or, without Redis, in the process. */
module ShareLinks {
  import opened GoStrings
  import opened Outcomes
  import opened ObjectPaths
  import opened ObjectTable

  // Times are in nanoseconds.
  const MINUTE := 60_000_000_000
  const DAY := 24 * 60 * MINUTE

  datatype Payload = Payload(k: RawKey, expiresAt: int)

  datatype Links = Links(fallback: map<string, Payload>, redis: map<string, Expiring<Payload>>)

  /** A link lives for what was asked for, a quarter of an hour when that is not positive, a day at most. */
  function Lifetime(ttl: int): (t: int)
    ensures ttl <= 0 ==> t == 900_000_000_000
    ensures 0 < ttl <= 86_400_000_000_000 ==> t == ttl
    ensures ttl > 86_400_000_000_000 ==> t == 86_400_000_000_000
  {
    if ttl <= 0 then 15 * MINUTE else if ttl > DAY then DAY else ttl
  }

  /** What the token stands for at `now`: `time.Now().After(ExpiresAt)` in memory, presence in Redis. */
  function Resolved(links: Links, useRedis: bool, token: string, now: int): Option<Payload> {
    if useRedis then
      var entry := Lookup(links.redis, token, now);
      if entry.Some? then Some(entry.value.value) else None
    else
      if token in links.fallback && !(now > links.fallback[token].expiresAt) then Some(links.fallback[token]) else None
  }

  datatype LinkError = LinkNotFound | LinkForbidden | LinkInvalidKey | LinkRepository

  datatype Created = NoLink(error: LinkError) | Link(token: string, expiresAt: int)

  datatype Opened = NotOpened(error: LinkError) | Opened(k: RawKey, record: Record)

  /** A creation whose row lookup was answered: at `now` the link is made, at `setAt` Redis stores it. */
  datatype Creation = Creation(owner: string, objectKey: string, ttl: int, now: int, setAt: int, token: string,
                               row: Option<Record>, findOk: bool, setOk: bool)

  predicate Makes(c: Creation) {
    TrimSpace(c.objectKey) != "" && c.findOk && c.row.Some? && c.row.value.visibility == Visible
  }

  function MadePayload(c: Creation): Payload {
    Payload(RawKey(c.owner, TrimSpace(c.objectKey)), c.now + Lifetime(c.ttl))
  }

  function AfterCreation(links: Links, useRedis: bool, c: Creation): Links {
    if !Makes(c) then links
    else if !useRedis then links.(fallback := links.fallback[c.token := MadePayload(c)])
    else if c.setOk then links.(redis := links.redis[c.token := Expiring(MadePayload(c), c.setAt + Lifetime(c.ttl))])
    else links
  }

  class ShareService {
    const useRedis: bool
    var links: Links

    constructor (useRedis: bool)
      ensures this.useRedis == useRedis && links == Links(map[], map[])
    {
      this.useRedis := useRedis;
      links := Links(map[], map[]);
    }

    method CreateTemporaryShareLink(c: Creation) returns (result: Created)
      modifies this
      ensures links == AfterCreation(old(links), useRedis, c)
      ensures result == NoLink(LinkInvalidKey) <==> TrimSpace(c.objectKey) == ""
      ensures TrimSpace(c.objectKey) != "" ==>
                && (result == NoLink(LinkRepository) <==> !c.findOk)
                && (result == NoLink(LinkNotFound) <==> c.findOk && c.row.None?)
                && (result == NoLink(LinkForbidden) <==> c.findOk && c.row.Some? && c.row.value.visibility == Hidden)
                && (result.Link? <==> c.findOk && c.row.Some? && c.row.value.visibility == Visible)
      ensures result.Link? ==> result.token == c.token && result.expiresAt == c.now + Lifetime(c.ttl)
      ensures result.Link? && !useRedis ==>
                c.token in links.fallback && links.fallback[c.token] == Payload(RawKey(c.owner, TrimSpace(c.objectKey)), result.expiresAt)
      ensures result.Link? && useRedis && c.setOk ==>
                c.token in links.redis && links.redis[c.token].value == Payload(RawKey(c.owner, TrimSpace(c.objectKey)), result.expiresAt)
    {
      hide TrimSpace;
      var ttl := c.ttl;
      if ttl <= 0 {
        ttl := 15 * MINUTE;
      }
      if ttl > DAY {
        ttl := DAY;
      }
      var objectKey := TrimSpace(c.objectKey);
      if objectKey == "" {
        return NoLink(LinkInvalidKey);
      }
      if !c.findOk {
        return NoLink(LinkRepository);
      }
      if c.row.None? {
        return NoLink(LinkNotFound);
      }
      if c.row.value.visibility != Visible {
        return NoLink(LinkForbidden);
      }
      var payload := Payload(RawKey(c.owner, objectKey), c.now + ttl);
      if useRedis {
        if c.setOk {
          links := links.(redis := links.redis[c.token := Expiring(payload, c.setAt + ttl)]);
        }
      } else {
        links := links.(fallback := links.fallback[c.token := payload]);
      }
      return Link(c.token, payload.expiresAt);
    }

    /** The part of `DownloadByShareToken` before the nodes are read. */
    method OpenShareToken(rawToken: string, now: int, rows: Rows, getOk: bool, findOk: bool) returns (result: Opened)
      ensures result == Opening(links, useRedis, rawToken, now, rows, getOk, findOk)
      ensures result == NotOpened(LinkInvalidKey) <==> TrimSpace(rawToken) == ""
      ensures var entry := Resolved(links, useRedis, TrimSpace(rawToken), now);
              var known := TrimSpace(rawToken) != "" && (useRedis ==> getOk) && entry.Some?;
              && (result == NotOpened(LinkRepository) <==> known && !findOk)
              && (result == NotOpened(LinkForbidden) <==>
                  known && findOk && entry.value.k in rows && rows[entry.value.k].visibility == Hidden)
              && (result.Opened? <==> known && findOk && entry.value.k in rows && rows[entry.value.k].visibility == Visible)
      ensures result.Opened? ==> result.k in rows && result.record == rows[result.k]
    {
      hide TrimSpace, Resolved;
      var token := TrimSpace(rawToken);
      if token == "" {
        return NotOpened(LinkInvalidKey);
      }
      if useRedis && !getOk {
        return NotOpened(LinkNotFound);
      }
      var entry := Resolved(links, useRedis, token, now);
      if entry.None? {
        return NotOpened(LinkNotFound);
      }
      if !findOk {
        return NotOpened(LinkRepository);
      }
      var k := entry.value.k;
      if k !in rows {
        return NotOpened(LinkNotFound);
      }
      if rows[k].visibility != Visible {
        return NotOpened(LinkForbidden);
      }
      return Opened(k, rows[k]);
    }
  }

  /** What a token opens: the object of the link, if it has a row and the row is visible now. */
  function Opening(links: Links, useRedis: bool, rawToken: string, now: int, rows: Rows, getOk: bool, findOk: bool): Opened {
    var token := TrimSpace(rawToken);
    var entry := Resolved(links, useRedis, token, now);
    if token == "" then NotOpened(LinkInvalidKey)
    else if (useRedis && !getOk) || entry.None? then NotOpened(LinkNotFound)
    else if !findOk then NotOpened(LinkRepository)
    else
      var k := entry.value.k;
      if k !in rows then NotOpened(LinkNotFound)
      else if rows[k].visibility != Visible then NotOpened(LinkForbidden)
      else Opened(k, rows[k])
  }

  // Runs

  function LinksAfter(useRedis: bool, h: seq<Creation>): Links {
    if h == [] then Links(map[], map[]) else AfterCreation(LinksAfter(useRedis, h[..|h| - 1]), useRedis, h[|h| - 1])
  }

  /**
   * Safety over runs: a token resolves only to an object some creation that succeeded with that
   * token named, whose row was visible then, and no later than a day after the link was stored.
   */
  lemma {:induction false} ResolvedWasIssued(useRedis: bool, h: seq<Creation>, token: string, now: int)
    requires Resolved(LinksAfter(useRedis, h), useRedis, token, now).Some?
    ensures exists i :: 0 <= i < |h| && Makes(h[i]) && h[i].token == token &&
              Resolved(LinksAfter(useRedis, h), useRedis, token, now) == Some(MadePayload(h[i])) &&
              now - (if useRedis then h[i].setAt else h[i].now) <= DAY
  {
    var last := |h| - 1;
    if Makes(h[last]) && h[last].token == token && (useRedis ==> h[last].setOk) {
      assert Resolved(LinksAfter(useRedis, h), useRedis, token, now) == Some(MadePayload(h[last]));
    } else {
      ResolvedWasIssued(useRedis, h[..last], token, now);
      var i :| 0 <= i < last && Makes(h[..last][i]) && h[..last][i].token == token &&
               Resolved(LinksAfter(useRedis, h[..last]), useRedis, token, now) == Some(MadePayload(h[..last][i])) &&
               now - (if useRedis then h[..last][i].setAt else h[..last][i].now) <= DAY;
      assert h[..last][i] == h[i];
    }
  }

  /** Tokens are not reused. */
  predicate FreshTokens(h: seq<Creation>) {
    forall i, j :: 0 <= i < j < |h| ==> h[i].token != h[j].token
  }

  function Stores(useRedis: bool, links: Links, t: string): Option<Expiring<Payload>> {
    if useRedis then if t in links.redis then Some(links.redis[t]) else None
    else if t in links.fallback then Some(Expiring(links.fallback[t], links.fallback[t].expiresAt)) else None
  }

  function MadeEntry(useRedis: bool, c: Creation): Expiring<Payload> {
    Expiring(MadePayload(c), if useRedis then c.setAt + Lifetime(c.ttl) else MadePayload(c).expiresAt)
  }

  lemma OtherTokensStay(useRedis: bool, links: Links, c: Creation, t: string)
    requires c.token != t
    ensures Stores(useRedis, AfterCreation(links, useRedis, c), t) == Stores(useRedis, links, t)
  {
    hide MadePayload, Makes, Lifetime;
  }

  lemma OwnTokenIsStored(useRedis: bool, links: Links, c: Creation)
    requires Makes(c) && (useRedis ==> c.setOk)
    ensures Stores(useRedis, AfterCreation(links, useRedis, c), c.token) == Some(MadeEntry(useRedis, c))
  {
    hide MadePayload, Makes, Lifetime;
  }

  lemma {:induction false} LinkOfCreation(useRedis: bool, h: seq<Creation>, i: nat)
    requires i < |h| && FreshTokens(h) && Makes(h[i]) && (useRedis ==> h[i].setOk)
    ensures Stores(useRedis, LinksAfter(useRedis, h), h[i].token) == Some(MadeEntry(useRedis, h[i]))
  {
    hide MadeEntry, Stores, AfterCreation, Makes;
    var last := |h| - 1;
    var was := LinksAfter(useRedis, h[..last]);
    if i < last {
      assert h[..last][i] == h[i];
      LinkOfCreation(useRedis, h[..last], i);
      OtherTokensStay(useRedis, was, h[last], h[i].token);
    } else {
      OwnTokenIsStored(useRedis, was, h[last]);
    }
  }

  lemma {:induction false} LostSetLeavesNothing(h: seq<Creation>, i: nat)
    requires i < |h| && FreshTokens(h) && !h[i].setOk
    ensures h[i].token !in LinksAfter(true, h).redis
  {
    var last := |h| - 1;
    if i < last {
      assert h[..last][i] == h[i];
      LostSetLeavesNothing(h[..last], i);
      assert h[last].token != h[i].token;
    } else {
      NeverIssued(h[..last], h[last].token);
    }
  }

  lemma {:induction false} NeverIssued(h: seq<Creation>, token: string)
    requires forall i :: 0 <= i < |h| ==> h[i].token != token
    ensures token !in LinksAfter(true, h).redis
  {
    if h != [] {
      NeverIssued(h[..|h| - 1], token);
    }
  }

  /**
   * The two stores run side by side on the same creations. A link whose SET reached Redis the moment
   * the link was made resolves alike in both at every instant but exactly its expiry, where only the
   * in-memory store still honours it; a SET that came later keeps the link in Redis as much longer.
   * A link whose SET was lost is honoured by the in-memory store alone.
   */
  lemma StoresAgreeIff(h: seq<Creation>, i: nat, now: int)
    requires i < |h| && FreshTokens(h) && Makes(h[i]) && h[i].now <= h[i].setAt
    ensures Resolved(LinksAfter(true, h), true, h[i].token, now) == Resolved(LinksAfter(false, h), false, h[i].token, now) <==>
            var expiry := MadePayload(h[i]).expiresAt;
            if !h[i].setOk then expiry < now
            else if h[i].setAt == h[i].now then now != expiry
            else now <= expiry || expiry + (h[i].setAt - h[i].now) <= now
  {
    hide LinksAfter, Makes, Lifetime, FreshTokens;
    LinkOfCreation(false, h, i);
    if h[i].setOk {
      LinkOfCreation(true, h, i);
    } else {
      LostSetLeavesNothing(h, i);
    }
  }

  // What a token opens, spelt out

  lemma MadeSpelt(c: Creation)
    ensures MadePayload(c).k.owner == c.owner && MadePayload(c).k.key == TrimSpace(c.objectKey)
    ensures MadePayload(c).expiresAt ==
            c.now + if c.ttl <= 0 then 900_000_000_000 else if c.ttl > 86_400_000_000_000 then 86_400_000_000_000 else c.ttl
    ensures Makes(c) <==> TrimSpace(c.objectKey) != "" && c.findOk && c.row.Some? && c.row.value.visibility == Visible
  {}

  /** The creation is of this object, for a row that was visible then. */
  predicate LinkedBy(c: Creation, token: string, k: RawKey) {
    && c.token == token && k.owner == c.owner && k.key == TrimSpace(c.objectKey) && k.key != ""
    && c.findOk && c.row.Some? && c.row.value.visibility == Visible
  }

  /**
   * Over every run, what a token opens is the owner and the trimmed key that a creation with that token
   * was asked for, no more than a day ago; its row was visible then, and is there and visible now.
   */
  lemma OpenedWasLinked(useRedis: bool, h: seq<Creation>, rawToken: string, now: int, rows: Rows, getOk: bool, findOk: bool)
    requires Opening(LinksAfter(useRedis, h), useRedis, rawToken, now, rows, getOk, findOk).Opened?
    ensures var result := Opening(LinksAfter(useRedis, h), useRedis, rawToken, now, rows, getOk, findOk);
            && result.k in rows && result.record == rows[result.k] && result.record.visibility == Visible
            && findOk && (useRedis ==> getOk)
            && exists i :: 0 <= i < |h| && LinkedBy(h[i], TrimSpace(rawToken), result.k) &&
                           now <= (if useRedis then h[i].setAt else h[i].now) + 86_400_000_000_000
  {
    hide LinksAfter, MadePayload, Makes, TrimSpace;
    var links, token := LinksAfter(useRedis, h), TrimSpace(rawToken);
    ResolvedWasIssued(useRedis, h, token, now);
    var i :| 0 <= i < |h| && Makes(h[i]) && h[i].token == token && Resolved(links, useRedis, token, now) == Some(MadePayload(h[i])) &&
             now - (if useRedis then h[i].setAt else h[i].now) <= DAY;
    MadeSpelt(h[i]);
    assert LinkedBy(h[i], token, MadePayload(h[i]).k);
  }

  /**
   * And over every run a link that was made and stored opens just that object, at every instant before
   * its expiry at which the row is there and visible and both lookups answer.
   */
  lemma LinkOpensObject(useRedis: bool, h: seq<Creation>, i: nat, now: int, rows: Rows)
    requires i < |h| && FreshTokens(h) && Makes(h[i]) && (useRedis ==> h[i].setOk && h[i].now <= h[i].setAt)
    requires TrimSpace(h[i].token) == h[i].token != ""
    requires var k := RawKey(h[i].owner, TrimSpace(h[i].objectKey)); k in rows && rows[k].visibility == Visible
    requires now < h[i].now + if h[i].ttl <= 0 then 900_000_000_000
                              else if h[i].ttl > 86_400_000_000_000 then 86_400_000_000_000 else h[i].ttl
    ensures var k := RawKey(h[i].owner, TrimSpace(h[i].objectKey));
            Opening(LinksAfter(useRedis, h), useRedis, h[i].token, now, rows, true, true) == Opened(k, rows[k])
  {
    hide LinksAfter, TrimSpace, Makes, FreshTokens, MadePayload;
    LinkOfCreation(useRedis, h, i);
    MadeSpelt(h[i]);
  }
}
