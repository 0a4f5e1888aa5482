/** What every interleaving of registrations, resets and logins keeps. */
module CredentialHistory {
  import opened GoStrings
  import opened Outcomes
  import opened Credentials

  // The history, read as history

  /** The last verification for the email that took effect. */
  function Latest(log: seq<Entry>, email: string): Option<Entry> {
    if log == [] then None
    else if log[|log| - 1].email == email then Some(log[|log| - 1])
    else Latest(log[..|log| - 1], email)
  }

  /** How many users were created for the email. */
  function Creations(log: seq<Entry>, email: string): nat {
    if log == [] then 0
    else Creations(log[..|log| - 1], email) + if log[|log| - 1].created && log[|log| - 1].email == email then 1 else 0
  }

  /** How many users the token created. */
  function CreationsBy(log: seq<Entry>, token: string): nat {
    if log == [] then 0
    else CreationsBy(log[..|log| - 1], token) + if log[|log| - 1].created && log[|log| - 1].token == token then 1 else 0
  }

  function UsersOf(users: seq<User>, email: string): nat {
    if users == [] then 0 else (if users[0].email == email then 1 else 0) + UsersOf(users[1..], email)
  }

  lemma LogGrows(log: seq<Entry>, e: Entry, email: string, token: string)
    ensures Latest(log + [e], email) == if e.email == email then Some(e) else Latest(log, email)
    ensures Creations(log + [e], email) == Creations(log, email) + if e.created && e.email == email then 1 else 0
    ensures CreationsBy(log + [e], token) == CreationsBy(log, token) + if e.created && e.token == token then 1 else 0
  {
    assert (log + [e])[..|log|] == log;
  }

  // The table

  lemma {:induction false} InsertedRows(users: seq<User>, u: User, email: string)
    ensures Find(users + [u], email) == if Find(users, email).Some? then Find(users, email) else if u.email == email then Some(u) else None
    ensures UsersOf(users + [u], email) == UsersOf(users, email) + if u.email == email then 1 else 0
  {
    if users == [] {
      assert [u][1..] == [];
    } else {
      assert (users + [u])[1..] == users[1..] + [u];
      InsertedRows(users[1..], u, email);
    }
  }

  lemma {:induction false} RepasswordedRows(users: seq<User>, target: string, digest: Digest, email: string)
    ensures var row := Find(users, email);
            Find(Repassworded(users, target, digest), email) ==
            if row.Some? && Touched(row.value, target) then Some(row.value.(digest := digest)) else row
    ensures UsersOf(Repassworded(users, target, digest), email) == UsersOf(users, email)
  {
    if users != [] {
      RepasswordedRows(users[1..], target, digest, email);
    }
  }

  lemma {:induction false} SomeRowAffected(users: seq<User>, email: string)
    ensures UsersOf(users, email) <= 1 ==>
            (RowsAffected(users, email) > 0 <==> Find(users, email).Some? && !Find(users, email).value.deleted)
    ensures RowsAffected(users, email) <= UsersOf(users, email)
    ensures UsersOf(users, email) == 0 <==> Find(users, email).None?
  {
    if users != [] {
      SomeRowAffected(users[1..], email);
    }
  }

  // One email

  /** The row of the email is what the last verification left, and there is one row for one creation. */
  predicate EmailInv(s: State, email: string) {
    var row, last := Find(s.world.users, email), Latest(s.log, email);
    && UsersOf(s.world.users, email) == Creations(s.log, email) == (if last.Some? then 1 else 0)
    && row == (if last.Some? then Some(NewUser(email, last.value.digest)) else None)
  }

  lemma CreatedKeeps(s: State, flow: nat, f: Flow, effect: Effect, email: string)
    requires f.Creating? && EmailInv(s, email)
    ensures EmailInv(Created(s, flow, f, effect), email)
  {
    hide Find, Latest, Creations, UsersOf, FlowAfterWrite;
    var target, digest := f.stored.value.email, f.stored.value.digest;
    if effect != NotDone && Find(s.world.users, target).None? {
      InsertedRows(s.world.users, NewUser(target, digest), email);
      LogGrows(s.log, Entry(true, f.token, target, digest, f.code, f.readAt, effect == Done), email, "");
    }
  }

  lemma ResetKeeps(s: State, flow: nat, f: Flow, effect: Effect, email: string)
    requires f.Resetting? && EmailInv(s, email)
    ensures EmailInv(Reset(s, flow, f, effect), email)
  {
    hide Find, Latest, Creations, UsersOf, RowsAffected, Repassworded, FlowAfterWrite;
    var target := f.stored.value.email;
    if effect != NotDone {
      RepasswordedRows(s.world.users, target, f.digest, email);
      SomeRowAffected(s.world.users, email);
      LogGrows(s.log, Entry(false, f.token, target, f.digest, f.code, f.readAt, effect == Done), email, "");
    }
  }

  lemma {:induction false} RunsKeepEmail(h: seq<Event>, email: string)
    ensures EmailInv(After(INITIAL, h), email)
  {
    if h != [] {
      var was, e := After(INITIAL, h[..|h| - 1]), h[|h| - 1];
      RunsKeepEmail(h[..|h| - 1], email);
      if e.Write? && Possible(was, e) {
        var f := was.flows[e.flow];
        if f.Creating? {
          CreatedKeeps(was, e.flow, f, e.effect, email);
        } else {
          ResetKeeps(was, e.flow, f, e.effect, email);
        }
      }
    }
    hide Find, Latest, Creations, UsersOf, Read, Created, Reset, Passes;
  }

  /** Over every interleaving no email has two users, and no email is given a user twice. */
  lemma OneUserPerEmail(h: seq<Event>, email: string)
    ensures var s := After(INITIAL, h);
            && UsersOf(s.world.users, email) <= 1
            && Creations(s.log, email) == UsersOf(s.world.users, email)
  {
    RunsKeepEmail(h, email);
  }

  /**
   * Over every interleaving, whichever statements and deletions fail, the password that logs in is
   * that of the last verification for the normalised email to take effect, and no other.
   */
  lemma LoginIsLatestVerification(h: seq<Event>, email: string, password: string)
    ensures var s := After(INITIAL, h);
            LoggedIn(s.world.users, email, password) <==>
            Latest(s.log, email).Some? && Latest(s.log, email).value.digest.password == password
  {
    RunsKeepEmail(h, email);
  }

  // One token

  predicate FromIssued(issued: map<string, Expiring<Otp>>, token: string, stored: Expiring<Otp>) {
    token in issued && issued[token] == stored
  }

  /** The flow passed its checks against the code that was issued. */
  predicate GenuineFlow(issued: map<string, Expiring<Otp>>, f: Flow) {
    match f
    case Creating(token, stored, code, readAt) =>
      FromIssued(issued, token, stored) && Passes(Some(stored), Register, code) && readAt < stored.until
    case Resetting(token, stored, code, readAt, digest) =>
      FromIssued(issued, token, stored) && Passes(Some(stored), ForgotPassword, code) && readAt < stored.until
    case Dropping(token) => token in issued
  }

  /** The entry's token was issued for its purpose and email, and its code presented in time. */
  predicate Genuine(issued: map<string, Expiring<Otp>>, e: Entry) {
    && e.token in issued
    && Passes(Some(issued[e.token]), if e.created then Register else ForgotPassword, e.code)
    && issued[e.token].value.email == e.email
    && (e.created ==> issued[e.token].value.digest == e.digest)
    && e.readAt < issued[e.token].until
  }

  ghost predicate TokenInv(s: State) {
    && (forall t :: t in s.world.otps ==> FromIssued(s.issued, t, s.world.otps[t]))
    && (forall f :: f in s.flows ==> GenuineFlow(s.issued, s.flows[f]))
    && (forall i :: 0 <= i < |s.log| ==> Genuine(s.issued, s.log[i]))
  }

  lemma StepKeepsToken(s: State, e: Event)
    requires Possible(s, e) && TokenInv(s) && !e.Write?
    ensures TokenInv(Step(s, e))
  {
    hide TrimSpace, Created, Reset;
    if e.Save? {
      forall f | f in s.flows
        ensures GenuineFlow(s.issued[e.token := e.stored], s.flows[f])
      {
        assert GenuineFlow(s.issued, s.flows[f]);
      }
    }
  }

  lemma WriteKeepsToken(s: State, e: Event)
    requires Possible(s, e) && TokenInv(s) && e.Write?
    ensures TokenInv(Step(s, e))
  {
    hide Passes, AfterInsert, AfterUpdate;
    assert GenuineFlow(s.issued, s.flows[e.flow]);
  }

  lemma {:induction false} RunsKeepTokens(h: seq<Event>)
    ensures TokenInv(After(INITIAL, h))
  {
    if h != [] {
      var was, e := After(INITIAL, h[..|h| - 1]), h[|h| - 1];
      RunsKeepTokens(h[..|h| - 1]);
      if Possible(was, e) {
        if e.Write? {
          WriteKeepsToken(was, e);
        } else {
          StepKeepsToken(was, e);
        }
      }
    }
    hide TokenInv, Step;
  }

  /** Every verification that took effect presented, before it expired, the code issued for its email. */
  lemma VerificationsAreGenuine(h: seq<Event>, i: nat)
    requires i < |After(INITIAL, h).log|
    ensures Genuine(After(INITIAL, h).issued, After(INITIAL, h).log[i])
  {
    RunsKeepTokens(h);
  }

  lemma {:induction false} CreationsByToken(issued: map<string, Expiring<Otp>>, log: seq<Entry>, token: string)
    requires forall i :: 0 <= i < |log| ==> Genuine(issued, log[i])
    ensures CreationsBy(log, token) <= if token in issued then Creations(log, issued[token].value.email) else 0
  {
    if log != [] {
      CreationsByToken(issued, log[..|log| - 1], token);
      assert Genuine(issued, log[|log| - 1]);
    }
  }

  /** Over every interleaving, with every deletion of a code failing if need be, no token creates two users. */
  lemma TokenCreatesOneUser(h: seq<Event>, token: string)
    ensures CreationsBy(After(INITIAL, h).log, token) <= 1
  {
    var s := After(INITIAL, h);
    RunsKeepTokens(h);
    CreationsByToken(s.issued, s.log, token);
    if token in s.issued {
      OneUserPerEmail(h, s.issued[token].value.email);
    }
  }
}
