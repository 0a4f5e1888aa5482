/** Accounts, one-time codes and passwords: registration, password reset and login. */
module Credentials {
  import opened GoStrings
  import opened Outcomes

  /** What bcrypt makes of a password and a salt, taken as ideal: it matches that password only. */
  datatype Digest = Digest(password: string, salt: string)

  predicate Matches(d: Digest, password: string) {
    d.password == password
  }

  datatype Purpose = Register | ForgotPassword

  datatype Otp = Otp(purpose: Purpose, email: string, digest: Digest, code: string)

  datatype User = User(email: string, digest: Digest, verified: bool, active: bool, deleted: bool)

  /** The `users` table and the codes kept in Redis. */
  datatype World = World(users: seq<User>, otps: map<string, Expiring<Otp>>)

  // The table

  function Find(users: seq<User>, email: string): (row: Option<User>)
    ensures row.Some? ==> row.value in users && row.value.email == email
  {
    if users == [] then None else if users[0].email == email then Some(users[0]) else Find(users[1..], email)
  }

  function NewUser(email: string, digest: Digest): User {
    User(email, digest, true, true, false)
  }

  /** The rows `UPDATE … WHERE email = $2 AND is_deleted = FALSE` touches. */
  predicate Touched(u: User, email: string) {
    u.email == email && !u.deleted
  }

  function Repassworded(users: seq<User>, email: string, digest: Digest): seq<User> {
    if users == [] then []
    else
      var u := users[0];
      [if Touched(u, email) then u.(digest := digest) else u] + Repassworded(users[1..], email, digest)
  }

  function RowsAffected(users: seq<User>, email: string): nat {
    if users == [] then 0 else (if Touched(users[0], email) then 1 else 0) + RowsAffected(users[1..], email)
  }

  /** `UNIQUE (email)` refuses a second row. */
  function AfterInsert(users: seq<User>, email: string, digest: Digest, sql: Effect): seq<User> {
    if sql == NotDone || Find(users, email).Some? then users else users + [NewUser(email, digest)]
  }

  function AfterUpdate(users: seq<User>, email: string, digest: Digest, sql: Effect): seq<User> {
    if sql == NotDone then users else Repassworded(users, email, digest)
  }

  // The code store

  function Read(otps: map<string, Expiring<Otp>>, token: string, now: int): Option<Expiring<Otp>> {
    Lookup(otps, token, now)
  }

  /** The checks both verifications make of what they read. */
  predicate Passes(stored: Option<Expiring<Otp>>, purpose: Purpose, code: string) {
    stored.Some? && stored.value.value.purpose == purpose && TrimSpace(stored.value.value.code) == TrimSpace(code)
  }

  // The steps, which requests take one at a time and in any order

  /** A verification in flight: it passed its checks, or it also wrote and is about to drop the code. */
  datatype Flow =
    | Creating(token: string, stored: Expiring<Otp>, code: string, readAt: int)
    | Resetting(token: string, stored: Expiring<Otp>, code: string, readAt: int, digest: Digest)
    | Dropping(token: string)

  /** A verification that took effect, and whether its caller was told. */
  datatype Entry = Entry(created: bool, token: string, email: string, digest: Digest, code: string, readAt: int, reported: bool)

  datatype State = State(world: World, flows: map<nat, Flow>, issued: map<string, Expiring<Otp>>, log: seq<Entry>)

  datatype Event =
    | Save(token: string, stored: Expiring<Otp>, effect: Effect)
    | CheckRegistration(flow: nat, token: string, code: string, now: int, answered: bool)
    | CheckReset(flow: nat, token: string, code: string, digest: Digest, now: int, answered: bool)
    | Write(flow: nat, effect: Effect)
    | Drop(flow: nat, effect: Effect)

  const INITIAL := State(World([], map[]), map[], map[], [])

  /** Temporary tokens are fresh and so are the numbers of the verifications. */
  predicate Possible(s: State, e: Event) {
    match e
    case Save(token, _, _) => token !in s.issued
    case CheckRegistration(flow, _, _, _, _) => flow !in s.flows
    case CheckReset(flow, _, _, _, _, _) => flow !in s.flows
    case Write(flow, _) => flow in s.flows && !s.flows[flow].Dropping?
    case Drop(flow, _) => flow in s.flows && s.flows[flow].Dropping?
  }

  function Step(s: State, e: Event): State
    requires Possible(s, e)
  {
    match e
    case Save(token, stored, effect) =>
      s.(issued := s.issued[token := stored],
         world := if effect == NotDone then s.world else s.world.(otps := s.world.otps[token := stored]))
    case CheckRegistration(flow, token, code, now, answered) =>
      var stored := Read(s.world.otps, token, now);
      if answered && Passes(stored, Register, code) then
        s.(flows := s.flows[flow := Creating(token, stored.value, code, now)])
      else s
    case CheckReset(flow, token, code, digest, now, answered) =>
      var stored := Read(s.world.otps, token, now);
      if answered && Passes(stored, ForgotPassword, code) then
        s.(flows := s.flows[flow := Resetting(token, stored.value, code, now, digest)])
      else s
    case Write(flow, effect) =>
      if s.flows[flow].Creating? then Created(s, flow, s.flows[flow], effect) else Reset(s, flow, s.flows[flow], effect)
    case Drop(flow, effect) =>
      var token := s.flows[flow].token;
      s.(flows := s.flows - {flow},
         world := if effect == NotDone then s.world else s.world.(otps := s.world.otps - {token}))
  }

  /** After the write a flow goes on to drop its code only when the write reported success. */
  function FlowAfterWrite(flows: map<nat, Flow>, flow: nat, token: string, succeeded: bool): map<nat, Flow> {
    if succeeded then flows[flow := Dropping(token)] else flows - {flow}
  }

  function Created(s: State, flow: nat, f: Flow, effect: Effect): State
    requires f.Creating?
  {
    var email, digest := f.stored.value.email, f.stored.value.digest;
    var took := effect != NotDone && Find(s.world.users, email).None?;
    State(s.world.(users := AfterInsert(s.world.users, email, digest, effect)),
          FlowAfterWrite(s.flows, flow, f.token, took && effect == Done),
          s.issued,
          if took then s.log + [Entry(true, f.token, email, digest, f.code, f.readAt, effect == Done)] else s.log)
  }

  function Reset(s: State, flow: nat, f: Flow, effect: Effect): State
    requires f.Resetting?
  {
    var email := f.stored.value.email;
    var took := effect != NotDone && RowsAffected(s.world.users, email) > 0;
    State(s.world.(users := AfterUpdate(s.world.users, email, f.digest, effect)),
          FlowAfterWrite(s.flows, flow, f.token, took && effect == Done),
          s.issued,
          if took then s.log + [Entry(false, f.token, email, f.digest, f.code, f.readAt, effect == Done)] else s.log)
  }

  /** An event that is not possible changes nothing. */
  function After(s: State, h: seq<Event>): State {
    if h == [] then s
    else
      var was := After(s, h[..|h| - 1]);
      if Possible(was, h[|h| - 1]) then Step(was, h[|h| - 1]) else was
  }

  // The methods

  datatype AuthError =
    | InvalidCredentials | NotVerified | InactiveOrDeleted | InvalidOTP | OTPExpired
    | InvalidPurpose | EmailExists | EmailNotFound | Malformed | Unavailable

  datatype Outcome = Ok | Failed(error: AuthError)

  /** A request that no other request interrupts. */
  function Alone(world: World): State {
    State(world, map[], map[], [])
  }

  lemma AfterOne(s: State, e: Event)
    ensures After(s, [e]) == if Possible(s, e) then Step(s, e) else s
  {
    assert After(s, [e][..0]) == s;
  }

  lemma AfterMore(s: State, h: seq<Event>, e: Event)
    ensures After(s, h + [e]) == var was := After(s, h); if Possible(was, e) then Step(was, e) else was
  {
    assert (h + [e])[..|h|] == h;
  }

  lemma AfterThree(s: State, a: Event, b: Event, c: Event)
    ensures After(s, [a, b, c]) == After(After(After(s, [a]), [b]), [c])
  {
    hide Step, Possible;
    AfterOne(s, a);
    AfterMore(s, [a], b);
    AfterOne(After(s, [a]), b);
    AfterMore(s, [a, b], c);
    AfterOne(After(s, [a, b]), c);
    assert [a] + [b] == [a, b] && [a, b] + [c] == [a, b, c];
  }

  class AuthService {
    const lower: string -> string
    var world: World

    constructor (lower: string -> string)
      ensures this.lower == lower && world == INITIAL.world
    {
      this.lower := lower;
      world := World([], map[]);
    }

    /** The lookups and the store answer as the parameters say; a token is returned on success. */
    method BeginRegistration(email: string, password: string, salt: string, code: string, token: string, until: int,
                             existsOk: bool, hashOk: bool, codeOk: bool, save: Effect) returns (result: Outcome)
      modifies this
      ensures var e := TrimSpace(lower(email));
              var stored := Expiring(Otp(Register, e, Digest(password, salt), code), until);
              var saved := e != "" && |password| >= 6 && existsOk && Find(old(world).users, e).None? && hashOk && codeOk;
              && world == (if saved then After(Alone(old(world)), [Save(token, stored, save)]).world else old(world))
              && (result.Ok? <==> saved && save == Done)
              && (result == Failed(Malformed) <==> e == "" || |password| < 6)
              && (result == Failed(EmailExists) <==> e != "" && |password| >= 6 && existsOk && Find(old(world).users, e).Some?)
      ensures result.Failed? ==> result.error in {Malformed, EmailExists, Unavailable}
      ensures world.users == old(world).users
      ensures var e := TrimSpace(lower(email));
              world.otps == if e != "" && |password| >= 6 && existsOk && Find(old(world).users, e).None? && hashOk && codeOk && save != NotDone
                            then old(world).otps[token := Expiring(Otp(Register, e, Digest(password, salt), code), until)]
                            else old(world).otps
      ensures result.Ok? ==> token in world.otps && world.otps[token].value.email == TrimSpace(lower(email))
    {
      hide TrimSpace;
      var e := TrimSpace(lower(email));
      if e == "" || |password| < 6 {
        return Failed(Malformed);
      }
      if !existsOk {
        return Failed(Unavailable);
      }
      if Find(world.users, e).Some? {
        return Failed(EmailExists);
      }
      if !hashOk || !codeOk {
        return Failed(Unavailable);
      }
      var stored := Expiring(Otp(Register, e, Digest(password, salt), code), until);
      AfterOne(Alone(world), Save(token, stored, save));
      if save != NotDone {
        world := world.(otps := world.otps[token := stored]);
      }
      return if save == Done then Ok else Failed(Unavailable);
    }

    method BeginForgotPassword(email: string, code: string, token: string, until: int,
                               existsOk: bool, codeOk: bool, save: Effect) returns (result: Outcome)
      modifies this
      ensures var e := TrimSpace(lower(email));
              var stored := Expiring(Otp(ForgotPassword, e, Digest("", ""), code), until);
              var saved := e != "" && existsOk && Find(old(world).users, e).Some? && codeOk;
              && world == (if saved then After(Alone(old(world)), [Save(token, stored, save)]).world else old(world))
              && (result.Ok? <==> saved && save == Done)
              && (result == Failed(Malformed) <==> e == "")
              && (result == Failed(EmailNotFound) <==> e != "" && existsOk && Find(old(world).users, e).None?)
      ensures result.Failed? ==> result.error in {Malformed, EmailNotFound, Unavailable}
      ensures world.users == old(world).users
      ensures var e := TrimSpace(lower(email));
              world.otps == if e != "" && existsOk && Find(old(world).users, e).Some? && codeOk && save != NotDone
                            then old(world).otps[token := Expiring(Otp(ForgotPassword, e, Digest("", ""), code), until)]
                            else old(world).otps
      ensures result.Ok? ==> token in world.otps && world.otps[token].value.email == TrimSpace(lower(email))
    {
      hide TrimSpace;
      var e := TrimSpace(lower(email));
      if e == "" {
        return Failed(Malformed);
      }
      if !existsOk {
        return Failed(Unavailable);
      }
      if Find(world.users, e).None? {
        return Failed(EmailNotFound);
      }
      if !codeOk {
        return Failed(Unavailable);
      }
      var stored := Expiring(Otp(ForgotPassword, e, Digest("", ""), code), until);
      AfterOne(Alone(world), Save(token, stored, save));
      if save != NotDone {
        world := world.(otps := world.otps[token := stored]);
      }
      return if save == Done then Ok else Failed(Unavailable);
    }

    method VerifyRegistrationOTP(token: string, code: string, now: int, getOk: bool, insert: Effect, drop: Effect)
      returns (result: Outcome)
      modifies this
      ensures var s := After(Alone(old(world)), [CheckRegistration(0, token, code, now, getOk), Write(0, insert), Drop(0, drop)]);
              && world == s.world
              && (result.Ok? <==> s.log != [] && s.log[0].reported)
      ensures var stored := Read(old(world).otps, token, now);
              && (result == Failed(OTPExpired) <==> getOk && stored.None?)
              && (result == Failed(InvalidPurpose) <==> getOk && stored.Some? && stored.value.value.purpose != Register)
              && (result == Failed(InvalidOTP) <==> getOk && stored.Some? && stored.value.value.purpose == Register &&
                                                    TrimSpace(stored.value.value.code) != TrimSpace(code))
              && (result == Failed(EmailExists) <==> getOk && Passes(stored, Register, code) && insert == Done &&
                                                     Find(old(world).users, stored.value.value.email).Some?)
      ensures result.Failed? ==> result.error in {OTPExpired, InvalidPurpose, InvalidOTP, EmailExists, Unavailable}
      ensures var stored := Read(old(world).otps, token, now);
              result.Ok? <==> getOk && insert == Done && stored.Some? && stored.value.value.purpose == Register &&
                              TrimSpace(stored.value.value.code) == TrimSpace(code) &&
                              Find(old(world).users, stored.value.value.email).None?
      // A code is used up by success alone.
      ensures result.Failed? ==> world.otps == old(world).otps
      ensures result.Ok? ==>
                && token in old(world).otps && now < old(world).otps[token].until && insert == Done
                && world.otps == (if drop == NotDone then old(world).otps else old(world).otps - {token})
                && var otp := old(world).otps[token].value;
                   world.users == old(world).users + [User(otp.email, otp.digest, true, true, false)]
    {
      hide TrimSpace, After, Find;
      var check, write, last := CheckRegistration(0, token, code, now, getOk), Write(0, insert), Drop(0, drop);
      ghost var s := Alone(world);
      AfterThree(s, check, write, last);
      AfterOne(s, check);
      AfterOne(After(s, [check]), write);
      AfterOne(After(After(s, [check]), [write]), last);
      if !getOk {
        return Failed(Unavailable);
      }
      var stored := Read(world.otps, token, now);
      if stored.None? {
        return Failed(OTPExpired);
      }
      var otp := stored.value.value;
      if otp.purpose != Register {
        return Failed(InvalidPurpose);
      }
      if TrimSpace(otp.code) != TrimSpace(code) {
        return Failed(InvalidOTP);
      }
      var known := Find(world.users, otp.email).Some?;
      world := world.(users := AfterInsert(world.users, otp.email, otp.digest, insert));
      if insert != Done || known {
        return Failed(if insert == Done then EmailExists else Unavailable);
      }
      if drop != NotDone {
        world := world.(otps := world.otps - {token});
      }
      return Ok;
    }

    method VerifyForgotPasswordOTP(token: string, code: string, newPassword: string, salt: string, now: int,
                                   getOk: bool, hashOk: bool, update: Effect, drop: Effect)
      returns (result: Outcome)
      modifies this
      ensures |newPassword| < 6 || !hashOk ==> world == old(world) && result.Failed?
      ensures var stored := Read(old(world).otps, token, now);
              && (result == Failed(OTPExpired) <==> |newPassword| >= 6 && getOk && stored.None?)
              && (result == Failed(InvalidPurpose) <==> |newPassword| >= 6 && getOk && stored.Some? && stored.value.value.purpose != ForgotPassword)
              && (result == Failed(InvalidOTP) <==> |newPassword| >= 6 && getOk && stored.Some? && stored.value.value.purpose == ForgotPassword &&
                                                    TrimSpace(stored.value.value.code) != TrimSpace(code))
              && (result == Failed(EmailNotFound) <==> |newPassword| >= 6 && getOk && Passes(stored, ForgotPassword, code) && hashOk &&
                                                       update == Done && RowsAffected(old(world).users, stored.value.value.email) == 0)
      ensures var stored := Read(old(world).otps, token, now);
              result.Ok? <==> |newPassword| >= 6 && hashOk && getOk && update == Done && stored.Some? &&
                              stored.value.value.purpose == ForgotPassword && TrimSpace(stored.value.value.code) == TrimSpace(code) &&
                              RowsAffected(old(world).users, stored.value.value.email) > 0
      ensures result == Failed(Malformed) <==> |newPassword| < 6
      ensures result.Failed? ==> result.error in {Malformed, OTPExpired, InvalidPurpose, InvalidOTP, EmailNotFound, Unavailable}
      ensures result.Failed? ==> world.otps == old(world).otps
      ensures result.Ok? ==>
                && token in old(world).otps && now < old(world).otps[token].until && update == Done
                && world.otps == (if drop == NotDone then old(world).otps else old(world).otps - {token})
                && world.users == Repassworded(old(world).users, old(world).otps[token].value.email, Digest(newPassword, salt))
      ensures |newPassword| >= 6 && hashOk ==>
              var s := After(Alone(old(world)), [CheckReset(0, token, code, Digest(newPassword, salt), now, getOk), Write(0, update), Drop(0, drop)]);
              && world == s.world
              && (result.Ok? <==> s.log != [] && s.log[0].reported)
    {
      hide TrimSpace, After, RowsAffected, Repassworded;
      var digest := Digest(newPassword, salt);
      var check, write, last := CheckReset(0, token, code, digest, now, getOk), Write(0, update), Drop(0, drop);
      ghost var s := Alone(world);
      AfterThree(s, check, write, last);
      AfterOne(s, check);
      AfterOne(After(s, [check]), write);
      AfterOne(After(After(s, [check]), [write]), last);
      if |newPassword| < 6 {
        return Failed(Malformed);
      }
      if !getOk {
        return Failed(Unavailable);
      }
      var stored := Read(world.otps, token, now);
      if stored.None? {
        return Failed(OTPExpired);
      }
      var otp := stored.value.value;
      if otp.purpose != ForgotPassword {
        return Failed(InvalidPurpose);
      }
      if TrimSpace(otp.code) != TrimSpace(code) {
        return Failed(InvalidOTP);
      }
      if !hashOk {
        return Failed(Unavailable);
      }
      var updated := RowsAffected(world.users, otp.email) > 0;
      world := world.(users := AfterUpdate(world.users, otp.email, digest, update));
      if update != Done {
        return Failed(Unavailable);
      }
      if !updated {
        return Failed(EmailNotFound);
      }
      if drop != NotDone {
        world := world.(otps := world.otps - {token});
      }
      return Ok;
    }

    /** The row is the one with the normalised email; `signOk` says whether the token was signed. */
    method Login(email: string, password: string, getOk: bool, signOk: bool) returns (result: Outcome)
      ensures result.Ok? <==> getOk && signOk && LoggedIn(world.users, TrimSpace(lower(email)), password)
      ensures var row := Find(world.users, TrimSpace(lower(email)));
              var live := row.Some? && row.value.verified && row.value.active && !row.value.deleted;
              && (result.Ok? <==> getOk && signOk && live && Matches(row.value.digest, password))
              && (result == Failed(InvalidCredentials) <==> getOk && (row.None? || (live && !Matches(row.value.digest, password))))
              && (result == Failed(NotVerified) <==> getOk && row.Some? && !row.value.verified)
              && (result == Failed(InactiveOrDeleted) <==>
                  getOk && row.Some? && row.value.verified && (!row.value.active || row.value.deleted))
    {
      var row := Find(world.users, TrimSpace(lower(email)));
      if !getOk {
        return Failed(Unavailable);
      }
      if row.None? {
        return Failed(InvalidCredentials);
      }
      var user := row.value;
      if !user.verified {
        return Failed(NotVerified);
      }
      if !user.active || user.deleted {
        return Failed(InactiveOrDeleted);
      }
      if !Matches(user.digest, password) {
        return Failed(InvalidCredentials);
      }
      return if signOk then Ok else Failed(Unavailable);
    }
  }

  predicate LoggedIn(users: seq<User>, email: string, password: string) {
    var row := Find(users, email);
    row.Some? && row.value.verified && row.value.active && !row.value.deleted && Matches(row.value.digest, password)
  }
}
