/** How often a reset token works, over every interleaving of the requests that present it. */
module ResetTokens {
  import opened GoStrings
  import opened Outcomes
  import opened Credentials
  import opened CredentialHistory

  /** The state before the event with index n. */
  function At(h: seq<Event>, n: nat): State
    requires n <= |h|
  {
    After(INITIAL, h[..n])
  }

  lemma AtNext(h: seq<Event>, n: nat)
    requires n < |h|
    ensures At(h, n + 1) == if Possible(At(h, n), h[n]) then Step(At(h, n), h[n]) else At(h, n)
  {
    hide Step, Possible;
    assert h[..n + 1][..n] == h[..n];
  }

  lemma AtStart(h: seq<Event>)
    ensures At(h, 0) == INITIAL
  {}

  lemma AtEnd(h: seq<Event>)
    ensures At(h, |h|) == After(INITIAL, h)
  {
    assert h[..|h|] == h;
  }

  lemma {:induction false} AfterConcat(s: State, a: seq<Event>, b: seq<Event>)
    ensures After(s, a + b) == After(After(s, a), b)
  {
    hide Step, Possible;
    if b == [] {
      assert a + b == a;
    } else {
      AfterConcat(s, a, b[..|b| - 1]);
      assert (a + b)[..|a + b| - 1] == a + b[..|b| - 1];
    }
  }

  // The history of one code

  predicate SavedAt(h: seq<Event>, k: int, token: string) {
    0 <= k < |h| && h[k].Save? && h[k].token == token && h[k].effect != NotDone && Possible(At(h, k), h[k])
  }

  predicate DroppedAt(h: seq<Event>, j: int, token: string) {
    && 0 <= j < |h| && h[j].Drop? && h[j].effect != NotDone
    && Possible(At(h, j), h[j]) && At(h, j).flows[h[j].flow].token == token
  }

  /** A reset check of the token passed, and the flow took it up. */
  predicate CheckedAt(h: seq<Event>, i: int, flow: nat, token: string) {
    && 0 <= i < |h| && h[i].CheckReset? && h[i].flow == flow && h[i].token == token
    && Possible(At(h, i), h[i]) && flow in At(h, i + 1).flows
  }

  ghost predicate DroppedBefore(h: seq<Event>, n: int, token: string) {
    exists j :: j < n && DroppedAt(h, j, token)
  }

  /** A code that was dropped, or never stored, passes no check again. */
  lemma {:induction false} DroppedStaysDropped(s: State, h: seq<Event>, token: string)
    requires token in s.issued && token !in s.world.otps
    ensures token in After(s, h).issued && token !in After(s, h).world.otps
  {
    if h != [] {
      DroppedStaysDropped(s, h[..|h| - 1], token);
    }
    hide Read, Passes, AfterInsert, AfterUpdate;
  }

  lemma DropTakesOut(h: seq<Event>, j: nat, token: string)
    requires j < |h| && DroppedAt(h, j, token)
    ensures token in At(h, j + 1).issued && token !in At(h, j + 1).world.otps
  {
    RunsKeepTokens(h[..j]);
    AtNext(h, j);
    hide After, Passes, Read;
    assert GenuineFlow(At(h, j).issued, At(h, j).flows[h[j].flow]);
  }

  lemma DroppedIsGone(h: seq<Event>, j: nat, n: nat, token: string)
    requires j < n <= |h| && DroppedAt(h, j, token)
    ensures token !in At(h, n).world.otps
  {
    DropTakesOut(h, j, token);
    hide After, DroppedAt;
    DroppedStaysDropped(At(h, j + 1), h[j + 1..n], token);
    assert h[..j + 1] + h[j + 1..n] == h[..n];
    AfterConcat(INITIAL, h[..j + 1], h[j + 1..n]);
  }

  lemma StepKeepsIssued(s: State, e: Event, token: string)
    requires Possible(s, e) && token in s.issued
    ensures token in Step(s, e).issued && Step(s, e).issued[token] == s.issued[token]
  {
    hide Passes, Read, AfterInsert, AfterUpdate;
  }

  lemma StepKeepsStored(s: State, e: Event, token: string)
    requires Possible(s, e) && token in s.issued
    ensures token in Step(s, e).world.otps <==>
            token in s.world.otps && !(e.Drop? && e.effect != NotDone && s.flows[e.flow].token == token)
  {
    hide Passes, Read, AfterInsert, AfterUpdate;
  }

  /** A code saved stays what it was, and is in the store until it is dropped. */
  lemma {:induction false} SavedUntilDropped(h: seq<Event>, k: nat, n: nat, token: string)
    requires k < n <= |h| && SavedAt(h, k, token)
    ensures token in At(h, n).issued && At(h, n).issued[token] == h[k].stored
    ensures token in At(h, n).world.otps || DroppedBefore(h, n, token)
  {
    AtNext(h, n - 1);
    var was, e := At(h, n - 1), h[n - 1];
    if n - 1 > k {
      SavedUntilDropped(h, k, n - 1, token);
      if Possible(was, e) {
        StepKeepsIssued(was, e, token);
        StepKeepsStored(was, e, token);
        if token in was.world.otps && token !in Step(was, e).world.otps {
          assert DroppedAt(h, n - 1, token);
        }
      }
      hide Step, Possible;
    }
  }

  /** A saved code is in the store exactly until the first drop that takes effect. */
  lemma StoredIff(h: seq<Event>, k: nat, n: nat, token: string)
    requires k < n <= |h| && SavedAt(h, k, token)
    ensures token in At(h, n).world.otps <==> !DroppedBefore(h, n, token)
    ensures token in At(h, n).world.otps ==> At(h, n).world.otps[token] == h[k].stored
  {
    SavedUntilDropped(h, k, n, token);
    RunsKeepTokens(h[..n]);
    hide At, DroppedAt, SavedAt;
    if j :| j < n && DroppedAt(h, j, token) {
      DroppedIsDrop(h, j, token);
      DroppedIsGone(h, j, n, token);
    }
    if token in At(h, n).world.otps {
      assert FromIssued(At(h, n).issued, token, At(h, n).world.otps[token]);
    }
  }

  lemma DroppedIsDrop(h: seq<Event>, j: int, token: string)
    requires DroppedAt(h, j, token)
    ensures 0 <= j < |h|
  {}

  // The history of one flow

  predicate OfFlow(e: Event, flow: nat) {
    !e.Save? && e.flow == flow
  }

  lemma StepKeepsFlow(s: State, e: Event, flow: nat)
    requires Possible(s, e) && !OfFlow(e, flow)
    ensures flow in Step(s, e).flows <==> flow in s.flows
    ensures flow in s.flows ==> Step(s, e).flows[flow] == s.flows[flow]
  {
    hide Passes, Read, AfterInsert, AfterUpdate;
  }

  /** Only a flow's own events change it. */
  lemma {:induction false} FlowStays(h: seq<Event>, i: nat, n: nat, flow: nat)
    requires i <= n <= |h| && forall m :: i <= m < n ==> !OfFlow(h[m], flow)
    ensures flow in At(h, n).flows <==> flow in At(h, i).flows
    ensures flow in At(h, n).flows ==> At(h, n).flows[flow] == At(h, i).flows[flow]
  {
    if i < n {
      FlowStays(h, i, n - 1, flow);
      AtNext(h, n - 1);
      hide At, Step;
      if Possible(At(h, n - 1), h[n - 1]) {
        StepKeepsFlow(At(h, n - 1), h[n - 1], flow);
      }
    }
  }

  lemma CheckNeedsCode(s: State, e: Event)
    requires Possible(s, e) && e.CheckReset?
    ensures e.flow in Step(s, e).flows <==>
            e.answered && e.token in s.world.otps && e.now < s.world.otps[e.token].until &&
            Passes(Some(s.world.otps[e.token]), ForgotPassword, e.code)
    ensures e.flow in Step(s, e).flows ==>
            Step(s, e).flows[e.flow] == Resetting(e.token, s.world.otps[e.token], e.code, e.now, e.digest)
  {
    hide TrimSpace;
  }

  lemma OnlyChecksStartResets(s: State, e: Event, flow: nat)
    requires Possible(s, e) && flow in Step(s, e).flows && Step(s, e).flows[flow].Resetting?
    ensures (flow in s.flows && s.flows[flow] == Step(s, e).flows[flow]) ||
            (e.CheckReset? && e.flow == flow && e.token == Step(s, e).flows[flow].token)
  {
    hide TrimSpace, Read, AfterInsert, AfterUpdate;
  }

  /** A reset in flight passed its check before its code was dropped for the first time. */
  lemma {:induction false} ResetWasChecked(h: seq<Event>, n: nat, flow: nat) returns (i: nat)
    requires n <= |h| && flow in At(h, n).flows && At(h, n).flows[flow].Resetting?
    ensures i < n && CheckedAt(h, i, flow, At(h, n).flows[flow].token) && !DroppedBefore(h, i, At(h, n).flows[flow].token)
  {
    hide At, Step, Possible, DroppedBefore, DroppedAt, SavedAt, Passes;
    AtStart(h);
    i := 0;
    if n > 0 {
      var was, e, token := At(h, n - 1), h[n - 1], At(h, n).flows[flow].token;
      AtNext(h, n - 1);
      if !Possible(was, e) {
        i := ResetWasChecked(h, n - 1, flow);
      } else {
        OnlyChecksStartResets(was, e, flow);
        if flow in was.flows && was.flows[flow] == At(h, n).flows[flow] {
          i := ResetWasChecked(h, n - 1, flow);
        } else {
          i := n - 1;
          CheckNeedsCode(was, e);
          NotDropped(h, i, token);
        }
      }
    }
  }

  lemma NotDropped(h: seq<Event>, n: nat, token: string)
    requires n <= |h| && token in At(h, n).world.otps
    ensures !DroppedBefore(h, n, token)
  {
    hide At, DroppedAt;
    if j :| j < n && DroppedAt(h, j, token) {
      DroppedIsDrop(h, j, token);
      DroppedIsGone(h, j, n, token);
    }
  }

  // Log entries

  /** The event with index m wrote the log entry with index p. */
  predicate WroteAt(h: seq<Event>, m: int, p: nat) {
    0 <= m < |h| && |At(h, m).log| == p && |At(h, m + 1).log| == p + 1
  }

  lemma StepWritesOne(s: State, e: Event)
    requires Possible(s, e)
    ensures var now := Step(s, e).log;
            now == s.log || (e.Write? && |now| == |s.log| + 1 && s.log <= now && now[|s.log|].token == s.flows[e.flow].token &&
                             (now[|s.log|].created <==> s.flows[e.flow].Creating?))
  {
    hide Passes, Read, AfterInsert, AfterUpdate;
  }

  lemma {:induction false} EntryWasWritten(h: seq<Event>, n: nat, p: nat) returns (m: nat)
    requires n <= |h| && p < |At(h, n).log|
    ensures m < n && WroteAt(h, m, p) && At(h, m + 1).log[p] == At(h, n).log[p]
  {
    m := 0;
    if n > 0 {
      AtNext(h, n - 1);
      hide At, Step;
      var was := At(h, n - 1);
      if Possible(was, h[n - 1]) {
        StepWritesOne(was, h[n - 1]);
      }
      if p < |was.log| {
        m := EntryWasWritten(h, n - 1, p);
      } else {
        m := n - 1;
      }
    }
  }

  lemma OnlyWritesStartDrops(s: State, e: Event, flow: nat)
    requires Possible(s, e) && flow in Step(s, e).flows && Step(s, e).flows[flow].Dropping?
    requires !(flow in s.flows && s.flows[flow] == Step(s, e).flows[flow])
    ensures e == Write(flow, Done) && |Step(s, e).log| == |s.log| + 1
    ensures var entry := Step(s, e).log[|s.log|]; entry.token == Step(s, e).flows[flow].token && entry.reported
  {
    hide TrimSpace, Read, AfterInsert, AfterUpdate;
  }

  predicate MayWrite(s: State, flow: nat) {
    flow in s.flows && !s.flows[flow].Dropping?
  }

  predicate ChecksFor(e: Event, flow: nat) {
    (e.CheckRegistration? || e.CheckReset?) && e.flow == flow
  }

  lemma MayWriteAfterStep(s: State, e: Event, flow: nat)
    requires !ChecksFor(e, flow) && (MayWrite(s, flow) ==> Possible(s, e) && e.Write? && e.flow == flow)
    ensures Possible(s, e) ==> !MayWrite(Step(s, e), flow)
  {
    hide Read, AfterInsert, AfterUpdate, Passes;
  }

  /** Over every interleaving a verification sends its statement once, whatever became of it. */
  lemma {:induction false} WritesOnce(h: seq<Event>, m: nat, n: nat, effect: Effect)
    requires m < n <= |h| && h[m].Write? && Possible(At(h, m), h[m])
    requires forall j :: m < j < n ==> !ChecksFor(h[j], h[m].flow)
    ensures !Possible(At(h, n), Write(h[m].flow, effect))
  {
    AtNext(h, n - 1);
    hide At, Step;
    if n > m + 1 {
      WritesOnce(h, m, n - 1, effect);
    }
    MayWriteAfterStep(At(h, n - 1), h[n - 1], h[m].flow);
  }

  /** A flow about to drop its code wrote with success before. */
  lemma {:induction false} DropWasEarned(h: seq<Event>, n: nat, flow: nat) returns (m: nat)
    requires n <= |h| && flow in At(h, n).flows && At(h, n).flows[flow].Dropping?
    ensures m < n && h[m] == Write(flow, Done) && WroteAt(h, m, |At(h, m).log|)
    ensures var entry := At(h, m + 1).log[|At(h, m).log|]; entry.token == At(h, n).flows[flow].token && entry.reported
  {
    hide At, Step, Possible;
    AtStart(h);
    m := 0;
    if n > 0 {
      AtNext(h, n - 1);
      var was := At(h, n - 1);
      if Possible(was, h[n - 1]) && !(flow in was.flows && was.flows[flow] == At(h, n).flows[flow]) {
        m := n - 1;
        OnlyWritesStartDrops(was, h[n - 1], flow);
      } else {
        m := DropWasEarned(h, n - 1, flow);
      }
    }
  }

  lemma DropsDrop(h: seq<Event>, j: nat, token: string)
    requires j < |h| && DroppedAt(h, j, token)
    ensures h[j].Drop? && h[j].flow in At(h, j).flows && At(h, j).flows[h[j].flow] == Dropping(token)
  {
    hide At;
  }

  /**
   * Over every interleaving, a code that was saved leaves the store only by a drop of a flow that
   * presented it, whose statement was carried out and reported: a verification that fails, and one
   * whose answer is lost, leaves the code for another attempt.
   */
  lemma GoneWasVerified(h: seq<Event>, k: nat, n: nat, token: string) returns (m: nat, j: nat)
    requires k < n <= |h| && SavedAt(h, k, token) && token !in At(h, n).world.otps
    ensures m < j < n && DroppedAt(h, j, token)
    ensures h[m] == Write(h[j].flow, Done) && WroteAt(h, m, |At(h, m).log|)
    ensures var entry := At(h, m + 1).log[|At(h, m).log|]; entry.token == token && entry.reported
  {
    hide At, Step, Possible, SavedAt, WroteAt;
    StoredIff(h, k, n, token);
    var i :| i < n && DroppedAt(h, i, token);
    DroppedIsDrop(h, i, token);
    j := i;
    DropsDrop(h, j, token);
    m := DropWasEarned(h, j, h[j].flow);
  }

  /**
   * Over every interleaving, each reset in the log was written by a flow that passed its check before
   * the first drop of its token that took effect.
   */
  lemma ResetsWereCheckedBeforeDrop(h: seq<Event>, p: nat) returns (i: nat, m: nat)
    requires p < |After(INITIAL, h).log| && !After(INITIAL, h).log[p].created
    ensures i < m < |h| && WroteAt(h, m, p) && h[m].Write?
    ensures var token := After(INITIAL, h).log[p].token; CheckedAt(h, i, h[m].flow, token) && !DroppedBefore(h, i, token)
  {
    AtEnd(h);
    m := EntryWasWritten(h, |h|, p);
    AtNext(h, m);
    hide Step, DroppedBefore, CheckedAt;
    StepWritesOne(At(h, m), h[m]);
    i := ResetWasChecked(h, m, h[m].flow);
  }

  /** A check that presents the saved code in time passes exactly when no drop took effect before it. */
  lemma CheckPassesIff(h: seq<Event>, k: nat, i: nat)
    requires k < i < |h| && h[i].CheckReset? && h[i].answered && h[i].flow !in At(h, i).flows
    requires SavedAt(h, k, h[i].token) && h[i].now < h[k].stored.until
    requires Passes(Some(h[k].stored), ForgotPassword, h[i].code)
    ensures h[i].flow in At(h, i + 1).flows <==> !DroppedBefore(h, i, h[i].token)
    ensures h[i].flow in At(h, i + 1).flows ==>
            At(h, i + 1).flows[h[i].flow] == Resetting(h[i].token, h[k].stored, h[i].code, h[i].now, h[i].digest)
  {
    StoredIff(h, k, i, h[i].token);
    AtNext(h, i);
    CheckNeedsCode(At(h, i), h[i]);
    hide At, SavedAt, DroppedBefore, Passes, Step;
  }

  lemma WriteIsLogged(s: State, e: Event)
    requires e.Write? && e.effect != NotDone
    ensures if Possible(s, e) && s.flows[e.flow].Resetting? && RowsAffected(s.world.users, s.flows[e.flow].stored.value.email) > 0 then
              var f := s.flows[e.flow];
              Step(s, e).log == s.log + [Entry(false, f.token, f.stored.value.email, f.digest, f.code, f.readAt, e.effect == Done)]
            else e.flow !in s.flows ==> !Possible(s, e)
  {
    hide RowsAffected, AfterUpdate, AfterInsert;
  }

  /**
   * And the other way round: a reset that presents in time the code saved for its token, and whose
   * statement is carried out on a live row, takes effect exactly when its check came before every
   * drop that took effect. Whatever happens between check and write, drops included, is no matter.
   */
  lemma ResetTakesEffectIff(h: seq<Event>, k: nat, i: nat, n: nat)
    requires k < i < n < |h| && h[i].CheckReset? && h[i].answered && h[i].flow !in At(h, i).flows
    requires SavedAt(h, k, h[i].token) && h[i].now < h[k].stored.until
    requires Passes(Some(h[k].stored), ForgotPassword, h[i].code)
    requires h[n].Write? && h[n].flow == h[i].flow && h[n].effect != NotDone
    requires forall m :: i < m < n ==> !OfFlow(h[m], h[i].flow)
    requires RowsAffected(At(h, n).world.users, h[k].stored.value.email) > 0
    ensures var entry := Entry(false, h[i].token, h[k].stored.value.email, h[i].digest, h[i].code, h[i].now, h[n].effect == Done);
            At(h, n + 1).log == if DroppedBefore(h, i, h[i].token) then At(h, n).log else At(h, n).log + [entry]
  {
    hide At, SavedAt, DroppedBefore, Passes, RowsAffected, OfFlow;
    CheckPassesIff(h, k, i);
    FlowStays(h, i + 1, n, h[i].flow);
    AtNext(h, n);
    hide Possible;
    WriteIsLogged(At(h, n), h[n]);
  }

  /**
   * So a deletion that worked does not make a reset token good for one reset only: two requests that
   * both check before either drops both reset.
   */
  lemma TwoChecksBeforeDropBothReset(s: State, token: string, code: string, digest: Digest, digest': Digest, now: int)
    requires 0 !in s.flows && 1 !in s.flows
    requires token in s.world.otps && RowsAffected(s.world.users, s.world.otps[token].value.email) > 0
    requires Passes(Read(s.world.otps, token, now), ForgotPassword, code)
    ensures var email := s.world.otps[token].value.email;
            var s' := After(s, [CheckReset(0, token, code, digest, now, true), CheckReset(1, token, code, digest', now, true),
                                Write(0, Done), Drop(0, Done)] + [Write(1, Done)]);
            && token !in s'.world.otps
            && s'.log == s.log + [Entry(false, token, email, digest, code, now, true), Entry(false, token, email, digest', code, now, true)]
  {
    hide TrimSpace, After, RowsAffected, Repassworded;
    var a, b := CheckReset(0, token, code, digest, now, true), CheckReset(1, token, code, digest', now, true);
    AfterOne(s, a);
    AfterMore(s, [a], b);
    assert [a] + [b] == [a, b];
    AfterMore(s, [a, b], Write(0, Done));
    assert [a, b] + [Write(0, Done)] == [a, b, Write(0, Done)];
    AfterMore(s, [a, b, Write(0, Done)], Drop(0, Done));
    assert [a, b, Write(0, Done)] + [Drop(0, Done)] == [a, b, Write(0, Done), Drop(0, Done)];
    AfterMore(s, [a, b, Write(0, Done), Drop(0, Done)], Write(1, Done));
    SameRowsAffected(s.world.users, s.world.otps[token].value.email, digest);
  }

  // Resets that do not overlap

  lemma {:induction false} SameRowsAffected(users: seq<User>, email: string, digest: Digest)
    ensures RowsAffected(Repassworded(users, email, digest), email) == RowsAffected(users, email)
  {
    if users != [] {
      SameRowsAffected(users[1..], email, digest);
    }
  }

  /** A reset that meets a live code and row, and then tries to drop the code. */
  function ResetEvents(flow: nat, token: string, code: string, digest: Digest, now: int, drop: Effect): seq<Event> {
    [CheckReset(flow, token, code, digest, now, true), Write(flow, Done), Drop(flow, drop)]
  }

  lemma ResetRuns(s: State, flow: nat, token: string, code: string, digest: Digest, now: int, drop: Effect)
    requires flow !in s.flows
    requires token in s.world.otps && RowsAffected(s.world.users, s.world.otps[token].value.email) > 0
    requires Passes(Read(s.world.otps, token, now), ForgotPassword, code)
    ensures var email := s.world.otps[token].value.email;
            After(s, ResetEvents(flow, token, code, digest, now, drop)) ==
            State(World(Repassworded(s.world.users, email, digest), if drop == NotDone then s.world.otps else s.world.otps - {token}),
                  s.flows, s.issued, s.log + [Entry(false, token, email, digest, code, now, true)])
  {
    hide TrimSpace, After, RowsAffected, Repassworded;
    var check, write, last := CheckReset(flow, token, code, digest, now, true), Write(flow, Done), Drop(flow, drop);
    AfterThree(s, check, write, last);
    AfterOne(s, check);
    AfterOne(After(s, [check]), write);
    AfterOne(After(After(s, [check]), [write]), last);
    assert s.flows[flow := Dropping(token)] - {flow} == s.flows;
  }

  /** Of two resets that do not overlap, the second works exactly when the deletion after the first was lost. */
  lemma SecondResetIffDropLost(s: State, flow: nat, token: string, code: string, digest: Digest, now: int, drop: Effect,
                               code': string, digest': Digest, later: int)
    requires flow !in s.flows
    requires token in s.world.otps && RowsAffected(s.world.users, s.world.otps[token].value.email) > 0
    requires Passes(Read(s.world.otps, token, now), ForgotPassword, code)
    requires Passes(Read(s.world.otps, token, later), ForgotPassword, code')
    ensures var once := After(s, ResetEvents(flow, token, code, digest, now, drop));
            var twice := After(once, ResetEvents(flow, token, code', digest', later, Done));
            && |once.log| == |s.log| + 1
            && (|twice.log| == |once.log| + 1 <==> drop == NotDone)
  {
    hide TrimSpace, After, RowsAffected, Repassworded;
    var email := s.world.otps[token].value.email;
    ResetRuns(s, flow, token, code, digest, now, drop);
    SameRowsAffected(s.world.users, email, digest);
    var once := After(s, ResetEvents(flow, token, code, digest, now, drop));
    if drop == NotDone {
      ResetRuns(once, flow, token, code', digest', later, Done);
    } else {
      DroppedRunsNothing(once, flow, token, code', digest', later);
    }
  }

  lemma DroppedRunsNothing(s: State, flow: nat, token: string, code: string, digest: Digest, now: int)
    requires flow !in s.flows && token !in s.world.otps
    ensures After(s, ResetEvents(flow, token, code, digest, now, Done)) == s
  {
    hide TrimSpace, After, RowsAffected, Repassworded;
    var check, write, last := CheckReset(flow, token, code, digest, now, true), Write(flow, Done), Drop(flow, Done);
    AfterThree(s, check, write, last);
    AfterOne(s, check);
    AfterOne(s, write);
    AfterOne(s, last);
  }
}
