// Refresh-token sessions over the revocation allowlist (auth.service.ts): any number of
// logins, rotations and revocations, one store access or lookup per step.
module Sessions {
  import opened Wrappers
  import opened Redis

  // exp is in seconds, as in the JWT; the clock and Redis deadlines are in milliseconds.
  datatype Token = Token(sub: nat, jti: string, family: string, exp: int)

  // A signed refresh token, or anything whose verification as one fails: forged tokens, and
  // access tokens, which the secret or the type check rejects.
  datatype Jwt = Refresh(token: Token) | NotRefresh

  const REFRESH_TOKEN_TTL_SECONDS: int := 604_800

  datatype Job = Login(sub: nat) | Rotate(jwt: Jwt) | Revoke(jwt: Jwt)

  datatype Pc =
    | Verify                     // decode the presented token
    | Get(token: Token)          // rotateRefresh reads the allowlist
    | DropFamily(token: Token)   // the stored jti is another one: delete the key, refuse
    | FindUser(token: Token)
    | Sign(sub: nat)             // issueTokens, up to the store access
    | Store(token: Token)
    | Delete(token: Token)       // revokeRefresh deletes the key
    | Issued(token: Token)       // tokens were returned
    | Finished                   // revokeRefresh returned
    | Unauthorized
    | Threw                      // a store error propagated

  datatype Call = Call(job: Job, pc: Pc)

  // known: the refresh tokens that have been returned to a client.
  datatype State = State(store: map<string, Entry>, now: int, users: set<nat>, signed: set<Token>, known: set<Token>, calls: map<nat, Call>)

  datatype Action =
    | Begin(c: nat, job: Job)
    | Step(c: nat, jti: string, family: string, access: Access)  // jti, family: what randomUUID() yields
    | Tick(ms: nat)
    | UserJoins(id: nat)
    | UserLeaves(id: nat)

  predicate Unexpired(t: Token, now: int) { now / 1000 < t.exp }

  // The JWT library accepts exactly the unexpired tokens that were signed.
  predicate Accepted(s: State, jwt: Jwt) {
    jwt.Refresh? && jwt.token in s.signed && Unexpired(jwt.token, s.now)
  }

  predicate FreshUuids(s: State, jti: string, family: string) {
    forall t :: t in s.signed ==> t.jti != jti && t.family != family
  }

  // A client can present what it was given.
  predicate Presentable(s: State, job: Job) {
    job.Login? || job.jwt.NotRefresh? || job.jwt.token in s.known
  }

  function FirstPc(job: Job): Pc {
    if job.Login? then Sign(job.sub) else Verify
  }

  function Advance(s: State, k: Call, a: Action): (State, Pc)
    requires a.Step?
  {
    match k.pc
    case Verify =>
      if Accepted(s, if k.job.Login? then NotRefresh else k.job.jwt) then
        (s, if k.job.Rotate? then Get(k.job.jwt.token) else Delete(k.job.jwt.token))
      else (s, if k.job.Revoke? then Finished else Unauthorized)
    case Get(t) =>
      if a.access != Works then (s, Threw)
      else if Lookup(s.store, t.family, s.now).None? then (s, Unauthorized)
      else if Lookup(s.store, t.family, s.now) != Some(t.jti) then (s, DropFamily(t))
      else (s, FindUser(t))
    case DropFamily(t) =>
      (if a.access.FailsUnapplied? then s else s.(store := s.store - {t.family}), if a.access.Works? then Unauthorized else Threw)
    case FindUser(t) => (s, if t.sub in s.users then Sign(t.sub) else Unauthorized)
    case Sign(sub) =>
      if !FreshUuids(s, a.jti, a.family) then (s, k.pc)
      else
        var t := Token(sub, a.jti, a.family, s.now / 1000 + REFRESH_TOKEN_TTL_SECONDS);
        (s.(signed := s.signed + {t}), Store(t))
    case Store(t) =>
      var stored := s.(store := s.store[t.family := WithOptionalTtl(t.jti, Some(REFRESH_TOKEN_TTL_SECONDS), s.now)]);
      if a.access.Works? then (stored.(known := s.known + {t}), Issued(t))
      else (if a.access.FailsApplied? then stored else s, Threw)
    case Delete(t) =>
      (if a.access.FailsUnapplied? then s else s.(store := s.store - {t.family}), if a.access.Works? then Finished else Threw)
    case _ => (s, k.pc)
  }

  function Exec(s: State, a: Action): State {
    match a
    case Begin(c, job) =>
      if c in s.calls || !Presentable(s, job) then s else s.(calls := s.calls[c := Call(job, FirstPc(job))])
    case Step(c, _, _, _) =>
      if c !in s.calls then s
      else
        var (s', pc) := Advance(s, s.calls[c], a);
        s'.(calls := s.calls[c := Call(s.calls[c].job, pc)])
    case Tick(ms) => s.(now := s.now + ms)
    case UserJoins(id) => s.(users := s.users + {id})
    case UserLeaves(id) => s.(users := s.users - {id})
  }

  function RunAll(s: State, run: seq<Action>): State {
    if run == [] then s else Exec(RunAll(s, run[..|run| - 1]), run[|run| - 1])
  }

  ghost predicate Initial(s: State) {
    s.store == map[] && s.signed == {} && s.known == {} && s.calls == map[]
  }

  // ---------- the invariant of every reachable state ----------

  // The entry has this value and a deadline no earlier than the given instant.
  predicate HoldsUntil(e: Entry, value: string, at: int) {
    e.value == value && e.deadline.Some? && e.deadline.value >= at
  }

  // The key, if there, is the token's own, and outlives the token.
  ghost predicate OwnKey(s: State, t: Token) {
    t.family in s.store ==> HoldsUntil(s.store[t.family], t.jti, t.exp * 1000)
  }

  // The user a call issues tokens for: the one who logs in, or whose token is rotated.
  predicate IsFor(job: Job, sub: nat) {
    match job
    case Login(user) => sub == user
    case Rotate(jwt) => jwt.Refresh? && sub == jwt.token.sub
    case Revoke(_) => false
  }

  ghost predicate CallOk(s: State, k: Call) {
    match k.pc
    case Verify => !k.job.Login? && (k.job.jwt.Refresh? ==> k.job.jwt.token in s.known)
    case Get(t) => k.job == Rotate(Refresh(t)) && t in s.known
    case DropFamily(_) => false
    case FindUser(t) => k.job == Rotate(Refresh(t)) && t in s.known
    case Sign(sub) => IsFor(k.job, sub)
    case Store(t) =>
      && IsFor(k.job, t.sub) && t in s.signed && t !in s.known && t.family !in s.store
      && (t.exp - REFRESH_TOKEN_TTL_SECONDS) * 1000 <= s.now
    case Delete(t) => k.job == Revoke(Refresh(t)) && t in s.known
    case Finished => k.job.Revoke? && (k.job.jwt.Refresh? ==> Dead(s, k.job.jwt.token))
    case Issued(t) => IsFor(k.job, t.sub) && t in s.known
    case _ => true
  }

  // A returned token that will never be accepted again.
  ghost predicate Dead(s: State, t: Token) {
    t in s.known && (t.family !in s.store || !Unexpired(t, s.now))
  }

  // The allowlist against the tokens ever signed.
  ghost predicate StoreOk(s: State) {
    && s.known <= s.signed
    && (forall t, u :: t in s.signed && u in s.signed && t.family == u.family ==> t == u)
    && (forall t :: t in s.signed ==> OwnKey(s, t))
    && (forall f :: f in s.store ==> exists t :: t in s.signed && t.family == f)
  }

  ghost predicate DistinctStores(s: State) {
    forall c, d :: c in s.calls && d in s.calls && c != d && s.calls[c].pc.Store? && s.calls[d].pc.Store? ==>
      s.calls[c].pc.token != s.calls[d].pc.token
  }

  ghost predicate Inv(s: State) {
    StoreOk(s) && (forall c :: c in s.calls ==> CallOk(s, s.calls[c])) && DistinctStores(s)
  }

  // A newly signed token, whose jti and family are unlike all others.
  lemma SigningKeepsStore(s: State, t: Token)
    requires StoreOk(s) && FreshUuids(s, t.jti, t.family)
    ensures StoreOk(s.(signed := s.signed + {t}))
  {
  }

  // The key of a signed token is written with its own jti, for its whole life.
  lemma StoringKeepsStore(s: State, t: Token, now: int)
    requires StoreOk(s) && t in s.signed && (t.exp - REFRESH_TOKEN_TTL_SECONDS) * 1000 <= now
    ensures StoreOk(s.(store := s.store[t.family := WithOptionalTtl(t.jti, Some(REFRESH_TOKEN_TTL_SECONDS), now)]))
  {
  }

  lemma DroppingKeepsStore(s: State, family: string)
    requires StoreOk(s)
    ensures StoreOk(s.(store := s.store - {family}))
  {
    assert forall u :: u in s.signed ==> OwnKey(s, u);
  }

  lemma AdvanceKeepsStore(s: State, k: Call, a: Action)
    requires StoreOk(s) && CallOk(s, k) && a.Step?
    ensures StoreOk(Advance(s, k, a).0)
  {
    match k.pc
    case Sign(sub) =>
      var t := Token(sub, a.jti, a.family, s.now / 1000 + REFRESH_TOKEN_TTL_SECONDS);
      if FreshUuids(s, a.jti, a.family) { SigningKeepsStore(s, t); }
    case Store(t) => StoringKeepsStore(s, t, s.now);
    case Delete(t) => DroppingKeepsStore(s, t.family);
    case _ =>
  }

  lemma AdvanceKeepsOwnCall(s: State, k: Call, a: Action)
    requires StoreOk(s) && CallOk(s, k) && a.Step?
    ensures CallOk(Advance(s, k, a).0, Call(k.job, Advance(s, k, a).1))
  {
    if k.pc.Get? {
      assert OwnKey(s, k.pc.token);
    }
    if k.pc.Sign? && FreshUuids(s, a.jti, a.family) {
      assert forall t :: t in s.signed ==> t.family != a.family;
    }
  }

  lemma AdvanceKeepsOtherCall(s: State, k: Call, a: Action, l: Call)
    requires StoreOk(s) && CallOk(s, k) && CallOk(s, l) && a.Step?
    requires k.pc.Store? && l.pc.Store? ==> k.pc.token != l.pc.token
    ensures CallOk(Advance(s, k, a).0, l)
  {
    if k.pc.Store? && l.pc.Finished? && l.job.jwt.Refresh? {
      assert Dead(s, l.job.jwt.token) && l.job.jwt.token != k.pc.token;
    }
  }

  // A call that has just signed holds a token no other call is about to store.
  lemma AdvanceKeepsDistinct(s: State, k: Call, a: Action, l: Call)
    requires a.Step? && CallOk(s, l) && l.pc.Store? && !k.pc.Store? && Advance(s, k, a).1.Store?
    ensures Advance(s, k, a).1.token != l.pc.token
  {
  }

  // The calls of a state play no part in what a call's own state says.
  lemma CallOkIgnoresCalls(s: State, calls: map<nat, Call>, l: Call)
    ensures CallOk(s.(calls := calls), l) <==> CallOk(s, l)
  {
  }

  lemma StepKeepsInv(s: State, a: Action)
    requires Inv(s)
    ensures Inv(Exec(s, a))
  {
    if a.Step? && a.c in s.calls {
      AdvanceStepKeepsInv(s, a);
    } else {
      var s' := Exec(s, a);
      forall d | d in s'.calls ensures CallOk(s', s'.calls[d]) {
        if d in s.calls { assert CallOk(s, s.calls[d]); }
      }
    }
  }

  lemma AdvanceStepKeepsInv(s: State, a: Action)
    requires Inv(s) && a.Step? && a.c in s.calls
    ensures Inv(Exec(s, a))
  {
    var s', k := Exec(s, a), s.calls[a.c];
    assert CallOk(s, k);
    AdvanceKeepsStore(s, k, a);
    AdvanceKeepsOwnCall(s, k, a);
    forall d | d in s'.calls ensures CallOk(s', s'.calls[d]) {
      CallOkIgnoresCalls(Advance(s, k, a).0, s'.calls, s'.calls[d]);
      if d != a.c {
        AdvanceKeepsOtherCall(s, k, a, s.calls[d]);
      }
    }
    forall d | d in s.calls && d != a.c && s.calls[d].pc.Store? && s'.calls[a.c].pc.Store?
      ensures s.calls[d].pc.token != s'.calls[a.c].pc.token
    {
      if !k.pc.Store? { AdvanceKeepsDistinct(s, k, a, s.calls[d]); }
    }
  }

  lemma {:induction false} RunKeepsInv(s: State, run: seq<Action>)
    requires Initial(s)
    ensures Inv(RunAll(s, run))
  {
    if run != [] {
      RunKeepsInv(s, run[..|run| - 1]);
      StepKeepsInv(RunAll(s, run[..|run| - 1]), run[|run| - 1]);
    }
  }

  // Main result 1. In every reachable state the store holds, under the family of a signed
  // token, that token's own jti until at least the token's expiry, or nothing: rotateRefresh
  // never takes its mismatch branch.
  lemma FamilyHoldsOwnJti(s: State, run: seq<Action>, end: State)
    requires Initial(s) && end == RunAll(s, run)
    ensures forall t :: t in end.signed && t.family in end.store ==>
              HoldsUntil(end.store[t.family], t.jti, t.exp * 1000)
    ensures forall c :: c in end.calls ==> !end.calls[c].pc.DropFamily?
  {
    RunKeepsInv(s, run);
    assert forall t :: t in end.signed ==> OwnKey(end, t);
    assert forall c :: c in end.calls ==> CallOk(end, end.calls[c]);
  }

  // ---------- whose session a call hands out, and for how long ----------

  // The instant a token still to be handed out was signed for lies between two instants.
  ghost predicate SignedBetween(k: Call, from: int, now: int) {
    k.pc.Store? || k.pc.Issued? ==> from / 1000 + 604_800 <= k.pc.token.exp <= now / 1000 + 604_800
  }

  lemma {:induction false} TokensLastAWeek(s: State, run1: seq<Action>, began: State, run2: seq<Action>, c: nat)
    requires Initial(s) && began == RunAll(s, run1) && c !in began.calls
    ensures began.now <= RunAll(began, run2).now
    ensures c in RunAll(began, run2).calls ==> SignedBetween(RunAll(began, run2).calls[c], began.now, RunAll(began, run2).now)
  {
    if run2 != [] {
      TokensLastAWeek(s, run1, began, run2[..|run2| - 1], c);
    }
  }

  // Main result 4. Over every run, the tokens a login hands out are for the user who logged
  // in, those of a rotation for the user of the rotated token, and both expire 604,800 s after
  // an instant during the call.
  lemma SessionsAreForTheirUser(s: State, run1: seq<Action>, began: State, run2: seq<Action>, end: State, c: nat, t: Token)
    requires Initial(s) && began == RunAll(s, run1) && end == RunAll(began, run2)
    requires c !in began.calls && c in end.calls && end.calls[c].pc == Issued(t)
    ensures end.calls[c].job.Login? ==> t.sub == end.calls[c].job.sub
    ensures end.calls[c].job.Rotate? ==> end.calls[c].job.jwt.Refresh? && t.sub == end.calls[c].job.jwt.token.sub
    ensures !end.calls[c].job.Revoke?
    ensures began.now / 1000 + 604_800 <= t.exp <= end.now / 1000 + 604_800
  {
    RunKeepsInv(s, run1);
    RunOnKeepsInv(began, run2);
    assert CallOk(end, end.calls[c]);
    TokensLastAWeek(s, run1, began, run2, c);
  }

  lemma {:induction false} RunOnKeepsInv(s: State, run: seq<Action>)
    requires Inv(s)
    ensures Inv(RunAll(s, run))
  {
    if run != [] {
      RunOnKeepsInv(s, run[..|run| - 1]);
      StepKeepsInv(RunAll(s, run[..|run| - 1]), run[|run| - 1]);
    }
  }

  // ---------- exactly which tokens are accepted ----------

  // What rotateRefresh(t) would decide if its checks ran at this instant.
  predicate WouldRotate(s: State, t: Token) {
    Accepted(s, Refresh(t)) && Lookup(s.store, t.family, s.now) == Some(t.jti) && t.sub in s.users
  }

  function ThreeSteps(s: State, c: nat): State {
    var a := Step(c, "", "", Works);
    Exec(Exec(Exec(s, a), a), a)
  }

  // Three statements of a rotation run together decide exactly that: on to issuing tokens for
  // the token's user, or Unauthorized.
  lemma ChecksDecide(s: State, c: nat, t: Token)
    requires Inv(s) && c in s.calls && s.calls[c] == Call(Rotate(Refresh(t)), Verify)
    ensures ThreeSteps(s, c).calls[c].pc == if WouldRotate(s, t) then Sign(t.sub) else Unauthorized
    ensures ThreeSteps(s, c).store == s.store && ThreeSteps(s, c).signed == s.signed
  {
    assert CallOk(s, s.calls[c]) && OwnKey(s, t);
  }

  // The two statements of issueTokens that follow, for a login too: the pair is handed out
  // exactly if the store answers, and its key is stored for 604,800 s.
  lemma IssuingDecides(s: State, c: nat, sub: nat, jti: string, family: string, access: Access, t: Token)
    requires c in s.calls && s.calls[c].pc == Sign(sub) && FreshUuids(s, jti, family)
    requires t == Token(sub, jti, family, s.now / 1000 + 604_800)
    ensures var end := Exec(Exec(s, Step(c, jti, family, access)), Step(c, jti, family, access));
            && c in end.calls && end.calls[c].pc == (if access.Works? then Issued(t) else Threw)
            && end.known == (if access.Works? then s.known + {t} else s.known)
            && end.store == (if access.FailsUnapplied? then s.store else s.store[family := Entry(jti, Some(s.now + 604_800_000))])
  {
    var a, k := Step(c, jti, family, access), s.calls[c];
    var signed := s.(signed := s.signed + {t}, calls := s.calls[c := Call(k.job, Store(t))]);
    SignStep(s, c, a, t);
    assert Exec(s, a) == signed;
    StoreStep(signed, c, a, t);
  }

  lemma SignStep(s: State, c: nat, a: Action, t: Token)
    requires a.Step? && a.c == c && c in s.calls && s.calls[c].pc.Sign? && FreshUuids(s, a.jti, a.family)
    requires t == Token(s.calls[c].pc.sub, a.jti, a.family, s.now / 1000 + 604_800)
    ensures Exec(s, a) == s.(signed := s.signed + {t}, calls := s.calls[c := Call(s.calls[c].job, Store(t))])
  {
  }

  lemma StoreStep(s: State, c: nat, a: Action, t: Token)
    requires a.Step? && a.c == c && c in s.calls && s.calls[c].pc == Store(t)
    ensures c in Exec(s, a).calls && Exec(s, a).calls[c].pc == (if a.access.Works? then Issued(t) else Threw)
    ensures Exec(s, a).known == (if a.access.Works? then s.known + {t} else s.known)
    ensures Exec(s, a).store ==
            (if a.access.FailsUnapplied? then s.store else s.store[t.family := Entry(t.jti, Some(s.now + 604_800_000))])
  {
  }

  // What is no signed, unexpired refresh token a rotation refuses, and a revocation takes for
  // revoked already.
  lemma VerificationDecides(s: State, c: nat, jwt: Jwt, access: Access)
    requires c in s.calls && (s.calls[c] == Call(Rotate(jwt), Verify) || s.calls[c] == Call(Revoke(jwt), Verify))
    ensures var valid := jwt.Refresh? && jwt.token in s.signed && s.now / 1000 < jwt.token.exp;
            var once := Exec(s, Step(c, "", "", access));
            && once.store == s.store && c in once.calls
            && once.calls[c].pc == (if s.calls[c].job.Rotate? then (if valid then Get(jwt.token) else Unauthorized)
                                    else (if valid then Delete(jwt.token) else Finished))
  {
  }

  // A revocation then deletes the token's key, and fails only with the store.
  lemma DeletionDecides(s: State, c: nat, t: Token, access: Access)
    requires c in s.calls && s.calls[c].pc == Delete(t)
    ensures var once := Exec(s, Step(c, "", "", access));
            && once.store == (if access.FailsUnapplied? then s.store else s.store - {t.family})
            && c in once.calls && once.calls[c].pc == (if access.Works? then Finished else Threw)
  {
  }

  // Some step of the run deleted t's key for a revocation of t.
  ghost predicate Revoked(s: State, run: seq<Action>, t: Token) {
    run != [] &&
    var before, a := RunAll(s, run[..|run| - 1]), run[|run| - 1];
    || Revoked(s, run[..|run| - 1], t)
    || (a.Step? && a.c in before.calls && before.calls[a.c].pc == Delete(t) && !a.access.FailsUnapplied?)
  }

  lemma {:induction false} KeyStaysUntilRevoked(s: State, run: seq<Action>, t: Token)
    requires Initial(s) && t in RunAll(s, run).known
    ensures t.family in RunAll(s, run).store <==> !Revoked(s, run, t)
  {
    var before, a := RunAll(s, run[..|run| - 1]), run[|run| - 1];
    RunKeepsInv(s, run[..|run| - 1]);
    if t in before.known {
      KeyStaysUntilRevoked(s, run[..|run| - 1], t);
    } else {
      NotRevokedBeforeKnown(s, run[..|run| - 1], t);
    }
    if a.Step? && a.c in before.calls {
      assert CallOk(before, before.calls[a.c]);
    }
  }

  lemma {:induction false} NotRevokedBeforeKnown(s: State, run: seq<Action>, t: Token)
    requires Initial(s) && t !in RunAll(s, run).known
    ensures !Revoked(s, run, t)
  {
    if run != [] {
      var before, a := RunAll(s, run[..|run| - 1]), run[|run| - 1];
      NotRevokedBeforeKnown(s, run[..|run| - 1], t);
      RunKeepsInv(s, run[..|run| - 1]);
      if a.Step? && a.c in before.calls {
        assert CallOk(before, before.calls[a.c]);
      }
    }
  }

  // Main result 2. After any run, a token that was handed out is accepted exactly while it is
  // unexpired, unrevoked and its user exists. (Rotating it does not end that: the new pair
  // has a family of its own.)
  lemma AcceptedExactly(s: State, run: seq<Action>, t: Token, end: State)
    requires Initial(s) && end == RunAll(s, run) && t in end.known
    ensures WouldRotate(end, t) <==> end.now / 1000 < t.exp && !Revoked(s, run, t) && t.sub in end.users
  {
    RunKeepsInv(s, run);
    KeyStaysUntilRevoked(s, run, t);
    assert OwnKey(end, t);
  }

  // ---------- a completed revocation is final ----------

  // A rotation of t that began after the revocation has not got past the allowlist.
  ghost predicate Stopped(s: State, k: Call, t: Token) {
    k.job == Rotate(Refresh(t)) ==>
      || k.pc.Verify? || k.pc.Unauthorized? || k.pc.Threw?
      || (k.pc == Get(t) && t.family !in s.store)
  }

  lemma StepKeepsDead(s: State, a: Action, t: Token)
    requires Inv(s) && Dead(s, t)
    ensures Dead(Exec(s, a), t)
    ensures t.family !in s.store ==> t.family !in Exec(s, a).store
  {
    if a.Step? && a.c in s.calls {
      assert CallOk(s, s.calls[a.c]);
    }
  }

  lemma {:induction false} LaterRotationsStop(s: State, run1: seq<Action>, revoked: State, run2: seq<Action>, t: Token)
    requires Initial(s) && revoked == RunAll(s, run1) && Dead(revoked, t)
    ensures Inv(RunAll(revoked, run2)) && Dead(RunAll(revoked, run2), t)
    ensures forall c :: c in RunAll(revoked, run2).calls && c !in revoked.calls ==>
              Stopped(RunAll(revoked, run2), RunAll(revoked, run2).calls[c], t)
  {
    RunKeepsInv(s, run1);
    if run2 != [] {
      var before, a := RunAll(revoked, run2[..|run2| - 1]), run2[|run2| - 1];
      LaterRotationsStop(s, run1, revoked, run2[..|run2| - 1], t);
      StepKeepsInv(before, a);
      StepKeepsDead(before, a, t);
      StepKeepsStopped(before, a, t, revoked.calls.Keys);
    }
  }

  lemma StepKeepsStopped(s: State, a: Action, t: Token, earlier: set<nat>)
    requires Inv(s) && Dead(s, t)
    requires forall c :: c in s.calls && c !in earlier ==> Stopped(s, s.calls[c], t)
    ensures forall c :: c in Exec(s, a).calls && c !in earlier ==> Stopped(Exec(s, a), Exec(s, a).calls[c], t)
  {
    var s' := Exec(s, a);
    StepKeepsDead(s, a, t);
    forall c | c in s'.calls && c !in earlier ensures Stopped(s', s'.calls[c], t) {
      if c in s.calls {
        assert Stopped(s, s.calls[c], t) && CallOk(s, s.calls[c]);
      }
    }
  }

  // Main result 3. Once revokeRefresh(t) has returned, no rotateRefresh(t) begun later ever
  // returns tokens, whatever else runs.
  lemma RevocationIsFinal(s: State, run1: seq<Action>, revoked: State, r: nat, t: Token, run2: seq<Action>, end: State, c: nat)
    requires Initial(s) && revoked == RunAll(s, run1) && end == RunAll(revoked, run2)
    requires r in revoked.calls && revoked.calls[r] == Call(Revoke(Refresh(t)), Finished)
    requires c in end.calls && c !in revoked.calls && end.calls[c].job == Rotate(Refresh(t))
    ensures !end.calls[c].pc.Issued?
  {
    RunKeepsInv(s, run1);
    assert CallOk(revoked, revoked.calls[r]);
    LaterRotationsStop(s, run1, revoked, run2, t);
    assert Stopped(end, end.calls[c], t);
  }

  // Fail-closed: a call whose store access reports an error throws, and no token it has
  // signed becomes known.
  lemma StoreErrorsIssueNothing(s: State, a: Action)
    requires a.Step? && a.c in s.calls && !a.access.Works?
    requires s.calls[a.c].pc.Get? || s.calls[a.c].pc.DropFamily? || s.calls[a.c].pc.Store? || s.calls[a.c].pc.Delete?
    ensures Exec(s, a).calls[a.c].pc == Threw && Exec(s, a).known == s.known
  {
  }

  // ---------- the service itself, one call at a time ----------

  // The state once issueTokens has signed t and, if the store answered, stored its key.
  function WithIssued(s: State, t: Token, stored: bool): State {
    var s' := s.(signed := s.signed + {t});
    if stored then s'.(store := s.store[t.family := WithOptionalTtl(t.jti, Some(REFRESH_TOKEN_TTL_SECONDS), s.now)]) else s'
  }

  // Issuing a pair changes nothing for the tokens signed before.
  lemma IssuingLeavesOthers(s: State, t: Token, stored: bool)
    requires StoreOk(s) && FreshUuids(s, t.jti, t.family) && t.exp == s.now / 1000 + REFRESH_TOKEN_TTL_SECONDS
    ensures StoreOk(WithIssued(s, t, stored))
    ensures forall u :: u in s.signed ==> (WouldRotate(WithIssued(s, t, stored), u) <==> WouldRotate(s, u))
  {
    SigningKeepsStore(s, t);
    StoringKeepsStore(s.(signed := s.signed + {t}), t, s.now);
  }

  datatype AuthError = NotAuthorized | StoreUnavailable

  // signed: what the JWT service has signed as refresh tokens.
  class AuthService {
    const redis: RedisService
    var users: set<nat>
    var signed: set<Token>

    ghost function Snapshot(): State
      reads this, redis
    {
      State(redis.entries, redis.now, users, signed, {}, map[])
    }

    constructor (redis: RedisService)
      ensures this.redis == redis && users == {} && signed == {}
    {
      this.redis := redis;
      users, signed := {}, {};
    }

    method IssueTokens(sub: nat, jti: string, family: string, up: bool) returns (r: Result<Token, AuthError>)
      requires FreshUuids(Snapshot(), jti, family)
      modifies this`signed, redis`entries
      ensures r == if up then Success(Token(sub, jti, family, redis.now / 1000 + 604_800)) else Failure(StoreUnavailable)
      ensures redis.entries == if up then old(redis.entries)[family := Entry(jti, Some(redis.now + 604_800_000))] else old(redis.entries)
      ensures signed == old(signed) + {Token(sub, jti, family, redis.now / 1000 + 604_800)}
      ensures StoreOk(old(Snapshot())) ==>
                && StoreOk(Snapshot())
                && forall t :: t in old(signed) ==> (WouldRotate(Snapshot(), t) <==> WouldRotate(old(Snapshot()), t))
      ensures up && sub in users ==> WouldRotate(Snapshot(), r.value)
    {
      var token := Token(sub, jti, family, redis.now / 1000 + REFRESH_TOKEN_TTL_SECONDS);
      ghost var before := Snapshot();
      signed := signed + {token};
      var stored := redis.SetOrThrow(family, jti, Some(REFRESH_TOKEN_TTL_SECONDS), up);
      assert Snapshot() == WithIssued(before, token, up);
      if StoreOk(before) { IssuingLeavesOthers(before, token, up); }
      if stored.Failure? { return Failure(StoreUnavailable); }
      return Success(token);
    }

    // read, write: whether the store answers the lookup, and the write of the new pair.
    method RotateRefresh(jwt: Jwt, jti: string, family: string, read: bool, write: bool) returns (r: Result<Token, AuthError>)
      requires FreshUuids(Snapshot(), jti, family)
      modifies this`signed, redis`entries
      ensures r.Success? <==> read && write && jwt.Refresh? && WouldRotate(old(Snapshot()), jwt.token)
      ensures r == Failure(StoreUnavailable) <==>
                && jwt.Refresh? && jwt.token in old(signed) && redis.now / 1000 < jwt.token.exp
                && (!read || (!write && (WouldRotate(old(Snapshot()), jwt.token)
                                         || Lookup(old(redis.entries), jwt.token.family, redis.now) !in [None, Some(jwt.token.jti)])))
      ensures r.Success? ==>
                && r.value == Token(jwt.token.sub, jti, family, redis.now / 1000 + 604_800) && WouldRotate(Snapshot(), r.value)
                && redis.entries == old(redis.entries)[family := Entry(jti, Some(redis.now + 604_800_000))]
      ensures r.Failure? ==>
                if read && write && jwt.Refresh? && jwt.token in old(signed) && redis.now / 1000 < jwt.token.exp
                   && Lookup(old(redis.entries), jwt.token.family, redis.now) !in [None, Some(jwt.token.jti)]
                then redis.entries == old(redis.entries) - {jwt.token.family} else redis.entries == old(redis.entries)
      ensures StoreOk(old(Snapshot())) ==>
                && StoreOk(Snapshot()) && (Accepted(old(Snapshot()), jwt) ==> Lookup(old(redis.entries), jwt.token.family, redis.now) in [None, Some(jwt.token.jti)])
                && forall t :: t in old(signed) ==> (WouldRotate(Snapshot(), t) <==> WouldRotate(old(Snapshot()), t))
    {
      if !(jwt.Refresh? && jwt.token in signed && redis.now / 1000 < jwt.token.exp) { return Failure(NotAuthorized); }
      var token := jwt.token;
      assert StoreOk(Snapshot()) ==> OwnKey(Snapshot(), token);
      var storedJti := redis.GetOrThrow(token.family, read);
      if storedJti.Failure? { return Failure(StoreUnavailable); }
      if storedJti.value.None? { return Failure(NotAuthorized); }
      if storedJti.value.value != token.jti {
        var dropped := redis.DelOrThrow(token.family, write);
        return Failure(if dropped.Failure? then StoreUnavailable else NotAuthorized);
      }
      if token.sub !in users { return Failure(NotAuthorized); }
      r := IssueTokens(token.sub, jti, family, write);
    }

    method RevokeRefresh(jwt: Jwt, up: bool) returns (r: Result<(), AuthError>)
      requires StoreOk(Snapshot())
      modifies redis`entries
      ensures r.Failure? <==> jwt.Refresh? && jwt.token in signed && redis.now / 1000 < jwt.token.exp && !up
      ensures r.Success? && jwt.Refresh? ==> !WouldRotate(Snapshot(), jwt.token)
      ensures forall t :: t in signed && jwt != Refresh(t) ==> (WouldRotate(Snapshot(), t) <==> WouldRotate(old(Snapshot()), t))
      ensures r.Failure? ==> redis.entries == old(redis.entries)
      ensures StoreOk(Snapshot())
    {
      if !(jwt.Refresh? && jwt.token in signed && redis.now / 1000 < jwt.token.exp) { return Success(()); }
      assert forall t :: t in signed ==> OwnKey(Snapshot(), t);
      var deleted := redis.DelOrThrow(jwt.token.family, up);
      return if deleted.Failure? then Failure(StoreUnavailable) else Success(());
    }
  }
}
