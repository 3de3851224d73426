// Any number of concurrent sign-ins with one provider identity end with one user and one
// account, and why the hypotheses are needed.
module SignInConvergence {
  import opened Wrappers
  import opened Accounts

  // ---------- concurrent sign-in with one identity converges ----------

  predicate SignsIn(job: Job, identity: Identity) {
    job.SignIn? && job.identity == identity
  }

  // The hypotheses, for the emails the identity is presented with: every call with one of
  // them is a sign-in with the identity, and their users are linked to no other account of
  // the provider.
  ghost predicate OneIdentity(s: State, identity: Identity, emails: set<string>) {
    && (forall c :: c in s.calls ==> (SignsIn(s.calls[c].job, identity) <==> s.calls[c].job.email in emails))
    && OnlyAccount(s.tables, identity, emails)
  }

  ghost predicate OnlyAccount(t: Tables, identity: Identity, emails: set<string>) {
    forall u, a :: u in t.users && u.email in emails && a in t.accounts && a.userId == u.id && a.identity.provider == identity.provider
      ==> a.identity == identity
  }

  ghost predicate KeepsConnection(run: seq<Action>, s: State, identity: Identity) {
    forall i :: 0 <= i < |run| && run[i].Lose? ==> run[i].call !in s.calls || !SignsIn(s.calls[run[i].call].job, identity)
  }

  // The identity's account is the one it had at the start, or belongs to a user with one of
  // the emails; a new user with one of the emails is the one it belongs to.
  ghost predicate AccountOfEmails(t0: Tables, t: Tables, identity: Identity, emails: set<string>) {
    && (forall a :: a in t.accounts && a.identity == identity ==>
          a in t0.accounts || exists u :: u in t.users && u.id == a.userId && u.email in emails)
    && (forall u :: u in t.users && u.email in emails ==> u in t0.users || Account(identity, u.id) in t.accounts)
  }

  // A call of the identity, given the users there were at the start.
  ghost predicate CallConverges(t0: Tables, t: Tables, k: Call, identity: Identity) {
    && !k.pc.Threw?
    && (k.pc.InsertUser? ==> !HasEmail(t0.users, k.job.email))
    && (k.attempt == 2 ==>
          && Linked(t, identity) && k.newUser.None? && k.newAccount.None?
          && (k.pc.FindAccountRow? || k.pc.LoadUser? || k.pc.Commit? || k.pc.Returned?))
  }

  ghost predicate Converging(s0: State, s: State, identity: Identity, emails: set<string>) {
    && OneIdentity(s, identity, emails)
    && AccountOfEmails(s0.tables, s.tables, identity, emails)
    && forall c :: c in s.calls && SignsIn(s.calls[c].job, identity) ==> CallConverges(s0.tables, s.tables, s.calls[c], identity)
  }

  // The retry of a call finds the identity linked.
  lemma ViolationMeansLinked(t0: Tables, t: Tables, k: Call, identity: Identity, emails: set<string>, uuid: UserId)
    requires ValidTables(t) && CallOk(t, k) && PendingOk(t, k) && k.Active()
    requires SignsIn(k.job, identity) && k.job.email in emails && CallConverges(t0, t, k, identity)
    requires OnlyAccount(t, identity, emails) && AccountOfEmails(t0, t, identity, emails)
    requires Statement(t, k, uuid) == Violate(k)
    ensures Linked(t, identity)
  {
  }

  lemma StatementConverges(t0: Tables, t: Tables, k: Call, identity: Identity, emails: set<string>, uuid: UserId)
    requires ValidTables(t) && CallOk(t, k) && PendingOk(t, k) && k.Active() && t0.users <= t.users && t0.accounts <= t.accounts
    requires SignsIn(k.job, identity) && k.job.email in emails && CallConverges(t0, t, k, identity)
    requires OnlyAccount(t, identity, emails) && AccountOfEmails(t0, t, identity, emails)
    ensures CallConverges(t0, if k.pc.Commit? then Apply(t, k) else t, Statement(t, k, uuid), identity)
  {
    if Statement(t, k, uuid) == Violate(k) {
      ViolationMeansLinked(t0, t, k, identity, emails, uuid);
    }
    if k.pc.Commit? {
      LinkedStays(t, k, identity);
    }
    if k.pc.LoadUser? {
      assert HasUser(t.users, k.pc.userId);
    }
  }

  lemma LinkedStays(t: Tables, k: Call, identity: Identity)
    ensures Linked(t, identity) ==> Linked(Apply(t, k), identity)
  {
    assert t.accounts <= Apply(t, k).accounts;
  }

  lemma CommitKeepsConverging(t0: Tables, t: Tables, k: Call, identity: Identity, emails: set<string>)
    requires ValidTables(t) && CallOk(t, k) && PendingOk(t, k) && k.pc.Commit?
    requires SignsIn(k.job, identity) <==> k.job.email in emails
    requires OnlyAccount(t, identity, emails) && AccountOfEmails(t0, t, identity, emails)
    ensures OnlyAccount(Apply(t, k), identity, emails) && AccountOfEmails(t0, Apply(t, k), identity, emails)
  {
    ApplyKeepsValid(t, k);
  }

  lemma StepKeepsConverging(s0: State, s: State, a: Action, identity: Identity, emails: set<string>)
    requires Inv(s) && Converging(s0, s, identity, emails)
    requires s0.tables.users <= s.tables.users && s0.tables.accounts <= s.tables.accounts
    requires a.Lose? ==> a.call !in s.calls || !SignsIn(s.calls[a.call].job, identity)
    ensures Converging(s0, Exec(s, a), identity, emails)
  {
    if Enabled(s, a) && a.Run? {
      var s', k := Exec(s, a), s.calls[a.call];
      assert CallOk(s.tables, k) && PendingOk(s.tables, k);
      StatementKeepsCall(s.tables, k, a.uuid);
      if k.pc.Commit? {
        CommitKeepsConverging(s0.tables, s.tables, k, identity, emails);
        LinkedStays(s.tables, k, identity);
      }
      if SignsIn(k.job, identity) {
        StatementConverges(s0.tables, s.tables, k, identity, emails, a.uuid);
      }
    }
  }

  lemma {:induction false} RunKeepsJobs(s: State, run: seq<Action>)
    requires Inv(s)
    ensures RunAll(s, run).calls.Keys == s.calls.Keys
    ensures forall c :: c in s.calls ==> RunAll(s, run).calls[c].job == s.calls[c].job
  {
    if run != [] {
      var before, a := RunAll(s, run[..|run| - 1]), run[|run| - 1];
      RunKeepsJobs(s, run[..|run| - 1]);
      RunKeepsInv(s, run[..|run| - 1]);
      if Enabled(before, a) && a.Run? {
        assert CallOk(before.tables, before.calls[a.call]) && PendingOk(before.tables, before.calls[a.call]);
        StatementKeepsCall(before.tables, before.calls[a.call], a.uuid);
      }
    }
  }

  lemma {:induction false} RunKeepsConverging(s: State, run: seq<Action>, identity: Identity, emails: set<string>)
    requires Initial(s) && OneIdentity(s, identity, emails) && KeepsConnection(run, s, identity)
    ensures Converging(s, RunAll(s, run), identity, emails)
  {
    InitialInv(s);
    if run == [] {
      assert forall c :: c in s.calls ==> s.calls[c].attempt == 1;
    } else {
      var before, a := run[..|run| - 1], run[|run| - 1];
      assert KeepsConnection(before, s, identity);
      RunKeepsConverging(s, before, identity, emails);
      RunKeepsJobs(s, before);
      RunKeepsInv(s, before);
      RunGrows(s, before);
      assert run[|run| - 1] == a;
      StepKeepsConverging(s, RunAll(s, before), a, identity, emails);
    }
  }

  // ---------- every run comes to rest ----------

  // No call can run its next statement.
  ghost predicate AtRest(s: State) {
    exists uuid :: FreshId(s, uuid) && forall c :: c in s.calls ==> !Enabled(s, Run(c, uuid))
  }

  lemma AtRestMeansDone(s: State)
    requires Inv(s) && AtRest(s)
    ensures forall c :: c in s.calls ==> !s.calls[c].Active()
  {
    var uuid :| FreshId(s, uuid) && forall c :: c in s.calls ==> !Enabled(s, Run(c, uuid));
    if exists d :: d in s.calls && s.calls[d].Active() {
      OpenMeansRunnable(s, uuid);
    }
  }

  lemma OpenMeansRunnable(s: State, uuid: UserId)
    requires Inv(s) && FreshId(s, uuid) && exists d :: d in s.calls && s.calls[d].Active()
    ensures exists c :: c in s.calls && Enabled(s, Run(c, uuid))
  {
    var c := SomeCallCanRun(s);
    assert Enabled(s, Run(c, uuid));
  }

  // The statements the calls 0 .. n - 1 have left at most.
  ghost function RankSum(s: State, n: nat): nat {
    if n == 0 then 0 else RankSum(s, n - 1) + if n - 1 in s.calls then Rank(s.calls[n - 1]) else 0
  }

  ghost predicate AllBelow(s: State, n: nat) {
    forall c :: c in s.calls ==> c < n
  }

  lemma {:induction false} StepLowersSum(s: State, a: Action, n: nat)
    requires Inv(s) && Enabled(s, a)
    ensures RankSum(Exec(s, a), n) + (if a.call < n then 1 else 0) <= RankSum(s, n)
  {
    if n > 0 {
      StatementLowersRank(s, a);
      StepLowersSum(s, a, n - 1);
    }
  }

  lemma {:induction false} LargestId(users: set<User>) returns (id: UserId)
    ensures forall u :: u in users ==> u.id <= id
  {
    if users == {} {
      id := 0;
    } else {
      var u :| u in users;
      id := LargestId(users - {u});
      id := if u.id > id then u.id else id;
    }
  }

  lemma SomeIdIsFresh(s: State) returns (uuid: UserId)
    ensures FreshId(s, uuid)
  {
    var pending := set c | c in s.calls && s.calls[c].newUser.Some? :: s.calls[c].newUser.value;
    var id := LargestId(s.tables.users + pending);
    uuid := id + 1;
    forall c | c in s.calls && s.calls[c].newUser.Some? ensures s.calls[c].newUser.value.id != uuid {
      assert s.calls[c].newUser.value in pending;
    }
  }

  // Every reachable state comes to rest in at most as many statements as the calls have left,
  // and without a connection being lost.
  lemma {:induction false} ComesToRest(s: State, before: seq<Action>, n: nat) returns (run: seq<Action>)
    requires Inv(RunAll(s, before)) && AllBelow(RunAll(s, before), n)
    ensures before <= run && |run| <= |before| + RankSum(RunAll(s, before), n)
    ensures forall i :: |before| <= i < |run| ==> run[i].Run?
    ensures AtRest(RunAll(s, run))
    decreases RankSum(RunAll(s, before), n)
  {
    var s1 := RunAll(s, before);
    var uuid := SomeIdIsFresh(s1);
    if c :| c in s1.calls && Enabled(s1, Run(c, uuid)) {
      var a := Run(c, uuid);
      assert (before + [a])[..|before|] == before;
      StepKeepsInv(s1, a);
      StepLowersSum(s1, a, n);
      run := ComesToRest(s, before + [a], n);
      assert forall i :: 0 <= i < |before| ==> run[i] == (before + [a])[i];
    } else {
      run := before;
    }
  }

  // ---------- the resting state ----------

  // The identity has one account, and that account's user one row.
  ghost predicate ResolvedTo(t: Tables, identity: Identity, user: User) {
    && (set a | a in t.accounts && a.identity == identity) == {Account(identity, user.id)}
    && (set u | u in t.users && u.id == user.id) == {user}
  }

  lemma LinkedUserIsUnique(t: Tables, identity: Identity, user: User)
    requires ValidTables(t) && user in t.users && Account(identity, user.id) in t.accounts
    ensures ResolvedTo(t, identity, user)
    ensures forall v :: v in t.users && Account(identity, v.id) in t.accounts ==> v == user
  {
    var mine := Account(identity, user.id);
    forall a | a in t.accounts && a.identity == identity ensures a == mine {
      assert AccountClash(a, mine);
    }
    forall u | u in t.users && u.id == user.id ensures u == user {
      assert UserClash(u, user);
    }
  }

  // Every sign-in with the identity has returned this user, after at most one retry that
  // wrote nothing.
  ghost predicate AllReturned(s: State, end: State, identity: Identity, user: User) {
    forall c :: c in s.calls && SignsIn(s.calls[c].job, identity) ==>
      && c in end.calls && end.calls[c].pc == Returned(user) && end.calls[c].attempt <= 2
      && (end.calls[c].attempt == 2 ==> end.calls[c].newUser.None? && end.calls[c].newAccount.None?)
  }

  // Main result 4. Any number of concurrent sign-ins with one identity, with whatever emails:
  // once no call can move, every one of them has returned, all with the same user, and the
  // tables hold exactly one account for the identity and one row for that user. If the
  // identity was new, the user is one of the emails' users. At most one user was signed up,
  // and it is the one returned. A call that retried landed in branch 1.
  lemma ConcurrentSignInConverges(s: State, run: seq<Action>, identity: Identity, emails: set<string>, end: State)
    returns (user: User)
    requires Initial(s) && OneIdentity(s, identity, emails) && KeepsConnection(run, s, identity)
    requires exists c :: c in s.calls && SignsIn(s.calls[c].job, identity)
    requires end == RunAll(s, run) && AtRest(end)
    ensures AllReturned(s, end, identity, user)
    ensures ResolvedTo(end.tables, identity, user)
    ensures !Linked(s.tables, identity) ==> user.email in emails
    ensures (set u | u in end.tables.users && u.email == user.email) == {user}
    ensures forall u :: u in end.tables.users && u.email in emails ==> u in s.tables.users || u == user
  {
    InitialInv(s);
    RunKeepsInv(s, run);
    RunKeepsConverging(s, run, identity, emails);
    RunKeepsJobs(s, run);
    AtRestMeansDone(end);
    user := AllReturnTheSame(s, end, identity, emails);
    forall u | u in end.tables.users && u.email == user.email ensures u == user {
      assert UserClash(u, user);
    }
    if !Linked(s.tables, identity) {
      var u :| u in end.tables.users && u.id == user.id && u.email in emails;
      assert UserClash(u, user);
    }
  }

  lemma AllReturnTheSame(s: State, end: State, identity: Identity, emails: set<string>) returns (user: User)
    requires Inv(end) && Converging(s, end, identity, emails)
    requires end.calls.Keys == s.calls.Keys && forall c :: c in s.calls ==> end.calls[c].job == s.calls[c].job
    requires forall c :: c in end.calls ==> !end.calls[c].Active()
    requires exists c :: c in s.calls && SignsIn(s.calls[c].job, identity)
    ensures AllReturned(s, end, identity, user)
    ensures ResolvedTo(end.tables, identity, user) && user in end.tables.users
    ensures Account(identity, user.id) in end.tables.accounts
    ensures forall u :: u in end.tables.users && Account(identity, u.id) in end.tables.accounts ==> u == user
  {
    var c0 :| c0 in s.calls && SignsIn(s.calls[c0].job, identity);
    assert CallOk(end.tables, end.calls[c0]);
    user := end.calls[c0].pc.user;
    LinkedUserIsUnique(end.tables, identity, user);
    forall c | c in s.calls && SignsIn(s.calls[c].job, identity)
      ensures end.calls[c].pc == Returned(user) && end.calls[c].attempt <= 2
    {
      assert CallOk(end.tables, end.calls[c]);
    }
  }

  // So it does not depend on luck: wherever a run of these calls has got to, at most as many
  // statements as they have left bring every sign-in to the same user.
  lemma EveryRunConverges(s: State, before: seq<Action>, identity: Identity, emails: set<string>, n: nat)
    returns (run: seq<Action>, user: User)
    requires Initial(s) && OneIdentity(s, identity, emails) && KeepsConnection(before, s, identity)
    requires exists c :: c in s.calls && SignsIn(s.calls[c].job, identity)
    requires AllBelow(s, n)
    ensures before <= run && |run| <= |before| + RankSum(RunAll(s, before), n)
    ensures AllReturned(s, RunAll(s, run), identity, user) && ResolvedTo(RunAll(s, run).tables, identity, user)
  {
    InitialInv(s);
    RunKeepsInv(s, before);
    RunGrows(s, before);
    run := ComesToRest(s, before, n);
    forall i | 0 <= i < |run| && run[i].Lose? ensures run[i].call !in s.calls || !SignsIn(s.calls[run[i].call].job, identity) {
      assert run[i] == before[i];
    }
    user := ConcurrentSignInConverges(s, run, identity, emails, RunAll(s, run));
  }

  // ---------- the second pass is not deterministic when a register runs too ----------

  // Calls 0 and 1 are sign-ins, call 2 a register.
  function Place(t: Tables, k0: Call, k1: Call, k2: Call): State {
    State(t, map[0 := k0, 1 := k1, 2 := k2])
  }

  ghost predicate Reaches(start: State, s: State) {
    exists run :: RunAll(start, run) == s
  }

  lemma ReachesOneMore(start: State, s: State, a: Action)
    requires Reaches(start, s)
    ensures Reaches(start, Exec(s, a))
  {
    var run :| RunAll(start, run) == s;
    assert (run + [a])[..|run|] == run;
    assert RunAll(start, run + [a]) == Exec(s, a);
  }

  predicate HoldsNothing(k: Call) {
    !k.Active() || (k.newUser.None? && k.newAccount.None?)
  }

  predicate IdUnused(t: Tables, k: Call, uuid: UserId) {
    (k.newUser.Some? ==> k.newUser.value.id != uuid) && forall u :: u in t.users ==> u.id != uuid
  }

  // One statement of call c, which nothing blocks, takes it from k to k'.
  lemma Turn(start: State, t: Tables, ks: seq<Call>, c: nat, uuid: UserId, k': Call)
    requires c < 3 == |ks| && Reaches(start, Place(t, ks[0], ks[1], ks[2]))
    requires ks[c].Active() && WellPlaced(ks[c]) && k' == Statement(t, ks[c], uuid)
    requires forall d :: 0 <= d < 3 ==> IdUnused(t, ks[d], uuid) && (d != c ==> HoldsNothing(ks[d]))
    ensures var ks' := ks[c := k'];
            Reaches(start, Place(if ks[c].pc.Commit? then Apply(t, ks[c]) else t, ks'[0], ks'[1], ks'[2]))
  {
    var s, ks' := Place(t, ks[0], ks[1], ks[2]), ks[c := k'];
    assert forall d :: d in s.calls ==> 0 <= d < 3 && s.calls[d] == ks[d];
    assert !Blocked(s, c) && FreshId(s, uuid);
    ReachesOneMore(start, s, Run(c, uuid));
    assert Exec(s, Run(c, uuid)) == Place(if ks[c].pc.Commit? then Apply(t, ks[c]) else t, ks'[0], ks'[1], ks'[2]);
  }

  function AtStart(job: Job): Call {
    Call(job, 1, if job.Register? then InsertUser else FindAccountRow, None, None)
  }

  // Call 0 misses, the register commits, call 0's insert fails: its second pass begins.
  lemma RegisterWinsTheRace(start: State, call: Call, reg: Call, u: User)
    requires call.job.SignIn? && call == AtStart(call.job) && reg.job.Register? && reg == AtStart(reg.job)
    requires start == Place(Tables({}, {}), call, call, reg)
    requires u == User(7, call.job.email, Some(reg.job.passwordHash)) && reg.job.email == u.email
    ensures Reaches(start, Place(Tables({u}, {}), call.(attempt := 2), call, reg.(pc := Returned(u), newUser := Some(u))))
  {
    var empty, taken := Tables({}, {}), Tables({u}, {});
    var missed, inserting := call.(pc := FindUserRow), call.(pc := InsertUser);
    var committing, registered := reg.(pc := Commit(u), newUser := Some(u)), reg.(pc := Returned(u), newUser := Some(u));
    assert RunAll(start, []) == start;
    Turn(start, empty, [call, call, reg], 0, 9, missed);
    Turn(start, empty, [missed, call, reg], 0, 9, inserting);
    Turn(start, empty, [inserting, call, reg], 2, 7, committing);
    Turn(start, empty, [inserting, call, committing], 2, 9, registered);
    assert Apply(empty, committing) == taken;
    assert u in taken.users;
    Turn(start, taken, [inserting, call, registered], 0, 9, call.(attempt := 2));
  }

  // Call 0's second pass finds the user; call 1 links that user before call 0 does.
  lemma OtherSignInLinksFirst(start: State, call: Call, reg: Call, u: User, row: Account)
    requires call.job.SignIn? && call == AtStart(call.job) && u.id == 7 && u.email == call.job.email
    requires reg.pc.Returned? && reg.newUser == Some(u) && row == Account(call.job.identity, 7)
    requires Reaches(start, Place(Tables({u}, {}), call.(attempt := 2), call, reg))
    ensures Reaches(start, Place(Tables({u}, {row}), call.(attempt := 2, pc := InsertAccount(u)),
                                 call.(pc := Returned(u), newAccount := Some(row)), reg))
  {
    var taken := Tables({u}, {});
    var again, stuck := call.(attempt := 2), call.(attempt := 2, pc := InsertAccount(u));
    var linked := call.(pc := Commit(u), newAccount := Some(row));
    assert u in taken.users;
    Turn(start, taken, [again, call, reg], 0, 9, again.(pc := FindUserRow));
    Turn(start, taken, [again.(pc := FindUserRow), call, reg], 0, 9, stuck);
    Turn(start, taken, [stuck, call, reg], 1, 9, call.(pc := FindUserRow));
    Turn(start, taken, [stuck, call.(pc := FindUserRow), reg], 1, 9, call.(pc := InsertAccount(u)));
    Turn(start, taken, [stuck, call.(pc := InsertAccount(u)), reg], 1, 9, linked);
    Turn(start, taken, [stuck, linked, reg], 1, 9, linked.(pc := Returned(u)));
    assert Apply(taken, linked) == Tables({u}, {row});
  }

  // The convergence hypotheses are needed: a register of the email is enough to break the
  // second pass, on empty tables and with a single identity.
  lemma SecondPassCanThrow(i: Identity, email: string, hash: string) returns (start: State, end: State)
    ensures Initial(start) && start.tables == Tables({}, {}) && start.calls.Keys == {0, 1, 2}
    ensures start.calls[0].job == start.calls[1].job == SignIn(i, email) && start.calls[2].job == Register(email, hash)
    ensures Reaches(start, end) && 0 in end.calls && end.calls[0].pc == Threw(UniqueViolation)
  {
    var u := User(7, email, Some(hash));
    var call, reg := AtStart(SignIn(i, email)), AtStart(Register(email, hash));
    start := Place(Tables({}, {}), call, call, reg);
    RegisterWinsTheRace(start, call, reg, u);
    var row := Account(i, 7);
    var registered := reg.(pc := Returned(u), newUser := Some(u));
    OtherSignInLinksFirst(start, call, registered, u, row);
    var t, stuck := Tables({u}, {row}), call.(attempt := 2, pc := InsertAccount(u));
    var threw := call.(attempt := 2, pc := Threw(UniqueViolation));
    assert row in t.accounts;
    Turn(start, t, [stuck, call.(pc := Returned(u), newAccount := Some(row)), registered], 0, 9, threw);
    end := Place(t, threw, call.(pc := Returned(u), newAccount := Some(row)), registered);
  }
}
