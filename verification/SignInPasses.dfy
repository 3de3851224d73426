// What one sign-in call does to the tables, and its one retry exactly.
module SignInPasses {
  import opened Wrappers
  import opened Accounts

  // ---------- what one call does when no other transaction commits meanwhile ----------

  datatype Resolution = ByAccount(user: User) | ByEmail(user: User) | SignUp | Refused

  // The three branches read against one state of the tables. Refused: the identity is not
  // linked and the email's user already holds another account of the provider.
  ghost function Resolve(t: Tables, identity: Identity, email: string): Resolution
    requires ValidTables(t)
  {
    var account := FindAccount(t.accounts, identity);
    if account.Some? then
      assert HasUser(t.users, account.value.userId);
      ByAccount(FindById(t.users, account.value.userId).value)
    else
      var user := FindByEmail(t.users, email);
      if user.None? then SignUp
      else if HoldsAccountOf(t, identity.provider, user.value) then Refused
      else ByEmail(user.value)
  }

  ghost predicate HoldsAccountOf(t: Tables, provider: string, user: User) {
    exists a :: a in t.accounts && a.identity.provider == provider && a.userId == user.id
  }

  // A call that answers r and takes the tables from t0 to t did what Resolve(t0) says.
  ghost predicate Resolved(t0: Tables, t: Tables, identity: Identity, email: string, r: Result<User, Error>)
    requires ValidTables(t0)
  {
    match Resolve(t0, identity, email)
    case ByAccount(u) => r == Success(u) && t == t0
    case ByEmail(u) => r == Success(u) && t == Tables(t0.users, t0.accounts + {Account(identity, u.id)})
    case Refused => r == Failure(UniqueViolation) && t == t0
    case SignUp =>
      && r.Success? && r.value == User(r.value.id, email, None) && !HasUser(t0.users, r.value.id)
      && t == Tables(t0.users + {r.value}, t0.accounts + {Account(identity, r.value.id)})
  }

  // Nothing but call c commits during the run, and c keeps its connection.
  ghost predicate Quiet(s: State, run: seq<Action>, c: nat) {
    run == [] ||
    var before, a := run[..|run| - 1], run[|run| - 1];
    && Quiet(s, before, c)
    && (if a.call == c then a.Run? else RunAll(s, run).tables == RunAll(s, before).tables)
  }

  ghost function Answer(pc: Pc): Result<User, Error>
    requires pc.Returned? || pc.Threw?
  {
    if pc.Returned? then Success(pc.user) else Failure(pc.error)
  }

  // Where a call may stand, having started on t0 with nothing committed since.
  ghost predicate OnCourse(t0: Tables, first: nat, t: Tables, k: Call)
    requires ValidTables(t0) && k.job.SignIn?
  {
    var plan := Resolve(t0, k.job.identity, k.job.email);
    && (k.attempt == first || plan.Refused?)
    && (k.Active() ==> t == t0)
    && (k.newUser.Some? ==> !HasUser(t0.users, k.newUser.value.id) && k.newUser.value.passwordHash.None?)
    && (match k.pc
        case FindAccountRow => true
        case LoadUser(id) => plan.ByAccount?
        case FindUserRow => !plan.ByAccount?
        case InsertUser => plan.SignUp?
        case ReloadUser => plan.SignUp?
        case InsertAccount(u) => if k.newUser.None? then plan.Refused? || plan.ByEmail? else plan.SignUp?
        case Commit(u) =>
          if k.newAccount.None? then plan.ByAccount?
          else if k.newUser.None? then plan == ByEmail(u)
          else plan.SignUp?
        case Returned(_) => Resolved(t0, t, k.job.identity, k.job.email, Answer(k.pc))
        case Threw(_) => Resolved(t0, t, k.job.identity, k.job.email, Answer(k.pc))
        case Decoy => false)
  }

  lemma StatementKeepsCourse(t0: Tables, first: nat, k: Call, uuid: UserId)
    requires ValidTables(t0) && CallOk(t0, k) && PendingOk(t0, k) && k.Active() && k.job.SignIn?
    requires OnCourse(t0, first, t0, k) && !HasUser(t0.users, uuid)
    ensures OnCourse(t0, first, if k.pc.Commit? then Apply(t0, k) else t0, Statement(t0, k, uuid))
  {
    assert t0.users + RowSet(None) == t0.users && t0.accounts + RowSet(None) == t0.accounts;
    var plan := Resolve(t0, k.job.identity, k.job.email);
    match k.pc
    case LoadUser(id) =>
      var a := FindAccount(t0.accounts, k.job.identity).value;
      assert AccountClash(a, Account(k.job.identity, id));
    case InsertAccount(u) =>
      if k.newUser.None? {
        assert UserClash(u, FindByEmail(t0.users, k.job.email).value);
        var row := Account(k.job.identity, u.id);
        assert plan.ByEmail? ==> forall a :: a in t0.accounts ==> !AccountClash(a, row);
        assert plan.Refused? ==> exists a :: a in t0.accounts && AccountClash(a, row);
      } else {
        var row := Account(k.job.identity, u.id);
        forall a | a in t0.accounts ensures !AccountClash(a, row) {
          assert HasUser(t0.users, a.userId);
        }
      }
    case Commit(u) =>
      if k.newAccount.None? {
        var a := FindAccount(t0.accounts, k.job.identity).value;
        assert AccountClash(a, Account(k.job.identity, u.id));
        assert HasUser(t0.users, a.userId);
        assert UserClash(u, plan.user);
      }
    case _ =>
  }

  lemma {:induction false} QuietCallStaysOnCourse(s: State, run: seq<Action>, c: nat)
    requires Inv(s) && c in s.calls && s.calls[c].job.SignIn? && s.calls[c].pc.FindAccountRow?
    requires Quiet(s, run, c)
    ensures c in RunAll(s, run).calls && RunAll(s, run).calls[c].job == s.calls[c].job
    ensures OnCourse(s.tables, s.calls[c].attempt, RunAll(s, run).tables, RunAll(s, run).calls[c])
  {
    assert CallOk(s.tables, s.calls[c]);
    if run != [] {
      var before, a := run[..|run| - 1], run[|run| - 1];
      QuietCallStaysOnCourse(s, before, c);
      RunKeepsInv(s, before);
      var s1 := RunAll(s, before);
      if a.call == c && Enabled(s1, a) {
        assert CallOk(s1.tables, s1.calls[c]) && PendingOk(s1.tables, s1.calls[c]);
        StatementKeepsCourse(s.tables, s.calls[c].attempt, s1.calls[c], a.uuid);
        StatementKeepsCall(s1.tables, s1.calls[c], a.uuid);
      }
    }
  }

  // Main result 5. Whatever other open transactions do short of committing, a call that ends
  // did exactly what the three branches say of the tables it started on.
  lemma QuietCallResolves(s: State, run: seq<Action>, c: nat, end: State)
    requires Inv(s) && c in s.calls && s.calls[c].job.SignIn? && s.calls[c].pc.FindAccountRow?
    requires Quiet(s, run, c) && end == RunAll(s, run)
    requires c in end.calls && !end.calls[c].Active()
    ensures end.calls[c].pc.Returned? || end.calls[c].pc.Threw?
    ensures Resolved(s.tables, end.tables, s.calls[c].job.identity, s.calls[c].job.email, Answer(end.calls[c].pc))
  {
    QuietCallStaysOnCourse(s, run, c);
  }

  // ---------- the one retry, exactly, whatever else commits ----------

  // An account that shuts out one of the identity for the email's user.
  ghost predicate Rivals(t: Tables, a: Account, identity: Identity, email: string) {
    || a.identity == identity
    || (a.identity.provider == identity.provider && exists u :: u in t.users && u.email == email && u.id == a.userId)
  }

  // The email's user holds an account of the provider.
  ghost predicate EmailHolds(t: Tables, provider: string, email: string) {
    exists u :: u in t.users && u.email == email && HoldsAccountOf(t, provider, u)
  }

  // Another call commits such an account.
  ghost predicate RivalCommits(s: State, a: Action, c: nat, job: Job)
    requires job.SignIn?
  {
    && a.Run? && a.call != c && Enabled(s, a)
    && var l := s.calls[a.call];
       l.pc.Commit? && l.newAccount.Some? && Rivals(Apply(s.tables, l), l.newAccount.value, job.identity, job.email)
  }

  // That happens during the run, while call c is still open.
  ghost predicate Rivalled(s: State, run: seq<Action>, c: nat, job: Job)
    requires job.SignIn?
  {
    run != [] &&
    var before, a := run[..|run| - 1], run[|run| - 1];
    || Rivalled(s, before, c, job)
    || (RivalCommits(RunAll(s, before), a, c, job)
        && c in RunAll(s, before).calls && RunAll(s, before).calls[c].Active())
  }

  // Call c's branch 1 lookup runs while the identity is not linked.
  ghost predicate Misses(s: State, a: Action, c: nat, job: Job)
    requires job.SignIn?
  {
    && a.Run? && a.call == c && Enabled(s, a)
    && s.calls[c].pc.FindAccountRow? && !Linked(s.tables, job.identity)
  }

  ghost predicate Missed(s: State, run: seq<Action>, c: nat, job: Job)
    requires job.SignIn?
  {
    run != [] && (Missed(s, run[..|run| - 1], c, job) || Misses(RunAll(s, run[..|run| - 1]), run[|run| - 1], c, job))
  }

  // The accounts that stand in the way of the identity's, those there at the start aside.
  ghost predicate NewRival(t0: Tables, t: Tables, job: Job)
    requires job.SignIn?
  {
    exists a :: a in t.accounts && a !in t0.accounts && Rivals(t, a, job.identity, job.email)
  }

  // Where a second pass that started on t0 may stand.
  ghost predicate OnSecondPass(t0: Tables, t: Tables, k: Call, missed: bool, rivalled: bool)
    requires k.job.SignIn?
  {
    var held := EmailHolds(t0, k.job.identity.provider, k.job.email);
    && k.attempt == 2 && k.newUser.None?
    && (missed ==> !Linked(t0, k.job.identity))
    && (!missed && !k.pc.FindAccountRow? ==> Linked(t0, k.job.identity) || rivalled)
    && (k.Active() ==> (NewRival(t0, t, k.job) <==> rivalled))
    && (match k.pc
        case FindAccountRow => !missed
        case LoadUser(_) => !missed
        case FindUserRow => missed
        case InsertAccount(_) => missed
        case Commit(_) => if k.newAccount.None? then !missed else missed && !held && !rivalled
        case Returned(_) => missed ==> !held && !rivalled
        case Threw(e) => e.UniqueViolation? && missed && (held || rivalled)
        case _ => false)
  }

  // Of the accounts in the tables, the rivals are the rows the insert would clash with.
  lemma RivalsClash(t: Tables, a: Account, identity: Identity, u: User)
    requires ValidTables(t) && u in t.users
    ensures Rivals(t, a, identity, u.email) <==> AccountClash(a, Account(identity, u.id))
  {
    if v :| v in t.users && v.email == u.email && v.id == a.userId {
      assert UserClash(u, v);
    }
  }

  lemma RivalsStay(t: Tables, t': Tables, a: Account, identity: Identity, email: string)
    requires ValidTables(t) && ValidTables(t') && t.users <= t'.users && a in t.accounts
    ensures Rivals(t, a, identity, email) <==> Rivals(t', a, identity, email)
  {
    assert HasUser(t.users, a.userId);
    var v :| v in t.users && v.id == a.userId;
    if u :| u in t'.users && u.email == email && u.id == a.userId {
      assert UserClash(u, v);
    }
  }

  lemma OwnStatementKeepsPass(t0: Tables, t: Tables, k: Call, missed: bool, rivalled: bool, uuid: UserId)
    requires ValidTables(t0) && ValidTables(t) && t0.users <= t.users && t0.accounts <= t.accounts
    requires CallOk(t, k) && k.Active() && k.job.SignIn? && (Linked(t0, k.job.identity) || HasEmail(t0.users, k.job.email))
    requires OnSecondPass(t0, t, k, missed, rivalled)
    ensures OnSecondPass(t0, if k.pc.Commit? then Apply(t, k) else t, Statement(t, k, uuid),
                         missed || (k.pc.FindAccountRow? && !Linked(t, k.job.identity)), rivalled)
  {
    match k.pc
    case FindAccountRow =>
      assert t.accounts + RowSet(k.newAccount) == t.accounts;
      assert Linked(t0, k.job.identity) ==> Linked(t, k.job.identity);
    case LoadUser(id) => assert HasUser(t.users, id);
    case FindUserRow => assert HasEmail(t0.users, k.job.email) ==> HasEmail(t.users, k.job.email);
    case InsertAccount(u) => InsertMeetsRivals(t0, t, k.job, u);
    case _ =>
  }

  // The insert of branch 2 fails exactly when there was or came to be a rival.
  lemma InsertMeetsRivals(t0: Tables, t: Tables, job: Job, u: User)
    requires ValidTables(t0) && ValidTables(t) && t0.users <= t.users && t0.accounts <= t.accounts
    requires job.SignIn? && !Linked(t0, job.identity) && HasEmail(t0.users, job.email) && u in t.users && u.email == job.email
    ensures (exists a :: a in t.accounts && AccountClash(a, Account(job.identity, u.id)))
            <==> EmailHolds(t0, job.identity.provider, job.email) || NewRival(t0, t, job)
  {
    if a :| a in t.accounts && AccountClash(a, Account(job.identity, u.id)) {
      RivalsClash(t, a, job.identity, u);
      if a in t0.accounts {
        RivalsStay(t0, t, a, job.identity, job.email);
      }
    }
    if EmailHolds(t0, job.identity.provider, job.email) {
      var v, a :| v in t0.users && v.email == job.email && a in t0.accounts && a.identity.provider == job.identity.provider && a.userId == v.id;
      assert UserClash(u, v);
      assert AccountClash(a, Account(job.identity, u.id));
    }
    if NewRival(t0, t, job) {
      var a :| a in t.accounts && a !in t0.accounts && Rivals(t, a, job.identity, job.email);
      RivalsClash(t, a, job.identity, u);
    }
  }

  // While call k has its account row in its buffer, no rival can commit.
  lemma OtherCommitKeepsPass(t0: Tables, t: Tables, k: Call, l: Call, missed: bool, rivalled: bool)
    requires ValidTables(t) && t0.accounts <= t.accounts && k.job.SignIn? && l.pc.Commit?
    requires CallOk(t, k) && CallOk(t, l) && PendingOk(t, l) && Apart(k, l)
    requires OnSecondPass(t0, t, k, missed, rivalled)
    ensures OnSecondPass(t0, Apply(t, l), k, missed,
                         rivalled || (k.Active() && l.newAccount.Some? && Rivals(Apply(t, l), l.newAccount.value, k.job.identity, k.job.email)))
  {
    var t' := Apply(t, l);
    ApplyKeepsValid(t, l);
    forall a | a in t.accounts ensures Rivals(t', a, k.job.identity, k.job.email) <==> Rivals(t, a, k.job.identity, k.job.email) {
      RivalsStay(t, t', a, k.job.identity, k.job.email);
    }
    if k.pc.Commit? && k.newAccount.Some? && l.newAccount.Some? {
      RivalsClash(t', l.newAccount.value, k.job.identity, k.pc.user);
    }
    if l.newAccount.Some? {
      assert AccountClash(l.newAccount.value, l.newAccount.value);
    }
  }

  ghost predicate KeepsConnection(run: seq<Action>, c: nat) {
    forall i :: 0 <= i < |run| ==> run[i] != Lose(c)
  }

  // Call c is about to make its second pass.
  ghost predicate BeginsSecondPass(s: State, c: nat) {
    c in s.calls && s.calls[c].job.SignIn? && s.calls[c].pc.FindAccountRow? && s.calls[c].attempt == 2
  }

  lemma StepKeepsPass(t0: Tables, s: State, a: Action, c: nat, missed: bool, rivalled: bool)
    requires Inv(s) && ValidTables(t0) && t0.users <= s.tables.users && t0.accounts <= s.tables.accounts
    requires c in s.calls && s.calls[c].job.SignIn? && a != Lose(c)
    requires Linked(t0, s.calls[c].job.identity) || HasEmail(t0.users, s.calls[c].job.email)
    requires OnSecondPass(t0, s.tables, s.calls[c], missed, rivalled)
    ensures var s', k := Exec(s, a), s.calls[c];
            && c in s'.calls && s'.calls[c].job == k.job
            && OnSecondPass(t0, s'.tables, s'.calls[c], missed || Misses(s, a, c, k.job),
                            rivalled || (k.Active() && RivalCommits(s, a, c, k.job)))
  {
    var k := s.calls[c];
    assert CallOk(s.tables, k) && PendingOk(s.tables, k);
    if a.Run? && Enabled(s, a) && a.call == c {
      OwnStatementKeepsPass(t0, s.tables, k, missed, rivalled, a.uuid);
      StatementKeepsCall(s.tables, k, a.uuid);
    } else {
      OtherStepKeepsPass(t0, s, a, c, missed, rivalled);
    }
  }

  lemma OtherStepKeepsPass(t0: Tables, s: State, a: Action, c: nat, missed: bool, rivalled: bool)
    requires Inv(s) && t0.accounts <= s.tables.accounts
    requires c in s.calls && s.calls[c].job.SignIn? && (a.call != c || !Enabled(s, a))
    requires OnSecondPass(t0, s.tables, s.calls[c], missed, rivalled)
    ensures var s', k := Exec(s, a), s.calls[c];
            && c in s'.calls && s'.calls[c] == k
            && OnSecondPass(t0, s'.tables, k, missed, rivalled || (k.Active() && RivalCommits(s, a, c, k.job)))
  {
    if a.Run? && Enabled(s, a) {
      var k, l := s.calls[c], s.calls[a.call];
      assert CallOk(s.tables, k) && CallOk(s.tables, l) && PendingOk(s.tables, l);
      if l.pc.Commit? {
        OtherCommitKeepsPass(t0, s.tables, k, l, missed, rivalled);
      }
    }
  }

  lemma {:induction false} SecondPassStays(s: State, run: seq<Action>, c: nat, job: Job)
    requires Inv(s) && BeginsSecondPass(s, c) && job == s.calls[c].job && KeepsConnection(run, c)
    ensures c in RunAll(s, run).calls && RunAll(s, run).calls[c].job == job
    ensures OnSecondPass(s.tables, RunAll(s, run).tables, RunAll(s, run).calls[c], Missed(s, run, c, job), Rivalled(s, run, c, job))
  {
    assert CallOk(s.tables, s.calls[c]);
    if run != [] {
      var before, a := run[..|run| - 1], run[|run| - 1];
      assert a != Lose(c) && KeepsConnection(before, c);
      SecondPassStays(s, before, c, job);
      RunKeepsInv(s, before);
      RunGrows(s, before);
      StepKeepsPass(s.tables, RunAll(s, before), a, c, Missed(s, before, c, job), Rivalled(s, before, c, job));
    }
  }

  // Main result 6. The one retry, exactly, whatever else runs and commits: a second pass that
  // ends rethrows the unique violation if and only if its lookup ran while the identity was
  // not linked, and either the email's user held an account of the provider when the pass
  // began or another call committed one for that user, or for the identity, during the pass.
  // Otherwise it returns. It creates no user either way.
  lemma SecondPassExactly(s: State, run: seq<Action>, c: nat, job: Job, end: State)
    requires Inv(s) && BeginsSecondPass(s, c) && job == s.calls[c].job
    requires KeepsConnection(run, c) && end == RunAll(s, run)
    ensures c in end.calls && end.calls[c].newUser.None?
    ensures end.calls[c].pc.Threw? ==> end.calls[c].pc == Threw(UniqueViolation)
    ensures !end.calls[c].Active() ==>
              (end.calls[c].pc == Threw(UniqueViolation) <==>
                && Missed(s, run, c, job)
                && (EmailHolds(s.tables, job.identity.provider, job.email) || Rivalled(s, run, c, job)))
    ensures !end.calls[c].Active() ==> end.calls[c].pc == Threw(UniqueViolation) || end.calls[c].pc.Returned?
  {
    SecondPassStays(s, run, c, job);
  }

  // Seen from inside: it rethrows if and only if its own insert of the account ran against a
  // committed row that clashes.
  ghost predicate InsertFails(s: State, a: Action, c: nat) {
    && a.Run? && a.call == c && Enabled(s, a) && s.calls[c].job.SignIn? && s.calls[c].pc.InsertAccount?
    && exists r :: r in s.tables.accounts && AccountClash(r, Account(s.calls[c].job.identity, s.calls[c].pc.user.id))
  }

  ghost predicate InsertFailed(s: State, run: seq<Action>, c: nat) {
    run != [] && (InsertFailed(s, run[..|run| - 1], c) || InsertFails(RunAll(s, run[..|run| - 1]), run[|run| - 1], c))
  }

  lemma StepThrowsAtInsert(t0: Tables, s: State, a: Action, c: nat, missed: bool, rivalled: bool)
    requires Inv(s) && c in s.calls && s.calls[c].job.SignIn? && a != Lose(c)
    requires OnSecondPass(t0, s.tables, s.calls[c], missed, rivalled)
    ensures Exec(s, a).calls[c].pc.Threw? <==> s.calls[c].pc.Threw? || InsertFails(s, a, c)
  {
    assert CallOk(s.tables, s.calls[c]);
    if s.calls[c].pc.LoadUser? {
      assert HasUser(s.tables.users, s.calls[c].pc.userId);
    }
  }

  lemma {:induction false} SecondPassThrowsAtInsert(s: State, run: seq<Action>, c: nat)
    requires Inv(s) && BeginsSecondPass(s, c) && KeepsConnection(run, c)
    ensures c in RunAll(s, run).calls && (RunAll(s, run).calls[c].pc == Threw(UniqueViolation) <==> InsertFailed(s, run, c))
  {
    var job := s.calls[c].job;
    SecondPassStays(s, run, c, job);
    if run != [] {
      var before, a := run[..|run| - 1], run[|run| - 1];
      assert a != Lose(c) && KeepsConnection(before, c);
      SecondPassStays(s, before, c, job);
      SecondPassThrowsAtInsert(s, before, c);
      RunKeepsInv(s, before);
      StepThrowsAtInsert(s.tables, RunAll(s, before), a, c, Missed(s, before, c, job), Rivalled(s, before, c, job));
    }
  }

  // When it can be told beforehand: if no other call commits an account for the identity
  // or for the email's user during the pass, it rethrows if and only if the identity is not
  // linked and the email's user holds an account of the provider already.
  lemma UnrivalledSecondPass(s: State, run: seq<Action>, c: nat, job: Job, end: State)
    requires Inv(s) && BeginsSecondPass(s, c) && job == s.calls[c].job && KeepsConnection(run, c)
    requires !Rivalled(s, run, c, job) && end == RunAll(s, run) && c in end.calls && !end.calls[c].Active()
    ensures end.calls[c].pc == Threw(UniqueViolation) <==>
            !Linked(s.tables, job.identity) && EmailHolds(s.tables, job.identity.provider, job.email)
    ensures end.calls[c].pc == Threw(UniqueViolation) || end.calls[c].pc.Returned?
  {
    SecondPassStays(s, run, c, job);
  }

  // In particular when nothing else commits meanwhile.
  lemma QuietSecondPass(s: State, run: seq<Action>, c: nat, job: Job, end: State)
    requires Inv(s) && BeginsSecondPass(s, c) && job == s.calls[c].job
    requires Quiet(s, run, c) && end == RunAll(s, run) && c in end.calls && !end.calls[c].Active()
    ensures end.calls[c].pc == Threw(UniqueViolation) <==>
            !Linked(s.tables, job.identity) && EmailHolds(s.tables, job.identity.provider, job.email)
    ensures end.calls[c].pc == Threw(UniqueViolation) || end.calls[c].pc.Returned?
    ensures end.tables.users == s.tables.users
  {
    QuietRunsHaveNoRivals(s, run, c, job);
    UnrivalledSecondPass(s, run, c, job, end);
    QuietCallResolves(s, run, c, end);
    assert CallOk(s.tables, s.calls[c]);
  }

  lemma {:induction false} QuietRunsHaveNoRivals(s: State, run: seq<Action>, c: nat, job: Job)
    requires Inv(s) && job.SignIn? && Quiet(s, run, c)
    ensures KeepsConnection(run, c) && !Rivalled(s, run, c, job)
  {
    if run != [] {
      var before, a := run[..|run| - 1], run[|run| - 1];
      QuietRunsHaveNoRivals(s, before, c, job);
      assert run == before + [a];
      RunKeepsInv(s, before);
      if RivalCommits(RunAll(s, before), a, c, job) {
        RivalCommitChangesTables(RunAll(s, before), a, c, job);
      }
    }
  }

  lemma RivalCommitChangesTables(s: State, a: Action, c: nat, job: Job)
    requires Inv(s) && job.SignIn? && RivalCommits(s, a, c, job)
    ensures Exec(s, a).tables != s.tables
  {
    var row := s.calls[a.call].newAccount.value;
    assert PendingOk(s.tables, s.calls[a.call]) && AccountClash(row, row);
    assert row in Exec(s, a).tables.accounts && row !in s.tables.accounts;
  }

  // ---------- the service itself, one call at a time ----------

  class UsersService {
    var users: set<User>
    var accounts: set<Account>

    ghost function Db(): Tables
      reads this
    {
      Tables(users, accounts)
    }

    constructor ()
      ensures Db() == Tables({}, {})
    {
      users, accounts := {}, {};
    }

    // One transaction: reads and inserts on its own copies, which replace the tables when it
    // commits and are dropped when it throws.
    method ResolveProviderIdentity(identity: Identity, email: string, uuid: UserId) returns (r: Result<User, Error>)
      requires ValidTables(Db()) && !HasUser(users, uuid)
      modifies this
      ensures Resolved(old(Db()), Db(), identity, email, r)
      ensures ValidTables(Db())
    {
      if exists a :: a in accounts && a.identity == identity {
        var a :| a in accounts && a.identity == identity;
        assert AccountClash(a, FindAccount(accounts, identity).value);
        assert HasUser(users, a.userId);
        var u :| u in users && u.id == a.userId;
        assert UserClash(u, FindById(users, a.userId).value);
        return Success(u);
      }
      var user;
      var usersNow := users;
      if exists u :: u in users && u.email == email {
        user :| user in users && user.email == email;
        assert UserClash(user, FindByEmail(users, email).value);
      } else {
        user := User(uuid, email, None);
        usersNow := usersNow + {user};
      }
      assert forall a :: a in accounts ==> HasUser(users, a.userId) && HasUser(usersNow, a.userId);
      if exists a :: a in accounts && AccountClash(a, Account(identity, user.id)) {
        return Failure(UniqueViolation);
      }
      users, accounts := usersNow, accounts + {Account(identity, user.id)};
      return Success(user);
    }

    // The whole resolution again, once, after a unique violation.
    method FindOrCreateFromProvider(identity: Identity, email: string, uuid: UserId) returns (r: Result<User, Error>)
      requires ValidTables(Db()) && !HasUser(users, uuid)
      modifies this
      ensures Resolved(old(Db()), Db(), identity, email, r)
      ensures ValidTables(Db())
    {
      r := ResolveProviderIdentity(identity, email, uuid);
      if r.Failure? && r.error.UniqueViolation? {
        r := ResolveProviderIdentity(identity, email, uuid);
      }
    }

    // register: a duplicate email is answered with an unpersisted user.
    method Create(email: string, passwordHash: string, uuid: UserId, decoyId: UserId) returns (user: User)
      requires ValidTables(Db()) && !HasUser(users, uuid)
      modifies this
      ensures user.email == email && accounts == old(accounts)
      ensures if HasEmail(old(users), email) then users == old(users) && user == User(decoyId, email, Some(""))
              else users == old(users) + {user} && user == User(uuid, email, Some(passwordHash))
      ensures ValidTables(Db())
    {
      if exists u :: u in users && u.email == email {
        return User(decoyId, email, Some(""));
      }
      user := User(uuid, email, Some(passwordHash));
      users := users + {user};
      forall a | a in accounts ensures HasUser(users, a.userId) {
        var u :| u in old(users) && u.id == a.userId;
        assert u in users;
      }
    }
  }
}
