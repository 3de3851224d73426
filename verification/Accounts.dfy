// Account resolution for OAuth sign-in (users.service.ts): any number of sign-in and
// register calls run at once, one statement at a time, under READ COMMITTED.
module Accounts {
  import opened Wrappers

  // ---------- the two tables and their unique constraints ----------

  type UserId = nat

  datatype Identity = Identity(provider: string, providerUserId: string)

  datatype User = User(id: UserId, email: string, passwordHash: Option<string>)

  datatype Account = Account(identity: Identity, userId: UserId)

  datatype Tables = Tables(users: set<User>, accounts: set<Account>)

  // UQ_users_email, PK_users_id
  predicate UserClash(u: User, v: User) {
    u.email == v.email || u.id == v.id
  }

  // UQ_provider_accounts_identity, UQ_provider_accounts_user
  predicate AccountClash(a: Account, b: Account) {
    || a.identity == b.identity
    || (a.identity.provider == b.identity.provider && a.userId == b.userId)
  }

  ghost predicate ValidTables(t: Tables) {
    && (forall u, v :: u in t.users && v in t.users && UserClash(u, v) ==> u == v)
    && (forall a, b :: a in t.accounts && b in t.accounts && AccountClash(a, b) ==> a == b)
    && (forall a :: a in t.accounts ==> HasUser(t.users, a.userId))
  }

  ghost predicate HasUser(users: set<User>, id: UserId) {
    exists u :: u in users && u.id == id
  }

  ghost predicate HasEmail(users: set<User>, email: string) {
    exists u :: u in users && u.email == email
  }

  ghost predicate Linked(t: Tables, identity: Identity) {
    exists a :: a in t.accounts && a.identity == identity
  }

  ghost function FindAccount(accounts: set<Account>, identity: Identity): (r: Option<Account>)
    ensures r.Some? ==> r.value in accounts && r.value.identity == identity
    ensures r.None? ==> forall a :: a in accounts ==> a.identity != identity
  {
    if exists a :: a in accounts && a.identity == identity
    then var a :| a in accounts && a.identity == identity; Some(a)
    else None
  }

  ghost function FindByEmail(users: set<User>, email: string): (r: Option<User>)
    ensures r.Some? ==> r.value in users && r.value.email == email
    ensures r.None? ==> forall u :: u in users ==> u.email != email
  {
    if exists u :: u in users && u.email == email
    then var u :| u in users && u.email == email; Some(u)
    else None
  }

  ghost function FindById(users: set<User>, id: UserId): (r: Option<User>)
    ensures r.Some? ==> r.value in users && r.value.id == id
    ensures r.None? ==> forall u :: u in users ==> u.id != id
  {
    if exists u :: u in users && u.id == id
    then var u :| u in users && u.id == id; Some(u)
    else None
  }

  // ---------- calls, one statement per step ----------

  datatype Error = UniqueViolation | EntityNotFound | ConnectionLost

  datatype Job =
    | SignIn(identity: Identity, email: string)
    | Register(email: string, passwordHash: string)

  datatype Pc =
    | FindAccountRow            // branch 1 lookup
    | LoadUser(userId: UserId)  // branch 1 load
    | FindUserRow               // branch 2 lookup
    | InsertUser                // branch 3 (and register)
    | ReloadUser                // branch 3 re-read
    | InsertAccount(user: User) // branches 2 and 3
    | Commit(user: User)
    | Returned(user: User)
    | Decoy                     // register answered with an unpersisted user
    | Threw(error: Error)

  // newUser and newAccount are the rows this call has written: buffered until it commits,
  // dropped when its transaction rolls back, kept as a record once it has returned.
  datatype Call = Call(job: Job, attempt: nat, pc: Pc, newUser: Option<User>, newAccount: Option<Account>)
  {
    predicate Active() {
      !pc.Returned? && !pc.Decoy? && !pc.Threw?
    }
  }

  datatype State = State(tables: Tables, calls: map<nat, Call>)

  function RowSet<T>(row: Option<T>): set<T> {
    if row.Some? then {row.value} else {}
  }

  // A 23505 rolls the transaction back: sign-in retries once, register returns a decoy.
  function Violate(k: Call): Call {
    var rolledBack := k.(newUser := None, newAccount := None);
    if k.job.Register? then rolledBack.(pc := Decoy)
    else if k.attempt == 1 then rolledBack.(attempt := 2, pc := FindAccountRow)
    else rolledBack.(pc := Threw(UniqueViolation))
  }

  // The statement an unblocked call runs next: a read sees committed rows and its own, an
  // insert fails on a clash with a committed row.
  ghost function Statement(t: Tables, k: Call, uuid: UserId): Call
    requires k.Active()
    requires k.job.Register? ==> k.pc.InsertUser? || k.pc.Commit?
  {
    match k.pc
    case FindAccountRow =>
      var found := FindAccount(t.accounts + RowSet(k.newAccount), k.job.identity);
      if found.Some? then k.(pc := LoadUser(found.value.userId)) else k.(pc := FindUserRow)
    case LoadUser(id) =>
      var found := FindById(t.users + RowSet(k.newUser), id);
      if found.Some? then k.(pc := Commit(found.value))
      else k.(pc := Threw(EntityNotFound), newUser := None, newAccount := None)
    case FindUserRow =>
      var found := FindByEmail(t.users + RowSet(k.newUser), k.job.email);
      if found.Some? then k.(pc := InsertAccount(found.value)) else k.(pc := InsertUser)
    case InsertUser =>
      if HasEmail(t.users, k.job.email) then Violate(k)
      else if k.job.Register? then
        var u := User(uuid, k.job.email, Some(k.job.passwordHash));
        k.(pc := Commit(u), newUser := Some(u))
      else
        k.(pc := ReloadUser, newUser := Some(User(uuid, k.job.email, None)))
    case ReloadUser =>
      var found := FindByEmail(t.users + RowSet(k.newUser), k.job.email);
      if found.Some? then k.(pc := InsertAccount(found.value))
      else k.(pc := Threw(EntityNotFound), newUser := None, newAccount := None)
    case InsertAccount(u) =>
      var row := Account(k.job.identity, u.id);
      if exists a :: a in t.accounts && AccountClash(a, row) then Violate(k)
      else k.(pc := Commit(u), newAccount := Some(row))
    case Commit(u) => k.(pc := Returned(u))
  }

  // An insert waits while another open transaction holds a clashing row and no committed
  // row clashes.
  ghost predicate Blocked(s: State, c: nat)
    requires c in s.calls
  {
    var k := s.calls[c];
    match k.pc
    case InsertUser =>
      && !HasEmail(s.tables.users, k.job.email)
      && exists d :: HoldsUser(s, c, d, k.job.email)
    case InsertAccount(u) =>
      && k.job.SignIn?
      && (forall a :: a in s.tables.accounts ==> !AccountClash(a, Account(k.job.identity, u.id)))
      && exists d :: HoldsAccount(s, c, d, Account(k.job.identity, u.id))
    case _ => false
  }

  ghost predicate HoldsUser(s: State, c: nat, d: nat, email: string) {
    && d in s.calls && d != c && s.calls[d].Active()
    && s.calls[d].newUser.Some? && s.calls[d].newUser.value.email == email
  }

  ghost predicate HoldsAccount(s: State, c: nat, d: nat, row: Account) {
    && d in s.calls && d != c && s.calls[d].Active()
    && s.calls[d].newAccount.Some? && AccountClash(s.calls[d].newAccount.value, row)
  }

  ghost predicate FreshId(s: State, uuid: UserId) {
    && !HasUser(s.tables.users, uuid)
    && forall d :: d in s.calls && s.calls[d].newUser.Some? ==> s.calls[d].newUser.value.id != uuid
  }

  // Run: the call's next statement; uuid is what gen_random_uuid() would give it.
  // Lose: the call's connection dies and its transaction rolls back.
  datatype Action = Run(call: nat, uuid: UserId) | Lose(call: nat)

  ghost predicate Enabled(s: State, a: Action) {
    && a.call in s.calls
    && s.calls[a.call].Active()
    && WellPlaced(s.calls[a.call])
    && (a.Run? ==> !Blocked(s, a.call) && FreshId(s, a.uuid))
  }

  predicate WellPlaced(k: Call) {
    k.job.Register? ==> k.pc.InsertUser? || k.pc.Commit? || !k.Active()
  }

  ghost function Exec(s: State, a: Action): State {
    if !Enabled(s, a) then s
    else
      var k := s.calls[a.call];
      if a.Lose? then
        s.(calls := s.calls[a.call := k.(pc := Threw(ConnectionLost), newUser := None, newAccount := None)])
      else
        State(if k.pc.Commit? then Apply(s.tables, k) else s.tables,
              s.calls[a.call := Statement(s.tables, k, a.uuid)])
  }

  function Apply(t: Tables, k: Call): Tables {
    Tables(t.users + RowSet(k.newUser), t.accounts + RowSet(k.newAccount))
  }

  ghost function RunAll(s: State, run: seq<Action>): State {
    if run == [] then s else Exec(RunAll(s, run[..|run| - 1]), run[|run| - 1])
  }

  ghost predicate Initial(s: State) {
    && ValidTables(s.tables)
    && forall c :: c in s.calls ==>
        s.calls[c] == Call(s.calls[c].job, 1, if s.calls[c].job.Register? then InsertUser else FindAccountRow, None, None)
  }

  // ---------- the invariant of every reachable state ----------

  ghost predicate CallOk(t: Tables, k: Call) {
    match k.job
    case SignIn(identity, email) =>
      && 1 <= k.attempt <= 2
      && (k.attempt == 2 ==> Linked(t, identity) || HasEmail(t.users, email))
      && (match k.pc
          case FindAccountRow => k.newUser.None? && k.newAccount.None?
          case FindUserRow => k.newUser.None? && k.newAccount.None?
          case InsertUser => k.newUser.None? && k.newAccount.None?
          case LoadUser(id) => k.newUser.None? && k.newAccount.None? && Account(identity, id) in t.accounts
          case ReloadUser => k.newUser.Some? && k.newUser.value.email == email && k.newAccount.None?
          case InsertAccount(u) =>
            && u.email == email && k.newAccount.None?
            && (k.newUser == Some(u) || (k.newUser.None? && u in t.users))
          case Commit(u) =>
            if k.newAccount.None? then k.newUser.None? && u in t.users && Account(identity, u.id) in t.accounts
            else
              && k.newAccount.value == Account(identity, u.id) && u.email == email
              && (k.newUser == Some(u) || (k.newUser.None? && u in t.users))
          case Returned(u) =>
            && u in t.users && Account(identity, u.id) in t.accounts
            && RowSet(k.newUser) <= t.users && RowSet(k.newAccount) <= t.accounts
          case Threw(e) =>
            k.newUser.None? && k.newAccount.None? && (e.ConnectionLost? || (e.UniqueViolation? && k.attempt == 2))
          case Decoy => false)
    case Register(email, passwordHash) =>
      && k.newAccount.None?
      && (match k.pc
          case InsertUser => k.newUser.None?
          case Commit(u) => k.newUser == Some(u) && u.email == email && u.passwordHash == Some(passwordHash)
          case Returned(u) => k.newUser == Some(u) && u in t.users && u.email == email && u.passwordHash == Some(passwordHash)
          case Decoy => k.newUser.None? && HasEmail(t.users, email)
          case Threw(e) => k.newUser.None? && e.ConnectionLost?
          case _ => false)
  }

  // No open transaction holds a row that clashes with a committed row.
  ghost predicate PendingOk(t: Tables, k: Call) {
    k.Active() ==>
      && (k.newUser.Some? ==> forall v :: v in t.users ==> !UserClash(k.newUser.value, v))
      && (k.newAccount.Some? ==> forall b :: b in t.accounts ==> !AccountClash(k.newAccount.value, b))
  }

  // Two open transactions never hold clashing rows.
  ghost predicate Apart(k: Call, l: Call) {
    k.Active() && l.Active() ==>
      && (k.newUser.Some? && l.newUser.Some? ==> !UserClash(k.newUser.value, l.newUser.value))
      && (k.newAccount.Some? && l.newAccount.Some? ==> !AccountClash(k.newAccount.value, l.newAccount.value))
  }

  ghost predicate Inv(s: State) {
    && ValidTables(s.tables)
    && (forall c :: c in s.calls ==> CallOk(s.tables, s.calls[c]) && PendingOk(s.tables, s.calls[c]))
    && (forall c, d :: c in s.calls && d in s.calls && c != d ==> Apart(s.calls[c], s.calls[d]))
  }

  lemma CallOkGrows(t: Tables, t': Tables, k: Call)
    requires CallOk(t, k) && t.users <= t'.users && t.accounts <= t'.accounts
    ensures CallOk(t', k)
  {
  }

  lemma ApplyKeepsValid(t: Tables, k: Call)
    requires ValidTables(t) && CallOk(t, k) && PendingOk(t, k) && k.pc.Commit?
    ensures ValidTables(Apply(t, k))
  {
  }

  // A violated constraint means the identity is linked or the email is taken.
  lemma ViolationLeavesEvidence(t: Tables, k: Call, uuid: UserId)
    requires ValidTables(t) && CallOk(t, k) && PendingOk(t, k) && k.Active() && WellPlaced(k)
    requires Statement(t, k, uuid) == Violate(k)
    ensures Linked(t, k.job.identity) || HasEmail(t.users, k.job.email)
    requires k.job.SignIn?
  {
  }

  lemma StatementKeepsCall(t: Tables, k: Call, uuid: UserId)
    requires ValidTables(t) && CallOk(t, k) && PendingOk(t, k) && k.Active() && WellPlaced(k)
    requires !HasUser(t.users, uuid)
    ensures var t' := if k.pc.Commit? then Apply(t, k) else t;
            var k' := Statement(t, k, uuid);
            CallOk(t', k') && PendingOk(t', k') && k'.job == k.job
  {
    var k' := Statement(t, k, uuid);
    if k.job.SignIn? && k' == Violate(k) {
      ViolationLeavesEvidence(t, k, uuid);
    }
    if k.job.SignIn? && k.pc.Commit? {
      CallOkGrows(t, Apply(t, k), k);
    }
    if k.pc.LoadUser? {
      assert HasUser(t.users, k.pc.userId);
    }
    if k.pc.ReloadUser? {
      assert k.newUser.value in t.users + RowSet(k.newUser);
    }
  }

  // The row a statement buffers clashes with nothing another open transaction holds.
  lemma StatementKeepsApart(s: State, c: nat, uuid: UserId, d: nat)
    requires Inv(s) && Enabled(s, Run(c, uuid)) && d in s.calls && d != c
    ensures Apart(Statement(s.tables, s.calls[c], uuid), s.calls[d])
  {
    var k, l := s.calls[c], s.calls[d];
    assert Apart(k, l);
    if k.pc.InsertUser? && l.Active() && l.newUser.Some? {
      assert !HoldsUser(s, c, d, k.job.email) || HasEmail(s.tables.users, k.job.email);
    }
    if k.pc.InsertAccount? && l.Active() && l.newAccount.Some? {
      assert k.job.SignIn?;
      assert CallOk(s.tables, l);
      var row := Account(k.job.identity, k.pc.user.id);
      assert !HoldsAccount(s, c, d, row) || exists a :: a in s.tables.accounts && AccountClash(a, row);
    }
  }

  lemma CommitKeepsPending(t: Tables, k: Call, l: Call)
    requires CallOk(t, k) && PendingOk(t, l) && Apart(k, l) && k.pc.Commit?
    ensures PendingOk(Apply(t, k), l)
  {
  }

  lemma StepKeepsInv(s: State, a: Action)
    requires Inv(s)
    ensures Inv(Exec(s, a))
  {
    var s' := Exec(s, a);
    if Enabled(s, a) && a.Run? {
      var k := s.calls[a.call];
      StatementKeepsCall(s.tables, k, a.uuid);
      if k.pc.Commit? {
        ApplyKeepsValid(s.tables, k);
      }
      forall d | d in s.calls && d != a.call
        ensures CallOk(s'.tables, s.calls[d]) && PendingOk(s'.tables, s.calls[d])
        ensures Apart(s'.calls[a.call], s.calls[d]) && Apart(s.calls[d], s'.calls[a.call])
      {
        CallOkGrows(s.tables, s'.tables, s.calls[d]);
        StatementKeepsApart(s, a.call, a.uuid, d);
        if k.pc.Commit? {
          CommitKeepsPending(s.tables, k, s.calls[d]);
        }
      }
    }
  }

  lemma {:induction false} RunKeepsInv(s: State, run: seq<Action>)
    requires Inv(s)
    ensures Inv(RunAll(s, run))
  {
    if run != [] {
      RunKeepsInv(s, run[..|run| - 1]);
      StepKeepsInv(RunAll(s, run[..|run| - 1]), run[|run| - 1]);
    }
  }

  lemma InitialInv(s: State)
    requires Initial(s)
    ensures Inv(s)
  {
    forall c | c in s.calls ensures CallOk(s.tables, s.calls[c]) && PendingOk(s.tables, s.calls[c]) {
      assert s.calls[c].attempt == 1;
    }
  }

  // Main result 1. Under every interleaving of sign-in and register, with connections lost
  // anywhere: emails, ids, identities and the accounts of one user with one provider stay
  // unique, accounts belong to users, committed rows stay as they are, and the user a sign-in
  // returns is the one its identity is linked to.
  lemma TablesStayConsistent(s: State, run: seq<Action>, end: State)
    requires Initial(s) && end == RunAll(s, run)
    ensures forall u, v :: u in end.tables.users && v in end.tables.users && (u.email == v.email || u.id == v.id) ==> u == v
    ensures forall a, b :: a in end.tables.accounts && b in end.tables.accounts && a.identity == b.identity ==> a == b
    ensures forall a, b :: a in end.tables.accounts && b in end.tables.accounts && a.identity.provider == b.identity.provider && a.userId == b.userId ==> a == b
    ensures forall a :: a in end.tables.accounts ==> exists u :: u in end.tables.users && u.id == a.userId
    ensures s.tables.users <= end.tables.users && s.tables.accounts <= end.tables.accounts
    ensures forall c :: c in end.calls && end.calls[c].job.SignIn? && end.calls[c].pc.Returned? ==>
              && end.calls[c].pc.user in end.tables.users
              && Account(end.calls[c].job.identity, end.calls[c].pc.user.id) in end.tables.accounts
  {
    InitialInv(s);
    RunKeepsInv(s, run);
    RunGrows(s, run);
    InvMakesAnswersTrue(end);
    forall a | a in end.tables.accounts ensures exists u :: u in end.tables.users && u.id == a.userId {
      assert HasUser(end.tables.users, a.userId);
    }
    ConstraintsByName(end.tables);
  }

  lemma ConstraintsByName(t: Tables)
    requires ValidTables(t)
    ensures forall u, v :: u in t.users && v in t.users && (u.email == v.email || u.id == v.id) ==> u == v
    ensures forall a, b :: a in t.accounts && b in t.accounts && a.identity == b.identity ==> a == b
    ensures forall a, b :: a in t.accounts && b in t.accounts && a.identity.provider == b.identity.provider && a.userId == b.userId ==> a == b
  {
    forall u, v | u in t.users && v in t.users && (u.email == v.email || u.id == v.id) ensures u == v {
      assert UserClash(u, v);
    }
    forall a, b | a in t.accounts && b in t.accounts && a.identity.provider == b.identity.provider
                  && (a.identity == b.identity || a.userId == b.userId) ensures a == b {
      assert AccountClash(a, b);
    }
  }

  // What an ended register has answered: a new user of its own with its email and password;
  // or a decoy, the email being taken and nothing written; an error only if its connection was
  // lost. A sign-in fails for no other reason either, but a violation on its second pass.
  lemma AnswersOfEndedCalls(s: State, run: seq<Action>, end: State, c: nat)
    requires Initial(s) && end == RunAll(s, run) && c in end.calls && !end.calls[c].Active()
    ensures var k := end.calls[c];
            if k.job.Register? then
              match k.pc
              case Returned(u) =>
                && u in end.tables.users && k.newUser == Some(u) && u == User(u.id, k.job.email, Some(k.job.passwordHash))
              case Decoy => k.newUser.None? && exists u :: u in end.tables.users && u.email == k.job.email
              case Threw(e) => e == ConnectionLost
              case _ => false
            else
              match k.pc
              case Returned(_) => true
              case Threw(e) => e == ConnectionLost || (e == UniqueViolation && k.attempt == 2)
              case _ => false
  {
    InitialInv(s);
    RunKeepsInv(s, run);
    assert CallOk(end.tables, end.calls[c]);
  }

  lemma InvMakesAnswersTrue(s: State)
    requires Inv(s)
    ensures forall c :: c in s.calls && s.calls[c].job.SignIn? && s.calls[c].pc.Returned? ==>
              && s.calls[c].pc.user in s.tables.users
              && Account(s.calls[c].job.identity, s.calls[c].pc.user.id) in s.tables.accounts
  {
  }

  lemma {:induction false} RunGrows(s: State, run: seq<Action>)
    ensures s.tables.users <= RunAll(s, run).tables.users
    ensures s.tables.accounts <= RunAll(s, run).tables.accounts
    ensures RunAll(s, run).calls.Keys == s.calls.Keys
  {
    if run != [] {
      RunGrows(s, run[..|run| - 1]);
    }
  }

  // ---------- what is in the tables is what returned calls wrote ----------

  ghost predicate WroteUser(s: State, c: nat, u: User) {
    c in s.calls && s.calls[c].pc.Returned? && s.calls[c].newUser == Some(u)
  }

  ghost predicate WroteAccount(s: State, c: nat, a: Account) {
    c in s.calls && s.calls[c].pc.Returned? && s.calls[c].newAccount == Some(a)
  }

  // Every committed row was there at the start or was written by a call that returned.
  ghost predicate Conserved(t0: Tables, s: State) {
    && (forall u :: u in s.tables.users <==> u in t0.users || exists c :: WroteUser(s, c, u))
    && (forall a :: a in s.tables.accounts <==> a in t0.accounts || exists c :: WroteAccount(s, c, a))
  }

  lemma StepConserves(t0: Tables, s: State, a: Action)
    requires Inv(s) && Conserved(t0, s)
    ensures Conserved(t0, Exec(s, a))
  {
    var s' := Exec(s, a);
    if Enabled(s, a) {
      var k := s.calls[a.call];
      var k' := s'.calls[a.call];
      if k.pc.Commit? && a.Run? {
        forall u ensures u in s'.tables.users <==> u in t0.users || exists c :: WroteUser(s', c, u) {
          if k.newUser == Some(u) { assert WroteUser(s', a.call, u); }
          if c :| WroteUser(s, c, u) { assert WroteUser(s', c, u); }
          if c :| WroteUser(s', c, u) { assert c == a.call || WroteUser(s, c, u); }
        }
        forall b ensures b in s'.tables.accounts <==> b in t0.accounts || exists c :: WroteAccount(s', c, b) {
          if k.newAccount == Some(b) { assert WroteAccount(s', a.call, b); }
          if c :| WroteAccount(s, c, b) { assert WroteAccount(s', c, b); }
          if c :| WroteAccount(s', c, b) { assert c == a.call || WroteAccount(s, c, b); }
        }
      } else {
        assert !k'.pc.Returned?;
        assert forall c, u :: WroteUser(s, c, u) <==> WroteUser(s', c, u);
        assert forall c, b :: WroteAccount(s, c, b) <==> WroteAccount(s', c, b);
      }
    }
  }

  // Main result 2. A call that throws (or answers with a decoy) leaves both tables as if it
  // had not run: the tables hold the initial rows and the rows of returned calls, no others.
  lemma {:induction false} ThrowingCallsLeaveNoTrace(s: State, run: seq<Action>)
    requires Initial(s)
    ensures Conserved(s.tables, RunAll(s, run))
  {
    InitialInv(s);
    if run == [] {
      assert forall c :: c in s.calls ==> s.calls[c].newUser.None? && s.calls[c].newAccount.None?;
    } else {
      var before := run[..|run| - 1];
      ThrowingCallsLeaveNoTrace(s, before);
      RunKeepsInv(s, before);
      StepConserves(s.tables, RunAll(s, before), run[|run| - 1]);
    }
  }

  // ---------- no deadlock, and every call ends ----------

  function Rank(k: Call): nat {
    (if k.attempt == 1 && k.job.SignIn? then 8 else 0) +
    match k.pc
    case FindAccountRow => 7
    case FindUserRow => 6
    case InsertUser => 5
    case ReloadUser => 4
    case InsertAccount(_) => 3
    case LoadUser(_) => 2
    case Commit(_) => 1
    case _ => 0
  }

  // Main result 3a. Locks are taken users first, then accounts, so some open call can always
  // run: there is no deadlock.
  lemma SomeCallCanRun(s: State) returns (c: nat)
    requires Inv(s)
    requires exists d :: d in s.calls && s.calls[d].Active()
    ensures c in s.calls && s.calls[c].Active() && !Blocked(s, c)
    ensures forall uuid :: FreshId(s, uuid) ==> Enabled(s, Run(c, uuid))
  {
    // With every open call at an insert, no account row is held; with every open call at
    // InsertUser, no user row is held either.
    assert forall d :: d in s.calls ==> CallOk(s.tables, s.calls[d]);
    if d :| d in s.calls && s.calls[d].Active() && !s.calls[d].pc.InsertUser? && !s.calls[d].pc.InsertAccount? {
      c := d;
    } else if d :| d in s.calls && s.calls[d].Active() && s.calls[d].pc.InsertAccount? {
      c := d;
      assert forall e :: e in s.calls && s.calls[e].Active() ==> s.calls[e].newAccount.None?;
    } else {
      c :| c in s.calls && s.calls[c].Active();
      assert forall e :: e in s.calls && s.calls[e].Active() ==> s.calls[e].newUser.None?;
    }
    assert CallOk(s.tables, s.calls[c]);
  }

  lemma StatementLowers(t: Tables, k: Call, uuid: UserId)
    requires CallOk(t, k) && k.Active() && WellPlaced(k)
    ensures Rank(Statement(t, k, uuid)) < Rank(k)
  {
  }

  lemma StatementLowersRank(s: State, a: Action)
    requires Inv(s) && Enabled(s, a)
    ensures Rank(Exec(s, a).calls[a.call]) < Rank(s.calls[a.call])
  {
    var k := s.calls[a.call];
    assert CallOk(s.tables, k);
    if a.Run? {
      StatementLowers(s.tables, k, a.uuid);
    }
  }

  ghost function StepsOf(s: State, run: seq<Action>, c: nat): nat {
    if run == [] then 0
    else
      var before := run[..|run| - 1];
      var a := run[|run| - 1];
      StepsOf(s, before, c) + if a.call == c && Enabled(RunAll(s, before), a) then 1 else 0
  }

  // Main result 3b. However the calls interleave, no call ever runs more than fifteen
  // statements, its second pass included.
  lemma {:induction false} EveryCallIsShort(s: State, run: seq<Action>, c: nat)
    requires Initial(s) && c in s.calls
    ensures c in RunAll(s, run).calls
    ensures StepsOf(s, run, c) + Rank(RunAll(s, run).calls[c]) <= 15
  {
    if run != [] {
      var before := run[..|run| - 1];
      var a := run[|run| - 1];
      EveryCallIsShort(s, before, c);
      InitialInv(s);
      RunKeepsInv(s, before);
      if a.call == c && Enabled(RunAll(s, before), a) {
        StatementLowersRank(RunAll(s, before), a);
      }
    }
  }
}
