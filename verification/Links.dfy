// Link creation with its outbox record, retried on slug conflicts (links.service.ts): any
// number of creations run at once, one statement per step.
module Links {
  import opened Wrappers
  import opened LinkCache

  const MAX_SLUG_RETRIES: nat := 5

  datatype OutboxRecord = LinkCreated(slug: string, originalUrl: string)

  datatype Row = Row(slug: string, link: Link)

  datatype Pc =
    | Generate                    // draw a slug and begin a transaction
    | InsertLink(slug: string)
    | InsertOutbox(slug: string)
    | Reload(slug: string)        // re-read of the inserted link
    | Commit(slug: string)
    | Created(slug: string)
    | Conflict                    // ConflictException
    | Threw                       // any other error

  // taken: how many of its slugs were found taken. newLink and newRecord are the rows its
  // transaction has written: buffered until it commits, dropped when it rolls back, kept as a
  // record once the call has returned.
  datatype Call = Call(link: Link, taken: nat, pc: Pc, newLink: Option<Row>, newRecord: Option<OutboxRecord>)
  {
    predicate Active() {
      !pc.Created? && !pc.Conflict? && !pc.Threw?
    }
  }

  datatype State = State(links: map<string, Link>, outbox: seq<OutboxRecord>, calls: map<nat, Call>)

  // Run: the call's next statement; slug is what the generator would give it. Lose: any error
  // but a unique violation, or a lost connection.
  datatype Action =
    | Begin(c: nat, link: Link)
    | Run(c: nat, slug: string)
    | Lose(c: nat)
    | UpdateRow(slug: string, url: string)
    | DeleteRow(slug: string)

  // A violated primary key rolls the transaction back and uses up one of the five attempts.
  function Violate(k: Call): Call {
    Call(k.link, k.taken + 1, if k.taken + 1 == MAX_SLUG_RETRIES then Conflict else Generate, None, None)
  }

  function Throw(k: Call): Call {
    k.(pc := Threw, newLink := None, newRecord := None)
  }

  // The statement an unblocked call runs next; a read sees committed rows and its own.
  function Statement(links: map<string, Link>, k: Call, slug: string): Call {
    match k.pc
    case Generate => k.(pc := InsertLink(slug))
    case InsertLink(slug) =>
      if slug in links then Violate(k) else k.(pc := InsertOutbox(slug), newLink := Some(Row(slug, k.link)))
    case InsertOutbox(slug) =>
      k.(pc := Reload(slug), newRecord := Some(LinkCreated(slug, k.link.originalUrl)))
    case Reload(slug) =>
      if slug in links || (k.newLink.Some? && k.newLink.value.slug == slug) then k.(pc := Commit(slug)) else Throw(k)
    case Commit(slug) => k.(pc := Created(slug))
    case _ => k
  }

  // A commit makes whatever the transaction has written visible.
  function WithLink(links: map<string, Link>, k: Call): map<string, Link> {
    if k.newLink.Some? then links[k.newLink.value.slug := k.newLink.value.link] else links
  }

  function WithRecord(outbox: seq<OutboxRecord>, k: Call): seq<OutboxRecord> {
    if k.newRecord.Some? then outbox + [k.newRecord.value] else outbox
  }

  predicate Holds(k: Call, slug: string) {
    k.Active() && k.newLink.Some? && k.newLink.value.slug == slug
  }

  // An insert waits while another open transaction holds the slug.
  ghost predicate Blocked(s: State, c: nat)
    requires c in s.calls
  {
    var pc := s.calls[c].pc;
    pc.InsertLink? && pc.slug !in s.links && exists d :: d in s.calls && d != c && Holds(s.calls[d], pc.slug)
  }

  ghost predicate Enabled(s: State, c: nat) {
    c in s.calls && s.calls[c].Active() && !Blocked(s, c)
  }

  ghost function Exec(s: State, a: Action): State {
    match a
    case Begin(c, link) =>
      if c in s.calls then s else s.(calls := s.calls[c := Call(link, 0, Generate, None, None)])
    case Run(c, slug) =>
      if !Enabled(s, c) then s
      else
        var k := s.calls[c];
        var calls := s.calls[c := Statement(s.links, k, slug)];
        if k.pc.Commit? then State(WithLink(s.links, k), WithRecord(s.outbox, k), calls) else s.(calls := calls)
    case Lose(c) =>
      if c in s.calls && s.calls[c].Active() then s.(calls := s.calls[c := Throw(s.calls[c])]) else s
    case UpdateRow(slug, url) =>
      if slug in s.links then s.(links := s.links[slug := s.links[slug].(originalUrl := url)]) else s
    case DeleteRow(slug) => s.(links := s.links - {slug})
  }

  ghost function RunAll(s: State, run: seq<Action>): State {
    if run == [] then s else Exec(RunAll(s, run[..|run| - 1]), run[|run| - 1])
  }

  // ---------- the invariant of every reachable state ----------

  ghost predicate CallOk(k: Call) {
    match k.pc
    case Generate => k.taken < 5 && k.newLink.None? && k.newRecord.None?
    case InsertLink(_) => k.taken < 5 && k.newLink.None? && k.newRecord.None?
    case InsertOutbox(slug) => k.taken < 5 && k.newLink == Some(Row(slug, k.link)) && k.newRecord.None?
    case Reload(slug) => k.taken < 5 && BothRows(k, slug)
    case Commit(slug) => k.taken < 5 && BothRows(k, slug)
    case Created(slug) => k.taken < 5 && BothRows(k, slug)
    case Conflict => k.newLink.None? && k.newRecord.None?
    case Threw => k.newLink.None? && k.newRecord.None?
  }

  predicate BothRows(k: Call, slug: string) {
    k.newLink == Some(Row(slug, k.link)) && k.newRecord == Some(LinkCreated(slug, k.link.originalUrl))
  }

  // No open transaction holds the slug of a committed row or of another open transaction.
  ghost predicate Inv(s: State) {
    && (forall c :: c in s.calls ==> CallOk(s.calls[c]))
    && (forall c, slug :: c in s.calls && Holds(s.calls[c], slug) ==> slug !in s.links)
    && (forall c, d, slug :: c in s.calls && d in s.calls && Holds(s.calls[c], slug) && Holds(s.calls[d], slug) ==> c == d)
  }

  lemma StatementKeepsInv(s: State, c: nat, slug: string)
    requires Inv(s) && Enabled(s, c)
    ensures Inv(Exec(s, Run(c, slug)))
  {
    var s', k := Exec(s, Run(c, slug)), s.calls[c];
    var k' := s'.calls[c];
    assert CallOk(k) && CallOk(k');
    if k.pc.Commit? { assert Holds(k, k.pc.slug); }
    forall d, held | d in s.calls && d != c && Holds(s.calls[d], held)
      ensures held !in s'.links && !Holds(k', held)
    {
      assert !Holds(k, held);
    }
  }

  lemma StepKeepsInv(s: State, a: Action)
    requires Inv(s)
    ensures Inv(Exec(s, a))
  {
    if a.Run? && Enabled(s, a.c) {
      StatementKeepsInv(s, a.c, a.slug);
    }
  }

  lemma {:induction false} RunKeepsInv(s: State, run: seq<Action>)
    requires s.calls == map[]
    ensures Inv(RunAll(s, run))
  {
    if run != [] {
      RunKeepsInv(s, run[..|run| - 1]);
      StepKeepsInv(RunAll(s, run[..|run| - 1]), run[|run| - 1]);
    }
  }

  // A call that waits for a slug waits for one that can go on: there is no deadlock.
  lemma SomeCallCanRun(s: State) returns (c: nat)
    requires Inv(s) && exists d :: d in s.calls && s.calls[d].Active()
    ensures Enabled(s, c)
  {
    c :| c in s.calls && s.calls[c].Active();
    if Blocked(s, c) {
      var slug := s.calls[c].pc.slug;
      c :| c in s.calls && Holds(s.calls[c], slug);
      assert CallOk(s.calls[c]);
    }
  }

  // ---------- outbox records, link rows and creations are one to one ----------

  predicate IsBorn(s: State, s': State, slug: string) {
    slug in s'.links && slug !in s.links
  }

  // What the outbox must say of a step, judged by the links table alone: of a row that is
  // there after the step and was not before, its slug and destination.
  ghost function Birth(s: State, s': State): seq<OutboxRecord> {
    if exists slug :: IsBorn(s, s', slug)
    then var slug :| IsBorn(s, s', slug); [LinkCreated(slug, s'.links[slug].originalUrl)]
    else []
  }

  ghost function Births(s: State, run: seq<Action>): seq<OutboxRecord> {
    if run == [] then []
    else Births(s, run[..|run| - 1]) + Birth(RunAll(s, run[..|run| - 1]), RunAll(s, run))
  }

  predicate IsCreated(s: State, c: nat) {
    c in s.calls && s.calls[c].pc.Created?
  }

  function RecordOf(k: Call): OutboxRecord
    requires k.pc.Created?
  {
    LinkCreated(k.pc.slug, k.link.originalUrl)
  }

  // A step brings a call to its successful end exactly when it adds a link row, and then it
  // adds that one row, overwriting none, and its outbox record.
  lemma StepCreates(s: State, a: Action)
    requires Inv(s)
    ensures var s' := Exec(s, a);
            && s'.outbox == s.outbox + Birth(s, s')
            && (forall slug :: IsBorn(s, s', slug) ==>
                  a.Run? && s'.links == s.links[slug := s.calls[a.c].link] && s'.calls[a.c].pc == Created(slug))
            && (forall slug, slug' :: IsBorn(s, s', slug) && IsBorn(s, s', slug') ==> slug == slug')
            && (forall c :: c in s.calls && !s.calls[c].Active() ==> c in s'.calls && s'.calls[c] == s.calls[c])
            && (forall c :: IsCreated(s', c) && !IsCreated(s, c) ==> a.Run? && a.c == c && Birth(s, s') == [RecordOf(s'.calls[c])])
            && (Birth(s, s') != [] ==> a.Run? && a.c in s.calls && IsCreated(s', a.c) && !IsCreated(s, a.c))
            && (a.Begin? || a.Run? || a.Lose? ==>
                  forall slug :: slug in s.links ==> slug in s'.links && s'.links[slug] == s.links[slug])
  {
    if a.Run? && Enabled(s, a.c) && s.calls[a.c].pc.Commit? {
      var s', k := Exec(s, a), s.calls[a.c];
      assert CallOk(k) && Holds(k, k.pc.slug);
      assert IsBorn(s, s', k.pc.slug);
    }
  }

  // log lists the calls that returned a link, each once, in the order of their records.
  ghost predicate Logged(s: State, records: seq<OutboxRecord>, log: seq<nat>) {
    && |records| == |log|
    && (forall i, j :: 0 <= i < j < |log| ==> log[i] != log[j])
    && (forall c :: c in log <==> IsCreated(s, c))
    && (forall i :: 0 <= i < |log| && IsCreated(s, log[i]) ==> records[i] == RecordOf(s.calls[log[i]]))
  }

  // Main result 1. Over every run of interleaved creations, updates and deletions, with
  // transactions failing anywhere, the outbox records added are those of the link rows ever
  // committed, in their order, and both are in one-to-one correspondence with the calls that
  // returned, with the slug and the destination each was created with.
  lemma {:induction false} OutboxRecordsCreations(s0: State, run: seq<Action>) returns (log: seq<nat>)
    requires s0.calls == map[]
    ensures RunAll(s0, run).outbox == s0.outbox + Births(s0, run)
    ensures Logged(RunAll(s0, run), Births(s0, run), log)
  {
    if run == [] {
      log := [];
    } else {
      var before, a := RunAll(s0, run[..|run| - 1]), run[|run| - 1];
      var earlier := OutboxRecordsCreations(s0, run[..|run| - 1]);
      RunKeepsInv(s0, run[..|run| - 1]);
      log := StepIsLogged(before, a, Births(s0, run[..|run| - 1]), earlier);
    }
  }

  lemma StepIsLogged(s: State, a: Action, records: seq<OutboxRecord>, log: seq<nat>) returns (log': seq<nat>)
    requires Inv(s) && Logged(s, records, log)
    ensures Exec(s, a).outbox == s.outbox + Birth(s, Exec(s, a))
    ensures Logged(Exec(s, a), records + Birth(s, Exec(s, a)), log')
  {
    StepCreates(s, a);
    if Birth(s, Exec(s, a)) == [] {
      log' := log;
      assert records + [] == records;
    } else {
      log' := log + [a.c];
      assert a.c !in log;
    }
  }

  // An update changes one destination, a deletion removes one row; neither touches the outbox
  // or a creation under way.
  lemma OtherStatements(s: State, slug: string, url: string)
    ensures Exec(s, DeleteRow(slug)) == State(s.links - {slug}, s.outbox, s.calls)
    ensures slug !in s.links ==> Exec(s, UpdateRow(slug, url)) == s
    ensures slug in s.links ==>
              Exec(s, UpdateRow(slug, url)) ==
              State(s.links[slug := Link(url, s.links[slug].userId, s.links[slug].expiresAt)], s.outbox, s.calls)
  {
  }

  // ---------- failed calls leave nothing ----------

  // Some step of the call changed one of the tables.
  ghost predicate Changed(s: State, run: seq<Action>, c: nat) {
    run != [] &&
    var before, a := RunAll(s, run[..|run| - 1]), run[|run| - 1];
    || Changed(s, run[..|run| - 1], c)
    || ((a.Begin? || a.Run? || a.Lose?) && a.c == c
        && (RunAll(s, run).links != before.links || RunAll(s, run).outbox != before.outbox))
  }

  // Main result 2. A call that has not returned a link, be it still open, refused or failed
  // half-way through a transaction, has changed neither table.
  lemma {:induction false} FailedCallsLeaveNothing(s0: State, run: seq<Action>, c: nat)
    requires s0.calls == map[] && !IsCreated(RunAll(s0, run), c)
    ensures !Changed(s0, run, c)
  {
    if run != [] {
      var before, a := run[..|run| - 1], run[|run| - 1];
      RunKeepsInv(s0, before);
      StepCreates(RunAll(s0, before), a);
      FailedCallsLeaveNothing(s0, before, c);
    }
  }

  // ---------- conflicts ----------

  // Whether the action is an attempt of call c to insert a link and, if so, whether its slug
  // was taken.
  ghost function AttemptOf(s: State, a: Action, c: nat): seq<bool> {
    if a.Run? && a.c == c && Enabled(s, c) && s.calls[c].pc.InsertLink? then [s.calls[c].pc.slug in s.links] else []
  }

  ghost function Attempts(s: State, run: seq<Action>, c: nat): seq<bool> {
    if run == [] then []
    else Attempts(s, run[..|run| - 1], c) + AttemptOf(RunAll(s, run[..|run| - 1]), run[|run| - 1], c)
  }

  predicate AllTaken(tries: seq<bool>) {
    forall i :: 0 <= i < |tries| ==> tries[i]
  }

  predicate LastFree(tries: seq<bool>) {
    1 <= |tries| <= 5 && !tries[|tries| - 1] && AllTaken(tries[..|tries| - 1])
  }

  // What a call's attempts say of where it stands.
  ghost predicate Fits(tries: seq<bool>, k: Call) {
    match k.pc
    case Generate => |tries| == k.taken < 5 && AllTaken(tries)
    case InsertLink(_) => |tries| == k.taken < 5 && AllTaken(tries)
    case Conflict => |tries| == 5 && AllTaken(tries)
    case Threw => LastFree(tries) || (|tries| < 5 && AllTaken(tries))
    case _ => LastFree(tries)
  }

  lemma StepKeepsFit(s: State, a: Action, c: nat, tries: seq<bool>)
    requires c in s.calls && Fits(tries, s.calls[c])
    ensures c in Exec(s, a).calls && Fits(tries + AttemptOf(s, a, c), Exec(s, a).calls[c])
  {
    var one := AttemptOf(s, a, c);
    if one == [] {
      assert tries + one == tries;
    } else {
      assert (tries + one)[..|tries|] == tries;
    }
  }

  lemma {:induction false} CallFits(s0: State, run: seq<Action>, c: nat)
    requires s0.calls == map[] && c in RunAll(s0, run).calls
    ensures Fits(Attempts(s0, run, c), RunAll(s0, run).calls[c])
  {
    var before, a := run[..|run| - 1], run[|run| - 1];
    var s := RunAll(s0, before);
    if c in s.calls {
      CallFits(s0, before, c);
      StepKeepsFit(s, a, c, Attempts(s0, before, c));
    } else {
      NoDrawsYet(s0, before, c);
      assert Attempts(s0, run, c) == [];
    }
  }

  // The slug the generator gives call c in a step that begins a transaction.
  ghost function DrawOf(s: State, a: Action, c: nat): seq<string> {
    if a.Run? && a.c == c && Enabled(s, c) && s.calls[c].pc.Generate? then [a.slug] else []
  }

  // The slug of the link call c tries to insert in a step.
  ghost function TrialOf(s: State, a: Action, c: nat): seq<string> {
    if AttemptOf(s, a, c) != [] then [s.calls[c].pc.slug] else []
  }

  ghost function Draws(s: State, run: seq<Action>, c: nat): seq<string> {
    if run == [] then [] else Draws(s, run[..|run| - 1], c) + DrawOf(RunAll(s, run[..|run| - 1]), run[|run| - 1], c)
  }

  ghost function Trials(s: State, run: seq<Action>, c: nat): seq<string> {
    if run == [] then [] else Trials(s, run[..|run| - 1], c) + TrialOf(RunAll(s, run[..|run| - 1]), run[|run| - 1], c)
  }

  // Every trial has a draw of its own: the slugs tried are those drawn, in their order, but
  // for one drawn last and not yet, or never, tried. A link is created under the last.
  ghost predicate TriesDraws(draws: seq<string>, trials: seq<string>, pc: Pc) {
    match pc
    case InsertLink(slug) => draws == trials + [slug]
    case Generate => draws == trials
    case Conflict => draws == trials
    case Threw => draws == trials || (draws != [] && draws[..|draws| - 1] == trials)
    case _ => draws == trials && trials != [] && trials[|trials| - 1] == pc.slug
  }

  lemma StepTriesDraws(s: State, a: Action, c: nat, draws: seq<string>, trials: seq<string>)
    requires c in s.calls && TriesDraws(draws, trials, s.calls[c].pc)
    ensures c in Exec(s, a).calls
    ensures TriesDraws(draws + DrawOf(s, a, c), trials + TrialOf(s, a, c), Exec(s, a).calls[c].pc)
  {
    assert draws + [] == draws && trials + [] == trials;
  }

  lemma {:induction false} TrialsFollowDraws(s0: State, run: seq<Action>, c: nat)
    requires s0.calls == map[] && c in RunAll(s0, run).calls
    ensures TriesDraws(Draws(s0, run, c), Trials(s0, run, c), RunAll(s0, run).calls[c].pc)
    ensures |Trials(s0, run, c)| == |Attempts(s0, run, c)|
  {
    var before, a := run[..|run| - 1], run[|run| - 1];
    var s := RunAll(s0, before);
    if c in s.calls {
      TrialsFollowDraws(s0, before, c);
      StepTriesDraws(s, a, c, Draws(s0, before, c), Trials(s0, before, c));
    } else {
      NoDrawsYet(s0, before, c);
    }
  }

  lemma {:induction false} NoDrawsYet(s0: State, run: seq<Action>, c: nat)
    requires c !in RunAll(s0, run).calls
    ensures Draws(s0, run, c) == Trials(s0, run, c) == [] && Attempts(s0, run, c) == []
  {
    if run != [] {
      NoDrawsYet(s0, run[..|run| - 1], c);
    }
  }

  // Main result 3. A creation ends in ConflictException exactly when five generated slugs in
  // a row were taken; unless another error stops it, it returns exactly when a slug was free
  // after at most four that were not. It never makes a sixth attempt.
  lemma ConflictExactly(s0: State, run: seq<Action>, c: nat, tries: seq<bool>, k: Call)
    requires s0.calls == map[] && c in RunAll(s0, run).calls
    requires tries == Attempts(s0, run, c) && k == RunAll(s0, run).calls[c]
    ensures k.pc.Conflict? <==> |tries| == 5 && AllTaken(tries)
    ensures k.pc.Created? ==> LastFree(tries)
    ensures !k.Active() && !k.pc.Threw? ==> (k.pc.Created? <==> LastFree(tries))
    ensures |tries| <= 5
  {
    CallFits(s0, run, c);
  }

  // ---------- the service itself, one call at a time ----------

  datatype Error = MonthlyLinkLimitExceeded | SlugConflict

  class LinksService {
    var links: map<string, Link>
    var outbox: seq<OutboxRecord>

    constructor ()
      ensures links == map[] && outbox == []
    {
      links, outbox := map[], [];
    }

    // One transaction: both inserts go to its own copies, which replace the tables when it
    // commits and are dropped on a unique violation.
    method TryCreate(link: Link, slug: string) returns (created: bool)
      modifies this
      ensures created <==> slug !in old(links)
      ensures links == if created then old(links)[slug := link] else old(links)
      ensures outbox == if created then old(outbox) + [LinkCreated(slug, link.originalUrl)] else old(outbox)
    {
      var linksNow, outboxNow := links, outbox;
      if slug in linksNow { return false; }
      linksNow := linksNow[slug := link];
      outboxNow := outboxNow + [LinkCreated(slug, linksNow[slug].originalUrl)];
      links, outbox := linksNow, outboxNow;
      return true;
    }

    // slugs: what the generator yields for the attempts.
    method RetryOnSlugConflict(link: Link, slugs: seq<string>) returns (r: Result<string, Error>)
      requires |slugs| == MAX_SLUG_RETRIES
      modifies this
      ensures r == Failure(SlugConflict) <==> forall i :: 0 <= i < |slugs| ==> slugs[i] in old(links)
      ensures r.Failure? ==> r.error == SlugConflict && links == old(links) && outbox == old(outbox)
      ensures r.Success? ==>
                && (exists k :: 0 <= k < |slugs| && r.value == slugs[k] && forall i :: 0 <= i < k ==> slugs[i] in old(links))
                && r.value !in old(links) && links == old(links)[r.value := link]
                && outbox == old(outbox) + [LinkCreated(r.value, link.originalUrl)]
    {
      var i := 0;
      while i < MAX_SLUG_RETRIES
        invariant 0 <= i <= MAX_SLUG_RETRIES
        invariant forall j :: 0 <= j < i ==> slugs[j] in old(links)
        invariant links == old(links) && outbox == old(outbox)
      {
        var created := TryCreate(link, slugs[i]);
        if created { return Success(slugs[i]); }
        i := i + 1;
      }
      return Failure(SlugConflict);
    }

    // create: a registered user's creation is refused at the monthly limit; a guest's is not
    // counted.
    method Create(link: Link, guest: bool, count: nat, limit: nat, slugs: seq<string>) returns (r: Result<string, Error>)
      requires |slugs| == MAX_SLUG_RETRIES
      modifies this
      ensures r == Failure(MonthlyLinkLimitExceeded) <==> !guest && count >= limit
      ensures r == Failure(SlugConflict) <==> (guest || count < limit) && forall i :: 0 <= i < |slugs| ==> slugs[i] in old(links)
      ensures r.Failure? ==> links == old(links) && outbox == old(outbox)
      ensures r.Success? ==>
                && r.value in slugs && r.value !in old(links) && links == old(links)[r.value := link]
                && outbox == old(outbox) + [LinkCreated(r.value, link.originalUrl)]
    {
      if !guest && count >= limit { return Failure(MonthlyLinkLimitExceeded); }
      r := RetryOnSlugConflict(link, slugs);
    }
  }
}
