// The redirect cache with every handler split into its database and cache steps, any number
// of handlers interleaved, cache operations failing silently and handlers dying anywhere.
module CacheInterleaving {
  import opened Wrappers
  import opened Redis
  import opened LinkCache

  // Where a handler stands; a handler that carries a row read it from the database, or wrote it.
  datatype Handler =
    | ResolveGet(slug: string)
    | ResolveFind(slug: string)
    | CreateInsert(slug: string, link: Link)
    | UpdateRead(slug: string, userId: nat, url: string)
    | UpdateWrite(slug: string, userId: nat, row: Link)  // row.originalUrl is the new URL already
    | UpdateCache(slug: string, row: Link)               // evict if expired, otherwise set
    | RemoveRead(slug: string, userId: nat)
    | RemoveDelete(slug: string)
    | CacheSetting(slug: string, row: Link)              // last step of resolve and create
    | CacheDeleting(slug: string)                        // last step of remove
    | CleanupDelete(queue: seq<string>)                  // any batch of slugs
    | CleanupCache(slug: string, queue: seq<string>)
    | Done

  datatype System = System(world: World, handlers: map<nat, Handler>)

  datatype Action =
    | Start(h: nat, handler: Handler)
    | Step(h: nat, ok: bool)  // ok: whether this step's cache operation (for cleanup, its DELETE too) succeeds
    | Die(h: nat)
    | Tick(ms: nat)

  predicate Begins(handler: Handler) {
    handler.ResolveGet? || handler.CreateInsert? || handler.UpdateRead? || handler.RemoveRead? || handler.CleanupDelete?
  }

  // One step of a handler: the stores after it, and where the handler then stands.
  function Advance(w: World, handler: Handler, ok: bool, isHttp: string -> bool): (World, Handler) {
    match handler
    case ResolveGet(slug) =>
      (w, if ok && CacheGet(w, slug).Some? then Done else ResolveFind(slug))
    case ResolveFind(slug) =>
      (w, if DatabaseAnswer(w, slug, isHttp).Active? then CacheSetting(slug, w.links[slug]) else Done)
    case CreateInsert(slug, link) =>
      if slug in w.links then (w, Done)
      else (w.(links := w.links[slug := link]), CacheSetting(slug, link))
    case UpdateRead(slug, userId, url) =>
      if slug !in w.links || w.links[slug].userId != userId then (w, Done)
      else (w, UpdateWrite(slug, userId, w.links[slug].(originalUrl := url)))
    case UpdateWrite(slug, userId, row) =>
      // UPDATE ... WHERE short_url = slug AND user_id = userId: no row, no error
      if slug in w.links && w.links[slug].userId == userId
      then (w.(links := w.links[slug := w.links[slug].(originalUrl := row.originalUrl)]), UpdateCache(slug, row))
      else (w, UpdateCache(slug, row))
    case UpdateCache(slug, row) =>
      if !ok then (w, Done)
      else if IsExpired(row, w.now) then (CacheDel(w, slug), Done)
      else (CacheSet(w, slug, row), Done)
    case RemoveRead(slug, userId) =>
      (w, if slug !in w.links || w.links[slug].userId != userId then Done else RemoveDelete(slug))
    case RemoveDelete(slug) => (w.(links := w.links - {slug}), CacheDeleting(slug))
    case CacheSetting(slug, row) => (if ok then CacheSet(w, slug, row) else w, Done)
    case CacheDeleting(slug) => (if ok then CacheDel(w, slug) else w, Done)
    case CleanupDelete(queue) =>
      if queue == [] then (w, Done)
      else if !ok then (w, CleanupDelete(queue[1..]))
      else (w.(links := w.links - {queue[0]}), CleanupCache(queue[0], queue[1..]))
    case CleanupCache(slug, queue) => (if ok then CacheDel(w, slug) else w, CleanupDelete(queue))
    case Done => (w, Done)
  }

  function Exec(s: System, a: Action, isHttp: string -> bool): System {
    match a
    case Start(h, handler) =>
      if h in s.handlers || !Begins(handler) then s else s.(handlers := s.handlers[h := handler])
    case Step(h, ok) =>
      if h !in s.handlers then s
      else
        var (w, next) := Advance(s.world, s.handlers[h], ok, isHttp);
        System(w, s.handlers[h := next])
    case Die(h) => if h !in s.handlers then s else s.(handlers := s.handlers[h := Done])
    case Tick(ms) => s.(world := s.world.(now := s.world.now + ms))
  }

  function RunAll(s: System, run: seq<Action>, isHttp: string -> bool): System {
    if run == [] then s else Exec(RunAll(s, run[..|run| - 1], isHttp), run[|run| - 1], isHttp)
  }

  // Every cache write of the run comes with a full second of the carried row's life left.
  predicate InTime(s: System, a: Action) {
    a.Step? && a.ok && a.h in s.handlers ==>
      match s.handlers[a.h]
      case CacheSetting(_, row) => TimeLeft(row.expiresAt, s.world.now)
      case UpdateCache(_, row) => IsExpired(row, s.world.now) || TimeLeft(row.expiresAt, s.world.now)
      case _ => true
  }

  ghost predicate AllInTime(s: System, run: seq<Action>, isHttp: string -> bool) {
    run != [] ==>
      && AllInTime(s, run[..|run| - 1], isHttp)
      && InTime(RunAll(s, run[..|run| - 1], isHttp), run[|run| - 1])
  }

  function Row(s: System, slug: string): Option<Link> {
    if slug in s.world.links then Some(s.world.links[slug]) else None
  }

  // No step of the run changes the slug's row.
  ghost predicate RowKept(s: System, run: seq<Action>, slug: string, isHttp: string -> bool) {
    run != [] ==>
      && RowKept(s, run[..|run| - 1], slug, isHttp)
      && Row(RunAll(s, run, isHttp), slug) == Row(s, slug)
  }

  predicate Concerns(handler: Handler, slug: string) {
    !handler.Done? && !handler.CleanupDelete? && !handler.CleanupCache? && handler.slug == slug
  }

  // ---------- a handler alone is the atomic one ----------

  function Twice(w: World, handler: Handler, ok: bool, isHttp: string -> bool): (World, Handler) {
    var (w1, next) := Advance(w, handler, ok, isHttp);
    Advance(w1, next, ok, isHttp)
  }

  function Thrice(w: World, handler: Handler, ok: bool, isHttp: string -> bool): (World, Handler) {
    var (w1, next) := Advance(w, handler, ok, isHttp);
    Twice(w1, next, ok, isHttp)
  }

  // The database is as the atomic handler leaves it, the cache too if it answers.
  function AtomicOutcome(w: World, e: Event, ok: bool, isHttp: string -> bool): World {
    var w' := LinkCache.Exec(w, e, isHttp);
    if ok then w' else World(w'.links, w.cache, w.now)
  }

  // Uninterrupted, the steps of each handler do what the atomic handler does.
  lemma RequestsAlone(w: World, slug: string, link: Link, ok: bool, isHttp: string -> bool)
    ensures Thrice(w, ResolveGet(slug), ok, isHttp) == (AtomicOutcome(w, Resolve(slug), ok, isHttp), Done)
    ensures Twice(w, CreateInsert(slug, link), ok, isHttp) == (AtomicOutcome(w, Create(slug, link, true), ok, isHttp), Done)
  {
  }

  lemma ChangesAlone(w: World, slug: string, userId: nat, url: string, ok: bool, isHttp: string -> bool)
    ensures Thrice(w, UpdateRead(slug, userId, url), ok, isHttp) == (AtomicOutcome(w, Update(slug, userId, url), ok, isHttp), Done)
    ensures Thrice(w, RemoveRead(slug, userId), ok, isHttp) == (AtomicOutcome(w, Remove(slug, userId), ok, isHttp), Done)
  {
  }

  // Cleanup deletes each row and evicts its entry in turn, and goes on where one fails.
  function AfterCleanup(w: World, batch: seq<string>, isHttp: string -> bool): (World, Handler)
    decreases |batch|
  {
    if batch == [] then Advance(w, CleanupDelete(batch), true, isHttp)
    else
      var (w', next) := Twice(w, CleanupDelete(batch), true, isHttp);
      if next == CleanupDelete(batch[1..]) then AfterCleanup(w', batch[1..], isHttp) else (w', next)
  }

  lemma {:induction false} CleanupAlone(w: World, batch: seq<string>, isHttp: string -> bool)
    ensures var removed := set slug | slug in batch;
            AfterCleanup(w, batch, isHttp) == (World(w.links - removed, w.cache - removed, w.now), Done)
    decreases |batch|
  {
    if batch == [] {
      assert (set slug | slug in batch) == {};
      assert w.links - {} == w.links && w.cache - {} == w.cache;
    } else {
      var first, rest := batch[0], set slug | slug in batch[1..];
      assert Twice(w, CleanupDelete(batch), true, isHttp) ==
             (World(w.links - {first}, w.cache - {first}, w.now), CleanupDelete(batch[1..]));
      CleanupAlone(World(w.links - {first}, w.cache - {first}, w.now), batch[1..], isHttp);
      assert (set slug | slug in batch) == {first} + rest;
      assert w.links - {first} - rest == w.links - ({first} + rest) && w.cache - {first} - rest == w.cache - ({first} + rest);
    }
  }

  lemma FailedCleanupSteps(w: World, slug: string, queue: seq<string>, isHttp: string -> bool)
    ensures Advance(w, CleanupDelete([slug] + queue), false, isHttp) == (w, CleanupDelete(queue))
    ensures Advance(w, CleanupCache(slug, queue), false, isHttp) == (w, CleanupDelete(queue))
  {
    assert ([slug] + queue)[1..] == queue;
  }

  // What a handler has read it does not read again: a PATCH whose row has vanished or changed
  // hands still writes its own copy to the cache, and a DELETE takes the row of any owner.
  lemma HandlersDoNotLookAgain(w: World, slug: string, userId: nat, row: Link, isHttp: string -> bool)
    requires slug !in w.links || w.links[slug].userId != userId
    ensures Twice(w, UpdateWrite(slug, userId, row), true, isHttp) ==
            (World(w.links, if row.expiresAt.Some? && row.expiresAt.value <= w.now then w.cache - {slug}
                            else w.cache[slug := CacheEntry(row.originalUrl, row.expiresAt, w.now)], w.now), Done)
    ensures Twice(w, RemoveDelete(slug), true, isHttp) == (World(w.links - {slug}, w.cache - {slug}, w.now), Done)
  {
  }

  // ---------- invariants ----------

  // Every key has a deadline at most a day ahead.
  ghost predicate Bounded(s: System) {
    forall slug :: slug in s.world.cache ==>
      s.world.cache[slug].deadline.Some? && s.world.cache[slug].deadline.value <= s.world.now + 86_400_000
  }

  // Since the row was last changed: the handlers started since carry this very row.
  ghost predicate NewHandlersCarry(s: System, earlier: set<nat>, slug: string, row: Option<Link>) {
    forall h :: h in s.handlers && h !in earlier && Concerns(s.handlers[h], slug) ==> CarriesRow(s.handlers[h], row)
  }

  predicate CarriesRow(handler: Handler, row: Option<Link>) {
    match handler
    case CacheSetting(_, r) => row == Some(r)
    case UpdateCache(_, r) => row == Some(r)
    case UpdateWrite(_, userId, r) => row.Some? && row.value.userId == userId && r == row.value.(originalUrl := r.originalUrl)
    case _ => true
  }

  // The slug's entry dies by the given instant, or mirrors the row.
  predicate DiesOrMirrors(s: System, slug: string, limit: int, row: Option<Link>) {
    slug in s.world.cache ==>
      var e := s.world.cache[slug];
      && e.deadline.Some?
      && (e.deadline.value <= limit ||
          (row.Some? && e.value == row.value.originalUrl &&
           (row.value.expiresAt.Some? ==> e.deadline.value <= row.value.expiresAt.value)))
  }

  lemma StepKeepsBounded(s: System, a: Action, isHttp: string -> bool)
    requires Bounded(s) && InTime(s, a)
    ensures Bounded(Exec(s, a, isHttp))
  {
    if a.Step? && a.h in s.handlers {
      var handler := s.handlers[a.h];
      if handler.CacheSetting? || handler.UpdateCache? {
        CacheEntryDeadline(handler.row.originalUrl, handler.row.expiresAt, s.world.now);
      }
    }
  }

  lemma {:induction false} RunKeepsBounded(s: System, run: seq<Action>, isHttp: string -> bool)
    requires Bounded(s) && AllInTime(s, run, isHttp)
    ensures Bounded(RunAll(s, run, isHttp))
  {
    if run != [] {
      RunKeepsBounded(s, run[..|run| - 1], isHttp);
      StepKeepsBounded(RunAll(s, run[..|run| - 1], isHttp), run[|run| - 1], isHttp);
    }
  }

  lemma StepKeepsCarried(s: System, a: Action, earlier: set<nat>, slug: string, isHttp: string -> bool)
    requires NewHandlersCarry(s, earlier, slug, Row(s, slug)) && earlier <= s.handlers.Keys
    requires Row(Exec(s, a, isHttp), slug) == Row(s, slug)
    ensures NewHandlersCarry(Exec(s, a, isHttp), earlier, slug, Row(s, slug))
  {
    var s' := Exec(s, a, isHttp);
    if a.Step? && a.h in s.handlers && a.h !in earlier && Concerns(s.handlers[a.h], slug) {
      assert CarriesRow(s.handlers[a.h], Row(s, slug));
    }
  }

  lemma {:induction false} RunKeepsCarried(s: System, run: seq<Action>, earlier: set<nat>, slug: string, isHttp: string -> bool)
    requires NewHandlersCarry(s, earlier, slug, Row(s, slug)) && earlier <= s.handlers.Keys
    requires RowKept(s, run, slug, isHttp)
    ensures NewHandlersCarry(RunAll(s, run, isHttp), earlier, slug, Row(s, slug))
    ensures Row(RunAll(s, run, isHttp), slug) == Row(s, slug)
    ensures s.handlers.Keys <= RunAll(s, run, isHttp).handlers.Keys
  {
    if run != [] {
      RunKeepsCarried(s, run[..|run| - 1], earlier, slug, isHttp);
      StepKeepsCarried(RunAll(s, run[..|run| - 1], isHttp), run[|run| - 1], earlier, slug, isHttp);
    }
  }

  // The handlers in flight when the row was last changed have finished.
  ghost predicate OldOnesDone(s: System, earlier: set<nat>, slug: string) {
    forall h :: h in earlier && h in s.handlers ==> !Concerns(s.handlers[h], slug)
  }

  // A handler never turns to another slug.
  lemma StepKeepsSlug(s: System, a: Action, earlier: set<nat>, slug: string, isHttp: string -> bool)
    requires OldOnesDone(s, earlier, slug) && earlier <= s.handlers.Keys
    ensures OldOnesDone(Exec(s, a, isHttp), earlier, slug)
  {
  }

  lemma StepKeepsMirror(s: System, a: Action, earlier: set<nat>, slug: string, limit: int, isHttp: string -> bool)
    requires InTime(s, a) && NewHandlersCarry(s, earlier, slug, Row(s, slug)) && OldOnesDone(s, earlier, slug)
    requires DiesOrMirrors(s, slug, limit, Row(s, slug))
    ensures DiesOrMirrors(Exec(s, a, isHttp), slug, limit, Row(s, slug))
  {
    if a.Step? && a.h in s.handlers && Concerns(s.handlers[a.h], slug) {
      var handler := s.handlers[a.h];
      assert CarriesRow(handler, Row(s, slug));
      if handler.CacheSetting? || handler.UpdateCache? {
        CacheEntryDeadline(handler.row.originalUrl, handler.row.expiresAt, s.world.now);
      }
    }
  }

  lemma {:induction false} RunKeepsMirror(s: System, run: seq<Action>, earlier: set<nat>, slug: string, limit: int, isHttp: string -> bool)
    requires NewHandlersCarry(s, earlier, slug, Row(s, slug)) && OldOnesDone(s, earlier, slug) && earlier <= s.handlers.Keys
    requires RowKept(s, run, slug, isHttp) && AllInTime(s, run, isHttp)
    requires DiesOrMirrors(s, slug, limit, Row(s, slug))
    ensures DiesOrMirrors(RunAll(s, run, isHttp), slug, limit, Row(s, slug))
    ensures OldOnesDone(RunAll(s, run, isHttp), earlier, slug)
  {
    if run != [] {
      var before, a := run[..|run| - 1], run[|run| - 1];
      RunKeepsMirror(s, before, earlier, slug, limit, isHttp);
      RunKeepsCarried(s, before, earlier, slug, isHttp);
      StepKeepsSlug(RunAll(s, before, isHttp), a, earlier, slug, isHttp);
      StepKeepsMirror(RunAll(s, before, isHttp), a, earlier, slug, limit, isHttp);
    }
  }

  // Main result. Take any run from an empty cache: `prefix` up to the last change of the
  // slug's row, `middle` until the handlers of that slug in flight at that change have
  // finished, `suffix` until 86,400 s later. However the steps interleave, whatever cache
  // operations fail and handlers die, resolve then agrees with the database.
  lemma DisagreementIsBounded(s0: System, prefix: seq<Action>, middle: seq<Action>, suffix: seq<Action>,
                              slug: string, isHttp: string -> bool, changed: System, settled: System, end: System)
    requires s0.world.cache == map[]
    requires changed == RunAll(s0, prefix, isHttp) && AllInTime(s0, prefix, isHttp)
    requires settled == RunAll(changed, middle, isHttp) && AllInTime(changed, middle, isHttp)
    requires end == RunAll(settled, suffix, isHttp) && AllInTime(settled, suffix, isHttp)
    requires RowKept(changed, middle, slug, isHttp) && RowKept(settled, suffix, slug, isHttp)
    requires OldOnesDone(settled, changed.handlers.Keys, slug)
    requires end.world.now >= settled.world.now + 86_400_000
    ensures Answer(end.world, slug, isHttp) == DatabaseAnswer(end.world, slug, isHttp)
  {
    var earlier := changed.handlers.Keys;
    RunKeepsBounded(s0, prefix, isHttp);
    RunKeepsBounded(changed, middle, isHttp);
    RunKeepsCarried(changed, middle, earlier, slug, isHttp);
    RunKeepsCarried(settled, suffix, earlier, slug, isHttp);
    RunKeepsMirror(settled, suffix, earlier, slug, settled.world.now + 86_400_000, isHttp);
  }

  // ---------- the day cannot be shortened ----------

  ghost predicate Reaches(s: System, s': System, isHttp: string -> bool) {
    exists run :: RunAll(s, run, isHttp) == s' && AllInTime(s, run, isHttp)
  }

  lemma ReachesOneMore(s: System, s': System, a: Action, isHttp: string -> bool) returns (s'': System)
    requires Reaches(s, s', isHttp) && InTime(s', a)
    ensures s'' == Exec(s', a, isHttp) && Reaches(s, s'', isHttp)
  {
    var run :| RunAll(s, run, isHttp) == s' && AllInTime(s, run, isHttp);
    s'' := Exec(s', a, isHttp);
    assert (run + [a])[..|run|] == run;
    assert RunAll(s, run + [a], isHttp) == s'';
  }

  lemma StepTo(s: System, s': System, h: nat, next: Handler, isHttp: string -> bool) returns (s'': System)
    requires Reaches(s, s', isHttp) && h in s'.handlers && InTime(s', Step(h, true))
    requires Advance(s'.world, s'.handlers[h], true, isHttp).1 == next
    ensures Reaches(s, s'', isHttp)
    ensures s'' == System(Advance(s'.world, s'.handlers[h], true, isHttp).0, s'.handlers[h := next])
  {
    s'' := ReachesOneMore(s, s', Step(h, true), isHttp);
  }

  // A redirect that read the old row caches it after an update has cached the new one: with
  // every handler finished and every cache operation working, redirects keep going to the
  // old destination for the whole day but its last millisecond.
  lemma StaleForADay(slug: string, link: Link, url: string, isHttp: string -> bool) returns (s: System, settled: System)
    requires link.expiresAt.None? && isHttp(link.originalUrl) && isHttp(url) && url != link.originalUrl
    ensures s.world == World(map[slug := link], map[], 0) && s.handlers == map[]
    ensures Reaches(s, settled, isHttp) && forall h :: h in settled.handlers ==> settled.handlers[h] == Done
    ensures var w := settled.world.(now := settled.world.now + 86_399_999);
            DatabaseAnswer(w, slug, isHttp) == Active(url) && Answer(w, slug, isHttp) == Active(link.originalUrl)
  {
    s := System(World(map[slug := link], map[], 0), map[]);
    assert RunAll(s, [], isHttp) == s;
    var t := ReachesOneMore(s, s, Start(0, ResolveGet(slug)), isHttp);
    t := StepTo(s, t, 0, ResolveFind(slug), isHttp);
    t := StepTo(s, t, 0, CacheSetting(slug, link), isHttp);
    assert t == System(s.world, map[0 := CacheSetting(slug, link)]);
    t := UpdateRuns(s, t, slug, link, url, isHttp);
    CacheEntryDeadline(link.originalUrl, link.expiresAt, 0);
    settled := StepTo(s, t, 0, Done, isHttp);
    assert settled.world.cache[slug] == CacheEntry(link.originalUrl, None, 0);
  }

  // Handler 0 stands still.
  function Pair(w: World, h0: Handler, h1: Handler): System {
    System(w, map[0 := h0, 1 := h1])
  }

  lemma SecondMoves(s: System, w: World, h0: Handler, h1: Handler, w': World, h1': Handler, isHttp: string -> bool)
    requires Reaches(s, Pair(w, h0, h1), isHttp) && InTime(Pair(w, h0, h1), Step(1, true))
    requires Advance(w, h1, true, isHttp) == (w', h1')
    ensures Reaches(s, Pair(w', h0, h1'), isHttp)
  {
    var t := ReachesOneMore(s, Pair(w, h0, h1), Step(1, true), isHttp);
    assert t == Pair(w', h0, h1');
  }

  lemma UpdateRuns(s: System, t: System, slug: string, link: Link, url: string, isHttp: string -> bool) returns (t': System)
    requires Reaches(s, t, isHttp) && t == System(World(map[slug := link], map[], 0), map[0 := CacheSetting(slug, link)])
    requires link.expiresAt.None?
    ensures Reaches(s, t', isHttp)
    ensures t'.world.links == map[slug := link.(originalUrl := url)] && t'.world.now == 0
    ensures t'.handlers == map[0 := CacheSetting(slug, link), 1 := Done]
  {
    var row, waiting := link.(originalUrl := url), CacheSetting(slug, link);
    var read, write, cache := UpdateRead(slug, link.userId, url), UpdateWrite(slug, link.userId, row), UpdateCache(slug, row);
    var before, after := World(map[slug := link], map[], 0), World(map[slug := row], map[], 0);
    t' := ReachesOneMore(s, t, Start(1, read), isHttp);
    assert t' == Pair(before, waiting, read);
    SecondMoves(s, before, waiting, read, before, write, isHttp);
    assert map[slug := link][slug := row] == map[slug := row];
    SecondMoves(s, before, waiting, write, after, cache, isHttp);
    SecondMoves(s, after, waiting, cache, CacheSet(after, slug, row), Done, isHttp);
    t' := Pair(CacheSet(after, slug, row), waiting, Done);
  }
}
