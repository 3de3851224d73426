// The redirect cache as a copy of the links table, every handler one atomic step
// (redirect.service.ts, link-cache.service.ts, redis.service.ts, links.controller.ts).
module LinkCache {
  import opened Wrappers
  import opened Redis

  // Times are in milliseconds.
  datatype Link = Link(originalUrl: string, userId: nat, expiresAt: Option<int>)

  // ---------- TTL arithmetic, across the cache and the Redis wrapper ----------

  const CACHE_TTL_CAP_SECONDS: int := 86_400

  function TtlSecondsUntil(expiresAt: Option<int>, now: int): Option<int> {
    if expiresAt.None? then Some(CACHE_TTL_CAP_SECONDS)
    else
      var diffMs := expiresAt.value - now;
      if diffMs <= 0 then None
      else Some(if diffMs / 1000 < CACHE_TTL_CAP_SECONDS then diffMs / 1000 else CACHE_TTL_CAP_SECONDS)
  }

  function CacheEntry(url: string, expiresAt: Option<int>, now: int): Entry {
    WithOptionalTtl(url, TtlSecondsUntil(expiresAt, now), now)
  }

  // At least one second of the link's life is left.
  predicate TimeLeft(expiresAt: Option<int>, now: int) {
    expiresAt.None? || expiresAt.value - now >= 1000
  }

  // The TTL asked for: the cap without an expiry, none once it has passed, else the whole
  // seconds left up to the cap, which in the last second are 0.
  lemma TtlForm(expiresAt: Option<int>, now: int)
    ensures expiresAt.None? ==> TtlSecondsUntil(expiresAt, now) == Some(86_400)
    ensures expiresAt.Some? && expiresAt.value <= now ==> TtlSecondsUntil(expiresAt, now) == None
    ensures expiresAt.Some? && expiresAt.value > now ==>
              && TtlSecondsUntil(expiresAt, now).Some?
              && var ttl := TtlSecondsUntil(expiresAt, now).value;
                 && 0 <= ttl <= 86_400 && ttl * 1000 <= expiresAt.value - now
                 && (ttl < 86_400 ==> expiresAt.value - now < ttl * 1000 + 1000)
  {
  }

  // A cache write gets a deadline exactly when a full second is left; the deadline is then
  // ahead, within the cap and the link's life, and short of that life by under one second
  // unless capped.
  lemma CacheEntryDeadline(url: string, expiresAt: Option<int>, now: int)
    ensures CacheEntry(url, expiresAt, now).deadline.Some? <==> TimeLeft(expiresAt, now)
    ensures TimeLeft(expiresAt, now) ==>
              var deadline := CacheEntry(url, expiresAt, now).deadline.value;
              && now < deadline <= now + 86_400_000
              && (expiresAt.Some? ==> deadline <= expiresAt.value)
              && (deadline < now + 86_400_000 ==> expiresAt.Some? && expiresAt.value - deadline < 1000)
  {
  }

  // ---------- resolving a slug ----------

  datatype World = World(links: map<string, Link>, cache: map<string, Entry>, now: int)

  datatype Resolution = Active(originalUrl: string) | Expired | NotFound

  function CacheGet(w: World, slug: string): Option<string> {
    Lookup(w.cache, slug, w.now)
  }

  predicate IsExpired(link: Link, now: int) {
    link.expiresAt.Some? && link.expiresAt.value <= now
  }

  // What resolveFromDatabase answers; isHttp is the URL parser's verdict on the scheme.
  function DatabaseAnswer(w: World, slug: string, isHttp: string -> bool): Resolution {
    if slug !in w.links then NotFound
    else if IsExpired(w.links[slug], w.now) then Expired
    else if !isHttp(w.links[slug].originalUrl) then NotFound
    else Active(w.links[slug].originalUrl)
  }

  // What resolve answers: the cached URL if there is one.
  function Answer(w: World, slug: string, isHttp: string -> bool): Resolution {
    var cached := CacheGet(w, slug);
    if cached.Some? then (if isHttp(cached.value) then Active(cached.value) else NotFound)
    else DatabaseAnswer(w, slug, isHttp)
  }

  function CacheSet(w: World, slug: string, link: Link): World {
    w.(cache := w.cache[slug := CacheEntry(link.originalUrl, link.expiresAt, w.now)])
  }

  function CacheDel(w: World, slug: string): World {
    w.(cache := w.cache - {slug})
  }

  // ---------- atomic handlers ----------

  datatype Event =
    | Create(slug: string, link: Link, cached: bool)  // the MCP tool creates without caching
    | Update(slug: string, userId: nat, url: string)
    | Remove(slug: string, userId: nat)
    | Cleanup(slug: string)
    | Resolve(slug: string)
    | Tick(ms: nat)

  function Exec(w: World, e: Event, isHttp: string -> bool): World {
    match e
    case Create(slug, link, cached) =>
      if slug in w.links then w
      else
        var created := w.(links := w.links[slug := link]);
        if cached then CacheSet(created, slug, link) else created
    case Update(slug, userId, url) =>
      if slug !in w.links || w.links[slug].userId != userId then w
      else
        var link := w.links[slug].(originalUrl := url);
        var updated := w.(links := w.links[slug := link]);
        if IsExpired(link, w.now) then CacheDel(updated, slug) else CacheSet(updated, slug, link)
    case Remove(slug, userId) =>
      if slug !in w.links || w.links[slug].userId != userId then w
      else CacheDel(w.(links := w.links - {slug}), slug)
    case Cleanup(slug) =>
      if slug !in w.links || w.links[slug].expiresAt.None? || w.links[slug].expiresAt.value >= w.now then w
      else CacheDel(w.(links := w.links - {slug}), slug)
    case Resolve(slug) =>
      if CacheGet(w, slug).None? && DatabaseAnswer(w, slug, isHttp).Active? then CacheSet(w, slug, w.links[slug]) else w
    case Tick(ms) => w.(now := w.now + ms)
  }

  function RunAll(w: World, run: seq<Event>, isHttp: string -> bool): World {
    if run == [] then w else Exec(RunAll(w, run[..|run| - 1], isHttp), run[|run| - 1], isHttp)
  }

  // A cache write of this event has a full second of the link's life left.
  predicate InTime(w: World, e: Event, isHttp: string -> bool) {
    match e
    case Create(slug, link, cached) => cached && slug !in w.links ==> TimeLeft(link.expiresAt, w.now)
    case Update(slug, userId, url) =>
      slug in w.links && w.links[slug].userId == userId && !IsExpired(w.links[slug], w.now) ==> TimeLeft(w.links[slug].expiresAt, w.now)
    case Resolve(slug) =>
      CacheGet(w, slug).None? && DatabaseAnswer(w, slug, isHttp).Active? ==> TimeLeft(w.links[slug].expiresAt, w.now)
    case _ => true
  }

  ghost predicate AllInTime(w: World, run: seq<Event>, isHttp: string -> bool) {
    run != [] ==>
      && AllInTime(w, run[..|run| - 1], isHttp)
      && InTime(RunAll(w, run[..|run| - 1], isHttp), run[|run| - 1], isHttp)
  }

  // Every live entry is the row's destination and dies no later than the row.
  ghost predicate Inv(w: World) {
    forall slug :: slug in w.cache && Live(w.cache[slug], w.now) ==> Mirrors(w, slug)
  }

  predicate Mirrors(w: World, slug: string)
    requires slug in w.cache
  {
    && slug in w.links && w.cache[slug].value == w.links[slug].originalUrl
    && w.cache[slug].deadline.Some?
    && (w.links[slug].expiresAt.Some? ==> w.cache[slug].deadline.value <= w.links[slug].expiresAt.value)
  }

  lemma StepKeepsInv(w: World, e: Event, isHttp: string -> bool)
    requires Inv(w) && InTime(w, e, isHttp)
    ensures Inv(Exec(w, e, isHttp))
  {
    if !e.Tick? && !e.Remove? && !e.Cleanup? {
      var w' := Exec(w, e, isHttp);
      if e.slug in w'.links {
        CacheEntryDeadline(w'.links[e.slug].originalUrl, w'.links[e.slug].expiresAt, w.now);
      }
      forall slug | slug in w'.cache && Live(w'.cache[slug], w'.now) ensures Mirrors(w', slug) {
        if slug != e.slug || w' == w { assert Mirrors(w, slug); }
      }
    }
  }

  lemma {:induction false} RunKeepsInv(w: World, run: seq<Event>, isHttp: string -> bool)
    requires Inv(w) && AllInTime(w, run, isHttp)
    ensures Inv(RunAll(w, run, isHttp))
  {
    if run != [] {
      RunKeepsInv(w, run[..|run| - 1], isHttp);
      StepKeepsInv(RunAll(w, run[..|run| - 1], isHttp), run[|run| - 1], isHttp);
    }
  }

  // Main result: in every run of atomic handlers in which no cache write comes in or after a
  // link's last second, resolve answers exactly what the database would at that instant.
  lemma CacheRefinesDatabase(w: World, run: seq<Event>, isHttp: string -> bool, slug: string)
    requires w.cache == map[] && AllInTime(w, run, isHttp)
    ensures Answer(RunAll(w, run, isHttp), slug, isHttp) == DatabaseAnswer(RunAll(w, run, isHttp), slug, isHttp)
  {
    RunKeepsInv(w, run, isHttp);
    InvMeansAgreement(RunAll(w, run, isHttp), isHttp);
  }

  lemma InvMeansAgreement(w: World, isHttp: string -> bool)
    requires Inv(w)
    ensures forall slug :: Answer(w, slug, isHttp) == DatabaseAnswer(w, slug, isHttp)
  {
    forall slug ensures Answer(w, slug, isHttp) == DatabaseAnswer(w, slug, isHttp) {
      if CacheGet(w, slug).Some? { assert Mirrors(w, slug); }
    }
  }

  // The condition is exact: caching a link is harmless at every later instant if and only if
  // a full second of its life was left.
  lemma CacheWriteIsHarmlessExactly(w: World, slug: string, isHttp: string -> bool)
    requires slug in w.links
    ensures (forall ms: nat :: AgreesAfter(CacheSet(w, slug, w.links[slug]), ms, slug, isHttp))
            <==> TimeLeft(w.links[slug].expiresAt, w.now)
  {
    var link := w.links[slug];
    var w' := CacheSet(w, slug, link);
    CacheEntryDeadline(link.originalUrl, link.expiresAt, w.now);
    if !TimeLeft(link.expiresAt, w.now) {
      var ms: nat := if link.expiresAt.value <= w.now then 0 else link.expiresAt.value - w.now;
      assert !AgreesAfter(w', ms, slug, isHttp);
    }
  }

  predicate AgreesAfter(w: World, ms: nat, slug: string, isHttp: string -> bool) {
    Answer(w.(now := w.now + ms), slug, isHttp) == DatabaseAnswer(w.(now := w.now + ms), slug, isHttp)
  }

  // So the service itself can disagree: a redirect of a link in its last second caches it for good.
  lemma LastSecondRedirectOutlivesTheLink(w: World, slug: string, isHttp: string -> bool, ms: nat)
    requires slug in w.links && isHttp(w.links[slug].originalUrl) && CacheGet(w, slug).None?
    requires w.links[slug].expiresAt.Some? && w.now < w.links[slug].expiresAt.value < w.now + 1000
    requires w.now + ms >= w.links[slug].expiresAt.value
    ensures var w' := RunAll(w, [Resolve(slug), Tick(ms)], isHttp);
            && DatabaseAnswer(w', slug, isHttp) == Expired
            && Answer(w', slug, isHttp) == Active(w.links[slug].originalUrl)
  {
    var run := [Resolve(slug), Tick(ms)];
    assert run[..1] == [Resolve(slug)] && run[..1][..0] == [];
    assert RunAll(w, [Resolve(slug)], isHttp) == Exec(w, Resolve(slug), isHttp);
    CacheEntryDeadline(w.links[slug].originalUrl, w.links[slug].expiresAt, w.now);
  }

  // ---------- the handlers as they update the two stores ----------

  datatype LinkError = LinkNotFound | Forbidden

  class LinkApi {
    var links: map<string, Link>
    const redis: RedisService

    ghost function State(): World
      reads this, redis
    {
      World(links, redis.entries, redis.now)
    }

    constructor (redis: RedisService)
      ensures this.redis == redis && links == map[]
    {
      this.redis := redis;
      links := map[];
    }

    method SetCached(slug: string, originalUrl: string, expiresAt: Option<int>, up: bool)
      modifies redis`entries
      ensures redis.entries == if up then old(redis.entries)[slug := CacheEntry(originalUrl, expiresAt, redis.now)] else old(redis.entries)
    {
      redis.Set(slug, originalUrl, TtlSecondsUntil(expiresAt, redis.now), up);
    }

    // resolve: an unreachable cache degrades to the database.
    method Redirect(slug: string, isHttp: string -> bool, up: bool) returns (r: Resolution)
      modifies redis`entries
      ensures State() == if up then Exec(old(State()), Resolve(slug), isHttp) else old(State())
      ensures var cached := if up then Lookup(old(redis.entries), slug, redis.now) else None;
              r == if cached.Some? then (if isHttp(cached.value) then Active(cached.value) else NotFound)
                   else if slug !in links then NotFound
                   else if links[slug].expiresAt.Some? && links[slug].expiresAt.value <= redis.now then Expired
                   else if isHttp(links[slug].originalUrl) then Active(links[slug].originalUrl) else NotFound
      ensures links == old(links)
      ensures redis.entries ==
              if up && Lookup(old(redis.entries), slug, redis.now).None? && r.Active?
              then old(redis.entries)[slug := CacheEntry(links[slug].originalUrl, links[slug].expiresAt, redis.now)]
              else old(redis.entries)
      ensures Inv(old(State())) ==> r == DatabaseAnswer(old(State()), slug, isHttp)
    {
      assert Inv(State()) && slug in redis.entries && Live(redis.entries[slug], redis.now) ==> Mirrors(State(), slug);
      var cached := redis.Get(slug, up);
      if cached.Some? {
        return if isHttp(cached.value) then Active(cached.value) else NotFound;
      }
      if slug !in links { return NotFound; }
      var link := links[slug];
      if link.expiresAt.Some? && link.expiresAt.value <= redis.now { return Expired; }
      if !isHttp(link.originalUrl) { return NotFound; }
      SetCached(slug, link.originalUrl, link.expiresAt, up);
      return Active(link.originalUrl);
    }

    // POST /urls with a slug the generator drew, cached unless the MCP tool created it
    method CreateLink(slug: string, link: Link, cached: bool, up: bool, ghost isHttp: string -> bool) returns (created: bool)
      modifies this`links, redis`entries
      ensures up ==> State() == Exec(old(State()), Create(slug, link, cached), isHttp)
      ensures created <==> slug !in old(links)
      ensures links == if created then old(links)[slug := link] else old(links)
      ensures redis.entries ==
              if created && cached && up then old(redis.entries)[slug := CacheEntry(link.originalUrl, link.expiresAt, redis.now)]
              else old(redis.entries)
    {
      if slug in links { return false; }
      links := links[slug := link];
      if cached {
        SetCached(slug, link.originalUrl, link.expiresAt, up);
      }
      return true;
    }

    method GetOwnedLink(slug: string, userId: nat) returns (r: Result<Link, LinkError>)
      ensures r == Failure(LinkNotFound) <==> slug !in links
      ensures r == Failure(Forbidden) <==> slug in links && links[slug].userId != userId
      ensures r.Success? <==> slug in links && links[slug].userId == userId
      ensures r.Success? ==> r.value == links[slug]
    {
      if slug !in links { return Failure(LinkNotFound); }
      if links[slug].userId != userId { return Failure(Forbidden); }
      return Success(links[slug]);
    }

    // DELETE /urls/:slug
    method RemoveLink(slug: string, userId: nat, up: bool, ghost isHttp: string -> bool) returns (r: Result<Link, LinkError>)
      modifies this`links, redis`entries
      ensures up ==> State() == Exec(old(State()), Remove(slug, userId), isHttp)
      ensures r == Failure(LinkNotFound) <==> slug !in old(links)
      ensures r == Failure(Forbidden) <==> slug in old(links) && old(links)[slug].userId != userId
      ensures links == if r.Success? then old(links) - {slug} else old(links)
      ensures redis.entries == if r.Success? && up then old(redis.entries) - {slug} else old(redis.entries)
      ensures r.Success? ==> DatabaseAnswer(State(), slug, isHttp) == NotFound && (up ==> Answer(State(), slug, isHttp) == NotFound)
    {
      r := GetOwnedLink(slug, userId);
      if r.Success? {
        links := links - {slug};
        redis.Del(slug, up);
      }
    }

    // PATCH /urls/:slug: the cached entry is evicted if the link has expired, else rewritten.
    method UpdateLink(slug: string, userId: nat, url: string, up: bool, ghost isHttp: string -> bool) returns (r: Result<Link, LinkError>)
      modifies this`links, redis`entries
      ensures up ==> State() == Exec(old(State()), Update(slug, userId, url), isHttp)
      ensures r == Failure(LinkNotFound) <==> slug !in old(links)
      ensures r == Failure(Forbidden) <==> slug in old(links) && old(links)[slug].userId != userId
      ensures r.Success? ==> r.value == Link(url, userId, old(links)[slug].expiresAt)
      ensures links == if r.Success? then old(links)[slug := r.value] else old(links)
      ensures redis.entries ==
              if r.Failure? || !up then old(redis.entries)
              else if r.value.expiresAt.Some? && r.value.expiresAt.value <= redis.now then old(redis.entries) - {slug}
              else old(redis.entries)[slug := CacheEntry(url, r.value.expiresAt, redis.now)]
      ensures up && Inv(old(State())) && InTime(old(State()), Update(slug, userId, url), isHttp) ==>
                forall other :: Answer(State(), other, isHttp) == DatabaseAnswer(State(), other, isHttp)
    {
      r := GetOwnedLink(slug, userId);
      if r.Success? {
        var link := r.value.(originalUrl := url);
        r := Success(link);
        links := links[slug := link];
        if link.expiresAt.Some? && link.expiresAt.value <= redis.now {
          redis.Del(slug, up);
        } else {
          SetCached(slug, link.originalUrl, link.expiresAt, up);
        }
      }
      if up && Inv(old(State())) && InTime(old(State()), Update(slug, userId, url), isHttp) {
        assert State() == Exec(old(State()), Update(slug, userId, url), isHttp);
        StepKeepsInv(old(State()), Update(slug, userId, url), isHttp);
        InvMeansAgreement(State(), isHttp);
      }
    }
  }
}
