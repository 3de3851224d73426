// Hourly removal of expired links, in batches, each row on its own (cleanup.service.ts).
module Cleanup {
  import opened Wrappers
  import opened Redis
  import opened LinkCache

  const CLEANUP_BATCH_SIZE: nat := 1000

  // expires_at < now
  function ExpiredSlugs(links: map<string, Link>, now: int): set<string> {
    set slug | slug in links && links[slug].expiresAt.Some? && links[slug].expiresAt.value < now
  }

  // What findExpiredLinks may return: expired rows, at most a batch, all of them if they fit.
  ghost predicate IsBatch(batch: seq<string>, links: map<string, Link>, now: int) {
    && (forall i, j :: 0 <= i < j < |batch| ==> batch[i] != batch[j])
    && (forall slug :: slug in batch ==> slug in ExpiredSlugs(links, now))
    && |batch| == if |ExpiredSlugs(links, now)| < CLEANUP_BATCH_SIZE then |ExpiredSlugs(links, now)| else CLEANUP_BATCH_SIZE
  }

  // The rows a run over the batch deletes: those of `failing` could not be.
  function Removed(batch: seq<string>, failing: set<string>): set<string> {
    set slug | slug in batch && slug !in failing
  }

  // Both stores after that run; the cache did not answer when keys of `stuck` were deleted.
  function Pass(w: World, batch: seq<string>, failing: set<string>, stuck: set<string>): World {
    World(w.links - Removed(batch, failing), w.cache - (Removed(batch, failing) - stuck), w.now)
  }

  class CleanupService {
    var links: map<string, Link>
    var cache: map<string, Entry>
    var now: int

    ghost function State(): World
      reads this
    {
      World(links, cache, now)
    }

    // A failed DELETE leaves the row and its cache entry; a failed eviction is not reported.
    method DeleteOneSafely(slug: string, failing: set<string>, stuck: set<string>) returns (ok: bool)
      modifies this`links, this`cache
      ensures ok <==> slug !in failing
      ensures links == if ok then old(links) - {slug} else old(links)
      ensures cache == if ok && slug !in stuck then old(cache) - {slug} else old(cache)
      ensures State() == Pass(old(State()), [slug], failing, stuck)
    {
      ok := slug !in failing;
      if ok {
        links := links - {slug};
        if slug !in stuck {
          cache := cache - {slug};
        }
      }
    }

    method HandleCleanup(batch: seq<string>, failing: set<string>, stuck: set<string>) returns (count: nat)
      requires IsBatch(batch, links, now)
      modifies this`links, this`cache
      ensures State() == Pass(old(State()), batch, failing, stuck)
      ensures count == |old(links)| - |links|
      ensures forall slug :: slug in links <==> slug in old(links) && (slug in batch ==> slug in failing)
      ensures forall slug :: slug in cache <==> slug in old(cache) && (slug in batch ==> slug in failing || slug in stuck)
    {
      ghost var w := State();
      count := 0;
      var i := 0;
      PassOverNothing(w, failing, stuck);
      while i < |batch|
        invariant 0 <= i <= |batch|
        invariant State() == Pass(w, batch[..i], failing, stuck)
        invariant count == |w.links| - |links|
      {
        NextRow(w, batch, i);
        PassOneMore(w, batch[..i], batch[i], failing, stuck);
        RemovingOneRow(links, batch[i]);
        var ok := DeleteOneSafely(batch[i], failing, stuck);
        if ok {
          count := count + 1;
        }
        i := i + 1;
      }
      assert batch[..i] == batch;
    }
  }

  lemma PassOverNothing(w: World, failing: set<string>, stuck: set<string>)
    ensures Pass(w, [], failing, stuck) == w
  {
  }

  lemma NextRow(w: World, batch: seq<string>, i: nat)
    requires IsBatch(batch, w.links, w.now) && i < |batch|
    ensures batch[..i + 1] == batch[..i] + [batch[i]]
    ensures batch[i] !in batch[..i] && batch[i] in w.links
  {
    assert batch[i] in ExpiredSlugs(w.links, w.now);
  }

  // A pass over one more row of the table.
  lemma PassOneMore(w: World, batch: seq<string>, slug: string, failing: set<string>, stuck: set<string>)
    requires slug !in batch && slug in w.links
    ensures slug in Pass(w, batch, failing, stuck).links
    ensures Pass(Pass(w, batch, failing, stuck), [slug], failing, stuck) == Pass(w, batch + [slug], failing, stuck)
    ensures Pass(w, batch, failing, stuck).links - (if slug in failing then {} else {slug}) == Pass(w, batch + [slug], failing, stuck).links
  {
    var removed, one := Removed(batch, failing), Removed([slug], failing);
    assert one == if slug in failing then {} else {slug};
    assert Removed(batch + [slug], failing) == removed + one;
    assert (w.links - removed) - one == w.links - (removed + one);
    assert (w.cache - (removed - stuck)) - (one - stuck) == w.cache - (removed + one - stuck);
  }

  lemma RemovingOneRow(m: map<string, Link>, slug: string)
    requires slug in m
    ensures |m - {slug}| == |m| - 1
  {
  }

  // Main result 1. Whatever rows and evictions fail, a pass removes only rows past their expiry, keeps every
  // other row, and (under the cache invariant, which it keeps) changes no answer but
  // 'expired' to 'not found'.
  lemma CleanupIsInvisible(w: World, batch: seq<string>, failing: set<string>, stuck: set<string>, slug: string, isHttp: string -> bool)
    requires Inv(w) && IsBatch(batch, w.links, w.now)
    ensures var w' := Pass(w, batch, failing, stuck);
            && Inv(w')
            && (slug in w'.links ==> slug in w.links && w'.links[slug] == w.links[slug])
            && (slug in w.links && slug !in w'.links ==> w.links[slug].expiresAt.Some? && w.links[slug].expiresAt.value < w.now)
            && (slug in w.links && (slug !in batch || slug in failing) ==> slug in w'.links)
            && (if slug in w.links && slug !in w'.links
                then Answer(w, slug, isHttp) == Expired && Answer(w', slug, isHttp) == NotFound
                else Answer(w', slug, isHttp) == Answer(w, slug, isHttp))
  {
    var w' := Pass(w, batch, failing, stuck);
    forall s | s in w'.cache && Live(w'.cache[s], w'.now) ensures Mirrors(w', s) {
      assert Mirrors(w, s);
    }
    if CacheGet(w, slug).Some? {
      assert Mirrors(w, slug);
    }
  }

  // ---------- how many passes clear the table ----------

  function Max0(n: int): nat { if n < 0 then 0 else n }

  lemma {:induction false} DistinctCount(batch: seq<string>)
    requires forall i, j :: 0 <= i < j < |batch| ==> batch[i] != batch[j]
    ensures |set slug | slug in batch| == |batch|
  {
    if batch != [] {
      var init, last := batch[..|batch| - 1], batch[|batch| - 1];
      DistinctCount(init);
      assert (set slug | slug in batch) == (set slug | slug in init) + {last};
    }
  }

  lemma PassClearsOneBatch(w: World, batch: seq<string>, stuck: set<string>)
    requires IsBatch(batch, w.links, w.now)
    ensures |ExpiredSlugs(Pass(w, batch, {}, stuck).links, w.now)| == Max0(|ExpiredSlugs(w.links, w.now)| - 1000)
  {
    var expired, removed := ExpiredSlugs(w.links, w.now), Removed(batch, {});
    DistinctCount(batch);
    assert removed == set slug | slug in batch;
    assert removed <= expired;
    assert ExpiredSlugs(Pass(w, batch, {}, stuck).links, w.now) == expired - removed;
    assert |expired - removed| == |expired| - |removed|;
  }

  // Successive passes in which every row is deleted, each over a batch of what its predecessors left.
  ghost predicate ArePasses(w: World, batches: seq<seq<string>>, stuck: set<string>)
    decreases |batches|
  {
    batches != [] ==> IsBatch(batches[0], w.links, w.now) && ArePasses(Pass(w, batches[0], {}, stuck), batches[1..], stuck)
  }

  function AfterPasses(w: World, batches: seq<seq<string>>, stuck: set<string>): World
    decreases |batches|
  {
    if batches == [] then w else AfterPasses(Pass(w, batches[0], {}, stuck), batches[1..], stuck)
  }

  lemma {:induction false} PassesLeave(w: World, batches: seq<seq<string>>, stuck: set<string>)
    requires ArePasses(w, batches, stuck)
    ensures |ExpiredSlugs(AfterPasses(w, batches, stuck).links, w.now)| == Max0(|ExpiredSlugs(w.links, w.now)| - 1000 * |batches|)
    decreases |batches|
  {
    if batches != [] {
      PassClearsOneBatch(w, batches[0], stuck);
      PassesLeave(Pass(w, batches[0], {}, stuck), batches[1..], stuck);
    }
  }

  // Main result 2. n passes without failing deletes clear 1000 n of E expired rows: all of them
  // exactly when n is at least E / 1000 rounded up, whichever rows each query picks.
  lemma PassesClearTheTable(w: World, batches: seq<seq<string>>, stuck: set<string>, expired: set<string>, links: map<string, Link>)
    requires ArePasses(w, batches, stuck) && links == AfterPasses(w, batches, stuck).links
    requires expired == set slug | slug in w.links && w.links[slug].expiresAt.Some? && w.links[slug].expiresAt.value < w.now
    ensures |set slug | slug in links && links[slug].expiresAt.Some? && links[slug].expiresAt.value < w.now|
            == Max0(|expired| - 1000 * |batches|)
    ensures (forall slug :: slug in links && links[slug].expiresAt.Some? ==> links[slug].expiresAt.value >= w.now) <==>
            |batches| >= (|expired| + 999) / 1000
  {
    PassesLeave(w, batches, stuck);
    var left := ExpiredSlugs(links, w.now);
    assert expired == ExpiredSlugs(w.links, w.now);
    assert left == set slug | slug in links && links[slug].expiresAt.Some? && links[slug].expiresAt.value < w.now;
    assert left == {} <==> |left| == 0;
    forall slug | slug in links && links[slug].expiresAt.Some?
      ensures slug in left <==> links[slug].expiresAt.value < w.now
    {
    }
    if left != {} {
      var slug :| slug in left;
      assert slug in links && links[slug].expiresAt.value < w.now;
    }
  }

  // ---------- a pass as the cache sees it ----------

  function CleanupEvents(batch: seq<string>): seq<Event> {
    seq(|batch|, i requires 0 <= i < |batch| => Event.Cleanup(batch[i]))
  }

  // A pass in which nothing fails does what as many Cleanup events do to both stores.
  lemma {:induction false} PassIsEvents(w: World, batch: seq<string>, isHttp: string -> bool)
    requires forall slug :: slug in batch ==> slug in ExpiredSlugs(w.links, w.now)
    requires forall i, j :: 0 <= i < j < |batch| ==> batch[i] != batch[j]
    ensures RunAll(w, CleanupEvents(batch), isHttp) == Pass(w, batch, {}, {})
  {
    if batch == [] {
      PassOverNothing(w, {}, {});
    } else {
      var init, last := batch[..|batch| - 1], batch[|batch| - 1];
      PassIsEvents(w, init, isHttp);
      assert CleanupEvents(batch)[..|batch| - 1] == CleanupEvents(init);
      assert batch == init + [last] && last !in init;
      assert last in ExpiredSlugs(w.links, w.now);
      PassOneMore(w, init, last, {}, {});
      OneEvent(Pass(w, init, {}, {}), last, isHttp);
    }
  }

  // A Cleanup event removes the row and its entry if the row is past its expiry, else nothing.
  lemma OneEvent(w: World, slug: string, isHttp: string -> bool)
    ensures Exec(w, Event.Cleanup(slug), isHttp) ==
            if slug in w.links && w.links[slug].expiresAt.Some? && w.links[slug].expiresAt.value < w.now
            then Pass(w, [slug], {}, {}) else w
  {
    assert Removed([slug], {}) == {slug};
  }
}
