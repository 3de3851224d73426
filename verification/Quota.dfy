// The monthly quota of one user as a check-then-act protocol: createForUser and create count
// the month's rows, compare with the limit, and insert in a later step (usage.service.ts,
// links.service.ts, api-keys.service.ts).
module Quota {
  import Calendar

  // getMonthBounds as a function of the clock
  type Bounds = nat -> (int, int)

  // limit: the user's resolved limit. atOnce: how many creations may be in flight.
  datatype Policy = Policy(limit: nat, atOnce: nat, month: Bounds)

  // rows: the creation instants of the user's rows. created: those of every row ever
  // inserted, removed or not. checked: the creations past their check, not yet inserted.
  datatype State = State(rows: seq<nat>, created: seq<nat>, checked: set<nat>, now: nat)

  datatype Event =
    | Check(call: nat)    // count >= limit refuses, otherwise the creation goes on
    | Insert(call: nat)   // the row is stamped with the clock
    | Abandon(call: nat)  // a creation that throws after its check
    | Remove(row: nat)    // a link deleted; a key row is never removed, revocation keeps it
    | Tick(ms: nat)

  predicate Within(created: nat, month: (int, int)) {
    month.0 <= created < month.1
  }

  // countLinksThisMonth / countKeysThisMonth
  function Count(rows: seq<nat>, month: (int, int)): nat {
    if rows == [] then 0
    else Count(rows[..|rows| - 1], month) + if Within(rows[|rows| - 1], month) then 1 else 0
  }

  function Exec(p: Policy, s: State, e: Event): State {
    match e
    case Check(c) =>
      if Count(s.rows, p.month(s.now)) >= p.limit || c in s.checked || |s.checked| >= p.atOnce then s
      else s.(checked := s.checked + {c})
    case Insert(c) =>
      if c !in s.checked then s
      else State(s.rows + [s.now], s.created + [s.now], s.checked - {c}, s.now)
    case Abandon(c) => s.(checked := s.checked - {c})
    case Remove(i) => if i >= |s.rows| then s else s.(rows := s.rows[..i] + s.rows[i + 1..])
    case Tick(ms) => s.(now := s.now + ms)
  }

  function RunAll(p: Policy, s: State, run: seq<Event>): State {
    if run == [] then s else Exec(p, RunAll(p, s, run[..|run| - 1]), run[|run| - 1])
  }

  // What the bounds must be for the protocol: every instant has its own month, and months
  // do not overlap.
  ghost predicate Tiles(month: Bounds) {
    forall t: nat, u: nat ::
      && Within(t, month(t))
      && (Within(u, month(t)) ==> month(u) == month(t))
      && (u >= month(t).1 ==> month(u).0 >= month(t).1)
  }

  function UtcMonths(): Bounds {
    (t: nat) => (Calendar.MonthStart(t), Calendar.NextMonthStart(t))
  }

  lemma UtcMonthsTile()
    ensures Tiles(UtcMonths())
  {
    forall t: nat, u: nat
      ensures var month := UtcMonths();
              && Within(t, month(t))
              && (Within(u, month(t)) ==> month(u) == month(t))
              && (u >= month(t).1 ==> month(u).0 >= month(t).1)
    {
      Calendar.MonthsTile(t, u);
    }
  }

  // ---------- the overshoot bound ----------

  // The most rows one month can come to hold.
  function Ceiling(p: Policy): nat
    requires p.atOnce >= 1
  {
    if p.limit == 0 then 0 else p.limit + p.atOnce - 1
  }

  ghost predicate Inv(p: Policy, s: State)
    requires p.atOnce >= 1
  {
    && (forall i :: 0 <= i < |s.rows| ==> s.rows[i] <= s.now)
    && |s.checked| <= p.atOnce
    && (p.limit == 0 ==> s.checked == {})
    && (forall t: nat :: Count(s.rows, p.month(t)) <= Ceiling(p))
    && Count(s.rows, p.month(s.now)) + |s.checked| <= Ceiling(p)
  }

  lemma {:induction false} CountRemoved(rows: seq<nat>, i: nat, month: (int, int))
    requires i < |rows|
    ensures Count(rows[..i] + rows[i + 1..], month) <= Count(rows, month)
  {
    var last := |rows| - 1;
    if i < last {
      var init := rows[..last];
      assert rows[..i] + rows[i + 1..] == (init[..i] + init[i + 1..]) + [rows[last]];
      assert (rows[..i] + rows[i + 1..])[..last - 1] == init[..i] + init[i + 1..];
      CountRemoved(init, i, month);
    } else {
      assert rows[..i] + rows[i + 1..] == rows[..last];
    }
  }

  lemma {:induction false} NothingYet(rows: seq<nat>, before: nat, month: (int, int))
    requires forall i :: 0 <= i < |rows| ==> rows[i] <= before
    requires before < month.0
    ensures Count(rows, month) == 0
  {
    if rows != [] {
      NothingYet(rows[..|rows| - 1], before, month);
    }
  }

  lemma InsertKeepsInv(p: Policy, s: State, c: nat)
    requires p.atOnce >= 1 && Tiles(p.month) && Inv(p, s) && c in s.checked
    ensures Inv(p, Exec(p, s, Insert(c)))
  {
    var s' := Exec(p, s, Insert(c));
    assert s'.rows[..|s'.rows| - 1] == s.rows;
    forall t: nat ensures Count(s'.rows, p.month(t)) <= Ceiling(p) {
      assert Within(s.now, p.month(t)) ==> p.month(s.now) == p.month(t);
    }
  }

  // A new month starts with no rows, and at most atOnce creations checked in the old one.
  lemma TickKeepsInv(p: Policy, s: State, ms: nat)
    requires p.atOnce >= 1 && Tiles(p.month) && Inv(p, s)
    ensures Inv(p, Exec(p, s, Tick(ms)))
  {
    var later := s.now + ms;
    assert Within(s.now, p.month(s.now));
    if !Within(later, p.month(s.now)) {
      assert p.month(later).0 >= p.month(s.now).1;
      NothingYet(s.rows, s.now, p.month(later));
    }
  }

  lemma StepKeepsInv(p: Policy, s: State, e: Event)
    requires p.atOnce >= 1 && Tiles(p.month) && Inv(p, s)
    ensures Inv(p, Exec(p, s, e))
  {
    match e
    case Check(c) =>
    case Insert(c) => if c in s.checked { InsertKeepsInv(p, s, c); }
    case Abandon(c) => assert s.checked - {c} <= s.checked; SubsetSize(s.checked - {c}, s.checked);
    case Remove(i) =>
      if i < |s.rows| {
        forall t: nat ensures Count(Exec(p, s, e).rows, p.month(t)) <= Count(s.rows, p.month(t)) {
          CountRemoved(s.rows, i, p.month(t));
        }
      }
    case Tick(ms) => TickKeepsInv(p, s, ms);
  }

  lemma SubsetSize(a: set<nat>, b: set<nat>)
    requires a <= b
    ensures |a| <= |b|
  {
    assert b == a + (b - a);
  }

  // No creation in flight, and no month over the limit.
  ghost predicate Initial(p: Policy, s: State) {
    && s.checked == {} && s.created == s.rows
    && (forall i :: 0 <= i < |s.rows| ==> s.rows[i] <= s.now)
    && forall t: nat :: Count(s.rows, p.month(t)) <= p.limit
  }

  lemma {:induction false} RunKeepsInv(p: Policy, s: State, run: seq<Event>)
    requires Tiles(p.month) && Initial(p, s) && p.atOnce >= 1
    ensures Inv(p, RunAll(p, s, run))
  {
    if run == [] {
      assert Count(s.rows, p.month(s.now)) <= p.limit;
    } else {
      RunKeepsInv(p, s, run[..|run| - 1]);
      StepKeepsInv(p, RunAll(p, s, run[..|run| - 1]), run[|run| - 1]);
    }
  }

  // Main result: however checks, inserts and month ends interleave, no month ever holds more
  // than limit + atOnce - 1 of the user's surviving rows, and none at all under a limit of 0;
  // one creation at a time keeps the limit itself.
  lemma OvershootIsBounded(p: Policy, s: State, run: seq<Event>, t: nat)
    requires p.month == UtcMonths() && Initial(p, s) && p.atOnce >= 1
    ensures Count(RunAll(p, s, run).rows, p.month(t)) <= Ceiling(p)
    ensures p.atOnce == 1 ==> Count(RunAll(p, s, run).rows, p.month(t)) <= p.limit
  {
    UtcMonthsTile();
    RunKeepsInv(p, s, run);
  }

  // For keys, whose rows stay, the bound is on all creations.
  lemma KeyCreationsAreBounded(p: Policy, s: State, run: seq<Event>, t: nat)
    requires p.month == UtcMonths() && Initial(p, s) && p.atOnce >= 1
    requires forall i :: 0 <= i < |run| ==> !run[i].Remove?
    ensures Count(RunAll(p, s, run).created, p.month(t)) <= Ceiling(p)
  {
    NothingRemoved(p, s, run);
    OvershootIsBounded(p, s, run, t);
  }

  lemma {:induction false} NothingRemoved(p: Policy, s: State, run: seq<Event>)
    requires s.created == s.rows && forall i :: 0 <= i < |run| ==> !run[i].Remove?
    ensures RunAll(p, s, run).created == RunAll(p, s, run).rows
  {
    if run != [] {
      NothingRemoved(p, s, run[..|run| - 1]);
    }
  }

  // A creation that throws after its check gives its place back.
  lemma AbandonedChecksLeaveNothing(p: Policy, s: State, c: nat)
    requires c !in s.checked
    ensures Exec(p, Exec(p, s, Check(c)), Abandon(c)) == s
  {
    assert (s.checked + {c}) - {c} == s.checked && s.checked - {c} == s.checked;
  }

  // The quota starts anew with the next month: however many rows the old one holds, a creation
  // passes its check at the first instant of the new one.
  lemma QuotaStartsAnew(p: Policy, s: State, c: nat)
    requires p.month == UtcMonths() && p.limit >= 1 && |s.checked| < p.atOnce
    requires forall i :: 0 <= i < |s.rows| ==> s.rows[i] <= s.now
    ensures p.month(s.now).1 > s.now
    ensures var next := Exec(p, s, Tick(p.month(s.now).1 - s.now));
            next.now == p.month(s.now).1 && c in Exec(p, next, Check(c)).checked
  {
    var next := p.month(s.now).1;
    Calendar.MonthsTile(s.now, s.now);
    Calendar.MonthsTile(next, next);
    NothingYet(s.rows, s.now, p.month(next));
  }

  // ---------- the bound is reached, and for links it is not a bound on creations ----------

  ghost predicate Reaches(p: Policy, s: State, s': State) {
    exists run :: RunAll(p, s, run) == s'
  }

  lemma ReachesItself(p: Policy, s: State)
    ensures Reaches(p, s, s)
  {
    assert RunAll(p, s, []) == s;
  }

  lemma ReachesOneMore(p: Policy, s: State, s': State, e: Event)
    requires Reaches(p, s, s')
    ensures Reaches(p, s, Exec(p, s', e))
  {
    var run :| RunAll(p, s, run) == s';
    assert (run + [e])[..|run|] == run;
    assert RunAll(p, s, run + [e]) == Exec(p, s', e);
  }

  function Calls(n: nat): (r: set<nat>)
    ensures |r| == n && forall i :: i in r <==> 0 <= i < n
  {
    if n == 0 then {} else Calls(n - 1) + {n - 1}
  }

  function Zeros(n: nat): seq<nat> {
    seq(n, _ => 0)
  }

  lemma OneMoreZero(n: nat)
    ensures Zeros(n) + [0] == Zeros(n + 1)
  {
  }

  // At instant 0, with so many surviving rows and so many creations, all stamped 0.
  function At(rows: nat, created: nat, checked: set<nat>): State {
    State(Zeros(rows), Zeros(created), checked, 0)
  }

  lemma {:induction false} CountZeros(month: Bounds, n: nat)
    requires Within(0, month(0))
    ensures Count(Zeros(n), month(0)) == n
  {
    if n > 0 {
      assert Zeros(n)[..n - 1] == Zeros(n - 1);
      CountZeros(month, n - 1);
    }
  }

  // One creation checked and inserted.
  lemma CreateOne(p: Policy, s: State, rows: nat, created: nat)
    requires Within(0, p.month(0)) && rows < p.limit && p.atOnce >= 1
    requires Reaches(p, s, At(rows, created, {}))
    ensures Reaches(p, s, At(rows + 1, created + 1, {}))
  {
    CountZeros(p.month, rows);
    ReachesOneMore(p, s, At(rows, created, {}), Check(0));
    ReachesOneMore(p, s, At(rows, created, {0}), Insert(0));
    OneMoreZero(rows);
    OneMoreZero(created);
    assert {0} - {0} == {};
  }

  lemma {:induction false} CreateInTurn(p: Policy, n: nat)
    requires Within(0, p.month(0)) && n <= p.limit && p.atOnce >= 1
    ensures Reaches(p, At(0, 0, {}), At(n, n, {}))
  {
    if n == 0 {
      ReachesItself(p, At(0, 0, {}));
    } else {
      CreateInTurn(p, n - 1);
      CreateOne(p, At(0, 0, {}), n - 1, n - 1);
    }
  }

  lemma {:induction false} CheckAll(p: Policy, n: nat, k: nat)
    requires Within(0, p.month(0)) && n < p.limit && k <= p.atOnce
    requires Reaches(p, At(0, 0, {}), At(n, n, {}))
    ensures Reaches(p, At(0, 0, {}), At(n, n, Calls(k)))
  {
    if k > 0 {
      CheckAll(p, n, k - 1);
      CountZeros(p.month, n);
      ReachesOneMore(p, At(0, 0, {}), At(n, n, Calls(k - 1)), Check(k - 1));
    }
  }

  lemma InsertOne(p: Policy, n: nat, k: nat)
    ensures Exec(p, At(n, n, Calls(k + 1)), Insert(k)) == At(n + 1, n + 1, Calls(k))
  {
    OneMoreZero(n);
    assert k in Calls(k + 1);
    assert Calls(k + 1) - {k} == Calls(k);
  }

  lemma {:induction false} InsertAll(p: Policy, n: nat, k: nat, end: nat)
    requires end == n + k
    requires Reaches(p, At(0, 0, {}), At(n, n, Calls(k)))
    ensures Reaches(p, At(0, 0, {}), At(end, end, {}))
    decreases k
  {
    if k > 0 {
      ReachesOneMore(p, At(0, 0, {}), At(n, n, Calls(k)), Insert(k - 1));
      InsertOne(p, n, k - 1);
      InsertAll(p, n + 1, k - 1, end);
    }
  }

  lemma {:induction false} CreateAndRemove(p: Policy, n: nat)
    requires Within(0, p.month(0)) && p.limit >= 1 && p.atOnce >= 1
    ensures Reaches(p, At(0, 0, {}), At(0, n, {}))
  {
    if n == 0 {
      ReachesItself(p, At(0, 0, {}));
    } else {
      CreateAndRemove(p, n - 1);
      CreateOne(p, At(0, 0, {}), 0, n - 1);
      ReachesOneMore(p, At(0, 0, {}), At(1, n, {}), Remove(0));
    }
  }

  // The bound is exact: for every limit and every degree of concurrency, and every tiling
  // calendar, some run ends with that many rows in one month.
  lemma OvershootIsReached(p: Policy) returns (s: State, end: State)
    requires Tiles(p.month) && p.atOnce >= 1
    ensures Initial(p, s) && Reaches(p, s, end)
    ensures Count(end.rows, p.month(end.now)) == Ceiling(p)
  {
    assert Within(0, p.month(0));
    s, end := At(0, 0, {}), At(Ceiling(p), Ceiling(p), {});
    if p.limit == 0 {
      ReachesItself(p, s);
    } else {
      var n := p.limit - 1;
      CreateInTurn(p, n);
      CheckAll(p, n, p.atOnce);
      InsertAll(p, n, p.atOnce, Ceiling(p));
    }
    CountZeros(p.month, Ceiling(p));
  }

  // Deleting a link frees its place: no number of link creations in one month is out of
  // reach, even one at a time.
  lemma LinkCreationsAreUnbounded(p: Policy, n: nat) returns (s: State, end: State)
    requires Tiles(p.month) && p.limit >= 1 && p.atOnce >= 1
    ensures Initial(p, s) && Reaches(p, s, end)
    ensures Count(end.created, p.month(end.now)) == n
  {
    assert Within(0, p.month(0));
    s, end := At(0, 0, {}), At(0, n, {});
    CreateAndRemove(p, n);
    CountZeros(p.month, n);
  }
}
