// Validations of API keys that run beside creations and revocations: the row is read in one
// step, the hash compared in a later one (api-keys.service.ts).
module KeyValidation {
  import opened Wrappers
  import ApiKeys

  datatype Validation =
    | Begun(plaintext: string)
    | Found(plaintext: string, row: ApiKeys.ApiKey)
    | Answered(plaintext: string, user: Option<nat>)

  datatype State = State(rows: ApiKeys.Rows, calls: map<nat, Validation>)

  // pick: the row findOne happens to return; None only if no row matches.
  datatype Action =
    | Change(event: ApiKeys.Event)
    | Begin(c: nat, plaintext: string)
    | Find(c: nat, pick: Option<nat>)
    | Compare(c: nat)

  ghost predicate MayPick(rows: ApiKeys.Rows, pick: Option<nat>, plaintext: string) {
    if pick.Some? then ApiKeys.Candidate(rows, pick.value, plaintext)
    else forall id :: !ApiKeys.Candidate(rows, id, plaintext)
  }

  ghost function Exec(s: State, a: Action): State {
    match a
    case Change(e) => s.(rows := ApiKeys.Exec(s.rows, e))
    case Begin(c, plaintext) => if c in s.calls then s else s.(calls := s.calls[c := Begun(plaintext)])
    case Find(c, pick) =>
      if c !in s.calls || !s.calls[c].Begun? || !MayPick(s.rows, pick, s.calls[c].plaintext) then s
      else
        var p := s.calls[c].plaintext;
        s.(calls := s.calls[c := if pick.Some? then Found(p, s.rows[pick.value]) else Answered(p, None)])
    case Compare(c) =>
      if c !in s.calls || !s.calls[c].Found? then s
      else
        var k := s.calls[c];
        s.(calls := s.calls[c := Answered(k.plaintext, if k.row.keyHash == k.plaintext then Some(k.row.userId) else None)])
  }

  ghost function RunAll(run: seq<Action>): State {
    if run == [] then State(map[], map[]) else Exec(RunAll(run[..|run| - 1]), run[|run| - 1])
  }

  // The creations and revocations of a run.
  function Changes(run: seq<Action>): seq<ApiKeys.Event> {
    if run == [] then []
    else Changes(run[..|run| - 1]) + if run[|run| - 1].Change? then [run[|run| - 1].event] else []
  }

  lemma {:induction false} RowsFollowChanges(run: seq<Action>)
    ensures RunAll(run).rows == ApiKeys.RunAll(Changes(run))
  {
    if run != [] {
      RowsFollowChanges(run[..|run| - 1]);
      var before, a := Changes(run[..|run| - 1]), run[|run| - 1];
      if a.Change? {
        assert Changes(run)[..|before|] == before;
      } else {
        assert Changes(run) == before;
      }
    }
  }

  lemma {:induction false} ChangesSplit(a: seq<Action>, b: seq<Action>)
    ensures Changes(a + b) == Changes(a) + Changes(b)
  {
    if b == [] {
      assert a + b == a;
    } else {
      assert (a + b)[..|a + b| - 1] == a + b[..|b| - 1];
      ChangesSplit(a, b[..|b| - 1]);
    }
  }

  lemma ChangesAround(a: seq<Action>, e: ApiKeys.Event, b: seq<Action>)
    ensures Changes(a + [Change(e)] + b) == Changes(a) + [e] + Changes(b)
  {
    ChangesSplit(a + [Change(e)], b);
    assert (a + [Change(e)])[..|a|] == a;
  }

  lemma FreshPrefix(a: seq<Action>, b: seq<Action>)
    requires ApiKeys.Fresh(Changes(a + b))
    ensures ApiKeys.Fresh(Changes(a))
  {
    ChangesSplit(a, b);
    FreshPart(Changes(a), Changes(b));
  }

  lemma FreshPart(a: seq<ApiKeys.Event>, b: seq<ApiKeys.Event>)
    requires ApiKeys.Fresh(a + b)
    ensures ApiKeys.Fresh(a)
  {
    var whole := a + b;
    forall i, j | 0 <= i < j < |a| && a[i].Create? && a[j].Create? ensures a[i].id != a[j].id && a[i].random != a[j].random {
      assert whole[i] == a[i] && whole[j] == a[j];
    }
  }

  // At some moment from the first n actions of the run on, the plaintext was user u's key,
  // created and not revoked.
  ghost predicate WasAlive(run: seq<Action>, n: nat, u: nat, plaintext: string) {
    exists m, id :: n <= m <= |run| && AliveAt(run, m, u, id, plaintext)
  }

  ghost predicate AliveAt(run: seq<Action>, m: nat, u: nat, id: nat, plaintext: string)
    requires m <= |run|
  {
    ApiKeys.Alive(Changes(run[..m]), u, id, plaintext)
  }

  lemma WasAliveStill(run: seq<Action>, n: nat, u: nat, plaintext: string)
    requires run != [] && WasAlive(run[..|run| - 1], n, u, plaintext)
    ensures WasAlive(run, n, u, plaintext)
  {
    var before := run[..|run| - 1];
    var m, id :| n <= m <= |before| && AliveAt(before, m, u, id, plaintext);
    assert before[..m] == run[..m];
    assert AliveAt(run, m, u, id, plaintext);
  }

  // Run together, the two steps answer what validate would at that instant.
  lemma FindThenCompare(s: State, c: nat, pick: Option<nat>, plaintext: string)
    requires c in s.calls && s.calls[c] == Begun(plaintext) && MayPick(s.rows, pick, plaintext)
    ensures Exec(Exec(s, Find(c, pick)), Compare(c)) ==
            s.(calls := s.calls[c := Answered(plaintext, ApiKeys.Validate(s.rows, pick, plaintext))])
  {
  }

  // What a validation that began after the first n actions has read was a key since then.
  ghost predicate SpeaksTrue(run: seq<Action>, n: nat, v: Validation) {
    match v
    case Begun(_) => true
    case Found(_, row) => WasAlive(run, n, row.userId, row.keyHash)
    case Answered(plaintext, user) => user.Some? ==> WasAlive(run, n, user.value, plaintext)
  }

  lemma {:induction false} ValidationsSpeakTrue(run: seq<Action>, n: nat, c: nat)
    requires ApiKeys.Fresh(Changes(run)) && n <= |run| && c !in RunAll(run[..n]).calls
    ensures c in RunAll(run).calls ==> SpeaksTrue(run, n, RunAll(run).calls[c])
  {
    if n == |run| {
      assert run[..n] == run;
    } else {
      var before, a := run[..|run| - 1], run[|run| - 1];
      assert before[..n] == run[..n];
      assert run == before + [a];
      FreshPrefix(before, [a]);
      ValidationsSpeakTrue(before, n, c);
      var s := RunAll(before);
      if c in s.calls {
        StepSpeaksTrue(run, n, s, a, c);
      }
    }
  }

  lemma StepSpeaksTrue(run: seq<Action>, n: nat, s: State, a: Action, c: nat)
    requires run != [] && n < |run| && s == RunAll(run[..|run| - 1]) && a == run[|run| - 1]
    requires ApiKeys.Fresh(Changes(run[..|run| - 1]))
    requires c in s.calls && SpeaksTrue(run[..|run| - 1], n, s.calls[c])
    ensures c in Exec(s, a).calls && SpeaksTrue(run, n, Exec(s, a).calls[c])
  {
    var v := s.calls[c];
    match v
    case Found(_, row) => WasAliveStill(run, n, row.userId, row.keyHash);
    case Answered(plaintext, user) => if user.Some? { WasAliveStill(run, n, user.value, plaintext); }
    case Begun(plaintext) =>
      if a.Find? && a.c == c && a.pick.Some? && ApiKeys.Candidate(s.rows, a.pick.value, plaintext) {
        var row := s.rows[a.pick.value];
        PickedIsAlive(run[..|run| - 1], a.pick.value, row);
        assert AliveAt(run, |run| - 1, row.userId, a.pick.value, row.keyHash);
      }
  }

  lemma PickedIsAlive(run: seq<Action>, id: nat, row: ApiKeys.ApiKey)
    requires ApiKeys.Fresh(Changes(run)) && id in RunAll(run).rows && row == RunAll(run).rows[id] && !row.revoked
    ensures ApiKeys.Alive(Changes(run), row.userId, id, row.keyHash)
  {
    RowsFollowChanges(run);
    ApiKeys.RowsAreAliveKeys(Changes(run), row.userId, id, row.keyHash);
  }

  // Main result 1. However validations, creations and revocations interleave, a validation
  // that answers u has been given a key of u that was alive at some moment while it ran.
  lemma AnswersWereTrue(run: seq<Action>, n: nat, c: nat, plaintext: string, u: nat)
    requires ApiKeys.Fresh(Changes(run)) && n <= |run| && c !in RunAll(run[..n]).calls
    requires c in RunAll(run).calls && RunAll(run).calls[c] == Answered(plaintext, Some(u))
    ensures exists m, id :: n <= m <= |run| && AliveAt(run, m, u, id, plaintext)
  {
    ValidationsSpeakTrue(run, n, c);
  }

  lemma DeadAfterRevocation(run1: seq<Action>, rest: seq<Action>, u: nat, id: nat, plaintext: string, v: nat, id': nat)
    requires ApiKeys.Fresh(Changes(run1 + [Change(ApiKeys.Revoke(u, id))] + rest))
    requires ApiKeys.Alive(Changes(run1), u, id, plaintext)
    ensures !ApiKeys.Alive(Changes(run1 + [Change(ApiKeys.Revoke(u, id))] + rest), v, id', plaintext)
  {
    ChangesAround(run1, ApiKeys.Revoke(u, id), rest);
    ApiKeys.RevocationEndsAllUses(Changes(run1), Changes(rest), u, id, plaintext, v, id');
  }

  // Main result 2. No validation begun after a revocation answers for the revoked key,
  // whatever else runs.
  lemma RevocationStopsValidations(run1: seq<Action>, run2: seq<Action>, run: seq<Action>, u: nat, id: nat, plaintext: string, c: nat)
    requires run == run1 + [Change(ApiKeys.Revoke(u, id))] + run2 && ApiKeys.Fresh(Changes(run))
    requires ApiKeys.Alive(Changes(run1), u, id, plaintext)
    requires c !in RunAll(run[..|run1| + 1]).calls && c in RunAll(run).calls && RunAll(run).calls[c].plaintext == plaintext
    ensures RunAll(run).calls[c].Answered? ==> RunAll(run).calls[c].user == None
  {
    var k := RunAll(run).calls[c];
    if k.Answered? && k.user.Some? {
      AnswersWereTrue(run, |run1| + 1, c, plaintext, k.user.value);
      var m, id' :| |run1| + 1 <= m <= |run| && AliveAt(run, m, k.user.value, id', plaintext);
      var rest := run[|run1| + 1..m];
      assert run[..m] == run1 + [Change(ApiKeys.Revoke(u, id))] + rest;
      assert run == run[..m] + run[m..];
      FreshPrefix(run[..m], run[m..]);
      DeadAfterRevocation(run1, rest, u, id, plaintext, k.user.value, id');
    }
  }

  // One begun before may still answer.
  lemma OverlappingValidationMayAnswer(u: nat, random: string) returns (run: seq<Action>)
    ensures |run| == 5 && run[3..] == [Change(ApiKeys.Revoke(u, 0)), Compare(0)]
    ensures ApiKeys.Fresh(Changes(run)) && 0 in RunAll(run).calls
    ensures RunAll(run).calls[0] == Answered(ApiKeys.Plaintext(random), Some(u))
  {
    var p, key := ApiKeys.Plaintext(random), ApiKeys.ApiKey(u, ApiKeys.Plaintext(random), ApiKeys.Prefix(random), false);
    var run1 := [Change(ApiKeys.Create(0, u, random))];
    var run2, run3 := run1 + [Begin(0, p)], run1 + [Begin(0, p)] + [Find(0, Some(0))];
    var run4 := run3 + [Change(ApiKeys.Revoke(u, 0))];
    run := run4 + [Compare(0)];
    ApiKeys.ParsePrefixUndoesGenerate(random);
    assert run1[..0] == [] && run2[..1] == run1 && run3[..2] == run2 && run4[..3] == run3 && run[..4] == run4;
    assert RunAll(run1) == State(map[0 := key], map[]);
    assert RunAll(run2) == State(map[0 := key], map[0 := Begun(p)]);
    assert MayPick(RunAll(run2).rows, Some(0), p);
    assert RunAll(run3) == State(map[0 := key], map[0 := Found(p, key)]);
    assert RunAll(run4).calls == map[0 := Found(p, key)];
    assert Changes(run1) == [ApiKeys.Create(0, u, random)];
    assert Changes(run4) == [ApiKeys.Create(0, u, random), ApiKeys.Revoke(u, 0)] by {
      assert Changes(run2) == Changes(run1) && Changes(run3) == Changes(run2);
    }
    assert Changes(run) == Changes(run4);
  }
}
