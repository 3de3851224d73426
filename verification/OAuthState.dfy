// Single-use OAuth state tokens over GETDEL (github.strategy.ts, redis.service.ts).
module OAuthState {
  import opened Wrappers
  import opened Redis

  const OAUTH_STATE_TTL_SECONDS: nat := 600

  // keys: the stored tokens. minted: every token store() has drawn, stored or not. calls:
  // verify calls that have not reached the store yet.
  datatype State = State(keys: map<string, Entry>, now: int, minted: set<string>, calls: map<nat, string>)

  datatype Action =
    | Mint(token: string, access: Access)      // randomBytes, then SET ... EX 600
    | Present(call: nat, token: string)     // a callback arrives with any token at all
    | GetDel(call: nat, access: Access)     // its verify reads and deletes the key
    | Tick(ms: nat)

  function Exec(s: State, a: Action): State {
    match a
    case Mint(token, access) =>
      if token in s.minted then s  // 256 random bits do not repeat
      else if access.FailsUnapplied? then s.(minted := s.minted + {token})
      else s.(minted := s.minted + {token}, keys := s.keys[token := WithOptionalTtl("1", Some(OAUTH_STATE_TTL_SECONDS), s.now)])
    case Present(call, token) => if call in s.calls then s else s.(calls := s.calls[call := token])
    case GetDel(call, access) =>
      if call !in s.calls then s
      else s.(keys := if access.FailsUnapplied? then s.keys else s.keys - {s.calls[call]}, calls := s.calls - {call})
    case Tick(ms) => s.(now := s.now + ms)
  }

  function RunAll(s: State, run: seq<Action>): State {
    if run == [] then s else Exec(RunAll(s, run[..|run| - 1]), run[|run| - 1])
  }

  // A token and an instant.
  datatype Mark = Mark(token: string, at: int)

  // verify calls back with true: the key was read, present and alive.
  predicate Succeeds(s: State, a: Action) {
    a.GetDel? && a.call in s.calls && a.access.Works? && Lookup(s.keys, s.calls[a.call], s.now).Some?
  }

  function Verified(s: State, run: seq<Action>): seq<Mark> {
    if run == [] then []
    else
      var before, a := RunAll(s, run[..|run| - 1]), run[|run| - 1];
      Verified(s, run[..|run| - 1]) + if Succeeds(before, a) then [Mark(before.calls[a.call], before.now)] else []
  }

  function Minted(s: State, run: seq<Action>): seq<Mark> {
    if run == [] then []
    else
      var before, a := RunAll(s, run[..|run| - 1]), run[|run| - 1];
      Minted(s, run[..|run| - 1]) + if a.Mint? && a.token !in before.minted then [Mark(a.token, before.now)] else []
  }

  // The mint a key with a deadline comes from.
  function MintOf(s: State, token: string): Mark
    requires token in s.keys && s.keys[token].deadline.Some?
  {
    Mark(token, s.keys[token].deadline.value - OAUTH_STATE_TTL_SECONDS * 1000)
  }

  // Stored keys come from mints, with their deadlines; a verified token is stored no more.
  ghost predicate Inv(s: State, minted: seq<Mark>, verified: seq<Mark>) {
    && s.keys.Keys <= s.minted
    && (forall m :: m in minted ==> m.token in s.minted)
    && (forall v :: v in verified ==> v.token in s.minted && v.token !in s.keys)
    && (forall token :: token in s.keys ==> s.keys[token].deadline.Some? && MintOf(s, token) in minted)
    && (forall m :: m in minted ==> m.at <= s.now)
  }

  ghost predicate SingleUse(minted: seq<Mark>, verified: seq<Mark>) {
    && (forall i, j :: 0 <= i < j < |verified| ==> verified[i].token != verified[j].token)
    && (forall v :: v in verified ==>
          exists m :: m in minted && m.token == v.token && m.at <= v.at < m.at + 600_000)
  }

  lemma SuccessIsSingleUse(s: State, a: Action, minted: seq<Mark>, verified: seq<Mark>)
    requires Inv(s, minted, verified) && SingleUse(minted, verified) && Succeeds(s, a)
    ensures Inv(Exec(s, a), minted, verified + [Mark(s.calls[a.call], s.now)])
    ensures SingleUse(minted, verified + [Mark(s.calls[a.call], s.now)])
  {
    assert MintOf(s, s.calls[a.call]) in minted;
  }

  lemma StepKeepsSingleUse(s: State, a: Action, minted: seq<Mark>, verified: seq<Mark>, minted': seq<Mark>, verified': seq<Mark>)
    requires Inv(s, minted, verified) && SingleUse(minted, verified)
    requires minted' == minted + if a.Mint? && a.token !in s.minted then [Mark(a.token, s.now)] else []
    requires verified' == verified + if Succeeds(s, a) then [Mark(s.calls[a.call], s.now)] else []
    ensures Inv(Exec(s, a), minted', verified') && SingleUse(minted', verified')
  {
    if Succeeds(s, a) {
      SuccessIsSingleUse(s, a, minted, verified);
    } else {
      forall v | v in verified' ensures exists m :: m in minted' && m.token == v.token && m.at <= v.at < m.at + 600_000 {
        var m :| m in minted && m.token == v.token && m.at <= v.at < m.at + 600_000;
        assert m in minted';
      }
    }
    if a.Mint? && a.token !in s.minted {
      assert Mark(a.token, s.now) in minted';
    }
  }

  // Main result 1: under every interleaving, with the store failing anywhere, each state token
  // verifies at most once, only if it was minted, and only within 600 s of that.
  lemma {:induction false} StateTokensAreSingleUse(s: State, run: seq<Action>)
    requires s.keys == map[] && s.minted == {}
    ensures SingleUse(Minted(s, run), Verified(s, run))
    ensures Inv(RunAll(s, run), Minted(s, run), Verified(s, run))
  {
    if run != [] {
      var before := run[..|run| - 1];
      StateTokensAreSingleUse(s, before);
      StepKeepsSingleUse(RunAll(s, before), run[|run| - 1], Minted(s, before), Verified(s, before), Minted(s, run), Verified(s, run));
    }
  }

  // ---------- exactly which tokens verify ----------

  // The token was minted and stored at this instant, and its key has not been read since.
  ghost predicate Unread(s: State, run: seq<Action>, token: string, at: int) {
    run != [] &&
    var before, a := RunAll(s, run[..|run| - 1]), run[|run| - 1];
    || (a.Mint? && a.token == token && token !in before.minted && !a.access.FailsUnapplied? && before.now == at)
    || (Unread(s, run[..|run| - 1], token, at)
        && !(a.GetDel? && a.call in before.calls && before.calls[a.call] == token && !a.access.FailsUnapplied?))
  }

  lemma {:induction false} KeysAreUnread(s: State, run: seq<Action>, token: string, at: int)
    requires s.keys == map[] && s.minted == {}
    ensures Unread(s, run, token, at) <==>
            token in RunAll(s, run).keys && RunAll(s, run).keys[token].deadline == Some(at + 600_000)
    ensures Unread(s, run, token, at) ==> token in RunAll(s, run).minted
  {
    if run != [] {
      KeysAreUnread(s, run[..|run| - 1], token, at);
      StateTokensAreSingleUse(s, run[..|run| - 1]);
      StepOnKey(RunAll(s, run[..|run| - 1]), run[|run| - 1], token, at);
    }
  }

  ghost predicate KeyOf(s: State, token: string, at: int) {
    token in s.keys && s.keys[token].deadline == Some(at + 600_000)
  }

  lemma StepOnKey(s: State, a: Action, token: string, at: int)
    requires s.keys.Keys <= s.minted
    ensures KeyOf(Exec(s, a), token, at) <==>
            || (a.Mint? && a.token == token && token !in s.minted && !a.access.FailsUnapplied? && s.now == at)
            || (KeyOf(s, token, at) && !(a.GetDel? && a.call in s.calls && s.calls[a.call] == token && !a.access.FailsUnapplied?))
  {
  }

  // Main result 2: after any run, a callback verifies if and only if the store answers it, the
  // token it presents was stored less than 600 s ago, and its key has not been read since.
  lemma VerifiesExactly(s: State, run: seq<Action>, call: nat, access: Access, end: State)
    requires s.keys == map[] && s.minted == {} && end == RunAll(s, run) && call in end.calls
    ensures Succeeds(end, GetDel(call, access)) <==>
            access.Works? && exists at :: Unread(s, run, end.calls[call], at) && end.now < at + 600_000
  {
    var token := end.calls[call];
    StateTokensAreSingleUse(s, run);
    if token in end.keys {
      KeysAreUnread(s, run, token, end.keys[token].deadline.value - 600_000);
    }
    forall at ensures Unread(s, run, token, at) <==> token in end.keys && end.keys[token].deadline == Some(at + 600_000) {
      KeysAreUnread(s, run, token, at);
    }
  }

  // ---------- the store itself, one call at a time ----------

  class GithubStateStore {
    const redis: RedisService

    constructor (redis: RedisService)
      ensures this.redis == redis
    {
      this.redis := redis;
    }

    // The state machine at this instant, with one verify call under way.
    ghost function Snapshot(minted: set<string>, presented: string): State
      reads this, redis
    {
      State(redis.entries, redis.now, minted, map[0 := presented])
    }

    // token: what randomBytes yields
    method Store(token: string, up: bool, ghost minted: set<string>) returns (r: Result<string, RedisError>)
      requires token !in minted
      modifies redis`entries
      ensures r == if up then Success(token) else Failure(Unreachable)
      ensures Snapshot(minted + {token}, "") == Exec(old(Snapshot(minted, "")), Mint(token, if up then Works else FailsUnapplied))
      ensures redis.entries == if up then old(redis.entries)[token := Entry("1", Some(redis.now + 600_000))] else old(redis.entries)
      ensures up ==> Succeeds(Snapshot(minted, token), GetDel(0, Works))
    {
      var stored := redis.SetOrThrow(token, "1", Some(OAUTH_STATE_TTL_SECONDS), up);
      return if stored.Success? then Success(token) else Failure(Unreachable);
    }

    method Verify(providedState: string, up: bool, ghost minted: set<string>) returns (r: Result<bool, RedisError>)
      modifies redis`entries
      ensures r.Failure? <==> !up
      ensures r == Success(true) <==> up && Lookup(old(redis.entries), providedState, redis.now).Some?
      ensures redis.entries == if up then old(redis.entries) - {providedState} else old(redis.entries)
      ensures r == Success(true) <==> up && Succeeds(old(Snapshot(minted, providedState)), GetDel(0, Works))
      ensures redis.entries == Exec(old(Snapshot(minted, providedState)), GetDel(0, if up then Works else FailsUnapplied)).keys
      ensures r.Success? ==> !Succeeds(Snapshot(minted, providedState), GetDel(0, Works))
    {
      var value := redis.GetDelOrThrow(providedState, up);
      return if value.Failure? then Failure(Unreachable) else Success(value.value.Some?);
    }
  }
}
