// API keys: creation, revocation and validation by prefix lookup and hash comparison
// (api-keys.service.ts). The bcrypt hash is modelled as the plaintext itself: compare
// succeeds on that plaintext alone.
module ApiKeys {
  import opened Wrappers

  const KEY_NAMESPACE: string := "mk_"
  const KEY_PREFIX_LENGTH: nat := 8

  datatype ApiKey = ApiKey(userId: nat, keyHash: string, keyPrefix: string, revoked: bool)

  // JavaScript's slice: bounds are clamped to the string.
  function Slice(s: string, from: nat, to: nat): string {
    if from >= |s| then "" else if to >= |s| then s[from..] else if to <= from then "" else s[from..to]
  }

  // generateSecret, from the encoded random bytes
  function Plaintext(random: string): string { KEY_NAMESPACE + random }

  function Prefix(random: string): string { Slice(random, 0, KEY_PREFIX_LENGTH) }

  function ParsePrefix(plaintext: string): string {
    Slice(plaintext, |KEY_NAMESPACE|, |KEY_NAMESPACE| + KEY_PREFIX_LENGTH)
  }

  // parsePrefix undoes generateSecret, whatever was drawn.
  lemma ParsePrefixUndoesGenerate(random: string)
    ensures ParsePrefix(Plaintext(random)) == Prefix(random)
  {
    assert Plaintext(random)[|KEY_NAMESPACE|..] == random;
  }

  // A key reads "mk_" and what was drawn; the prefix of any string is what follows the first
  // three characters, eight of them at most.
  lemma PrefixForm(random: string, p: string)
    ensures Plaintext(random) == "mk_" + random
    ensures |random| >= 8 ==> Prefix(random) == random[..8]
    ensures ParsePrefix(p) == if |p| >= 11 then p[3..11] else if |p| > 3 then p[3..] else ""
  {
  }

  // ---------- runs ----------

  // Create: createForUser stores row `id` for a key drawn as `random` and returns the
  // plaintext. Revoke: revoke(userId, id).
  datatype Event = Create(id: nat, userId: nat, random: string) | Revoke(userId: nat, id: nat)

  type Rows = map<nat, ApiKey>

  function Exec(rows: Rows, e: Event): Rows {
    match e
    case Create(id, userId, random) => rows[id := ApiKey(userId, Plaintext(random), Prefix(random), false)]
    case Revoke(userId, id) =>
      if id in rows && rows[id].userId == userId && !rows[id].revoked then rows[id := rows[id].(revoked := true)] else rows
  }

  function RunAll(run: seq<Event>): Rows {
    if run == [] then map[] else Exec(RunAll(run[..|run| - 1]), run[|run| - 1])
  }

  // Row ids and drawn secrets do not repeat.
  ghost predicate Fresh(run: seq<Event>) {
    forall i, j :: 0 <= i < j < |run| && run[i].Create? && run[j].Create? ==> run[i].id != run[j].id && run[i].random != run[j].random
  }

  // The rows findOne may pick for a plaintext.
  predicate Candidate(rows: Rows, id: nat, plaintext: string) {
    id in rows && rows[id].keyPrefix == ParsePrefix(plaintext) && !rows[id].revoked
  }

  // validate's answer when findOne picks the given row (None: no row matches).
  function Validate(rows: Rows, pick: Option<nat>, plaintext: string): Option<nat>
    requires pick.Some? ==> Candidate(rows, pick.value, plaintext)
  {
    if pick.Some? && rows[pick.value].keyHash == plaintext then Some(rows[pick.value].userId) else None
  }

  // createForUser(u) returned the plaintext as row `id`, and revoke(u, id) has not run since.
  ghost predicate Alive(run: seq<Event>, u: nat, id: nat, plaintext: string) {
    exists i :: 0 <= i < |run| && run[i].Create? && run[i].id == id && run[i].userId == u && Plaintext(run[i].random) == plaintext
      && forall j :: i < j < |run| ==> run[j] != Revoke(u, id)
  }

  lemma PlaintextsDiffer(a: string, b: string)
    requires Plaintext(a) == Plaintext(b)
    ensures a == b
  {
    assert Plaintext(a)[|KEY_NAMESPACE|..] == a && Plaintext(b)[|KEY_NAMESPACE|..] == b;
  }

  lemma {:induction false} RowsAreAliveKeys(run: seq<Event>, u: nat, id: nat, plaintext: string)
    requires Fresh(run)
    ensures Alive(run, u, id, plaintext) <==>
            id in RunAll(run) && !RunAll(run)[id].revoked && RunAll(run)[id].userId == u && RunAll(run)[id].keyHash == plaintext
    ensures id in RunAll(run) ==> RunAll(run)[id].keyPrefix == ParsePrefix(RunAll(run)[id].keyHash)
    ensures id in RunAll(run) ==> exists i :: 0 <= i < |run| && run[i].Create? && run[i].id == id
  {
    if run != [] {
      var init, e := run[..|run| - 1], run[|run| - 1];
      RowsAreAliveKeys(init, u, id, plaintext);
      AliveOneMore(init, e, u, id, plaintext);
      assert run == init + [e];
      if id in RunAll(init) {
        var i :| 0 <= i < |init| && init[i].Create? && init[i].id == id;
        assert run[i] == init[i];
      }
      if e.Create? && e.id == id {
        ParsePrefixUndoesGenerate(e.random);
        assert run[|run| - 1].Create?;
      }
    }
  }

  lemma AliveOneMore(init: seq<Event>, e: Event, u: nat, id: nat, plaintext: string)
    requires Fresh(init + [e])
    ensures Alive(init + [e], u, id, plaintext) <==>
            || (Alive(init, u, id, plaintext) && e != Revoke(u, id))
            || (e.Create? && e.id == id && e.userId == u && Plaintext(e.random) == plaintext)
  {
    var run := init + [e];
    if Alive(init, u, id, plaintext) && e != Revoke(u, id) {
      var i :| 0 <= i < |init| && init[i].Create? && init[i].id == id && init[i].userId == u && Plaintext(init[i].random) == plaintext
        && forall j :: i < j < |init| ==> init[j] != Revoke(u, id);
      assert run[i] == init[i] && forall j :: i < j < |run| ==> run[j] != Revoke(u, id);
    }
    if e.Create? && e.id == id && e.userId == u && Plaintext(e.random) == plaintext {
      assert run[|init|] == e;
    }
    if Alive(run, u, id, plaintext) {
      var i :| 0 <= i < |run| && run[i].Create? && run[i].id == id && run[i].userId == u && Plaintext(run[i].random) == plaintext
        && forall j :: i < j < |run| ==> run[j] != Revoke(u, id);
      if i < |init| {
        assert init[i] == run[i] && forall j :: i < j < |init| ==> init[j] == run[j];
        assert run[|init|] == e;
      }
    }
  }

  // Main result 1. However prefixes collide and whichever row findOne picks, validate answers
  // u only for a plaintext that createForUser(u) returned and that is not revoked since.
  lemma ValidateIsSound(run: seq<Event>, pick: Option<nat>, plaintext: string, u: nat)
    requires Fresh(run)
    requires pick.Some? ==> Candidate(RunAll(run), pick.value, plaintext)
    requires Validate(RunAll(run), pick, plaintext) == Some(u)
    ensures Alive(run, u, pick.value, plaintext)
  {
    RowsAreAliveKeys(run, u, pick.value, plaintext);
  }

  // Main result 2. When unrevoked prefixes are distinct, a key that is alive always validates,
  // and as its own user; without that, whether it does depends on the row picked.
  lemma ValidateIsComplete(run: seq<Event>, pick: Option<nat>, plaintext: string, u: nat, id: nat)
    requires Fresh(run) && Alive(run, u, id, plaintext)
    requires pick.Some? ==> Candidate(RunAll(run), pick.value, plaintext)
    requires pick.None? ==> forall other :: !Candidate(RunAll(run), other, plaintext)
    ensures Candidate(RunAll(run), id, plaintext) && pick.Some?
    ensures Validate(RunAll(run), pick, plaintext) == Some(u) <==> pick == Some(id)
    ensures (forall a, b :: Candidate(RunAll(run), a, plaintext) && Candidate(RunAll(run), b, plaintext) ==> a == b) ==>
              Validate(RunAll(run), pick, plaintext) == Some(u)
  {
    RowsAreAliveKeys(run, u, id, plaintext);
    assert Candidate(RunAll(run), id, plaintext);
    if Validate(RunAll(run), pick, plaintext) == Some(u) {
      RowsAreAliveKeys(run, u, pick.value, plaintext);
      SamePlaintextSameRow(run, u, id, pick.value, plaintext);
    }
  }

  lemma {:induction false} RowOfCreation(run: seq<Event>, i: nat)
    requires Fresh(run) && i < |run| && run[i].Create?
    ensures run[i].id in RunAll(run)
    ensures var row := RunAll(run)[run[i].id];
            row.userId == run[i].userId && row.keyHash == Plaintext(run[i].random) && row.keyPrefix == Prefix(run[i].random)
  {
    var init := run[..|run| - 1];
    if i < |init| {
      RowOfCreation(init, i);
      assert init[i] == run[i];
    }
  }

  // A prefix tells keys apart: a key whose first eight drawn characters are others is no
  // candidate.
  lemma PrefixesTellKeysApart(run: seq<Event>, i: nat, drawn: string)
    requires Fresh(run) && i < |run| && run[i].Create?
    requires |drawn| >= 8 && |run[i].random| >= 8 && run[i].random[..8] != drawn[..8]
    ensures !Candidate(RunAll(run), run[i].id, "mk_" + drawn)
  {
    RowOfCreation(run, i);
    PrefixForm(run[i].random, "mk_" + drawn);
    assert |drawn| == 8 ==> drawn[..8] == drawn;
    assert ("mk_" + drawn)[3..] == drawn;
    if |drawn| > 8 { assert ("mk_" + drawn)[3..11] == drawn[..8]; }
  }

  // Main result 3. So while the first eight characters drawn for the alive keys are pairwise
  // different, every alive key validates as its own user, whichever candidate is picked.
  lemma DistinctPrefixesValidate(run: seq<Event>, pick: Option<nat>, drawn: string, u: nat, id: nat)
    requires Fresh(run) && |drawn| >= 8 && Alive(run, u, id, "mk_" + drawn)
    requires forall i :: 0 <= i < |run| && run[i].Create? && run[i].id != id
                         && Alive(run, run[i].userId, run[i].id, "mk_" + run[i].random) ==>
               |run[i].random| >= 8 && run[i].random[..8] != drawn[..8]
    requires pick.Some? ==> Candidate(RunAll(run), pick.value, "mk_" + drawn)
    requires pick.None? ==> forall other :: !Candidate(RunAll(run), other, "mk_" + drawn)
    ensures Validate(RunAll(run), pick, "mk_" + drawn) == Some(u)
  {
    ValidateIsComplete(run, pick, "mk_" + drawn, u, id);
    var other, row := pick.value, RunAll(run)[pick.value];
    RowsAreAliveKeys(run, row.userId, other, row.keyHash);
    var i :| 0 <= i < |run| && run[i].Create? && run[i].id == other;
    RowOfCreation(run, i);
    PrefixForm(run[i].random, "");
    if other != id {
      PrefixesTellKeysApart(run, i, drawn);
    }
  }

  lemma SamePlaintextSameRow(run: seq<Event>, u: nat, id: nat, id': nat, plaintext: string)
    requires Fresh(run) && Alive(run, u, id, plaintext) && Alive(run, u, id', plaintext)
    ensures id == id'
  {
    var i :| 0 <= i < |run| && run[i].Create? && run[i].id == id && Plaintext(run[i].random) == plaintext;
    var j :| 0 <= j < |run| && run[j].Create? && run[j].id == id' && Plaintext(run[j].random) == plaintext;
    PlaintextsDiffer(run[i].random, run[j].random);
  }

  lemma RevocationEndsAllUses(run1: seq<Event>, run2: seq<Event>, u: nat, id: nat, plaintext: string, v: nat, id': nat)
    requires Fresh(run1 + [Revoke(u, id)] + run2) && Alive(run1, u, id, plaintext)
    ensures !Alive(run1 + [Revoke(u, id)] + run2, v, id', plaintext)
  {
    var run := run1 + [Revoke(u, id)] + run2;
    var i :| 0 <= i < |run1| && run1[i].Create? && run1[i].id == id && run1[i].userId == u && Plaintext(run1[i].random) == plaintext;
    assert run[i] == run1[i];
    forall j | 0 <= j < |run| && run[j].Create? && run[j].id == id' && run[j].userId == v && Plaintext(run[j].random) == plaintext
      ensures exists k :: j < k < |run| && run[k] == Revoke(v, id')
    {
      PlaintextsDiffer(run[i].random, run[j].random);
      assert run[|run1|] == Revoke(v, id');
    }
  }

  // Main result 4. A revoked key never validates again, for any user, after any further run.
  lemma RevokedKeysStayRevoked(run1: seq<Event>, run2: seq<Event>, u: nat, id: nat, plaintext: string, pick: Option<nat>)
    requires Fresh(run1 + [Revoke(u, id)] + run2) && Alive(run1, u, id, plaintext)
    requires pick.Some? ==> Candidate(RunAll(run1 + [Revoke(u, id)] + run2), pick.value, plaintext)
    ensures Validate(RunAll(run1 + [Revoke(u, id)] + run2), pick, plaintext) == None
  {
    var run := run1 + [Revoke(u, id)] + run2;
    var answer := Validate(RunAll(run), pick, plaintext);
    if answer.Some? {
      RevocationEndsAllUses(run1, run2, u, id, plaintext, answer.value, pick.value);
      RowsAreAliveKeys(run, answer.value, pick.value, plaintext);
    }
  }

  // ---------- the service ----------

  class ApiKeysService {
    var rows: Rows

    method CreateForUser(id: nat, userId: nat, random: string, count: nat, limit: nat) returns (key: Option<string>)
      modifies this
      ensures key.None? <==> count >= limit
      ensures key.None? ==> rows == old(rows)
      ensures key.Some? ==> key.value == "mk_" + random && rows == Exec(old(rows), Create(id, userId, random))
      ensures key.Some? ==> Candidate(rows, id, key.value) && Validate(rows, Some(id), key.value) == Some(userId)
    {
      if count >= limit { return None; }
      ParsePrefixUndoesGenerate(random);
      var plaintext := KEY_NAMESPACE + random;
      rows := rows[id := ApiKey(userId, plaintext, Prefix(random), false)];
      return Some(plaintext);
    }

    // false: no unrevoked row of that user, the source's NotFoundException
    method RevokeKey(userId: nat, id: nat) returns (affected: bool)
      modifies this
      ensures affected <==> id in old(rows) && old(rows)[id].userId == userId && !old(rows)[id].revoked
      ensures rows == Exec(old(rows), Revoke(userId, id))
      ensures affected ==> forall plaintext :: !Candidate(rows, id, plaintext)
    {
      affected := id in rows && rows[id].userId == userId && !rows[id].revoked;
      if affected {
        rows := rows[id := rows[id].(revoked := true)];
      }
    }

    // pick: the row the query happened to return.
    method ValidateKey(plaintext: string) returns (r: Option<nat>, pick: Option<nat>)
      ensures pick.Some? ==> Candidate(rows, pick.value, plaintext)
      ensures pick.None? ==> forall id :: !Candidate(rows, id, plaintext)
      ensures r == Validate(rows, pick, plaintext)
    {
      r, pick := None, None;
      if exists id :: id in rows && Candidate(rows, id, plaintext) {
        var id :| id in rows && Candidate(rows, id, plaintext);
        pick := Some(id);
        if rows[id].keyHash == plaintext {
          r := Some(rows[id].userId);
        }
      }
    }
  }
}
