// The key store behind RedisService (redis.service.ts): cache accessors that swallow errors,
// revocation accessors that propagate them.
module Redis {
  import opened Wrappers

  // Times are in milliseconds. A key with no deadline never expires.
  datatype Entry = Entry(value: string, deadline: Option<int>)

  predicate Live(e: Entry, now: int) {
    e.deadline.None? || now < e.deadline.value
  }

  function Lookup(entries: map<string, Entry>, key: string, now: int): Option<string> {
    if key in entries && Live(entries[key], now) then Some(entries[key].value) else None
  }

  // setWithOptionalTtl: EX only with a positive TTL.
  function WithOptionalTtl(value: string, ttlSeconds: Option<int>, now: int): Entry {
    if ttlSeconds.Some? && ttlSeconds.value > 0 then Entry(value, Some(now + ttlSeconds.value * 1000))
    else Entry(value, None)
  }

  // What a set key then answers: its value, up to the end of a positive TTL, for good without
  // one; other keys answer as before.
  lemma StoredUntil(entries: map<string, Entry>, key: string, value: string, ttlSeconds: Option<int>, now: int, later: nat, other: string)
    ensures var stored := entries[key := WithOptionalTtl(value, ttlSeconds, now)];
            && Lookup(stored, key, now + later) ==
                (if ttlSeconds.Some? && 0 < ttlSeconds.value <= later / 1000 then None else Some(value))
            && (other != key ==> Lookup(stored, other, now + later) == Lookup(entries, other, now + later))
  {
  }

  // A failing access reports an error, having taken effect or not.
  datatype Access = Works | FailsApplied | FailsUnapplied

  datatype RedisError = Unreachable

  // up: whether the server answers this command; a command it does not answer has no effect.
  class RedisService {
    var entries: map<string, Entry>
    var now: int

    method Get(key: string, up: bool) returns (r: Option<string>)
      ensures r == if up then Lookup(entries, key, now) else None
    {
      if !up { return None; }
      r := Lookup(entries, key, now);
    }

    method Set(key: string, value: string, ttlSeconds: Option<int>, up: bool)
      modifies this`entries
      ensures entries == if up then old(entries)[key := WithOptionalTtl(value, ttlSeconds, now)] else old(entries)
    {
      if up {
        if ttlSeconds.Some? && ttlSeconds.value > 0 {
          entries := entries[key := Entry(value, Some(now + ttlSeconds.value * 1000))];
        } else {
          entries := entries[key := Entry(value, None)];
        }
      }
    }

    method Del(key: string, up: bool)
      modifies this`entries
      ensures entries == if up then old(entries) - {key} else old(entries)
    {
      if up { entries := entries - {key}; }
    }

    method GetOrThrow(key: string, up: bool) returns (r: Result<Option<string>, RedisError>)
      ensures r == if up then Success(Lookup(entries, key, now)) else Failure(Unreachable)
    {
      if !up { return Failure(Unreachable); }
      r := Success(Lookup(entries, key, now));
    }

    method SetOrThrow(key: string, value: string, ttlSeconds: Option<int>, up: bool) returns (r: Result<(), RedisError>)
      modifies this`entries
      ensures r == if up then Success(()) else Failure(Unreachable)
      ensures entries == if up then old(entries)[key := WithOptionalTtl(value, ttlSeconds, now)] else old(entries)
    {
      if !up { return Failure(Unreachable); }
      Set(key, value, ttlSeconds, up);
      r := Success(());
    }

    method DelOrThrow(key: string, up: bool) returns (r: Result<(), RedisError>)
      modifies this`entries
      ensures r == if up then Success(()) else Failure(Unreachable)
      ensures entries == if up then old(entries) - {key} else old(entries)
    {
      if !up { return Failure(Unreachable); }
      Del(key, up);
      r := Success(());
    }

    // One command: of two readers of one key, the second finds it gone.
    method GetDelOrThrow(key: string, up: bool) returns (r: Result<Option<string>, RedisError>)
      modifies this`entries
      ensures r == if up then Success(Lookup(old(entries), key, now)) else Failure(Unreachable)
      ensures r.Success? ==> Lookup(entries, key, now) == None
      ensures entries == if up then old(entries) - {key} else old(entries)
    {
      if !up { return Failure(Unreachable); }
      r := Success(Lookup(entries, key, now));
      entries := entries - {key};
    }
  }
}
