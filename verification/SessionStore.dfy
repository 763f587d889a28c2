/** The session store object: a locked table rewritten to its file, each method proved against `Sessions`. */
module SessionStore {
  import opened Options
  import opened Sessions

  class Store {
    var tokens: Table
    var lastPersist: Option<int>
    var disk: Table
    var writes: nat

    ghost function View(nowMs: int, instantMs: int): State
      reads this
    {
      State(tokens, lastPersist, disk, writes, nowMs, instantMs)
    }

    /** `with_store`: load the file, forgetting what has expired. */
    constructor (file: Table, nowMs: int)
      ensures forall instantMs :: View(nowMs, instantMs) == Restart(State(map[], None, file, 0, nowMs, instantMs))
    {
      tokens := map k | k in file && file[k] > nowMs :: file[k];
      lastPersist, disk, writes := None, file, 0;
    }

    method Persist(nowMs: int, instantMs: int)
      modifies this
      ensures View(nowMs, instantMs) == Sessions.Persist(old(View(nowMs, instantMs)))
    {
      lastPersist, disk, writes := Some(instantMs), tokens, writes + 1;
    }

    method Create(token: string, nowMs: int, instantMs: int)
      modifies this
      ensures View(nowMs, instantMs) == Sessions.Create(old(View(nowMs, instantMs)), token)
    {
      tokens := tokens[Sha256(token) := nowMs + TTL_MS];
      Persist(nowMs, instantMs);
    }

    method Validate(token: string, nowMs: int, instantMs: int) returns (ok: bool)
      modifies this
      ensures (View(nowMs, instantMs), ok) == Sessions.Validate(old(View(nowMs, instantMs)), token)
    {
      var key := Sha256(token);
      if key !in tokens {
        return false;
      }
      if tokens[key] > nowMs {
        tokens := tokens[key := nowMs + TTL_MS];
        var due := lastPersist.None? || instantMs - lastPersist.value >= PERSIST_EVERY_MS;
        if due {
          Persist(nowMs, instantMs);
        }
        return true;
      }
      tokens := tokens - {key};
      Persist(nowMs, instantMs);
      return false;
    }

    method Revoke(token: string, nowMs: int, instantMs: int)
      modifies this
      ensures View(nowMs, instantMs) == Sessions.Revoke(old(View(nowMs, instantMs)), token)
    {
      if Sha256(token) in tokens {
        tokens := tokens - {Sha256(token)};
        Persist(nowMs, instantMs);
      }
    }

    method RevokeAll(nowMs: int, instantMs: int)
      modifies this
      ensures View(nowMs, instantMs) == Sessions.RevokeAll(old(View(nowMs, instantMs)))
    {
      if tokens != map[] {
        tokens := map[];
        Persist(nowMs, instantMs);
      }
    }
  }
}
