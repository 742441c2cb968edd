/** The lock object over a shared store: PostgresLock or RedisLock, which share their shape and differ in
    the statements they send. Clock readings, the random token and the fate of a statement come in as
    parameters. What a call does to the store and to the object's own tokens is a function, proved to be
    what an uninterrupted run of the call's steps does. */
module LeaseLocks {
  import opened Common
  import opened LeaseRuns

  datatype LockError = StatementFailed | NotHeld | LockLost

  /** The tokens a process keeps. */
  type Tokens = map<Key, Token>

  function AfterTryLock(b: Backend, rows: Table, locks: Tokens, key: Key, ttl: int, value: Token,
                        stamp: int, now: int, fault: Fault): (Table, Tokens) {
    if Rejected(b, ttl, fault) || (key in rows && Blocks(b, rows[key].expiresAt, now)) then (rows, locks)
    else
      var written := rows[key := Row(value, GrantExpiry(b, stamp, now, ttl))];
      (written, if fault.NoFault? then locks[key := value] else locks)
  }

  function AfterRelease(b: Backend, rows: Table, locks: Tokens, key: Key, now: int, fault: Fault): (Table, Tokens) {
    if key in locks && !fault.FailedBefore? && Sees(b, rows, key, locks[key], now)
    then (rows - {key}, if fault.NoFault? then locks - {key} else locks)
    else (rows, locks)
  }

  function AfterExtend(b: Backend, rows: Table, locks: Tokens, key: Key, ttl: int, stamp: int, now: int, fault: Fault): Table {
    if key !in locks || fault.FailedBefore? || !Sees(b, rows, key, locks[key], now) then rows
    else
      var expiresAt := RenewExpiry(b, stamp, now, ttl);
      if b.Redis? && expiresAt <= now then rows - {key} else rows[key := Row(locks[key], Some(expiresAt))]
  }

  /** The process keeps these tokens in the step machine. */
  predicate Keeps(w: World, p: Process, locks: Tokens) {
    && (forall k :: k in locks ==> (p, k) in w.held && w.held[(p, k)] == locks[k])
    && (forall pk :: pk in w.held && pk.0 == p ==> pk.1 in locks)
  }

  /** Whatever else is going on, a TryLock that no other step interrupts does to the shared table and to the
      process's own tokens what the method does. */
  lemma TryLockIsItsRun(b: Backend, w: World, op: OpId, p: Process, locks: Tokens, key: Key, ttl: int, value: Token,
                        wait: nat, fault: Fault)
    requires op !in w.pending && value !in w.issued && Keeps(w, p, locks)
    ensures var w' := TryRun(b, w, op, p, key, ttl, value, wait, fault);
            var (rows', locks') := AfterTryLock(b, w.table, locks, key, ttl, value, w.clock, w.clock + wait, fault);
            w'.table == rows' && Keeps(w', p, locks')
  {
    LoneTryLock(b, w, op, p, key, ttl, value, wait, fault);
  }

  lemma ReleaseIsItsRun(b: Backend, w: World, op: OpId, p: Process, locks: Tokens, key: Key, fault: Fault)
    requires op !in w.pending && Keeps(w, p, locks)
    ensures var w' := ReleaseRun(b, w, op, p, key, fault);
            var (rows', locks') := AfterRelease(b, w.table, locks, key, w.clock, fault);
            w'.table == rows' && Keeps(w', p, locks')
  {
    if key in locks {
      LoneRelease(b, w, op, p, key, fault);
    }
  }

  lemma ExtendIsItsRun(b: Backend, w: World, op: OpId, p: Process, locks: Tokens, key: Key, ttl: int,
                       wait: nat, fault: Fault)
    requires op !in w.pending && Keeps(w, p, locks)
    ensures var w' := ExtendRun(b, w, op, p, key, ttl, wait, fault);
            && w'.table == AfterExtend(b, w.table, locks, key, ttl, w.clock, w.clock + wait, fault)
            && Keeps(w', p, locks)
  {
    if key in locks {
      LoneExtend(b, w, op, p, key, ttl, wait, fault);
    }
  }

  /** The dlocks table, or the Redis key space; shared by the lock objects of all processes. */
  class Store {
    var rows: Table

    constructor ()
      ensures rows == map[]
    {
      rows := map[];
    }
  }

  class RemoteLock {
    const backend: Backend
    const store: Store
    var locks: Tokens

    constructor (backend: Backend, store: Store)
      ensures this.backend == backend && this.store == store && locks == map[]
    {
      this.backend, this.store, locks := backend, store, map[];
    }

    /** `stamp` is the caller's clock reading before the statement, `now` the store's when it runs. */
    method TryLock(key: Key, ttl: int, value: Token, stamp: int, now: int, fault: Fault)
      returns (r: Result<bool, LockError>)
      modifies this`locks, store`rows
      ensures r.Err? <==> !fault.NoFault? || (backend.Redis? && ttl < 0)
      ensures r.Ok? ==> (r.value <==> !(key in old(store.rows) && Blocks(backend, old(store.rows)[key].expiresAt, now)))
      ensures locks == if r == Ok(true) then old(locks)[key := value] else old(locks)
      ensures (store.rows, locks) == AfterTryLock(backend, old(store.rows), old(locks), key, ttl, value, stamp, now, fault)
      // In numbers: when a row keeps others out, and how long the new one will.
      ensures r == Ok(false) <==>
                && fault.NoFault? && (backend.Postgres? || ttl >= 0) && key in old(store.rows)
                && match old(store.rows)[key].expiresAt
                   case None => true
                   case Some(e) => if backend.Postgres? then now <= e else now < e
      ensures r == Ok(true) ==>
                && key in store.rows && store.rows[key].token == value
                && store.rows[key].expiresAt
                   == if backend.Postgres? then Some(stamp + ttl) else if ttl == 0 then None else Some(now + ttl)
    {
      if Rejected(backend, ttl, fault) {
        return Err(StatementFailed);
      }
      var (table, won) := Acquire(backend, store.rows, key, Row(value, GrantExpiry(backend, stamp, now, ttl)), now);
      store.rows := table;
      if fault.FailedAfter? {
        return Err(StatementFailed);
      }
      if won {
        locks := locks[key := value];
        return Ok(true);
      }
      r := Ok(false);
    }

    /** Forgets the token only when the store confirms that its row is gone. */
    method Release(key: Key, now: int, fault: Fault) returns (r: Result<bool, LockError>)
      modifies this`locks, store`rows
      ensures r.Err? <==> key in old(locks) && !fault.NoFault?
      ensures (store.rows, locks) == AfterRelease(backend, old(store.rows), old(locks), key, now, fault)
      // In numbers: the row goes exactly when it is the caller's, and in Redis not expired.
      ensures key in old(store.rows) && key !in store.rows <==>
                && key in old(locks) && !fault.FailedBefore? && key in old(store.rows)
                && old(store.rows)[key].token == old(locks)[key]
                && (backend.Postgres? || old(store.rows)[key].expiresAt == None || now < old(store.rows)[key].expiresAt.value)
    {
      if key !in locks {
        return Ok(true);
      }
      if fault.FailedBefore? {
        return Err(StatementFailed);
      }
      var (table, deleted) := DeleteOwned(backend, store.rows, key, locks[key], now);
      store.rows := table;
      if fault.FailedAfter? {
        return Err(StatementFailed);
      }
      if deleted {
        locks := locks - {key};
      }
      r := Ok(true);
    }

    method Extend(key: Key, ttl: int, stamp: int, now: int, fault: Fault) returns (r: Result<bool, LockError>)
      modifies store`rows
      ensures key !in old(locks) ==> r == Err(NotHeld)
      ensures key in old(locks) && !fault.NoFault? ==> r == Err(StatementFailed)
      ensures key in old(locks) && fault.NoFault? ==>
                r == if Sees(backend, old(store.rows), key, old(locks)[key], now) then Ok(true) else Err(LockLost)
      ensures store.rows == AfterExtend(backend, old(store.rows), old(locks), key, ttl, stamp, now, fault)
      // In numbers: when the caller still has the row, and how long it will.
      ensures r == Ok(true) <==>
                && key in old(locks) && fault.NoFault? && key in old(store.rows)
                && old(store.rows)[key].token == old(locks)[key]
                && (backend.Postgres? || old(store.rows)[key].expiresAt == None || now < old(store.rows)[key].expiresAt.value)
      ensures r == Ok(true) && backend.Postgres? ==>
                key in store.rows && store.rows[key] == Row(old(locks)[key], Some(stamp + ttl))
      ensures r == Ok(true) && backend.Redis? ==>
                if ttl <= 0 then key !in store.rows
                else key in store.rows && store.rows[key] == Row(old(locks)[key], Some(now + ttl))
    {
      if key !in locks {
        return Err(NotHeld);
      }
      if fault.FailedBefore? {
        return Err(StatementFailed);
      }
      var expiresAt := RenewExpiry(backend, stamp, now, ttl);
      var (table, updated) := Renew(backend, store.rows, key, locks[key], expiresAt, now);
      store.rows := table;
      if fault.FailedAfter? {
        return Err(StatementFailed);
      }
      if !updated {
        return Err(LockLost);
      }
      r := Ok(true);
    }

    method CleanupExpired(now: int)
      modifies store`rows
      ensures store.rows.Keys == set k | k in old(store.rows) && Blocks(backend, old(store.rows)[k].expiresAt, now)
      ensures forall k :: k in store.rows ==> store.rows[k] == old(store.rows)[k]
      ensures backend.Postgres? ==>
                forall k :: k in old(store.rows) ==>
                  (k !in store.rows <==> old(store.rows)[k].expiresAt.Some? && old(store.rows)[k].expiresAt.value < now)
    {
      store.rows := Purge(backend, store.rows, store.rows.Keys, now);
    }
  }
}
