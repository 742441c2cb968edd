/** Lease locks over a store shared by many processes: every SQL statement or script,
    every access to a process's own token map and every clock reading is a step of its
    own, and steps of all processes interleave freely. */
module LeaseRuns {
  import opened Common

  type Process = nat
  type Key = string
  type Token = nat
  type OpId = nat

  datatype Backend = Postgres | Redis

  /** An expiry instant; None is a Redis key without one. */
  type Expiry = Option<int>

  datatype Row = Row(token: Token, expiresAt: Expiry)

  type Table = map<Key, Row>

  /** Whether a lease with this expiry still keeps others out: the SQL upsert gives way once
      expires_at < NOW(), Redis once the expiry instant is reached. */
  predicate Blocks(b: Backend, expiresAt: Expiry, now: int) {
    expiresAt.None? || (if b.Postgres? then now <= expiresAt.value else now < expiresAt.value)
  }

  /** Whether a statement conditioned on the token sees the row. Redis no longer returns an expired key. */
  predicate Sees(b: Backend, table: Table, key: Key, token: Token, now: int) {
    && key in table
    && table[key].token == token
    && (b.Postgres? || Blocks(b, table[key].expiresAt, now))
  }

  // ── The atomic statements: the new table, and whether a row was affected ──

  function Acquire(b: Backend, table: Table, key: Key, row: Row, now: int): (Table, bool) {
    if key in table && Blocks(b, table[key].expiresAt, now) then (table, false)
    else (table[key := row], true)
  }

  function DeleteOwned(b: Backend, table: Table, key: Key, token: Token, now: int): (Table, bool) {
    if Sees(b, table, key, token, now) then (table - {key}, true) else (table, false)
  }

  /** PEXPIRE with a non-positive time removes the key; SQL just writes the instant. */
  function Renew(b: Backend, table: Table, key: Key, token: Token, expiresAt: int, now: int): (Table, bool) {
    if !Sees(b, table, key, token, now) then (table, false)
    else if b.Redis? && expiresAt <= now then (table - {key}, true)
    else (table[key := Row(token, Some(expiresAt))], true)
  }

  /** Removal of expired rows among `keys`: CleanupExpired, or Redis dropping dead keys. */
  function Purge(b: Backend, table: Table, keys: set<Key>, now: int): Table {
    map k | k in table && (k !in keys || Blocks(b, table[k].expiresAt, now)) :: table[k]
  }

  /** SQL expiries are computed by the caller from its own earlier clock reading; Redis counts
      from the moment the command runs, and a zero time to live there means none. */
  function GrantExpiry(b: Backend, stamp: int, now: int, ttl: int): Expiry {
    if b.Postgres? then Some(stamp + ttl) else if ttl == 0 then None else Some(now + ttl)
  }

  function RenewExpiry(b: Backend, stamp: int, now: int, ttl: int): int {
    if b.Postgres? then stamp + ttl else now + ttl
  }

  // ── Worlds ──

  /** A call between two of its steps. */
  datatype Pending =
    | Trying(p: Process, key: Key, token: Token, stamp: int, ttl: int)
    | Won(p: Process, key: Key, token: Token)
    | Releasing(p: Process, key: Key, token: Token)
    | Dropping(p: Process, key: Key)
    | Extending(p: Process, key: Key, token: Token, stamp: int, ttl: int)

  /** What the shared store did, in order. `told` is false when the caller got an error although
      its statement took effect. A statement that touched no row is logged when the caller learns of it.
      `stamp` is the caller's clock reading before the statement. */
  datatype Event =
    | Granted(p: Process, key: Key, token: Token, stamp: int, ttl: int, expiresAt: Expiry, at: int, told: bool)
    | Refused(p: Process, key: Key, at: int)
    | Freed(p: Process, key: Key, token: Token, at: int)
    | Renewed(p: Process, key: Key, token: Token, stamp: int, ttl: int, expiresAt: Expiry, at: int)
    | Lost(p: Process, key: Key, token: Token, at: int)

  datatype World = World(
    clock: int,
    table: Table,
    held: map<(Process, Key), Token>,       // every process's private token map
    pending: map<OpId, Pending>,
    issued: map<Token, (Process, Key)>,     // who drew each random token, and for which key
    log: seq<Event>)

  /** A statement may fail without effect, or take effect and still report an error. */
  datatype Fault = NoFault | FailedBefore | FailedAfter

  datatype Action =
    | Advance(dt: nat)
    | BeginTry(op: OpId, p: Process, key: Key, ttl: int, token: Token)
    | SubmitTry(op: OpId, fault: Fault)
    | StoreToken(op: OpId)
    | BeginRelease(op: OpId, p: Process, key: Key)
    | SubmitRelease(op: OpId, fault: Fault)
    | DropToken(op: OpId)
    | BeginExtend(op: OpId, p: Process, key: Key, ttl: int)
    | SubmitExtend(op: OpId, fault: Fault)
    | PurgeExpired(keys: set<Key>)
    | Crash(p: Process)

  const START := World(0, map[], map[], map[], map[], [])

  function Forget(pending: map<OpId, Pending>, p: Process): map<OpId, Pending> {
    map op | op in pending && pending[op].p != p :: pending[op]
  }

  /** Redis refuses a negative time to live. */
  predicate Rejected(b: Backend, ttl: int, fault: Fault) {
    fault.FailedBefore? || (b.Redis? && ttl < 0)
  }

  function SubmitTryStep(b: Backend, w: World, op: OpId, fault: Fault): World
    requires op in w.pending && w.pending[op].Trying?
  {
    var c := w.pending[op];
    var done := w.(pending := w.pending - {op});
    if Rejected(b, c.ttl, fault) then done
    else
      var row := Row(c.token, GrantExpiry(b, c.stamp, w.clock, c.ttl));
      var (table, won) := Acquire(b, w.table, c.key, row, w.clock);
      if !won then (if fault.NoFault? then done.(log := w.log + [Refused(c.p, c.key, w.clock)]) else done)
      else
        var told := fault.NoFault?;
        var granted := Granted(c.p, c.key, c.token, c.stamp, c.ttl, row.expiresAt, w.clock, told);
        w.(table := table, log := w.log + [granted],
           pending := if told then w.pending[op := Won(c.p, c.key, c.token)] else done.pending)
  }

  function SubmitReleaseStep(b: Backend, w: World, op: OpId, fault: Fault): World
    requires op in w.pending && w.pending[op].Releasing?
  {
    var c := w.pending[op];
    var done := w.(pending := w.pending - {op});
    var (table, deleted) := DeleteOwned(b, w.table, c.key, c.token, w.clock);
    if fault.FailedBefore? || !deleted then done
    else
      w.(table := table, log := w.log + [Freed(c.p, c.key, c.token, w.clock)],
         pending := if fault.NoFault? then w.pending[op := Dropping(c.p, c.key)] else done.pending)
  }

  function SubmitExtendStep(b: Backend, w: World, op: OpId, fault: Fault): World
    requires op in w.pending && w.pending[op].Extending?
  {
    var c := w.pending[op];
    var done := w.(pending := w.pending - {op});
    var expiresAt := RenewExpiry(b, c.stamp, w.clock, c.ttl);
    var (table, updated) := Renew(b, w.table, c.key, c.token, expiresAt, w.clock);
    if fault.FailedBefore? || (fault.FailedAfter? && !updated) then done
    else if !updated then done.(log := w.log + [Lost(c.p, c.key, c.token, w.clock)])
    else done.(table := table, log := w.log + [Renewed(c.p, c.key, c.token, c.stamp, c.ttl, Some(expiresAt), w.clock)])
  }

  /** One step; an action that does not apply changes nothing. */
  function Step(b: Backend, w: World, a: Action): World {
    match a
    case Advance(dt) => w.(clock := w.clock + dt)
    case BeginTry(op, p, key, ttl, token) =>
      if op in w.pending || token in w.issued then w
      else w.(pending := w.pending[op := Trying(p, key, token, w.clock, ttl)],
              issued := w.issued[token := (p, key)])
    case SubmitTry(op, fault) =>
      if op in w.pending && w.pending[op].Trying? then SubmitTryStep(b, w, op, fault) else w
    case StoreToken(op) =>
      if op in w.pending && w.pending[op].Won? then
        var c := w.pending[op];
        w.(held := w.held[(c.p, c.key) := c.token], pending := w.pending - {op})
      else w
    case BeginRelease(op, p, key) =>
      if op in w.pending || (p, key) !in w.held then w
      else w.(pending := w.pending[op := Releasing(p, key, w.held[(p, key)])])
    case SubmitRelease(op, fault) =>
      if op in w.pending && w.pending[op].Releasing? then SubmitReleaseStep(b, w, op, fault) else w
    case DropToken(op) =>
      if op in w.pending && w.pending[op].Dropping? then
        var c := w.pending[op];
        w.(held := w.held - {(c.p, c.key)}, pending := w.pending - {op})
      else w
    case BeginExtend(op, p, key, ttl) =>
      if op in w.pending || (p, key) !in w.held then w
      else w.(pending := w.pending[op := Extending(p, key, w.held[(p, key)], w.clock, ttl)])
    case SubmitExtend(op, fault) =>
      if op in w.pending && w.pending[op].Extending? then SubmitExtendStep(b, w, op, fault) else w
    case PurgeExpired(keys) => w.(table := Purge(b, w.table, keys, w.clock))
    case Crash(p) =>
      w.(held := map pk | pk in w.held && pk.0 != p :: w.held[pk], pending := Forget(w.pending, p))
  }

  /** The world after any list of actions, the last one applied last. */
  function Exec(b: Backend, actions: seq<Action>): World {
    if actions == [] then START
    else Step(b, Exec(b, actions[..|actions| - 1]), actions[|actions| - 1])
  }

  // ── Reading leases off the log ──

  predicate Concerns(e: Event, token: Token) {
    (e.Granted? || e.Freed? || e.Renewed?) && e.token == token
  }

  /** The expiry a token's lease currently has according to the log; None if it was never
      granted or has been freed. */
  function LeaseOf(log: seq<Event>, token: Token): Option<Expiry> {
    if log == [] then None
    else
      var e := log[|log| - 1];
      if !Concerns(e, token) then LeaseOf(log[..|log| - 1], token)
      else if e.Freed? then None
      else Some(e.expiresAt)
  }

  predicate InForce(b: Backend, log: seq<Event>, token: Token, now: int) {
    LeaseOf(log, token).Some? && Blocks(b, LeaseOf(log, token).value, now)
  }

  // ── The invariant ──

  predicate OwnTokens(w: World) {
    && (forall k :: k in w.table ==> w.table[k].token in w.issued && w.issued[w.table[k].token].1 == k)
    && (forall pk :: pk in w.held ==> w.held[pk] in w.issued && w.issued[w.held[pk]] == pk)
    && (forall op :: op in w.pending && !w.pending[op].Dropping? ==>
          w.pending[op].token in w.issued && w.issued[w.pending[op].token] == (w.pending[op].p, w.pending[op].key))
    && (forall i :: 0 <= i < |w.log| && !w.log[i].Refused? ==>
          w.log[i].token in w.issued && w.issued[w.log[i].token] == (w.log[i].p, w.log[i].key))
  }

  predicate GrantedBefore(log: seq<Event>, p: Process, key: Key, token: Token) {
    exists i :: 0 <= i < |log| && log[i].Granted? && log[i].p == p && log[i].key == key && log[i].token == token
  }

  /** A token not yet submitted appears nowhere else; every other token in use was granted. */
  predicate FreshTokens(w: World) {
    && (forall op, i :: op in w.pending && w.pending[op].Trying? && 0 <= i < |w.log| && !w.log[i].Refused? ==>
          w.log[i].token != w.pending[op].token)
    && (forall op1, op2 | op1 in w.pending && op2 in w.pending && op1 != op2 ::
          w.pending[op1].Trying? && w.pending[op2].Trying? ==> w.pending[op1].token != w.pending[op2].token)
    && (forall pk :: pk in w.held ==> GrantedBefore(w.log, pk.0, pk.1, w.held[pk]))
    && (forall op :: op in w.pending && (w.pending[op].Won? || w.pending[op].Releasing? || w.pending[op].Extending?) ==>
          GrantedBefore(w.log, w.pending[op].p, w.pending[op].key, w.pending[op].token))
  }

  predicate RowsMatchLog(w: World) {
    forall k :: k in w.table ==> LeaseOf(w.log, w.table[k].token) == Some(w.table[k].expiresAt)
  }

  /** Every lease in force is the row of its key: at most one lease per key is in force. */
  predicate LeasesAreRows(b: Backend, w: World) {
    forall t :: t in w.issued && InForce(b, w.log, t, w.clock) ==>
      w.issued[t].1 in w.table && w.table[w.issued[t].1].token == t
  }

  predicate Inv(b: Backend, w: World) {
    OwnTokens(w) && FreshTokens(w) && RowsMatchLog(w) && LeasesAreRows(b, w)
  }

  // ── Steps keep the invariant ──

  lemma GrantedStays(log: seq<Event>, e: Event, p: Process, key: Key, token: Token)
    ensures GrantedBefore(log, p, key, token) ==> GrantedBefore(log + [e], p, key, token)
  {
    if GrantedBefore(log, p, key, token) {
      var i :| 0 <= i < |log| && log[i].Granted? && log[i].p == p && log[i].key == key && log[i].token == token;
      assert (log + [e])[i] == log[i];
    }
  }

  lemma LeaseAfter(log: seq<Event>, e: Event, token: Token)
    ensures LeaseOf(log + [e], token)
         == if !Concerns(e, token) then LeaseOf(log, token) else if e.Freed? then None else Some(e.expiresAt)
  {
    assert (log + [e])[..|log|] == log;
  }

  lemma {:induction false} NoLeaseBeforeGrant(log: seq<Event>, token: Token)
    requires forall i :: 0 <= i < |log| && !log[i].Refused? ==> log[i].token != token
    ensures LeaseOf(log, token) == None
  {
    if log != [] {
      NoLeaseBeforeGrant(log[..|log| - 1], token);
    }
  }

  lemma AdvanceKeeps(b: Backend, w: World, dt: nat)
    requires Inv(b, w)
    ensures Inv(b, Step(b, w, Advance(dt)))
  {
  }

  lemma BeginTryKeeps(b: Backend, w: World, op: OpId, p: Process, key: Key, ttl: int, token: Token)
    requires Inv(b, w)
    ensures Inv(b, Step(b, w, BeginTry(op, p, key, ttl, token)))
  {
    if !(op in w.pending || token in w.issued) {
      NoLeaseBeforeGrant(w.log, token);
    }
  }

  lemma StoreTokenKeeps(b: Backend, w: World, op: OpId)
    requires Inv(b, w)
    ensures Inv(b, Step(b, w, StoreToken(op)))
  {
  }

  lemma DropTokenKeeps(b: Backend, w: World, op: OpId)
    requires Inv(b, w)
    ensures Inv(b, Step(b, w, DropToken(op)))
  {
  }

  lemma BeginReleaseKeeps(b: Backend, w: World, op: OpId, p: Process, key: Key)
    requires Inv(b, w)
    ensures Inv(b, Step(b, w, BeginRelease(op, p, key)))
  {
  }

  lemma BeginExtendKeeps(b: Backend, w: World, op: OpId, p: Process, key: Key, ttl: int)
    requires Inv(b, w)
    ensures Inv(b, Step(b, w, BeginExtend(op, p, key, ttl)))
  {
  }

  lemma CrashKeeps(b: Backend, w: World, p: Process)
    requires Inv(b, w)
    ensures Inv(b, Step(b, w, Crash(p)))
  {
  }

  lemma PurgeKeeps(b: Backend, w: World, keys: set<Key>)
    requires Inv(b, w)
    ensures Inv(b, Step(b, w, PurgeExpired(keys)))
  {
  }

  /** The tokens of a world stay owned, fresh and granted when one entry about an issued
      token is logged and a pending call moves on. */
  lemma LoggedTokens(w: World, e: Event, table: Table, op: OpId, next: Option<Pending>)
    requires OwnTokens(w) && FreshTokens(w) && op in w.pending && !w.pending[op].Dropping?
    requires forall k :: k in table ==> table[k].token in w.issued && w.issued[table[k].token].1 == k
    requires e.Refused? || (e.token == w.pending[op].token && e.p == w.pending[op].p && e.key == w.pending[op].key)
    requires next.Some? ==> e.p == next.value.p && e.key == next.value.key
    requires next.Some? ==> next.value.Dropping? || (next.value.Won? && e.Granted? && e.token == next.value.token)
    ensures var w' := w.(table := table, log := w.log + [e],
                         pending := if next.Some? then w.pending[op := next.value] else w.pending - {op});
            OwnTokens(w') && FreshTokens(w')
  {
    var w' := w.(table := table, log := w.log + [e],
                 pending := if next.Some? then w.pending[op := next.value] else w.pending - {op});
    forall p, key, token | GrantedBefore(w.log, p, key, token) ensures GrantedBefore(w'.log, p, key, token) {
      GrantedStays(w.log, e, p, key, token);
    }
    assert w'.log[|w.log|] == e;
    assert e.Granted? ==> GrantedBefore(w'.log, e.p, e.key, e.token);
  }

  lemma RefusedKeepsLeases(b: Backend, w: World, e: Event)
    requires Inv(b, w) && (e.Refused? || e.Lost?)
    ensures RowsMatchLog(w.(log := w.log + [e])) && LeasesAreRows(b, w.(log := w.log + [e]))
  {
    forall t ensures LeaseOf(w.log + [e], t) == LeaseOf(w.log, t) {
      LeaseAfter(w.log, e, t);
    }
  }

  /** A grant over a row that no longer blocks: any lease in force on that key would have been the row. */
  lemma GrantKeepsLeases(b: Backend, w: World, e: Event)
    requires Inv(b, w) && e.Granted?
    requires e.token in w.issued && w.issued[e.token] == (e.p, e.key)
    requires Acquire(b, w.table, e.key, Row(e.token, e.expiresAt), w.clock).1
    requires forall k :: k in w.table ==> w.table[k].token != e.token
    ensures var w' := w.(log := w.log + [e], table := w.table[e.key := Row(e.token, e.expiresAt)]);
            RowsMatchLog(w') && LeasesAreRows(b, w')
  {
    var w' := w.(log := w.log + [e], table := w.table[e.key := Row(e.token, e.expiresAt)]);
    forall k | k in w'.table ensures LeaseOf(w'.log, w'.table[k].token) == Some(w'.table[k].expiresAt) {
      LeaseAfter(w.log, e, w'.table[k].token);
    }
    forall t | t in w.issued && InForce(b, w'.log, t, w.clock)
      ensures w.issued[t].1 in w'.table && w'.table[w.issued[t].1].token == t {
      LeaseAfter(w.log, e, t);
    }
  }

  lemma FreeKeepsLeases(b: Backend, w: World, e: Event)
    requires Inv(b, w) && e.Freed?
    requires Sees(b, w.table, e.key, e.token, w.clock)
    ensures var w' := w.(log := w.log + [e], table := w.table - {e.key});
            RowsMatchLog(w') && LeasesAreRows(b, w')
  {
    var w' := w.(log := w.log + [e], table := w.table - {e.key});
    forall k | k in w'.table ensures LeaseOf(w'.log, w'.table[k].token) == Some(w'.table[k].expiresAt) {
      LeaseAfter(w.log, e, w'.table[k].token);
    }
    forall t | t in w.issued && InForce(b, w'.log, t, w.clock)
      ensures w.issued[t].1 in w'.table && w'.table[w.issued[t].1].token == t {
      LeaseAfter(w.log, e, t);
    }
  }

  lemma RenewKeepsLeases(b: Backend, w: World, e: Event)
    requires Inv(b, w) && e.Renewed? && e.expiresAt.Some?
    requires Sees(b, w.table, e.key, e.token, w.clock)
    ensures var w' := w.(log := w.log + [e],
                         table := Renew(b, w.table, e.key, e.token, e.expiresAt.value, w.clock).0);
            RowsMatchLog(w') && LeasesAreRows(b, w')
  {
    var w' := w.(log := w.log + [e],
                 table := Renew(b, w.table, e.key, e.token, e.expiresAt.value, w.clock).0);
    forall k | k in w'.table ensures LeaseOf(w'.log, w'.table[k].token) == Some(w'.table[k].expiresAt) {
      LeaseAfter(w.log, e, w'.table[k].token);
    }
    forall t | t in w.issued && InForce(b, w'.log, t, w.clock)
      ensures w.issued[t].1 in w'.table && w'.table[w.issued[t].1].token == t {
      LeaseAfter(w.log, e, t);
    }
  }

  /** A row's token is a granted one, so a token about to be submitted is in no row. */
  lemma {:induction false} LeasedTokenIsLogged(log: seq<Event>, token: Token)
    requires LeaseOf(log, token).Some?
    ensures exists i :: 0 <= i < |log| && !log[i].Refused? && log[i].token == token
  {
    var last := |log| - 1;
    if Concerns(log[last], token) {
      assert !log[last].Refused? && log[last].token == token;
    } else {
      LeasedTokenIsLogged(log[..last], token);
      var i :| 0 <= i < last && !log[..last][i].Refused? && log[..last][i].token == token;
      assert !log[i].Refused? && log[i].token == token;
    }
  }

  lemma DroppedKeeps(b: Backend, w: World, op: OpId)
    requires Inv(b, w)
    ensures Inv(b, w.(pending := w.pending - {op}))
  {
  }

  lemma TryWonKeeps(b: Backend, w: World, op: OpId, expiresAt: Expiry, told: bool)
    requires Inv(b, w) && op in w.pending && w.pending[op].Trying?
    requires Acquire(b, w.table, w.pending[op].key, Row(w.pending[op].token, expiresAt), w.clock).1
    ensures var c := w.pending[op];
            Inv(b, w.(table := w.table[c.key := Row(c.token, expiresAt)],
                      log := w.log + [Granted(c.p, c.key, c.token, c.stamp, c.ttl, expiresAt, w.clock, told)],
                      pending := if told then w.pending[op := Won(c.p, c.key, c.token)] else w.pending - {op}))
  {
    var c := w.pending[op];
    var e := Granted(c.p, c.key, c.token, c.stamp, c.ttl, expiresAt, w.clock, told);
    forall k | k in w.table ensures w.table[k].token != c.token {
      LeasedTokenIsLogged(w.log, w.table[k].token);
    }
    LoggedTokens(w, e, w.table[c.key := Row(c.token, expiresAt)], op, if told then Some(Won(c.p, c.key, c.token)) else None);
    GrantKeepsLeases(b, w, e);
  }

  lemma SubmitTryKeeps(b: Backend, w: World, op: OpId, fault: Fault)
    requires Inv(b, w) && op in w.pending && w.pending[op].Trying?
    ensures Inv(b, SubmitTryStep(b, w, op, fault))
  {
    var c := w.pending[op];
    if Rejected(b, c.ttl, fault) {
      DroppedKeeps(b, w, op);
      return;
    }
    var expiresAt := GrantExpiry(b, c.stamp, w.clock, c.ttl);
    if Acquire(b, w.table, c.key, Row(c.token, expiresAt), w.clock).1 {
      TryWonKeeps(b, w, op, expiresAt, fault.NoFault?);
    } else if !fault.NoFault? {
      DroppedKeeps(b, w, op);
    } else {
      var e := Refused(c.p, c.key, w.clock);
      LoggedTokens(w, e, w.table, op, None);
      RefusedKeepsLeases(b, w, e);
    }
  }

  lemma ReleaseSeenKeeps(b: Backend, w: World, op: OpId, next: Option<Pending>)
    requires Inv(b, w) && op in w.pending && w.pending[op].Releasing?
    requires Sees(b, w.table, w.pending[op].key, w.pending[op].token, w.clock)
    requires next.Some? ==> next.value == Dropping(w.pending[op].p, w.pending[op].key)
    ensures var c := w.pending[op];
            Inv(b, w.(table := w.table - {c.key},
                      log := w.log + [Freed(c.p, c.key, c.token, w.clock)],
                      pending := if next.Some? then w.pending[op := next.value] else w.pending - {op}))
  {
    var c := w.pending[op];
    var e := Freed(c.p, c.key, c.token, w.clock);
    LoggedTokens(w, e, w.table - {c.key}, op, next);
    FreeKeepsLeases(b, w, e);
  }

  lemma SubmitReleaseKeeps(b: Backend, w: World, op: OpId, fault: Fault)
    requires Inv(b, w) && op in w.pending && w.pending[op].Releasing?
    ensures Inv(b, SubmitReleaseStep(b, w, op, fault))
  {
    var c := w.pending[op];
    if fault.FailedBefore? || !Sees(b, w.table, c.key, c.token, w.clock) {
      DroppedKeeps(b, w, op);
    } else if fault.NoFault? {
      ReleaseSeenKeeps(b, w, op, Some(Dropping(c.p, c.key)));
    } else {
      ReleaseSeenKeeps(b, w, op, None);
    }
  }

  lemma ExtendSeenKeeps(b: Backend, w: World, op: OpId, expiresAt: int)
    requires Inv(b, w) && op in w.pending && w.pending[op].Extending?
    requires Sees(b, w.table, w.pending[op].key, w.pending[op].token, w.clock)
    ensures var c := w.pending[op];
            Inv(b, w.(table := Renew(b, w.table, c.key, c.token, expiresAt, w.clock).0,
                      log := w.log + [Renewed(c.p, c.key, c.token, c.stamp, c.ttl, Some(expiresAt), w.clock)],
                      pending := w.pending - {op}))
  {
    var c := w.pending[op];
    var e := Renewed(c.p, c.key, c.token, c.stamp, c.ttl, Some(expiresAt), w.clock);
    LoggedTokens(w, e, Renew(b, w.table, c.key, c.token, expiresAt, w.clock).0, op, None);
    RenewKeepsLeases(b, w, e);
  }

  lemma SubmitExtendKeeps(b: Backend, w: World, op: OpId, fault: Fault)
    requires Inv(b, w) && op in w.pending && w.pending[op].Extending?
    ensures Inv(b, SubmitExtendStep(b, w, op, fault))
  {
    var c := w.pending[op];
    if fault.FailedBefore? {
      DroppedKeeps(b, w, op);
      return;
    }
    var expiresAt := RenewExpiry(b, c.stamp, w.clock, c.ttl);
    if Sees(b, w.table, c.key, c.token, w.clock) {
      ExtendSeenKeeps(b, w, op, expiresAt);
    } else if fault.FailedAfter? {
      DroppedKeeps(b, w, op);
    } else {
      var e := Lost(c.p, c.key, c.token, w.clock);
      LoggedTokens(w, e, w.table, op, None);
      RefusedKeepsLeases(b, w, e);
    }
  }

  lemma StepKeepsInv(b: Backend, w: World, a: Action)
    requires Inv(b, w)
    ensures Inv(b, Step(b, w, a))
  {
    match a
    case Advance(dt) => AdvanceKeeps(b, w, dt);
    case BeginTry(op, p, key, ttl, token) => BeginTryKeeps(b, w, op, p, key, ttl, token);
    case SubmitTry(op, fault) =>
      if op in w.pending && w.pending[op].Trying? {
        SubmitTryKeeps(b, w, op, fault);
      }
    case SubmitRelease(op, fault) =>
      if op in w.pending && w.pending[op].Releasing? {
        SubmitReleaseKeeps(b, w, op, fault);
      }
    case SubmitExtend(op, fault) =>
      if op in w.pending && w.pending[op].Extending? {
        SubmitExtendKeeps(b, w, op, fault);
      }
    case PurgeExpired(keys) => PurgeKeeps(b, w, keys);
    case StoreToken(op) => StoreTokenKeeps(b, w, op);
    case BeginRelease(op, p, key) => BeginReleaseKeeps(b, w, op, p, key);
    case DropToken(op) => DropTokenKeeps(b, w, op);
    case BeginExtend(op, p, key, ttl) => BeginExtendKeeps(b, w, op, p, key, ttl);
    case Crash(p) => CrashKeeps(b, w, p);
  }

  /** The invariant holds after every list of actions. */
  lemma {:induction false} ReachableInv(b: Backend, actions: seq<Action>)
    ensures Inv(b, Exec(b, actions))
  {
    if actions != [] {
      ReachableInv(b, actions[..|actions| - 1]);
      StepKeepsInv(b, Exec(b, actions[..|actions| - 1]), actions[|actions| - 1]);
    }
  }

  // ── Exclusion ──

  /** In every reachable state at most one lease per key is in force, across all processes. */
  lemma AtMostOneHolder(b: Backend, actions: seq<Action>, key: Key,
                        p1: Process, t1: Token, p2: Process, t2: Token)
    requires var w := Exec(b, actions);
             && GrantedBefore(w.log, p1, key, t1) && InForce(b, w.log, t1, w.clock)
             && GrantedBefore(w.log, p2, key, t2) && InForce(b, w.log, t2, w.clock)
    ensures t1 == t2 && p1 == p2
  {
    ReachableInv(b, actions);
  }

  /** At most one entry is appended to the log; a grant goes in only past a row that does not block. */
  predicate LogsOne(b: Backend, w: World, w': World) {
    || w'.log == w.log
    || (|w'.log| == |w.log| + 1 && w'.log[..|w.log|] == w.log
        && var e := w'.log[|w.log|];
           e.Granted? ==> e.at == w.clock && !(e.key in w.table && Blocks(b, w.table[e.key].expiresAt, w.clock)))
  }

  lemma SubmitTryLogs(b: Backend, w: World, op: OpId, fault: Fault)
    requires op in w.pending && w.pending[op].Trying?
    ensures LogsOne(b, w, SubmitTryStep(b, w, op, fault))
  {
  }

  lemma StepLogs(b: Backend, w: World, a: Action)
    ensures LogsOne(b, w, Step(b, w, a))
  {
    match a
    case SubmitTry(op, fault) =>
      if op in w.pending && w.pending[op].Trying? {
        SubmitTryLogs(b, w, op, fault);
      }
    case _ =>
  }

  /** Over every run: when a grant on a key is logged, no earlier grant on that key is in force. */
  lemma {:induction false} GrantFindsNoneInForce(b: Backend, actions: seq<Action>, i: nat, j: nat)
    requires var log := Exec(b, actions).log;
             i < j < |log| && log[i].Granted? && log[j].Granted? && log[i].key == log[j].key
    ensures var log := Exec(b, actions).log;
            !InForce(b, log[..j], log[i].token, log[j].at)
    decreases |actions|
  {
    var shorter, last := actions[..|actions| - 1], actions[|actions| - 1];
    var before := Exec(b, shorter);
    var log := Exec(b, actions).log;
    StepLogs(b, before, last);
    if j < |before.log| {
      assert log[..j] == before.log[..j];
      GrantFindsNoneInForce(b, shorter, i, j);
    } else {
      ReachableInv(b, shorter);
      assert log[..j] == before.log && before.log[i] == log[i];
    }
  }

  /** A granted lease that is not in force was freed after its grant, or its current expiry has passed. */
  lemma {:induction false} FreedOrExpired(b: Backend, log: seq<Event>, i: nat, now: int)
    requires i < |log| && log[i].Granted?
    requires !InForce(b, log, log[i].token, now)
    ensures || (exists m :: i < m < |log| && log[m].Freed? && log[m].token == log[i].token)
            || (LeaseOf(log, log[i].token).Some? && !Blocks(b, LeaseOf(log, log[i].token).value, now))
    decreases |log|
  {
    var last := |log| - 1;
    if i < last && !Concerns(log[last], log[i].token) {
      FreedOrExpired(b, log[..last], i, now);
    }
  }

  /** Lease exclusion over every interleaving: between two grants of one key, the process that
      got the first freed it, or its lease's current expiry has passed by the second. */
  lemma LeaseExclusion(b: Backend, actions: seq<Action>, i: nat, j: nat)
    requires var log := Exec(b, actions).log;
             i < j < |log| && log[i].Granted? && log[j].Granted? && log[i].key == log[j].key
    ensures var log := Exec(b, actions).log;
            || (exists m :: i < m < j && log[m].Freed? && log[m].token == log[i].token && log[m].p == log[i].p)
            || (LeaseOf(log[..j], log[i].token).Some?
                && !Blocks(b, LeaseOf(log[..j], log[i].token).value, log[j].at))
  {
    var log := Exec(b, actions).log;
    GrantFindsNoneInForce(b, actions, i, j);
    FreedOrExpired(b, log[..j], i, log[j].at);
    ReachableInv(b, actions);
  }

  // ── Owner-only effects ──

  /** What a step may do to a row that still blocks: nothing, or what an owner's logged entry says. */
  predicate OwnerExplains(w: World, w': World, key: Key) {
    && key in w.table
    && (w'.table == w.table
        || (key in w'.table && w'.table[key] == w.table[key])
        || (&& |w'.log| == |w.log| + 1
            && var e := w'.log[|w.log|];
               && (e.Freed? || e.Renewed?) && e.key == key && e.token == w.table[key].token
               && GrantedBefore(w.log, e.p, key, e.token)
               && (e.Freed? ==> key !in w'.table)))
  }

  lemma TryIsExplained(b: Backend, w: World, op: OpId, fault: Fault, key: Key)
    requires Inv(b, w) && key in w.table && Blocks(b, w.table[key].expiresAt, w.clock)
    requires op in w.pending && w.pending[op].Trying?
    ensures OwnerExplains(w, SubmitTryStep(b, w, op, fault), key)
  {
  }

  lemma ReleaseIsExplained(b: Backend, w: World, op: OpId, fault: Fault, key: Key)
    requires Inv(b, w) && key in w.table
    requires op in w.pending && w.pending[op].Releasing?
    ensures OwnerExplains(w, SubmitReleaseStep(b, w, op, fault), key)
  {
    assert GrantedBefore(w.log, w.pending[op].p, w.pending[op].key, w.pending[op].token);
  }

  lemma ExtendIsExplained(b: Backend, w: World, op: OpId, fault: Fault, key: Key)
    requires Inv(b, w) && key in w.table
    requires op in w.pending && w.pending[op].Extending?
    ensures OwnerExplains(w, SubmitExtendStep(b, w, op, fault), key)
  {
    assert GrantedBefore(w.log, w.pending[op].p, w.pending[op].key, w.pending[op].token);
  }

  /** A row that still blocks changes or goes away only through its own process: by a release
      or an extension, carrying the row's token, of a process that was granted that token. */
  lemma OnlyTheOwnerTouchesALiveRow(b: Backend, actions: seq<Action>, a: Action, key: Key)
    requires var w := Exec(b, actions);
             && key in w.table && Blocks(b, w.table[key].expiresAt, w.clock)
             && var w' := Step(b, w, a);
                key !in w'.table || w'.table[key] != w.table[key]
    ensures var w := Exec(b, actions);
            var w' := Step(b, w, a);
            && |w'.log| == |w.log| + 1
            && var e := w'.log[|w.log|];
               && (e.Freed? || e.Renewed?) && e.key == key && e.token == w.table[key].token
               && GrantedBefore(w.log, e.p, key, e.token)
               && (e.Freed? ==> key !in w'.table)
  {
    var w := Exec(b, actions);
    ReachableInv(b, actions);
    match a
    case SubmitTry(op, fault) => TryIsExplained(b, w, op, fault, key);
    case SubmitRelease(op, fault) => ReleaseIsExplained(b, w, op, fault, key);
    case SubmitExtend(op, fault) => ExtendIsExplained(b, w, op, fault, key);
    case _ =>
  }

  /** A process whose lease was taken over: its release leaves the table alone, and its
      extension leaves the table alone and, unless the statement reports an error, is answered with a
      lost lock. */
  lemma TakenOver(b: Backend, actions: seq<Action>, op: OpId, fault: Fault, other: Process)
    requires var w := Exec(b, actions);
             && op in w.pending && w.pending[op].key in w.table
             && GrantedBefore(w.log, other, w.pending[op].key, w.table[w.pending[op].key].token)
             && other != w.pending[op].p
    ensures var w := Exec(b, actions);
            && Step(b, w, SubmitRelease(op, fault)).table == w.table
            && Step(b, w, SubmitExtend(op, fault)).table == w.table
            && (w.pending[op].Extending? ==>
                  Step(b, w, SubmitExtend(op, fault)).log
                  == if fault.NoFault?
                     then w.log + [Lost(w.pending[op].p, w.pending[op].key, w.pending[op].token, w.clock)]
                     else w.log)
  {
    ReachableInv(b, actions);
  }

  // ── Whole calls, when nothing but time comes in between ──

  function TryRun(b: Backend, w: World, op: OpId, p: Process, key: Key, ttl: int, token: Token, wait: nat, fault: Fault): World {
    var begun := Step(b, Step(b, w, BeginTry(op, p, key, ttl, token)), Advance(wait));
    Step(b, Step(b, begun, SubmitTry(op, fault)), StoreToken(op))
  }

  function ReleaseRun(b: Backend, w: World, op: OpId, p: Process, key: Key, fault: Fault): World {
    Step(b, Step(b, Step(b, w, BeginRelease(op, p, key)), SubmitRelease(op, fault)), DropToken(op))
  }

  function ExtendRun(b: Backend, w: World, op: OpId, p: Process, key: Key, ttl: int, wait: nat, fault: Fault): World {
    Step(b, Step(b, Step(b, w, BeginExtend(op, p, key, ttl)), Advance(wait)), SubmitExtend(op, fault))
  }

  lemma PutAndDrop(pending: map<OpId, Pending>, op: OpId, first: Pending, second: Pending)
    requires op !in pending
    ensures pending[op := first] - {op} == pending && pending[op := first][op := second] - {op} == pending
  {
  }

  /** A lone TryLock writes the shared row exactly when its statement takes effect and no row on the key blocks;
      the caller's own map gets the token exactly when it also learns of it. */
  lemma LoneTryLock(b: Backend, w: World, op: OpId, p: Process, key: Key, ttl: int, token: Token, wait: nat, fault: Fault)
    requires op !in w.pending && token !in w.issued
    ensures var w', now := TryRun(b, w, op, p, key, ttl, token, wait, fault), w.clock + wait;
            var wins := !Rejected(b, ttl, fault) && !(key in w.table && Blocks(b, w.table[key].expiresAt, now));
            && w'.pending == w.pending
            && w'.table == (if wins then w.table[key := Row(token, GrantExpiry(b, w.clock, now, ttl))] else w.table)
            && w'.held == (if wins && fault.NoFault? then w.held[(p, key) := token] else w.held)
  {
    PutAndDrop(w.pending, op, Trying(p, key, token, w.clock, ttl), Won(p, key, token));
  }

  /** A lone Release deletes the row exactly when its statement takes effect and the row is still its own; the
      token is forgotten exactly when the caller also learns of it. */
  lemma LoneRelease(b: Backend, w: World, op: OpId, p: Process, key: Key, fault: Fault)
    requires op !in w.pending && (p, key) in w.held
    ensures var w' := ReleaseRun(b, w, op, p, key, fault);
            var deleted := !fault.FailedBefore? && Sees(b, w.table, key, w.held[(p, key)], w.clock);
            && w'.pending == w.pending
            && w'.table == (if deleted then w.table - {key} else w.table)
            && w'.held == (if deleted && fault.NoFault? then w.held - {(p, key)} else w.held)
  {
    PutAndDrop(w.pending, op, Releasing(p, key, w.held[(p, key)]), Dropping(p, key));
  }

  /** A lone Extend moves the row's expiry exactly when its statement takes effect and the row is still its own;
      it leaves every other row and the caller's map alone. */
  lemma LoneExtend(b: Backend, w: World, op: OpId, p: Process, key: Key, ttl: int, wait: nat, fault: Fault)
    requires op !in w.pending && (p, key) in w.held
    ensures var w', now := ExtendRun(b, w, op, p, key, ttl, wait, fault), w.clock + wait;
            var token, expiresAt := w.held[(p, key)], RenewExpiry(b, w.clock, now, ttl);
            && w'.pending == w.pending && w'.held == w.held
            && w'.table == (if fault.FailedBefore? || !Sees(b, w.table, key, token, now) then w.table
                            else if b.Redis? && expiresAt <= now then w.table - {key}
                            else w.table[key := Row(token, Some(expiresAt))])
            && (fault.NoFault? ==> |w'.log| == |w.log| + 1
                                   && (w'.log[|w.log|].Renewed? <==> Sees(b, w.table, key, token, now))
                                   && (w'.log[|w.log|].Lost? <==> !Sees(b, w.table, key, token, now)))
  {
    var first := Extending(p, key, w.held[(p, key)], w.clock, ttl);
    PutAndDrop(w.pending, op, first, first);
  }
}
