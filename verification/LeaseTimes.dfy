/** How long a lease lasts, in plain arithmetic on the clock readings of the calls that made it, over every
    interleaving of all processes. */
module LeaseTimes {
  import opened Common
  import opened LeaseRuns

  // ── The clock, and where stamps come from ──

  function Elapsed(actions: seq<Action>): nat {
    if actions == [] then 0
    else
      var a := actions[|actions| - 1];
      Elapsed(actions[..|actions| - 1]) + if a.Advance? then a.dt else 0
  }

  lemma {:induction false} ClockIsElapsed(b: Backend, actions: seq<Action>)
    ensures Exec(b, actions).clock == Elapsed(actions)
  {
    if actions != [] {
      ClockIsElapsed(b, actions[..|actions| - 1]);
    }
  }

  /** The call was begun by the action at a, at the moment of its stamp. */
  predicate Begun(actions: seq<Action>, a: nat, p: Process, key: Key, ttl: int, token: Option<Token>, stamp: int) {
    && a < |actions| && stamp == Elapsed(actions[..a])
    && match token
       case Some(t) => actions[a].BeginTry? && actions[a].p == p && actions[a].key == key && actions[a].ttl == ttl
                       && actions[a].token == t
       case None => actions[a].BeginExtend? && actions[a].p == p && actions[a].key == key && actions[a].ttl == ttl
  }

  ghost predicate WasBegun(actions: seq<Action>, p: Process, key: Key, ttl: int, token: Option<Token>, stamp: int) {
    exists a: nat :: Begun(actions, a, p, key, ttl, token, stamp)
  }

  /** An expiry in numbers: a PostgreSQL lease runs from the stamp; a Redis lease from the moment of the
      statement, without end when granted for no time. */
  predicate ExpiryInNumbers(b: Backend, e: Event) {
    && (e.Granted? && b.Postgres? ==> e.expiresAt == Some(e.stamp + e.ttl))
    && (e.Granted? && b.Redis? && e.ttl == 0 ==> e.expiresAt == None)
    && (e.Granted? && b.Redis? && e.ttl != 0 ==> e.ttl > 0 && e.expiresAt == Some(e.at + e.ttl))
    && (e.Renewed? && b.Postgres? ==> e.expiresAt == Some(e.stamp + e.ttl))
    && (e.Renewed? && b.Redis? ==> e.expiresAt == Some(e.at + e.ttl))
  }

  ghost predicate Timed(b: Backend, actions: seq<Action>, e: Event) {
    && ExpiryInNumbers(b, e)
    && (e.Granted? ==> WasBegun(actions, e.p, e.key, e.ttl, Some(e.token), e.stamp))
    && (e.Renewed? ==> WasBegun(actions, e.p, e.key, e.ttl, None, e.stamp))
  }

  ghost predicate PendingTimed(actions: seq<Action>, c: Pending) {
    && (c.Trying? ==> WasBegun(actions, c.p, c.key, c.ttl, Some(c.token), c.stamp))
    && (c.Extending? ==> WasBegun(actions, c.p, c.key, c.ttl, None, c.stamp))
  }

  ghost predicate AllTimed(b: Backend, actions: seq<Action>, w: World) {
    && (forall op :: op in w.pending ==> PendingTimed(actions, w.pending[op]))
    && (forall i :: 0 <= i < |w.log| ==> Timed(b, actions, w.log[i]))
  }

  lemma BegunStays(actions: seq<Action>, a: Action, p: Process, key: Key, ttl: int, token: Option<Token>, stamp: int)
    requires WasBegun(actions, p, key, ttl, token, stamp)
    ensures WasBegun(actions + [a], p, key, ttl, token, stamp)
  {
    var i: nat :| Begun(actions, i, p, key, ttl, token, stamp);
    assert (actions + [a])[..i] == actions[..i];
    assert Begun(actions + [a], i, p, key, ttl, token, stamp);
  }

  lemma TimedStays(b: Backend, actions: seq<Action>, w: World, a: Action)
    requires AllTimed(b, actions, w)
    ensures AllTimed(b, actions + [a], w)
  {
    forall op | op in w.pending ensures PendingTimed(actions + [a], w.pending[op]) {
      var c := w.pending[op];
      assert PendingTimed(actions, c);
      if c.Trying? {
        BegunStays(actions, a, c.p, c.key, c.ttl, Some(c.token), c.stamp);
      } else if c.Extending? {
        BegunStays(actions, a, c.p, c.key, c.ttl, None, c.stamp);
      }
    }
    forall i | 0 <= i < |w.log| ensures Timed(b, actions + [a], w.log[i]) {
      var e := w.log[i];
      assert Timed(b, actions, e);
      if e.Granted? {
        BegunStays(actions, a, e.p, e.key, e.ttl, Some(e.token), e.stamp);
      } else if e.Renewed? {
        BegunStays(actions, a, e.p, e.key, e.ttl, None, e.stamp);
      }
    }
  }

  lemma BeginningIsTimed(b: Backend, actions: seq<Action>, a: Action)
    requires AllTimed(b, actions + [a], Exec(b, actions)) && (a.BeginTry? || a.BeginExtend?)
    ensures AllTimed(b, actions + [a], Step(b, Exec(b, actions), a))
  {
    ClockIsElapsed(b, actions);
    assert (actions + [a])[..|actions|] == actions;
    assert Begun(actions + [a], |actions|, a.p, a.key, a.ttl, if a.BeginTry? then Some(a.token) else None,
                 Exec(b, actions).clock);
  }

  lemma SubmittedTryIsTimed(b: Backend, actions: seq<Action>, w: World, op: OpId, fault: Fault)
    requires AllTimed(b, actions, w) && op in w.pending && w.pending[op].Trying?
    ensures AllTimed(b, actions, SubmitTryStep(b, w, op, fault))
  {
    assert PendingTimed(actions, w.pending[op]);
  }

  lemma SubmittedReleaseIsTimed(b: Backend, actions: seq<Action>, w: World, op: OpId, fault: Fault)
    requires AllTimed(b, actions, w) && op in w.pending && w.pending[op].Releasing?
    ensures AllTimed(b, actions, SubmitReleaseStep(b, w, op, fault))
  {
  }

  lemma SubmittedExtendIsTimed(b: Backend, actions: seq<Action>, w: World, op: OpId, fault: Fault)
    requires AllTimed(b, actions, w) && op in w.pending && w.pending[op].Extending?
    ensures AllTimed(b, actions, SubmitExtendStep(b, w, op, fault))
  {
    assert PendingTimed(actions, w.pending[op]);
  }

  lemma StepIsTimed(b: Backend, actions: seq<Action>, a: Action)
    requires AllTimed(b, actions + [a], Exec(b, actions))
    ensures AllTimed(b, actions + [a], Step(b, Exec(b, actions), a))
  {
    var w := Exec(b, actions);
    match a
    case BeginTry(_, _, _, _, _) => BeginningIsTimed(b, actions, a);
    case BeginExtend(_, _, _, _) => BeginningIsTimed(b, actions, a);
    case SubmitTry(op, fault) =>
      if op in w.pending && w.pending[op].Trying? {
        SubmittedTryIsTimed(b, actions + [a], w, op, fault);
      }
    case SubmitRelease(op, fault) =>
      if op in w.pending && w.pending[op].Releasing? {
        SubmittedReleaseIsTimed(b, actions + [a], w, op, fault);
      }
    case SubmitExtend(op, fault) =>
      if op in w.pending && w.pending[op].Extending? {
        SubmittedExtendIsTimed(b, actions + [a], w, op, fault);
      }
    case _ =>
  }

  /** Over every run: each grant and each extension expires its time to live after its stamp (PostgreSQL) or its
      statement (Redis), and its stamp is the clock at the action that began the call. */
  lemma {:induction false} EveryExpiryInNumbers(b: Backend, actions: seq<Action>)
    ensures AllTimed(b, actions, Exec(b, actions))
  {
    if actions != [] {
      var init, a := actions[..|actions| - 1], actions[|actions| - 1];
      EveryExpiryInNumbers(b, init);
      TimedStays(b, init, Exec(b, init), a);
      assert init + [a] == actions;
      StepIsTimed(b, init, a);
    }
  }

  // ── How long others are kept out ──

  /** Nothing about the token between two entries of the log. */
  predicate Untouched(log: seq<Event>, i: nat, j: nat, token: Token)
    requires j <= |log|
  {
    forall m :: i < m < j ==> !((log[m].Granted? || log[m].Freed? || log[m].Renewed?) && log[m].token == token)
  }

  lemma {:induction false} LeaseUntouched(log: seq<Event>, i: nat, j: nat)
    requires i < j <= |log| && (log[i].Granted? || log[i].Renewed?) && Untouched(log, i, j, log[i].token)
    ensures LeaseOf(log[..j], log[i].token) == Some(log[i].expiresAt)
  {
    assert log[..j][..j - 1] == log[..j - 1] && log[..j][j - 1] == log[j - 1];
    if i < j - 1 {
      LeaseUntouched(log, i, j - 1);
    }
  }

  /** The entry a step adds to the log, if it is a grant or an extension. */
  predicate Adds(b: Backend, w: World, a: Action, e: Event) {
    Step(b, w, a).log == w.log + [e] && (e.Granted? || e.Renewed?)
  }

  lemma AddedBySubmit(b: Backend, w: World, a: Action, e: Event)
    requires Adds(b, w, a, e)
    ensures (a.SubmitTry? || a.SubmitExtend?) && a.op in w.pending
    ensures e.Granted? ==> w.pending[a.op].Trying? && w.pending[a.op].token == e.token
    ensures e.Renewed? ==> w.pending[a.op].Extending? && w.pending[a.op].token == e.token && w.pending[a.op].key == e.key
  {
    assert Step(b, w, a).log[|w.log|] == e;
  }

  lemma LastEntry(b: Backend, actions: seq<Action>, j: nat)
    requires actions != []
    requires var log := Exec(b, actions).log; j < |log| && (log[j].Granted? || log[j].Renewed?)
    ensures var before, log := Exec(b, actions[..|actions| - 1]), Exec(b, actions).log;
            && before.log <= log
            && (j >= |before.log| ==> j == |before.log| && Adds(b, before, actions[|actions| - 1], log[j]))
  {
    var before, a := Exec(b, actions[..|actions| - 1]), actions[|actions| - 1];
    StepLogs(b, before, a);
    var log := Exec(b, actions).log;
    if j >= |before.log| {
      assert log == before.log + [log[j]];
    }
  }

  /** A token is granted only once. */
  lemma {:induction false} GrantedOnce(b: Backend, actions: seq<Action>, i: nat, j: nat)
    requires i < j < |Exec(b, actions).log|
    requires Exec(b, actions).log[i].Granted? && Exec(b, actions).log[j].Granted?
    ensures Exec(b, actions).log[i].token != Exec(b, actions).log[j].token
  {
    var init, a := actions[..|actions| - 1], actions[|actions| - 1];
    var before, log := Exec(b, init), Exec(b, actions).log;
    LastEntry(b, actions, j);
    if j < |before.log| {
      assert log[i] == before.log[i] && log[j] == before.log[j];
      GrantedOnce(b, init, i, j);
    } else {
      ReachableInv(b, init);
      AddedBySubmit(b, before, a, log[j]);
      assert before.log[i] == log[i];
    }
  }

  /** An extension has its grant before it. */
  lemma {:induction false} FirstGrant(b: Backend, actions: seq<Action>, i: nat) returns (g: nat)
    requires i < |Exec(b, actions).log| && (Exec(b, actions).log[i].Granted? || Exec(b, actions).log[i].Renewed?)
    ensures var log := Exec(b, actions).log;
            g <= i && log[g].Granted? && log[g].token == log[i].token && log[g].key == log[i].key
  {
    var init, a := actions[..|actions| - 1], actions[|actions| - 1];
    var before, log := Exec(b, init), Exec(b, actions).log;
    LastEntry(b, actions, i);
    if i < |before.log| {
      assert log[i] == before.log[i];
      g := FirstGrant(b, init, i);
      assert log[g] == before.log[g];
    } else if log[i].Granted? {
      g := i;
    } else {
      ReachableInv(b, init);
      AddedBySubmit(b, before, a, log[i]);
      g := GrantOfPending(before, a.op);
      assert log[g] == before.log[g];
    }
  }

  lemma GrantOfPending(w: World, op: OpId) returns (g: nat)
    requires FreshTokens(w) && op in w.pending && w.pending[op].Extending?
    ensures g < |w.log| && w.log[g].Granted? && w.log[g].key == w.pending[op].key && w.log[g].token == w.pending[op].token
  {
    var c := w.pending[op];
    assert GrantedBefore(w.log, c.p, c.key, c.token);
    g :| 0 <= g < |w.log| && w.log[g].Granted? && w.log[g].p == c.p && w.log[g].key == c.key && w.log[g].token == c.token;
  }

  lemma LeaseHasRunOut(b: Backend, actions: seq<Action>, i: nat, j: nat)
    requires var log := Exec(b, actions).log;
             && i < j < |log| && (log[i].Granted? || log[i].Renewed?) && log[j].Granted? && log[i].key == log[j].key
             && forall m :: i < m < j ==> !((log[m].Freed? || log[m].Renewed?) && log[m].token == log[i].token)
    ensures var log := Exec(b, actions).log; !Blocks(b, log[i].expiresAt, log[j].at)
  {
    var log := Exec(b, actions).log;
    var g := FirstGrant(b, actions, i);
    forall m | i < m < j && log[m].Granted? ensures log[m].token != log[i].token {
      GrantedOnce(b, actions, g, m);
    }
    assert Untouched(log, i, j, log[i].token);
    LeaseUntouched(log, i, j);
    ReachableInv(b, actions);
    GrantFindsNoneInForce(b, actions, g, j);
  }

  /** The grant or extension at i keeps everyone out: as long as nothing releases or extends it, the next grant on
      its key comes after stamp + ttl in PostgreSQL. */
  lemma PostgresKeepsOut(actions: seq<Action>, i: nat, j: nat)
    requires var log := Exec(Postgres, actions).log;
             && i < j < |log| && (log[i].Granted? || log[i].Renewed?) && log[j].Granted? && log[i].key == log[j].key
             && forall m :: i < m < j ==> !((log[m].Freed? || log[m].Renewed?) && log[m].token == log[i].token)
    ensures var log := Exec(Postgres, actions).log;
            log[j].at > log[i].stamp + log[i].ttl
  {
    var log := Exec(Postgres, actions).log;
    EveryExpiryInNumbers(Postgres, actions);
    assert Timed(Postgres, actions, log[i]);
    LeaseHasRunOut(Postgres, actions, i, j);
  }

  /** In Redis it comes no earlier than the statement's moment plus ttl, and never after a grant for no time. */
  lemma RedisKeepsOut(actions: seq<Action>, i: nat, j: nat)
    requires var log := Exec(Redis, actions).log;
             && i < j < |log| && (log[i].Granted? || log[i].Renewed?) && log[j].Granted? && log[i].key == log[j].key
             && forall m :: i < m < j ==> !((log[m].Freed? || log[m].Renewed?) && log[m].token == log[i].token)
    ensures var log := Exec(Redis, actions).log;
            log[j].at >= log[i].at + log[i].ttl && (log[i].Granted? ==> log[i].ttl > 0)
  {
    var log := Exec(Redis, actions).log;
    EveryExpiryInNumbers(Redis, actions);
    assert Timed(Redis, actions, log[i]);
    LeaseHasRunOut(Redis, actions, i, j);
  }

  /** A grant or extension has not run out: in PostgreSQL up to and including stamp + ttl, in Redis before its
      moment plus ttl, or at all when granted for no time. */
  predicate StillRuns(b: Backend, e: Event, clock: int)
    requires e.Granted? || e.Renewed?
  {
    if b.Postgres? then clock <= e.stamp + e.ttl
    else (e.Granted? && e.ttl == 0) || clock < e.at + e.ttl
  }

  lemma StillRunsMeans(b: Backend, actions: seq<Action>, i: nat, now: int)
    requires var log := Exec(b, actions).log; i < |log| && (log[i].Granted? || log[i].Renewed?)
    ensures var log := Exec(b, actions).log;
            StillRuns(b, log[i], now) <==> Blocks(b, log[i].expiresAt, now)
  {
    EveryExpiryInNumbers(b, actions);
    assert Timed(b, actions, Exec(b, actions).log[i]);
  }

  /** At any moment of any run at most one process holds a key: two grants or extensions on it that nothing has
      released or extended since, and that still run, are of one token. */
  lemma OneHolderInNumbers(b: Backend, actions: seq<Action>, i: nat, j: nat)
    requires var w := Exec(b, actions);
             && i < |w.log| && j < |w.log| && w.log[i].key == w.log[j].key
             && (w.log[i].Granted? || w.log[i].Renewed?) && (w.log[j].Granted? || w.log[j].Renewed?)
             && Untouched(w.log, i, |w.log|, w.log[i].token) && Untouched(w.log, j, |w.log|, w.log[j].token)
             && StillRuns(b, w.log[i], w.clock) && StillRuns(b, w.log[j], w.clock)
    ensures Exec(b, actions).log[i].token == Exec(b, actions).log[j].token
  {
    ReachableInv(b, actions);
    var w := Exec(b, actions);
    assert w.log[..|w.log|] == w.log;
    LeaseUntouched(w.log, i, |w.log|);
    LeaseUntouched(w.log, j, |w.log|);
    StillRunsMeans(b, actions, i, w.clock);
    StillRunsMeans(b, actions, j, w.clock);
  }

  /** A row that has not expired, by the clock, changes or goes away only by a release or an extension that
      carries its token, of a process that was granted that token. */
  lemma OwnerInNumbers(b: Backend, actions: seq<Action>, a: Action, key: Key)
    requires var w := Exec(b, actions);
             && key in w.table
             && (match w.table[key].expiresAt
                 case None => true
                 case Some(e) => if b.Postgres? then w.clock <= e else w.clock < e)
             && var w' := Step(b, w, a);
                key !in w'.table || w'.table[key] != w.table[key]
    ensures var w := Exec(b, actions);
            var w' := Step(b, w, a);
            && |w'.log| == |w.log| + 1
            && var e := w'.log[|w.log|];
               && (e.Freed? || e.Renewed?) && e.key == key && e.token == w.table[key].token
               && exists g :: 0 <= g < |w.log| && w.log[g].Granted? && w.log[g].p == e.p && w.log[g].token == e.token
  {
    OnlyTheOwnerTouchesALiveRow(b, actions, a, key);
  }
}
