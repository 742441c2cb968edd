/** The in-memory cache with a time to live: Get looks up under one lock section and removes an
    expired entry under another, the sweep reads the clock before it takes the lock, and all
    sections of all calls interleave freely. */
module CacheRuns {
  import opened Common

  type Key = string
  type Value = nat
  type OpId = nat

  datatype Entry = Entry(value: Value, expires: int)

  type Store = map<Key, Entry>

  /** The capacity after defaults; never less than one. */
  function MaxCapacity(configured: int): (n: nat)
    ensures n >= 1 && (configured > 0 ==> n == configured) && (configured <= 0 ==> n == 65535)
  {
    if configured <= 0 then 65535 else configured
  }

  /** The store with room for one more entry: when full, one entry of whatever key goes. */
  function Evicted(store: Store, maxCap: nat, victim: Key): Store {
    if |store| >= maxCap then store - {victim} else store
  }

  /** The sweep's lock section, with the clock reading made before it. */
  function Swept(store: Store, now: int): Store {
    map k | k in store && now <= store[k].expires :: store[k]
  }

  datatype Pending =
    | Looked(key: Key, found: Option<Entry>, readAt: nat)   // Get, after its lookup section
    | Stale(key: Key, entry: Entry, readAt: nat)            // Get, before its removal section
    | Sweeping(now: int)

  /** What the calls did, in order. `readAt` is how much of the log there was at the lookup. */
  datatype Event =
    | DidSet(key: Key, entry: Entry, at: int)
    | DidDelete(key: Key)
    | DidClear
    | Looked(key: Key)
    | Hit(key: Key, value: Value, readAt: nat, checkedAt: int)
    | Miss(key: Key, readAt: nat)
    | Removed(key: Key)
    | GaveWay(key: Key)
    | DidSweep(now: int)

  datatype World = World(clock: int, maxCap: nat, store: Store, pending: map<OpId, Pending>, log: seq<Event>)

  datatype Action =
    | Advance(dt: nat)
    | Set(key: Key, value: Value, ttl: int, victim: Key)
    | Delete(key: Key)
    | Clear
    | Lookup(op: OpId, key: Key)
    | Answer(op: OpId)
    | Remove(op: OpId)
    | BeginSweep(op: OpId)
    | Sweep(op: OpId)

  /** One lock section, or one step between lock sections. An eviction picks any key of the store. */
  function Step(w: World, a: Action): World {
    match a
    case Advance(dt) => w.(clock := w.clock + dt)
    case Set(key, value, ttl, victim) =>
      if |w.store| >= w.maxCap && victim !in w.store then w
      else
        var entry := Entry(value, w.clock + ttl);
        var evictions := if |w.store| >= w.maxCap then [GaveWay(victim)] else [];
        w.(store := Evicted(w.store, w.maxCap, victim)[key := entry],
           log := w.log + evictions + [DidSet(key, entry, w.clock)])
    case Delete(key) => w.(store := w.store - {key}, log := w.log + [DidDelete(key)])
    case Clear => w.(store := map[], log := w.log + [DidClear])
    case Lookup(op, key) =>
      if op in w.pending then w
      else
        var found := if key in w.store then Some(w.store[key]) else None;
        w.(pending := w.pending[op := Pending.Looked(key, found, |w.log|)], log := w.log + [Event.Looked(key)])
    case Answer(op) =>
      if op !in w.pending || !w.pending[op].Looked? then w
      else
        var c := w.pending[op];
        if c.found.None? then w.(pending := w.pending - {op}, log := w.log + [Miss(c.key, c.readAt)])
        else if w.clock > c.found.value.expires then w.(pending := w.pending[op := Stale(c.key, c.found.value, c.readAt)])
        else w.(pending := w.pending - {op}, log := w.log + [Hit(c.key, c.found.value.value, c.readAt, w.clock)])
    case Remove(op) =>
      if op !in w.pending || !w.pending[op].Stale? then w
      else
        var key := w.pending[op].key;
        w.(store := w.store - {key}, pending := w.pending - {op}, log := w.log + [Removed(key)])
    case BeginSweep(op) =>
      if op in w.pending then w else w.(pending := w.pending[op := Sweeping(w.clock)])
    case Sweep(op) =>
      if op !in w.pending || !w.pending[op].Sweeping? then w
      else
        var now := w.pending[op].now;
        w.(store := Swept(w.store, now), pending := w.pending - {op}, log := w.log + [DidSweep(now)])
  }

  function Exec(maxCap: nat, actions: seq<Action>): World {
    if actions == [] then World(0, maxCap, map[], map[], [])
    else Step(Exec(maxCap, actions[..|actions| - 1]), actions[|actions| - 1])
  }

  /** The last word on a key among Set, Delete and Clear. */
  function LastWrite(log: seq<Event>, key: Key): Option<Entry> {
    if log == [] then None
    else
      match log[|log| - 1]
      case DidSet(k, entry, _) => if k == key then Some(entry) else LastWrite(log[..|log| - 1], key)
      case DidDelete(k) => if k == key then None else LastWrite(log[..|log| - 1], key)
      case DidClear => None
      case _ => LastWrite(log[..|log| - 1], key)
  }

  /** What the log leaves under a key: the last write, unless something took it away since. */
  function Contents(log: seq<Event>, key: Key): Option<Entry> {
    if log == [] then None else NextContents(Contents(log[..|log| - 1], key), log[|log| - 1], key)
  }

  function NextContents(before: Option<Entry>, e: Event, key: Key): Option<Entry> {
    match e
    case DidSet(k, entry, _) => if k == key then Some(entry) else before
    case DidDelete(k) => if k == key then None else before
    case Removed(k) => if k == key then None else before
    case GaveWay(k) => if k == key then None else before
    case DidClear => None
    case DidSweep(now) => if before.Some? && now > before.value.expires then None else before
    case _ => before
  }

  // ── The invariant ──

  function StoredIn(store: Store, key: Key): Option<Entry> {
    if key in store then Some(store[key]) else None
  }

  /** The store is what the log leaves. */
  ghost predicate StoreIsContents(w: World) {
    forall key: Key :: Contents(w.log, key) == StoredIn(w.store, key)
  }

  predicate LookupsRead(w: World) {
    forall op :: op in w.pending && w.pending[op].Looked? ==>
      var c := w.pending[op];
      && c.readAt < |w.log|
      && w.log[c.readAt] == Event.Looked(c.key)
      && c.found == Contents(w.log[..c.readAt], c.key)
  }

  /** An entry on its way to be removed was there at the lookup, and has expired. */
  predicate StaleExpired(w: World) {
    forall op :: op in w.pending && w.pending[op].Stale? ==>
      var c := w.pending[op];
      c.readAt <= |w.log| && Contents(w.log[..c.readAt], c.key) == Some(c.entry) && c.entry.expires < w.clock
  }

  /** Sweeps go by clock readings of the past. */
  predicate SweepsPast(w: World) {
    && (forall op :: op in w.pending && w.pending[op].Sweeping? ==> w.pending[op].now <= w.clock)
    && (forall i :: 0 <= i < |w.log| && w.log[i].DidSweep? ==> w.log[i].now <= w.clock)
  }

  /** An answer of Get goes by what was there at its lookup. */
  predicate AnswerJustified(log: seq<Event>, i: nat)
    requires i < |log| && (log[i].Hit? || log[i].Miss?)
  {
    && log[i].readAt < i
    && log[log[i].readAt] == Event.Looked(log[i].key)
    && var found := Contents(log[..log[i].readAt], log[i].key);
       && (log[i].Miss? ==> found == None)
       && (log[i].Hit? ==> found.Some? && found.value.value == log[i].value && log[i].checkedAt <= found.value.expires)
  }

  predicate AnswersJustified(log: seq<Event>) {
    forall i :: 0 <= i < |log| && (log[i].Hit? || log[i].Miss?) ==> AnswerJustified(log, i)
  }

  ghost predicate Inv(w: World) {
    && StoreIsContents(w) && LookupsRead(w) && StaleExpired(w) && SweepsPast(w) && AnswersJustified(w.log)
    && |w.store| <= w.maxCap
  }

  lemma ContentsAfter(log: seq<Event>, e: Event, key: Key)
    ensures Contents(log + [e], key) == NextContents(Contents(log, key), e, key)
  {
    assert (log + [e])[..|log|] == log;
  }

  /** Logging one more event leaves pending lookups and earlier answers justified. */
  lemma LogGrows(w: World, e: Event)
    requires LookupsRead(w) && StaleExpired(w) && SweepsPast(w) && AnswersJustified(w.log)
    requires e.Hit? || e.Miss? ==> AnswerJustified(w.log + [e], |w.log|)
    requires e.DidSweep? ==> e.now <= w.clock
    ensures var w' := w.(log := w.log + [e]);
            LookupsRead(w') && StaleExpired(w') && SweepsPast(w') && AnswersJustified(w'.log)
  {
    var log' := w.log + [e];
    forall i | 0 <= i <= |w.log| ensures log'[..i] == w.log[..i] {
    }
    forall i | 0 <= i < |log'| && (log'[i].Hit? || log'[i].Miss?) ensures AnswerJustified(log', i) {
      assert i < |w.log| ==> AnswerJustified(w.log, i);
    }
  }

  /** The store after an event is what the event makes of it. */
  lemma ContentsGrow(w: World, store: Store, e: Event)
    requires StoreIsContents(w)
    requires forall key: Key :: StoredIn(store, key) == NextContents(StoredIn(w.store, key), e, key)
    ensures StoreIsContents(w.(store := store, log := w.log + [e]))
  {
    forall key: Key ensures Contents(w.log + [e], key) == StoredIn(store, key) {
      ContentsAfter(w.log, e, key);
    }
  }

  lemma SmallerStore(small: Store, large: Store)
    requires forall k :: k in small ==> k in large
    ensures |small| <= |large|
  {
    assert small.Keys <= large.Keys;
    SubsetSize(small.Keys, large.Keys);
  }

  lemma {:induction false} SubsetSize(small: set<Key>, large: set<Key>)
    requires small <= large
    ensures |small| <= |large|
  {
    if small != {} {
      var k :| k in small;
      SubsetSize(small - {k}, large - {k});
    }
  }

  lemma RoomForOne(store: Store, maxCap: nat, victim: Key, key: Key, entry: Entry)
    requires maxCap >= 1 && |store| <= maxCap && (|store| >= maxCap ==> victim in store)
    ensures |Evicted(store, maxCap, victim)[key := entry]| <= maxCap
  {
    var room := Evicted(store, maxCap, victim);
    assert room.Keys == if |store| >= maxCap then store.Keys - {victim} else store.Keys;
    assert |room.Keys| == |room| && |store.Keys| == |store|;
    assert room[key := entry].Keys == room.Keys + {key};
    assert |room[key := entry].Keys| == |room[key := entry]|;
  }

  /** A step that logs one event, which says what becomes of the store, and ends or begins nothing but calls. */
  lemma LoggedStep(w: World, store: Store, e: Event, pending: map<OpId, Pending>)
    requires Inv(w) && |store| <= w.maxCap
    requires forall key: Key :: StoredIn(store, key) == NextContents(StoredIn(w.store, key), e, key)
    requires e.Hit? || e.Miss? ==> AnswerJustified(w.log + [e], |w.log|)
    requires e.DidSweep? ==> e.now <= w.clock
    requires forall op :: op in pending ==> op in w.pending && pending[op] == w.pending[op]
    ensures Inv(w.(store := store, log := w.log + [e], pending := pending))
  {
    LogGrows(w, e);
    ContentsGrow(w, store, e);
  }

  lemma EvictionKeeps(w: World, victim: Key)
    requires Inv(w)
    ensures Inv(w.(store := w.store - {victim}, log := w.log + [GaveWay(victim)]))
  {
    SmallerStore(w.store - {victim}, w.store);
    LoggedStep(w, w.store - {victim}, GaveWay(victim), w.pending);
  }

  lemma PutKeeps(w: World, key: Key, entry: Entry)
    requires Inv(w) && |w.store[key := entry]| <= w.maxCap
    ensures Inv(w.(store := w.store[key := entry], log := w.log + [DidSet(key, entry, w.clock)]))
  {
    LoggedStep(w, w.store[key := entry], DidSet(key, entry, w.clock), w.pending);
  }

  /** A Set is an eviction when the store is full, and then a put. */
  lemma SetGives(w: World, key: Key, value: Value, ttl: int, victim: Key)
    requires |w.store| >= w.maxCap ==> victim in w.store
    ensures var entry := Entry(value, w.clock + ttl);
            var room := if |w.store| < w.maxCap then w
                        else w.(store := w.store - {victim}, log := w.log + [GaveWay(victim)]);
            Step(w, Set(key, value, ttl, victim)) ==
              room.(store := room.store[key := entry], log := room.log + [DidSet(key, entry, w.clock)])
  {
    assert w.log + [] == w.log;
  }

  lemma SetKeeps(w: World, key: Key, value: Value, ttl: int, victim: Key)
    requires Inv(w) && w.maxCap >= 1
    ensures Inv(Step(w, Set(key, value, ttl, victim)))
  {
    if |w.store| >= w.maxCap && victim !in w.store {
      return;
    }
    var entry := Entry(value, w.clock + ttl);
    SetGives(w, key, value, ttl, victim);
    RoomForOne(w.store, w.maxCap, victim, key, entry);
    if |w.store| < w.maxCap {
      PutKeeps(w, key, entry);
    } else {
      EvictionKeeps(w, victim);
      PutKeeps(w.(store := w.store - {victim}, log := w.log + [GaveWay(victim)]), key, entry);
    }
  }

  lemma LookupKeeps(w: World, op: OpId, key: Key)
    requires Inv(w)
    ensures Inv(Step(w, Lookup(op, key)))
  {
    LoggedStep(w, w.store, Event.Looked(key), w.pending);
    assert (w.log + [Event.Looked(key)])[..|w.log|] == w.log;
  }

  lemma AnswerKeeps(w: World, op: OpId)
    requires Inv(w)
    ensures Inv(Step(w, Answer(op)))
  {
    if op !in w.pending || !w.pending[op].Looked? {
      return;
    }
    var c := w.pending[op];
    if c.found.Some? && w.clock > c.found.value.expires {
      return;
    }
    var e := if c.found.None? then Miss(c.key, c.readAt) else Hit(c.key, c.found.value.value, c.readAt, w.clock);
    assert (w.log + [e])[..c.readAt] == w.log[..c.readAt];
    LoggedStep(w, w.store, e, w.pending - {op});
  }

  lemma DeleteKeeps(w: World, key: Key)
    requires Inv(w)
    ensures Inv(Step(w, Delete(key)))
  {
    SmallerStore(w.store - {key}, w.store);
    LoggedStep(w, w.store - {key}, DidDelete(key), w.pending);
  }

  lemma ClearKeeps(w: World)
    requires Inv(w)
    ensures Inv(Step(w, Clear))
  {
    LoggedStep(w, map[], DidClear, w.pending);
  }

  lemma RemoveKeeps(w: World, op: OpId)
    requires Inv(w)
    ensures Inv(Step(w, Remove(op)))
  {
    if op in w.pending && w.pending[op].Stale? {
      var key := w.pending[op].key;
      SmallerStore(w.store - {key}, w.store);
      LoggedStep(w, w.store - {key}, Removed(key), w.pending - {op});
    }
  }

  lemma SweepKeeps(w: World, op: OpId)
    requires Inv(w)
    ensures Inv(Step(w, Sweep(op)))
  {
    if op in w.pending && w.pending[op].Sweeping? {
      var now := w.pending[op].now;
      SmallerStore(Swept(w.store, now), w.store);
      LoggedStep(w, Swept(w.store, now), DidSweep(now), w.pending - {op});
    }
  }

  lemma ClockKeeps(w: World, dt: nat, op: OpId)
    requires Inv(w)
    ensures Inv(Step(w, Advance(dt))) && Inv(Step(w, BeginSweep(op)))
  {
  }

  lemma StepKeepsInv(w: World, a: Action)
    requires Inv(w) && w.maxCap >= 1
    ensures Inv(Step(w, a))
  {
    match a
    case Advance(dt) => ClockKeeps(w, dt, 0);
    case Set(key, value, ttl, victim) => SetKeeps(w, key, value, ttl, victim);
    case Delete(key) => DeleteKeeps(w, key);
    case Clear => ClearKeeps(w);
    case Lookup(op, key) => LookupKeeps(w, op, key);
    case Answer(op) => AnswerKeeps(w, op);
    case Remove(op) => RemoveKeeps(w, op);
    case BeginSweep(op) => ClockKeeps(w, 0, op);
    case Sweep(op) => SweepKeeps(w, op);
  }

  lemma {:induction false} ReachableInv(maxCap: nat, actions: seq<Action>)
    requires maxCap >= 1
    ensures Inv(Exec(maxCap, actions)) && Exec(maxCap, actions).maxCap == maxCap
  {
    if actions != [] {
      ReachableInv(maxCap, actions[..|actions| - 1]);
      StepKeepsInv(Exec(maxCap, actions[..|actions| - 1]), actions[|actions| - 1]);
    }
  }

  // ── The claims ──

  lemma AnswerGives(w: World, op: OpId, key: Key, found: Option<Entry>, r: nat)
    requires op in w.pending && w.pending[op] == Pending.Looked(key, found, r)
    ensures Step(w, Answer(op))
         == if found.Some? && w.clock > found.value.expires
            then w.(pending := w.pending[op := Stale(key, found.value, r)])
            else w.(pending := w.pending - {op},
                    log := w.log + [if found.None? then Miss(key, r) else Hit(key, found.value.value, r, w.clock)])
  {
  }

  lemma RemoveGives(w: World, op: OpId)
    ensures Step(w, Remove(op))
         == if op !in w.pending || !w.pending[op].Stale? then w
            else w.(store := w.store - {w.pending[op].key}, pending := w.pending - {op},
                    log := w.log + [Removed(w.pending[op].key)])
  {
  }

  /** Position s holds the last write before r on the key, a Set. */
  predicate LastSetBefore(log: seq<Event>, r: nat, key: Key, s: nat)
    requires r <= |log|
  {
    && s < r && log[s].DidSet? && log[s].key == key
    && forall m :: s < m < r ==> !log[m].DidClear? && !((log[m].DidSet? || log[m].DidDelete?) && log[m].key == key)
  }

  lemma {:induction false} WriteBehind(log: seq<Event>, r: nat, key: Key) returns (s: nat)
    requires r <= |log| && LastWrite(log[..r], key).Some?
    ensures LastSetBefore(log, r, key, s) && log[s].entry == LastWrite(log[..r], key).value
  {
    s := r - 1;
    assert log[..r][..s] == log[..s];
    if !(log[s].DidSet? && log[s].key == key) {
      s := WriteBehind(log, r - 1, key);
    }
  }

  lemma {:induction false} ContentsAreLastWrite(log: seq<Event>, key: Key)
    ensures Contents(log, key).Some? ==> LastWrite(log, key) == Contents(log, key)
  {
    if log != [] {
      ContentsAreLastWrite(log[..|log| - 1], key);
    }
  }

  /** The event takes away an entry of the key that expires then. */
  predicate Loses(e: Event, key: Key, expires: int) {
    e == GaveWay(key) || e == Removed(key) || (e.DidSweep? && e.now > expires)
  }

  /** Since its last Set a key is empty exactly when an eviction, a removal or a sweep past its expiry took
      the entry. */
  lemma {:induction false} ContentsMean(log: seq<Event>, r: nat, key: Key, s: nat)
    requires r <= |log| && LastSetBefore(log, r, key, s)
    ensures Contents(log[..r], key)
         == if exists m :: s < m < r && Loses(log[m], key, log[s].entry.expires) then None else Some(log[s].entry)
  {
    assert log[..r][..r - 1] == log[..r - 1] && log[..r][r - 1] == log[r - 1];
    if s < r - 1 {
      ContentsMean(log, r - 1, key, s);
    }
  }

  /** Over every interleaving: a value Get returns is the one last Set for that key, with no Delete or Clear
      since, at the moment of its lookup, and had not expired when Get checked. */
  lemma HitsAreSound(maxCap: nat, actions: seq<Action>, i: nat)
    requires maxCap >= 1
    requires var log := Exec(maxCap, actions).log; i < |log| && log[i].Hit?
    ensures var log := Exec(maxCap, actions).log;
            var e := log[i];
            && e.readAt < i && log[e.readAt] == Event.Looked(e.key)
            && exists s: nat :: LastSetBefore(log, e.readAt, e.key, s)
                           && log[s].entry.value == e.value && e.checkedAt <= log[s].entry.expires
  {
    ReachableInv(maxCap, actions);
    var log := Exec(maxCap, actions).log;
    assert AnswerJustified(log, i);
    ContentsAreLastWrite(log[..log[i].readAt], log[i].key);
    var s := WriteBehind(log, log[i].readAt, log[i].key);
  }

  /** Over every interleaving: when Get finds nothing, then at the moment of its lookup the key's last write was
      no Set, or what it set had been evicted, removed by another Get, or swept after its expiry. */
  lemma MissesAreExplained(maxCap: nat, actions: seq<Action>, i: nat)
    requires maxCap >= 1
    requires var log := Exec(maxCap, actions).log; i < |log| && log[i].Miss?
    ensures var log := Exec(maxCap, actions).log;
            var e := log[i];
            && e.readAt < i && log[e.readAt] == Event.Looked(e.key)
            && forall s: nat :: LastSetBefore(log, e.readAt, e.key, s) ==>
                 exists m :: s < m < e.readAt && Loses(log[m], e.key, log[s].entry.expires)
  {
    ReachableInv(maxCap, actions);
    var log := Exec(maxCap, actions).log;
    assert AnswerJustified(log, i);
    var r, key := log[i].readAt, log[i].key;
    forall s: nat | LastSetBefore(log, r, key, s)
      ensures exists m :: s < m < r && Loses(log[m], key, log[s].entry.expires) {
      ContentsMean(log, r, key, s);
    }
  }

  /** In any reachable state, a key whose last write is a Set that has not expired is missing from the store
      exactly when it gave way to another or was removed by a Get since. */
  lemma LiveEntryIsLostExactlyWhen(maxCap: nat, actions: seq<Action>, key: Key, s: nat)
    requires maxCap >= 1
    requires var w := Exec(maxCap, actions);
             LastSetBefore(w.log, |w.log|, key, s) && w.clock <= w.log[s].entry.expires
    ensures var w := Exec(maxCap, actions);
            && (key in w.store ==> w.store[key] == w.log[s].entry)
            && (key !in w.store <==> exists m :: s < m < |w.log| && w.log[m] in {GaveWay(key), Removed(key)})
  {
    ReachableInv(maxCap, actions);
    var w := Exec(maxCap, actions);
    assert w.log[..|w.log|] == w.log;
    ContentsMean(w.log, |w.log|, key, s);
    assert Contents(w.log, key) == StoredIn(w.store, key);
    forall m | s < m < |w.log| ensures Loses(w.log[m], key, w.log[s].entry.expires)
                                  <==> w.log[m] in {GaveWay(key), Removed(key)} {
    }
  }

  /** The store never holds more entries than its capacity, whichever entries evictions pick. */
  lemma CapacityHolds(maxCap: nat, actions: seq<Action>)
    requires maxCap >= 1
    ensures |Exec(maxCap, actions).store| <= maxCap
  {
    ReachableInv(maxCap, actions);
  }

  lemma {:induction false} LastWriteFixed(log: seq<Event>, r: nat, key: Key, s: nat)
    requires r <= |log| && LastSetBefore(log, r, key, s)
    ensures LastWrite(log[..r], key) == Some(log[s].entry)
  {
    assert log[..r][..r - 1] == log[..r - 1];
    if s < r - 1 {
      LastWriteFixed(log, r - 1, key, s);
    }
  }

  /** The second lock section of Get removes by key, not the entry found expired. In any reachable state, it
      drops an unexpired entry exactly when, by the history, the key was Set since Get's lookup, that entry has
      not expired, and nothing has taken it away yet. */
  lemma RemovalOfALiveEntry(maxCap: nat, actions: seq<Action>, op: OpId)
    requires maxCap >= 1
    requires var w := Exec(maxCap, actions); op in w.pending && w.pending[op].Stale?
    ensures var w := Exec(maxCap, actions);
            var c := w.pending[op];
            (exists k :: k in w.store && k !in Step(w, Remove(op)).store && w.clock <= w.store[k].expires)
            <==> (exists s: nat ::
                    && c.readAt <= s && LastSetBefore(w.log, |w.log|, c.key, s) && w.clock <= w.log[s].entry.expires
                    && forall m :: s < m < |w.log| ==> w.log[m] !in {GaveWay(c.key), Removed(c.key)})
  {
    var w := Exec(maxCap, actions);
    var c := w.pending[op];
    RemoveGives(w, op);
    if c.key in w.store && w.clock <= w.store[c.key].expires {
      var s := LiveEntryIsNew(maxCap, actions, op);
    }
    forall s: nat | && c.readAt <= s && LastSetBefore(w.log, |w.log|, c.key, s) && w.clock <= w.log[s].entry.expires
                    && forall m :: s < m < |w.log| ==> w.log[m] !in {GaveWay(c.key), Removed(c.key)}
      ensures c.key in w.store && w.clock <= w.store[c.key].expires {
      LiveEntryIsLostExactlyWhen(maxCap, actions, c.key, s);
    }
  }

  lemma LiveEntryIsNew(maxCap: nat, actions: seq<Action>, op: OpId) returns (s: nat)
    requires maxCap >= 1
    requires var w := Exec(maxCap, actions);
             && op in w.pending && w.pending[op].Stale?
             && w.pending[op].key in w.store && w.clock <= w.store[w.pending[op].key].expires
    ensures var w := Exec(maxCap, actions);
            var c := w.pending[op];
            && c.readAt <= s && LastSetBefore(w.log, |w.log|, c.key, s) && w.clock <= w.log[s].entry.expires
            && forall m :: s < m < |w.log| ==> w.log[m] !in {GaveWay(c.key), Removed(c.key)}
  {
    ReachableInv(maxCap, actions);
    var w := Exec(maxCap, actions);
    var c := w.pending[op];
    assert w.log[..|w.log|] == w.log;
    assert Contents(w.log, c.key) == StoredIn(w.store, c.key);
    ContentsAreLastWrite(w.log, c.key);
    s := WriteBehind(w.log, |w.log|, c.key);
    LiveEntryIsLostExactlyWhen(maxCap, actions, c.key, s);
    if s < c.readAt {
      LastWriteFixed(w.log, c.readAt, c.key, s);
      ContentsAreLastWrite(w.log[..c.readAt], c.key);
      assert false;
    }
  }

  lemma LastWriteAfter(log: seq<Event>, e: Event, key: Key)
    ensures LastWrite(log + [e], key)
         == match e
            case DidSet(k, entry, _) => if k == key then Some(entry) else LastWrite(log, key)
            case DidDelete(k) => if k == key then None else LastWrite(log, key)
            case DidClear => None
            case _ => LastWrite(log, key)
  {
    assert (log + [e])[..|log|] == log;
  }

  /** It does happen, from any state with room: a Set between the two lock sections of a Get is lost, although
      it has not expired and nothing deleted it. */
  lemma LostSet(w: World, op: OpId, key: Key, first: Value, second: Value)
    requires op !in w.pending && |w.store| < w.maxCap
    ensures var expired := Step(Step(w, Set(key, first, 0, key)), Advance(1));
            var stale := Step(Step(expired, Lookup(op, key)), Answer(op));
            var renewed := Step(stale, Set(key, second, 9, key));
            var after := Step(renewed, Remove(op));
            && key in renewed.store && after.clock < renewed.store[key].expires && renewed.store[key].value == second
            && key !in after.store
            && LastWrite(after.log, key) == Some(renewed.store[key])
  {
    var expired := Step(Step(w, Set(key, first, 0, key)), Advance(1));
    assert expired.store[key] == Entry(first, w.clock);
    var looked := Step(expired, Lookup(op, key));
    assert looked.pending[op] == Pending.Looked(key, Some(expired.store[key]), |expired.log|);
    var stale := Step(looked, Answer(op));
    assert stale.pending[op].Stale?;
    var renewed := Step(stale, Set(key, second, 9, key));
    LastWriteAfter(stale.log, DidSet(key, renewed.store[key], stale.clock), key);
    LastWriteAfter(renewed.log, Removed(key), key);
  }

  lemma PutAndDrop(pending: map<OpId, Pending>, op: OpId, first: Pending, second: Pending)
    requires op !in pending
    ensures pending[op := first] - {op} == pending && pending[op := first][op := second] - {op} == pending
  {
  }

  /** An uninterrupted Get: it hits exactly an entry that is there and not past its expiry, and then changes
      nothing; otherwise the key is gone afterwards and every other entry as it was. */
  lemma LoneGet(w: World, op: OpId, key: Key)
    requires op !in w.pending
    ensures var looked := Step(w, Lookup(op, key));
            var w' := Step(Step(looked, Answer(op)), Remove(op));
            && w'.pending == w.pending
            && if key in w.store && w.clock <= w.store[key].expires
               then w'.store == w.store && w'.log == looked.log + [Hit(key, w.store[key].value, |w.log|, w.clock)]
               else w'.store == w.store - {key}
                    && w'.log == looked.log + [if key in w.store then Removed(key) else Miss(key, |w.log|)]
  {
    var found := if key in w.store then Some(w.store[key]) else None;
    var looked := Step(w, Lookup(op, key));
    var first := Pending.Looked(key, found, |w.log|);
    AnswerGives(looked, op, key, found, |w.log|);
    RemoveGives(Step(looked, Answer(op)), op);
    if key in w.store {
      PutAndDrop(w.pending, op, first, Stale(key, w.store[key], |w.log|));
    } else {
      PutAndDrop(w.pending, op, first, first);
      assert w.store - {key} == w.store;
    }
  }

  // ── The cache object ──

  class MemoryCache {
    var store: Store
    const maxCap: nat

    ghost predicate Valid()
      reads this
    {
      maxCap >= 1 && |store| <= maxCap
    }

    /** The machine with this store, and no call under way. */
    ghost function AsWorld(now: int): World
      reads this
    {
      World(now, maxCap, store, map[], [])
    }

    constructor (configured: int)
      ensures Valid() && store == map[] && maxCap == MaxCapacity(configured)
    {
      store, maxCap := map[], MaxCapacity(configured);
    }

    /** Returns an entry that is there and not past its expiry; one that is past it goes. */
    method Get(key: Key, now: int) returns (r: Option<Value>)
      requires Valid()
      modifies this`store
      ensures Valid()
      ensures r.Some? <==> key in old(store) && now <= old(store)[key].expires
      ensures r.Some? ==> r.value == old(store)[key].value && store == old(store)
      ensures r.None? ==> store == old(store) - {key}
      ensures store == Step(Step(Step(old(AsWorld(now)), Lookup(0, key)), Answer(0)), Remove(0)).store
    {
      LoneGet(AsWorld(now), 0, key);
      if key !in store {
        assert store - {key} == store;
        return None;
      }
      if now > store[key].expires {
        SmallerStore(store - {key}, store);
        store := store - {key};
        return None;
      }
      r := Some(store[key].value);
    }

    /** When full, some entry makes room first, even when the key is already there. */
    method Set(key: Key, value: Value, ttl: int, now: int)
      requires Valid()
      modifies this`store
      ensures Valid()
      ensures key in store && store[key] == Entry(value, now + ttl)
      ensures |old(store)| < maxCap ==> store == old(store)[key := Entry(value, now + ttl)]
      ensures |old(store)| >= maxCap ==>
                exists victim :: victim in old(store) && store == (old(store) - {victim})[key := Entry(value, now + ttl)]
      ensures exists victim :: (|old(store)| >= maxCap ==> victim in old(store))
                               && store == Evicted(old(store), maxCap, victim)[key := Entry(value, now + ttl)]
                               && store == Step(old(AsWorld(now)), Action.Set(key, value, ttl, victim)).store
    {
      var victim := key;
      var room := store;
      if |store| >= maxCap {
        victim :| victim in store;
        room := store - {victim};
      }
      RoomForOne(store, maxCap, victim, key, Entry(value, now + ttl));
      SetGives(AsWorld(now), key, value, ttl, victim);
      store := room[key := Entry(value, now + ttl)];
    }

    method Delete(key: Key)
      requires Valid()
      modifies this`store
      ensures Valid() && store == old(store) - {key}
      ensures store == Step(old(AsWorld(0)), Action.Delete(key)).store
    {
      SmallerStore(store - {key}, store);
      store := store - {key};
    }

    /** Stricter than Get at the very instant of expiry, where Get still returns the entry. */
    method Exists(key: Key, now: int) returns (r: bool)
      ensures r <==> key in store && now < store[key].expires
    {
      if key !in store {
        return false;
      }
      r := now < store[key].expires;
    }

    method Clear()
      requires Valid()
      modifies this`store
      ensures Valid() && store == map[]
      ensures store == Step(old(AsWorld(0)), Action.Clear).store
    {
      store := map[];
    }

    method SweepExpired(now: int)
      requires Valid()
      modifies this`store
      ensures Valid() && store == Swept(old(store), now)
      ensures forall k :: k in store <==> k in old(store) && now <= old(store)[k].expires
      ensures forall k :: k in store ==> store[k] == old(store)[k]
      ensures store == Step(Step(old(AsWorld(now)), BeginSweep(0)), Sweep(0)).store
    {
      var todo := store.Keys;
      while todo != {}
        invariant todo <= store.Keys
        invariant store == map k | k in old(store) && (k in todo || now <= old(store)[k].expires) :: old(store)[k]
        decreases todo
      {
        var k :| k in todo;
        if now > store[k].expires {
          store := store - {k};
        }
        todo := todo - {k};
      }
      SmallerStore(store, old(store));
    }
  }
}
