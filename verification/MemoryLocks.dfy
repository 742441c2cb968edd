/** The in-process lock: two maps kept under one mutex, which together amount to a
    single map from keys to expiry instants. */
module MemoryLocks {
  type Key = string
  type Token = nat

  datatype Entry = Entry(value: Token, expiresAt: int)

  datatype Memory = Memory(locks: map<Key, Entry>, lockValues: map<Key, Token>)

  /** A call with the clock readings it makes; TryLock reads the clock once to judge the old
      entry and once more to stamp the new one. */
  datatype Call =
    | TryLock(key: Key, ttl: int, value: Token, checkedAt: int, stampedAt: int)
    | Release(key: Key)
    | Extend(key: Key, ttl: int, at: int)

  datatype Answer = Acquired | Busy | Released | Extended | NotHeld | LockLost

  function MemoryStep(m: Memory, c: Call): (Memory, Answer) {
    match c
    case TryLock(key, ttl, value, checkedAt, stampedAt) =>
      if key in m.locks && checkedAt < m.locks[key].expiresAt then (m, Busy)
      else (Memory(m.locks[key := Entry(value, stampedAt + ttl)], m.lockValues[key := value]), Acquired)
    case Release(key) =>
      if key !in m.lockValues then (m, Released)
      else if key in m.locks && m.locks[key].value == m.lockValues[key]
      then (Memory(m.locks - {key}, m.lockValues - {key}), Released)
      else (m.(lockValues := m.lockValues - {key}), Released)
    case Extend(key, ttl, at) =>
      if key !in m.lockValues then (m, NotHeld)
      else if key in m.locks && m.locks[key].value == m.lockValues[key]
      then (m.(locks := m.locks[key := m.locks[key].(expiresAt := at + ttl)]), Extended)
      else (m, LockLost)
  }

  /** The lease map the lock is meant to be: it has no tokens and no way to lose a lock. */
  type Leases = map<Key, int>

  function LeaseStep(leases: Leases, c: Call): (Leases, Answer) {
    match c
    case TryLock(key, ttl, _, checkedAt, stampedAt) =>
      if key in leases && checkedAt < leases[key] then (leases, Busy)
      else (leases[key := stampedAt + ttl], Acquired)
    case Release(key) => (leases - {key}, Released)
    case Extend(key, ttl, at) =>
      if key in leases then (leases[key := at + ttl], Extended) else (leases, NotHeld)
  }

  function MemoryRun(calls: seq<Call>): (r: (Memory, seq<Answer>))
    ensures |r.1| == |calls|
  {
    if calls == [] then (Memory(map[], map[]), [])
    else
      var (m, answers) := MemoryRun(calls[..|calls| - 1]);
      var (m', answer) := MemoryStep(m, calls[|calls| - 1]);
      (m', answers + [answer])
  }

  function LeaseRun(calls: seq<Call>): (Leases, seq<Answer>) {
    if calls == [] then (map[], [])
    else
      var (leases, answers) := LeaseRun(calls[..|calls| - 1]);
      var (leases', answer) := LeaseStep(leases, calls[|calls| - 1]);
      (leases', answers + [answer])
  }

  /** The two maps hold the same keys with the same tokens. */
  predicate Agree(m: Memory) {
    && m.locks.Keys == m.lockValues.Keys
    && forall k :: k in m.locks ==> m.locks[k].value == m.lockValues[k]
  }

  function Expiries(m: Memory): Leases {
    map k | k in m.locks :: m.locks[k].expiresAt
  }

  lemma StepRefines(m: Memory, c: Call)
    requires Agree(m)
    ensures Agree(MemoryStep(m, c).0)
    ensures LeaseStep(Expiries(m), c) == (Expiries(MemoryStep(m, c).0), MemoryStep(m, c).1)
  {
    var m' := MemoryStep(m, c).0;
    assert LeaseStep(Expiries(m), c).0 == Expiries(m');
  }

  /** Over every sequence of calls the lock answers as the lease map does and stands for the same
      leases; its two maps agree, and no Extend ever finds the lock lost. */
  lemma {:induction false} MemoryLockIsALeaseMap(calls: seq<Call>)
    ensures Agree(MemoryRun(calls).0)
    ensures LeaseRun(calls) == (Expiries(MemoryRun(calls).0), MemoryRun(calls).1)
    ensures LockLost !in MemoryRun(calls).1
  {
    if calls != [] {
      MemoryLockIsALeaseMap(calls[..|calls| - 1]);
      StepRefines(MemoryRun(calls[..|calls| - 1]).0, calls[|calls| - 1]);
    }
  }

  // ── Exclusion, as for the shared locks ──

  lemma {:induction false} AnswerAt(calls: seq<Call>, i: nat)
    requires i < |calls|
    ensures MemoryRun(calls).1[i] == MemoryStep(MemoryRun(calls[..i]).0, calls[i]).1
  {
    var init := calls[..|calls| - 1];
    if i < |init| {
      AnswerAt(init, i);
      assert init[..i] == calls[..i];
    }
  }

  lemma {:induction false} EntryStays(calls: seq<Call>, i: nat, n: nat, key: Key)
    requires i < n <= |calls| && calls[i].TryLock? && calls[i].key == key
    requires MemoryStep(MemoryRun(calls[..i]).0, calls[i]).1 == Acquired
    requires forall m :: i < m < n ==> calls[m] != Call.Release(key)
    ensures key in MemoryRun(calls[..n]).0.locks
  {
    assert calls[..n][..n - 1] == calls[..n - 1];
    MemoryLockIsALeaseMap(calls[..n - 1]);
    if i < n - 1 {
      EntryStays(calls, i, n - 1, key);
    }
  }

  /** Between two successful TryLocks on one key that key was released, or the expiry it had when the second
      came, as granted or last extended, had been reached by the second one's clock. */
  lemma MemoryExclusion(calls: seq<Call>, i: nat, j: nat)
    requires i < j < |calls| && calls[i].TryLock? && calls[j].TryLock? && calls[i].key == calls[j].key
    requires MemoryRun(calls).1[i] == Acquired && MemoryRun(calls).1[j] == Acquired
    ensures var before, key := MemoryRun(calls[..j]).0, calls[j].key;
            || (exists m :: i < m < j && calls[m] == Call.Release(key))
            || (key in before.locks && before.locks[key].expiresAt <= calls[j].checkedAt)
  {
    var key := calls[j].key;
    AnswerAt(calls, i);
    AnswerAt(calls, j);
    if forall m :: i < m < j ==> calls[m] != Call.Release(key) {
      EntryStays(calls, i, j, key);
    }
  }

  /** What the call at n does to the expiry of a key, in numbers. */
  predicate SetsExpiry(c: Call, key: Key, expiresAt: int) {
    || (c.TryLock? && c.key == key && expiresAt == c.stampedAt + c.ttl)
    || (c.Extend? && c.key == key && expiresAt == c.at + c.ttl)
  }

  predicate Expires(m: Memory, key: Key, expiresAt: int) {
    key in m.locks && m.locks[key].expiresAt == expiresAt
  }

  /** The call does not grant, extend or release the key. */
  predicate LeavesAlone(c: Call, answer: Answer, key: Key) {
    c.key == key ==> c.TryLock? && answer != Acquired
  }

  lemma ExpiryStep(m: Memory, c: Call, key: Key, expiresAt: int)
    requires Agree(m)
    ensures var (m', answer) := MemoryStep(m, c);
            && (SetsExpiry(c, key, expiresAt) && answer in {Acquired, Extended} ==> Expires(m', key, expiresAt))
            && (Expires(m, key, expiresAt) && LeavesAlone(c, answer, key) ==> Expires(m', key, expiresAt))
  {
  }

  lemma {:induction false} ExpiryStays(calls: seq<Call>, i: nat, n: nat, key: Key, expiresAt: int)
    requires i < n <= |calls| && SetsExpiry(calls[i], key, expiresAt) && MemoryRun(calls).1[i] in {Acquired, Extended}
    requires forall m :: i < m < n ==> LeavesAlone(calls[m], MemoryRun(calls).1[m], key)
    ensures Expires(MemoryRun(calls[..n]).0, key, expiresAt)
  {
    assert calls[..n][..n - 1] == calls[..n - 1] && calls[..n][n - 1] == calls[n - 1];
    MemoryLockIsALeaseMap(calls[..n - 1]);
    AnswerAt(calls, n - 1);
    if i < n - 1 {
      ExpiryStays(calls, i, n - 1, key, expiresAt);
    }
    ExpiryStep(MemoryRun(calls[..n - 1]).0, calls[n - 1], key, expiresAt);
  }

  /** How long the lock keeps others out: after a grant stamped at s for ttl, or an extension at s, as long as
      nothing grants, extends or releases it, a TryLock on the key succeeds exactly at s + ttl or later. */
  lemma MemoryKeepsOut(calls: seq<Call>, i: nat, j: nat, key: Key, expiresAt: int)
    requires i < j < |calls| && SetsExpiry(calls[i], key, expiresAt) && MemoryRun(calls).1[i] in {Acquired, Extended}
    requires forall m :: i < m < j ==> LeavesAlone(calls[m], MemoryRun(calls).1[m], key)
    requires calls[j].TryLock? && calls[j].key == key
    ensures MemoryRun(calls).1[j] == Acquired <==> calls[j].checkedAt >= expiresAt
  {
    ExpiryStays(calls, i, j, key, expiresAt);
    AnswerAt(calls, j);
  }

  class MemoryLock {
    var locks: map<Key, Entry>
    var lockValues: map<Key, Token>

    function View(): Memory
      reads this
    {
      Memory(locks, lockValues)
    }

    ghost predicate Valid()
      reads this
    {
      Agree(View())
    }

    constructor ()
      ensures Valid() && View() == Memory(map[], map[])
    {
      locks, lockValues := map[], map[];
    }

    method TryLock(key: Key, ttl: int, value: Token, checkedAt: int, stampedAt: int) returns (acquired: bool)
      requires Valid()
      modifies this
      ensures Valid()
      ensures (View(), if acquired then Acquired else Busy)
           == MemoryStep(old(View()), Call.TryLock(key, ttl, value, checkedAt, stampedAt))
    {
      if key in locks && checkedAt < locks[key].expiresAt {
        return false;
      }
      locks := locks[key := Entry(value, stampedAt + ttl)];
      lockValues := lockValues[key := value];
      acquired := true;
    }

    method Release(key: Key)
      requires Valid()
      modifies this
      ensures Valid()
      ensures View() == MemoryStep(old(View()), Call.Release(key)).0
      ensures key !in locks && key !in lockValues
    {
      if key !in lockValues {
        return;
      }
      if key in locks && locks[key].value == lockValues[key] {
        locks := locks - {key};
      }
      lockValues := lockValues - {key};
    }

    method Extend(key: Key, ttl: int, at: int) returns (answer: Answer)
      requires Valid()
      modifies this
      ensures Valid()
      ensures (View(), answer) == MemoryStep(old(View()), Call.Extend(key, ttl, at))
      ensures answer == if key in old(locks) then Extended else NotHeld
    {
      if key !in lockValues {
        return NotHeld;
      }
      if key in locks && locks[key].value == lockValues[key] {
        locks := locks[key := locks[key].(expiresAt := at + ttl)];
        return Extended;
      }
      answer := LockLost;
    }
  }
}
