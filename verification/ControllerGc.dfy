/** The controller's garbage collector: one tick reads what the cluster and the API server
    answer, and deletes deployments after an observation window. Everything read from outside
    is part of the tick, so claims about deletions are claims about the answers received. */
module ControllerGc {
  import opened Common

  type FlowId = string
  type DepKey = string

  datatype RunStatus = Pending | Running | Paused

  const ACTIVE_STATUSES: seq<RunStatus> := [Pending, Running, Paused]

  /** Nanoseconds. */
  const DEFAULT_TIMEOUT := 180_000_000_000

  function EffectiveTimeout(configured: int): (t: int)
    ensures t > 0 && (configured > 0 ==> t == configured)
    ensures configured <= 0 ==> t == 3 * 60 * 1_000_000_000
  {
    if configured > 0 then configured else DEFAULT_TIMEOUT
  }

  // ── What a tick reads ──

  datatype DeleteOutcome = Deleted | NotFound | Failed

  datatype Lookup = Found | Missing | LookupFailed

  /** A runtime deployment in a listing, with the fate of a delete sent to it. */
  datatype Child = Child(ns: string, name: string, namespaceId: string,
                         parentName: string, parentNs: string, outcome: DeleteOutcome)

  /** A JM deployment in a listing, with the two clock readings its marking would make. */
  datatype JmItem = JmItem(ns: string, name: string, flow: FlowId, namespaceId: string,
                           markAt: int, sinceAt: int, deleteOk: bool, children: Option<seq<Child>>)

  datatype RtItem = RtItem(ns: string, name: string, flow: FlowId, parentName: string, parentNs: string,
                           lookup: Lookup, markAt: int, sinceAt: int, outcome: DeleteOutcome)

  /** `flows` is None when the definitions could not be listed; `order` is the order in which the
      map of definitions is walked; `answer` is the page size of a run query, None if it failed. */
  datatype Tick = Tick(peers: seq<string>, flows: Option<set<FlowId>>, order: seq<FlowId>,
                       answer: (FlowId, RunStatus) -> Option<nat>,
                       jms: Option<seq<JmItem>>, rts: Option<seq<RtItem>>)

  datatype Shard = Shard(self: string, index: (FlowId, nat) -> nat)

  function Key(ns: string, name: string): DepKey {
    ns + "/" + name
  }

  /** Namespaces contain no slash, so a key names one deployment. */
  lemma KeyIsInjective(ns1: string, name1: string, ns2: string, name2: string)
    requires '/' !in ns1 && '/' !in ns2 && Key(ns1, name1) == Key(ns2, name2)
    ensures ns1 == ns2 && name1 == name2
  {
    var k := Key(ns1, name1);
    assert k[..|ns1|] == ns1 && k[..|ns2|] == ns2;
    assert k[|ns1|] == '/' && k[|ns2|] == '/';
    assert k[|ns1| + 1..] == name1 && k[|ns2| + 1..] == name2;
  }

  // ── Shard ownership ──

  predicate Owns(s: Shard, peers: seq<string>, flow: FlowId) {
    || peers == []
    || exists i :: 0 <= i < |peers| && peers[i] == s.self && i == s.index(flow, |peers|)
  }

  /** A controller owns a flow exactly when there are no peers to share with or it is the peer at the flow's
      index. So controllers that see the same peers, each under its own name, split the flows. */
  lemma OwnershipPartitions(peers: seq<string>, index: (FlowId, nat) -> nat, flow: FlowId, self: string)
    ensures Owns(Shard(self, index), peers, flow)
       <==> peers == [] || (index(flow, |peers|) < |peers| && peers[index(flow, |peers|)] == self)
  {
  }

  // ── The active-run snapshot ──

  predicate HasRuns(t: Tick, flow: FlowId) {
    exists s: RunStatus :: t.answer(flow, s).Some? && t.answer(flow, s).value > 0
  }

  /** All three queries about a flow were answered, and with nothing. */
  predicate KnownIdle(t: Tick, flow: FlowId) {
    forall s: RunStatus :: t.answer(flow, s) == Some(0)
  }

  /** The walk over the definitions: the active flows found, and whether it got to the end. */
  function Snapshot(s: Shard, t: Tick, order: seq<FlowId>): (r: (set<FlowId>, bool)) {
    if order == [] then ({}, true)
    else
      var last := order[|order| - 1];
      var (active, ok) := Snapshot(s, t, order[..|order| - 1]);
      if !ok || !Owns(s, t.peers, last) then (active, ok)
      else
        match Query(t, last, ACTIVE_STATUSES)
        case None => (active, false)
        case Some(found) => (if found then active + {last} else active, true)
  }

  /** The queries for one flow, stopping at the first failure or the first non-empty page. */
  function Query(t: Tick, flow: FlowId, statuses: seq<RunStatus>): Option<bool> {
    if statuses == [] then Some(false)
    else if t.answer(flow, statuses[0]).None? then None
    else if t.answer(flow, statuses[0]).value > 0 then Some(true)
    else Query(t, flow, statuses[1..])
  }

  lemma {:induction false} QueryMeans(t: Tick, flow: FlowId, statuses: seq<RunStatus>)
    ensures Query(t, flow, statuses) == Some(true) ==> HasRuns(t, flow)
    ensures Query(t, flow, statuses) == Some(false) <==> forall s :: s in statuses ==> t.answer(flow, s) == Some(0)
  {
    if statuses != [] {
      QueryMeans(t, flow, statuses[1..]);
      assert statuses == [statuses[0]] + statuses[1..];
    }
  }

  lemma ActiveStatusesAreAll()
    ensures forall s: RunStatus :: s in ACTIVE_STATUSES
  {
    forall s: RunStatus ensures s in ACTIVE_STATUSES {
      assert s == ACTIVE_STATUSES[if s.Pending? then 0 else if s.Running? then 1 else 2];
    }
  }

  /** In a complete snapshot an owned flow is missing from the active set exactly when all its
      queries came back empty, in whatever order the definitions were walked. */
  lemma {:induction false} SnapshotMeans(s: Shard, t: Tick, order: seq<FlowId>, flow: FlowId)
    requires Snapshot(s, t, order).1 && flow in order && Owns(s, t.peers, flow)
    ensures flow !in Snapshot(s, t, order).0 <==> KnownIdle(t, flow)
    ensures flow in Snapshot(s, t, order).0 ==> HasRuns(t, flow)
  {
    var last := order[|order| - 1];
    var init := order[..|order| - 1];
    QueryMeans(t, last, ACTIVE_STATUSES);
    ActiveStatusesAreAll();
    assert order == init + [last];
    if flow in init {
      SnapshotMeans(s, t, init, flow);
    } else {
      OnlyWalkedAreActive(s, t, init);
    }
  }

  /** Asked for pending, running and paused runs in that order, the answers went as far as they had to: no query
      failed before the first that found a run. */
  predicate Answered(t: Tick, flow: FlowId) {
    var pending, running, paused := t.answer(flow, Pending), t.answer(flow, Running), t.answer(flow, Paused);
    pending.Some? && (pending.value > 0 || (running.Some? && (running.value > 0 || paused.Some?)))
  }

  predicate AllEmpty(t: Tick, flow: FlowId) {
    t.answer(flow, Pending) == Some(0) && t.answer(flow, Running) == Some(0) && t.answer(flow, Paused) == Some(0)
  }

  lemma QueryInAnswers(t: Tick, flow: FlowId)
    ensures Query(t, flow, ACTIVE_STATUSES)
         == if !Answered(t, flow) then None else Some(!AllEmpty(t, flow))
    ensures KnownIdle(t, flow) <==> AllEmpty(t, flow)
  {
    var running, paused := ACTIVE_STATUSES[1..], ACTIVE_STATUSES[1..][1..];
    assert running == [Running, Paused] && paused == [Paused] && paused[1..] == [];
    assert Query(t, flow, paused)
        == if t.answer(flow, Paused).None? then None else Some(t.answer(flow, Paused).value > 0);
    forall s: RunStatus ensures AllEmpty(t, flow) ==> t.answer(flow, s) == Some(0) {
      assert s == Pending || s == Running || s == Paused;
    }
  }

  /** In the answers alone: the snapshot is complete exactly when the queries about every owned flow went as far
      as they had to; and then an owned flow is active exactly when they were not all empty. */
  lemma {:induction false} SnapshotInAnswers(s: Shard, t: Tick, order: seq<FlowId>)
    ensures Snapshot(s, t, order).1 <==> forall f :: f in order && Owns(s, t.peers, f) ==> Answered(t, f)
    ensures Snapshot(s, t, order).1 ==>
              forall f :: f in Snapshot(s, t, order).0 <==> f in order && Owns(s, t.peers, f) && !AllEmpty(t, f)
  {
    if order != [] {
      var init, last := order[..|order| - 1], order[|order| - 1];
      assert order == init + [last];
      SnapshotInAnswers(s, t, init);
      QueryInAnswers(t, last);
    }
  }

  lemma {:induction false} OnlyWalkedAreActive(s: Shard, t: Tick, order: seq<FlowId>)
    ensures forall f :: f in Snapshot(s, t, order).0 ==> f in order
  {
    if order != [] {
      OnlyWalkedAreActive(s, t, order[..|order| - 1]);
    }
  }

  // ── What a tick does ──

  datatype Parent = Unlabelled | Alive | Gone | Unknown

  /** The collector's history: each evaluation with what it was told, each delete it sent. */
  datatype Event =
    | SawJm(tick: nat, key: DepKey, flow: FlowId, defined: bool, snapshotOk: bool, active: bool, markAt: int, sinceAt: int)
    | SentJmDelete(key: DepKey, ok: bool)
    | SawRt(tick: nat, key: DepKey, flow: FlowId, parent: Parent,
            defined: bool, snapshotOk: bool, active: bool, markAt: int, sinceAt: int)
    | SentRtDelete(key: DepKey, outcome: DeleteOutcome)
    | SentChildDelete(key: DepKey, outcome: DeleteOutcome, jm: DepKey)

  datatype Gc = Gc(firstSeen: map<DepKey, int>, log: seq<Event>)

  const IDLE := Gc(map[], [])

  /** A tick's view: its number, the definitions, and the snapshot. */
  datatype View = View(tick: nat, peers: seq<string>, flows: set<FlowId>, active: set<FlowId>, snapshotOk: bool)

  predicate KnownInactive(v: View, flow: FlowId) {
    v.snapshotOk && flow !in v.active
  }

  function Clear(g: Gc, key: DepKey): Gc {
    g.(firstSeen := g.firstSeen - {key})
  }

  function Mark(g: Gc, key: DepKey, markAt: int): Gc {
    if key in g.firstSeen then g else g.(firstSeen := g.firstSeen[key := markAt])
  }

  function Note(g: Gc, e: Event): Gc {
    g.(log := g.log + [e])
  }

  function EvalJm(g: Gc, timeout: int, v: View, d: JmItem): Gc {
    var key := Key(d.ns, d.name);
    var seen := Note(g, SawJm(v.tick, key, d.flow, d.flow in v.flows, v.snapshotOk, d.flow in v.active, d.markAt, d.sinceAt));
    if d.flow !in v.flows then DeleteJm(seen, d)
    else if !KnownInactive(v, d.flow) then Clear(seen, key)
    else
      var marked := Mark(seen, key, d.markAt);
      if d.sinceAt - marked.firstSeen[key] < timeout then marked else DeleteJm(marked, d)
  }

  function DeleteJm(g: Gc, d: JmItem): Gc {
    var key := Key(d.ns, d.name);
    var sent := Note(g, SentJmDelete(key, d.deleteOk));
    if !d.deleteOk then sent
    else
      var cleared := Clear(sent, key);
      if d.children.None? then cleared else DeleteChildren(cleared, d, d.children.value)
  }

  predicate BelongsTo(c: Child, d: JmItem) {
    && (d.namespaceId != "" ==> c.namespaceId == d.namespaceId)
    && (d.name != "" ==> c.parentName == d.name)
    && (d.ns != "" ==> c.parentNs == d.ns)
  }

  function DeleteChildren(g: Gc, d: JmItem, children: seq<Child>): Gc {
    if children == [] then g
    else
      var rest := DeleteChildren(g, d, children[..|children| - 1]);
      var c := children[|children| - 1];
      if !BelongsTo(c, d) then rest
      else
        var sent := Note(rest, SentChildDelete(Key(c.ns, c.name), c.outcome, Key(d.ns, d.name)));
        if c.outcome.Failed? then sent else Clear(sent, Key(c.ns, c.name))
  }

  /** The deletes sent along with that of a JM, for a listing of children. */
  function ChildDeletes(d: JmItem, children: seq<Child>): seq<Event> {
    if children == [] then []
    else
      var init, c := children[..|children| - 1], children[|children| - 1];
      ChildDeletes(d, init)
      + if BelongsTo(c, d) then [SentChildDelete(Key(c.ns, c.name), c.outcome, Key(d.ns, d.name))] else []
  }

  lemma {:induction false} DeleteChildrenLog(g: Gc, d: JmItem, children: seq<Child>)
    ensures DeleteChildren(g, d, children).log == g.log + ChildDeletes(d, children)
  {
    if children != [] {
      DeleteChildrenLog(g, d, children[..|children| - 1]);
    }
  }

  /** Which children of a listing are deleted along with a JM, in order: those that carry whatever the JM has
      for a namespace id, a name and a namespace. */
  lemma {:induction false} ChildDeletesMean(d: JmItem, children: seq<Child>) returns (positions: seq<nat>)
    ensures |positions| == |ChildDeletes(d, children)|
    ensures forall k :: 0 <= k < |positions| ==>
              && positions[k] < |children|
              && var c := children[positions[k]];
                 ChildDeletes(d, children)[k] == SentChildDelete(Key(c.ns, c.name), c.outcome, Key(d.ns, d.name))
    ensures forall k, l :: 0 <= k < l < |positions| ==> positions[k] < positions[l]
    ensures forall p: nat :: p in positions <==>
              && p < |children|
              && (children[p].namespaceId == d.namespaceId || d.namespaceId == "")
              && (children[p].parentName == d.name || d.name == "")
              && (children[p].parentNs == d.ns || d.ns == "")
  {
    positions := [];
    if children != [] {
      var last := |children| - 1;
      var init := ChildDeletesMean(d, children[..last]);
      positions := init + if BelongsTo(children[last], d) then [last] else [];
    }
  }

  function ParentOf(d: RtItem): Parent {
    if d.parentName == "" || d.parentNs == "" then Unlabelled
    else match d.lookup
      case Found => Alive
      case Missing => Gone
      case LookupFailed => Unknown
  }

  function EvalRt(g: Gc, timeout: int, v: View, d: RtItem): Gc {
    var key := Key(d.ns, d.name);
    var seen := Note(g, SawRt(v.tick, key, d.flow, ParentOf(d), d.flow in v.flows, v.snapshotOk,
                              d.flow in v.active, d.markAt, d.sinceAt));
    match ParentOf(d)
    case Alive => Clear(seen, key)
    case Unknown => seen
    case _ =>
      if d.flow !in v.flows || KnownInactive(v, d.flow) then DeleteRt(seen, d)
      else
        var marked := Mark(seen, key, d.markAt);
        if d.sinceAt - marked.firstSeen[key] < timeout then marked else DeleteRt(marked, d)
  }

  function DeleteRt(g: Gc, d: RtItem): Gc {
    var key := Key(d.ns, d.name);
    var sent := Note(g, SentRtDelete(key, d.outcome));
    if d.outcome.Failed? then sent else Clear(sent, key)
  }

  function JmPass(g: Gc, timeout: int, s: Shard, v: View, items: seq<JmItem>): Gc {
    if items == [] then g
    else
      var rest := JmPass(g, timeout, s, v, items[..|items| - 1]);
      var d := items[|items| - 1];
      if d.flow == "" || !Owns(s, v.peers, d.flow) then rest else EvalJm(rest, timeout, v, d)
  }

  function RtPass(g: Gc, timeout: int, s: Shard, v: View, items: seq<RtItem>): Gc {
    if items == [] then g
    else
      var rest := RtPass(g, timeout, s, v, items[..|items| - 1]);
      var d := items[|items| - 1];
      if d.flow == "" || !Owns(s, v.peers, d.flow) then rest else EvalRt(rest, timeout, v, d)
  }

  function ViewOf(s: Shard, n: nat, t: Tick): View
    requires t.flows.Some?
  {
    var (active, ok) := Snapshot(s, t, t.order);
    View(n, t.peers, t.flows.value, active, ok)
  }

  function Reconcile(g: Gc, timeout: int, s: Shard, n: nat, t: Tick): Gc {
    if t.flows.None? then g
    else
      var v := ViewOf(s, n, t);
      var afterJms := if t.jms.None? then g else JmPass(g, timeout, s, v, t.jms.value);
      if t.rts.None? then afterJms else RtPass(afterJms, timeout, s, v, t.rts.value)
  }

  function History(timeout: int, s: Shard, ticks: seq<Tick>): Gc {
    if ticks == [] then IDLE
    else
      var n := |ticks| - 1;
      Reconcile(History(timeout, s, ticks[..n]), timeout, s, n, ticks[n])
  }

  // ── Reading the observation window off the history ──

  /** The event found a reason to collect the deployment, and to wait first. */
  predicate Marks(e: Event, key: DepKey) {
    match e
    case SawJm(_, k, _, defined, ok, active, _, _) => k == key && defined && ok && !active
    case SawRt(_, k, _, parent, defined, ok, active, _, _) =>
      k == key && (parent.Gone? || parent.Unlabelled?) && defined && !(ok && !active)
    case _ => false
  }

  /** The event found a reason to keep the deployment. */
  predicate Keeps(e: Event, key: DepKey) {
    match e
    case SawJm(_, k, _, defined, ok, active, _, _) => k == key && defined && !(ok && !active)
    case SawRt(_, k, _, parent, _, _, _, _, _) => k == key && parent.Alive?
    case _ => false
  }

  /** The event is a delete of the deployment after which it is gone. */
  predicate Removes(e: Event, key: DepKey) {
    match e
    case SentJmDelete(k, ok) => k == key && ok
    case SentRtDelete(k, outcome) => k == key && !outcome.Failed?
    case SentChildDelete(k, outcome, _) => k == key && !outcome.Failed?
    case _ => false
  }

  /** The start of the current observation window. */
  function Window(log: seq<Event>, key: DepKey): Option<int> {
    if log == [] then None
    else NextWindow(Window(log[..|log| - 1], key), log[|log| - 1], key)
  }

  function NextWindow(before: Option<int>, e: Event, key: DepKey): Option<int> {
    if Keeps(e, key) || Removes(e, key) then None
    else if Marks(e, key) && before.None? then Some(e.markAt)
    else before
  }

  /** The controller's map is the set of open windows of its history. */
  ghost predicate Recorded(g: Gc) {
    forall key: DepKey :: Window(g.log, key) == if key in g.firstSeen then Some(g.firstSeen[key]) else None
  }

  lemma WindowAfter(log: seq<Event>, e: Event, key: DepKey)
    ensures Window(log + [e], key) == NextWindow(Window(log, key), e, key)
  {
    assert (log + [e])[..|log|] == log;
  }

  /** An open window began at an event that marked the deployment, and nothing since then found a
      reason to keep it or removed it. */
  predicate OpenSince(log: seq<Event>, key: DepKey, j: nat, start: int) {
    && j < |log| && Marks(log[j], key) && log[j].markAt == start
    && forall m :: j < m < |log| ==> !Keeps(log[m], key) && !Removes(log[m], key)
  }

  lemma {:induction false} WindowMeans(log: seq<Event>, key: DepKey)
    requires Window(log, key).Some?
    ensures exists j :: OpenSince(log, key, j, Window(log, key).value)
  {
    var init, e := log[..|log| - 1], log[|log| - 1];
    if Window(init, key).Some? {
      WindowMeans(init, key);
      var j :| OpenSince(init, key, j, Window(init, key).value);
      assert OpenSince(log, key, j, Window(log, key).value);
    } else {
      assert OpenSince(log, key, |log| - 1, e.markAt);
    }
  }

  /** The event ends a window: an evaluation that found an active run, a failed snapshot or a live parent, or a
      delete after which the deployment is gone. */
  predicate Ends(e: Event, key: DepKey) {
    || (e.SawJm? && e.key == key && e.defined && (!e.snapshotOk || e.active))
    || (e.SawRt? && e.key == key && e.parent == Alive)
    || (e.SentJmDelete? && e.key == key && e.ok)
    || ((e.SentRtDelete? || e.SentChildDelete?) && e.key == key && (e.outcome == Deleted || e.outcome == NotFound))
  }

  /** The event begins one, unless one is open. */
  predicate Begins(e: Event, key: DepKey) {
    || (e.SawJm? && e.key == key && e.defined && e.snapshotOk && !e.active)
    || (e.SawRt? && e.key == key && (e.parent == Gone || e.parent == Unlabelled) && e.defined
        && (!e.snapshotOk || e.active))
  }

  predicate EndsBetween(log: seq<Event>, i: nat, j: nat, key: DepKey)
    requires j <= |log|
  {
    exists m :: i < m < j && Ends(log[m], key)
  }

  lemma EndsBetweenOn(log: seq<Event>, e: Event, key: DepKey, i: nat)
    ensures forall j: nat :: j <= |log| ==> (EndsBetween(log + [e], i, j, key) <==> EndsBetween(log, i, j, key))
    ensures EndsBetween(log + [e], i, |log| + 1, key) <==> EndsBetween(log, i, |log|, key) || (i < |log| && Ends(e, key))
  {
    var longer := log + [e];
    forall j: nat | j <= |log| ensures EndsBetween(longer, i, j, key) <==> EndsBetween(log, i, j, key) {
      assert forall m :: i < m < j ==> log[m] == longer[m];
    }
    assert longer[|log|] == e;
  }

  /** The window of a key began at j, the first beginning after the last ending. */
  predicate BeganAt(log: seq<Event>, key: DepKey, j: nat) {
    && j < |log| && Begins(log[j], key) && !EndsBetween(log, j, |log|, key)
    && forall i: nat :: i < j && Begins(log[i], key) ==> EndsBetween(log, i, j, key)
  }

  predicate AllEnded(log: seq<Event>, key: DepKey) {
    forall j: nat :: j < |log| && Begins(log[j], key) ==> EndsBetween(log, j, |log|, key)
  }

  lemma BeganStays(log: seq<Event>, e: Event, key: DepKey, j: nat)
    requires BeganAt(log, key, j) && !Ends(e, key)
    ensures BeganAt(log + [e], key, j)
  {
    EndsBetweenOn(log, e, key, j);
    forall i: nat | i < j && Begins(log[i], key) ensures EndsBetween(log + [e], i, j, key) {
      EndsBetweenOn(log, e, key, i);
    }
  }

  lemma BeginsNow(log: seq<Event>, e: Event, key: DepKey)
    requires AllEnded(log, key) && Begins(e, key)
    ensures BeganAt(log + [e], key, |log|)
  {
    forall i: nat | i < |log| && Begins(log[i], key) ensures EndsBetween(log + [e], i, |log|, key) {
      EndsBetweenOn(log, e, key, i);
    }
  }

  lemma AllEndedOn(log: seq<Event>, e: Event, key: DepKey)
    requires Ends(e, key) || (AllEnded(log, key) && !Begins(e, key))
    ensures AllEnded(log + [e], key)
  {
    forall j: nat | j < |log + [e]| && Begins((log + [e])[j], key) ensures EndsBetween(log + [e], j, |log + [e]|, key) {
      assert (log + [e])[j] == if j < |log| then log[j] else e;
      EndsBetweenOn(log, e, key, j);
    }
  }

  /** Exactly when a window is open, and since when: it began at the first beginning after the last ending. */
  lemma {:induction false} WindowIsFirstMark(log: seq<Event>, key: DepKey)
    ensures Window(log, key).None? ==> AllEnded(log, key)
    ensures Window(log, key).Some? ==> exists j: nat :: BeganAt(log, key, j) && log[j].markAt == Window(log, key).value
  {
    if log != [] {
      var init, e := log[..|log| - 1], log[|log| - 1];
      assert log == init + [e];
      WindowIsFirstMark(init, key);
      if Ends(e, key) {
        AllEndedOn(init, e, key);
      } else if Window(init, key).Some? {
        var j: nat :| BeganAt(init, key, j) && init[j].markAt == Window(init, key).value;
        BeganStays(init, e, key, j);
      } else if Begins(e, key) {
        BeginsNow(init, e, key);
      } else {
        AllEndedOn(init, e, key);
      }
    }
  }

  // ── Deletes are justified by the history ──

  /** The event at i - 1 is an evaluation made at `sinceAt`, by which time the window open then had
      lasted for the timeout. */
  ghost predicate WindowElapsed(log: seq<Event>, timeout: int, i: nat, key: DepKey, sinceAt: int)
    requires i <= |log|
  {
    exists j: nat, start: int :: OpenSince(log[..i], key, j, start) && start + timeout <= sinceAt
  }

  ghost predicate JmDeleteJustified(log: seq<Event>, timeout: int, i: nat)
    requires i < |log| && log[i].SentJmDelete?
  {
    && i > 0
    && var e := log[i - 1];
       && e.SawJm? && e.key == log[i].key
       && (e.defined ==> e.snapshotOk && !e.active && WindowElapsed(log, timeout, i, e.key, e.sinceAt))
  }

  ghost predicate RtDeleteJustified(log: seq<Event>, timeout: int, i: nat)
    requires i < |log| && log[i].SentRtDelete?
  {
    && i > 0
    && var e := log[i - 1];
       && e.SawRt? && e.key == log[i].key && (e.parent.Gone? || e.parent.Unlabelled?)
       && (e.defined && !(e.snapshotOk && !e.active) ==> WindowElapsed(log, timeout, i, e.key, e.sinceAt))
  }

  /** A child goes only right after its JM was deleted successfully. */
  ghost predicate ChildDeleteJustified(log: seq<Event>, i: nat)
    requires i < |log| && log[i].SentChildDelete?
  {
    exists m ::
      && 0 <= m < i && log[m] == SentJmDelete(log[i].jm, true)
      && forall x :: m < x < i ==> log[x].SentChildDelete? && log[x].jm == log[i].jm
  }

  ghost predicate Justified(log: seq<Event>, timeout: int, i: nat)
    requires i < |log|
  {
    match log[i]
    case SentJmDelete(_, _) => JmDeleteJustified(log, timeout, i)
    case SentRtDelete(_, _) => RtDeleteJustified(log, timeout, i)
    case SentChildDelete(_, _, _) => ChildDeleteJustified(log, i)
    case _ => true
  }

  ghost predicate AllJustified(log: seq<Event>, timeout: int) {
    forall i :: 0 <= i < |log| ==> Justified(log, timeout, i)
  }

  lemma JustifiedNext(log: seq<Event>, e: Event, timeout: int)
    requires AllJustified(log, timeout) && Justified(log + [e], timeout, |log|)
    ensures AllJustified(log + [e], timeout)
  {
    var longer := log + [e];
    forall i | 0 <= i < |log| ensures Justified(longer, timeout, i) {
      assert longer[i] == log[i] && longer[..i] == log[..i];
      assert Justified(log, timeout, i);
      if log[i].SentChildDelete? {
        var m :| 0 <= m < i && log[m] == SentJmDelete(log[i].jm, true)
                 && forall x :: m < x < i ==> log[x].SentChildDelete? && log[x].jm == log[i].jm;
        assert longer[m] == log[m];
      }
    }
  }

  lemma RecordedNext(g: Gc, e: Event, next: map<DepKey, int>)
    requires Recorded(g)
    requires forall key: DepKey ::
               (if key in next then Some(next[key]) else None)
               == NextWindow(if key in g.firstSeen then Some(g.firstSeen[key]) else None, e, key)
    ensures Recorded(Gc(next, g.log + [e]))
  {
    forall key: DepKey ensures Window(g.log + [e], key) == if key in next then Some(next[key]) else None {
      WindowAfter(g.log, e, key);
    }
  }

  ghost predicate Sound(g: Gc, timeout: int) {
    Recorded(g) && AllJustified(g.log, timeout)
  }

  lemma {:induction false} DeleteChildrenSound(g: Gc, timeout: int, d: JmItem, children: seq<Child>, m: nat)
    requires Sound(g, timeout) && m < |g.log| && g.log[m] == SentJmDelete(Key(d.ns, d.name), true)
    requires forall x :: m < x < |g.log| ==> g.log[x].SentChildDelete? && g.log[x].jm == Key(d.ns, d.name)
    ensures var g' := DeleteChildren(g, d, children);
            && Sound(g', timeout) && |g'.log| > m && g'.log[m] == g.log[m]
            && forall x :: m < x < |g'.log| ==> g'.log[x].SentChildDelete? && g'.log[x].jm == Key(d.ns, d.name)
  {
    if children != [] {
      var init, c := children[..|children| - 1], children[|children| - 1];
      DeleteChildrenSound(g, timeout, d, init, m);
      if BelongsTo(c, d) {
        var rest := DeleteChildren(g, d, init);
        var e := SentChildDelete(Key(c.ns, c.name), c.outcome, Key(d.ns, d.name));
        assert (rest.log + [e])[m] == rest.log[m];
        JustifiedNext(rest.log, e, timeout);
        RecordedNext(rest, e, if c.outcome.Failed? then rest.firstSeen else rest.firstSeen - {e.key});
      }
    }
  }

  lemma DeleteJmSound(g: Gc, timeout: int, d: JmItem)
    requires Sound(g, timeout) && |g.log| > 0
    requires var e := g.log[|g.log| - 1];
             && e.SawJm? && e.key == Key(d.ns, d.name)
             && (e.defined ==> e.snapshotOk && !e.active && WindowElapsed(g.log, timeout, |g.log|, e.key, e.sinceAt))
    ensures Sound(DeleteJm(g, d), timeout)
  {
    var key := Key(d.ns, d.name);
    var e := SentJmDelete(key, d.deleteOk);
    assert (g.log + [e])[..|g.log|] == g.log[..|g.log|];
    JustifiedNext(g.log, e, timeout);
    RecordedNext(g, e, if d.deleteOk then g.firstSeen - {key} else g.firstSeen);
    if d.deleteOk && d.children.Some? {
      DeleteChildrenSound(Clear(Note(g, e), key), timeout, d, d.children.value, |g.log|);
    }
  }

  /** The window an evaluation finds or opens is the one the history records. */
  lemma ElapsedWindow(g: Gc, timeout: int, key: DepKey, sinceAt: int)
    requires Recorded(g) && key in g.firstSeen && sinceAt - g.firstSeen[key] >= timeout
    ensures WindowElapsed(g.log, timeout, |g.log|, key, sinceAt)
  {
    WindowMeans(g.log, key);
    assert g.log[..|g.log|] == g.log;
  }

  lemma EvalJmSound(g: Gc, timeout: int, v: View, d: JmItem)
    requires Sound(g, timeout)
    ensures Sound(EvalJm(g, timeout, v, d), timeout)
  {
    var key := Key(d.ns, d.name);
    var e := SawJm(v.tick, key, d.flow, d.flow in v.flows, v.snapshotOk, d.flow in v.active, d.markAt, d.sinceAt);
    JustifiedNext(g.log, e, timeout);
    if d.flow !in v.flows {
      RecordedNext(g, e, g.firstSeen);
      DeleteJmSound(Note(g, e), timeout, d);
    } else if !KnownInactive(v, d.flow) {
      RecordedNext(g, e, g.firstSeen - {key});
    } else {
      var marked := Mark(Note(g, e), key, d.markAt);
      RecordedNext(g, e, marked.firstSeen);
      if d.sinceAt - marked.firstSeen[key] >= timeout {
        ElapsedWindow(marked, timeout, key, d.sinceAt);
        DeleteJmSound(marked, timeout, d);
      }
    }
  }

  lemma DeleteRtSound(g: Gc, timeout: int, d: RtItem)
    requires Sound(g, timeout) && |g.log| > 0
    requires var e := g.log[|g.log| - 1];
             && e.SawRt? && e.key == Key(d.ns, d.name) && (e.parent.Gone? || e.parent.Unlabelled?)
             && (e.defined && !(e.snapshotOk && !e.active) ==> WindowElapsed(g.log, timeout, |g.log|, e.key, e.sinceAt))
    ensures Sound(DeleteRt(g, d), timeout)
  {
    var key := Key(d.ns, d.name);
    var e := SentRtDelete(key, d.outcome);
    assert (g.log + [e])[..|g.log|] == g.log[..|g.log|];
    JustifiedNext(g.log, e, timeout);
    RecordedNext(g, e, if d.outcome.Failed? then g.firstSeen else g.firstSeen - {key});
  }

  lemma EvalRtSound(g: Gc, timeout: int, v: View, d: RtItem)
    requires Sound(g, timeout)
    ensures Sound(EvalRt(g, timeout, v, d), timeout)
  {
    var key := Key(d.ns, d.name);
    var e := SawRt(v.tick, key, d.flow, ParentOf(d), d.flow in v.flows, v.snapshotOk, d.flow in v.active, d.markAt, d.sinceAt);
    JustifiedNext(g.log, e, timeout);
    if ParentOf(d).Alive? {
      RecordedNext(g, e, g.firstSeen - {key});
    } else if ParentOf(d).Unknown? {
      RecordedNext(g, e, g.firstSeen);
    } else if d.flow !in v.flows || KnownInactive(v, d.flow) {
      RecordedNext(g, e, g.firstSeen);
      DeleteRtSound(Note(g, e), timeout, d);
    } else {
      var marked := Mark(Note(g, e), key, d.markAt);
      RecordedNext(g, e, marked.firstSeen);
      if d.sinceAt - marked.firstSeen[key] >= timeout {
        ElapsedWindow(marked, timeout, key, d.sinceAt);
        DeleteRtSound(marked, timeout, d);
      }
    }
  }

  lemma {:induction false} JmPassSound(g: Gc, timeout: int, s: Shard, v: View, items: seq<JmItem>)
    requires Sound(g, timeout)
    ensures Sound(JmPass(g, timeout, s, v, items), timeout)
  {
    if items != [] {
      JmPassSound(g, timeout, s, v, items[..|items| - 1]);
      EvalJmSound(JmPass(g, timeout, s, v, items[..|items| - 1]), timeout, v, items[|items| - 1]);
    }
  }

  lemma {:induction false} RtPassSound(g: Gc, timeout: int, s: Shard, v: View, items: seq<RtItem>)
    requires Sound(g, timeout)
    ensures Sound(RtPass(g, timeout, s, v, items), timeout)
  {
    if items != [] {
      RtPassSound(g, timeout, s, v, items[..|items| - 1]);
      EvalRtSound(RtPass(g, timeout, s, v, items[..|items| - 1]), timeout, v, items[|items| - 1]);
    }
  }

  lemma {:induction false} HistorySound(timeout: int, s: Shard, ticks: seq<Tick>)
    ensures Sound(History(timeout, s, ticks), timeout)
  {
    if ticks != [] {
      var n := |ticks| - 1;
      var g, t := History(timeout, s, ticks[..n]), ticks[n];
      HistorySound(timeout, s, ticks[..n]);
      if t.flows.Some? {
        var v := ViewOf(s, n, t);
        if t.jms.Some? {
          JmPassSound(g, timeout, s, v, t.jms.value);
        }
        if t.rts.Some? {
          RtPassSound(if t.jms.None? then g else JmPass(g, timeout, s, v, t.jms.value), timeout, s, v, t.rts.value);
        }
      }
    }
  }

  // ── Evaluations tell the truth about the ticks ──

  predicate ViewTruthful(e: Event, s: Shard, t: Tick)
    requires e.SawJm? || e.SawRt?
  {
    && t.flows.Some? && e.flow != "" && Owns(s, t.peers, e.flow)
    && e.defined == (e.flow in t.flows.value)
    && e.snapshotOk == Snapshot(s, t, t.order).1
    && e.active == (e.flow in Snapshot(s, t, t.order).0)
  }

  predicate SeesJm(e: Event, d: JmItem)
    requires e.SawJm?
  {
    e.key == Key(d.ns, d.name) && e.flow == d.flow && e.markAt == d.markAt && e.sinceAt == d.sinceAt
  }

  predicate SeesRt(e: Event, d: RtItem)
    requires e.SawRt?
  {
    && e.key == Key(d.ns, d.name) && e.flow == d.flow && e.parent == ParentOf(d)
    && e.markAt == d.markAt && e.sinceAt == d.sinceAt
  }

  /** An evaluation in the history is about a deployment listed at its tick, with that tick's answers. */
  predicate Truthful(e: Event, s: Shard, ticks: seq<Tick>) {
    match e
    case SawJm(n, _, _, _, _, _, _, _) =>
      && n < |ticks| && ViewTruthful(e, s, ticks[n])
      && ticks[n].jms.Some? && exists d :: d in ticks[n].jms.value && SeesJm(e, d)
    case SawRt(n, _, _, _, _, _, _, _, _) =>
      && n < |ticks| && ViewTruthful(e, s, ticks[n])
      && ticks[n].rts.Some? && exists d :: d in ticks[n].rts.value && SeesRt(e, d)
    case _ => true
  }

  predicate AllTruthful(log: seq<Event>, s: Shard, ticks: seq<Tick>) {
    forall i :: 0 <= i < |log| ==> Truthful(log[i], s, ticks)
  }

  lemma {:induction false} DeleteChildrenTruthful(g: Gc, s: Shard, ticks: seq<Tick>, d: JmItem, children: seq<Child>)
    requires AllTruthful(g.log, s, ticks)
    ensures AllTruthful(DeleteChildren(g, d, children).log, s, ticks)
  {
    if children != [] {
      DeleteChildrenTruthful(g, s, ticks, d, children[..|children| - 1]);
    }
  }

  lemma DeleteJmTruthful(g: Gc, s: Shard, ticks: seq<Tick>, d: JmItem)
    requires AllTruthful(g.log, s, ticks)
    ensures AllTruthful(DeleteJm(g, d).log, s, ticks)
  {
    if d.deleteOk && d.children.Some? {
      var key := Key(d.ns, d.name);
      DeleteChildrenTruthful(Clear(Note(g, SentJmDelete(key, true)), key), s, ticks, d, d.children.value);
    }
  }

  lemma {:induction false} JmPassTruthful(g: Gc, timeout: int, s: Shard, ticks: seq<Tick>, n: nat, items: seq<JmItem>)
    requires AllTruthful(g.log, s, ticks) && n < |ticks| && ticks[n].flows.Some?
    requires ticks[n].jms.Some? && forall d :: d in items ==> d in ticks[n].jms.value
    ensures AllTruthful(JmPass(g, timeout, s, ViewOf(s, n, ticks[n]), items).log, s, ticks)
  {
    if items != [] {
      var v := ViewOf(s, n, ticks[n]);
      var init, d := items[..|items| - 1], items[|items| - 1];
      assert d in items && forall x :: x in init ==> x in items;
      JmPassTruthful(g, timeout, s, ticks, n, init);
      if d.flow != "" && Owns(s, v.peers, d.flow) {
        var rest := JmPass(g, timeout, s, v, init);
        var key := Key(d.ns, d.name);
        var e := SawJm(n, key, d.flow, d.flow in v.flows, v.snapshotOk, d.flow in v.active, d.markAt, d.sinceAt);
        assert SeesJm(e, d) && Truthful(e, s, ticks);
        var seen := Note(rest, e);
        assert AllTruthful(seen.log, s, ticks);
        DeleteJmTruthful(seen, s, ticks, d);
        DeleteJmTruthful(Mark(seen, key, d.markAt), s, ticks, d);
      }
    }
  }

  lemma {:induction false} RtPassTruthful(g: Gc, timeout: int, s: Shard, ticks: seq<Tick>, n: nat, items: seq<RtItem>)
    requires AllTruthful(g.log, s, ticks) && n < |ticks| && ticks[n].flows.Some?
    requires ticks[n].rts.Some? && forall d :: d in items ==> d in ticks[n].rts.value
    ensures AllTruthful(RtPass(g, timeout, s, ViewOf(s, n, ticks[n]), items).log, s, ticks)
  {
    if items != [] {
      var v := ViewOf(s, n, ticks[n]);
      var init, d := items[..|items| - 1], items[|items| - 1];
      assert d in items && forall x :: x in init ==> x in items;
      RtPassTruthful(g, timeout, s, ticks, n, init);
      if d.flow != "" && Owns(s, v.peers, d.flow) {
        var e := SawRt(n, Key(d.ns, d.name), d.flow, ParentOf(d), d.flow in v.flows, v.snapshotOk,
                       d.flow in v.active, d.markAt, d.sinceAt);
        assert SeesRt(e, d) && Truthful(e, s, ticks);
      }
    }
  }

  lemma TruthfulWithMoreTicks(log: seq<Event>, s: Shard, ticks: seq<Tick>, t: Tick)
    requires AllTruthful(log, s, ticks)
    ensures AllTruthful(log, s, ticks + [t])
  {
  }

  lemma {:induction false} HistoryTruthful(timeout: int, s: Shard, ticks: seq<Tick>)
    ensures AllTruthful(History(timeout, s, ticks).log, s, ticks)
  {
    if ticks != [] {
      var n := |ticks| - 1;
      var g, t := History(timeout, s, ticks[..n]), ticks[n];
      HistoryTruthful(timeout, s, ticks[..n]);
      TruthfulWithMoreTicks(g.log, s, ticks[..n], t);
      assert ticks[..n] + [t] == ticks;
      if t.flows.Some? {
        var v := ViewOf(s, n, t);
        if t.jms.Some? {
          JmPassTruthful(g, timeout, s, ticks, n, t.jms.value);
        }
        if t.rts.Some? {
          RtPassTruthful(if t.jms.None? then g else JmPass(g, timeout, s, v, t.jms.value), timeout, s, ticks, n, t.rts.value);
        }
      }
    }
  }

  /** When no JM evaluation has marked a key before, the window that lets it be collected began at an
      evaluation that found its parent missing, and none since then found the parent alive. */
  lemma OrphanWindowStartsWithMissingParent(timeout: int, s: Shard, ticks: seq<Tick>, i: nat, key: DepKey, sinceAt: int)
    requires var log := History(timeout, s, ticks).log;
             && i <= |log| && WindowElapsed(log, timeout, i, key, sinceAt)
             && forall m :: 0 <= m < i && log[m].SawJm? ==> !Marks(log[m], key)
    ensures var log := History(timeout, s, ticks).log;
            exists j ::
              && 0 <= j < i && log[j].SawRt? && log[j].key == key
              && (log[j].parent.Gone? || log[j].parent.Unlabelled?)
              && log[j].markAt + timeout <= sinceAt
              && forall m :: j < m < i && log[m].SawRt? && log[m].key == key ==> !log[m].parent.Alive?
  {
    var log := History(timeout, s, ticks).log;
    var j: nat, start: int :| OpenSince(log[..i], key, j, start) && start + timeout <= sinceAt;
    assert log[..i][j] == log[j];
    forall m | j < m < i && log[m].SawRt? && log[m].key == key ensures !log[m].parent.Alive? {
      assert log[..i][m] == log[m];
    }
  }

  // ── When one evaluation sends a delete ──

  /** When an evaluation of a JM deployment sends a delete, in both directions: the flow is gone, or it is
      known inactive and its window, counting one opened by this very evaluation, has lasted. */
  lemma JmDeleteSentExactlyWhen(g: Gc, timeout: int, v: View, d: JmItem)
    requires Recorded(g)
    ensures var g' := EvalJm(g, timeout, v, d);
            var window := Window(g.log, Key(d.ns, d.name));
            && |g'.log| > |g.log| && g'.log[..|g.log|] == g.log && g'.log[|g.log|].SawJm?
            && ((|g'.log| > |g.log| + 1 && g'.log[|g.log| + 1] == SentJmDelete(Key(d.ns, d.name), d.deleteOk))
                <==> || d.flow !in v.flows
                     || (KnownInactive(v, d.flow)
                         && d.sinceAt - (if window.Some? then window.value else d.markAt) >= timeout))
            && (|g'.log| == |g.log| + 1
                <==> !(|g'.log| > |g.log| + 1 && g'.log[|g.log| + 1] == SentJmDelete(Key(d.ns, d.name), d.deleteOk)))
  {
    var key := Key(d.ns, d.name);
    assert Window(g.log, key) == if key in g.firstSeen then Some(g.firstSeen[key]) else None;
    if d.deleteOk && d.children.Some? {
      forall base: Gc ensures base.log <= DeleteChildren(base, d, d.children.value).log {
        ChildrenExtendLog(base, d, d.children.value);
      }
    }
  }

  lemma {:induction false} ChildrenExtendLog(g: Gc, d: JmItem, children: seq<Child>)
    ensures g.log <= DeleteChildren(g, d, children).log
  {
    if children != [] {
      ChildrenExtendLog(g, d, children[..|children| - 1]);
    }
  }

  /** When orphan collection sends a delete, in both directions. */
  lemma RtDeleteSentExactlyWhen(g: Gc, timeout: int, v: View, d: RtItem)
    requires Recorded(g)
    ensures var g' := EvalRt(g, timeout, v, d);
            var window := Window(g.log, Key(d.ns, d.name));
            && |g.log| + 1 <= |g'.log| <= |g.log| + 2 && g'.log[..|g.log|] == g.log && g'.log[|g.log|].SawRt?
            && (|g'.log| == |g.log| + 2 ==> g'.log[|g.log| + 1] == SentRtDelete(Key(d.ns, d.name), d.outcome))
            && (|g'.log| == |g.log| + 2
                <==> (d.parentName == "" || d.parentNs == "" || d.lookup.Missing?)
                     && (|| d.flow !in v.flows
                         || KnownInactive(v, d.flow)
                         || d.sinceAt - (if window.Some? then window.value else d.markAt) >= timeout))
  {
    var key := Key(d.ns, d.name);
    assert Window(g.log, key) == if key in g.firstSeen then Some(g.firstSeen[key]) else None;
  }

  // ── The controller object ──

  class Controller {
    const shard: Shard
    const timeout: int
    var firstSeen: map<DepKey, int>
    ghost var log: seq<Event>

    constructor (shard: Shard, configuredTimeout: int)
      ensures State() == IDLE && this.shard == shard && timeout == EffectiveTimeout(configuredTimeout)
    {
      this.shard, timeout := shard, EffectiveTimeout(configuredTimeout);
      firstSeen, log := map[], [];
    }

    ghost function State(): Gc
      reads this
    {
      Gc(firstSeen, log)
    }

    method OwnsFlow(peers: seq<string>, flow: FlowId) returns (owns: bool)
      ensures owns <==> Owns(shard, peers, flow)
    {
      if |peers| == 0 {
        return true;
      }
      var mine := shard.index(flow, |peers|);
      for i := 0 to |peers|
        invariant forall j :: 0 <= j < i ==> !(peers[j] == shard.self && j == mine)
      {
        if peers[i] == shard.self && i == mine {
          return true;
        }
      }
      owns := false;
    }

    method CollectActiveRunFlows(t: Tick) returns (active: set<FlowId>, ok: bool)
      ensures (active, ok) == Snapshot(shard, t, t.order)
      ensures ok <==> forall f :: f in t.order && Owns(shard, t.peers, f) ==> Answered(t, f)
      ensures ok ==> forall f :: f in active <==> f in t.order && Owns(shard, t.peers, f) && !AllEmpty(t, f)
    {
      SnapshotInAnswers(shard, t, t.order);
      active := {};
      for i := 0 to |t.order|
        invariant (active, true) == Snapshot(shard, t, t.order[..i])
      {
        var flow := t.order[i];
        assert t.order[..i + 1][..i] == t.order[..i];
        var owns := OwnsFlow(t.peers, flow);
        if owns {
          var found := QueryFlow(t, flow);
          if found.None? {
            SnapshotStopsAt(t, i + 1);
            return active, false;
          }
          if found.value {
            active := active + {flow};
          }
        }
      }
      assert t.order[..|t.order|] == t.order;
      ok := true;
    }

    /** The rest of the walk changes nothing once a query has failed. */
    lemma {:induction false} SnapshotStopsAt(t: Tick, n: nat)
      requires n <= |t.order| && !Snapshot(shard, t, t.order[..n]).1
      ensures Snapshot(shard, t, t.order) == Snapshot(shard, t, t.order[..n])
      decreases |t.order| - n
    {
      if n < |t.order| {
        assert t.order[..n + 1][..n] == t.order[..n];
        SnapshotStopsAt(t, n + 1);
      } else {
        assert t.order[..n] == t.order;
      }
    }

    method QueryFlow(t: Tick, flow: FlowId) returns (found: Option<bool>)
      ensures found == Query(t, flow, ACTIVE_STATUSES)
    {
      for i := 0 to |ACTIVE_STATUSES|
        invariant Query(t, flow, ACTIVE_STATUSES) == Query(t, flow, ACTIVE_STATUSES[i..])
      {
        assert ACTIVE_STATUSES[i..][1..] == ACTIVE_STATUSES[i + 1..];
        var answer := t.answer(flow, ACTIVE_STATUSES[i]);
        if answer.None? {
          return None;
        }
        if answer.value > 0 {
          return Some(true);
        }
      }
      found := Some(false);
    }

    method MarkRuntimeCleanup(ns: string, name: string, markAt: int, sinceAt: int) returns (age: int)
      modifies this`firstSeen
      ensures State() == Mark(old(State()), Key(ns, name), markAt)
      ensures Key(ns, name) in firstSeen && age == sinceAt - firstSeen[Key(ns, name)]
    {
      var key := Key(ns, name);
      if key !in firstSeen {
        firstSeen := firstSeen[key := markAt];
      }
      age := sinceAt - firstSeen[key];
    }

    method ClearRuntimeCleanup(ns: string, name: string)
      modifies this`firstSeen
      ensures State() == Clear(old(State()), Key(ns, name))
    {
      firstSeen := firstSeen - {Key(ns, name)};
    }

    method GcOrphanedJms(v: View, items: seq<JmItem>)
      modifies this
      ensures State() == JmPass(old(State()), timeout, shard, v, items)
    {
      for i := 0 to |items|
        invariant State() == JmPass(old(State()), timeout, shard, v, items[..i])
      {
        assert items[..i + 1][..i] == items[..i];
        var d := items[i];
        var owns := OwnsFlow(v.peers, d.flow);
        if d.flow != "" && owns {
          CollectJm(v, d);
        }
      }
      assert items[..|items|] == items;
    }

    method CollectJm(v: View, d: JmItem)
      modifies this
      ensures State() == EvalJm(old(State()), timeout, v, d)
    {
      log := log + [SawJm(v.tick, Key(d.ns, d.name), d.flow, d.flow in v.flows, v.snapshotOk, d.flow in v.active,
                          d.markAt, d.sinceAt)];
      if d.flow in v.flows {
        if !(v.snapshotOk && d.flow !in v.active) {
          ClearRuntimeCleanup(d.ns, d.name);
          return;
        }
        var age := MarkRuntimeCleanup(d.ns, d.name, d.markAt, d.sinceAt);
        if age < timeout {
          return;
        }
      }
      log := log + [SentJmDelete(Key(d.ns, d.name), d.deleteOk)];
      if !d.deleteOk {
        return;
      }
      ClearRuntimeCleanup(d.ns, d.name);
      if d.children.Some? {
        DeleteRuntimeDeploymentsForFlow(d, d.children.value);
      }
    }

    method DeleteRuntimeDeploymentsForFlow(d: JmItem, children: seq<Child>)
      modifies this
      ensures State() == DeleteChildren(old(State()), d, children)
      ensures log == old(log) + ChildDeletes(d, children)
    {
      DeleteChildrenLog(State(), d, children);
      for i := 0 to |children|
        invariant State() == DeleteChildren(old(State()), d, children[..i])
      {
        assert children[..i + 1][..i] == children[..i];
        var c := children[i];
        if d.namespaceId != "" && c.namespaceId != d.namespaceId {
          continue;
        }
        if d.name != "" && c.parentName != d.name {
          continue;
        }
        if d.ns != "" && c.parentNs != d.ns {
          continue;
        }
        log := log + [SentChildDelete(Key(c.ns, c.name), c.outcome, Key(d.ns, d.name))];
        if !c.outcome.Failed? {
          ClearRuntimeCleanup(c.ns, c.name);
        }
      }
      assert children[..|children|] == children;
    }

    method GcOrphanedRuntimes(v: View, items: seq<RtItem>)
      modifies this
      ensures State() == RtPass(old(State()), timeout, shard, v, items)
    {
      for i := 0 to |items|
        invariant State() == RtPass(old(State()), timeout, shard, v, items[..i])
      {
        assert items[..i + 1][..i] == items[..i];
        var d := items[i];
        var owns := OwnsFlow(v.peers, d.flow);
        if d.flow != "" && owns {
          CollectRuntime(v, d);
        }
      }
      assert items[..|items|] == items;
    }

    method CollectRuntime(v: View, d: RtItem)
      modifies this
      ensures State() == EvalRt(old(State()), timeout, v, d)
    {
      log := log + [SawRt(v.tick, Key(d.ns, d.name), d.flow, ParentOf(d), d.flow in v.flows, v.snapshotOk,
                          d.flow in v.active, d.markAt, d.sinceAt)];
      if d.parentName != "" && d.parentNs != "" {
        if d.lookup.Found? {
          ClearRuntimeCleanup(d.ns, d.name);
          return;
        } else if !d.lookup.Missing? {
          return;
        }
      }
      if d.flow in v.flows && !(v.snapshotOk && d.flow !in v.active) {
        var age := MarkRuntimeCleanup(d.ns, d.name, d.markAt, d.sinceAt);
        if age < timeout {
          return;
        }
      }
      log := log + [SentRtDelete(Key(d.ns, d.name), d.outcome)];
      if !d.outcome.Failed? {
        ClearRuntimeCleanup(d.ns, d.name);
      }
    }

    method ReconcileTick(n: nat, t: Tick)
      modifies this
      ensures State() == Reconcile(old(State()), timeout, shard, n, t)
    {
      if t.flows.None? {
        return;
      }
      var active, ok := CollectActiveRunFlows(t);
      var v := View(n, t.peers, t.flows.value, active, ok);
      assert v == ViewOf(shard, n, t);
      if t.jms.Some? {
        GcOrphanedJms(v, t.jms.value);
      }
      if t.rts.Some? {
        GcOrphanedRuntimes(v, t.rts.value);
      }
    }

    /** The controller's life: its state after any run of ticks is the history those ticks give. */
    method RunTicks(ticks: seq<Tick>)
      requires State() == IDLE
      modifies this
      ensures State() == History(timeout, shard, ticks)
    {
      for n := 0 to |ticks|
        invariant State() == History(timeout, shard, ticks[..n])
      {
        assert ticks[..n + 1][..n] == ticks[..n];
        ReconcileTick(n, ticks[n]);
      }
      assert ticks[..|ticks|] == ticks;
    }
  }
}
