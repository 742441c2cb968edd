/** The garbage collector's safety claims, about runs of ticks: every owned deployment a tick lists
    is evaluated at that tick, evaluations come in order, and a delete is explained by what the ticks
    of the run answered. */
module GcRuns {
  import opened Common
  import opened ControllerGc

  // ── What an evaluation adds to the history ──

  function JmSaw(v: View, d: JmItem): Event {
    SawJm(v.tick, Key(d.ns, d.name), d.flow, d.flow in v.flows, v.snapshotOk, d.flow in v.active, d.markAt, d.sinceAt)
  }

  function RtSaw(v: View, d: RtItem): Event {
    SawRt(v.tick, Key(d.ns, d.name), d.flow, ParentOf(d), d.flow in v.flows, v.snapshotOk, d.flow in v.active,
          d.markAt, d.sinceAt)
  }

  /** The deletes sent along with that of a JM. */
  function SentAlong(d: JmItem): seq<Event> {
    if d.deleteOk && d.children.Some? then ChildDeletes(d, d.children.value) else []
  }

  lemma DeleteJmLog(g: Gc, d: JmItem)
    ensures DeleteJm(g, d).log == g.log + ([SentJmDelete(Key(d.ns, d.name), d.deleteOk)] + SentAlong(d))
  {
    if d.deleteOk && d.children.Some? {
      var sent := Note(g, SentJmDelete(Key(d.ns, d.name), true));
      DeleteChildrenLog(Clear(sent, Key(d.ns, d.name)), d, d.children.value);
    }
  }

  lemma EvalJmLog(g: Gc, timeout: int, v: View, d: JmItem)
    ensures var seen := g.log + [JmSaw(v, d)];
            || EvalJm(g, timeout, v, d).log == seen
            || EvalJm(g, timeout, v, d).log == seen + ([SentJmDelete(Key(d.ns, d.name), d.deleteOk)] + SentAlong(d))
  {
    var seen := Note(g, JmSaw(v, d));
    DeleteJmLog(seen, d);
    DeleteJmLog(Mark(seen, Key(d.ns, d.name), d.markAt), d);
  }

  lemma EvalRtLog(g: Gc, timeout: int, v: View, d: RtItem)
    ensures var seen := g.log + [RtSaw(v, d)];
            || EvalRt(g, timeout, v, d).log == seen
            || EvalRt(g, timeout, v, d).log == seen + [SentRtDelete(Key(d.ns, d.name), d.outcome)]
  {
  }

  // ── Passes: the JM pass of tick n is number 2n, its runtime pass number 2n + 1 ──

  function PassOf(e: Event): Option<nat> {
    match e
    case SawJm(n, _, _, _, _, _, _, _) => Some(2 * n)
    case SawRt(n, _, _, _, _, _, _, _, _) => Some(2 * n + 1)
    case _ => None
  }

  /** The longer log continues the shorter, with evaluations from the passes lo to hi only. */
  predicate Grows(log: seq<Event>, longer: seq<Event>, lo: nat, hi: nat) {
    && log <= longer
    && forall m :: |log| <= m < |longer| && PassOf(longer[m]).Some? ==> lo <= PassOf(longer[m]).value <= hi
  }

  lemma GrowsOn(a: seq<Event>, b: seq<Event>, c: seq<Event>, lo: nat, hi: nat)
    requires Grows(a, b, lo, hi) && Grows(b, c, lo, hi)
    ensures Grows(a, c, lo, hi)
  {
  }

  lemma {:induction false} ChildDeletesAreNoPass(d: JmItem, children: seq<Child>)
    ensures forall e :: e in ChildDeletes(d, children) ==> e.SentChildDelete?
  {
    if children != [] {
      ChildDeletesAreNoPass(d, children[..|children| - 1]);
    }
  }

  lemma SentAlongIsNoPass(d: JmItem)
    ensures forall e :: e in SentAlong(d) ==> e.SentChildDelete?
  {
    if d.children.Some? {
      ChildDeletesAreNoPass(d, d.children.value);
    }
  }

  lemma EvalJmGrows(g: Gc, timeout: int, v: View, d: JmItem)
    ensures var log := EvalJm(g, timeout, v, d).log;
            Grows(g.log, log, 2 * v.tick, 2 * v.tick) && |log| > |g.log| && log[|g.log|] == JmSaw(v, d)
  {
    EvalJmLog(g, timeout, v, d);
    SentAlongIsNoPass(d);
    var tail := [SentJmDelete(Key(d.ns, d.name), d.deleteOk)] + SentAlong(d);
    forall k | 0 <= k < |tail| ensures PassOf(tail[k]).None? {
      assert tail[k] in tail;
    }
  }

  lemma EvalRtGrows(g: Gc, timeout: int, v: View, d: RtItem)
    ensures var log := EvalRt(g, timeout, v, d).log;
            Grows(g.log, log, 2 * v.tick + 1, 2 * v.tick + 1) && |log| > |g.log| && log[|g.log|] == RtSaw(v, d)
  {
    EvalRtLog(g, timeout, v, d);
  }

  /** The JM pass evaluates every owned item of the listing. */
  lemma {:induction false} JmPassEvaluates(g: Gc, timeout: int, s: Shard, v: View, items: seq<JmItem>)
    ensures var log := JmPass(g, timeout, s, v, items).log;
            && Grows(g.log, log, 2 * v.tick, 2 * v.tick)
            && forall d :: d in items && d.flow != "" && Owns(s, v.peers, d.flow) ==> JmSaw(v, d) in log[|g.log|..]
  {
    if items != [] {
      var init, d := items[..|items| - 1], items[|items| - 1];
      var rest, all := JmPass(g, timeout, s, v, init), JmPass(g, timeout, s, v, items);
      JmPassEvaluates(g, timeout, s, v, init);
      if d.flow != "" && Owns(s, v.peers, d.flow) {
        EvalJmGrows(rest, timeout, v, d);
        GrowsOn(g.log, rest.log, all.log, 2 * v.tick, 2 * v.tick);
        assert all.log[|g.log|..][|rest.log| - |g.log|] == JmSaw(v, d);
      }
      StillIn(g.log, rest.log, all.log);
      assert items == init + [d];
    }
  }

  lemma StillIn(a: seq<Event>, b: seq<Event>, c: seq<Event>)
    requires a <= b <= c
    ensures forall e :: e in b[|a|..] ==> e in c[|a|..]
  {
    assert b[|a|..] <= c[|a|..];
  }

  /** The runtime pass evaluates every owned item of the listing. */
  lemma {:induction false} RtPassEvaluates(g: Gc, timeout: int, s: Shard, v: View, items: seq<RtItem>)
    ensures var log := RtPass(g, timeout, s, v, items).log;
            && Grows(g.log, log, 2 * v.tick + 1, 2 * v.tick + 1)
            && forall d :: d in items && d.flow != "" && Owns(s, v.peers, d.flow) ==> RtSaw(v, d) in log[|g.log|..]
  {
    if items != [] {
      var init, d := items[..|items| - 1], items[|items| - 1];
      var rest, all := RtPass(g, timeout, s, v, init), RtPass(g, timeout, s, v, items);
      RtPassEvaluates(g, timeout, s, v, init);
      if d.flow != "" && Owns(s, v.peers, d.flow) {
        EvalRtGrows(rest, timeout, v, d);
        GrowsOn(g.log, rest.log, all.log, 2 * v.tick + 1, 2 * v.tick + 1);
        assert all.log[|g.log|..][|rest.log| - |g.log|] == RtSaw(v, d);
      }
      StillIn(g.log, rest.log, all.log);
      assert items == init + [d];
    }
  }

  // ── What a tick lists ──

  /** A JM deployment the controller has to look at in this tick. */
  predicate ListedJm(s: Shard, t: Tick, d: JmItem) {
    t.flows.Some? && t.jms.Some? && d in t.jms.value && d.flow != "" && Owns(s, t.peers, d.flow)
  }

  predicate ListedRt(s: Shard, t: Tick, d: RtItem) {
    t.flows.Some? && t.rts.Some? && d in t.rts.value && d.flow != "" && Owns(s, t.peers, d.flow)
  }

  predicate InOrder(log: seq<Event>) {
    forall a, b :: 0 <= a < b < |log| && PassOf(log[a]).Some? && PassOf(log[b]).Some? ==>
                     PassOf(log[a]).value <= PassOf(log[b]).value
  }

  lemma InOrderOn(log: seq<Event>, longer: seq<Event>, lo: nat, hi: nat)
    requires InOrder(log) && Grows(log, longer, lo, hi) && lo == hi
    requires forall m :: 0 <= m < |log| && PassOf(log[m]).Some? ==> PassOf(log[m]).value <= lo
    ensures InOrder(longer)
    ensures forall m :: 0 <= m < |longer| && PassOf(longer[m]).Some? ==> PassOf(longer[m]).value <= hi
  {
    forall a, b | 0 <= a < b < |longer| && PassOf(longer[a]).Some? && PassOf(longer[b]).Some?
      ensures PassOf(longer[a]).value <= PassOf(longer[b]).value {
      assert a < |log| ==> longer[a] == log[a];
      assert b < |log| ==> longer[b] == log[b];
    }
  }

  predicate Before(log: seq<Event>, pass: nat) {
    forall m :: 0 <= m < |log| && PassOf(log[m]).Some? ==> PassOf(log[m]).value < pass
  }

  /** Over every run, evaluations appear in the order of the ticks, a tick's JM deployments first. */
  lemma {:induction false} EvaluationsInOrder(timeout: int, s: Shard, ticks: seq<Tick>)
    ensures InOrder(History(timeout, s, ticks).log) && Before(History(timeout, s, ticks).log, 2 * |ticks|)
  {
    if ticks != [] {
      var n := |ticks| - 1;
      var g, t := History(timeout, s, ticks[..n]), ticks[n];
      EvaluationsInOrder(timeout, s, ticks[..n]);
      if t.flows.Some? {
        var v := ViewOf(s, n, t);
        var afterJms := if t.jms.None? then g else JmPass(g, timeout, s, v, t.jms.value);
        if t.jms.Some? {
          JmPassEvaluates(g, timeout, s, v, t.jms.value);
          InOrderOn(g.log, afterJms.log, 2 * n, 2 * n);
        }
        if t.rts.Some? {
          RtPassEvaluates(afterJms, timeout, s, v, t.rts.value);
          InOrderOn(afterJms.log, RtPass(afterJms, timeout, s, v, t.rts.value).log, 2 * n + 1, 2 * n + 1);
        }
      }
    }
  }

  lemma ReconcileEvaluates(g: Gc, timeout: int, s: Shard, n: nat, t: Tick)
    ensures g.log <= Reconcile(g, timeout, s, n, t).log
    ensures forall d :: ListedJm(s, t, d) ==> JmSaw(ViewOf(s, n, t), d) in Reconcile(g, timeout, s, n, t).log
    ensures forall d :: ListedRt(s, t, d) ==> RtSaw(ViewOf(s, n, t), d) in Reconcile(g, timeout, s, n, t).log
  {
    if t.flows.Some? {
      var v := ViewOf(s, n, t);
      var afterJms := if t.jms.None? then g else JmPass(g, timeout, s, v, t.jms.value);
      if t.jms.Some? {
        JmPassEvaluates(g, timeout, s, v, t.jms.value);
      }
      if t.rts.Some? {
        RtPassEvaluates(afterJms, timeout, s, v, t.rts.value);
      }
    }
  }

  /** Over every run, each owned deployment a tick lists is evaluated at that tick, with its answers. */
  lemma {:induction false} EveryListedIsEvaluated(timeout: int, s: Shard, ticks: seq<Tick>, n: nat)
    requires n < |ticks|
    ensures forall d :: ListedJm(s, ticks[n], d) ==> JmSaw(ViewOf(s, n, ticks[n]), d) in History(timeout, s, ticks).log
    ensures forall d :: ListedRt(s, ticks[n], d) ==> RtSaw(ViewOf(s, n, ticks[n]), d) in History(timeout, s, ticks).log
  {
    var last := |ticks| - 1;
    ReconcileEvaluates(History(timeout, s, ticks[..last]), timeout, s, last, ticks[last]);
    if n < last {
      EveryListedIsEvaluated(timeout, s, ticks[..last], n);
    }
  }

  // ── Reasons to keep and reasons to collect, read off the ticks ──

  /** The walk over a tick's definitions visits each of them. */
  ghost predicate Walked(t: Tick) {
    t.flows.Some? ==> forall f :: f in t.flows.value <==> f in t.order
  }

  ghost predicate AllWalked(ticks: seq<Tick>) {
    forall n :: 0 <= n < |ticks| ==> Walked(ticks[n])
  }

  /** The queries about every owned flow went as far as they had to, and all three about this flow were answered
      with nothing. */
  ghost predicate IdleForSure(s: Shard, t: Tick, flow: FlowId) {
    && t.flows.Some?
    && (forall f :: f in t.flows.value && Owns(s, t.peers, f) ==> Answered(t, f))
    && t.answer(flow, Pending) == Some(0) && t.answer(flow, Running) == Some(0) && t.answer(flow, Paused) == Some(0)
  }

  lemma InactiveIsIdle(s: Shard, t: Tick, flow: FlowId)
    requires Walked(t) && t.flows.Some? && flow in t.flows.value && Owns(s, t.peers, flow)
    ensures (Snapshot(s, t, t.order).1 && flow !in Snapshot(s, t, t.order).0) <==> IdleForSure(s, t, flow)
  {
    SnapshotInAnswers(s, t, t.order);
  }

  /** In this tick the key is listed as a JM deployment of a defined flow that is idle for sure. */
  ghost predicate MarksJm(s: Shard, t: Tick, key: DepKey, d: JmItem) {
    ListedJm(s, t, d) && Key(d.ns, d.name) == key && d.flow in t.flows.value && IdleForSure(s, t, d.flow)
  }

  /** In this tick the key is listed as a JM deployment of a defined flow that has an active run, or may have. */
  ghost predicate KeepsJm(s: Shard, t: Tick, key: DepKey, d: JmItem) {
    ListedJm(s, t, d) && Key(d.ns, d.name) == key && d.flow in t.flows.value && !IdleForSure(s, t, d.flow)
  }

  /** In this tick the key is listed as a runtime deployment without its parent, of a flow that may be active. */
  ghost predicate MarksRt(s: Shard, t: Tick, key: DepKey, d: RtItem) {
    && ListedRt(s, t, d) && Key(d.ns, d.name) == key && (d.parentName == "" || d.parentNs == "" || d.lookup == Missing)
    && d.flow in t.flows.value && !IdleForSure(s, t, d.flow)
  }

  predicate KeepsRt(s: Shard, t: Tick, key: DepKey, d: RtItem) {
    ListedRt(s, t, d) && Key(d.ns, d.name) == key && d.parentName != "" && d.parentNs != "" && d.lookup == Found
  }

  /** The pass gave a reason to collect the key after a while, and noted an instant no later than `latest`. */
  ghost predicate Opens(s: Shard, ticks: seq<Tick>, pass: nat, key: DepKey, latest: int)
    requires pass < 2 * |ticks|
  {
    var t := ticks[pass / 2];
    if pass % 2 == 0 then exists d :: MarksJm(s, t, key, d) && d.markAt <= latest
    else exists d :: MarksRt(s, t, key, d) && d.markAt <= latest
  }

  /** The pass gave a reason to keep the key. */
  ghost predicate Closes(s: Shard, ticks: seq<Tick>, pass: nat, key: DepKey)
    requires pass < 2 * |ticks|
  {
    var t := ticks[pass / 2];
    if pass % 2 == 0 then exists d :: KeepsJm(s, t, key, d) else exists d :: KeepsRt(s, t, key, d)
  }

  /** An evaluation in the history, as the ticks explain it. */
  lemma EvaluationMeans(timeout: int, s: Shard, ticks: seq<Tick>, j: nat)
    requires AllWalked(ticks)
    requires var log := History(timeout, s, ticks).log; j < |log| && PassOf(log[j]).Some?
    ensures var e := History(timeout, s, ticks).log[j];
            && e.tick < |ticks| && PassOf(e).value / 2 == e.tick && PassOf(e).value % 2 == (if e.SawJm? then 0 else 1)
            && var t := ticks[e.tick];
               && (e.SawJm? ==> exists d :: ListedJm(s, t, d) && e == JmSaw(ViewOf(s, e.tick, t), d))
               && (e.SawRt? ==> exists d :: ListedRt(s, t, d) && e == RtSaw(ViewOf(s, e.tick, t), d))
  {
    HistoryTruthful(timeout, s, ticks);
    var e := History(timeout, s, ticks).log[j];
    assert Truthful(e, s, ticks);
    var t := ticks[e.tick];
    if e.SawJm? {
      var d :| d in t.jms.value && SeesJm(e, d);
      assert ListedJm(s, t, d) && e == JmSaw(ViewOf(s, e.tick, t), d);
    } else {
      var d :| d in t.rts.value && SeesRt(e, d);
      assert ListedRt(s, t, d) && e == RtSaw(ViewOf(s, e.tick, t), d);
    }
  }

  lemma JmSawMeans(s: Shard, n: nat, t: Tick, d: JmItem)
    requires Walked(t) && ListedJm(s, t, d)
    ensures var e, key := JmSaw(ViewOf(s, n, t), d), Key(d.ns, d.name);
            (Marks(e, key) <==> MarksJm(s, t, key, d)) && (Keeps(e, key) <==> KeepsJm(s, t, key, d))
  {
    if d.flow in t.flows.value {
      InactiveIsIdle(s, t, d.flow);
    }
  }

  lemma RtSawMeans(s: Shard, n: nat, t: Tick, d: RtItem)
    requires Walked(t) && ListedRt(s, t, d)
    ensures var e, key := RtSaw(ViewOf(s, n, t), d), Key(d.ns, d.name);
            (Marks(e, key) <==> MarksRt(s, t, key, d)) && (Keeps(e, key) <==> KeepsRt(s, t, key, d))
  {
    if d.flow in t.flows.value {
      InactiveIsIdle(s, t, d.flow);
    }
  }

  lemma MarkOpens(timeout: int, s: Shard, ticks: seq<Tick>, j: nat, key: DepKey)
    requires AllWalked(ticks)
    requires var log := History(timeout, s, ticks).log; j < |log| && Marks(log[j], key)
    ensures var e := History(timeout, s, ticks).log[j];
            PassOf(e).value < 2 * |ticks| && Opens(s, ticks, PassOf(e).value, key, e.markAt)
  {
    EvaluationMeans(timeout, s, ticks, j);
    var e := History(timeout, s, ticks).log[j];
    var t := ticks[e.tick];
    if e.SawJm? {
      var d :| ListedJm(s, t, d) && e == JmSaw(ViewOf(s, e.tick, t), d);
      JmSawMeans(s, e.tick, t, d);
      assert MarksJm(s, t, key, d);
    } else {
      var d :| ListedRt(s, t, d) && e == RtSaw(ViewOf(s, e.tick, t), d);
      RtSawMeans(s, e.tick, t, d);
      assert MarksRt(s, t, key, d);
    }
  }

  /** A reason to keep that a tick gives is in the history, as an evaluation of its pass. */
  lemma ClosingIsLogged(timeout: int, s: Shard, ticks: seq<Tick>, pass: nat, key: DepKey) returns (m: nat)
    requires AllWalked(ticks) && pass < 2 * |ticks| && Closes(s, ticks, pass, key)
    ensures var log := History(timeout, s, ticks).log;
            m < |log| && PassOf(log[m]) == Some(pass) && Keeps(log[m], key)
  {
    var n := pass / 2;
    var t, log := ticks[n], History(timeout, s, ticks).log;
    EveryListedIsEvaluated(timeout, s, ticks, n);
    if pass % 2 == 0 {
      var d :| KeepsJm(s, t, key, d);
      JmSawMeans(s, n, t, d);
      m :| 0 <= m < |log| && log[m] == JmSaw(ViewOf(s, n, t), d);
    } else {
      var d :| KeepsRt(s, t, key, d);
      RtSawMeans(s, n, t, d);
      m :| 0 <= m < |log| && log[m] == RtSaw(ViewOf(s, n, t), d);
    }
  }

  /** A window that has lasted was opened by a pass, and no pass between that one and the evaluation that
      finds it so gave a reason to keep the deployment. */
  lemma WindowOverTicks(timeout: int, s: Shard, ticks: seq<Tick>, i: nat, key: DepKey, sinceAt: int) returns (opening: nat)
    requires AllWalked(ticks)
    requires var log := History(timeout, s, ticks).log;
             0 < i <= |log| && PassOf(log[i - 1]).Some? && WindowElapsed(log, timeout, i, key, sinceAt)
    ensures var end := PassOf(History(timeout, s, ticks).log[i - 1]).value;
            && opening <= end < 2 * |ticks|
            && Opens(s, ticks, opening, key, sinceAt - timeout)
            && forall pass :: opening < pass < end ==> !Closes(s, ticks, pass, key)
  {
    var log := History(timeout, s, ticks).log;
    var end := PassOf(log[i - 1]).value;
    EvaluationMeans(timeout, s, ticks, i - 1);
    EvaluationsInOrder(timeout, s, ticks);
    var j: nat, start: int :| OpenSince(log[..i], key, j, start) && start + timeout <= sinceAt;
    assert log[..i][j] == log[j];
    opening := PassOf(log[j]).value;
    MarkOpens(timeout, s, ticks, j, key);
    WeakerOpens(s, ticks, opening, key, start, sinceAt - timeout);
    forall m | j < m < i ensures !Keeps(log[m], key) {
      assert log[..i][m] == log[m];
    }
    forall pass | opening < pass < end ensures !Closes(s, ticks, pass, key) {
      NothingCloses(timeout, s, ticks, j, i - 1, key, pass);
    }
  }

  lemma NothingCloses(timeout: int, s: Shard, ticks: seq<Tick>, j: nat, k: nat, key: DepKey, pass: nat)
    requires AllWalked(ticks) && pass < 2 * |ticks|
    requires var log := History(timeout, s, ticks).log;
             && j < |log| && k < |log| && InOrder(log)
             && PassOf(log[j]).Some? && PassOf(log[k]).Some? && PassOf(log[j]).value < pass < PassOf(log[k]).value
             && forall m :: j < m <= k ==> !Keeps(log[m], key)
    ensures !Closes(s, ticks, pass, key)
  {
    if Closes(s, ticks, pass, key) {
      var m := ClosingIsLogged(timeout, s, ticks, pass, key);
      assert false;
    }
  }

  lemma WeakerOpens(s: Shard, ticks: seq<Tick>, pass: nat, key: DepKey, latest: int, later: int)
    requires pass < 2 * |ticks| && Opens(s, ticks, pass, key, latest) && latest <= later
    ensures Opens(s, ticks, pass, key, later)
  {
  }

  // ── The safety claims ──

  /** Over any run of ticks: a delete sent to a JM deployment is sent at a tick that lists it. If its flow is
      defined at that tick, then the flow is idle for sure there, and some earlier pass opened a window that
      has lasted for the timeout, since when no pass found a reason to keep it: no tick in between listed it
      with an active run or with a failed snapshot. Unless the same key was listed as a runtime deployment
      before, that pass too found its flow defined and idle for sure. */
  lemma JmDeletionIsJustified(timeout: int, s: Shard, ticks: seq<Tick>, i: nat)
    returns (n: nat, d: JmItem, opening: nat)
    requires AllWalked(ticks)
    requires var log := History(timeout, s, ticks).log; i < |log| && log[i].SentJmDelete?
    ensures n < |ticks| && ListedJm(s, ticks[n], d)
    ensures var log := History(timeout, s, ticks).log;
            log[i].key == Key(d.ns, d.name) && i > 0 && log[i - 1] == JmSaw(ViewOf(s, n, ticks[n]), d)
    ensures d.flow in ticks[n].flows.value ==>
              var key := Key(d.ns, d.name);
              && IdleForSure(s, ticks[n], d.flow)
              && opening <= 2 * n
              && Opens(s, ticks, opening, key, d.sinceAt - timeout)
              && (forall pass :: opening < pass < 2 * n ==> !Closes(s, ticks, pass, key))
              && ((forall m, r :: 0 <= m < n && ListedRt(s, ticks[m], r) ==> Key(r.ns, r.name) != key) ==>
                    opening % 2 == 0
                    && exists d0 :: MarksJm(s, ticks[opening / 2], key, d0) && d0.markAt + timeout <= d.sinceAt)
  {
    var log := History(timeout, s, ticks).log;
    HistorySound(timeout, s, ticks);
    assert Justified(log, timeout, i);
    EvaluationMeans(timeout, s, ticks, i - 1);
    var e := log[i - 1];
    n := e.tick;
    d :| ListedJm(s, ticks[n], d) && e == JmSaw(ViewOf(s, n, ticks[n]), d);
    opening := 0;
    if d.flow in ticks[n].flows.value {
      InactiveIsIdle(s, ticks[n], d.flow);
      opening := WindowOverTicks(timeout, s, ticks, i, e.key, e.sinceAt);
    }
  }

  /** The twin for orphans: a delete sent to a runtime deployment is sent at a tick that lists it and found its
      parent missing, or no parent named; never on a failed lookup. If its flow is defined and not idle for
      sure, some earlier pass opened a window that has lasted for the timeout, and no pass since found the
      parent alive. Unless the same key was listed as a JM deployment, that pass found the parent missing. */
  lemma RuntimeDeletionIsJustified(timeout: int, s: Shard, ticks: seq<Tick>, i: nat)
    returns (n: nat, d: RtItem, opening: nat)
    requires AllWalked(ticks)
    requires var log := History(timeout, s, ticks).log; i < |log| && log[i].SentRtDelete?
    ensures n < |ticks| && ListedRt(s, ticks[n], d)
    ensures var log := History(timeout, s, ticks).log;
            log[i].key == Key(d.ns, d.name) && i > 0 && log[i - 1] == RtSaw(ViewOf(s, n, ticks[n]), d)
    ensures d.parentName == "" || d.parentNs == "" || d.lookup.Missing?
    ensures d.flow in ticks[n].flows.value && !IdleForSure(s, ticks[n], d.flow) ==>
              var key := Key(d.ns, d.name);
              && opening <= 2 * n + 1
              && Opens(s, ticks, opening, key, d.sinceAt - timeout)
              && (forall pass :: opening < pass < 2 * n + 1 ==> !Closes(s, ticks, pass, key))
              && ((forall m, j :: 0 <= m <= n && ListedJm(s, ticks[m], j) ==> Key(j.ns, j.name) != key) ==>
                    opening % 2 == 1
                    && exists d0 :: MarksRt(s, ticks[opening / 2], key, d0) && d0.markAt + timeout <= d.sinceAt)
  {
    var log := History(timeout, s, ticks).log;
    HistorySound(timeout, s, ticks);
    assert Justified(log, timeout, i);
    EvaluationMeans(timeout, s, ticks, i - 1);
    var e := log[i - 1];
    n := e.tick;
    d :| ListedRt(s, ticks[n], d) && e == RtSaw(ViewOf(s, n, ticks[n]), d);
    opening := 0;
    if d.flow in ticks[n].flows.value && !IdleForSure(s, ticks[n], d.flow) {
      InactiveIsIdle(s, ticks[n], d.flow);
      opening := WindowOverTicks(timeout, s, ticks, i, e.key, e.sinceAt);
    }
  }

  lemma KeptClosesWindow(log: seq<Event>, m: nat, key: DepKey)
    requires m < |log| && Keeps(log[m], key)
    ensures Window(log[..m + 1], key) == None
  {
    assert log[..m + 1] == log[..m] + [log[m]];
    WindowAfter(log[..m], log[m], key);
  }

  /** At every tick, a listed JM deployment of a defined flow is evaluated; it is marked exactly when its flow is
      idle for sure, and a failed snapshot or an active run leaves no window open on it. */
  lemma WhatKeepsAJm(timeout: int, s: Shard, ticks: seq<Tick>, n: nat, d: JmItem) returns (m: nat)
    requires AllWalked(ticks) && n < |ticks| && ListedJm(s, ticks[n], d) && d.flow in ticks[n].flows.value
    ensures var log, key := History(timeout, s, ticks).log, Key(d.ns, d.name);
            && m < |log| && log[m] == JmSaw(ViewOf(s, n, ticks[n]), d)
            && (Marks(log[m], key) <==> IdleForSure(s, ticks[n], d.flow))
            && (!IdleForSure(s, ticks[n], d.flow) ==> Window(log[..m + 1], key) == None)
  {
    var log, key := History(timeout, s, ticks).log, Key(d.ns, d.name);
    EveryListedIsEvaluated(timeout, s, ticks, n);
    m :| 0 <= m < |log| && log[m] == JmSaw(ViewOf(s, n, ticks[n]), d);
    JmSawMeans(s, n, ticks[n], d);
    if Keeps(log[m], key) {
      KeptClosesWindow(log, m, key);
    }
  }

  /** At every tick, a listed runtime deployment is evaluated; a live parent leaves no window open on it, a
      failed lookup changes nothing. */
  lemma WhatKeepsAnOrphan(timeout: int, s: Shard, ticks: seq<Tick>, n: nat, d: RtItem) returns (m: nat)
    requires AllWalked(ticks) && n < |ticks| && ListedRt(s, ticks[n], d)
    ensures var log, key := History(timeout, s, ticks).log, Key(d.ns, d.name);
            && m < |log| && log[m] == RtSaw(ViewOf(s, n, ticks[n]), d)
            && (d.parentName != "" && d.parentNs != "" && d.lookup == Found ==> Window(log[..m + 1], key) == None)
            && (d.parentName != "" && d.parentNs != "" && d.lookup == LookupFailed ==>
                  Window(log[..m + 1], key) == Window(log[..m], key))
  {
    var log, key := History(timeout, s, ticks).log, Key(d.ns, d.name);
    EveryListedIsEvaluated(timeout, s, ticks, n);
    m :| 0 <= m < |log| && log[m] == RtSaw(ViewOf(s, n, ticks[n]), d);
    assert log[..m + 1] == log[..m] + [log[m]];
    WindowAfter(log[..m], log[m], key);
  }

  // ── Deletes are sent exactly when they are due ──

  /** By what the evaluation at m was told and the window open before it. */
  predicate DueJm(log: seq<Event>, m: nat, timeout: int)
    requires m < |log| && log[m].SawJm?
  {
    var e, window := log[m], Window(log[..m], log[m].key);
    || !e.defined
    || (e.snapshotOk && !e.active && e.sinceAt - (if window.Some? then window.value else e.markAt) >= timeout)
  }

  predicate DueRt(log: seq<Event>, m: nat, timeout: int)
    requires m < |log| && log[m].SawRt?
  {
    var e, window := log[m], Window(log[..m], log[m].key);
    && (e.parent.Gone? || e.parent.Unlabelled?)
    && (|| !e.defined || (e.snapshotOk && !e.active)
        || e.sinceAt - (if window.Some? then window.value else e.markAt) >= timeout)
  }

  predicate Decided(log: seq<Event>, timeout: int, m: nat)
    requires m < |log|
  {
    && (log[m].SawJm? ==> ((m + 1 < |log| && log[m + 1].SentJmDelete? && log[m + 1].key == log[m].key)
                           <==> DueJm(log, m, timeout)))
    && (log[m].SawRt? ==> ((m + 1 < |log| && log[m + 1].SentRtDelete? && log[m + 1].key == log[m].key)
                           <==> DueRt(log, m, timeout)))
  }

  predicate AllDecided(log: seq<Event>, timeout: int) {
    forall m :: 0 <= m < |log| ==> Decided(log, timeout, m)
  }

  lemma DecidedOn(log: seq<Event>, longer: seq<Event>, timeout: int)
    requires AllDecided(log, timeout) && log <= longer && |log| < |longer|
    requires PassOf(longer[|log|]).Some? && Decided(longer, timeout, |log|)
    requires forall m :: |log| < m < |longer| ==> PassOf(longer[m]).None?
    ensures AllDecided(longer, timeout)
  {
    forall m | 0 <= m < |longer| ensures Decided(longer, timeout, m) {
      if m < |log| {
        assert longer[..m] == log[..m] && Decided(log, timeout, m);
      }
    }
  }

  lemma EvalJmDecided(g: Gc, timeout: int, v: View, d: JmItem)
    requires Recorded(g) && AllDecided(g.log, timeout)
    ensures AllDecided(EvalJm(g, timeout, v, d).log, timeout)
  {
    var longer := EvalJm(g, timeout, v, d).log;
    EvalJmLog(g, timeout, v, d);
    JmDeleteSentExactlyWhen(g, timeout, v, d);
    SentAlongIsNoPass(d);
    var tail := [SentJmDelete(Key(d.ns, d.name), d.deleteOk)] + SentAlong(d);
    forall k | 0 <= k < |tail| ensures PassOf(tail[k]).None? {
      assert tail[k] in tail;
    }
    DecidedOn(g.log, longer, timeout);
  }

  lemma EvalRtDecided(g: Gc, timeout: int, v: View, d: RtItem)
    requires Recorded(g) && AllDecided(g.log, timeout)
    ensures AllDecided(EvalRt(g, timeout, v, d).log, timeout)
  {
    EvalRtLog(g, timeout, v, d);
    RtDeleteSentExactlyWhen(g, timeout, v, d);
    DecidedOn(g.log, EvalRt(g, timeout, v, d).log, timeout);
  }

  lemma {:induction false} JmPassDecided(g: Gc, timeout: int, s: Shard, v: View, items: seq<JmItem>)
    requires Sound(g, timeout) && AllDecided(g.log, timeout)
    ensures AllDecided(JmPass(g, timeout, s, v, items).log, timeout)
  {
    if items != [] {
      var init := items[..|items| - 1];
      JmPassDecided(g, timeout, s, v, init);
      JmPassSound(g, timeout, s, v, init);
      EvalJmDecided(JmPass(g, timeout, s, v, init), timeout, v, items[|items| - 1]);
    }
  }

  lemma {:induction false} RtPassDecided(g: Gc, timeout: int, s: Shard, v: View, items: seq<RtItem>)
    requires Sound(g, timeout) && AllDecided(g.log, timeout)
    ensures AllDecided(RtPass(g, timeout, s, v, items).log, timeout)
  {
    if items != [] {
      var init := items[..|items| - 1];
      RtPassDecided(g, timeout, s, v, init);
      RtPassSound(g, timeout, s, v, init);
      EvalRtDecided(RtPass(g, timeout, s, v, init), timeout, v, items[|items| - 1]);
    }
  }

  /** Over any run of ticks, an evaluation is followed by a delete of its deployment exactly when that is due. */
  lemma {:induction false} DeletesExactlyWhenDue(timeout: int, s: Shard, ticks: seq<Tick>)
    ensures AllDecided(History(timeout, s, ticks).log, timeout)
  {
    if ticks != [] {
      var n := |ticks| - 1;
      var g, t := History(timeout, s, ticks[..n]), ticks[n];
      DeletesExactlyWhenDue(timeout, s, ticks[..n]);
      HistorySound(timeout, s, ticks[..n]);
      if t.flows.Some? {
        var v := ViewOf(s, n, t);
        var afterJms := if t.jms.None? then g else JmPass(g, timeout, s, v, t.jms.value);
        if t.jms.Some? {
          JmPassSound(g, timeout, s, v, t.jms.value);
          JmPassDecided(g, timeout, s, v, t.jms.value);
        }
        if t.rts.Some? {
          RtPassDecided(afterJms, timeout, s, v, t.rts.value);
        }
      }
    }
  }

  // ── A key listed both as a JM and as a runtime deployment ──

  /** A run of two ticks whose flow has a run at the first and none at the second. Its deployment is listed as a
      runtime deployment first and as a JM deployment then. */
  function BusyTick(d: RtItem): Tick {
    Tick([], Some({d.flow}), [d.flow], (flow: FlowId, status: RunStatus) => Some(1), None, Some([d]))
  }

  function IdleTick(d: JmItem): Tick {
    Tick([], Some({d.flow}), [d.flow], (flow: FlowId, status: RunStatus) => Some(0), Some([d]), None)
  }

  /** The window is shared: the orphan collector opens it while the flow is running, and the JM deployment is
      deleted the first time it is found idle. Hence the proviso in JmDeletionIsJustified. */
  lemma SharedKeyOpensTheWindow(timeout: int, s: Shard, r: RtItem, d: JmItem)
    requires r.flow == d.flow && r.flow != "" && r.ns == d.ns && r.name == d.name
    requires ParentOf(r).Gone? && r.sinceAt - r.markAt < timeout <= d.sinceAt - r.markAt
    ensures var ticks := [BusyTick(r), IdleTick(d)];
            && AllWalked(ticks) && !IdleForSure(s, ticks[0], d.flow)
            && exists i :: 0 <= i < |History(timeout, s, ticks).log|
                           && History(timeout, s, ticks).log[i] == SentJmDelete(Key(d.ns, d.name), d.deleteOk)
  {
    var busy, idle := BusyTick(r), IdleTick(d);
    var ticks := [busy, idle];
    assert ticks[..1] == [busy] && [busy][..0] == [];
    var first := Reconcile(IDLE, timeout, s, 0, busy);
    BusyTickMarks(timeout, s, r);
    IdleTickDeletes(first, timeout, s, d);
    assert History(timeout, s, [busy]) == first;
    assert History(timeout, s, ticks) == Reconcile(first, timeout, s, 1, idle);
    assert busy.answer(d.flow, Running) == Some(1);
  }

  lemma BusyTickMarks(timeout: int, s: Shard, r: RtItem)
    requires r.flow != "" && ParentOf(r).Gone? && r.sinceAt - r.markAt < timeout
    ensures var g := Reconcile(IDLE, timeout, s, 0, BusyTick(r));
            Key(r.ns, r.name) in g.firstSeen && g.firstSeen[Key(r.ns, r.name)] == r.markAt
  {
    var t := BusyTick(r);
    var v := ViewOf(s, 0, t);
    assert Snapshot(s, t, []) == ({}, true) && t.order[..0] == [];
    assert Query(t, r.flow, ACTIVE_STATUSES) == Some(true);
    assert v.active == {r.flow};
    assert [r][..0] == [];
    assert RtPass(IDLE, timeout, s, v, [r]) == EvalRt(RtPass(IDLE, timeout, s, v, []), timeout, v, r);
  }

  lemma IdleTickDeletes(g: Gc, timeout: int, s: Shard, d: JmItem)
    requires d.flow != "" && Key(d.ns, d.name) in g.firstSeen
    requires timeout <= d.sinceAt - g.firstSeen[Key(d.ns, d.name)]
    ensures exists i :: 0 <= i < |Reconcile(g, timeout, s, 1, IdleTick(d)).log|
                        && Reconcile(g, timeout, s, 1, IdleTick(d)).log[i] == SentJmDelete(Key(d.ns, d.name), d.deleteOk)
  {
    var t := IdleTick(d);
    var v := ViewOf(s, 1, t);
    assert Snapshot(s, t, []) == ({}, true) && t.order[..0] == [];
    QueryMeans(t, d.flow, ACTIVE_STATUSES);
    assert v.active == {} && v.snapshotOk;
    assert [d][..0] == [];
    assert JmPass(g, timeout, s, v, [d]) == EvalJm(g, timeout, v, d);
    var seen := Note(g, JmSaw(v, d));
    DeleteJmLog(seen, d);
    assert EvalJm(g, timeout, v, d) == DeleteJm(seen, d);
    var after := Reconcile(g, timeout, s, 1, t);
    assert after == EvalJm(g, timeout, v, d);
    assert after.log[|seen.log|] == SentJmDelete(Key(d.ns, d.name), d.deleteOk);
  }

  // ── Runtime deployments taken along with their JM ──

  /** The delete of a JM at m goes to an item listed at some tick, and is followed by exactly the deletes of its
      children, and by no other child delete. */
  ghost predicate FollowedByChildren(log: seq<Event>, m: nat, s: Shard, ticks: seq<Tick>, n: nat, d: JmItem)
    requires m < |log|
  {
    && n < |ticks| && ListedJm(s, ticks[n], d)
    && m > 0 && log[m - 1] == JmSaw(ViewOf(s, n, ticks[n]), d)
    && log[m] == SentJmDelete(Key(d.ns, d.name), d.deleteOk)
    && var end := m + 1 + |SentAlong(d)|;
       end <= |log| && log[m + 1..end] == SentAlong(d) && (end < |log| ==> !log[end].SentChildDelete?)
  }

  ghost predicate AllFollowed(log: seq<Event>, s: Shard, ticks: seq<Tick>) {
    forall m :: 0 <= m < |log| && log[m].SentJmDelete? ==> exists n, d :: FollowedByChildren(log, m, s, ticks, n, d)
  }

  lemma BlockStays(log: seq<Event>, more: seq<Event>, m: nat, s: Shard, ticks: seq<Tick>, n: nat, d: JmItem)
    requires m < |log| && FollowedByChildren(log, m, s, ticks, n, d)
    requires more != [] && !more[0].SentChildDelete?
    ensures FollowedByChildren(log + more, m, s, ticks, n, d)
  {
    var end := m + 1 + |SentAlong(d)|;
    assert (log + more)[m + 1..end] == log[m + 1..end];
  }

  lemma FollowedStays(log: seq<Event>, more: seq<Event>, s: Shard, ticks: seq<Tick>)
    requires AllFollowed(log, s, ticks)
    requires more != [] && !more[0].SentChildDelete? && forall k :: 0 <= k < |more| ==> !more[k].SentJmDelete?
    ensures AllFollowed(log + more, s, ticks)
  {
    forall m | 0 <= m < |log + more| && (log + more)[m].SentJmDelete?
      ensures exists n, d :: FollowedByChildren(log + more, m, s, ticks, n, d) {
      assert m < |log|;
      var n, d :| FollowedByChildren(log, m, s, ticks, n, d);
      BlockStays(log, more, m, s, ticks, n, d);
    }
  }

  lemma BlockBegins(seen: seq<Event>, e: Event, along: seq<Event>)
    ensures var log := seen + ([e] + along);
            log[|seen|] == e && log[|seen| + 1..|seen| + 1 + |along|] == along && |log| == |seen| + 1 + |along|
  {
  }

  lemma DeleteIsFollowed(seen: seq<Event>, s: Shard, ticks: seq<Tick>, n: nat, d: JmItem)
    requires AllFollowed(seen, s, ticks) && seen != [] && n < |ticks| && ListedJm(s, ticks[n], d)
    requires seen[|seen| - 1] == JmSaw(ViewOf(s, n, ticks[n]), d)
    ensures AllFollowed(seen + ([SentJmDelete(Key(d.ns, d.name), d.deleteOk)] + SentAlong(d)), s, ticks)
  {
    var e, along := SentJmDelete(Key(d.ns, d.name), d.deleteOk), SentAlong(d);
    var log := seen + ([e] + along);
    SentAlongIsNoPass(d);
    BlockBegins(seen, e, along);
    assert FollowedByChildren(log, |seen|, s, ticks, n, d);
    forall x | |seen| < x < |log| ensures log[x].SentChildDelete? {
      assert along[x - |seen| - 1] in along;
    }
    forall m | 0 <= m < |log| && log[m].SentJmDelete? ensures exists n, d :: FollowedByChildren(log, m, s, ticks, n, d) {
      if m < |seen| {
        var n', d' :| FollowedByChildren(seen, m, s, ticks, n', d');
        BlockStays(seen, [e] + along, m, s, ticks, n', d');
      }
    }
  }

  lemma {:induction false} JmPassFollowed(g: Gc, timeout: int, s: Shard, ticks: seq<Tick>, n: nat, items: seq<JmItem>)
    requires AllFollowed(g.log, s, ticks) && n < |ticks| && ticks[n].flows.Some?
    requires ticks[n].jms.Some? && forall d :: d in items ==> d in ticks[n].jms.value
    ensures AllFollowed(JmPass(g, timeout, s, ViewOf(s, n, ticks[n]), items).log, s, ticks)
  {
    if items != [] {
      var v := ViewOf(s, n, ticks[n]);
      var init, d := items[..|items| - 1], items[|items| - 1];
      assert d in items && forall x :: x in init ==> x in items;
      JmPassFollowed(g, timeout, s, ticks, n, init);
      if d.flow != "" && Owns(s, v.peers, d.flow) {
        var rest := JmPass(g, timeout, s, v, init);
        EvalJmLog(rest, timeout, v, d);
        FollowedStays(rest.log, [JmSaw(v, d)], s, ticks);
        DeleteIsFollowed(rest.log + [JmSaw(v, d)], s, ticks, n, d);
      }
    }
  }

  lemma {:induction false} RtPassFollowed(g: Gc, timeout: int, s: Shard, ticks: seq<Tick>, v: View, items: seq<RtItem>)
    requires AllFollowed(g.log, s, ticks)
    ensures AllFollowed(RtPass(g, timeout, s, v, items).log, s, ticks)
  {
    if items != [] {
      var init, d := items[..|items| - 1], items[|items| - 1];
      RtPassFollowed(g, timeout, s, ticks, v, init);
      if d.flow != "" && Owns(s, v.peers, d.flow) {
        var rest := RtPass(g, timeout, s, v, init);
        EvalRtLog(rest, timeout, v, d);
        FollowedStays(rest.log, [RtSaw(v, d)], s, ticks);
        FollowedStays(rest.log + [RtSaw(v, d)], [SentRtDelete(Key(d.ns, d.name), d.outcome)], s, ticks);
      }
    }
  }

  lemma FollowedWithMoreTicks(log: seq<Event>, s: Shard, ticks: seq<Tick>, t: Tick)
    requires AllFollowed(log, s, ticks)
    ensures AllFollowed(log, s, ticks + [t])
  {
    forall m | 0 <= m < |log| && log[m].SentJmDelete?
      ensures exists n, d :: FollowedByChildren(log, m, s, ticks + [t], n, d) {
      var n, d :| FollowedByChildren(log, m, s, ticks, n, d);
      assert FollowedByChildren(log, m, s, ticks + [t], n, d);
    }
  }

  lemma {:induction false} HistoryFollowed(timeout: int, s: Shard, ticks: seq<Tick>)
    ensures AllFollowed(History(timeout, s, ticks).log, s, ticks)
  {
    if ticks != [] {
      var n := |ticks| - 1;
      var g, t := History(timeout, s, ticks[..n]), ticks[n];
      HistoryFollowed(timeout, s, ticks[..n]);
      FollowedWithMoreTicks(g.log, s, ticks[..n], t);
      assert ticks[..n] + [t] == ticks;
      if t.flows.Some? {
        var v := ViewOf(s, n, t);
        var afterJms := if t.jms.None? then g else JmPass(g, timeout, s, v, t.jms.value);
        if t.jms.Some? {
          JmPassFollowed(g, timeout, s, ticks, n, t.jms.value);
        }
        if t.rts.Some? {
          RtPassFollowed(afterJms, timeout, s, ticks, v, t.rts.value);
        }
      }
    }
  }

  /** Over any run of ticks: every delete of a JM is followed by the deletes of exactly those runtime deployments
      in the listing made for it that belong to it, when it went through and they could be listed. */
  lemma ChildrenGoWithTheirJm(timeout: int, s: Shard, ticks: seq<Tick>, m: nat) returns (n: nat, d: JmItem, positions: seq<nat>)
    requires var log := History(timeout, s, ticks).log; m < |log| && log[m].SentJmDelete?
    ensures FollowedByChildren(History(timeout, s, ticks).log, m, s, ticks, n, d)
    ensures |positions| == |SentAlong(d)|
    ensures d.deleteOk && d.children.Some? ==>
              && (forall k :: 0 <= k < |positions| ==>
                    && positions[k] < |d.children.value|
                    && var c := d.children.value[positions[k]];
                       SentAlong(d)[k] == SentChildDelete(Key(c.ns, c.name), c.outcome, Key(d.ns, d.name)))
              && (forall k, l :: 0 <= k < l < |positions| ==> positions[k] < positions[l])
              && (forall p: nat :: p in positions <==>
                    && p < |d.children.value|
                    && (d.children.value[p].namespaceId == d.namespaceId || d.namespaceId == "")
                    && (d.children.value[p].parentName == d.name || d.name == "")
                    && (d.children.value[p].parentNs == d.ns || d.ns == ""))
    ensures !(d.deleteOk && d.children.Some?) ==> SentAlong(d) == []
  {
    HistoryFollowed(timeout, s, ticks);
    n, d :| FollowedByChildren(History(timeout, s, ticks).log, m, s, ticks, n, d);
    positions := [];
    if d.deleteOk && d.children.Some? {
      positions := ChildDeletesMean(d, d.children.value);
    }
  }

  lemma InTheBlock(log: seq<Event>, m: nat, i: nat, s: Shard, ticks: seq<Tick>, n: nat, d: JmItem)
    requires m < i < |log| && forall x :: m < x <= i ==> log[x].SentChildDelete?
    requires FollowedByChildren(log, m, s, ticks, n, d)
    ensures i - m - 1 < |SentAlong(d)| && log[i] == SentAlong(d)[i - m - 1]
  {
    var along := SentAlong(d);
    var end := m + 1 + |along|;
    assert i < end;
    assert log[i] == log[m + 1..end][i - m - 1];
  }

  lemma JmBeforeChild(log: seq<Event>, i: nat) returns (m: nat)
    requires i < |log| && log[i].SentChildDelete? && ChildDeleteJustified(log, i)
    ensures m < i && log[m].SentJmDelete? && forall x :: m < x <= i ==> log[x].SentChildDelete?
  {
    m :| 0 <= m < i && log[m] == SentJmDelete(log[i].jm, true)
         && forall x :: m < x < i ==> log[x].SentChildDelete? && log[x].jm == log[i].jm;
  }

  lemma AlongIsAChild(d: JmItem, k: nat) returns (c: Child)
    requires k < |SentAlong(d)|
    ensures d.deleteOk && d.children.Some? && c in d.children.value
    ensures SentAlong(d)[k] == SentChildDelete(Key(c.ns, c.name), c.outcome, Key(d.ns, d.name))
    ensures (d.name != "" ==> c.parentName == d.name) && (d.ns != "" ==> c.parentNs == d.ns)
    ensures d.namespaceId != "" ==> c.namespaceId == d.namespaceId
  {
    var positions := ChildDeletesMean(d, d.children.value);
    c := d.children.value[positions[k]];
    assert positions[k] in positions;
  }

  lemma BlockOf(log: seq<Event>, i: nat, s: Shard, ticks: seq<Tick>) returns (m: nat, n: nat, d: JmItem)
    requires AllFollowed(log, s, ticks) && i < |log| && log[i].SentChildDelete? && ChildDeleteJustified(log, i)
    ensures m < i && (forall x :: m < x <= i ==> log[x].SentChildDelete?)
    ensures n < |ticks| && ListedJm(s, ticks[n], d) && log[m] == SentJmDelete(Key(d.ns, d.name), d.deleteOk)
    ensures i - m - 1 < |SentAlong(d)| && log[i] == SentAlong(d)[i - m - 1]
  {
    m := JmBeforeChild(log, i);
    n, d :| FollowedByChildren(log, m, s, ticks, n, d);
    InTheBlock(log, m, i, s, ticks, n, d);
  }

  /** Over any run of ticks: a runtime deployment taken along goes right after the successful delete of a JM, and
      that JM is its parent, by name, namespace and namespace id. */
  lemma ChildDeletionFollowsItsJm(timeout: int, s: Shard, ticks: seq<Tick>, i: nat)
    returns (m: nat, n: nat, d: JmItem, c: Child)
    requires var log := History(timeout, s, ticks).log; i < |log| && log[i].SentChildDelete?
    ensures var log := History(timeout, s, ticks).log;
            && m < i && log[m] == SentJmDelete(Key(d.ns, d.name), true)
            && (forall x :: m < x <= i ==> log[x].SentChildDelete?)
            && log[i] == SentChildDelete(Key(c.ns, c.name), c.outcome, Key(d.ns, d.name))
    ensures n < |ticks| && ListedJm(s, ticks[n], d) && d.children.Some? && c in d.children.value
    ensures (d.name != "" ==> c.parentName == d.name) && (d.ns != "" ==> c.parentNs == d.ns)
    ensures d.namespaceId != "" ==> c.namespaceId == d.namespaceId
  {
    var log := History(timeout, s, ticks).log;
    HistorySound(timeout, s, ticks);
    assert Justified(log, timeout, i);
    HistoryFollowed(timeout, s, ticks);
    m, n, d := BlockOf(log, i, s, ticks);
    c := AlongIsAChild(d, i - m - 1);
  }

  // ── Each listed deployment is evaluated once a tick ──

  /** The evaluations of a log, in order. */
  function Evaluations(log: seq<Event>): seq<Event> {
    if log == [] then []
    else
      var e := log[|log| - 1];
      Evaluations(log[..|log| - 1]) + if e.SawJm? || e.SawRt? then [e] else []
  }

  lemma {:induction false} EvaluationsOfBoth(a: seq<Event>, b: seq<Event>)
    ensures Evaluations(a + b) == Evaluations(a) + Evaluations(b)
  {
    if b == [] {
      assert a + b == a;
    } else {
      EvaluationsOfBoth(a, b[..|b| - 1]);
      assert (a + b)[..|a + b| - 1] == a + b[..|b| - 1];
    }
  }

  lemma {:induction false} NoEvaluations(log: seq<Event>)
    requires forall e :: e in log ==> PassOf(e).None?
    ensures Evaluations(log) == []
  {
    if log != [] {
      NoEvaluations(log[..|log| - 1]);
      assert log[|log| - 1] in log;
    }
  }

  /** The owned items of a listing, as a tick sees them. */
  function JmSaws(s: Shard, v: View, items: seq<JmItem>): seq<Event> {
    if items == [] then []
    else
      var d := items[|items| - 1];
      JmSaws(s, v, items[..|items| - 1]) + if d.flow != "" && Owns(s, v.peers, d.flow) then [JmSaw(v, d)] else []
  }

  function RtSaws(s: Shard, v: View, items: seq<RtItem>): seq<Event> {
    if items == [] then []
    else
      var d := items[|items| - 1];
      RtSaws(s, v, items[..|items| - 1]) + if d.flow != "" && Owns(s, v.peers, d.flow) then [RtSaw(v, d)] else []
  }

  /** One for each owned item, in order. */
  lemma {:induction false} JmSawsMean(s: Shard, v: View, items: seq<JmItem>) returns (positions: seq<nat>)
    ensures |positions| == |JmSaws(s, v, items)|
    ensures forall k :: 0 <= k < |positions| ==> positions[k] < |items| && JmSaws(s, v, items)[k] == JmSaw(v, items[positions[k]])
    ensures forall k, l :: 0 <= k < l < |positions| ==> positions[k] < positions[l]
    ensures forall p: nat :: p in positions <==> p < |items| && items[p].flow != "" && Owns(s, v.peers, items[p].flow)
  {
    positions := [];
    if items != [] {
      var last := |items| - 1;
      var init := JmSawsMean(s, v, items[..last]);
      positions := init + if items[last].flow != "" && Owns(s, v.peers, items[last].flow) then [last] else [];
    }
  }

  lemma {:induction false} RtSawsMean(s: Shard, v: View, items: seq<RtItem>) returns (positions: seq<nat>)
    ensures |positions| == |RtSaws(s, v, items)|
    ensures forall k :: 0 <= k < |positions| ==> positions[k] < |items| && RtSaws(s, v, items)[k] == RtSaw(v, items[positions[k]])
    ensures forall k, l :: 0 <= k < l < |positions| ==> positions[k] < positions[l]
    ensures forall p: nat :: p in positions <==> p < |items| && items[p].flow != "" && Owns(s, v.peers, items[p].flow)
  {
    positions := [];
    if items != [] {
      var last := |items| - 1;
      var init := RtSawsMean(s, v, items[..last]);
      positions := init + if items[last].flow != "" && Owns(s, v.peers, items[last].flow) then [last] else [];
    }
  }

  lemma {:induction false} JmPassEvaluatesOnce(g: Gc, timeout: int, s: Shard, v: View, items: seq<JmItem>)
    ensures Evaluations(JmPass(g, timeout, s, v, items).log) == Evaluations(g.log) + JmSaws(s, v, items)
  {
    if items != [] {
      var init, d := items[..|items| - 1], items[|items| - 1];
      JmPassEvaluatesOnce(g, timeout, s, v, init);
      if d.flow != "" && Owns(s, v.peers, d.flow) {
        var rest := JmPass(g, timeout, s, v, init);
        EvalJmOnce(rest, timeout, v, d);
      }
    }
  }

  lemma EvalJmOnce(g: Gc, timeout: int, v: View, d: JmItem)
    ensures Evaluations(EvalJm(g, timeout, v, d).log) == Evaluations(g.log) + [JmSaw(v, d)]
  {
    EvalJmLog(g, timeout, v, d);
    SentAlongIsNoPass(d);
    var seen, tail := g.log + [JmSaw(v, d)], [SentJmDelete(Key(d.ns, d.name), d.deleteOk)] + SentAlong(d);
    assert seen[..|g.log|] == g.log;
    NoEvaluations(tail);
    EvaluationsOfBoth(seen, tail);
  }

  lemma EvalRtOnce(g: Gc, timeout: int, v: View, d: RtItem)
    ensures Evaluations(EvalRt(g, timeout, v, d).log) == Evaluations(g.log) + [RtSaw(v, d)]
  {
    EvalRtLog(g, timeout, v, d);
    var seen, tail := g.log + [RtSaw(v, d)], [SentRtDelete(Key(d.ns, d.name), d.outcome)];
    assert seen[..|g.log|] == g.log;
    NoEvaluations(tail);
    EvaluationsOfBoth(seen, tail);
  }

  lemma {:induction false} RtPassEvaluatesOnce(g: Gc, timeout: int, s: Shard, v: View, items: seq<RtItem>)
    ensures Evaluations(RtPass(g, timeout, s, v, items).log) == Evaluations(g.log) + RtSaws(s, v, items)
  {
    if items != [] {
      var init, d := items[..|items| - 1], items[|items| - 1];
      RtPassEvaluatesOnce(g, timeout, s, v, init);
      if d.flow != "" && Owns(s, v.peers, d.flow) {
        EvalRtOnce(RtPass(g, timeout, s, v, init), timeout, v, d);
      }
    }
  }

  /** The evaluations a tick calls for: its owned JM deployments in the order of their listing, then its owned
      runtime deployments in theirs. */
  function TickSaws(s: Shard, n: nat, t: Tick): seq<Event> {
    if t.flows.None? then []
    else
      var v := ViewOf(s, n, t);
      (if t.jms.None? then [] else JmSaws(s, v, t.jms.value)) + (if t.rts.None? then [] else RtSaws(s, v, t.rts.value))
  }

  function RunSaws(s: Shard, ticks: seq<Tick>): seq<Event> {
    if ticks == [] then []
    else RunSaws(s, ticks[..|ticks| - 1]) + TickSaws(s, |ticks| - 1, ticks[|ticks| - 1])
  }

  lemma ReconcileOnce(g: Gc, timeout: int, s: Shard, n: nat, t: Tick)
    ensures Evaluations(Reconcile(g, timeout, s, n, t).log) == Evaluations(g.log) + TickSaws(s, n, t)
  {
    if t.flows.Some? {
      var v := ViewOf(s, n, t);
      var afterJms := if t.jms.None? then g else JmPass(g, timeout, s, v, t.jms.value);
      if t.jms.Some? {
        JmPassEvaluatesOnce(g, timeout, s, v, t.jms.value);
      }
      if t.rts.Some? {
        RtPassEvaluatesOnce(afterJms, timeout, s, v, t.rts.value);
      }
    }
  }

  /** Over every run: the evaluations made are those the ticks call for, each once and in that order. */
  lemma {:induction false} EvaluatedOnce(timeout: int, s: Shard, ticks: seq<Tick>)
    ensures Evaluations(History(timeout, s, ticks).log) == RunSaws(s, ticks)
  {
    if ticks != [] {
      var n := |ticks| - 1;
      EvaluatedOnce(timeout, s, ticks[..n]);
      ReconcileOnce(History(timeout, s, ticks[..n]), timeout, s, n, ticks[n]);
    }
  }
}
