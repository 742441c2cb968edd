/** Handler selection: the in-process messager and the handler table of the MQTT client.
    A plain subscription delivers to all its handlers, a shared one to one handler in turn. */
module Dispatch {
  import opened Topics

  /** A registered callback, by identity. */
  type Handler = nat

  type Subscriptions = map<string, seq<Handler>>

  /** Where each shared subscription continues; absent means at the start. */
  type Cursors = map<string, nat>

  function CursorOf(next: Cursors, sub: string): nat {
    if sub in next then next[sub] else 0
  }

  predicate TakesTurns(subs: Subscriptions, sub: string) {
    sub in subs && IsShared(sub) && subs[sub] != []
  }

  /** The handlers one subscription contributes to a publish that matches it. */
  function Picked(subs: Subscriptions, next: Cursors, sub: string): seq<Handler>
    requires sub in subs
  {
    if TakesTurns(subs, sub) then [subs[sub][CursorOf(next, sub) % |subs[sub]|]] else subs[sub]
  }

  function Matching(subs: Subscriptions, topic: string): set<string> {
    set sub | sub in subs && Routes(sub, topic)
  }

  /** The cursors after delivering to a set of subscriptions. */
  function Advanced(subs: Subscriptions, next: Cursors, delivered: set<string>): Cursors {
    next + Moved(subs, next, delivered)
  }

  function Moved(subs: Subscriptions, next: Cursors, delivered: set<string>): Cursors {
    map sub | sub in delivered && TakesTurns(subs, sub) :: CursorOf(next, sub) % |subs[sub]| + 1
  }

  /** Some order of the subscriptions, each once: a map is walked in no particular order. */
  ghost predicate Enumerates(order: seq<string>, subs: set<string>) {
    && (forall sub :: sub in order <==> sub in subs)
    && (forall i, j :: 0 <= i < j < |order| ==> order[i] != order[j])
  }

  function Gathered(subs: Subscriptions, next: Cursors, order: seq<string>): seq<Handler>
    requires forall sub :: sub in order ==> sub in subs
  {
    if order == [] then []
    else Gathered(subs, next, order[..|order| - 1]) + Picked(subs, next, order[|order| - 1])
  }

  class LocalMessager {
    var subs: Subscriptions
    var next: Cursors

    constructor ()
      ensures subs == map[] && next == map[]
    {
      subs, next := map[], map[];
    }

    method Subscribe(topic: string, handler: Handler)
      modifies this`subs
      ensures subs == Appended(old(subs), topic, handler)
      ensures topic in subs && subs[topic] == (if topic in old(subs) then old(subs)[topic] else []) + [handler]
      ensures subs - {topic} == old(subs) - {topic}
    {
      if topic !in subs {
        subs := subs[topic := []];
      }
      subs := subs[topic := subs[topic] + [handler]];
    }

    /** The handlers a publish calls: every handler of every matching plain subscription, and of each
        matching shared one the handler whose turn it is; no other subscription contributes. */
    method MatchHandlers(topic: string) returns (handlers: seq<Handler>)
      modifies this`next
      ensures exists order :: Enumerates(order, Matching(subs, topic)) && handlers == Gathered(subs, old(next), order)
      ensures next == Advanced(subs, old(next), Matching(subs, topic))
    {
      handlers := [];
      var topicParts := SplitTopic(topic);
      var todo := subs.Keys;
      ghost var order: seq<string> := [];
      WalkBegins(subs, next, topic);
      while todo != {}
        invariant todo <= subs.Keys
        invariant Delivered(subs, old(next), topic, todo, order, handlers, next)
        decreases todo
      {
        var sub :| sub in todo;
        var matches := TopicMatch(StripShare(sub), topicParts);
        if matches {
          DeliverOne(subs, old(next), topic, todo, order, handlers, next, sub);
          var picked := TakeTurn(sub);
          handlers := handlers + picked;
          order := order + [sub];
        } else {
          SkipOne(subs, old(next), topic, todo, order, handlers, next, sub);
        }
        todo := todo - {sub};
      }
      WalkEnds(subs, old(next), topic, order, handlers, next);
    }

    /** What one matching subscription contributes; a shared one moves its cursor. */
    method TakeTurn(sub: string) returns (picked: seq<Handler>)
      requires sub in subs
      modifies this`next
      ensures picked == Picked(subs, old(next), sub)
      ensures next == AfterTurn(subs, old(next), sub)
      ensures !(|sub| > 7 && sub[..7] == "$share/") ==> picked == subs[sub] && next == old(next)
      ensures |sub| > 7 && sub[..7] == "$share/" && subs[sub] != [] ==>
                var at := (if sub in old(next) then old(next)[sub] else 0) % |subs[sub]|;
                picked == [subs[sub][at]] && next == old(next)[sub := at + 1]
    {
      StripInCharacters(sub);
      var hs := subs[sub];
      if IsShared(sub) && |hs| > 0 {
        var idx := CursorOf(next, sub) % |hs|;
        next := next[sub := idx + 1];
        return [hs[idx]];
      }
      picked := hs;
    }
  }

  function AfterTurn(subs: Subscriptions, next: Cursors, sub: string): Cursors {
    if TakesTurns(subs, sub) then next[sub := CursorOf(next, sub) % |subs[sub]| + 1] else next
  }

  /** The matching subscriptions a walk has dealt with, given those still to do. */
  function Done(subs: Subscriptions, topic: string, todo: set<string>): set<string> {
    set sub | sub in subs && sub !in todo && Routes(sub, topic)
  }

  ghost predicate Delivered(subs: Subscriptions, before: Cursors, topic: string, todo: set<string>,
                            order: seq<string>, handlers: seq<Handler>, next: Cursors) {
    && todo <= subs.Keys
    && Enumerates(order, Done(subs, topic, todo))
    && (forall sub :: sub in order ==> sub in subs)
    && handlers == Gathered(subs, before, order)
    && next == Advanced(subs, before, Done(subs, topic, todo))
  }

  lemma WalkBegins(subs: Subscriptions, next: Cursors, topic: string)
    ensures Delivered(subs, next, topic, subs.Keys, [], [], next)
  {
    assert Done(subs, topic, subs.Keys) == {};
    assert Advanced(subs, next, {}) == next;
  }

  lemma WalkEnds(subs: Subscriptions, before: Cursors, topic: string,
                 order: seq<string>, handlers: seq<Handler>, next: Cursors)
    requires Delivered(subs, before, topic, {}, order, handlers, next)
    ensures Enumerates(order, Matching(subs, topic)) && handlers == Gathered(subs, before, order)
    ensures next == Advanced(subs, before, Matching(subs, topic))
  {
    assert Done(subs, topic, {}) == Matching(subs, topic);
  }

  lemma DeliverOne(subs: Subscriptions, before: Cursors, topic: string, todo: set<string>,
                   order: seq<string>, handlers: seq<Handler>, next: Cursors, sub: string)
    requires Delivered(subs, before, topic, todo, order, handlers, next) && sub in todo && Routes(sub, topic)
    ensures sub in subs
    ensures Delivered(subs, before, topic, todo - {sub}, order + [sub], handlers + Picked(subs, next, sub),
                      AfterTurn(subs, next, sub))
  {
    var done := Done(subs, topic, todo);
    Gathering(subs, before, order, sub);
    Advancing(subs, before, done, sub);
    Enumerating(order, done, sub);
    assert Done(subs, topic, todo - {sub}) == done + {sub};
  }

  lemma SkipOne(subs: Subscriptions, before: Cursors, topic: string, todo: set<string>,
                order: seq<string>, handlers: seq<Handler>, next: Cursors, sub: string)
    requires Delivered(subs, before, topic, todo, order, handlers, next) && sub in todo && !Routes(sub, topic)
    ensures Delivered(subs, before, topic, todo - {sub}, order, handlers, next)
  {
    assert Done(subs, topic, todo - {sub}) == Done(subs, topic, todo);
  }

  lemma MovedWithOneMore(subs: Subscriptions, next: Cursors, delivered: set<string>, sub: string)
    requires sub !in delivered
    ensures sub !in Moved(subs, next, delivered)
    ensures Moved(subs, next, delivered + {sub})
         == if TakesTurns(subs, sub)
            then Moved(subs, next, delivered)[sub := CursorOf(next, sub) % |subs[sub]| + 1]
            else Moved(subs, next, delivered)
  {
  }

  lemma UnionPut(a: Cursors, b: Cursors, sub: string, n: nat)
    ensures a + b[sub := n] == (a + b)[sub := n]
  {
  }

  lemma Advancing(subs: Subscriptions, next: Cursors, delivered: set<string>, sub: string)
    requires sub in subs && sub !in delivered
    ensures CursorOf(Advanced(subs, next, delivered), sub) == CursorOf(next, sub)
    ensures Advanced(subs, next, delivered + {sub}) == AfterTurn(subs, Advanced(subs, next, delivered), sub)
  {
    MovedWithOneMore(subs, next, delivered, sub);
    if TakesTurns(subs, sub) {
      UnionPut(next, Moved(subs, next, delivered), sub, CursorOf(next, sub) % |subs[sub]| + 1);
    }
  }

  lemma Enumerating(order: seq<string>, subs: set<string>, sub: string)
    requires Enumerates(order, subs) && sub !in subs
    ensures Enumerates(order + [sub], subs + {sub})
  {
  }

  lemma Gathering(subs: Subscriptions, next: Cursors, order: seq<string>, sub: string)
    requires sub in subs && forall x :: x in order ==> x in subs
    ensures Gathered(subs, next, order + [sub]) == Gathered(subs, next, order) + Picked(subs, next, sub)
  {
    assert (order + [sub])[..|order|] == order;
  }

  lemma PickedElsewhere(subs: Subscriptions, next: Cursors, last: string, sub: string, h: Handler)
    requires last in subs && (last != sub ==> h !in subs[last])
    ensures last != sub ==> multiset(Picked(subs, next, last))[h] == 0
  {
  }

  lemma CountOfBoth(a: seq<Handler>, b: seq<Handler>, h: Handler)
    ensures multiset(a + b)[h] == multiset(a)[h] + multiset(b)[h]
  {
  }

  lemma {:induction false} CountOfGathered(subs: Subscriptions, next: Cursors, order: seq<string>, sub: string, h: Handler)
    requires forall x :: x in order ==> x in subs
    requires forall i, j :: 0 <= i < j < |order| ==> order[i] != order[j]
    requires forall x :: x in order && x != sub ==> h !in subs[x]
    ensures multiset(Gathered(subs, next, order))[h]
         == if sub in order then multiset(Picked(subs, next, sub))[h] else 0
  {
    if order != [] {
      var init, last := order[..|order| - 1], order[|order| - 1];
      CountOfGathered(subs, next, init, sub, h);
      assert order == init + [last] && last !in init;
      PickedElsewhere(subs, next, last, sub, h);
      CountOfBoth(Gathered(subs, next, init), Picked(subs, next, last), h);
    }
  }

  /** How often a publish calls a handler that belongs to one subscription only: not at all when that does not
      match; as often as it was registered when it is plain; and when it is shared, once if the handler stands
      where the cursor points, otherwise not at all. */
  lemma PublishReaches(subs: Subscriptions, next: Cursors, topic: string, order: seq<string>, sub: string, h: Handler)
    requires Enumerates(order, Matching(subs, topic)) && sub in subs
    requires forall x :: x in subs && x != sub ==> h !in subs[x]
    ensures multiset(Gathered(subs, next, order))[h]
         == if !Routes(sub, topic) then 0
            else if !IsShared(sub) then multiset(subs[sub])[h]
            else if subs[sub] != [] && subs[sub][CursorOf(next, sub) % |subs[sub]|] == h then 1
            else 0
  {
    CountOfGathered(subs, next, order, sub, h);
  }

  function Appended(subs: Subscriptions, topic: string, handler: Handler): Subscriptions {
    subs[topic := (if topic in subs then subs[topic] else []) + [handler]]
  }

  /** The handler table of the MQTT client: one broker subscription per filter, so a message comes
      in already matched to its filter. */
  class MqttHandlers {
    var handlers: Subscriptions
    var next: Cursors

    constructor ()
      ensures handlers == map[] && next == map[]
    {
      handlers, next := map[], map[];
    }

    /** Whether this was the filter's first handler, so that the broker must be told. */
    method Subscribe(topic: string, handler: Handler) returns (first: bool)
      modifies this`handlers
      ensures handlers == Appended(old(handlers), topic, handler)
      ensures topic in handlers && handlers[topic] == (if topic in old(handlers) then old(handlers)[topic] else []) + [handler]
      ensures handlers - {topic} == old(handlers) - {topic}
      ensures first <==> topic !in old(handlers)
    {
      first := topic !in handlers;
      handlers := handlers[topic := (if topic in handlers then handlers[topic] else []) + [handler]];
    }

    method DispatchHandlers(topic: string) returns (out: seq<Handler>)
      modifies this`next
      ensures out == if topic in handlers then Picked(handlers, old(next), topic) else []
      ensures next == Advanced(handlers, old(next), {topic})
      ensures !(|topic| > 7 && topic[..7] == "$share/") ==>
                out == (if topic in handlers then handlers[topic] else []) && next == old(next)
      ensures |topic| > 7 && topic[..7] == "$share/" && topic in handlers && handlers[topic] != [] ==>
                var at := (if topic in old(next) then old(next)[topic] else 0) % |handlers[topic]|;
                out == [handlers[topic][at]] && next == old(next)[topic := at + 1]
    {
      StripInCharacters(topic);
      var hs := if topic in handlers then handlers[topic] else [];
      if |hs| == 0 {
        return [];
      }
      if IsShared(topic) {
        var idx := CursorOf(next, topic) % |hs|;
        next := next[topic := idx + 1];
        return [hs[idx]];
      }
      out := hs;
    }
  }

  // ── Runs of publishes and subscriptions ──

  /** A publish goes by topic; a message from the broker comes in under the filter it matched. */
  datatype Call = Publish(topic: string) | Message(filter: string) | Subscribe(sub: string, handler: Handler)

  predicate Reaches(c: Call, sub: string) {
    match c
    case Publish(topic) => Routes(sub, topic)
    case Message(filter) => filter == sub
    case Subscribe(_, _) => false
  }

  datatype Table = Table(subs: Subscriptions, next: Cursors)

  function Step(t: Table, c: Call): Table {
    match c
    case Publish(topic) => t.(next := Advanced(t.subs, t.next, Matching(t.subs, topic)))
    case Message(filter) => t.(next := Advanced(t.subs, t.next, {filter}))
    case Subscribe(sub, handler) => t.(subs := Appended(t.subs, sub, handler))
  }

  function RunCalls(t: Table, calls: seq<Call>): Table {
    if calls == [] then t else Step(RunCalls(t, calls[..|calls| - 1]), calls[|calls| - 1])
  }

  /** The turns taken on one shared subscription during a run: the position picked by each publish or message
      that reaches it. */
  function Turns(t: Table, calls: seq<Call>, sub: string): seq<nat> {
    if calls == [] then []
    else
      var before := RunCalls(t, calls[..|calls| - 1]);
      var turns := Turns(t, calls[..|calls| - 1], sub);
      var c := calls[|calls| - 1];
      if TakesTurns(before.subs, sub) && Reaches(c, sub)
      then turns + [CursorOf(before.next, sub) % |before.subs[sub]|]
      else turns
  }

  /** Every cursor points into its handler list or just past its end. */
  predicate InRange(t: Table) {
    forall sub :: sub in t.next ==> TakesTurns(t.subs, sub) && 1 <= t.next[sub] <= |t.subs[sub]|
  }

  /** Over every run from an empty table, with handlers added at any point, cursors stay in range: none
      is ever left behind the end of its list, and one past the end comes to the newest handler. */
  lemma {:induction false} CursorsStayInRange(calls: seq<Call>)
    ensures InRange(RunCalls(Table(map[], map[]), calls))
  {
    if calls != [] {
      CursorsStayInRange(calls[..|calls| - 1]);
      var t, c := RunCalls(Table(map[], map[]), calls[..|calls| - 1]), calls[|calls| - 1];
      var t' := Step(t, c);
      forall sub | sub in t'.next ensures TakesTurns(t'.subs, sub) && 1 <= t'.next[sub] <= |t'.subs[sub]| {
        assert sub in t.next ==> TakesTurns(t.subs, sub);
      }
    }
  }

  // ── Fairness ──

  /** The r-th position after c, going round n positions. */
  function Place(c: nat, r: nat, n: nat): nat
    requires c < n && r < n
  {
    if c + r < n then c + r else c + r - n
  }

  /** How far position i lies after c, going round. */
  function Offset(i: nat, c: nat, n: nat): nat
    requires i < n && c < n
  {
    if i >= c then i - c else i + n - c
  }

  lemma ModWithin(x: nat, n: nat)
    requires 0 < n && x <= n
    ensures x % n == if x == n then 0 else x
  {
  }

  lemma DivIsUnique(m: nat, n: nat, q: nat, r: nat)
    requires r < n && m == q * n + r
    ensures m / n == q
  {
    var d := m / n;
    assert m == d * n + m % n;
    if q < d {
      MultipleGrows(q, d, n);
    } else if d < q {
      MultipleGrows(d, q, n);
    }
  }

  lemma {:induction false} MultipleGrows(a: nat, b: nat, n: nat)
    requires a < b
    ensures a * n + n <= b * n
  {
    assert b * n == (b - 1) * n + n;
    if a < b - 1 {
      MultipleGrows(a, b - 1, n);
    }
  }

  lemma RunKeepsHandlers(t: Table, calls: seq<Call>, sub: string)
    requires sub in t.subs && forall k :: 0 <= k < |calls| ==> calls[k].Subscribe? ==> calls[k].sub != sub
    ensures sub in RunCalls(t, calls).subs && RunCalls(t, calls).subs[sub] == t.subs[sub]
  {
  }

  /** q full rounds over n positions and r turns of the next one, beginning at c. */
  ghost predicate WentRound(turns: seq<nat>, c: nat, n: nat, q: nat, r: nat)
    requires c < n
  {
    && r < n && |turns| == q * n + r
    && forall i: nat :: i < n ==> multiset(turns)[i] == q + if Offset(i, c, n) < r then 1 else 0
  }

  lemma OneMoreTurn(turns: seq<nat>, c: nat, n: nat, q: nat, r: nat)
    requires c < n && WentRound(turns, c, n, q, r)
    ensures var longer := turns + [Place(c, r, n)];
            if r + 1 == n then WentRound(longer, c, n, q + 1, 0) else WentRound(longer, c, n, q, r + 1)
  {
    assert (q + 1) * n == q * n + n;
  }

  /** A call that reaches the subscription takes the turn the cursor points at and moves the cursor one further, round the
      list; any other call leaves it, as far as this subscription goes. */
  lemma CursorStep(t: Table, call: Call, sub: string)
    requires TakesTurns(t.subs, sub) && (call.Subscribe? ==> call.sub != sub)
    ensures var n := |t.subs[sub]|;
            var at := CursorOf(t.next, sub) % n;
            CursorOf(Step(t, call).next, sub) % n
            == if Reaches(call, sub) then (if at + 1 == n then 0 else at + 1) else at
  {
    var n := |t.subs[sub]|;
    var at := CursorOf(t.next, sub) % n;
    if Reaches(call, sub) {
      assert CursorOf(Step(t, call).next, sub) == at + 1;
      ModWithin(at + 1, n);
    } else {
      assert CursorOf(Step(t, call).next, sub) == CursorOf(t.next, sub);
    }
  }

  /** The turns of a run in which a shared subscription gains no handler go round from where its cursor stood. */
  lemma {:induction false} TurnsGoRound(t: Table, calls: seq<Call>, sub: string) returns (q: nat, r: nat)
    requires TakesTurns(t.subs, sub)
    requires forall k :: 0 <= k < |calls| ==> calls[k].Subscribe? ==> calls[k].sub != sub
    ensures var n := |t.subs[sub]|;
            var c := CursorOf(t.next, sub) % n;
            && WentRound(Turns(t, calls, sub), c, n, q, r)
            && CursorOf(RunCalls(t, calls).next, sub) % n == Place(c, r, n)
  {
    if calls == [] {
      return 0, 0;
    }
    var init, last := calls[..|calls| - 1], calls[|calls| - 1];
    var n := |t.subs[sub]|;
    var c := CursorOf(t.next, sub) % n;
    q, r := TurnsGoRound(t, init, sub);
    RunKeepsHandlers(t, init, sub);
    CursorStep(RunCalls(t, init), last, sub);
    if Reaches(last, sub) {
      OneMoreTurn(Turns(t, init, sub), c, n, q, r);
      if r + 1 == n {
        q, r := q + 1, 0;
      } else {
        r := r + 1;
      }
    }
  }

  /** Fair turns: from any state, while a shared subscription keeps its n handlers, m publishes or messages
      that reach it select each of them m / n times or once more, whatever else is published and subscribed meanwhile. */
  lemma FairTurns(t: Table, calls: seq<Call>, sub: string, i: nat)
    requires TakesTurns(t.subs, sub) && i < |t.subs[sub]|
    requires forall k :: 0 <= k < |calls| ==> calls[k].Subscribe? ==> calls[k].sub != sub
    ensures var m, n := |Turns(t, calls, sub)|, |t.subs[sub]|;
            m / n <= multiset(Turns(t, calls, sub))[i] <= m / n + 1
  {
    var q, r := TurnsGoRound(t, calls, sub);
    DivIsUnique(|Turns(t, calls, sub)|, |t.subs[sub]|, q, r);
  }

  // ── From turns to handlers ──

  /** The handlers a run calls for one subscription: what it contributes to each call that reaches it. */
  function Called(t: Table, calls: seq<Call>, sub: string): seq<Handler> {
    if calls == [] then []
    else
      var before := RunCalls(t, calls[..|calls| - 1]);
      var c := calls[|calls| - 1];
      Called(t, calls[..|calls| - 1], sub)
      + if sub in before.subs && Reaches(c, sub) then Picked(before.subs, before.next, sub) else []
  }

  /** The handlers called are those at the positions whose turn it was, one by one. */
  lemma {:induction false} CalledInTurn(t: Table, calls: seq<Call>, sub: string)
    requires TakesTurns(t.subs, sub)
    requires forall k :: 0 <= k < |calls| ==> calls[k].Subscribe? ==> calls[k].sub != sub
    ensures var turns, hs := Turns(t, calls, sub), t.subs[sub];
            && |Called(t, calls, sub)| == |turns|
            && forall k :: 0 <= k < |turns| ==> turns[k] < |hs| && Called(t, calls, sub)[k] == hs[turns[k]]
  {
    if calls != [] {
      CalledInTurn(t, calls[..|calls| - 1], sub);
      RunKeepsHandlers(t, calls[..|calls| - 1], sub);
    }
  }

  /** How often the first k positions come up among the turns, those that hold the handler. */
  function TurnsOf(hs: seq<Handler>, turns: seq<nat>, h: Handler, k: nat): nat
    requires k <= |hs|
  {
    if k == 0 then 0
    else TurnsOf(hs, turns, h, k - 1) + if hs[k - 1] == h then multiset(turns)[k - 1] else 0
  }

  lemma {:induction false} TurnsOfOneMore(hs: seq<Handler>, turns: seq<nat>, last: nat, h: Handler, k: nat)
    requires k <= |hs| && last < |hs|
    ensures TurnsOf(hs, turns + [last], h, k)
         == TurnsOf(hs, turns, h, k) + if last < k && hs[last] == h then 1 else 0
  {
    if k > 0 {
      TurnsOfOneMore(hs, turns, last, h, k - 1);
    }
  }

  lemma {:induction false} NoTurns(hs: seq<Handler>, h: Handler, k: nat)
    requires k <= |hs|
    ensures TurnsOf(hs, [], h, k) == 0
  {
    if k > 0 {
      NoTurns(hs, h, k - 1);
    }
  }

  lemma {:induction false} CountByTurns(hs: seq<Handler>, turns: seq<nat>, called: seq<Handler>, h: Handler)
    requires |called| == |turns| && forall k :: 0 <= k < |turns| ==> turns[k] < |hs| && called[k] == hs[turns[k]]
    ensures multiset(called)[h] == TurnsOf(hs, turns, h, |hs|)
  {
    if turns == [] {
      NoTurns(hs, h, |hs|);
    } else {
      var n := |turns| - 1;
      CountByTurns(hs, turns[..n], called[..n], h);
      TurnsOfOneMore(hs, turns[..n], turns[n], h, |hs|);
      assert turns == turns[..n] + [turns[n]] && called == called[..n] + [called[n]];
    }
  }

  lemma {:induction false} TurnsOfBounds(hs: seq<Handler>, turns: seq<nat>, h: Handler, k: nat, q: int)
    requires k <= |hs| && forall i: nat :: i < |hs| ==> q <= multiset(turns)[i] <= q + 1
    ensures multiset(hs[..k])[h] * q <= TurnsOf(hs, turns, h, k) <= multiset(hs[..k])[h] * (q + 1)
  {
    if k > 0 {
      TurnsOfBounds(hs, turns, h, k - 1, q);
      assert hs[..k] == hs[..k - 1] + [hs[k - 1]];
      OnceMore(multiset(hs[..k - 1])[h], q);
    }
  }

  lemma OnceMore(c: nat, q: int)
    ensures (c + 1) * q == c * q + q && (c + 1) * (q + 1) == c * (q + 1) + (q + 1)
  {
  }

  /** Something that comes up `times` times got its share, or one more, each time. */
  predicate FairCount(count: nat, times: nat, share: int) {
    times * share <= count <= times * (share + 1)
  }

  lemma EvenlyCalled(hs: seq<Handler>, turns: seq<nat>, called: seq<Handler>, h: Handler, q: int)
    requires |called| == |turns| && forall k :: 0 <= k < |turns| ==> turns[k] < |hs| && called[k] == hs[turns[k]]
    requires forall i: nat :: i < |hs| ==> q <= multiset(turns)[i] <= q + 1
    ensures FairCount(multiset(called)[h], multiset(hs)[h], q)
  {
    CountByTurns(hs, turns, called, h);
    TurnsOfBounds(hs, turns, h, |hs|, q);
    assert hs[..|hs|] == hs;
  }

  lemma AllTurnsFair(t: Table, calls: seq<Call>, sub: string, share: int)
    requires TakesTurns(t.subs, sub) && share == |Turns(t, calls, sub)| / |t.subs[sub]|
    requires forall k :: 0 <= k < |calls| ==> calls[k].Subscribe? ==> calls[k].sub != sub
    ensures forall i: nat :: i < |t.subs[sub]| ==> share <= multiset(Turns(t, calls, sub))[i] <= share + 1
  {
    var taken: multiset<nat> := multiset(Turns(t, calls, sub));
    forall i: nat | i < |t.subs[sub]| ensures share <= taken[i] <= share + 1 {
      FairTurns(t, calls, sub, i);
    }
  }

  /** Fair calls: while a shared subscription keeps its n handlers, of m publishes or messages that reach it each
      handler is called m / n times or once more, for every time it is registered, whatever else goes on. */
  lemma FairCalls(t: Table, calls: seq<Call>, sub: string, h: Handler)
    requires TakesTurns(t.subs, sub)
    requires forall k :: 0 <= k < |calls| ==> calls[k].Subscribe? ==> calls[k].sub != sub
    ensures var called, hs := Called(t, calls, sub), t.subs[sub];
            FairCount(multiset(called)[h], multiset(hs)[h], |called| / |hs|)
  {
    CalledInTurn(t, calls, sub);
    var share := |Turns(t, calls, sub)| / |t.subs[sub]|;
    AllTurnsFair(t, calls, sub, share);
    EvenlyCalled(t.subs[sub], Turns(t, calls, sub), Called(t, calls, sub), h, share);
  }

  // ── Which handler comes when ──

  lemma NextModulo(a: nat, n: nat)
    requires n > 0
    ensures (a + 1) % n == if a % n + 1 == n then 0 else a % n + 1
  {
    var q, r := a / n, a % n;
    assert a == q * n + r;
    if r + 1 == n {
      assert (q + 1) * n == q * n + n;
      DivIsUnique(a + 1, n, q + 1, 0);
    } else {
      DivIsUnique(a + 1, n, q, r + 1);
    }
  }

  function NextPosition(i: nat, n: nat): nat {
    if i + 1 == n then 0 else i + 1
  }

  /** The k-th position after c, going round the list one step at a time. */
  function PositionAfter(c: nat, k: nat, n: nat): nat {
    if k == 0 then c else NextPosition(PositionAfter(c, k - 1, n), n)
  }

  predicate GoesOn(turns: seq<nat>, c: nat, n: nat) {
    forall k :: 0 <= k < |turns| ==> turns[k] == PositionAfter(c, k, n)
  }

  lemma TurnStep(t: Table, init: seq<Call>, last: Call, sub: string, at: nat)
    requires TakesTurns(t.subs, sub) && (last.Subscribe? ==> last.sub != sub)
    requires forall k :: 0 <= k < |init| ==> init[k].Subscribe? ==> init[k].sub != sub
    requires at == CursorOf(RunCalls(t, init).next, sub) % |t.subs[sub]|
    ensures Turns(t, init + [last], sub) == Turns(t, init, sub) + if Reaches(last, sub) then [at] else []
    ensures CursorOf(RunCalls(t, init + [last]).next, sub) % |t.subs[sub]|
         == if Reaches(last, sub) then NextPosition(at, |t.subs[sub]|) else at
  {
    assert (init + [last])[..|init|] == init;
    RunKeepsHandlers(t, init, sub);
    CursorStep(RunCalls(t, init), last, sub);
  }

  lemma GoesOnWith(turns: seq<nat>, c: nat, n: nat, at: nat)
    requires GoesOn(turns, c, n) && at == PositionAfter(c, |turns|, n)
    ensures GoesOn(turns + [at], c, n) && NextPosition(at, n) == PositionAfter(c, |turns + [at]|, n)
  {
  }

  lemma {:induction false} TurnsOneAfterOther(t: Table, calls: seq<Call>, sub: string, c: nat) returns (at: nat)
    requires TakesTurns(t.subs, sub) && c == CursorOf(t.next, sub) % |t.subs[sub]|
    requires forall k :: 0 <= k < |calls| ==> calls[k].Subscribe? ==> calls[k].sub != sub
    ensures GoesOn(Turns(t, calls, sub), c, |t.subs[sub]|)
    ensures at == CursorOf(RunCalls(t, calls).next, sub) % |t.subs[sub]|
    ensures at == PositionAfter(c, |Turns(t, calls, sub)|, |t.subs[sub]|)
  {
    at := c;
    if calls != [] {
      var init, last := calls[..|calls| - 1], calls[|calls| - 1];
      at := TurnsOneAfterOther(t, init, sub, c);
      assert init + [last] == calls;
      TurnStep(t, init, last, sub, at);
      GoesOnWith(Turns(t, init, sub), c, |t.subs[sub]|, at);
      at := if Reaches(last, sub) then NextPosition(at, |t.subs[sub]|) else at;
    }
  }

  lemma {:induction false} PositionIsModulo(k: nat, n: nat)
    requires n > 0
    ensures PositionAfter(0, k, n) == k % n
  {
    if k > 0 {
      PositionIsModulo(k - 1, n);
      NextModulo(k - 1, n);
    } else {
      ModWithin(0, n);
    }
  }

  /** From a shared subscription's first message on, its n handlers are called in the order they were registered,
      over and over: the k-th message goes to handler k modulo n. */
  lemma RoundRobin(t: Table, calls: seq<Call>, sub: string, k: nat)
    requires |sub| > 7 && sub[..7] == "$share/" && sub in t.subs && t.subs[sub] != [] && sub !in t.next
    requires forall k :: 0 <= k < |calls| ==> calls[k].Subscribe? ==> calls[k].sub != sub
    requires k < |Called(t, calls, sub)|
    ensures Called(t, calls, sub)[k] == t.subs[sub][k % |t.subs[sub]|]
  {
    var n := |t.subs[sub]|;
    ModWithin(0, n);
    var at := TurnsOneAfterOther(t, calls, sub, 0);
    CalledInTurn(t, calls, sub);
    PositionIsModulo(k, n);
  }
}
