/** Topics and filters: splitting into levels, single-level wildcards, shared-subscription
    prefixes, and the routing of sandbox triggers to workers. Strings are sequences of runes. */
module Topics {
  predicate NoSlash(s: string) {
    '/' !in s
  }

  /** The index of the first slash, or the length when there is none. */
  function FirstSlash(s: string): (i: nat)
    ensures i <= |s| && (i < |s| ==> s[i] == '/')
  {
    if s == "" || s[0] == '/' then 0 else 1 + FirstSlash(s[1..])
  }

  lemma {:induction false} NoSlashBefore(s: string)
    ensures NoSlash(s[..FirstSlash(s)])
  {
    var i := FirstSlash(s);
    if i > 0 {
      NoSlashBefore(s[1..]);
      assert s[..i] == [s[0]] + s[1..][..i - 1];
    }
  }

  /** The levels of a string: what lies between its slashes. */
  function Levels(t: string): (levels: seq<string>)
    ensures |levels| >= 1
    decreases |t|
  {
    var i := FirstSlash(t);
    if i == |t| then [t] else [t[..i]] + Levels(t[i + 1..])
  }

  /** The empty topic has no levels at all. */
  function Split(topic: string): seq<string> {
    if topic == "" then [] else Levels(topic)
  }

  function Join(levels: seq<string>): string {
    if levels == [] then ""
    else if |levels| == 1 then levels[0]
    else levels[0] + "/" + Join(levels[1..])
  }

  lemma {:induction false} FirstSlashAt(s: string, i: nat)
    requires i < |s| && s[i] == '/' && NoSlash(s[..i])
    ensures FirstSlash(s) == i
  {
    if i > 0 {
      assert s[0] == s[..i][0];
      assert s[1..][..i - 1] == s[..i][1..];
      FirstSlashAt(s[1..], i - 1);
    }
  }

  lemma {:induction false} NoFirstSlash(s: string)
    requires NoSlash(s)
    ensures FirstSlash(s) == |s|
  {
    if s != "" {
      NoFirstSlash(s[1..]);
    }
  }

  lemma LevelOfNoSlash(a: string)
    requires NoSlash(a)
    ensures Levels(a) == [a]
  {
    NoFirstSlash(a);
  }

  lemma LevelsOfHead(head: string, rest: string)
    requires NoSlash(head)
    ensures FirstSlash(head + "/" + rest) == |head|
    ensures Levels(head + "/" + rest) == [head] + Levels(rest)
  {
    var s := head + "/" + rest;
    assert s[..|head|] == head && s[|head| + 1..] == rest;
    FirstSlashAt(s, |head|);
  }

  lemma {:induction false} LevelsOfJoined(a: string, b: string)
    ensures Levels(a + "/" + b) == Levels(a) + Levels(b)
    decreases |a|
  {
    var i := FirstSlash(a);
    NoSlashBefore(a);
    if i == |a| {
      assert a[..i] == a;
      LevelsOfHead(a, b);
    } else {
      var head, rest := a[..i], a[i + 1..];
      var s := rest + "/" + b;
      assert a + "/" + b == head + "/" + s;
      LevelsOfHead(head, s);
      LevelsOfJoined(rest, b);
      assert [head] + (Levels(rest) + Levels(b)) == ([head] + Levels(rest)) + Levels(b);
    }
  }

  lemma {:induction false} LevelsHaveNoSlash(t: string)
    ensures forall i :: 0 <= i < |Levels(t)| ==> NoSlash(Levels(t)[i])
    decreases |t|
  {
    var i := FirstSlash(t);
    NoSlashBefore(t);
    if i < |t| {
      LevelsHaveNoSlash(t[i + 1..]);
    } else {
      assert t[..i] == t;
    }
  }

  lemma JoinCons(head: string, rest: seq<string>)
    requires rest != []
    ensures Join([head] + rest) == head + "/" + Join(rest)
  {
    assert ([head] + rest)[1..] == rest;
  }

  lemma CutAt(t: string, i: nat)
    requires i < |t| && t[i] == '/'
    ensures t[..i] + "/" + t[i + 1..] == t
  {
  }

  /** Joining the levels of a topic gives back the topic, whatever the topic. */
  lemma {:induction false} JoinOfLevels(t: string)
    ensures Join(Levels(t)) == t
    decreases |t|
  {
    var i := FirstSlash(t);
    if i < |t| {
      JoinOfLevels(t[i + 1..]);
      JoinCons(t[..i], Levels(t[i + 1..]));
      CutAt(t, i);
    }
  }

  lemma JoinOfSplit(topic: string)
    ensures Join(Split(topic)) == topic
  {
    JoinOfLevels(topic);
  }

  lemma {:induction false} LevelsOfJoin(levels: seq<string>)
    requires levels != [] && forall i :: 0 <= i < |levels| ==> NoSlash(levels[i])
    ensures Levels(Join(levels)) == levels
  {
    if |levels| > 1 {
      LevelsOfJoin(levels[1..]);
      LevelsOfHead(levels[0], Join(levels[1..]));
      assert levels == [levels[0]] + levels[1..];
    } else {
      LevelOfNoSlash(levels[0]);
    }
  }

  /** Splitting what was joined gives back the levels, except for the one list that joins to
      the empty topic without being empty. */
  lemma SplitOfJoin(levels: seq<string>)
    requires forall i :: 0 <= i < |levels| ==> NoSlash(levels[i])
    ensures Split(Join(levels)) == levels <==> levels != [""]
  {
    if levels != [] {
      LevelsOfJoin(levels);
      if |levels| > 1 {
        assert Join(levels)[|levels[0]|] == '/';
      }
    }
  }

  /** One turn of the splitting loop: the level that ends at a slash moves to the parts found. */
  lemma LevelsFrom(parts: seq<string>, topic: string, start: nat, i: nat)
    requires start <= i < |topic| && NoSlash(topic[start..i]) && topic[i] == '/'
    ensures parts + Levels(topic[start..]) == (parts + [topic[start..i]]) + Levels(topic[i + 1..])
  {
    var level, rest := topic[start..i], topic[i + 1..];
    assert topic[start..] == level + "/" + rest;
    LevelsOfHead(level, rest);
  }

  lemma NoSlashExtends(topic: string, start: nat, i: nat)
    requires start <= i < |topic| && NoSlash(topic[start..i]) && topic[i] != '/'
    ensures NoSlash(topic[start..i + 1])
  {
    assert topic[start..i + 1] == topic[start..i] + [topic[i]];
  }

  method SplitTopic(topic: string) returns (parts: seq<string>)
    ensures parts == Split(topic)
  {
    if topic == "" {
      return [];
    }
    parts := [];
    var start := 0;
    for i := 0 to |topic|
      invariant start <= i
      invariant NoSlash(topic[start..i])
      invariant Levels(topic) == parts + Levels(topic[start..])
    {
      if topic[i] == '/' {
        LevelsFrom(parts, topic, start, i);
        parts := parts + [topic[start..i]];
        start := i + 1;
      } else {
        NoSlashExtends(topic, start, i);
      }
    }
    assert topic[start..|topic|] == topic[start..];
    LevelOfNoSlash(topic[start..]);
    parts := parts + [topic[start..]];
  }

  // ── Matching ──

  predicate LevelsMatch(filter: seq<string>, topic: seq<string>) {
    && |filter| == |topic|
    && forall i :: 0 <= i < |filter| ==> filter[i] == "+" || filter[i] == topic[i]
  }

  method TopicMatch(filter: string, pubParts: seq<string>) returns (matches: bool)
    ensures matches <==> LevelsMatch(Split(filter), pubParts)
  {
    var subParts := SplitTopic(filter);
    if |subParts| != |pubParts| {
      return false;
    }
    for i := 0 to |subParts|
      invariant LevelsMatch(subParts[..i], pubParts[..i])
    {
      if subParts[i] == "+" {
        continue;
      }
      if subParts[i] != pubParts[i] {
        assert !LevelsMatch(subParts, pubParts);
        return false;
      }
    }
    assert subParts[..|subParts|] == subParts && pubParts[..|pubParts|] == pubParts;
    matches := true;
  }

  predicate StartsWithPlus(filter: string) {
    filter != "" && filter[0] == '+' && (|filter| == 1 || filter[1] == '/')
  }

  /** The reference reading of a filter, character by character and without any levels: a plus that
      stands alone between slashes takes everything up to the next slash; any other character takes
      itself (section 4.7.1.3 of MQTT 5.0). */
  predicate MatchesFrom(filter: string, topic: string)
    decreases |filter|, 1
  {
    if StartsWithPlus(filter) then
      var j := FirstSlash(topic);
      if |filter| == 1 then j == |topic| else j < |topic| && MatchesFrom(filter[2..], topic[j + 1..])
    else MatchesWithin(filter, topic)
  }

  predicate MatchesWithin(filter: string, topic: string)
    decreases |filter|, 0
  {
    if filter == "" then topic == ""
    else if topic == "" || filter[0] != topic[0] then false
    else if filter[0] == '/' then MatchesFrom(filter[1..], topic[1..])
    else MatchesWithin(filter[1..], topic[1..])
  }

  lemma {:induction false} WithinALevel(filter: string, topic: string)
    ensures var i, j := FirstSlash(filter), FirstSlash(topic);
            MatchesWithin(filter, topic) <==> filter[..i] == topic[..j] && RestMatches(filter, i, topic, j)
    decreases |filter|
  {
    var i, j := FirstSlash(filter), FirstSlash(topic);
    if filter != "" && topic != "" && filter[0] == topic[0] && filter[0] != '/' {
      WithinALevel(filter[1..], topic[1..]);
      assert filter[..i] == [filter[0]] + filter[1..][..i - 1];
      assert topic[..j] == [topic[0]] + topic[1..][..j - 1];
    } else if filter != "" && topic != "" && filter[0] != topic[0] && filter[0] != '/' && topic[0] != '/' {
      assert filter[..i][0] != topic[..j][0];
    } else if filter != "" && filter[0] != '/' {
      assert i > 0 && (topic == "" || topic[0] == '/' ==> j == 0);
      assert |filter[..i]| != |topic[..j]|;
    }
  }

  lemma MatchCons(f: string, fs: seq<string>, t: string, ts: seq<string>)
    ensures LevelsMatch([f] + fs, [t] + ts) <==> (f == "+" || f == t) && LevelsMatch(fs, ts)
  {
    var filter, topic := [f] + fs, [t] + ts;
    assert filter[0] == f && topic[0] == t;
    if LevelsMatch(filter, topic) {
      forall i | 0 <= i < |fs| ensures fs[i] == "+" || fs[i] == ts[i] {
        assert filter[i + 1] == fs[i] && topic[i + 1] == ts[i];
      }
    }
    if (f == "+" || f == t) && LevelsMatch(fs, ts) {
      forall i | 0 <= i < |filter| ensures filter[i] == "+" || filter[i] == topic[i] {
        assert i > 0 ==> filter[i] == fs[i - 1] && topic[i] == ts[i - 1];
      }
    }
  }

  lemma PlusIsALevel(filter: string)
    ensures StartsWithPlus(filter) <==> filter[..FirstSlash(filter)] == "+"
  {
    var i := FirstSlash(filter);
    if StartsWithPlus(filter) {
      assert FirstSlash(filter[1..]) == 0;
      assert filter[..i] == "+";
    }
    assert i > 0 ==> filter[..i][0] == filter[0];
  }

  predicate RestMatches(filter: string, i: nat, topic: string, j: nat)
    requires i <= |filter| && j <= |topic|
  {
    if i == |filter| then j == |topic| else j < |topic| && MatchesFrom(filter[i + 1..], topic[j + 1..])
  }

  lemma PlusByLevel(filter: string, topic: string)
    requires StartsWithPlus(filter)
    ensures FirstSlash(filter) == 1
    ensures MatchesFrom(filter, topic) <==> RestMatches(filter, 1, topic, FirstSlash(topic))
  {
    PlusIsALevel(filter);
    assert |filter[..FirstSlash(filter)]| == 1;
  }

  lemma LiteralByLevel(filter: string, topic: string)
    requires !StartsWithPlus(filter)
    ensures var i, j := FirstSlash(filter), FirstSlash(topic);
            MatchesFrom(filter, topic) <==> filter[..i] == topic[..j] && RestMatches(filter, i, topic, j)
  {
    WithinALevel(filter, topic);
    assert MatchesFrom(filter, topic) <==> MatchesWithin(filter, topic);
  }

  /** The reference reading, one level at a time. */
  lemma MatchesByLevel(filter: string, topic: string)
    ensures var i, j := FirstSlash(filter), FirstSlash(topic);
            MatchesFrom(filter, topic)
            <==> (filter[..i] == "+" || filter[..i] == topic[..j]) && RestMatches(filter, i, topic, j)
  {
    PlusIsALevel(filter);
    if StartsWithPlus(filter) {
      PlusByLevel(filter, topic);
    } else {
      LiteralByLevel(filter, topic);
    }
  }

  /** Level-by-level matching, which the code does, is the reference reading. */
  lemma {:induction false} LevelsMatchIsMatching(filter: string, topic: string)
    ensures LevelsMatch(Levels(filter), Levels(topic)) <==> MatchesFrom(filter, topic)
    decreases |filter|
  {
    var i, j := FirstSlash(filter), FirstSlash(topic);
    MatchesByLevel(filter, topic);
    if i < |filter| && j < |topic| {
      LevelsMatchIsMatching(filter[i + 1..], topic[j + 1..]);
      MatchCons(filter[..i], Levels(filter[i + 1..]), topic[..j], Levels(topic[j + 1..]));
    } else if i == |filter| && j == |topic| {
      assert filter[..i] == filter && topic[..j] == topic;
      assert Levels(filter)[0] == filter && Levels(topic)[0] == topic;
    }
  }

  /** What topicMatch decides, for every filter and topic. It parts from the reference reading only
      on the empty topic, which no publisher may use: there only the empty filter matches. */
  lemma TopicMatchIsMatching(filter: string, topic: string)
    ensures LevelsMatch(Split(filter), Split(topic))
            <==> if topic == "" then filter == "" else MatchesFrom(filter, topic)
  {
    LevelsMatchIsMatching(filter, topic);
    if filter == "" && topic != "" {
      assert !MatchesWithin(filter, topic);
    }
  }

  // ── Shared subscriptions ──

  const SHARE := "$share/"

  predicate IsShared(topic: string) {
    |topic| > 7 && topic[..7] == SHARE
  }

  /** Drops "$share/group/"; a filter without a group and a slash after it is left as it is. */
  function StripShare(topic: string): string {
    if IsShared(topic) && FirstSlash(topic[7..]) < |topic| - 7
    then topic[7 + FirstSlash(topic[7..]) + 1..]
    else topic
  }

  /** Stripping removes exactly the share name, which by section 4.8.2 of MQTT 5.0 has no slash. */
  lemma StripRemovesShareName(group: string, filter: string)
    requires NoSlash(group)
    ensures StripShare(SHARE + group + "/" + filter) == filter
  {
    var topic := SHARE + group + "/" + filter;
    assert topic[..7] == SHARE && topic[7..] == group + "/" + filter;
    LevelsOfHead(group, filter);
    assert topic[7 + |group| + 1..] == filter;
  }

  /** Character by character, for every filter: one that begins with "$share/" and has another slash after that
      loses everything up to that slash; any other stays as it is. */
  lemma StripInCharacters(t: string)
    ensures |t| >= 7 && t[..7] == "$share/" && '/' in t[7..] ==>
              exists i :: 7 <= i < |t| && t[i] == '/' && '/' !in t[7..i] && StripShare(t) == t[i + 1..]
    ensures !(|t| >= 7 && t[..7] == "$share/" && '/' in t[7..]) ==> StripShare(t) == t
    ensures IsShared(t) <==> |t| >= 8 && t[..7] == "$share/"
  {
    if |t| >= 7 && t[..7] == "$share/" {
      var rest := t[7..];
      var i := FirstSlash(rest);
      NoSlashBefore(rest);
      assert t[7..7 + i] == rest[..i];
      if '/' in rest {
        assert i < |rest| by {
          assert rest[..|rest|] == rest;
        }
        assert t[7 + i] == rest[i];
      }
    }
  }

  // ── Sandbox routing ──

  /** The white space that strings.TrimSpace removes. */
  predicate IsSpace(c: char) {
    c in "\t\n\r " || c in {'\U{0B}', '\U{0C}', '\U{85}', '\U{A0}', '\U{1680}', '\U{2028}', '\U{2029}',
                            '\U{202F}', '\U{205F}', '\U{3000}'}
    || '\U{2000}' <= c <= '\U{200A}'
  }

  function TrimLeft(s: string): string {
    if s != "" && IsSpace(s[0]) then TrimLeft(s[1..]) else s
  }

  function TrimRight(s: string): string {
    if s != "" && IsSpace(s[|s| - 1]) then TrimRight(s[..|s| - 1]) else s
  }

  function TrimSpace(s: string): string {
    TrimRight(TrimLeft(s))
  }

  predicate IsGroupChar(c: char) {
    'a' <= c <= 'z' || 'A' <= c <= 'Z' || '0' <= c <= '9' || c == '-' || c == '_'
  }

  function Sanitized(c: char): char {
    if IsGroupChar(c) then c else '-'
  }

  /** A group name is never empty and made of letters, digits, dashes and underscores only. */
  method SanitizeShareGroup(v: string) returns (group: string)
    ensures group == Sanitize(v)
    ensures group != "" && forall c :: c in group ==> IsGroupChar(c)
  {
    var trimmed := TrimSpace(v);
    if trimmed == "" {
      return "default";
    }
    group := "";
    for i := 0 to |trimmed|
      invariant |group| == i && forall j :: 0 <= j < i ==> group[j] == Sanitized(trimmed[j])
    {
      group := group + [if IsGroupChar(trimmed[i]) then trimmed[i] else '-'];
    }
    assert group == seq(|trimmed|, i requires 0 <= i < |trimmed| => Sanitized(trimmed[i]));
  }

  function Sanitize(v: string): (group: string)
    ensures NoSlash(group)
  {
    var trimmed := TrimSpace(v);
    if trimmed == "" then "default"
    else seq(|trimmed|, i requires 0 <= i < |trimmed| => Sanitized(trimmed[i]))
  }

  lemma {:induction false} TrimLeftTo(v: string, start: nat)
    requires start <= |v| && (forall c :: c in v[..start] ==> IsSpace(c)) && (start < |v| ==> !IsSpace(v[start]))
    ensures TrimLeft(v) == v[start..]
  {
    if start > 0 {
      assert v[0] == v[..start][0] && v[1..][..start - 1] == v[..start][1..];
      TrimLeftTo(v[1..], start - 1);
    }
  }

  lemma {:induction false} TrimRightTo(v: string, end: nat)
    requires end <= |v| && (forall c :: c in v[end..] ==> IsSpace(c)) && (end > 0 ==> !IsSpace(v[end - 1]))
    ensures TrimRight(v) == v[..end]
  {
    if end < |v| {
      var last := |v| - 1;
      assert v[last] == v[end..][last - end] && v[..last][end..] == v[end..][..last - end];
      TrimRightTo(v[..last], end);
      assert v[..last][..end] == v[..end];
    }
  }

  /** Character by character: of an id whose text runs from start to end between white space, every letter, digit,
      dash and underscore is kept and any other character becomes a dash; of nothing but white space it makes
      "default". */
  lemma SanitizeInCharacters(v: string, start: nat, end: nat)
    requires start <= end <= |v|
    requires (forall c :: c in v[..start] ==> IsSpace(c)) && (forall c :: c in v[end..] ==> IsSpace(c))
    requires start < end ==> !IsSpace(v[start]) && !IsSpace(v[end - 1])
    ensures start == end ==> Sanitize(v) == "default"
    ensures start < end ==> |Sanitize(v)| == end - start
    ensures start < end ==> forall i :: 0 <= i < end - start ==>
              var c := v[start + i];
              Sanitize(v)[i] == if 'a' <= c <= 'z' || 'A' <= c <= 'Z' || '0' <= c <= '9' || c == '-' || c == '_' then c else '-'
  {
    if start == end {
      assert forall c :: c in v ==> IsSpace(c) by {
        assert v == v[..start] + v[end..];
      }
      assert v[..|v|] == v;
      TrimLeftTo(v, |v|);
    } else {
      TrimLeftTo(v, start);
      assert v[start..][end - start..] == v[end..] && v[start..][end - start - 1] == v[end - 1];
      TrimRightTo(v[start..], end - start);
      assert TrimSpace(v) == v[start..end];
    }
  }

  const TOPIC_PREFIX := "flowgent/v1"

  function SandboxTriggerTopic(ns: string, flow: string, run: string): string {
    TOPIC_PREFIX + "/" + ns + "/" + "flows" + "/" + flow + "/" + "runs" + "/" + run + "/" + "sandbox/trigger"
  }

  /** What a sandbox worker subscribes to; unscoped unless it has both a namespace and a flow. */
  function SubscriptionTopic(distributed: bool, ns: string, flow: string): string {
    var scoped := ns != "" && flow != "";
    var filter := if scoped then SandboxTriggerTopic(ns, flow, "+") else SandboxTriggerTopic("+", "+", "+");
    var group := if scoped then "sandbox-pool-" + Sanitize(ns) + "-" + Sanitize(flow) else "sandbox-pool";
    if distributed then SHARE + group + "/" + filter else filter
  }

  lemma LevelsOfPath(p: string, ns: string, f: string, flow: string, r: string, run: string, tail: string)
    ensures Levels(p + "/" + ns + "/" + f + "/" + flow + "/" + r + "/" + run + "/" + tail)
         == Levels(p) + Levels(ns) + Levels(f) + Levels(flow) + Levels(r) + Levels(run) + Levels(tail)
  {
    LevelsOfJoined(p, ns);
    LevelsOfJoined(p + "/" + ns, f);
    LevelsOfJoined(p + "/" + ns + "/" + f, flow);
    LevelsOfJoined(p + "/" + ns + "/" + f + "/" + flow, r);
    LevelsOfJoined(p + "/" + ns + "/" + f + "/" + flow + "/" + r, run);
    LevelsOfJoined(p + "/" + ns + "/" + f + "/" + flow + "/" + r + "/" + run, tail);
  }

  lemma LevelsOfTwo(whole: string, a: string, b: string)
    requires NoSlash(a) && NoSlash(b) && whole == a + "/" + b
    ensures Levels(whole) == [a, b]
  {
    LevelsOfJoined(a, b);
    LevelOfNoSlash(a);
    LevelOfNoSlash(b);
  }

  lemma LevelsOfRunTopic(p: string, p1: string, p2: string, ns: string, f: string, flow: string, r: string, run: string,
                         tail: string, t1: string, t2: string)
    requires NoSlash(p1) && NoSlash(p2) && p == p1 + "/" + p2
    requires NoSlash(t1) && NoSlash(t2) && tail == t1 + "/" + t2
    requires NoSlash(f) && NoSlash(r)
    ensures Levels(p + "/" + ns + "/" + f + "/" + flow + "/" + r + "/" + run + "/" + tail)
         == [p1, p2] + Levels(ns) + [f] + Levels(flow) + [r] + Levels(run) + [t1, t2]
  {
    LevelsOfPath(p, ns, f, flow, r, run, tail);
    LevelsOfTwo(p, p1, p2);
    LevelsOfTwo(tail, t1, t2);
    LevelOfNoSlash(f);
    LevelOfNoSlash(r);
  }

  lemma TriggerLevels(ns: string, flow: string, run: string)
    ensures Levels(SandboxTriggerTopic(ns, flow, run))
         == ["flowgent", "v1"] + Levels(ns) + ["flows"] + Levels(flow) + ["runs"] + Levels(run) + ["sandbox", "trigger"]
  {
    LevelsOfRunTopic(TOPIC_PREFIX, "flowgent", "v1", ns, "flows", flow, "runs", run, "sandbox/trigger", "sandbox", "trigger");
  }

  /** The filter a worker's subscription stands for, in both modes. */
  lemma SubscriptionFilter(distributed: bool, ns: string, flow: string)
    ensures StripShare(SubscriptionTopic(distributed, ns, flow))
         == if ns != "" && flow != "" then SandboxTriggerTopic(ns, flow, "+") else SandboxTriggerTopic("+", "+", "+")
    ensures IsShared(SubscriptionTopic(distributed, ns, flow)) <==> distributed
  {
    var scoped := ns != "" && flow != "";
    var filter := if scoped then SandboxTriggerTopic(ns, flow, "+") else SandboxTriggerTopic("+", "+", "+");
    assert filter[0] == 'f';
    if distributed {
      var group := if scoped then "sandbox-pool-" + Sanitize(ns) + "-" + Sanitize(flow) else "sandbox-pool";
      StripRemovesShareName(group, filter);
      assert (SHARE + group + "/" + filter)[..7] == SHARE;
    } else {
      assert filter[..7][0] != SHARE[0];
    }
  }

  lemma LevelsUnderShare(group: string, filter: string)
    requires NoSlash(group)
    ensures Levels(SHARE + group + "/" + filter) == ["$share", group] + Levels(filter)
  {
    var rest := group + "/" + filter;
    assert SHARE + group + "/" + filter == "$share" + "/" + rest;
    LevelsOfHead("$share", rest);
    LevelsOfHead(group, filter);
  }

  lemma PlusRunLevels(ns: string, flow: string)
    ensures Levels(SandboxTriggerTopic(ns, flow, "+"))
         == ["flowgent", "v1"] + Levels(ns) + ["flows"] + Levels(flow) + ["runs", "+", "sandbox", "trigger"]
  {
    TriggerLevels(ns, flow, "+");
    LevelOfNoSlash("+");
    var head := ["flowgent", "v1"] + Levels(ns) + ["flows"] + Levels(flow);
    assert head + ["runs"] + ["+"] + ["sandbox", "trigger"] == head + ["runs", "+", "sandbox", "trigger"];
  }

  /** A worker's subscription, level by level: that of its triggers, which PlusRunLevels gives, in distributed mode
      under a group named after its namespace and flow. */
  lemma ScopedSubscriptionLevels(distributed: bool, ns: string, flow: string)
    requires ns != "" && flow != ""
    ensures Levels(SubscriptionTopic(distributed, ns, flow))
         == (if distributed then ["$share", "sandbox-pool-" + Sanitize(ns) + "-" + Sanitize(flow)] else [])
            + Levels(SandboxTriggerTopic(ns, flow, "+"))
  {
    var group, filter := "sandbox-pool-" + Sanitize(ns) + "-" + Sanitize(flow), SandboxTriggerTopic(ns, flow, "+");
    if distributed {
      LevelsUnderShare(group, filter);
      assert SubscriptionTopic(distributed, ns, flow) == SHARE + group + "/" + filter;
    }
  }

  lemma PlusEverywhereLevels(plus: string)
    requires plus == "+"
    ensures Levels(SandboxTriggerTopic(plus, plus, "+"))
         == ["flowgent", "v1"] + [plus] + ["flows"] + [plus] + ["runs", "+", "sandbox", "trigger"]
  {
    PlusRunLevels(plus, plus);
    LevelOfNoSlash(plus);
  }

  /** Without both ids a worker subscribes to the triggers of all flows, whose levels PlusEverywhereLevels gives. */
  lemma UnscopedSubscriptionLevels(distributed: bool, ns: string, flow: string)
    requires ns == "" || flow == ""
    ensures Levels(SubscriptionTopic(distributed, ns, flow))
         == (if distributed then ["$share", "sandbox-pool"] else []) + Levels(SandboxTriggerTopic("+", "+", "+"))
  {
    var group, filter := "sandbox-pool", SandboxTriggerTopic("+", "+", "+");
    if distributed {
      LevelsUnderShare(group, filter);
      assert SubscriptionTopic(distributed, ns, flow) == SHARE + group + "/" + filter;
    }
  }

  predicate Routes(subscription: string, topic: string) {
    LevelsMatch(Split(StripShare(subscription)), Split(topic))
  }

  lemma RunLevelsMatch(ns: string, flow: string, run: seq<string>, ns2: string, flow2: string,
                       p1: string, p2: string, f: string, r: string, t1: string, t2: string)
    ensures LevelsMatch([p1, p2] + [ns2] + [f] + [flow2] + [r] + ["+"] + [t1, t2],
                        [p1, p2] + [ns] + [f] + [flow] + [r] + run + [t1, t2])
            <==> |run| == 1 && (ns2 == "+" || ns == ns2) && (flow2 == "+" || flow == flow2)
  {
    var filter := [p1, p2, ns2, f, flow2, r, "+", t1, t2];
    assert [p1, p2] + [ns2] + [f] + [flow2] + [r] + ["+"] + [t1, t2] == filter;
    if |run| == 1 {
      var topic := [p1, p2, ns, f, flow, r, run[0], t1, t2];
      assert [p1, p2] + [ns] + [f] + [flow] + [r] + run + [t1, t2] == topic;
      assert filter[2] == ns2 && topic[2] == ns && filter[4] == flow2 && topic[4] == flow;
    }
  }

  lemma OneLevel(t: string)
    ensures |Levels(t)| == 1 <==> NoSlash(t)
  {
    var i := FirstSlash(t);
    NoSlashBefore(t);
    assert i == |t| ==> t[..i] == t;
  }

  /** Scoped routing, for ids without slashes: a trigger reaches a scoped worker exactly when each of the
      worker's ids is the trigger's or a lone plus. With real ids, none of them a plus, that is: exactly
      when namespace and flow are the same. A run id with a slash reaches no one. */
  lemma ScopedRouting(distributed: bool, ns: string, flow: string, run: string, ns2: string, flow2: string)
    requires NoSlash(ns) && NoSlash(flow) && NoSlash(ns2) && NoSlash(flow2) && ns2 != "" && flow2 != ""
    ensures Routes(SubscriptionTopic(distributed, ns2, flow2), SandboxTriggerTopic(ns, flow, run))
            <==> NoSlash(run) && (ns2 == "+" || ns == ns2) && (flow2 == "+" || flow == flow2)
  {
    SubscriptionFilter(distributed, ns2, flow2);
    TriggerLevels(ns2, flow2, "+");
    TriggerLevels(ns, flow, run);
    LevelOfNoSlash("+");
    LevelOfNoSlash(ns);
    LevelOfNoSlash(flow);
    LevelOfNoSlash(ns2);
    LevelOfNoSlash(flow2);
    OneLevel(run);
    RunLevelsMatch(ns, flow, Levels(run), ns2, flow2, "flowgent", "v1", "flows", "runs", "sandbox", "trigger");
  }

  /** A worker without both ids takes every trigger whose ids have no slash. */
  lemma UnscopedRouting(distributed: bool, ns: string, flow: string, run: string, ns2: string, flow2: string)
    requires NoSlash(ns) && NoSlash(flow) && (ns2 == "" || flow2 == "")
    ensures Routes(SubscriptionTopic(distributed, ns2, flow2), SandboxTriggerTopic(ns, flow, run)) <==> NoSlash(run)
  {
    SubscriptionFilter(distributed, ns2, flow2);
    SubscriptionFilter(distributed, "+", "+");
    ScopedRouting(distributed, ns, flow, run, "+", "+");
  }
}
