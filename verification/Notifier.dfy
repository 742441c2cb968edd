/** The user-space notifier that decides the connect calls the filter defers, and
    the decision that filter and notifier reach together. */
module NotifierDecision {
  import opened Bpf
  import opened Common
  import opened PolicyCompiler
  import opened FilterWire

  const AF_INET := 2
  const DNS_PORT := 53
  const SOCKADDR_SIZE := 16
  const FLAG_CONTINUE: u32 := 1

  /** What reading the caller's memory gave: nothing, or as many bytes as were there. */
  type MemoryRead = Option<seq<u8>>

  function FromBe16(high: u8, low: u8): u16 {
    high as int * 0x100 + low as int
  }

  /** The address in a struct sockaddr_in: little-endian family, big-endian port, four address bytes. */
  function ReadSockaddr(raw: MemoryRead): Option<IpPort> {
    if raw.None? || |raw.value| < SOCKADDR_SIZE then None
    else if FromLe16(raw.value[0], raw.value[1]) != AF_INET then None
    else Some(IpPort(raw.value[4..8], FromBe16(raw.value[2], raw.value[3])))
  }

  /** Which targets the lists permit. Name lookups are permitted whatever the lists
      say, and with both lists empty nothing else is. */
  predicate Permits(allowlist: seq<IpPort>, denylist: seq<IpPort>, target: IpPort) {
    || target.port == DNS_PORT
    || (allowlist != [] && target in allowlist)
    || (allowlist == [] && denylist != [] && target !in denylist)
  }

  /** Which connects the lists let through, said of the bytes at the address argument: sixteen can be read, the
      family is 2, and the port, most significant byte first, is 53 or makes with the four address bytes a
      pair the lists permit. */
  predicate BytesPermitted(allowlist: seq<IpPort>, denylist: seq<IpPort>, raw: MemoryRead) {
    && raw.Some? && |raw.value| >= 16 && raw.value[0] == 2 && raw.value[1] == 0
    && var port := 256 * raw.value[2] as int + raw.value[3] as int;
       var target := IpPort([raw.value[4], raw.value[5], raw.value[6], raw.value[7]], port);
       || port == 53
       || (|allowlist| > 0 && target in allowlist)
       || (|allowlist| == 0 && |denylist| > 0 && target !in denylist)
  }

  lemma PermitsByBytes(allowlist: seq<IpPort>, denylist: seq<IpPort>, raw: MemoryRead)
    ensures BytesPermitted(allowlist, denylist, raw)
       <==> ReadSockaddr(raw).Some? && Permits(allowlist, denylist, ReadSockaddr(raw).value)
  {
    if raw.Some? && |raw.value| >= 16 {
      assert raw.value[4..8] == [raw.value[4], raw.value[5], raw.value[6], raw.value[7]];
    }
  }

  datatype NotifResponse = NotifResponse(id: u64, val: int, error: int, flags: u32)

  class Notifier {
    var allowlist: seq<IpPort>
    var denylist: seq<IpPort>

    constructor ()
      ensures allowlist == [] && denylist == []
    {
      allowlist, denylist := [], [];
    }

    method SetAllowlist(list: seq<IpPort>)
      modifies this`allowlist
      ensures allowlist == list
    {
      allowlist := list;
    }

    method SetDenylist(list: seq<IpPort>)
      modifies this`denylist
      ensures denylist == list
    {
      denylist := list;
    }

    method CheckTarget(sockaddrPtr: u64, raw: MemoryRead) returns (allow: bool, errno: u32)
      ensures allow <==> sockaddrPtr != 0 && ReadSockaddr(raw).Some?
                         && Permits(allowlist, denylist, ReadSockaddr(raw).value)
      ensures errno == if allow then 0 else EPERM
      ensures allow <==> sockaddrPtr != 0 && BytesPermitted(allowlist, denylist, raw)
      ensures errno == if allow then 0 else 1
    {
      PermitsByBytes(allowlist, denylist, raw);
      if sockaddrPtr == 0 {
        return false, EPERM;
      }
      var target := ReadSockaddr(raw);
      if target.None? {
        return false, EPERM;
      }
      if target.value.port == DNS_PORT {
        return true, 0;
      }
      if |allowlist| > 0 {
        for i := 0 to |allowlist|
          invariant target.value !in allowlist[..i]
        {
          if allowlist[i] == target.value {
            return true, 0;
          }
        }
        return false, EPERM;
      }
      if |denylist| > 0 {
        for i := 0 to |denylist|
          invariant target.value !in denylist[..i]
        {
          if denylist[i] == target.value {
            return false, EPERM;
          }
        }
        return true, 0;
      }
      return false, EPERM;
    }

    /** One round of the notifier loop: the answer sent back for a deferred call. */
    method Respond(id: u64, d: SeccompData, raw: MemoryRead) returns (resp: NotifResponse)
      ensures resp.id == id && resp.val == 0
      ensures resp.flags == FLAG_CONTINUE <==>
                d.args[1] != 0 && ReadSockaddr(raw).Some? && Permits(allowlist, denylist, ReadSockaddr(raw).value)
      ensures (resp.flags == FLAG_CONTINUE && resp.error == 0) || (resp.flags == 0 && resp.error == -1)
      ensures resp.flags == (if d.args[1] != 0 && BytesPermitted(allowlist, denylist, raw) then 1 else 0)
      ensures resp.error == (if d.args[1] != 0 && BytesPermitted(allowlist, denylist, raw) then 0 else -1)
    {
      PermitsByBytes(allowlist, denylist, raw);
      var allow, errno := CheckTarget(d.args[1], raw);
      if allow {
        resp := NotifResponse(id, 0, 0, FLAG_CONTINUE);
      } else {
        resp := NotifResponse(id, 0, -(errno as int), 0);
      }
    }
  }

  /** The parent gives the notifier both lists of the filter it started the child with. */
  method NotifierFor(f: Filter) returns (n: Notifier)
    ensures fresh(n) && n.allowlist == f.allowlist && n.denylist == f.denylist
  {
    n := new Notifier();
    n.SetAllowlist(f.allowlist);
    n.SetDenylist(f.denylist);
  }

  /** When a policy lets a connect through, as one condition on the policy and the bytes
      at the address argument. */
  predicate LetThrough(policy: NetworkPolicy, d: SeccompData, raw: MemoryRead) {
    && d.args[1] != 0
    && ReadSockaddr(raw).Some?
    && var target := ReadSockaddr(raw).value;
       || (policy.mode == "allowlist" && policy.allowed.Ok?
           && (target.port == DNS_PORT || target in policy.allowed.value))
       || (policy.mode == "denylist" && policy.denied.Ok?
           && (target.port == DNS_PORT || (policy.denied.value != [] && target !in policy.denied.value)))
  }

  /** The filter's verdict on a call, after its program went to the child as bytes. */
  method ChildVerdict(f: Filter, d: SeccompData) returns (verdict: u32)
    requires Carries(f.fprog, f.mode)
    ensures verdict == Policy(f.mode, d)
    ensures DecisionInNumbers(f.mode, d, verdict)
  {
    var flat := f.MarshalFilter();
    var decoded := DecodeFilter(flat[..]);
    ChildRunsThePolicy(f.fprog, f.mode, d);
    assert decoded == Ok(ChildFprog(flat[..]));
    PolicyInNumbers(f.mode, d);
    verdict := Run(Installed(decoded.value), 0, 0, d).verdict;
  }

  /** The path of a connect call through a compiled filter: the parent builds and flattens it, the child
      decodes it, the kernel runs it, and the notifier answers if asked. In mode "none" this is what the
      filter would decide; a script launched in that mode runs without one. */
  method Connect(policy: NetworkPolicy, d: SeccompData, raw: MemoryRead) returns (permitted: Option<bool>)
    requires d.nr == 42
    ensures permitted.Some? <==>
              || policy.mode in {"", "none"}
              || (policy.mode == "allowlist" && policy.allowed.Ok?)
              || (policy.mode == "denylist" && policy.denied.Ok?)
    ensures permitted.Some? ==> (permitted.value <==> LetThrough(policy, d, raw))
    ensures permitted.Some? && policy.mode == "allowlist" ==>
              (permitted.value <==> d.args[1] != 0 && BytesPermitted(policy.allowed.value, [], raw))
    ensures permitted.Some? && policy.mode == "denylist" ==>
              (permitted.value <==> d.args[1] != 0 && BytesPermitted([], policy.denied.value, raw))
    ensures permitted.Some? && policy.mode in {"", "none"} ==> !permitted.value
  {
    if policy.allowed.Ok? {
      PermitsByBytes(policy.allowed.value, [], raw);
    }
    if policy.denied.Ok? {
      PermitsByBytes([], policy.denied.value, raw);
    }
    var built := BuildFilter(Some(policy));
    if built.Err? {
      return None;
    }
    var f := built.value;
    var verdict := ChildVerdict(f, d);
    if verdict == RET_ALLOW {
      return Some(true);
    } else if verdict == RET_USER_NOTIF {
      var n := NotifierFor(f);
      var resp := n.Respond(0, d, raw);
      return Some(resp.flags == FLAG_CONTINUE);
    }
    return Some(false);
  }
}
