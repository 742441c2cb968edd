/** The filter object, and the flat byte form in which the parent hands its
    program to the sandbox child. */
module FilterWire {
  import opened Bpf
  import opened Common
  import opened PolicyCompiler

  type Ip4 = ip: seq<u8> | |ip| == 4 witness [0, 0, 0, 0]

  datatype IpPort = IpPort(ip: Ip4, port: u16)

  /** struct sock_fprog: a 16-bit length and a pointer, nil when there is no filter. */
  datatype Fprog = Fprog(len: u16, filter: Option<seq<SockFilter>>)

  const NO_FPROG := Fprog(0, None)

  /** A network policy with its host names already looked up; either lookup may
      have failed. */
  datatype NetworkPolicy = NetworkPolicy(mode: string,
                                         allowed: Result<seq<IpPort>, string>,
                                         denied: Result<seq<IpPort>, string>)

  datatype FilterError = UnknownMode(mode: string) | Unresolved(message: string)

  datatype ChildError = EmptyFilter

  // ── The byte form of an instruction ──

  /** Little-endian code, jt, jf, little-endian k. */
  function EncodeInsn(i: SockFilter): (b: seq<u8>)
    ensures |b| == 8
  {
    [i.code % 0x100, i.code / 0x100, i.jt, i.jf,
     i.k % 0x100, i.k / 0x100 % 0x100, i.k / 0x1_0000 % 0x100, i.k / 0x100_0000]
  }

  // The low byte first; the bytes occupy disjoint bits, so or-ing shifted bytes is adding.
  function FromLe16(b0: u8, b1: u8): u16 {
    b0 as int + b1 as int * 0x100
  }

  function FromLe32(b0: u8, b1: u8, b2: u8, b3: u8): u32 {
    b0 as int + b1 as int * 0x100 + b2 as int * 0x1_0000 + b3 as int * 0x100_0000
  }

  function DecodeInsn(b: seq<u8>): SockFilter
    requires |b| == 8
  {
    SockFilter(FromLe16(b[0], b[1]), b[2], b[3], FromLe32(b[4], b[5], b[6], b[7]))
  }

  function EncodeProgram(insns: seq<SockFilter>): (flat: seq<u8>)
    ensures |flat| == 8 * |insns|
  {
    if insns == [] then []
    else EncodeProgram(insns[..|insns| - 1]) + EncodeInsn(insns[|insns| - 1])
  }

  function DecodeProgram(flat: seq<u8>): (insns: seq<SockFilter>) {
    seq(|flat| / 8, i requires 0 <= i < |flat| / 8 => DecodeInsn(flat[8 * i..8 * i + 8]))
  }

  lemma Le32Bytes(b0: u8, b1: u8, b2: u8, b3: u8)
    ensures var k := FromLe32(b0, b1, b2, b3);
            k % 0x100 == b0 && k / 0x100 % 0x100 == b1 && k / 0x1_0000 % 0x100 == b2 && k / 0x100_0000 == b3
  {
    var k := FromLe32(b0, b1, b2, b3);
    assert k / 0x100 == b1 as int + b2 as int * 0x100 + b3 as int * 0x1_0000;
    assert k / 0x1_0000 == b2 as int + b3 as int * 0x100;
  }

  lemma Le32Whole(k: u32)
    ensures FromLe32(k % 0x100, k / 0x100 % 0x100, k / 0x1_0000 % 0x100, k / 0x100_0000) == k
  {
    var k1, k2 := k / 0x100, k / 0x1_0000;
    assert k1 / 0x100 == k2 && k2 / 0x100 == k / 0x100_0000;
  }

  lemma DecodeEncodedInsn(i: SockFilter)
    ensures DecodeInsn(EncodeInsn(i)) == i
  {
    Le32Whole(i.k);
    assert i.code % 0x100 + i.code / 0x100 * 0x100 == i.code;
  }

  lemma EncodeDecodedInsn(b: seq<u8>)
    requires |b| == 8
    ensures EncodeInsn(DecodeInsn(b)) == b
  {
    Le32Bytes(b[4], b[5], b[6], b[7]);
    var code := FromLe16(b[0], b[1]);
    assert code % 0x100 == b[0] && code / 0x100 == b[1];
  }

  lemma {:induction false} EncodedAt(insns: seq<SockFilter>, i: nat)
    requires i < |insns|
    ensures EncodeProgram(insns)[8 * i..8 * i + 8] == EncodeInsn(insns[i])
  {
    var init := insns[..|insns| - 1];
    if i < |init| {
      EncodedAt(init, i);
      assert EncodeProgram(insns)[8 * i..8 * i + 8] == EncodeProgram(init)[8 * i..8 * i + 8];
    }
  }

  lemma DecodedEntry(flat: seq<u8>, i: nat, insn: SockFilter)
    requires i < |flat| / 8 && flat[8 * i..8 * i + 8] == EncodeInsn(insn)
    ensures DecodeProgram(flat)[i] == insn
  {
    DecodeEncodedInsn(insn);
  }

  /** Decoding what was encoded gives back the program, of any length. */
  lemma DecodeAfterEncode(insns: seq<SockFilter>)
    ensures DecodeProgram(EncodeProgram(insns)) == insns
  {
    forall i | 0 <= i < |insns| ensures DecodeProgram(EncodeProgram(insns))[i] == insns[i] {
      EncodedAt(insns, i);
      DecodedEntry(EncodeProgram(insns), i, insns[i]);
    }
  }

  lemma {:induction false} EncodeDecodedPrefix(flat: seq<u8>, n: nat)
    requires n <= |flat| / 8
    ensures EncodeProgram(DecodeProgram(flat)[..n]) == flat[..8 * n]
  {
    if n > 0 {
      EncodeDecodedPrefix(flat, n - 1);
      var insns := DecodeProgram(flat)[..n];
      var chunk := flat[8 * (n - 1)..8 * (n - 1) + 8];
      assert insns[..n - 1] == DecodeProgram(flat)[..n - 1] && insns[n - 1] == DecodeInsn(chunk);
      EncodeDecodedInsn(chunk);
      assert flat[..8 * n] == flat[..8 * (n - 1)] + chunk;
    }
  }

  /** Encoding what was decoded gives back the buffer up to its last whole
      instruction: all of it exactly when its length is a multiple of eight. */
  lemma EncodeAfterDecode(flat: seq<u8>)
    ensures EncodeProgram(DecodeProgram(flat)) == flat[..8 * (|flat| / 8)]
    ensures EncodeProgram(DecodeProgram(flat)) == flat <==> |flat| % 8 == 0
  {
    var n := |flat| / 8;
    EncodeDecodedPrefix(flat, n);
    assert DecodeProgram(flat)[..n] == DecodeProgram(flat);
    if |flat| % 8 == 0 {
      assert flat[..8 * n] == flat;
    }
  }

  /** The eight bytes of an instruction, by their weights: code and k least significant byte first. */
  predicate LaidOut(b: seq<u8>, i: SockFilter)
    requires |b| == 8
  {
    && i.code == b[0] as int + 256 * b[1] as int
    && i.jt == b[2] && i.jf == b[3]
    && i.k == b[4] as int + 256 * b[5] as int + 65536 * b[6] as int + 16777216 * b[7] as int
  }

  lemma DecodedLayout(b: seq<u8>)
    requires |b| == 8
    ensures LaidOut(b, DecodeInsn(b))
  {
  }

  /** Both ways, the i-th instruction is the i-th group of eight bytes, read by the weights of its bytes. */
  lemma ProgramLayout(insns: seq<SockFilter>, flat: seq<u8>)
    ensures forall i :: 0 <= i < |insns| ==> LaidOut(EncodeProgram(insns)[8 * i..8 * i + 8], insns[i])
    ensures |DecodeProgram(flat)| == |flat| / 8
    ensures forall i :: 0 <= i < |flat| / 8 ==> LaidOut(flat[8 * i..8 * i + 8], DecodeProgram(flat)[i])
  {
    forall i | 0 <= i < |insns| ensures LaidOut(EncodeProgram(insns)[8 * i..8 * i + 8], insns[i]) {
      EncodedAt(insns, i);
      DecodeEncodedInsn(insns[i]);
      DecodedLayout(EncodeInsn(insns[i]));
    }
  }

  // ── Parent side ──

  /** The sock_fprog holds, whole, a program the kernel admits and that means the mode's policy. */
  ghost predicate Carries(fprog: Fprog, mode: string) {
    && fprog.filter.Some?
    && fprog.len == |fprog.filter.value|
    && Admissible(fprog.filter.value)
    && forall d: SeccompData :: Run(fprog.filter.value, 0, 0, d) == Returns(Policy(mode, d))
  }

  method BuildSockFprog(mode: string) returns (fprog: Fprog)
    ensures Carries(fprog, mode)
  {
    var prog := BuildBPF(mode);
    if |prog| == 0 {
      return NO_FPROG;
    }
    fprog := Fprog(|prog| % 0x1_0000, Some(prog));
  }

  class Filter {
    var fprog: Fprog
    var allowlist: seq<IpPort>
    var denylist: seq<IpPort>
    var mode: string

    constructor (mode: string)
      ensures this.mode == mode && fprog == NO_FPROG && allowlist == [] && denylist == []
    {
      this.mode := mode;
      fprog, allowlist, denylist := NO_FPROG, [], [];
    }

    /** The flat program; empty when the filter has none. Only the first `len`
        instructions travel. */
    method MarshalFilter() returns (flat: array<u8>)
      requires fprog.filter.Some? ==> fprog.len <= |fprog.filter.value|
      ensures fresh(flat)
      ensures flat[..] == if fprog.filter.None? then [] else EncodeProgram(fprog.filter.value[..fprog.len])
    {
      if fprog.filter.None? {
        flat := new u8[0];
        return;
      }
      var insns := fprog.filter.value;
      var n: nat := fprog.len;
      flat := new u8[n * 8];
      for i := 0 to n
        invariant flat[..8 * i] == EncodeProgram(insns[..i])
      {
        WriteInsn(flat, i * 8, insns[i]);
        assert insns[..i + 1][..i] == insns[..i];
      }
      assert flat[..] == flat[..8 * n];
    }
  }

  /** Stores one instruction at an offset, leaving what is before it alone. */
  method WriteInsn(flat: array<u8>, off: nat, inst: SockFilter)
    requires off + 8 <= flat.Length
    modifies flat
    ensures flat[..off + 8] == old(flat[..off]) + EncodeInsn(inst)
  {
    flat[off] := inst.code % 0x100;
    flat[off + 1] := inst.code / 0x100 % 0x100;
    flat[off + 2] := inst.jt;
    flat[off + 3] := inst.jf;
    flat[off + 4] := inst.k % 0x100;
    flat[off + 5] := inst.k / 0x100 % 0x100;
    flat[off + 6] := inst.k / 0x1_0000 % 0x100;
    flat[off + 7] := inst.k / 0x100_0000 % 0x100;
    assert flat[off..off + 8] == EncodeInsn(inst);
    assert flat[..off + 8] == flat[..off] + flat[off..off + 8];
  }

  function NormalMode(mode: string): string {
    if mode == "" then "none" else mode
  }

  method BuildFilter(policy: Option<NetworkPolicy>) returns (r: Result<Filter, FilterError>)
    ensures policy.None? ==>
              r.Ok? && r.value.mode == "none" && r.value.fprog == NO_FPROG
              && r.value.allowlist == [] && r.value.denylist == []
    ensures policy.Some? ==>
              var p, mode := policy.value, NormalMode(policy.value.mode);
              (r.Err? <==> || mode !in {"none", "allowlist", "denylist"}
                           || (mode == "allowlist" && p.allowed.Err?)
                           || (mode == "denylist" && p.denied.Err?))
    ensures policy.Some? && r.Ok? ==>
              var p, f, mode := policy.value, r.value, NormalMode(policy.value.mode);
              && f.mode == mode
              && Carries(f.fprog, mode)
              && f.allowlist == (if mode == "allowlist" then p.allowed.value else [])
              && f.denylist == (if mode == "denylist" then p.denied.value else [])
    ensures policy.Some? && r.Err? ==>
              r.error == (if policy.value.mode == "allowlist" then Unresolved(policy.value.allowed.error)
                          else if policy.value.mode == "denylist" then Unresolved(policy.value.denied.error)
                          else UnknownMode(policy.value.mode))
    ensures policy.Some? && r.Ok? ==> r.value.mode == if policy.value.mode == "" then "none" else policy.value.mode
    ensures r.Ok? ==> fresh(r.value)
  {
    if policy.None? {
      var none := new Filter("none");
      return Ok(none);
    }
    var mode := policy.value.mode;
    if mode == "" {
      mode := "none";
    }
    var f := new Filter(mode);
    if mode == "none" {
    } else if mode == "allowlist" {
      if policy.value.allowed.Err? {
        return Err(Unresolved(policy.value.allowed.error));
      }
      f.allowlist := policy.value.allowed.value;
    } else if mode == "denylist" {
      if policy.value.denied.Err? {
        return Err(Unresolved(policy.value.denied.error));
      }
      f.denylist := policy.value.denied.value;
    } else {
      return Err(UnknownMode(mode));
    }
    f.fprog := BuildSockFprog(mode);
    r := Ok(f);
  }

  // ── Child side ──

  /** Rebuilds the program from the flat bytes; trailing bytes that do not fill an
      instruction are ignored. */
  method DecodeFilter(flat: seq<u8>) returns (r: Result<Fprog, ChildError>)
    ensures r == if |flat| < 8 then Err(EmptyFilter)
                 else Ok(Fprog(|flat| / 8 % 0x1_0000, Some(DecodeProgram(flat))))
  {
    var n := |flat| / 8;
    if n == 0 {
      return Err(EmptyFilter);
    }
    var insns := new SockFilter[n](i => SockFilter(0, 0, 0, 0));
    for i := 0 to n
      invariant forall j :: 0 <= j < i ==> insns[j] == DecodeInsn(flat[8 * j..8 * j + 8])
    {
      var off := i * 8;
      insns[i] := SockFilter(
        FromLe16(flat[off], flat[off + 1]),
        flat[off + 2],
        flat[off + 3],
        FromLe32(flat[off + 4], flat[off + 5], flat[off + 6], flat[off + 7]));
    }
    assert insns[..] == DecodeProgram(flat);
    r := Ok(Fprog(n % 0x1_0000, Some(insns[..])));
  }

  /** The code the kernel reads out of a sock_fprog. */
  function Installed(fprog: Fprog): seq<SockFilter>
    requires fprog.filter.Some? && fprog.len <= |fprog.filter.value|
  {
    fprog.filter.value[..fprog.len]
  }

  function ChildFprog(flat: seq<u8>): (fprog: Fprog) {
    Fprog(|flat| / 8 % 0x1_0000, Some(DecodeProgram(flat)))
  }

  /** What survives the trip, for programs of any length: the 16-bit length field
      keeps the program whole exactly when it is shorter than 65536. */
  lemma TripKeepsProgram(insns: seq<SockFilter>)
    ensures var sent := insns[..|insns| % 0x1_0000];
            && Installed(ChildFprog(EncodeProgram(sent))) == sent
            && (sent == insns <==> |insns| < 0x1_0000)
  {
    var sent := insns[..|insns| % 0x1_0000];
    DecodeAfterEncode(sent);
  }

  /** End to end: the code the child installs is admitted by the kernel and returns
      the parent's policy verdict on every call record. */
  lemma ChildRunsThePolicy(fprog: Fprog, mode: string, d: SeccompData)
    requires Carries(fprog, mode)
    ensures var child := ChildFprog(EncodeProgram(fprog.filter.value[..fprog.len]));
            Carries(child, mode) && Run(Installed(child), 0, 0, d) == Returns(Policy(mode, d))
  {
    var code := fprog.filter.value;
    assert code[..fprog.len] == code;
    TripKeepsProgram(code);
    DecodeAfterEncode(code);
  }
}
