/** The compiler from a network-policy mode to a classic BPF program, and the
    proof that the program means the policy. */
module PolicyCompiler {
  import opened Bpf

  // x86_64 system call numbers.
  const SYS_SOCKET: u32 := 41
  const SYS_CONNECT: u32 := 42
  const SYS_SENDTO: u32 := 44
  const SYS_SENDMSG: u32 := 46
  const SYS_INIT_MODULE: u32 := 175
  const SYS_KEXEC_LOAD: u32 := 246
  const SYS_PERF_EVENT_OPEN: u32 := 298
  const SYS_SENDMMSG: u32 := 307
  const SYS_BPF: u32 := 321

  const SOCK_RAW: u32 := 3
  const EPERM: u32 := 1

  const OFF_NR: u32 := 0
  const OFF_ARG1: u32 := 24

  // Filter return values: SECCOMP_RET_ALLOW, SECCOMP_RET_USER_NOTIF, and
  // SECCOMP_RET_ERRNO carrying EPERM in its low half.
  const RET_ALLOW: u32 := 0x7fff_0000
  const RET_USER_NOTIF: u32 := 0x7fc0_0000
  const RET_EPERM: u32 := 0x0005_0000 + EPERM

  const PRIVILEGED: seq<u32> := [SYS_BPF, SYS_INIT_MODULE, SYS_KEXEC_LOAD, SYS_PERF_EVENT_OPEN]
  const EGRESS: seq<u32> := [SYS_CONNECT, SYS_SENDTO, SYS_SENDMSG, SYS_SENDMMSG]

  predicate UsesNotifier(mode: string) {
    mode == "allowlist" || mode == "denylist"
  }

  /** The policy, stated about the call and never about code. */
  function Policy(mode: string, d: SeccompData): (verdict: u32) {
    var denied :=
      || d.nr in {321, 175, 246, 298}
      || (d.nr == 41 && d.args[1] % 0x1_0000_0000 == SOCK_RAW)
      || (d.nr in {42, 44, 46, 307} && !UsesNotifier(mode));
    if denied then RET_EPERM
    else if d.nr == 42 then RET_USER_NOTIF
    else RET_ALLOW
  }

  // ── Instruction constructors ──

  function Ld(offset: u32): SockFilter { SockFilter(LD_W_ABS, 0, 0, offset) }
  function Jeq(value: u32, jt: u8, jf: u8): SockFilter { SockFilter(JEQ_K, jt, jf, value) }
  function Ja(jumps: u8): SockFilter { SockFilter(JA, 0, 0, jumps) }
  function Ret(verdict: u32): SockFilter { SockFilter(RET_K, 0, 0, verdict) }

  // ── Fragments ──

  /** If the accumulator is `value`, return `verdict`; otherwise fall through. */
  function Guard(value: u32, verdict: u32): seq<SockFilter> {
    [Jeq(value, 1, 0), Ja(1), Ret(verdict)]
  }

  /** Load the call number and guard on it. */
  function GuardCall(nr: u32, verdict: u32): seq<SockFilter> {
    [Ld(OFF_NR)] + Guard(nr, verdict)
  }

  function BlockCalls(nrs: seq<u32>): seq<SockFilter> {
    if nrs == [] then [] else BlockCalls(nrs[..|nrs| - 1]) + GuardCall(nrs[|nrs| - 1], RET_EPERM)
  }

  function SocketBlock(): seq<SockFilter> {
    [Ld(OFF_NR), Jeq(SYS_SOCKET, 1, 0), Ja(5), Ld(OFF_ARG1)] + Guard(SOCK_RAW, RET_EPERM) + [Ret(RET_ALLOW)]
  }

  function EgressBlock(mode: string): seq<SockFilter> {
    if UsesNotifier(mode) then GuardCall(SYS_CONNECT, RET_USER_NOTIF) else BlockCalls(EGRESS)
  }

  function Program(mode: string): seq<SockFilter> {
    BlockCalls(PRIVILEGED) + SocketBlock() + EgressBlock(mode) + [Ret(RET_ALLOW)]
  }

  // ── What the fragments mean ──

  lemma GuardMeans(value: u32, verdict: u32, acc: u32, d: SeccompData)
    ensures IsFragment(Guard(value, verdict))
    ensures Run(Guard(value, verdict), 0, acc, d) == if acc == value then Returns(verdict) else Falls(acc)
  {
    var code := Guard(value, verdict);
    assert code[0] == Jeq(value, 1, 0) && code[1] == Ja(1) && code[2] == Ret(verdict);
    assert Run(code, 2, acc, d) == Returns(verdict);
    assert Run(code, 3, acc, d) == Falls(acc);
    assert Run(code, 1, acc, d) == Falls(acc);
  }

  lemma GuardCallMeans(nr: u32, verdict: u32, acc: u32, d: SeccompData)
    ensures IsFragment(GuardCall(nr, verdict))
    ensures Run(GuardCall(nr, verdict), 0, acc, d)
         == if Word(d, OFF_NR) == nr then Returns(verdict) else Falls(Word(d, OFF_NR))
  {
    var load := [Ld(OFF_NR)];
    assert Run(load, 1, Word(d, OFF_NR), d) == Falls(Word(d, OFF_NR));
    GuardMeans(nr, verdict, Word(d, OFF_NR), d);
    SequentialComposition(load, Guard(nr, verdict), acc, d);
  }

  /** Blocking a list of calls of any length returns EPERM exactly on its members. */
  lemma {:induction false} BlockCallsMeans(nrs: seq<u32>, acc: u32, d: SeccompData)
    ensures IsFragment(BlockCalls(nrs))
    ensures Run(BlockCalls(nrs), 0, acc, d)
         == if Word(d, OFF_NR) in nrs then Returns(RET_EPERM)
            else Falls(if nrs == [] then acc else Word(d, OFF_NR))
    ensures |BlockCalls(nrs)| == 4 * |nrs|
  {
    if nrs != [] {
      var init, last := nrs[..|nrs| - 1], nrs[|nrs| - 1];
      assert nrs == init + [last];
      BlockCallsMeans(init, acc, d);
      GuardCallMeans(last, RET_EPERM, if init == [] then acc else Word(d, OFF_NR), d);
      SequentialComposition(BlockCalls(init), GuardCall(last, RET_EPERM), acc, d);
    }
  }

  /** The socket block: raw sockets are refused, others allowed at once, other calls pass on. */
  function SocketOutcome(d: SeccompData): Outcome {
    if d.nr != 41 then Falls(Word(d, OFF_NR))
    else if Low(d.args[1]) == SOCK_RAW then Returns(RET_EPERM)
    else Returns(RET_ALLOW)
  }

  /** The egress block: with a notifier only connect is deferred; without one all four calls are refused. */
  function EgressOutcome(mode: string, d: SeccompData): Outcome {
    if UsesNotifier(mode) && d.nr == 42 then Returns(RET_USER_NOTIF)
    else if !UsesNotifier(mode) && d.nr in {42, 44, 46, 307} then Returns(RET_EPERM)
    else Falls(Word(d, OFF_NR))
  }

  lemma SocketBlockMeans(acc: u32, d: SeccompData)
    ensures IsFragment(SocketBlock()) && |SocketBlock()| == 8
    ensures Run(SocketBlock(), 0, acc, d) == SocketOutcome(d)
  {
    var code := SocketBlock();
    var nr, sockType := Word(d, OFF_NR), Low(d.args[1]);
    assert code == [Ld(OFF_NR), Jeq(SYS_SOCKET, 1, 0), Ja(5), Ld(OFF_ARG1),
                    Jeq(SOCK_RAW, 1, 0), Ja(1), Ret(RET_EPERM), Ret(RET_ALLOW)];
    assert Word(d, OFF_ARG1) == sockType;
    assert Run(code, 8, nr, d) == Falls(nr);
    assert Run(code, 2, nr, d) == Falls(nr);
    assert Run(code, 7, sockType, d) == Returns(RET_ALLOW);
    assert Run(code, 6, sockType, d) == Returns(RET_EPERM);
    assert Run(code, 5, sockType, d) == Returns(RET_ALLOW);
    assert Run(code, 3, nr, d) == Run(code, 4, sockType, d);
    assert Run(code, 0, acc, d) == Run(code, 1, nr, d);
  }

  lemma EgressBlockMeans(mode: string, acc: u32, d: SeccompData)
    ensures IsFragment(EgressBlock(mode)) && |EgressBlock(mode)| <= 16
    ensures Run(EgressBlock(mode), 0, acc, d) == EgressOutcome(mode, d)
  {
    if UsesNotifier(mode) {
      GuardCallMeans(SYS_CONNECT, RET_USER_NOTIF, acc, d);
    } else {
      BlockCallsMeans(EGRESS, acc, d);
    }
  }

  /** The compiled program is admissible for the kernel, so it always halts. */
  lemma ProgramAdmissible(mode: string)
    ensures Admissible(Program(mode)) && |Program(mode)| <= 41
  {
    var d := SeccompRecord(0, 0, 0, [0, 0, 0, 0, 0, 0]);
    BlockCallsMeans(PRIVILEGED, 0, d);
    SocketBlockMeans(0, d);
    EgressBlockMeans(mode, 0, d);
    ConcatIsFragment(BlockCalls(PRIVILEGED), SocketBlock());
    ConcatIsFragment(BlockCalls(PRIVILEGED) + SocketBlock(), EgressBlock(mode));
    ClosedFragmentIsAdmissible(BlockCalls(PRIVILEGED) + SocketBlock() + EgressBlock(mode), Ret(RET_ALLOW));
  }

  lemma FourInSequence(f: seq<SockFilter>, g: seq<SockFilter>, h: seq<SockFilter>, k: seq<SockFilter>,
                       acc: u32, d: SeccompData)
    requires IsFragment(f) && IsFragment(g) && IsFragment(h) && IsFragment(k)
    ensures Run(f + g + h + k, 0, acc, d)
         == Then(Run(f, 0, acc, d), (x: u32) =>
              Then(Run(g, 0, x, d), (y: u32) =>
                Then(Run(h, 0, y, d), (z: u32) => Run(k, 0, z, d))))
  {
    SequentialComposition(f, g, acc, d);
    SequentialComposition(f + g, h, acc, d);
    SequentialComposition(f + g + h, k, acc, d);
  }

  /** What three blocks and a final return make together, from what each does alone. */
  lemma Assembled(mode: string, privileged: seq<SockFilter>, socket: seq<SockFilter>, egress: seq<SockFilter>,
                  acc: u32, d: SeccompData)
    requires IsFragment(privileged) && IsFragment(socket) && IsFragment(egress)
    requires Run(privileged, 0, acc, d)
          == if d.nr in {321, 175, 246, 298} then Returns(RET_EPERM) else Falls(Word(d, OFF_NR))
    requires Run(socket, 0, Word(d, OFF_NR), d) == SocketOutcome(d)
    requires Run(egress, 0, Word(d, OFF_NR), d) == EgressOutcome(mode, d)
    ensures Run(privileged + socket + egress + [Ret(RET_ALLOW)], 0, acc, d) == Returns(Policy(mode, d))
  {
    assert Run([Ret(RET_ALLOW)], 0, Word(d, OFF_NR), d) == Returns(RET_ALLOW);
    FourInSequence(privileged, socket, egress, [Ret(RET_ALLOW)], acc, d);
  }

  /** Compiler correctness: on every call record the program returns exactly what
      the policy says, whatever the accumulator held at the start. */
  lemma ProgramMeansPolicy(mode: string, acc: u32, d: SeccompData)
    ensures Run(Program(mode), 0, acc, d) == Returns(Policy(mode, d))
  {
    BlockCallsMeans(PRIVILEGED, acc, d);
    SocketBlockMeans(Word(d, OFF_NR), d);
    EgressBlockMeans(mode, Word(d, OFF_NR), d);
    Assembled(mode, BlockCalls(PRIVILEGED), SocketBlock(), EgressBlock(mode), acc, d);
  }

  /** The kernel's step-by-step execution of the program halts with the policy's
      verdict in at most as many steps as it has instructions. */
  lemma ProgramHaltsWithPolicy(mode: string, d: SeccompData)
    ensures Steps(Program(mode), At(0, 0), d, |Program(mode)|) == Halted(Policy(mode, d))
  {
    ProgramAdmissible(mode);
    AdmissibleHalts(Program(mode), 0, 0, d, |Program(mode)|);
    ProgramMeansPolicy(mode, 0, d);
  }

  /** The verdict of a call in numbers: 0x7fff_0000 lets it through, 0x7fc0_0000 hands it to the notifier, and
      0x0005_0001 fails it with error 1, not permitted. */
  predicate DecisionInNumbers(mode: string, d: SeccompData, verdict: int) {
    var listed := mode == "allowlist" || mode == "denylist";
    && (d.nr == 321 || d.nr == 175 || d.nr == 246 || d.nr == 298 ==> verdict == 0x0005_0001)
    && (d.nr == 41 && d.args[1] % 0x1_0000_0000 == 3 ==> verdict == 0x0005_0001)
    && (d.nr == 41 && d.args[1] % 0x1_0000_0000 != 3 ==> verdict == 0x7fff_0000)
    && (d.nr == 42 ==> verdict == if listed then 0x7fc0_0000 else 0x0005_0001)
    && (d.nr == 44 || d.nr == 46 || d.nr == 307 ==> verdict == if listed then 0x7fff_0000 else 0x0005_0001)
    && (d.nr !in {321, 175, 246, 298, 41, 42, 44, 46, 307} ==> verdict == 0x7fff_0000)
  }

  lemma PolicyInNumbers(mode: string, d: SeccompData)
    ensures DecisionInNumbers(mode, d, Policy(mode, d))
  {
  }

  /** Compiler correctness in numbers: executed step by step from the start, the program halts with this verdict. */
  lemma ProgramInNumbers(mode: string, d: SeccompData)
    ensures exists verdict: u32 :: Steps(Program(mode), At(0, 0), d, 41) == Halted(verdict)
                                   && DecisionInNumbers(mode, d, verdict)
  {
    ProgramAdmissible(mode);
    AdmissibleHalts(Program(mode), 0, 0, d, 41);
    ProgramMeansPolicy(mode, 0, d);
    PolicyInNumbers(mode, d);
  }

  // ── The builder ──

  class Builder {
    var insns: seq<SockFilter>

    constructor ()
      ensures insns == []
    {
      insns := [];
    }

    method LoadNr()
      modifies this
      ensures insns == old(insns) + [Ld(OFF_NR)]
    {
      insns := insns + [Ld(OFF_NR)];
    }

    method LdArg(offset: u32)
      modifies this
      ensures insns == old(insns) + [Ld(offset)]
    {
      insns := insns + [Ld(offset)];
    }

    method JeqKill(nr: u32)
      modifies this
      ensures insns == old(insns) + Guard(nr, RET_EPERM)
    {
      insns := insns + [Jeq(nr, 1, 0)];
      insns := insns + [Ja(1)];
      insns := insns + [Ret(RET_EPERM)];
    }

    method JeqNotif(nr: u32)
      modifies this
      ensures insns == old(insns) + Guard(nr, RET_USER_NOTIF)
    {
      insns := insns + [Jeq(nr, 1, 0)];
      insns := insns + [Ja(1)];
      insns := insns + [Ret(RET_USER_NOTIF)];
    }

    method Jeq2(value: u32)
      modifies this
      ensures insns == old(insns) + [Jeq(value, 1, 0)]
    {
      insns := insns + [Jeq(value, 1, 0)];
    }

    method JumpAhead(jumps: u8)
      modifies this
      ensures insns == old(insns) + [Ja(jumps)]
    {
      insns := insns + [Ja(jumps)];
    }

    method RetAllow()
      modifies this
      ensures insns == old(insns) + [Ret(RET_ALLOW)]
    {
      insns := insns + [Ret(RET_ALLOW)];
    }

    /** Appends the guards for a whole list of calls. */
    method BlockAll(nrs: seq<u32>)
      modifies this
      ensures insns == old(insns) + BlockCalls(nrs)
    {
      for i := 0 to |nrs|
        invariant insns == old(insns) + BlockCalls(nrs[..i])
      {
        LoadNr();
        JeqKill(nrs[i]);
        assert nrs[..i + 1][..i] == nrs[..i];
      }
      assert nrs[..|nrs|] == nrs;
    }
  }

  method BuildBPF(mode: string) returns (insns: seq<SockFilter>)
    ensures Admissible(insns) && |insns| <= 41
    ensures forall d: SeccompData :: Run(insns, 0, 0, d) == Returns(Policy(mode, d))
    ensures forall d: SeccompData ::
              Run(insns, 0, 0, d).Returns? && DecisionInNumbers(mode, d, Run(insns, 0, 0, d).verdict)
  {
    var useNotif := mode == "allowlist" || mode == "denylist";
    var b := new Builder();
    b.BlockAll(PRIVILEGED);

    b.LoadNr();
    b.Jeq2(SYS_SOCKET);
    b.JumpAhead(5);
    b.LdArg(OFF_ARG1);
    b.JeqKill(SOCK_RAW);
    b.RetAllow();
    assert b.insns == BlockCalls(PRIVILEGED) + SocketBlock();

    if useNotif {
      b.LoadNr();
      b.JeqNotif(SYS_CONNECT);
    } else {
      b.BlockAll(EGRESS);
    }
    b.RetAllow();
    insns := b.insns;
    assert insns == Program(mode);
    ProgramAdmissible(mode);
    forall d: SeccompData
      ensures Run(insns, 0, 0, d) == Returns(Policy(mode, d)) && DecisionInNumbers(mode, d, Policy(mode, d)) {
      ProgramMeansPolicy(mode, 0, d);
      PolicyInNumbers(mode, d);
    }
  }
}
