/** A classic BPF machine over the seccomp_data record, with the laws that make
    fragments of code relocatable. Widths are explicit: every field is an int
    confined to its unsigned range. */
module Bpf {
  type u8 = x: int | 0 <= x < 0x100
  type u16 = x: int | 0 <= x < 0x1_0000
  type u32 = x: int | 0 <= x < 0x1_0000_0000
  type u64 = x: int | 0 <= x < 0x1_0000_0000_0000_0000
  type i32 = x: int | -0x8000_0000 <= x < 0x8000_0000

  /** One instruction: struct sock_filter. */
  datatype SockFilter = SockFilter(code: u16, jt: u8, jf: u8, k: u32)

  // Opcodes: BPF_LD|BPF_W|BPF_ABS, BPF_JMP|BPF_JEQ|BPF_K, BPF_JMP|BPF_JA, BPF_RET|BPF_K.
  const LD_W_ABS: u16 := 0x20
  const JEQ_K: u16 := 0x15
  const JA: u16 := 0x05
  const RET_K: u16 := 0x06

  const MAX_INSNS := 4096

  /** struct seccomp_data: what the kernel hands to the filter for one system call. */
  datatype SeccompRecord = SeccompRecord(nr: i32, arch: u32, instructionPointer: u64, args: seq<u64>)

  type SeccompData = d: SeccompRecord | |d.args| == 6
    witness SeccompRecord(0, 0, 0, [0, 0, 0, 0, 0, 0])

  const DATA_SIZE := 64

  function Low(x: u64): u32 { x % 0x1_0000_0000 }

  function High(x: u64): u32 { x / 0x1_0000_0000 }

  /** A load is legal when it reads an aligned word inside the record. */
  predicate LegalOffset(offset: nat) {
    offset % 4 == 0 && offset + 4 <= DATA_SIZE
  }

  /** The little-endian 32-bit word of the record at a legal offset. */
  function Word(d: SeccompData, offset: nat): u32
    requires LegalOffset(offset)
  {
    if offset == 0 then d.nr % 0x1_0000_0000
    else if offset == 4 then d.arch
    else if offset == 8 then Low(d.instructionPointer)
    else if offset == 12 then High(d.instructionPointer)
    else
      var arg := d.args[(offset - 16) / 8];
      if offset % 8 == 0 then Low(arg) else High(arg)
  }

  /** What running a stretch of code does: return a verdict, run off its end with
      some accumulator, or do something the machine has no meaning for. */
  datatype Outcome = Returns(verdict: u32) | Falls(acc: u32) | Fault

  function Run(code: seq<SockFilter>, pc: nat, acc: u32, d: SeccompData): Outcome
    decreases if pc < |code| then |code| - pc else 0
  {
    if pc == |code| then Falls(acc)
    else if pc > |code| then Fault
    else
      var i := code[pc];
      if i.code == LD_W_ABS then
        if LegalOffset(i.k) then Run(code, pc + 1, Word(d, i.k), d) else Fault
      else if i.code == JEQ_K then Run(code, pc + 1 + (if acc == i.k then i.jt else i.jf), acc, d)
      else if i.code == JA then Run(code, pc + 1 + i.k, acc, d)
      else if i.code == RET_K then Returns(i.k)
      else Fault
  }

  /** An instruction at position `at` whose successors all lie at or before `limit`. */
  predicate Confined(i: SockFilter, at: nat, limit: nat) {
    || (i.code == LD_W_ABS && LegalOffset(i.k) && at + 1 <= limit)
    || (i.code == JEQ_K && at + 1 + i.jt <= limit && at + 1 + i.jf <= limit)
    || (i.code == JA && at + 1 + i.k <= limit)
    || i.code == RET_K
  }

  /** A fragment: code that never jumps past the instruction just after it. */
  predicate IsFragment(code: seq<SockFilter>) {
    forall at :: 0 <= at < |code| ==> Confined(code[at], at, |code|)
  }

  /** The kernel's admission test for a filter: known opcodes, loads inside the
      record, every jump lands on an instruction, and the last one returns. */
  predicate Admissible(code: seq<SockFilter>) {
    && 1 <= |code| <= MAX_INSNS
    && (forall at :: 0 <= at < |code| ==> Confined(code[at], at, |code| - 1))
    && code[|code| - 1].code == RET_K
  }

  /** Sequential composition of outcomes. */
  function Then(first: Outcome, second: u32 -> Outcome): Outcome {
    match first
    case Falls(acc) => second(acc)
    case _ => first
  }

  /** Relocation: a fragment placed between any prefix and any suffix either
      returns its own verdict or resumes at the instruction just after it. */
  lemma {:induction false} Relocation(prefix: seq<SockFilter>, code: seq<SockFilter>, suffix: seq<SockFilter>,
                                      pc: nat, acc: u32, d: SeccompData)
    requires IsFragment(code) && pc <= |code|
    ensures var whole := prefix + code + suffix;
            Run(whole, |prefix| + pc, acc, d)
            == Then(Run(code, pc, acc, d), (a: u32) => Run(whole, |prefix| + |code|, a, d))
    decreases |code| - pc
  {
    if pc < |code| {
      var i := code[pc];
      assert (prefix + code + suffix)[|prefix| + pc] == i;
      assert Confined(i, pc, |code|);
      if i.code == LD_W_ABS {
        Relocation(prefix, code, suffix, pc + 1, Word(d, i.k), d);
      } else if i.code == JEQ_K {
        Relocation(prefix, code, suffix, pc + 1 + (if acc == i.k then i.jt else i.jf), acc, d);
      } else if i.code == JA {
        Relocation(prefix, code, suffix, pc + 1 + i.k, acc, d);
      }
    }
  }

  /** Concatenation of fragments is sequential composition, and is a fragment. */
  lemma SequentialComposition(first: seq<SockFilter>, second: seq<SockFilter>, acc: u32, d: SeccompData)
    requires IsFragment(first) && IsFragment(second)
    ensures IsFragment(first + second)
    ensures Run(first + second, 0, acc, d) == Then(Run(first, 0, acc, d), (a: u32) => Run(second, 0, a, d))
  {
    ConcatIsFragment(first, second);
    Relocation([], first, second, 0, acc, d);
    assert [] + first + second == first + second;
    match Run(first, 0, acc, d)
    case Falls(a) =>
      Relocation(first, second, [], 0, a, d);
      assert first + second + [] == first + second;
    case _ =>
  }

  lemma ConcatIsFragment(first: seq<SockFilter>, second: seq<SockFilter>)
    requires IsFragment(first) && IsFragment(second)
    ensures IsFragment(first + second)
  {
    var whole := first + second;
    forall at | 0 <= at < |whole| ensures Confined(whole[at], at, |whole|) {
      if at < |first| {
        assert Confined(first[at], at, |first|);
      } else {
        assert Confined(second[at - |first|], at - |first|, |second|);
      }
    }
  }

  /** Running a fragment from its start never faults. */
  lemma {:induction false} FragmentNeverFaults(code: seq<SockFilter>, pc: nat, acc: u32, d: SeccompData)
    requires IsFragment(code) && pc <= |code|
    ensures !Run(code, pc, acc, d).Fault?
    decreases |code| - pc
  {
    if pc < |code| {
      var i := code[pc];
      assert Confined(i, pc, |code|);
      if i.code == LD_W_ABS {
        FragmentNeverFaults(code, pc + 1, Word(d, i.k), d);
      } else if i.code == JEQ_K {
        FragmentNeverFaults(code, pc + 1 + (if acc == i.k then i.jt else i.jf), acc, d);
      } else if i.code == JA {
        FragmentNeverFaults(code, pc + 1 + i.k, acc, d);
      }
    }
  }

  /** A fragment that ends by returning is admissible as a whole program. */
  lemma ClosedFragmentIsAdmissible(body: seq<SockFilter>, last: SockFilter)
    requires IsFragment(body) && last.code == RET_K && |body| < MAX_INSNS
    ensures Admissible(body + [last])
  {
    var whole := body + [last];
    forall at | 0 <= at < |whole| ensures Confined(whole[at], at, |whole| - 1) {
      if at < |body| {
        assert Confined(body[at], at, |body|);
      }
    }
  }

  /** One machine step at a time, as the kernel executes it. */
  datatype Machine = At(pc: nat, acc: u32) | Halted(verdict: u32) | Stuck

  function Step(code: seq<SockFilter>, m: Machine, d: SeccompData): Machine {
    match m
    case At(pc, acc) =>
      if pc >= |code| then Stuck
      else
        var i := code[pc];
        if i.code == LD_W_ABS then (if LegalOffset(i.k) then At(pc + 1, Word(d, i.k)) else Stuck)
        else if i.code == JEQ_K then At(pc + 1 + (if acc == i.k then i.jt else i.jf), acc)
        else if i.code == JA then At(pc + 1 + i.k, acc)
        else if i.code == RET_K then Halted(i.k)
        else Stuck
    case _ => m
  }

  /** The machine in numbers: what each opcode does, on which word of the record, and that nothing else runs. */
  lemma MachineInNumbers(code: seq<SockFilter>, pc: nat, acc: u32, d: SeccompData)
    requires pc < |code|
    ensures var i, next := code[pc], Step(code, At(pc, acc), d);
            && (i.code == 0x20 && i.k == 0 ==> next == At(pc + 1, d.nr % 0x1_0000_0000))
            && (i.code == 0x20 && i.k == 4 ==> next == At(pc + 1, d.arch))
            && (i.code == 0x20 && i.k == 8 ==> next == At(pc + 1, d.instructionPointer % 0x1_0000_0000))
            && (i.code == 0x20 && i.k == 12 ==> next == At(pc + 1, d.instructionPointer / 0x1_0000_0000))
            && (i.code == 0x15 ==> next == At(pc + 1 + (if acc == i.k then i.jt else i.jf), acc))
            && (i.code == 0x05 ==> next == At(pc + 1 + i.k, acc))
            && (i.code == 0x06 ==> next == Halted(i.k))
            && (i.code !in {0x20, 0x15, 0x05, 0x06} ==> next == Stuck)
            && (i.code == 0x20 && (i.k % 4 != 0 || i.k > 60) ==> next == Stuck)
    ensures forall n :: 0 <= n < 6 ==>
              && (code[pc].code == 0x20 && code[pc].k == 16 + 8 * n ==>
                    Step(code, At(pc, acc), d) == At(pc + 1, d.args[n] % 0x1_0000_0000))
              && (code[pc].code == 0x20 && code[pc].k == 20 + 8 * n ==>
                    Step(code, At(pc, acc), d) == At(pc + 1, d.args[n] / 0x1_0000_0000))
  {
  }

  /** What a filter the kernel admits looks like, in numbers. */
  lemma AdmissionInNumbers(code: seq<SockFilter>)
    ensures Admissible(code) <==>
              && 1 <= |code| <= 4096
              && code[|code| - 1].code == 0x06
              && forall at :: 0 <= at < |code| ==>
                   || (code[at].code == 0x20 && code[at].k % 4 == 0 && code[at].k <= 60 && at + 1 < |code|)
                   || (code[at].code == 0x15 && at + 1 + code[at].jt < |code| && at + 1 + code[at].jf < |code|)
                   || (code[at].code == 0x05 && at + 1 + code[at].k < |code|)
                   || code[at].code == 0x06
  {
  }

  function Steps(code: seq<SockFilter>, m: Machine, d: SeccompData, n: nat): Machine
    decreases n
  {
    if n == 0 then m else Steps(code, Step(code, m, d), d, n - 1)
  }

  lemma {:induction false} HaltedStays(code: seq<SockFilter>, verdict: u32, d: SeccompData, n: nat)
    ensures Steps(code, Halted(verdict), d, n) == Halted(verdict)
  {
    if n > 0 {
      HaltedStays(code, verdict, d, n - 1);
    }
  }

  /** An admissible filter halts from anywhere, within as many steps as there are
      instructions left, with the verdict that Run gives. */
  lemma {:induction false} AdmissibleHalts(code: seq<SockFilter>, pc: nat, acc: u32, d: SeccompData, n: nat)
    requires Admissible(code) && pc < |code| && n >= |code| - pc
    ensures Run(code, pc, acc, d).Returns?
    ensures Steps(code, At(pc, acc), d, n) == Halted(Run(code, pc, acc, d).verdict)
    decreases n
  {
    var i := code[pc];
    assert Confined(i, pc, |code| - 1);
    if i.code == LD_W_ABS {
      AdmissibleHalts(code, pc + 1, Word(d, i.k), d, n - 1);
    } else if i.code == JEQ_K {
      AdmissibleHalts(code, pc + 1 + (if acc == i.k then i.jt else i.jf), acc, d, n - 1);
    } else if i.code == JA {
      AdmissibleHalts(code, pc + 1 + i.k, acc, d, n - 1);
    } else {
      HaltedStays(code, i.k, d, n - 1);
    }
  }
}
