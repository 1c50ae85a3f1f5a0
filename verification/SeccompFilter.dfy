/**
  The seccomp filter compiler: a list of syscall numbers becomes a classic BPF program. The
  program is run by an interpreter for classic BPF and shown to give the intended verdict.

  Instructions are modelled as values; packing them into bytes is not part of this model.
 */
module SeccompFilter {
  import opened Wrappers

  // --- Classic BPF ---

  const BPF_LD := 0x00
  const BPF_JMP := 0x05
  const BPF_RET := 0x06
  const BPF_W := 0x00
  const BPF_ABS := 0x20
  const BPF_JEQ := 0x10
  const BPF_K := 0x00

  const LOAD_ABS := BPF_LD + BPF_W + BPF_ABS
  const JUMP_EQ := BPF_JMP + BPF_JEQ + BPF_K
  const RETURN := BPF_RET + BPF_K

  /** struct sock_filter */
  datatype Instruction = Instruction(code: nat, jt: nat, jf: nat, k: nat)

  /** The two words of struct seccomp_data that the filter reads. */
  datatype SeccompData = SeccompData(nr: nat, arch: nat)

  const OFFSET_NR := 0
  const OFFSET_ARCH := 4

  const AUDIT_ARCH_X86_64 := 0xc000003e
  const AUDIT_ARCH_I386 := 0x40000003

  const RET_KILL_PROCESS := 0x80000000
  const RET_ALLOW := 0x7fff0000

  const WORD := 0x1_0000_0000

  function LoadWord(data: SeccompData, offset: nat): Option<nat> {
    if offset == OFFSET_NR then Some(data.nr)
    else if offset == OFFSET_ARCH then Some(data.arch)
    else None
  }

  /** Runs prog from pc with accumulator acc; None when it falls off the end or meets a code it does not know. */
  function Run(prog: seq<Instruction>, data: SeccompData, pc: nat, acc: nat): Option<nat>
    decreases |prog| - pc
  {
    if pc >= |prog| then None
    else
      var i := prog[pc];
      if i.code == LOAD_ABS then
        match LoadWord(data, i.k)
        case None => None
        case Some(w) => Run(prog, data, pc + 1, w)
      else if i.code == JUMP_EQ then Run(prog, data, pc + 1 + (if acc == i.k then i.jt else i.jf), acc)
      else if i.code == RETURN then Some(i.k)
      else None
  }

  /** The kernel's BPF_MAXINSNS. */
  const MAX_INSTRUCTIONS := 4096

  /** What the kernel's checker demands: a length in range, known codes, aligned loads in range, jumps that stay inside, a final return. */
  ghost predicate WellFormed(prog: seq<Instruction>) {
    && 0 < |prog| <= MAX_INSTRUCTIONS
    && prog[|prog| - 1].code == RETURN
    && forall pc :: 0 <= pc < |prog| ==> InstructionOk(prog, pc)
  }

  ghost predicate InstructionOk(prog: seq<Instruction>, pc: nat)
    requires pc < |prog|
  {
    var i := prog[pc];
    && (i.code == LOAD_ABS || i.code == JUMP_EQ || i.code == RETURN)
    && (i.code == LOAD_ABS ==> i.k == OFFSET_NR || i.k == OFFSET_ARCH)
    && (i.code == JUMP_EQ ==> pc + 1 + i.jt < |prog| && pc + 1 + i.jf < |prog|)
  }

  lemma {:induction false} WellFormedReturns(prog: seq<Instruction>, data: SeccompData, pc: nat, acc: nat)
    requires WellFormed(prog) && pc < |prog|
    ensures Run(prog, data, pc, acc).Some?
    decreases |prog| - pc
  {
    var i := prog[pc];
    assert InstructionOk(prog, pc);
    if i.code == LOAD_ABS {
      WellFormedReturns(prog, data, pc + 1, LoadWord(data, i.k).value);
    } else if i.code == JUMP_EQ {
      WellFormedReturns(prog, data, pc + 1 + (if acc == i.k then i.jt else i.jf), acc);
    }
  }

  // --- The compiler ---

  /** bpf_stmt: the code is cut to 16 bits and the constant to 32. */
  function BpfStmt(code: int, k: int): Instruction {
    Instruction(code % 0x10000, 0, 0, k % WORD)
  }

  function BpfJump(code: int, k: int, jt: int, jf: int): Instruction {
    Instruction(code % 0x10000, jt % 0x100, jf % 0x100, k % WORD)
  }

  const HEADER: seq<Instruction> := [
    BpfStmt(LOAD_ABS, OFFSET_ARCH),
    BpfJump(JUMP_EQ, AUDIT_ARCH_X86_64, 0, 2),
    BpfJump(JUMP_EQ, AUDIT_ARCH_I386, 0, 1),
    BpfStmt(RETURN, RET_ALLOW),
    BpfStmt(LOAD_ABS, OFFSET_NR)]

  function Check(sysno: int): seq<Instruction> {
    [BpfJump(JUMP_EQ, sysno, 0, 1), BpfStmt(RETURN, RET_KILL_PROCESS)]
  }

  function Checks(blocked: seq<int>): seq<Instruction> {
    if |blocked| == 0 then [] else Check(blocked[0]) + Checks(blocked[1..])
  }

  function Compiled(blocked: seq<int>): seq<Instruction> {
    HEADER + Checks(blocked) + [BpfStmt(RETURN, RET_ALLOW)]
  }

  method CompileBpfFilter(blocked: seq<int>) returns (instructions: seq<Instruction>)
    ensures instructions == Compiled(blocked)
  {
    instructions := [];
    instructions := instructions + [BpfStmt(LOAD_ABS, OFFSET_ARCH)];
    instructions := instructions + [BpfJump(JUMP_EQ, AUDIT_ARCH_X86_64, 0, 2)];
    instructions := instructions + [BpfJump(JUMP_EQ, AUDIT_ARCH_I386, 0, 1)];
    instructions := instructions + [BpfStmt(RETURN, RET_ALLOW)];
    instructions := instructions + [BpfStmt(LOAD_ABS, OFFSET_NR)];
    for i := 0 to |blocked|
      invariant instructions + Checks(blocked[i..]) == HEADER + Checks(blocked)
    {
      assert blocked[i..][1..] == blocked[i + 1..];
      instructions := instructions + [BpfJump(JUMP_EQ, blocked[i], 0, 1)];
      instructions := instructions + [BpfStmt(RETURN, RET_KILL_PROCESS)];
    }
    instructions := instructions + [BpfStmt(RETURN, RET_ALLOW)];
  }

  // --- Correctness ---

  /** The syscalls the compiled filter kills: those listed, as 32-bit words. */
  predicate Listed(blocked: seq<int>, nr: nat) {
    exists i :: 0 <= i < |blocked| && blocked[i] % WORD == nr
  }

  function Verdict(blocked: seq<int>, nr: nat): nat {
    if Listed(blocked, nr) then RET_KILL_PROCESS else RET_ALLOW
  }

  /** The verdict the documentation promises: other architectures pass unfiltered. */
  function DocumentedVerdict(blocked: seq<int>, data: SeccompData): nat {
    if data.arch != AUDIT_ARCH_X86_64 then RET_ALLOW else Verdict(blocked, data.nr)
  }

  lemma {:induction false} ChecksAt(blocked: seq<int>, i: nat)
    requires i < |blocked|
    ensures |Checks(blocked)| == 2 * |blocked|
    ensures Checks(blocked)[2 * i] == Check(blocked[i])[0] && Checks(blocked)[2 * i + 1] == Check(blocked[i])[1]
  {
    hide BpfJump, BpfStmt;
    ChecksLength(blocked);
    if i == 0 {
    } else {
      var rest := Checks(blocked[1..]);
      ChecksLength(blocked[1..]);
      ChecksAt(blocked[1..], i - 1);
      assert Checks(blocked)[2 * i] == rest[2 * i - 2] && Checks(blocked)[2 * i + 1] == rest[2 * i - 1];
    }
  }

  lemma {:induction false} ChecksLength(blocked: seq<int>)
    ensures |Checks(blocked)| == 2 * |blocked|
  {
    if |blocked| == 0 {
    } else {
      ChecksLength(blocked[1..]);
    }
  }

  /** The instructions of the compiled program by position. */
  lemma CompiledAt(blocked: seq<int>, i: nat)
    requires i <= |blocked|
    ensures |Compiled(blocked)| == 6 + 2 * |blocked|
    ensures i < |blocked| ==> Compiled(blocked)[5 + 2 * i] == BpfJump(JUMP_EQ, blocked[i], 0, 1)
    ensures i < |blocked| ==> Compiled(blocked)[6 + 2 * i] == BpfStmt(RETURN, RET_KILL_PROCESS)
    ensures i == |blocked| ==> Compiled(blocked)[5 + 2 * i] == BpfStmt(RETURN, RET_ALLOW)
  {
    ChecksLength(blocked);
    if i < |blocked| {
      ChecksAt(blocked, i);
    }
  }

  /** The kernel accepts the program exactly up to the list length at which it reaches the size limit. */
  lemma CompiledWellFormed(blocked: seq<int>)
    ensures WellFormed(Compiled(blocked)) <==> |blocked| <= 2045
  {
    var prog := Compiled(blocked);
    ChecksLength(blocked);
    forall pc | 0 <= pc < |prog|
      ensures InstructionOk(prog, pc)
    {
      if pc < 5 {
        assert prog[pc] == HEADER[pc];
      } else {
        CompiledAt(blocked, (pc - 5) / 2);
      }
    }
  }

  /** From check i on, the program decides the rest of the list. */
  lemma {:induction false} RunChecks(blocked: seq<int>, prog: seq<Instruction>, data: SeccompData, i: nat)
    requires i <= |blocked| && |prog| == |Compiled(blocked)|
    requires prog[4..] == Compiled(blocked)[4..]
    ensures Run(prog, data, 5 + 2 * i, data.nr) == Some(Verdict(blocked[i..], data.nr))
    decreases |blocked| - i
  {
    CompiledAt(blocked, i);
    assert forall j :: 4 <= j < |prog| ==> prog[j] == prog[4..][j - 4] && Compiled(blocked)[j] == Compiled(blocked)[4..][j - 4];
    if i < |blocked| {
      RunChecks(blocked, prog, data, i + 1);
      ListedStep(blocked, i, data.nr);
    }
  }

  lemma ListedStep(blocked: seq<int>, i: nat, nr: nat)
    requires i < |blocked|
    ensures Listed(blocked[i..], nr) <==> blocked[i] % WORD == nr || Listed(blocked[i + 1..], nr)
  {}

  /**
    The compiled program kills exactly the listed syscalls, whatever the architecture, and would
    do so with any instruction in place of the allow at index 3, which no run reaches.
   */
  lemma CompiledVerdict(blocked: seq<int>, data: SeccompData, acc: nat, unreached: Instruction)
    ensures Run(Compiled(blocked), data, 0, acc) == Some(Verdict(blocked, data.nr))
    ensures Run(Compiled(blocked)[3 := unreached], data, 0, acc) == Some(Verdict(blocked, data.nr))
  {
    RunHeader(blocked, Compiled(blocked), data, acc);
    RunHeader(blocked, Compiled(blocked)[3 := unreached], data, acc);
  }

  lemma RunHeader(blocked: seq<int>, prog: seq<Instruction>, data: SeccompData, acc: nat)
    requires |prog| == |Compiled(blocked)|
    requires prog[..3] == HEADER[..3] && prog[4..] == Compiled(blocked)[4..]
    ensures Run(prog, data, 0, acc) == Some(Verdict(blocked, data.nr))
  {
    assert prog[0] == prog[..3][0] && prog[1] == prog[..3][1] && prog[2] == prog[..3][2];
    assert prog[4] == prog[4..][0] == HEADER[4];
    assert blocked[0..] == blocked;
    RunChecks(blocked, prog, data, 0);
    assert Run(prog, data, 4, data.arch) == Run(prog, data, 5, data.nr);
    assert Run(prog, data, 1, data.arch) == Run(prog, data, 4, data.arch);
  }

  /** For syscall numbers that are 32-bit words, being listed is being in the list. */
  lemma ListedIsMembership(blocked: seq<int>, nr: nat)
    requires forall i :: 0 <= i < |blocked| ==> 0 <= blocked[i] < WORD
    ensures Listed(blocked, nr) <==> nr in blocked
  {}

  /** The documented behaviour holds exactly for x86_64 calls and for unlisted ones. */
  lemma DocumentedExactly(blocked: seq<int>, data: SeccompData)
    ensures Run(Compiled(blocked), data, 0, 0) == Some(DocumentedVerdict(blocked, data))
      <==> data.arch == AUDIT_ARCH_X86_64 || !Listed(blocked, data.nr)
  {
    CompiledVerdict(blocked, data, 0, BpfStmt(RETURN, RET_ALLOW));
  }

  /** An i386 call numbered 169 is killed because x86_64 reboot is on the list. */
  lemma OtherArchitectureKilled()
    ensures
      var data := SeccompData(169, AUDIT_ARCH_I386);
      && Run(Compiled([169]), data, 0, 0) == Some(RET_KILL_PROCESS)
      && DocumentedVerdict([169], data) == RET_ALLOW
  {
    var data := SeccompData(169, AUDIT_ARCH_I386);
    CompiledVerdict([169], data, 0, BpfStmt(RETURN, RET_ALLOW));
    assert [169][0] % WORD == 169;
  }

  // --- In numbers ---

  /**
    The program, instruction by instruction, as the kernel's encoding has it: load the architecture
    at offset 4, two comparisons, allow, load the number at offset 0, a comparison and a kill for
    each listed number, allow.
   */
  lemma CompiledInNumbers(blocked: seq<int>, i: nat)
    ensures |Compiled(blocked)| == 6 + 2 * |blocked|
    ensures Compiled(blocked)[0] == Instruction(0x20, 0, 0, 4) && Compiled(blocked)[1] == Instruction(0x15, 0, 2, 0xc000003e)
    ensures Compiled(blocked)[2] == Instruction(0x15, 0, 1, 0x40000003) && Compiled(blocked)[3] == Instruction(0x06, 0, 0, 0x7fff0000)
    ensures Compiled(blocked)[4] == Instruction(0x20, 0, 0, 0)
    ensures i < |blocked| ==> Compiled(blocked)[5 + 2 * i] == Instruction(0x15, 0, 1, blocked[i] % 0x1_0000_0000)
    ensures i < |blocked| ==> Compiled(blocked)[6 + 2 * i] == Instruction(0x06, 0, 0, 0x80000000)
    ensures Compiled(blocked)[5 + 2 * |blocked|] == Instruction(0x06, 0, 0, 0x7fff0000)
  {
    CompiledAt(blocked, |blocked|);
    if i < |blocked| {
      CompiledAt(blocked, i);
    }
    assert Compiled(blocked)[..5] == HEADER;
    assert Compiled(blocked)[0] == HEADER[0] && Compiled(blocked)[1] == HEADER[1] && Compiled(blocked)[2] == HEADER[2];
    assert Compiled(blocked)[3] == HEADER[3] && Compiled(blocked)[4] == HEADER[4];
  }

  /** The verdict in numbers: 0x80000000 kills the process, 0x7fff0000 allows the call. */
  lemma VerdictInNumbers(blocked: seq<int>, data: SeccompData)
    ensures Run(Compiled(blocked), data, 0, 0) ==
      if exists i :: 0 <= i < |blocked| && blocked[i] % 0x1_0000_0000 == data.nr then Some(0x80000000) else Some(0x7fff0000)
  {
    CompiledVerdict(blocked, data, 0, HEADER[3]);
  }
}
