/** The seccomp allowlist compiler: from a list of syscall numbers to a classic BPF program,
    and the meaning of that program. */
module Sandbox {
  import opened Wrappers

  const BPF_LD: bv16 := 0x00
  const BPF_W: bv16 := 0x00
  const BPF_ABS: bv16 := 0x20
  const BPF_JMP: bv16 := 0x05
  const BPF_JEQ: bv16 := 0x10
  const BPF_K: bv16 := 0x00
  const BPF_RET: bv16 := 0x06

  const DATA_NR_OFFSET := 0
  const DATA_ARCH_OFFSET := 4
  const RET_KILL_PROCESS := 0x8000_0000
  const RET_ALLOW := 0x7fff_0000
  const MAX_INSTRUCTIONS := 256
  const WORD := 0x1_0000_0000

  datatype Instruction = Instruction(code: bv16, jt: nat, jf: nat, k: nat)

  function Stmt(code: bv16, k: nat): Instruction { Instruction(code, 0, 0, k) }
  function Jump(code: bv16, k: nat, jt: nat, jf: nat): Instruction { Instruction(code, jt, jf, k) }

  const LOAD: bv16 := BPF_LD | BPF_W | BPF_ABS
  const JEQ: bv16 := BPF_JMP | BPF_JEQ | BPF_K
  const RET: bv16 := BPF_RET | BPF_K

  // ---------- Classic BPF, as far as these programs go ----------

  /** The words a filter can load. */
  datatype Data = Data(nr: nat, arch: nat)

  function Load(d: Data, offset: nat): Option<nat> {
    if offset == DATA_NR_OFFSET then Some(d.nr)
    else if offset == DATA_ARCH_OFFSET then Some(d.arch)
    else None
  }

  datatype Result = Returned(value: nat) | OutOfRange | BadLoad | BadCode

  /** Runs from instruction pc with accumulator a. Jumps are relative to the next instruction. */
  function Run(prog: seq<Instruction>, pc: nat, a: nat, d: Data): Result
    decreases |prog| - pc
  {
    if pc >= |prog| then OutOfRange
    else
      var i := prog[pc];
      if i.code == LOAD then
        var w := Load(d, i.k);
        if w.Some? then Run(prog, pc + 1, w.value, d) else BadLoad
      else if i.code == JEQ then Run(prog, pc + 1 + if a == i.k then i.jt else i.jf, a, d)
      else if i.code == RET then Returned(i.k)
      else BadCode
  }

  // ---------- The generated program ----------

  /** The chain of comparisons, each followed by its ALLOW. */
  function Chain(allowed: seq<nat>): (r: seq<Instruction>)
    ensures |r| == 2 * |allowed|
  {
    if allowed == [] then [] else
      Chain(allowed[..|allowed|-1]) +
      [Jump(JEQ, allowed[|allowed|-1] % WORD, 0, 1), Stmt(RET, RET_ALLOW)]
  }

  function Program(arch: nat, allowed: seq<nat>): (r: seq<Instruction>)
    ensures |r| == 5 + 2 * |allowed|
  {
    [Stmt(LOAD, DATA_ARCH_OFFSET), Jump(JEQ, arch, 1, 0), Stmt(RET, RET_KILL_PROCESS), Stmt(LOAD, DATA_NR_OFFSET)] +
    Chain(allowed) + [Stmt(RET, RET_KILL_PROCESS)]
  }

  /** Appends the load of the syscall number and the comparison chain; fails if the program
      has become too long. */
  method LoadAndCheckSyscalls(filter: seq<Instruction>, allowed: seq<nat>) returns (filter': seq<Instruction>, ok: bool)
    ensures filter' == filter + [Stmt(LOAD, DATA_NR_OFFSET)] + Chain(allowed) + [Stmt(RET, RET_KILL_PROCESS)]
    ensures ok <==> |filter'| <= MAX_INSTRUCTIONS
  {
    filter' := filter + [Stmt(LOAD, DATA_NR_OFFSET)];
    ghost var start := filter';
    for i := 0 to |allowed|
      invariant filter' == start + Chain(allowed[..i])
    {
      assert allowed[..i+1][..i] == allowed[..i];
      filter' := filter' + [Jump(JEQ, allowed[i] % WORD, 0, 1)];
      filter' := filter' + [Stmt(RET, RET_ALLOW)];
    }
    assert allowed[..|allowed|] == allowed;
    filter' := filter' + [Stmt(RET, RET_KILL_PROCESS)];
    ok := !(|filter'| > MAX_INSTRUCTIONS);
  }

  /** The program for an architecture, or None if it would exceed the limit. */
  method BuildFilter(arch: nat, allowed: seq<nat>) returns (r: Option<seq<Instruction>>)
    ensures r == if 5 + 2 * |allowed| > 256 then None else Some(Program(arch, allowed))
  {
    var filter := [Stmt(LOAD, DATA_ARCH_OFFSET)];
    filter := filter + [Jump(JEQ, arch, 1, 0)];
    filter := filter + [Stmt(RET, RET_KILL_PROCESS)];
    var full, ok := LoadAndCheckSyscalls(filter, allowed);
    assert full == Program(arch, allowed);
    r := if ok then Some(full) else None;
  }

  // ---------- Its meaning ----------

  predicate Listed(allowed: seq<nat>, nr: nat) {
    exists i :: 0 <= i < |allowed| && allowed[i] % WORD == nr
  }

  lemma {:induction false} ChainAt(allowed: seq<nat>, i: nat)
    requires i < |allowed|
    ensures Chain(allowed)[2 * i] == Jump(JEQ, allowed[i] % WORD, 0, 1)
    ensures Chain(allowed)[2 * i + 1] == Stmt(RET, RET_ALLOW)
  {
    if i < |allowed| - 1 {
      ChainAt(allowed[..|allowed|-1], i);
    }
  }

  lemma ProgramAt(arch: nat, allowed: seq<nat>, i: nat)
    requires i <= |allowed|
    ensures i < |allowed| ==>
              && Program(arch, allowed)[4 + 2 * i] == Jump(JEQ, allowed[i] % WORD, 0, 1)
              && Program(arch, allowed)[5 + 2 * i] == Stmt(RET, RET_ALLOW)
    ensures i == |allowed| ==> Program(arch, allowed)[4 + 2 * i] == Stmt(RET, RET_KILL_PROCESS)
  {
    if i < |allowed| {
      ChainAt(allowed, i);
      assert Program(arch, allowed)[4 + 2 * i] == Chain(allowed)[2 * i];
      assert Program(arch, allowed)[5 + 2 * i] == Chain(allowed)[2 * i + 1];
    }
  }

  /** From the i-th comparison on, the outcome depends on the numbers from i on. */
  lemma {:induction false} RunChain(arch: nat, allowed: seq<nat>, i: nat, d: Data)
    requires i <= |allowed|
    ensures Run(Program(arch, allowed), 4 + 2 * i, d.nr, d)
         == Returned(if Listed(allowed[i..], d.nr) then RET_ALLOW else RET_KILL_PROCESS)
    decreases |allowed| - i
  {
    var prog := Program(arch, allowed);
    ProgramAt(arch, allowed, i);
    if i < |allowed| {
      RunChain(arch, allowed, i + 1, d);
      var rest := allowed[i..];
      assert rest[0] == allowed[i] && rest[1..] == allowed[i+1..];
      if allowed[i] % WORD == d.nr {
        assert Run(prog, 5 + 2 * i, d.nr, d) == Returned(RET_ALLOW);
        assert Listed(rest, d.nr);
      } else {
        assert Run(prog, 4 + 2 * i, d.nr, d) == Run(prog, 4 + 2 * (i + 1), d.nr, d);
        ListedTail(rest, d.nr);
      }
    }
  }

  lemma ListedTail(allowed: seq<nat>, nr: nat)
    requires allowed != [] && allowed[0] % WORD != nr
    ensures Listed(allowed, nr) <==> Listed(allowed[1..], nr)
  {
    if Listed(allowed, nr) {
      var i :| 0 <= i < |allowed| && allowed[i] % WORD == nr;
      assert allowed[1..][i-1] == allowed[i];
    }
    if Listed(allowed[1..], nr) {
      var i :| 0 <= i < |allowed[1..]| && allowed[1..][i] % WORD == nr;
      assert allowed[i+1] == allowed[1..][i];
    }
  }

  /** Compilation preserves meaning: for every architecture word and syscall number the program
      halts, and it allows the call exactly if the architecture is the given one and the number is
      on the list, cast to 32 bits; otherwise it kills the process. */
  lemma {:induction false} ProgramMeansPolicy(arch: nat, allowed: seq<nat>, d: Data)
    ensures Run(Program(arch, allowed), 0, 0, d) == Returned(
              if d.arch == arch && exists i :: 0 <= i < |allowed| && allowed[i] % 0x1_0000_0000 == d.nr
              then 0x7fff_0000 else 0x8000_0000)
  {
    assert Listed(allowed, d.nr) <==> exists i :: 0 <= i < |allowed| && allowed[i] % 0x1_0000_0000 == d.nr;
    var prog := Program(arch, allowed);
    assert prog[0] == Stmt(LOAD, DATA_ARCH_OFFSET) && prog[1] == Jump(JEQ, arch, 1, 0);
    assert prog[2] == Stmt(RET, RET_KILL_PROCESS) && prog[3] == Stmt(LOAD, DATA_NR_OFFSET);
    assert Run(prog, 0, 0, d) == Run(prog, 1, d.arch, d);
    if d.arch == arch {
      assert Run(prog, 1, d.arch, d) == Run(prog, 3, d.arch, d);
      assert Run(prog, 3, d.arch, d) == Run(prog, 4, d.nr, d);
      RunChain(arch, allowed, 0, d);
      assert allowed[0..] == allowed;
    } else {
      assert Run(prog, 1, d.arch, d) == Run(prog, 2, d.arch, d);
    }
  }

  /** What the kernel's verifier asks: every jump lands inside the program, every load is of a
      known word, and the last instruction returns. */
  predicate Loadable(prog: seq<Instruction>) {
    && 0 < |prog| <= MAX_INSTRUCTIONS && prog[|prog|-1].code == RET
    && forall pc :: 0 <= pc < |prog| ==>
         && (prog[pc].code == JEQ ==> pc + 1 + prog[pc].jt < |prog| && pc + 1 + prog[pc].jf < |prog|)
         && (prog[pc].code == LOAD ==> prog[pc].k == DATA_NR_OFFSET || prog[pc].k == DATA_ARCH_OFFSET)
         && (prog[pc].code == JEQ || prog[pc].code == LOAD || prog[pc].code == RET)
  }

  /** A loadable program always returns a verdict. */
  lemma {:induction false} LoadableReturns(prog: seq<Instruction>, pc: nat, a: nat, d: Data)
    requires Loadable(prog) && pc < |prog|
    ensures Run(prog, pc, a, d).Returned?
    decreases |prog| - pc
  {
    var i := prog[pc];
    if i.code == LOAD {
      LoadableReturns(prog, pc + 1, Load(d, i.k).value, d);
    } else if i.code == JEQ {
      LoadableReturns(prog, pc + 1 + if a == i.k then i.jt else i.jf, a, d);
    }
  }

  lemma ProgramLoadable(arch: nat, allowed: seq<nat>)
    ensures Loadable(Program(arch, allowed)) <==> 5 + 2 * |allowed| <= 256
  {
    var prog := Program(arch, allowed);
    forall pc | 0 <= pc < |prog|
      ensures prog[pc].code == JEQ ==> pc + 1 + prog[pc].jt < |prog| && pc + 1 + prog[pc].jf < |prog|
      ensures prog[pc].code == LOAD ==> prog[pc].k == DATA_NR_OFFSET || prog[pc].k == DATA_ARCH_OFFSET
      ensures prog[pc].code == JEQ || prog[pc].code == LOAD || prog[pc].code == RET
    {
      if pc >= 4 {
        ProgramAt(arch, allowed, (pc - 4) / 2);
        assert pc == 4 + 2 * ((pc - 4) / 2) || pc == 5 + 2 * ((pc - 4) / 2);
      }
    }
  }

  /** The instructions by their codes: 0x20 loads a word of the call's data, 0x15 jumps on equality, 0x06 returns. */
  lemma ProgramListing(arch: nat, allowed: seq<nat>, i: nat)
    requires i < |allowed|
    ensures var prog := Program(arch, allowed);
            && prog[0] == Instruction(0x20, 0, 0, 4) && prog[1] == Instruction(0x15, 1, 0, arch)
            && prog[2] == Instruction(0x06, 0, 0, 0x8000_0000) && prog[3] == Instruction(0x20, 0, 0, 0)
            && prog[4 + 2 * i] == Instruction(0x15, 0, 1, allowed[i] % 0x1_0000_0000)
            && prog[5 + 2 * i] == Instruction(0x06, 0, 0, 0x7fff_0000)
            && prog[4 + 2 * |allowed|] == Instruction(0x06, 0, 0, 0x8000_0000)
  {
    ProgramAt(arch, allowed, i);
    ProgramAt(arch, allowed, |allowed|);
    assert BPF_LD | BPF_W | BPF_ABS == 0x20;
    assert BPF_JMP | BPF_JEQ | BPF_K == 0x15;
    assert BPF_RET | BPF_K == 0x06;
  }
}
