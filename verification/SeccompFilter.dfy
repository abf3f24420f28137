/** The system-call filter of seccomp.c and a classic BPF machine that runs it. */
module SeccompFilter {
  import opened Base

  /** struct sock_filter; jumps are relative to the next instruction. */
  datatype Insn = Insn(code: nat, jt: byte, jf: byte, k: nat)

  const LD_W_ABS := 0x20 // BPF_LD+BPF_W+BPF_ABS
  const JMP_JEQ_K := 0x15 // BPF_JMP+BPF_JEQ+BPF_K
  const RET_K := 0x06 // BPF_RET+BPF_K

  const AUDIT_ARCH_I386 := 0x40000003
  const SECCOMP_RET_KILL := 0x00000000
  const SECCOMP_RET_ERRNO := 0x00050000
  const SECCOMP_RET_ALLOW := 0x7fff0000

  /** SECCOMP_RET_ERRNO | 1 */
  const REFUSE := SECCOMP_RET_ERRNO + 1

  /** struct seccomp_data as the sixteen words the filter can load: `nr` at offset 0, `arch` at offset 4,
      then the instruction pointer and the arguments. */
  type SeccompData = w: seq<nat> | |w| == 16 witness [0, 0, 0, 0, 0, 0, 0, 0, 0, 0, 0, 0, 0, 0, 0, 0]

  function Nr(data: SeccompData): nat { data[0] }

  function Arch(data: SeccompData): nat { data[1] }

  /** Runs the program from `pc` with accumulator `a`. None: a bad instruction, a bad load, or off the end. */
  function Run(prog: seq<Insn>, data: SeccompData, pc: nat, a: nat): Option<nat>
    decreases |prog| - pc
  {
    if pc >= |prog| then None else
      var i := prog[pc];
      if i.code == LD_W_ABS then
        if i.k % 4 == 0 && i.k / 4 < 16 then Run(prog, data, pc + 1, data[i.k / 4]) else None
      else if i.code == JMP_JEQ_K then
        var jump: nat := if a == i.k then i.jt else i.jf;
        Run(prog, data, pc + 1 + jump, a)
      else if i.code == RET_K then Some(i.k)
      else None
  }

  // ----- The program -----

  const PROLOGUE: seq<Insn> := [
    Insn(LD_W_ABS, 0, 0, 4),
    Insn(JMP_JEQ_K, 1, 0, AUDIT_ARCH_I386),
    Insn(RET_K, 0, 0, SECCOMP_RET_KILL)]

  /** ALLOW_ANYARGS(nr) */
  function AllowAnyArgs(nr: nat): seq<Insn> {
    [Insn(LD_W_ABS, 0, 0, 0),
     Insn(JMP_JEQ_K, 0, 1, nr),
     Insn(RET_K, 0, 0, SECCOMP_RET_ALLOW)]
  }

  function Blocks(allowed: seq<nat>): seq<Insn> {
    if allowed == [] then [] else AllowAnyArgs(allowed[0]) + Blocks(allowed[1..])
  }

  const EPILOGUE: seq<Insn> := [Insn(RET_K, 0, 0, REFUSE)]

  function Filter(allowed: seq<nat>): seq<Insn> {
    PROLOGUE + Blocks(allowed) + EPILOGUE
  }

  /** What the filter is for. */
  function Verdict(allowed: seq<nat>, data: SeccompData): nat {
    if Arch(data) != AUDIT_ARCH_I386 then SECCOMP_RET_KILL
    else if Nr(data) in allowed then SECCOMP_RET_ALLOW
    else REFUSE
  }

  // ----- Correctness -----

  /** Code behind other code runs as if alone: jumps are relative. */
  lemma {:induction false} Relocate(before: seq<Insn>, code: seq<Insn>, data: SeccompData, pc: nat, a: nat)
    ensures Run(before + code, data, |before| + pc, a) == Run(code, data, pc, a)
    decreases |code| - pc
  {
    if pc < |code| {
      var i := code[pc];
      assert (before + code)[|before| + pc] == i;
      if i.code == LD_W_ABS {
        if i.k % 4 == 0 && i.k / 4 < 16 { Relocate(before, code, data, pc + 1, data[i.k / 4]); }
      } else if i.code == JMP_JEQ_K {
        var jump: nat := if a == i.k then i.jt else i.jf;
        Relocate(before, code, data, pc + 1 + jump, a);
      }
    }
  }

  /** One block decides its own call and passes every other one on. */
  lemma BlockRuns(nr: nat, rest: seq<Insn>, data: SeccompData, a: nat)
    ensures Run(AllowAnyArgs(nr) + rest, data, 0, a)
         == if Nr(data) == nr then Some(SECCOMP_RET_ALLOW) else Run(rest, data, 0, Nr(data))
  {
    var p := AllowAnyArgs(nr) + rest;
    assert p[0] == Insn(LD_W_ABS, 0, 0, 0) && p[1] == Insn(JMP_JEQ_K, 0, 1, nr);
    assert p[2] == Insn(RET_K, 0, 0, SECCOMP_RET_ALLOW);
    assert Run(p, data, 0, a) == Run(p, data, 1, Nr(data));
    if Nr(data) == nr {
      assert Run(p, data, 1, Nr(data)) == Run(p, data, 2, Nr(data)) == Some(SECCOMP_RET_ALLOW);
    } else {
      assert Run(p, data, 1, Nr(data)) == Run(p, data, 3, Nr(data));
      Relocate(AllowAnyArgs(nr), rest, data, 0, Nr(data));
    }
  }

  lemma {:induction false} BlocksRun(allowed: seq<nat>, data: SeccompData, a: nat)
    ensures Run(Blocks(allowed) + EPILOGUE, data, 0, a)
         == Some(if Nr(data) in allowed then SECCOMP_RET_ALLOW else REFUSE)
    decreases |allowed|
  {
    if allowed == [] {
      assert Blocks(allowed) + EPILOGUE == EPILOGUE;
    } else {
      var rest := Blocks(allowed[1..]) + EPILOGUE;
      assert Blocks(allowed) + EPILOGUE == AllowAnyArgs(allowed[0]) + rest by {
        Assoc(AllowAnyArgs(allowed[0]), Blocks(allowed[1..]), EPILOGUE);
      }
      hide Run;
      BlockRuns(allowed[0], rest, data, a);
      BlocksRun(allowed[1..], data, Nr(data));
      assert allowed == [allowed[0]] + allowed[1..];
    }
  }

  /** For every allow-list and every system call the filter halts, in bounds, with the intended verdict. */
  lemma FilterDecides(allowed: seq<nat>, data: SeccompData)
    ensures Run(Filter(allowed), data, 0, 0) == Some(Verdict(allowed, data))
  {
    var tail := Blocks(allowed) + EPILOGUE;
    var p := PROLOGUE + tail;
    assert Filter(allowed) == p by { Assoc(PROLOGUE, Blocks(allowed), EPILOGUE); }
    assert p[0] == PROLOGUE[0] && p[1] == PROLOGUE[1] && p[2] == PROLOGUE[2];
    assert Run(p, data, 0, 0) == Run(p, data, 1, Arch(data));
    if Arch(data) == AUDIT_ARCH_I386 {
      assert Run(p, data, 1, Arch(data)) == Run(p, data, 3, Arch(data));
      Relocate(PROLOGUE, tail, data, 0, Arch(data));
      BlocksRun(allowed, data, Arch(data));
    } else {
      assert Run(p, data, 1, Arch(data)) == Run(p, data, 2, Arch(data)) == Some(SECCOMP_RET_KILL);
    }
  }

  // ----- In the kernel's numbers -----

  /** The filter answers 0x7fff0000 exactly for the listed calls of the architecture 0x40000003 and 0 exactly for every
      other architecture; for any other call the upper sixteen bits, the action, are 5 and the lower ones, the errno,
      are 1. */
  lemma FilterAnswers(allowed: seq<nat>, data: SeccompData)
    ensures Run(Filter(allowed), data, 0, 0).Some?
    ensures var v := Run(Filter(allowed), data, 0, 0).value;
      && (v == 0x7fff0000 <==> data[1] == 0x40000003 && data[0] in allowed)
      && (v == 0 <==> data[1] != 0x40000003)
      && (data[1] == 0x40000003 && data[0] !in allowed ==> v / 0x1_0000 == 5 && v % 0x1_0000 == 1)
  {
    hide Run, Filter;
    FilterDecides(allowed, data);
  }

  /** The program as the kernel gets it. */
  lemma FilterText(allowed: seq<nat>)
    ensures var p := Filter(allowed);
      && |p| == 4 + 3 * |allowed|
      && p[0] == Insn(0x20, 0, 0, 4) && p[1] == Insn(0x15, 1, 0, 0x40000003) && p[2] == Insn(0x06, 0, 0, 0)
      && (forall i :: 0 <= i < |allowed| ==>
            && p[3 + 3 * i] == Insn(0x20, 0, 0, 0) && p[3 + 3 * i + 1] == Insn(0x15, 0, 1, allowed[i])
            && p[3 + 3 * i + 2] == Insn(0x06, 0, 0, 0x7fff0000))
      && p[3 + 3 * |allowed|] == Insn(0x06, 0, 0, 0x0005_0001)
  {
    hide Blocks;
    BlocksOk(allowed);
    var p := Filter(allowed);
    forall i | 0 <= i < |allowed|
      ensures p[3 + 3 * i] == Insn(0x20, 0, 0, 0) && p[3 + 3 * i + 1] == Insn(0x15, 0, 1, allowed[i])
      ensures p[3 + 3 * i + 2] == Insn(0x06, 0, 0, 0x7fff0000)
    {
      BlockAt(allowed, i);
      assert forall j :: 0 <= j < 3 * |allowed| ==> p[3 + j] == Blocks(allowed)[j];
    }
  }

  lemma {:induction false} BlockAt(allowed: seq<nat>, i: nat)
    requires i < |allowed| && |Blocks(allowed)| == 3 * |allowed|
    ensures Blocks(allowed)[3 * i] == Insn(0x20, 0, 0, 0)
    ensures Blocks(allowed)[3 * i + 1] == Insn(0x15, 0, 1, allowed[i])
    ensures Blocks(allowed)[3 * i + 2] == Insn(0x06, 0, 0, 0x7fff0000)
    decreases |allowed|
  {
    if i > 0 {
      assert Blocks(allowed)[3..] == Blocks(allowed[1..]);
      BlockAt(allowed[1..], i - 1);
    }
  }

  // ----- The kernel accepts it -----

  /** BPF_MAXINSNS */
  const MAX_INSNS := 4096

  /** What the kernel checks before it installs a filter: its length and its instructions. */
  predicate Installable(prog: seq<Insn>) {
    |prog| <= MAX_INSNS && InsnsOk(prog)
  }

  /** Known instructions, aligned loads in range, jumps inside the program, and a return at the end. */
  predicate InsnsOk(prog: seq<Insn>) {
    && 0 < |prog| && prog[|prog| - 1].code == RET_K
    && forall pc :: 0 <= pc < |prog| ==>
         var i := prog[pc];
         || (i.code == LD_W_ABS && i.k % 4 == 0 && i.k / 4 < 16)
         || (i.code == JMP_JEQ_K && pc + 1 + i.jt < |prog| && pc + 1 + i.jf < |prog|)
         || i.code == RET_K
  }

  lemma {:induction false} BlocksOk(allowed: seq<nat>)
    ensures InsnsOk(Blocks(allowed) + EPILOGUE) && |Blocks(allowed)| == 3 * |allowed|
    decreases |allowed|
  {
    if allowed != [] {
      BlocksOk(allowed[1..]);
      Assoc(AllowAnyArgs(allowed[0]), Blocks(allowed[1..]), EPILOGUE);
      Prepended(AllowAnyArgs(allowed[0]), Blocks(allowed[1..]) + EPILOGUE);
    }
  }

  /** Three instructions of this kind in front of a program of valid ones. */
  lemma Prepended(three: seq<Insn>, prog: seq<Insn>)
    requires |three| == 3 && three[0].code == LD_W_ABS && three[0].k in {0, 4}
    requires three[1].code == JMP_JEQ_K && three[1].jt <= 1 && three[1].jf <= 1 && three[2].code == RET_K
    requires InsnsOk(prog)
    ensures InsnsOk(three + prog)
  {
    forall pc | 3 <= pc < |three + prog|
      ensures (three + prog)[pc] == prog[pc - 3]
    {
    }
  }

  /** The filter has three instructions for the architecture, three per call and one at the end. All are valid, and
      the kernel takes it exactly if no more than 1364 calls are listed. */
  lemma FilterInstallable(allowed: seq<nat>)
    ensures InsnsOk(Filter(allowed)) && |Filter(allowed)| == 4 + 3 * |allowed|
    ensures Installable(Filter(allowed)) <==> |allowed| <= 1364
  {
    BlocksOk(allowed);
    Assoc(PROLOGUE, Blocks(allowed), EPILOGUE);
    Prepended(PROLOGUE, Blocks(allowed) + EPILOGUE);
  }

  /** Every program of such instructions halts with a verdict wherever it is entered. */
  lemma {:induction false} ValidHalts(prog: seq<Insn>, data: SeccompData, pc: nat, a: nat)
    requires InsnsOk(prog) && pc < |prog|
    ensures Run(prog, data, pc, a).Some?
    decreases |prog| - pc
  {
    var i := prog[pc];
    if i.code == LD_W_ABS {
      ValidHalts(prog, data, pc + 1, data[i.k / 4]);
    } else if i.code == JMP_JEQ_K {
      var jump: nat := if a == i.k then i.jt else i.jf;
      ValidHalts(prog, data, pc + 1 + jump, a);
    }
  }
}
