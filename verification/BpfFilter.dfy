/** The seccomp filter generator: the jump layout it emits, and an interpreter for the emitted
    program that decides which system calls pass. */
module BpfFilter {

  import opened Collections

  type u8 = x: nat | x < 0x100
  type u16 = x: nat | x < 0x1_0000
  type u32 = x: nat | x < 0x1_0000_0000

  // BPF_LD|BPF_W|BPF_ABS, BPF_JMP|BPF_JEQ|BPF_K and BPF_RET|BPF_K
  const LOAD: u16 := 0x20
  const JUMP_EQ: u16 := 0x15
  const RET: u16 := 0x06

  const NR_OFFSET: u32 := 0
  const RET_EPERM: u32 := 0x0005_0001
  const RET_ALLOW: u32 := 0x7fff_0000

  /** sock_filter: one instruction. */
  datatype Insn = Insn(code: u16, jt: u8, jf: u8, k: u32)

  // ---------------------------------------------------------------- interpreter

  datatype Outcome = Returned(k: u32) | Stuck

  /** Classic BPF over seccomp_data, of which only the system call number is read. Jumps are
      relative to the next instruction; leaving the program is an error. */
  function Step(prog: seq<Insn>, pc: nat, acc: u32, nr: u32): Outcome
    decreases |prog| - pc
  {
    if pc >= |prog| then Stuck
    else
      var i := prog[pc];
      if i.code == LOAD then
        (if i.k == NR_OFFSET then Step(prog, pc + 1, nr, nr) else Stuck)
      else if i.code == JUMP_EQ then
        Step(prog, pc + 1 + (if acc == i.k then i.jt else i.jf), acc, nr)
      else if i.code == RET then Returned(i.k)
      else Stuck
  }

  function Decide(prog: seq<Insn>, nr: u32): Outcome { Step(prog, 0, 0, nr) }

  // ---------------------------------------------------------------- generator

  /** The instruction for the i-th of n numbers; the jump offset is cut to a byte. */
  function Test(n: nat, i: nat, nr: u32): Insn
    requires i < n
  {
    Insn(JUMP_EQ, (n - 1 - i + 1) % 0x100, 0, nr)
  }

  /** The emitted program for one enumeration of the allowed numbers. */
  function Layout(order: seq<u32>): seq<Insn>
  {
    [Insn(LOAD, 0, 0, NR_OFFSET)]
      + seq(|order|, i requires 0 <= i < |order| => Test(|order|, i, order[i]))
      + [Insn(RET, 0, 0, RET_EPERM), Insn(RET, 0, 0, RET_ALLOW)]
  }

  /** The numbers of the known names, and ioctl. */
  function Allowed(names: seq<string>, table: map<string, u32>): set<u32>
    requires "ioctl" in table
  {
    (set n | n in names && n in table :: table[n]) + {table["ioctl"]}
  }

  /** buildBPFFilter: collect the numbers, then emit one test for each in any order. */
  method Build(names: seq<string>, table: map<string, u32>) returns (insns: seq<Insn>)
    requires "ioctl" in table
    ensures exists order :: Lists(order, Allowed(names, table)) && insns == Layout(order)
  {
    var allowed: set<u32> := {};
    for i := 0 to |names|
      invariant allowed == set n | n in names[..i] && n in table :: table[n]
    {
      assert names[..i + 1] == names[..i] + [names[i]];
      if names[i] in table { allowed := allowed + {table[names[i]]}; }
    }
    assert names[..|names|] == names;
    allowed := allowed + {table["ioctl"]};
    insns := Emit(allowed);
  }

  /** The part of buildBPFFilter that lays the program out. */
  method Emit(allowed: set<u32>) returns (insns: seq<Insn>)
    ensures exists order :: Lists(order, allowed) && insns == Layout(order)
  {
    hide Lists, Tests, Layout;
    var n, i := |allowed|, 0;
    var todo := allowed;
    ghost var order: seq<u32> := [];
    ListsNone<u32>();
    assert allowed - todo == {};
    TestsNone(n);
    insns := [Insn(LOAD, 0, 0, NR_OFFSET)];
    while todo != {}
      invariant i == |order| && i + |todo| == n && todo <= allowed
      invariant Lists(order, allowed - todo)
      invariant insns == [Insn(LOAD, 0, 0, NR_OFFSET)] + Tests(n, order)
      decreases |todo|
    {
      var nr := AnyOf(todo);
      ListsGrow(order, allowed - todo, nr);
      TestsGrow(n, order, nr);
      assert allowed - todo + {nr} == allowed - (todo - {nr});
      todo := todo - {nr};
      var remaining := n - 1 - i;
      insns := insns + [Insn(JUMP_EQ, (remaining + 1) % 0x100, 0, nr)];
      order := order + [nr];
      i := i + 1;
    }
    insns := insns + [Insn(RET, 0, 0, RET_EPERM)];
    insns := insns + [Insn(RET, 0, 0, RET_ALLOW)];
    assert allowed - todo == allowed;
    LayoutIs(order);
  }

  /** The first tests of a program that will have n. */
  function Tests(n: nat, order: seq<u32>): seq<Insn>
    requires |order| <= n
  {
    seq(|order|, i requires 0 <= i < |order| => Test(n, i, order[i]))
  }

  lemma TestsNone(n: nat)
    ensures Tests(n, []) == []
  {
  }

  lemma TestsGrow(n: nat, order: seq<u32>, nr: u32)
    requires |order| < n
    ensures Tests(n, order + [nr]) == Tests(n, order) + [Test(n, |order|, nr)]
  {
  }

  lemma LayoutIs(order: seq<u32>)
    ensures [Insn(LOAD, 0, 0, NR_OFFSET)] + Tests(|order|, order) + [Insn(RET, 0, 0, RET_EPERM)]
      + [Insn(RET, 0, 0, RET_ALLOW)] == Layout(order)
  {
  }

  // ---------------------------------------------------------------- main results

  /** From the i-th test on, when no earlier number matched and no offset was cut. */
  lemma {:induction false} DecideFrom(order: seq<u32>, i: nat, nr: u32)
    requires |order| <= 255 && i <= |order| && nr !in order[..i]
    ensures Step(Layout(order), i + 1, nr, nr) == Returned(if nr in order then RET_ALLOW else RET_EPERM)
    decreases |order| - i
  {
    var prog := Layout(order);
    var n := |order|;
    assert prog[n + 1] == Insn(RET, 0, 0, RET_EPERM) && prog[n + 2] == Insn(RET, 0, 0, RET_ALLOW);
    if i == n {
      assert order[..n] == order;
    } else {
      assert prog[i + 1] == Test(n, i, order[i]);
      if order[i] != nr {
        assert order[..i + 1] == order[..i] + [order[i]];
        DecideFrom(order, i + 1, nr);
      }
    }
  }

  /** Meaning of the filter: a number passes exactly when it is in the allowed set. */
  lemma Decides(order: seq<u32>, nr: u32)
    requires |order| <= 255
    ensures Decide(Layout(order), nr) == Returned(if nr in order then RET_ALLOW else RET_EPERM)
  {
    assert Layout(order)[0] == Insn(LOAD, 0, 0, NR_OFFSET);
    DecideFrom(order, 0, nr);
  }

  /** Every jump lands inside the program, whatever the number of entries, and with at most 255
      entries every offset fits its byte: a match lands on the last instruction. */
  lemma JumpsInRange(order: seq<u32>, pc: nat)
    requires pc < |Layout(order)| && Layout(order)[pc].code == JUMP_EQ
    ensures var i := Layout(order)[pc];
      && pc + 1 + i.jt < |Layout(order)| && pc + 1 + i.jf < |Layout(order)|
      && (|order| <= 255 ==> pc + 1 + i.jt == |Layout(order)| - 1)
  {
  }

  /** A number that occurs nowhere in the tests from pc on is refused. */
  lemma {:induction false} FallsThrough(order: seq<u32>, pc: nat, nr: u32)
    requires 1 <= pc <= |order| + 1 && nr !in order[pc - 1..]
    ensures Step(Layout(order), pc, nr, nr) == Returned(RET_EPERM)
    decreases |order| + 1 - pc
  {
    var prog := Layout(order);
    assert prog[|order| + 1] == Insn(RET, 0, 0, RET_EPERM);
    if pc <= |order| {
      assert prog[pc] == Test(|order|, pc - 1, order[pc - 1]);
      assert order[pc - 1] == order[pc - 1..][0];
      assert order[pc..] == order[pc - 1..][1..];
      FallsThrough(order, pc + 1, nr);
    }
  }

  /** With more entries the first offset is cut, and the first number is refused. */
  lemma FirstIsRefused(order: seq<u32>)
    requires |order| >= 256 && Distinct(order)
    ensures Decide(Layout(order), order[0]) == Returned(RET_EPERM)
  {
    var prog := Layout(order);
    var n := |order|;
    assert prog[0] == Insn(LOAD, 0, 0, NR_OFFSET);
    assert prog[1] == Test(n, 0, order[0]);
    assert n % 0x100 <= n - 256;
    FallsThrough(order, 2 + n % 0x100, order[0]);
    assert Step(prog, 1, order[0], order[0]) == Step(prog, 2 + n % 0x100, order[0], order[0]);
    assert Step(prog, 0, 0, order[0]) == Step(prog, 1, order[0], order[0]);
  }

  /** The filter means the allowed set exactly when that set has at most 255 numbers. */
  lemma CorrectIff(order: seq<u32>, s: set<u32>)
    requires Lists(order, s)
    ensures (forall nr: u32 :: Decide(Layout(order), nr) == Returned(if nr in s then RET_ALLOW else RET_EPERM))
      <==> |s| <= 255
  {
    SameSize(order, s);
    if |s| <= 255 {
      forall nr: u32 ensures Decide(Layout(order), nr) == Returned(if nr in s then RET_ALLOW else RET_EPERM) {
        Decides(order, nr);
      }
    } else {
      FirstIsRefused(order);
      assert order[0] in s;
    }
  }

  lemma {:induction false} SameSize(order: seq<u32>, s: set<u32>)
    requires Lists(order, s)
    ensures |order| == |s|
  {
    if order == [] {
      assert s == {};
    } else {
      var n := |order| - 1;
      var last := order[n];
      assert order == order[..n] + [last];
      assert forall x :: x in order[..n] ==> x != last;
      SameSize(order[..n], s - {last});
    }
  }

  // ---------------------------------------------------------------- the shipped list

  /** AllowedSyscallNames. */
  const NAMES: seq<string> := [
    "read", "write", "open", "close", "stat", "fstat", "mmap", "brk", "exit", "exit_group",
    "futex", "nanosleep", "getpid", "getuid", "getgid", "arch_prctl", "rt_sigaction",
    "rt_sigprocmask", "sigreturn", "poll"]

  /** linuxSyscallNumbers. */
  const TABLE: map<string, u32> := map[
    "read" := 0, "write" := 1, "open" := 2, "close" := 3, "stat" := 4, "fstat" := 5, "mmap" := 9,
    "brk" := 12, "rt_sigaction" := 13, "rt_sigprocmask" := 14, "sigreturn" := 15, "poll" := 7,
    "nanosleep" := 35, "getpid" := 39, "getuid" := 102, "getgid" := 104, "arch_prctl" := 158,
    "exit" := 60, "exit_group" := 231, "futex" := 202, "ioctl" := 16]

  lemma {:induction false} AllowedSize(names: seq<string>, table: map<string, u32>)
    requires "ioctl" in table
    ensures |Allowed(names, table)| <= |names| + 1
  {
    if names == [] {
      assert Allowed(names, table) == {table["ioctl"]};
    } else {
      var n := |names| - 1;
      AllowedSize(names[..n], table);
      assert names == names[..n] + [names[n]];
      if names[n] in table {
        assert Allowed(names, table) == Allowed(names[..n], table) + {table[names[n]]};
      } else {
        assert Allowed(names, table) == Allowed(names[..n], table);
      }
    }
  }

  /** What the shipped names stand for. */
  const SHIPPED: seq<u32> := [0, 1, 2, 3, 4, 5, 9, 12, 60, 231, 202, 35, 39, 102, 104, 158, 13, 14, 15, 7]

  lemma ShippedNumber(i: nat)
    requires i < 20
    ensures |NAMES| == |SHIPPED| == 20 && NAMES[i] in TABLE && TABLE[NAMES[i]] == SHIPPED[i]
  {
    var n := NAMES[i];
    assert i < 10 ==> n in TABLE && TABLE[n] == SHIPPED[i];
  }

  lemma ShippedSet(nr: u32)
    ensures "ioctl" in TABLE && TABLE["ioctl"] == 16
    ensures nr in Allowed(NAMES, TABLE) <==> nr == 16 || nr in SHIPPED
  {
    var names, table, shipped := NAMES, TABLE, SHIPPED;
    assert |names| == |shipped| == 20 && "ioctl" in table && table["ioctl"] == 16;
    forall i | 0 <= i < 20 ensures names[i] in table && table[names[i]] == shipped[i] { ShippedNumber(i); }
    if nr in shipped {
      var i :| 0 <= i < 20 && shipped[i] == nr;
      assert names[i] in names && table[names[i]] == nr;
    }
  }

  /** The filter built from the shipped names lets through exactly these system calls and ioctl, and
      refuses all others with EPERM, in whatever order the numbers are enumerated. */
  lemma ShippedFilter(order: seq<u32>, nr: u32)
    requires Lists(order, Allowed(NAMES, TABLE))
    ensures Decide(Layout(order), nr) == Returned(if nr == 16 || nr in SHIPPED then 0x7fff_0000 else 0x0005_0001)
  {
    ShippedSet(nr);
    var names, table := NAMES, TABLE;
    assert |names| == 20 && "ioctl" in table;
    AllowedSize(names, table);
    SameSize(order, Allowed(names, table));
    hide Layout, Decide;
    Decides(order, nr);
  }
}
