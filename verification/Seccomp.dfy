/** The seccomp filter compiler and the fixed VMA filter, run by a classic-BPF interpreter. */
module Seccomp {
  import opened Machine
  import opened Strings
  import Sorting

  const AUDIT_ARCH_X86_64: u32 := 0xC000_003E
  const SECCOMP_RET_ALLOW: u32 := 0x7FFF_0000
  const SECCOMP_RET_TRACE: u32 := 0x7FF0_0000
  const OFFSET_NR: u32 := 0
  const OFFSET_ARCH: u32 := 4

  /** The three instruction shapes the filters use: load a word, compare and skip, return. */
  datatype Instr = Load(k: u32) | JumpEq(k: u32, jt: u8, jf: u8) | Return(k: u32)

  datatype SeccompData = SeccompData(nr: u32, arch: u32)

  /** Runs from `pc`; `None` when control leaves the code or a load has a bad offset. */
  function Exec(code: seq<Instr>, data: SeccompData, pc: nat, acc: u32): Option<u32>
    decreases |code| - pc
  {
    if pc >= |code| then None
    else match code[pc]
      case Load(k) =>
        if k == OFFSET_NR then Exec(code, data, pc + 1, data.nr)
        else if k == OFFSET_ARCH then Exec(code, data, pc + 1, data.arch)
        else None
      case JumpEq(k, jt, jf) => Exec(code, data, pc + 1 + (if acc == k then jt else jf), acc)
      case Return(k) => Some(k)
  }

  /** Compare-and-trace pairs, one for each number. */
  function Chain(numbers: seq<u32>): seq<Instr> {
    if numbers == [] then []
    else [JumpEq(numbers[0], 0, 1), Return(SECCOMP_RET_TRACE)] + Chain(numbers[1..])
  }

  lemma {:induction false} ChainLength(numbers: seq<u32>)
    ensures |Chain(numbers)| == 2 * |numbers|
  {
    if numbers != [] {
      ChainLength(numbers[1..]);
    }
  }

  /** One compare-and-trace pair decides one number and hands the rest on. */
  lemma PairDecides(code: seq<Instr>, data: SeccompData, pc: nat, acc: u32, k: u32)
    requires pc + 1 < |code| && code[pc] == JumpEq(k, 0, 1) && code[pc + 1] == Return(SECCOMP_RET_TRACE)
    ensures Exec(code, data, pc, acc) == if acc == k then Some(SECCOMP_RET_TRACE) else Exec(code, data, pc + 2, acc)
  {
    assert Exec(code, data, pc + 1, acc) == Some(SECCOMP_RET_TRACE);
  }

  /** A chain followed by ALLOW decides membership of the accumulator, wherever it sits in a program. */
  lemma {:induction false} ChainDecides(prefix: seq<Instr>, numbers: seq<u32>, data: SeccompData, acc: u32)
    ensures Exec(prefix + Chain(numbers) + [Return(SECCOMP_RET_ALLOW)], data, |prefix|, acc)
            == Some(if acc in numbers then SECCOMP_RET_TRACE else SECCOMP_RET_ALLOW)
    decreases |numbers|
  {
    var code := prefix + Chain(numbers) + [Return(SECCOMP_RET_ALLOW)];
    if numbers == [] {
      assert code[|prefix|] == Return(SECCOMP_RET_ALLOW);
    } else {
      var pair := [JumpEq(numbers[0], 0, 1), Return(SECCOMP_RET_TRACE)];
      var longer := prefix + pair;
      assert longer + Chain(numbers[1..]) + [Return(SECCOMP_RET_ALLOW)] == code;
      ChainDecides(longer, numbers[1..], data, acc);
      PairDecides(code, data, |prefix|, acc, numbers[0]);
      assert numbers == [numbers[0]] + numbers[1..];
    }
  }

  // ---------------------------------------------------------------- mini-strace: compiled from a filter set

  /** The architecture check that starts every compiled program. */
  const HEAD: seq<Instr> :=
    [Load(OFFSET_ARCH), JumpEq(AUDIT_ARCH_X86_64, 1, 0), Return(SECCOMP_RET_ALLOW), Load(OFFSET_NR)]

  datatype NamedSyscall = NamedSyscall(name: string, nr: u64)

  datatype Program = Program(syscalls: seq<NamedSyscall>, code: seq<Instr>)

  /** `static_cast<unsigned int>` of a syscall number. */
  function ToU32(nr: u64): u32 {
    nr % TWO32
  }

  function NamedLess(): (NamedSyscall, NamedSyscall) -> bool {
    (l: NamedSyscall, r: NamedSyscall) => if l.nr != r.nr then l.nr < r.nr else StringLess(l.name, r.name)
  }

  lemma NamedLessTotal()
    ensures Sorting.Total(NamedLess())
  {
    StringOrder();
  }

  /** The filter names the syscall table knows, with their numbers. */
  ghost function Resolved(filters: set<string>, table: map<string, u64>): set<NamedSyscall> {
    set name | name in filters && name in table :: NamedSyscall(name, table[name])
  }

  ghost predicate Lists<T>(s: seq<T>, elements: set<T>) {
    multiset(s) == multiset(elements)
  }

  method NamedSyscallsFromFilters(filters: set<string>, table: map<string, u64>) returns (numbers: seq<NamedSyscall>)
    ensures Lists(numbers, Resolved(filters, table))
    ensures Sorting.SortedBy(NamedLess(), numbers)
  {
    var rest := filters;
    numbers := [];
    while rest != {}
      invariant rest <= filters
      invariant Lists(numbers, Resolved(filters - rest, table))
      decreases rest
    {
      var name :| name in rest;
      ghost var before := Resolved(filters - rest, table);
      rest := rest - {name};
      if name in table {
        numbers := numbers + [NamedSyscall(name, table[name])];
        assert Resolved(filters - rest, table) == before + {NamedSyscall(name, table[name])};
      } else {
        assert Resolved(filters - rest, table) == before;
      }
    }
    assert filters - rest == filters;
    NamedLessTotal();
    Sorting.SortSorts(NamedLess(), numbers);
    Sorting.SortPermutes(NamedLess(), numbers);
    numbers := Sorting.InsertSort(NamedLess(), numbers);
  }

  /** The low 32 bits of a syscall number: the number itself, less a multiple of 2^32. */
  predicate LowWord(nr: u64, low: u32, high: nat) {
    nr == low + high * 0x1_0000_0000
  }

  /** Some name of the filter stands for the number the kernel reports, which has 32 bits. */
  ghost predicate Selected(filters: set<string>, table: map<string, u64>, nr: u32) {
    exists name, high :: name in filters && name in table && LowWord(table[name], nr, high)
  }

  lemma LowWordIs(nr: u64, low: u32)
    ensures ToU32(nr) == low <==> exists high :: LowWord(nr, low, high)
  {
    assert LowWord(nr, ToU32(nr), nr / TWO32);
    if high :| LowWord(nr, low, high) {
      assert nr / TWO32 == high;
    }
  }

  /** Syscall numbers below 2^32 select exactly themselves. */
  lemma SelectsItself(filters: set<string>, table: map<string, u64>, nr: u32)
    requires forall name :: name in table ==> table[name] < 0x1_0000_0000
    ensures Selected(filters, table, nr) <==> exists name :: name in filters && name in table && table[name] == nr
  {
    if name :| name in filters && name in table && table[name] == nr {
      assert LowWord(table[name], nr, 0);
    }
  }

  function Numbers(syscalls: seq<NamedSyscall>): seq<u32> {
    seq(|syscalls|, i requires 0 <= i < |syscalls| => ToU32(syscalls[i].nr))
  }

  /**
   The compiled program: none for an empty or oversized list; otherwise every run of it ends in a
   return inside the code, and traces exactly the selected numbers of the right architecture.
   */
  method BuildTraceProgram(filters: set<string>, table: map<string, u64>) returns (program: Option<Program>)
    ensures program.None? <==> !(1 <= |Resolved(filters, table)| <= 200)
    ensures program.Some? ==>
              && Lists(program.value.syscalls, Resolved(filters, table))
              && Sorting.SortedBy(NamedLess(), program.value.syscalls)
              && |program.value.code| == 2 * |Resolved(filters, table)| + 5
              && forall data: SeccompData, acc: u32 :: Exec(program.value.code, data, 0, acc) ==
                   Some(if data.arch == AUDIT_ARCH_X86_64 && Selected(filters, table, data.nr)
                        then SECCOMP_RET_TRACE else SECCOMP_RET_ALLOW)
  {
    var numbers := NamedSyscallsFromFilters(filters, table);
    ListsSize(numbers, Resolved(filters, table));
    if numbers == [] || |numbers| > 200 {
      return None;
    }
    var code := EmitCode(numbers);
    ghost var all := Numbers(numbers);
    ChainLength(all);
    forall data: SeccompData, acc: u32 ensures Exec(code, data, 0, acc) ==
        Some(if data.arch == AUDIT_ARCH_X86_64 && Selected(filters, table, data.nr)
             then SECCOMP_RET_TRACE else SECCOMP_RET_ALLOW)
    {
      HeadDecides(all, data, acc);
      SelectedNumbers(filters, table, numbers, data.nr);
    }
    program := Some(Program(numbers, code));
  }

  method EmitCode(numbers: seq<NamedSyscall>) returns (code: seq<Instr>)
    ensures code == HEAD + Chain(Numbers(numbers)) + [Return(SECCOMP_RET_ALLOW)]
  {
    code := HEAD;
    ghost var all := Numbers(numbers);
    for i := 0 to |numbers|
      invariant code + Chain(all[i..]) == HEAD + Chain(all)
    {
      ghost var rest := all[i..];
      assert rest[0] == ToU32(numbers[i].nr) && rest[1..] == all[i + 1..];
      ghost var before := code;
      code := code + [JumpEq(ToU32(numbers[i].nr), 0, 1)];
      code := code + [Return(SECCOMP_RET_TRACE)];
      assert code == before + [JumpEq(rest[0], 0, 1), Return(SECCOMP_RET_TRACE)];
    }
    assert code + Chain(all[|numbers|..]) == code;
    code := code + [Return(SECCOMP_RET_ALLOW)];
  }

  lemma ListsSize<T>(s: seq<T>, elements: set<T>)
    requires Lists(s, elements)
    ensures |s| == |elements|
  {
    assert |multiset(s)| == |multiset(elements)|;
  }

  lemma HeadDecides(numbers: seq<u32>, data: SeccompData, acc: u32)
    ensures Exec(HEAD + Chain(numbers) + [Return(SECCOMP_RET_ALLOW)], data, 0, acc)
            == Some(if data.arch == AUDIT_ARCH_X86_64 && data.nr in numbers
                    then SECCOMP_RET_TRACE else SECCOMP_RET_ALLOW)
  {
    var code := HEAD + Chain(numbers) + [Return(SECCOMP_RET_ALLOW)];
    assert code[0] == HEAD[0] && code[1] == HEAD[1] && code[2] == HEAD[2] && code[3] == HEAD[3];
    ChainDecides(HEAD, numbers, data, data.nr);
    assert Exec(code, data, 0, acc) == Exec(code, data, 1, data.arch);
    assert data.arch == AUDIT_ARCH_X86_64 ==> Exec(code, data, 1, data.arch) == Exec(code, data, 3, data.arch);
    assert data.arch != AUDIT_ARCH_X86_64 ==> Exec(code, data, 1, data.arch) == Exec(code, data, 2, data.arch);
  }

  lemma SelectedNumbers(filters: set<string>, table: map<string, u64>, listed: seq<NamedSyscall>, nr: u32)
    requires Lists(listed, Resolved(filters, table))
    ensures nr in Numbers(listed) <==> Selected(filters, table, nr)
  {
    if nr in Numbers(listed) {
      var i :| 0 <= i < |listed| && Numbers(listed)[i] == nr;
      assert listed[i] in multiset(listed);
      LowWordIs(listed[i].nr, nr);
    }
    if Selected(filters, table, nr) {
      var name, high :| name in filters && name in table && LowWord(table[name], nr, high);
      LowWordIs(table[name], nr);
      assert NamedSyscall(name, table[name]) in multiset(listed);
      var i :| 0 <= i < |listed| && listed[i] == NamedSyscall(name, table[name]);
      assert Numbers(listed)[i] == nr;
    }
  }

  /** Programs list their syscalls by number, and by name where numbers repeat. */
  lemma ListedByNumber(s: seq<NamedSyscall>)
    requires Sorting.SortedBy(NamedLess(), s)
    ensures forall i, j :: 0 <= i < j < |s| ==>
              s[i].nr < s[j].nr || (s[i].nr == s[j].nr && (s[i].name == s[j].name || StringLess(s[i].name, s[j].name)))
  {
    StringOrder();
    forall i, j | 0 <= i < j < |s| ensures !NamedLess()(s[j], s[i]) {}
  }

  // ---------------------------------------------------------------- mem-map-viewer: the fixed filter

  const NR_MMAP: u32 := 9
  const NR_MPROTECT: u32 := 10
  const NR_MUNMAP: u32 := 11
  const NR_BRK: u32 := 12
  const NR_MREMAP: u32 := 25
  const NR_EXECVE: u32 := 59
  const NR_EXECVEAT: u32 := 322

  predicate IsVmaSyscall(nr: int) {
    nr == NR_MMAP || nr == NR_MUNMAP || nr == NR_MPROTECT || nr == NR_BRK
    || nr == NR_MREMAP || nr == NR_EXECVE || nr == NR_EXECVEAT
  }

  const VMA_FILTER: seq<Instr> := [
    Load(OFFSET_NR),
    JumpEq(NR_MMAP, 0, 1), Return(SECCOMP_RET_TRACE),
    JumpEq(NR_MUNMAP, 0, 1), Return(SECCOMP_RET_TRACE),
    JumpEq(NR_MPROTECT, 0, 1), Return(SECCOMP_RET_TRACE),
    JumpEq(NR_BRK, 0, 1), Return(SECCOMP_RET_TRACE),
    JumpEq(NR_MREMAP, 0, 1), Return(SECCOMP_RET_TRACE),
    JumpEq(NR_EXECVE, 0, 1), Return(SECCOMP_RET_TRACE),
    JumpEq(NR_EXECVEAT, 0, 1), Return(SECCOMP_RET_TRACE),
    Return(SECCOMP_RET_ALLOW)]

  /** The fixed filter stops exactly the calls the tracer will ask `IsVmaSyscall` about, on any architecture. */
  lemma VmaFilterAgrees(data: SeccompData, acc: u32)
    ensures Exec(VMA_FILTER, data, 0, acc) ==
            Some(if IsVmaSyscall(data.nr) then SECCOMP_RET_TRACE else SECCOMP_RET_ALLOW)
  {
    PairDecides(VMA_FILTER, data, 13, data.nr, NR_EXECVEAT);
    PairDecides(VMA_FILTER, data, 11, data.nr, NR_EXECVE);
    PairDecides(VMA_FILTER, data, 9, data.nr, NR_MREMAP);
    PairDecides(VMA_FILTER, data, 7, data.nr, NR_BRK);
    PairDecides(VMA_FILTER, data, 5, data.nr, NR_MPROTECT);
    PairDecides(VMA_FILTER, data, 3, data.nr, NR_MUNMAP);
    PairDecides(VMA_FILTER, data, 1, data.nr, NR_MMAP);
    assert Exec(VMA_FILTER, data, 15, data.nr) == Some(SECCOMP_RET_ALLOW);
  }
}
