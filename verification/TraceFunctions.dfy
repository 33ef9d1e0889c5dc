/** What each step of the ptrace event loop does to a trace session, as functions on values. */
module TraceFunctions {
  import opened Machine

  datatype Rule = Rule(nr: u64, errnoValue: int, when: nat)

  /** The options the loop reads, and the syscall name table. */
  datatype Env = Env(
    filters: set<string>, injections: seq<Rule>, followFork: bool, dumpSeccomp: bool, signals: bool,
    lifecycle: bool, maxEvents: nat, syscallName: u64 -> string)

  datatype SyscallEvent = SyscallEvent(
    pid: int, tid: int, sequence: nat, nr: u64, name: string, args: seq<u64>, rawRet: int, isError: bool,
    errnoValue: int, seccompData: Option<int>, injectedErrno: Option<int>)

  const NO_EVENT := SyscallEvent(-1, -1, 0, 0, "", [], 0, false, 0, None, None)

  datatype Pending = Pending(active: bool, event: SyscallEvent)

  const IDLE := Pending(false, NO_EVENT)

  /** One line of output. Filter dumps are written but not counted. */
  datatype Record =
    | SyscallRecord(event: SyscallEvent)
    | SignalRecord(seqNo: nat, pid: int, tid: int, sig: int, delivered: bool)
    | ExitRecord(seqNo: nat, pid: int, tid: int, status: int, primary: bool)
    | SignaledRecord(seqNo: nat, pid: int, tid: int, sig: int, primary: bool)
    | DumpRecord(seqNo: nat, pid: int, tid: int, available: bool)

  function SequenceOf(r: Record): nat {
    if r.SyscallRecord? then r.event.sequence else r.seqNo
  }

  datatype Session = Session(
    tasks: set<int>, threads: map<int, Pending>, tgids: map<int, int>, sequence: nat,
    injectionSeen: map<string, nat>, dumped: set<int>, failed: set<int>, primaryPid: int,
    events: nat, exitCode: int, signaled: bool, termSignal: int, log: seq<Record>)

  /** Whether `PTRACE_GET_SYSCALL_INFO` labelled the stop, or only the registers were there to go by. */
  datatype Reading = Labelled | Registers

  datatype StopKind = Entry | Exit

  /** What reading the tracee's own filters would give at this stop. */
  datatype DumpAttempt = DumpAttempt(filters: nat, permanentFailure: bool)

  datatype PtraceKind = Fork | Vfork | Clone | Exec | OtherEvent

  /** What `waitpid` reports, with what the kernel would answer about the stop. */
  datatype Status =
    | Exited(tid: int, code: int)
    | Signaled(tid: int, sig: int)
    | SyscallStop(tid: int, kind: StopKind, nr: u64, args: seq<u64>, ret: int, kernelError: bool,
                  reading: Reading, dump: DumpAttempt)
    | SeccompStop(tid: int, nr: u64, args: seq<u64>, data: int, reading: Reading)
    | PtraceStop(tid: int, event: PtraceKind, child: int, childTgid: int)
    | SignalStop(tid: int, sig: int)
    | NotStopped(tid: int)

  const SIGTRAP := 5
  const SIGSTOP := 19

  function PidOf(s: Session, tid: int): int {
    if tid in s.tgids then s.tgids[tid] else tid
  }

  function ThreadOf(s: Session, tid: int): Pending {
    if tid in s.threads then s.threads[tid] else IDLE
  }

  function SeenOf(seen: map<string, nat>, name: string): nat {
    if name in seen then seen[name] else 0
  }

  predicate HasRule(rules: seq<Rule>, nr: u64) {
    exists i :: 0 <= i < |rules| && rules[i].nr == nr
  }

  /** The first rule, in order, that fires on the `k`-th entry of `nr`. */
  function FiringRule(rules: seq<Rule>, nr: u64, k: nat): Option<Rule> {
    if rules == [] then None
    else if rules[0].nr == nr && (rules[0].when == 0 || rules[0].when == k) then Some(rules[0])
    else FiringRule(rules[1..], nr, k)
  }

  function CountEntry(env: Env, seen: map<string, nat>, nr: u64): map<string, nat> {
    var name := env.syscallName(nr);
    if HasRule(env.injections, nr) then seen[name := SeenOf(seen, name) + 1] else seen
  }

  function Injection(env: Env, seen: map<string, nat>, nr: u64): Option<int> {
    match FiringRule(env.injections, nr, SeenOf(seen, env.syscallName(nr)))
    case Some(rule) => Some(rule.errnoValue)
    case None => None
  }

  function EntryEvent(env: Env, s: Session, tid: int, nr: u64, args: seq<u64>, data: Option<int>): SyscallEvent {
    SyscallEvent(PidOf(s, tid), tid, s.sequence + 1, nr, env.syscallName(nr), args, 0, false, 0, data,
                 Injection(env, CountEntry(env, s.injectionSeen, nr), nr))
  }

  function Begin(env: Env, s: Session, tid: int, nr: u64, args: seq<u64>, data: Option<int>): Session {
    s.(sequence := s.sequence + 1,
       injectionSeen := CountEntry(env, s.injectionSeen, nr),
       threads := s.threads[tid := Pending(true, EntryEvent(env, s, tid, nr, args, data))])
  }

  predicate ErrorReturn(ret: int) {
    -4095 <= ret < 0
  }

  /** The pending event with the outcome of its exit stop filled in. */
  function Finish(e: SyscallEvent, ret: int, labelledError: bool): SyscallEvent {
    var rawRet := if e.injectedErrno.Some? then -e.injectedErrno.value else ret;
    var isError := labelledError || ErrorReturn(rawRet);
    e.(rawRet := rawRet, isError := isError, errnoValue := if isError then -rawRet else 0)
  }

  function DumpRecords(s: Session, pid: int, tid: int, n: nat): Session {
    if n == 0 then s
    else
      var s := DumpRecords(s, pid, tid, n - 1);
      s.(sequence := s.sequence + 1, log := s.log + [DumpRecord(s.sequence + 1, pid, tid, true)])
  }

  function DumpFilters(env: Env, s: Session, tid: int, dump: DumpAttempt): Session {
    var pid := PidOf(s, tid);
    if !env.dumpSeccomp || pid in s.dumped || pid in s.failed then s
    else if dump.filters > 0 then DumpRecords(s, pid, tid, dump.filters).(dumped := s.dumped + {pid})
    else if dump.permanentFailure then
      s.(sequence := s.sequence + 1, log := s.log + [DumpRecord(s.sequence + 1, pid, tid, false)],
         failed := s.failed + {pid})
    else s
  }

  predicate Passes(env: Env, name: string) {
    env.filters == {} || name in env.filters
  }

  function Emit(env: Env, s: Session, e: SyscallEvent, dump: DumpAttempt): Session {
    var s := DumpFilters(env, s, e.tid, dump);
    if Passes(env, e.name) then s.(events := s.events + 1, log := s.log + [SyscallRecord(e)]) else s
  }

  function Complete(env: Env, s: Session, tid: int, ret: int, labelledError: bool, dump: DumpAttempt): Session {
    var t := ThreadOf(s, tid);
    if !t.active then s.(threads := s.threads[tid := t])
    else Emit(env, s.(threads := s.threads[tid := t.(active := false)]), Finish(t.event, ret, labelledError), dump)
  }

  function HandleSyscallStop(env: Env, s: Session, st: Status): Session
    requires st.SyscallStop?
  {
    if st.reading == Labelled then
      if st.kind == Entry then Begin(env, s, st.tid, st.nr, st.args, None)
      else
        var injected := ThreadOf(s, st.tid).event.injectedErrno.Some?;
        Complete(env, s, st.tid, st.ret, injected || st.kernelError, st.dump)
    else if !ThreadOf(s, st.tid).active then Begin(env, s, st.tid, st.nr, st.args, None)
    else Complete(env, s, st.tid, st.ret, false, st.dump)
  }

  function HandleSeccompStop(env: Env, s: Session, st: Status): Session
    requires st.SeccompStop?
  {
    Begin(env, s, st.tid, st.nr, st.args, if st.reading == Labelled then Some(st.data) else None)
  }

  function HandlePtraceStop(env: Env, s: Session, st: Status): Session
    requires st.PtraceStop?
  {
    if (st.event == Fork || st.event == Vfork || st.event == Clone) && st.child > 0 && env.followFork then
      var tgid :=
        if st.event == Fork || st.event == Vfork then st.child
        else if st.childTgid > 0 then st.childTgid else PidOf(s, st.tid);
      s.(tasks := s.tasks + {st.child},
         threads := if st.child in s.threads then s.threads else s.threads[st.child := IDLE],
         tgids := s.tgids[st.child := tgid])
    else s
  }

  function Count(s: Session, r: Record): Session {
    s.(sequence := s.sequence + 1, events := s.events + 1, log := s.log + [r])
  }

  function Forget(s: Session, tid: int): Session {
    s.(tasks := s.tasks - {tid}, threads := s.threads - {tid}, tgids := s.tgids - {tid})
  }

  function HandleExited(env: Env, s: Session, tid: int, code: int): Session {
    var primary := tid == s.primaryPid;
    var s := if env.lifecycle then Count(s, ExitRecord(s.sequence + 1, PidOf(s, tid), tid, code, primary)) else s;
    Forget(if primary then s.(exitCode := code) else s, tid)
  }

  function HandleSignaled(env: Env, s: Session, tid: int, sig: int): Session {
    var primary := tid == s.primaryPid;
    var s := if env.lifecycle then Count(s, SignaledRecord(s.sequence + 1, PidOf(s, tid), tid, sig, primary)) else s;
    Forget(if primary then s.(signaled := true, termSignal := sig, exitCode := 128 + sig) else s, tid)
  }

  function HandleSignalStop(env: Env, s: Session, tid: int, sig: int): Session {
    var delivered := !(sig == SIGSTOP || sig == SIGTRAP) && sig != 0;
    if env.signals then Count(s, SignalRecord(s.sequence + 1, PidOf(s, tid), tid, sig, delivered)) else s
  }

  function Handle(env: Env, s: Session, st: Status): Session {
    match st
    case Exited(tid, code) => HandleExited(env, s, tid, code)
    case Signaled(tid, sig) => HandleSignaled(env, s, tid, sig)
    case SyscallStop(_, _, _, _, _, _, _, _) => HandleSyscallStop(env, s, st)
    case SeccompStop(_, _, _, _, _) => HandleSeccompStop(env, s, st)
    case PtraceStop(_, _, _, _) => HandlePtraceStop(env, s, st)
    case SignalStop(tid, sig) => HandleSignalStop(env, s, tid, sig)
    case NotStopped(_) => s
  }

  predicate Stopped(env: Env, s: Session) {
    s.tasks == {} || (env.maxEvents != 0 && s.events >= env.maxEvents)
  }

  /** The program's own filter, dumped before there is a task. */
  const GENERATED_DUMP := DumpRecord(1, -1, -1, true)

  /** A launched child before its first resume; the generated filter may have been dumped by then. */
  function Launched(child: int, dumped: bool): Session {
    Session({child}, map[child := IDLE], map[child := child], if dumped then 1 else 0, map[], {}, {}, child,
            0, 0, false, 0, if dumped then [GENERATED_DUMP] else [])
  }

  /** Every status handled, in the order reported. */
  function Fold(env: Env, s: Session, statuses: seq<Status>): Session
    decreases |statuses|
  {
    if statuses == [] then s
    else Handle(env, Fold(env, s, statuses[..|statuses| - 1]), statuses[|statuses| - 1])
  }

  /** How many of the reported statuses the loop takes before it stops. */
  function Taken(env: Env, s: Session, statuses: seq<Status>): (k: nat)
    ensures k <= |statuses|
    decreases |statuses|
  {
    if statuses == [] then 0
    else
      var n := |statuses| - 1;
      var k := Taken(env, s, statuses[..n]);
      if k == n && !Stopped(env, Fold(env, s, statuses[..n])) then n + 1 else k
  }

  function RunLoop(env: Env, s: Session, statuses: seq<Status>): Session {
    Fold(env, s, statuses[..Taken(env, s, statuses)])
  }
}
