/**
 Pairing of syscall entries with exits: what the loop emits, against a reading of the whole
 history of stops that keeps no per-task state.
 */
module TracePairing {
  import opened Machine
  import opened TraceFunctions

  // ---------------------------------------------------------------- the history of stops

  predicate EntersSyscall(st: Status) {
    (st.SyscallStop? && st.kind == Entry) || st.SeccompStop?
  }

  predicate LeavesSyscall(st: Status) {
    (st.SyscallStop? && st.kind == Exit) || st.Exited? || st.Signaled?
  }

  /** After these statuses the thread is between an entry stop and its exit stop. */
  predicate Inside(statuses: seq<Status>, tid: int) {
    if statuses == [] then false
    else
      var last := statuses[|statuses| - 1];
      if last.tid == tid && EntersSyscall(last) then true
      else if last.tid == tid && LeavesSyscall(last) then false
      else Inside(statuses[..|statuses| - 1], tid)
  }

  /** Position of the entry stop the thread is inside of. */
  function EntryOf(statuses: seq<Status>, tid: int): (j: nat)
    requires Inside(statuses, tid)
    ensures j < |statuses| && statuses[j].tid == tid && EntersSyscall(statuses[j])
    ensures forall i :: j < i < |statuses| && statuses[i].tid == tid ==>
              !EntersSyscall(statuses[i]) && !LeavesSyscall(statuses[i])
  {
    var n := |statuses| - 1;
    if statuses[n].tid == tid && EntersSyscall(statuses[n]) then n
    else EntryOf(statuses[..n], tid)
  }

  /** Each thread's stops alternate, beginning with an entry. */
  ghost predicate Alternates(statuses: seq<Status>) {
    statuses == [] ||
    var n := |statuses| - 1;
    && Alternates(statuses[..n])
    && (EntersSyscall(statuses[n]) ==> !Inside(statuses[..n], statuses[n].tid))
    && (statuses[n].SyscallStop? && statuses[n].kind == Exit ==> Inside(statuses[..n], statuses[n].tid))
  }

  /** How the kernel returns an errno. */
  function ReturnOf(errno: int): int {
    -errno
  }

  /** The value returned stands for one of the errnos 1 to 4095. */
  ghost predicate ReportsErrno(ret: int) {
    exists n {:trigger ReturnOf(n)} :: 1 <= n <= 4095 && ret == ReturnOf(n)
  }

  lemma ErrnoRange(ret: int)
    ensures ErrorReturn(ret) <==> ReportsErrno(ret)
  {
    if ErrorReturn(ret) {
      assert ret == ReturnOf(-ret);
    }
  }

  /** At an exit the kernel calls a return value an error exactly in the errno range. */
  ghost predicate KernelConsistent(statuses: seq<Status>) {
    forall i :: 0 <= i < |statuses| && statuses[i].SyscallStop? && statuses[i].kind == Exit ==>
      (statuses[i].kernelError <==> ReportsErrno(statuses[i].ret))
  }

  /** What parsing an injection rule guarantees. */
  ghost predicate RulesValid(env: Env) {
    forall i :: 0 <= i < |env.injections| ==> 1 <= env.injections[i].errnoValue <= 4095
  }

  // ---------------------------------------------------------------- threads and their processes

  /** A fork, vfork or clone the tracer follows to a child. */
  predicate Follows(env: Env, st: Status) {
    env.followFork && st.PtraceStop? && st.child > 0 && (st.event == Fork || st.event == Vfork || st.event == Clone)
  }

  predicate Dies(st: Status) {
    st.Exited? || st.Signaled?
  }

  /**
   The process a thread belongs to: a forked child is its own, a cloned one is in the process its
   status file names, or else its parent's; one that has died, or was never seen, counts as its own.
   */
  function ProcessOf(env: Env, base: map<int, int>, statuses: seq<Status>, tid: int): int
    decreases |statuses|
  {
    if statuses == [] then if tid in base then base[tid] else tid
    else
      var n := |statuses| - 1;
      var init, last := statuses[..n], statuses[n];
      if Follows(env, last) && last.child == tid then
        if last.event != Clone then tid
        else if last.childTgid > 0 then last.childTgid
        else ProcessOf(env, base, init, last.tid)
      else if Dies(last) && last.tid == tid then tid
      else ProcessOf(env, base, init, tid)
  }

  /** The thread was there at the start or followed to since, and has not died since then. */
  predicate IsTraced(env: Env, start: set<int>, statuses: seq<Status>, tid: int) {
    if statuses == [] then tid in start
    else
      var n := |statuses| - 1;
      if Follows(env, statuses[n]) && statuses[n].child == tid then true
      else if Dies(statuses[n]) && statuses[n].tid == tid then false
      else IsTraced(env, start, statuses[..n], tid)
  }

  /** Dumping writes records and does nothing else. */
  lemma {:induction false} DumpsOnlyWrite(s: Session, pid: int, tid: int, n: nat)
    ensures var after := DumpRecords(s, pid, tid, n);
            after == s.(sequence := s.sequence + n, log := after.log)
  {
    if n > 0 {
      DumpsOnlyWrite(s, pid, tid, n - 1);
    }
  }

  /** What the tracer keeps about its tasks and their ends. */
  ghost predicate SameTables(s: Session, after: Session) {
    && after.tasks == s.tasks && after.tgids == s.tgids && after.primaryPid == s.primaryPid
    && after.exitCode == s.exitCode && after.signaled == s.signaled && after.termSignal == s.termSignal
  }

  lemma CompleteKeepsTables(env: Env, s: Session, tid: int, ret: int, labelledError: bool, dump: DumpAttempt)
    ensures SameTables(s, Complete(env, s, tid, ret, labelledError, dump))
  {
    var t := ThreadOf(s, tid);
    var freed := s.(threads := s.threads[tid := t.(active := false)]);
    DumpsOnlyWrite(freed, PidOf(freed, t.event.tid), t.event.tid, dump.filters);
  }

  /** Only following a child and a death change the tables. */
  lemma TablesStep(env: Env, s: Session, st: Status)
    requires !Follows(env, st) && !Dies(st)
    ensures SameTables(s, Handle(env, s, st))
  {
    if st.SyscallStop? {
      CompleteKeepsTables(env, s, st.tid, st.ret, false, st.dump);
      CompleteKeepsTables(env, s, st.tid, st.ret, ThreadOf(s, st.tid).event.injectedErrno.Some? || st.kernelError, st.dump);
    }
  }

  /** The tables of the session say of every thread what the history says. */
  lemma {:induction false} RunTasks(env: Env, s: Session, statuses: seq<Status>, tid: int)
    ensures tid in Fold(env, s, statuses).tasks <==> IsTraced(env, s.tasks, statuses, tid)
    ensures PidOf(Fold(env, s, statuses), tid) == ProcessOf(env, s.tgids, statuses, tid)
    decreases |statuses|
  {
    if statuses != [] {
      var n := |statuses| - 1;
      var before := Fold(env, s, statuses[..n]);
      RunTasks(env, s, statuses[..n], tid);
      RunTasks(env, s, statuses[..n], statuses[n].tid);
      if !Follows(env, statuses[n]) && !Dies(statuses[n]) {
        TablesStep(env, before, statuses[n]);
      }
    }
  }

  // ---------------------------------------------------------------- the reference reading

  /** Entries so far, of all tasks, that go by this name and have an injection rule. */
  function Entries(env: Env, statuses: seq<Status>, name: string): nat {
    if statuses == [] then 0
    else
      var n := |statuses| - 1;
      Entries(env, statuses[..n], name)
      + if EntersSyscall(statuses[n]) && HasRule(env.injections, statuses[n].nr)
           && env.syscallName(statuses[n].nr) == name then 1 else 0
  }

  /** The errno injected at the entry at position `j`. */
  function InjectedAt(env: Env, statuses: seq<Status>, j: nat): Option<int>
    requires j < |statuses| && EntersSyscall(statuses[j])
  {
    var nr := statuses[j].nr;
    match FiringRule(env.injections, nr, Entries(env, statuses[..j + 1], env.syscallName(nr)))
    case Some(rule) => Some(rule.errnoValue)
    case None => None
  }

  /** What a syscall line reports about the call itself. */
  datatype Call = Call(
    pid: int, tid: int, nr: u64, name: string, args: seq<u64>, data: Option<int>, injected: Option<int>,
    ret: int, isError: bool, errnoValue: int)

  function CallOf(e: SyscallEvent): Call {
    Call(e.pid, e.tid, e.nr, e.name, e.args, e.seccompData, e.injectedErrno, e.rawRet, e.isError, e.errnoValue)
  }

  function Calls(log: seq<Record>): seq<Call> {
    if log == [] then []
    else
      var n := |log| - 1;
      Calls(log[..n]) + if log[n].SyscallRecord? then [CallOf(log[n].event)] else []
  }

  /** The data a seccomp stop carries, where the kernel labels it. */
  function DataAt(st: Status): Option<int> {
    if st.SeccompStop? && st.reading == Labelled then Some(st.data) else None
  }

  /** The value the tracee sees is that of the errno injected, if one was, else what the kernel returned. */
  ghost predicate Finished(call: Call, injected: Option<int>, ret: int) {
    && call.injected == injected
    && call.ret == (if injected.Some? then ReturnOf(injected.value) else ret)
    && (call.isError <==> injected.Some? || ReportsErrno(ret))
    && (call.isError ==> call.ret == ReturnOf(call.errnoValue)) && (!call.isError ==> call.errnoValue == 0)
  }

  /** The call made of the entry at `j` and the exit value `ret`. */
  ghost function Joined(env: Env, base: map<int, int>, statuses: seq<Status>, j: nat, ret: int): (call: Call)
    requires j < |statuses| && EntersSyscall(statuses[j])
    ensures Finished(call, InjectedAt(env, statuses, j), ret)
  {
    var st, injected := statuses[j], InjectedAt(env, statuses, j);
    var value := if injected.Some? then -injected.value else ret;
    var isError := injected.Some? || ReportsErrno(ret);
    Call(ProcessOf(env, base, statuses[..j], st.tid), st.tid, st.nr, env.syscallName(st.nr), st.args, DataAt(st),
         injected, value, isError, if isError then -value else 0)
  }

  /** One call for every exit stop whose name passes the filter: its own entry joined with its value. */
  ghost function Expected(env: Env, base: map<int, int>, statuses: seq<Status>): seq<Call> {
    if statuses == [] then []
    else
      var n := |statuses| - 1;
      var init, last := statuses[..n], statuses[n];
      if last.SyscallStop? && last.kind == Exit && Inside(init, last.tid) then
        var call := Joined(env, base, init, EntryOf(init, last.tid), last.ret);
        Expected(env, base, init) + if env.filters == {} || call.name in env.filters then [call] else []
      else Expected(env, base, init)
  }

  // ---------------------------------------------------------------- the loop computes it

  /** The pending table and the injection counters say what the history says. */
  ghost predicate Tracks(env: Env, base: map<int, int>, s: Session, statuses: seq<Status>) {
    && (forall tid :: ThreadOf(s, tid).active <==> Inside(statuses, tid))
    && (forall tid :: Inside(statuses, tid) ==> Holds(env, base, ThreadOf(s, tid).event, statuses, EntryOf(statuses, tid)))
    && (forall name :: SeenOf(s.injectionSeen, name) == Entries(env, statuses, name))
  }

  ghost predicate Holds(env: Env, base: map<int, int>, e: SyscallEvent, statuses: seq<Status>, j: nat)
    requires j < |statuses| && EntersSyscall(statuses[j])
  {
    && e.tid == statuses[j].tid && e.nr == statuses[j].nr && e.name == env.syscallName(statuses[j].nr)
    && e.args == statuses[j].args && e.injectedErrno == InjectedAt(env, statuses, j)
    && e.pid == ProcessOf(env, base, statuses[..j], e.tid) && e.seccompData == DataAt(statuses[j])
  }

  lemma HoldsLater(env: Env, base: map<int, int>, e: SyscallEvent, init: seq<Status>, last: Status, j: nat)
    requires j < |init| && EntersSyscall(init[j]) && Holds(env, base, e, init, j)
    ensures Holds(env, base, e, init + [last], j)
  {
    assert (init + [last])[..j + 1] == init[..j + 1] && (init + [last])[..j] == init[..j];
  }

  lemma {:induction false} DumpsAreNotCalls(s: Session, pid: int, tid: int, n: nat)
    ensures Calls(DumpRecords(s, pid, tid, n).log) == Calls(s.log)
    ensures DumpRecords(s, pid, tid, n).threads == s.threads
    ensures DumpRecords(s, pid, tid, n).injectionSeen == s.injectionSeen
  {
    if n > 0 {
      DumpsAreNotCalls(s, pid, tid, n - 1);
      var before := DumpRecords(s, pid, tid, n - 1);
      CallsOne(before.log, DumpRecord(before.sequence + 1, pid, tid, true));
    }
  }

  lemma CallsOne(log: seq<Record>, r: Record)
    ensures Calls(log + [r]) == Calls(log) + if r.SyscallRecord? then [CallOf(r.event)] else []
  {
    assert (log + [r])[..|log|] == log;
  }

  lemma EmitCalls(env: Env, s: Session, e: SyscallEvent, dump: DumpAttempt)
    ensures var after := Emit(env, s, e, dump);
            && after.threads == s.threads && after.injectionSeen == s.injectionSeen
            && Calls(after.log) == Calls(s.log) + if Passes(env, e.name) then [CallOf(e)] else []
  {
    var pid := PidOf(s, e.tid);
    DumpsAreNotCalls(s, pid, e.tid, dump.filters);
    CallsOne(s.log, DumpRecord(s.sequence + 1, pid, e.tid, false));
    CallsOne(DumpFilters(env, s, e.tid, dump).log, SyscallRecord(e));
  }

  lemma EntryHolds(env: Env, base: map<int, int>, s: Session, init: seq<Status>, last: Status)
    requires EntersSyscall(last) && PidOf(s, last.tid) == ProcessOf(env, base, init, last.tid)
    requires forall name :: SeenOf(s.injectionSeen, name) == Entries(env, init, name)
    ensures var now := init + [last];
            && Holds(env, base, EntryEvent(env, s, last.tid, last.nr, last.args, DataAt(last)), now, |init|)
            && forall name :: SeenOf(CountEntry(env, s.injectionSeen, last.nr), name) == Entries(env, now, name)
  {
    var now := init + [last];
    assert now[..|init|] == init && now[..|init| + 1] == now;
    forall name ensures SeenOf(CountEntry(env, s.injectionSeen, last.nr), name) == Entries(env, now, name) {
      assert SeenOf(s.injectionSeen, name) == Entries(env, init, name);
    }
  }

  lemma TracksEntry(env: Env, base: map<int, int>, s: Session, init: seq<Status>, last: Status)
    requires Tracks(env, base, s, init) && EntersSyscall(last)
    requires PidOf(s, last.tid) == ProcessOf(env, base, init, last.tid)
    ensures Tracks(env, base, Begin(env, s, last.tid, last.nr, last.args, DataAt(last)), init + [last])
  {
    var after, now := Begin(env, s, last.tid, last.nr, last.args, DataAt(last)), init + [last];
    assert now[..|init|] == init;
    EntryHolds(env, base, s, init, last);
    forall tid | Inside(now, tid) ensures Holds(env, base, ThreadOf(after, tid).event, now, EntryOf(now, tid)) {
      if tid != last.tid {
        HoldsLater(env, base, ThreadOf(s, tid).event, init, last, EntryOf(init, tid));
      }
    }
  }

  /** Any status that only idles or forgets its own task. */
  lemma TracksOther(env: Env, base: map<int, int>, s: Session, after: Session, init: seq<Status>, last: Status)
    requires Tracks(env, base, s, init) && !EntersSyscall(last)
    requires after.injectionSeen == s.injectionSeen
    requires forall tid :: tid != last.tid ==> ThreadOf(after, tid) == ThreadOf(s, tid)
    requires if LeavesSyscall(last) then !ThreadOf(after, last.tid).active
             else ThreadOf(after, last.tid) == ThreadOf(s, last.tid)
    ensures Tracks(env, base, after, init + [last])
  {
    var now := init + [last];
    assert now[..|init|] == init;
    assert forall tid :: tid != last.tid || !LeavesSyscall(last) ==> Inside(now, tid) == Inside(init, tid);
    forall tid | Inside(now, tid) ensures Holds(env, base, ThreadOf(after, tid).event, now, EntryOf(now, tid)) {
      HoldsLater(env, base, ThreadOf(s, tid).event, init, last, EntryOf(init, tid));
    }
    forall name ensures SeenOf(after.injectionSeen, name) == Entries(env, now, name) {
      assert Entries(env, now, name) == Entries(env, init, name);
    }
  }

  lemma {:induction false} FiringRuleValid(rules: seq<Rule>, nr: u64, k: nat)
    ensures match FiringRule(rules, nr, k)
            case Some(rule) => rule in rules
            case None => true
  {
    if rules != [] {
      FiringRuleValid(rules[1..], nr, k);
    }
  }

  /** The errno carried by a pending event is one a rule was given. */
  ghost predicate ErrnoValid(e: SyscallEvent) {
    e.injectedErrno.Some? ==> 1 <= e.injectedErrno.value <= 4095
  }

  lemma PendingErrnoValid(env: Env, base: map<int, int>, s: Session, statuses: seq<Status>, tid: int)
    requires RulesValid(env) && Tracks(env, base, s, statuses) && ThreadOf(s, tid).active
    ensures ErrnoValid(ThreadOf(s, tid).event)
  {
    var j := EntryOf(statuses, tid);
    assert Holds(env, base, ThreadOf(s, tid).event, statuses, j);
    FiringRuleValid(env.injections, statuses[j].nr,
                    Entries(env, statuses[..j + 1], env.syscallName(statuses[j].nr)));
  }

  function Relabelled(st: Status, reading: Reading): Status
    requires st.SyscallStop?
  {
    SyscallStop(st.tid, st.kind, st.nr, st.args, st.ret, st.kernelError, reading, st.dump)
  }

  /**
   Going by the kernel's label and going by the pending flag come to the same session at one stop
   exactly when the flag is right about the stop.
   */
  lemma ReadingsAgree(env: Env, s: Session, st: Status)
    requires st.SyscallStop? && ErrnoValid(ThreadOf(s, st.tid).event)
    requires st.kind == Exit ==> (st.kernelError <==> ReportsErrno(st.ret))
    ensures Handle(env, s, Relabelled(st, Labelled)) == Handle(env, s, Relabelled(st, Registers))
            <==> (ThreadOf(s, st.tid).active <==> st.kind == Exit)
  {
    ErrnoRange(st.ret);
    var t := ThreadOf(s, st.tid);
    var labelled, registers := Handle(env, s, Relabelled(st, Labelled)), Handle(env, s, Relabelled(st, Registers));
    var freed := s.(threads := s.threads[st.tid := t.(active := false)]);
    EmitCalls(env, freed, Finish(t.event, st.ret, false), st.dump);
    if t.active && st.kind == Exit {
      assert Finish(t.event, st.ret, t.event.injectedErrno.Some? || st.kernelError) == Finish(t.event, st.ret, false);
    } else if t.active {
      assert ThreadOf(labelled, st.tid).active && !ThreadOf(registers, st.tid).active;
    } else if st.kind == Exit {
      assert !ThreadOf(labelled, st.tid).active && ThreadOf(registers, st.tid).active;
    }
  }

  /** A well-read exit stop emits the pending event, finished, and leaves the thread idle. */
  lemma ExitCompletes(env: Env, s: Session, last: Status)
    requires last.SyscallStop? && last.kind == Exit && (last.kernelError <==> ReportsErrno(last.ret))
    requires ThreadOf(s, last.tid).active && ErrnoValid(ThreadOf(s, last.tid).event)
    ensures var t, after := ThreadOf(s, last.tid), Handle(env, s, last);
            && after.threads == s.threads[last.tid := t.(active := false)]
            && after.injectionSeen == s.injectionSeen
            && Calls(after.log) == Calls(s.log)
               + if Passes(env, t.event.name) then [CallOf(Finish(t.event, last.ret, false))] else []
  {
    ErrnoRange(last.ret);
    var t := ThreadOf(s, last.tid);
    var freed := s.(threads := s.threads[last.tid := t.(active := false)]);
    assert Finish(t.event, last.ret, t.event.injectedErrno.Some? || last.kernelError) == Finish(t.event, last.ret, false);
    EmitCalls(env, freed, Finish(t.event, last.ret, false), last.dump);
  }

  /** An exit that nothing was injected into is written with the errno the kernel returned, and is an error only then. */
  lemma UninjectedExit(env: Env, s: Session, last: Status) returns (e: SyscallEvent)
    requires last.SyscallStop? && last.kind == Exit && (last.kernelError ==> ReportsErrno(last.ret))
    requires var t := ThreadOf(s, last.tid);
             && t.active && t.event.injectedErrno.None?
             && (env.filters == {} || t.event.name in env.filters)
    ensures EndsWithCall(Handle(env, s, last).log, e)
    ensures e.rawRet == last.ret && (e.isError <==> ReportsErrno(last.ret))
    ensures forall n {:trigger ReturnOf(n)} :: 1 <= n <= 4095 && last.ret == ReturnOf(n) ==> e.errnoValue == n
    ensures !ReportsErrno(last.ret) ==> e.errnoValue == 0
  {
    var t := ThreadOf(s, last.tid);
    e := Finish(t.event, last.ret, last.reading == Labelled && last.kernelError);
    ErrnoRange(last.ret);
  }

  predicate EndsWithCall(log: seq<Record>, e: SyscallEvent) {
    log != [] && log[|log| - 1] == SyscallRecord(e)
  }

  lemma TracksExit(env: Env, base: map<int, int>, s: Session, after: Session, init: seq<Status>, last: Status)
    requires Tracks(env, base, s, init) && RulesValid(env) && after == Handle(env, s, last)
    requires last.SyscallStop? && last.kind == Exit && Inside(init, last.tid)
    requires last.kernelError <==> ReportsErrno(last.ret)
    ensures Tracks(env, base, after, init + [last])
    ensures var call := Joined(env, base, init, EntryOf(init, last.tid), last.ret);
            Calls(after.log) == Calls(s.log) + if env.filters == {} || call.name in env.filters then [call] else []
  {
    ErrnoRange(last.ret);
    var t := ThreadOf(s, last.tid);
    assert t.active && Holds(env, base, t.event, init, EntryOf(init, last.tid));
    PendingErrnoValid(env, base, s, init, last.tid);
    ExitCompletes(env, s, last);
    TracksOther(env, base, s, after, init, last);
    assert CallOf(Finish(t.event, last.ret, false)) == Joined(env, base, init, EntryOf(init, last.tid), last.ret);
  }

  predicate Quiet(st: Status) {
    !st.SyscallStop? && !st.SeccompStop?
  }

  lemma QuietRecord(log: seq<Record>, after: seq<Record>, r: Record)
    requires !r.SyscallRecord? && (after == log || after == log + [r])
    ensures Calls(after) == Calls(log)
  {
    CallsOne(log, r);
  }

  /** What a signal or a death is written as. */
  function RecordOf(s: Session, st: Status): Record
    requires Dies(st) || st.SignalStop?
  {
    var n, pid, primary := s.sequence + 1, PidOf(s, st.tid), st.tid == s.primaryPid;
    if st.Exited? then ExitRecord(n, pid, st.tid, st.code, primary)
    else if st.Signaled? then SignaledRecord(n, pid, st.tid, st.sig, primary)
    else SignalRecord(n, pid, st.tid, st.sig, st.sig != 0 && st.sig != 5 && st.sig != 19)
  }

  /** The one record a signal or a death is written as, if that was asked for. */
  lemma LogAfter(env: Env, s: Session, st: Status, r: Record)
    requires (Dies(st) || st.SignalStop?) && r == RecordOf(s, st)
    ensures Handle(env, s, st).log
            == if (if st.SignalStop? then env.signals else env.lifecycle) then s.log + [r] else s.log
  {
  }

  lemma QuietCalls(env: Env, s: Session, st: Status)
    requires Quiet(st)
    ensures Calls(Handle(env, s, st).log) == Calls(s.log) && Handle(env, s, st).injectionSeen == s.injectionSeen
  {
    if Dies(st) || st.SignalStop? {
      LogAfter(env, s, st, RecordOf(s, st));
      QuietRecord(s.log, Handle(env, s, st).log, RecordOf(s, st));
    }
  }

  /** Lifecycle, signal and event stops touch no other thread's pending entry. */
  lemma QuietThreads(env: Env, s: Session, st: Status, tid: int)
    requires Quiet(st)
    ensures var after := Handle(env, s, st);
            if tid == st.tid && LeavesSyscall(st) then !ThreadOf(after, tid).active
            else ThreadOf(after, tid) == ThreadOf(s, tid)
  {
  }

  lemma TracksStep(env: Env, base: map<int, int>, s: Session, after: Session, init: seq<Status>, last: Status)
    requires Tracks(env, base, s, init) && RulesValid(env) && after == Handle(env, s, last)
    requires Alternates(init + [last]) && KernelConsistent(init + [last])
    requires PidOf(s, last.tid) == ProcessOf(env, base, init, last.tid)
    requires Calls(s.log) == Expected(env, base, init)
    ensures Tracks(env, base, after, init + [last])
    ensures Calls(after.log) == Expected(env, base, init + [last])
  {
    var now := init + [last];
    assert now[..|init|] == init && now[|init|] == last;
    if last.SyscallStop? && last.kind == Exit {
      TracksExit(env, base, s, after, init, last);
    } else if last.SyscallStop? {
      assert after == Begin(env, s, last.tid, last.nr, last.args, None) by {
        assert !Inside(init, last.tid);
      }
      TracksEntry(env, base, s, init, last);
    } else if last.SeccompStop? {
      TracksEntry(env, base, s, init, last);
    } else {
      QuietCalls(env, s, last);
      forall tid
        ensures if tid == last.tid && LeavesSyscall(last) then !ThreadOf(after, tid).active
                else ThreadOf(after, tid) == ThreadOf(s, tid)
      {
        QuietThreads(env, s, last, tid);
      }
      TracksOther(env, base, s, after, init, last);
    }
  }

  /** A session before its first stop: nothing pending, nothing counted, nothing emitted. */
  ghost predicate Untouched(s: Session) {
    (forall tid :: !ThreadOf(s, tid).active) && s.injectionSeen == map[] && Calls(s.log) == []
  }

  /**
   For every interleaving of alternating tasks, and whichever way each stop is read, the calls
   emitted are the reference reading of the history: each exit joined with its own entry.
   */
  lemma {:induction false} RunPairs(env: Env, s: Session, statuses: seq<Status>)
    requires Untouched(s) && RulesValid(env) && Alternates(statuses) && KernelConsistent(statuses)
    ensures Tracks(env, s.tgids, Fold(env, s, statuses), statuses)
    ensures Calls(Fold(env, s, statuses).log) == Expected(env, s.tgids, statuses)
    decreases |statuses|
  {
    if statuses != [] {
      var n := |statuses| - 1;
      var init, last := statuses[..n], statuses[n];
      assert init + [last] == statuses;
      RunPairs(env, s, init);
      RunTasks(env, s, init, last.tid);
      TracksStep(env, s.tgids, Fold(env, s, init), Fold(env, s, statuses), init, last);
    }
  }

  /** Statuses that differ only in how syscall stops were read. */
  ghost predicate SameButReading(a: seq<Status>, b: seq<Status>) {
    && |a| == |b|
    && forall i :: 0 <= i < |a| ==>
         a[i] == b[i] || (a[i].SyscallStop? && b[i].SyscallStop? && Relabelled(a[i], Labelled) == Relabelled(b[i], Labelled))
  }

  /** Choosing per stop how to read it never changes the session, counters and numbers included. */
  lemma {:induction false} ReadingNeverMatters(env: Env, s: Session, a: seq<Status>, b: seq<Status>)
    requires Untouched(s) && RulesValid(env) && Alternates(a) && KernelConsistent(a) && SameButReading(a, b)
    ensures Fold(env, s, a) == Fold(env, s, b)
    decreases |a|
  {
    if a != [] {
      var n := |a| - 1;
      ReadingNeverMatters(env, s, a[..n], b[..n]);
      RunPairs(env, s, a[..n]);
      var before := Fold(env, s, a[..n]);
      if a[n] != b[n] {
        SameStep(env, s.tgids, before, a[..n], a[n], b[n]);
      }
    }
  }

  lemma SameStep(env: Env, base: map<int, int>, s: Session, init: seq<Status>, a: Status, b: Status)
    requires RulesValid(env) && Tracks(env, base, s, init)
    requires a.SyscallStop? && b.SyscallStop? && Relabelled(a, Labelled) == Relabelled(b, Labelled)
    requires Inside(init, a.tid) <==> a.kind == Exit
    requires a.kind == Exit ==> (a.kernelError <==> ReportsErrno(a.ret))
    ensures Handle(env, s, a) == Handle(env, s, b)
  {
    assert a == Relabelled(a, a.reading) && b == Relabelled(a, b.reading);
    var t := ThreadOf(s, a.tid);
    if t.active {
      PendingErrnoValid(env, base, s, init, a.tid);
      ReadingsAgree(env, s, a);
    } else {
      assert Handle(env, s, a) == Begin(env, s, a.tid, a.nr, a.args, None) == Handle(env, s, b);
    }
  }

  // ---------------------------------------------------------------- injection

  /** A rule fires exactly when one names this call and this count, and it is the first such rule. */
  lemma {:induction false} FiringRuleIsFirst(rules: seq<Rule>, nr: u64, k: nat)
    ensures match FiringRule(rules, nr, k)
            case Some(rule) =>
              exists i :: 0 <= i < |rules| && rules[i] == rule && Fires(rules[i], nr, k)
                          && forall h :: 0 <= h < i ==> !Fires(rules[h], nr, k)
            case None => forall i :: 0 <= i < |rules| ==> !Fires(rules[i], nr, k)
  {
    if rules != [] && !Fires(rules[0], nr, k) {
      var rest := rules[1..];
      FiringRuleIsFirst(rest, nr, k);
      assert forall i :: 0 <= i < |rest| ==> rest[i] == rules[i + 1];
      match FiringRule(rest, nr, k)
      case Some(rule) =>
        var i :| 0 <= i < |rest| && rest[i] == rule && Fires(rest[i], nr, k)
                 && forall h :: 0 <= h < i ==> !Fires(rest[h], nr, k);
        forall h | 0 <= h < i + 1 ensures !Fires(rules[h], nr, k) {
          if h > 0 { assert !Fires(rest[h - 1], nr, k); }
        }
        assert rules[i + 1] == rule;
      case None =>
        forall h | 0 <= h < |rules| ensures !Fires(rules[h], nr, k) {
          if h > 0 { assert !Fires(rest[h - 1], nr, k); }
        }
    } else if rules != [] {
      assert rules[0] == FiringRule(rules, nr, k).value;
    }
  }

  predicate Fires(rule: Rule, nr: u64, k: nat) {
    rule.nr == nr && (rule.when == 0 || rule.when == k)
  }

  /** Entries so far of the syscall `nr`, whichever task made them. */
  function EntriesOf(statuses: seq<Status>, nr: u64): nat {
    if statuses == [] then 0
    else
      var n := |statuses| - 1;
      EntriesOf(statuses[..n], nr) + if EntersSyscall(statuses[n]) && statuses[n].nr == nr then 1 else 0
  }

  /** Distinct ruled syscalls have distinct names, so counting by name is counting by number. */
  lemma {:induction false} CountByNumber(env: Env, statuses: seq<Status>, nr: u64)
    requires HasRule(env.injections, nr)
    requires forall m: u64 :: env.syscallName(m) == env.syscallName(nr) ==> m == nr
    ensures Entries(env, statuses, env.syscallName(nr)) == EntriesOf(statuses, nr)
  {
    if statuses != [] {
      CountByNumber(env, statuses[..|statuses| - 1], nr);
    }
  }

  /**
   The k-th entry of a syscall, counted over all tasks, is given the errno of the first rule that
   fires on k, and none when no rule does.
   */
  lemma InjectionByCount(env: Env, statuses: seq<Status>, j: nat)
    requires j < |statuses| && EntersSyscall(statuses[j])
    requires forall m: u64 :: env.syscallName(m) == env.syscallName(statuses[j].nr) ==> m == statuses[j].nr
    ensures var nr, k := statuses[j].nr, EntriesOf(statuses[..j + 1], statuses[j].nr);
            && (InjectedAt(env, statuses, j).None? <==>
                  forall i :: 0 <= i < |env.injections| ==> !Fires(env.injections[i], nr, k))
            && (InjectedAt(env, statuses, j).Some? ==>
                  exists i :: 0 <= i < |env.injections| && Fires(env.injections[i], nr, k)
                              && InjectedAt(env, statuses, j) == Some(env.injections[i].errnoValue)
                              && forall h :: 0 <= h < i ==> !Fires(env.injections[h], nr, k))
  {
    var nr, name := statuses[j].nr, env.syscallName(statuses[j].nr);
    FiringRuleIsFirst(env.injections, nr, Entries(env, statuses[..j + 1], name));
    if HasRule(env.injections, nr) {
      CountByNumber(env, statuses[..j + 1], nr);
    }
  }
}
