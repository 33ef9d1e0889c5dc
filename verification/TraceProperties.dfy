/** What holds of every run of the ptrace event loop, however the stops of the tasks interleave. */
module TraceProperties {
  import opened Machine
  import opened TraceFunctions

  // ---------------------------------------------------------------- sequence numbers

  /** `n` was handed out, and neither a record nor a pending event carries it. */
  ghost predicate FreeNumber(s: Session, n: nat) {
    && n <= s.sequence
    && (forall i :: 0 <= i < |s.log| ==> SequenceOf(s.log[i]) != n)
    && (forall t :: t in s.threads && s.threads[t].active ==> s.threads[t].event.sequence != n)
  }

  ghost predicate DistinctNumbers(log: seq<Record>) {
    forall i, j :: 0 <= i < j < |log| ==> SequenceOf(log[i]) != SequenceOf(log[j])
  }

  ghost predicate LogUnique(s: Session) {
    && (forall i :: 0 <= i < |s.log| ==> SequenceOf(s.log[i]) <= s.sequence)
    && DistinctNumbers(s.log)
  }

  /** No two records share a number, and no pending event holds a number another has. */
  ghost predicate NumbersUnique(s: Session) {
    && LogUnique(s)
    && (forall t :: t in s.threads && s.threads[t].active ==> s.threads[t].event.sequence <= s.sequence)
    && (forall t, i :: t in s.threads && s.threads[t].active && 0 <= i < |s.log| ==>
          SequenceOf(s.log[i]) != s.threads[t].event.sequence)
    && (forall t, u :: t in s.threads && u in s.threads && t != u && s.threads[t].active && s.threads[u].active ==>
          s.threads[t].event.sequence != s.threads[u].event.sequence)
  }

  /** A record with a free number can be added. */
  lemma AddFree(s: Session, after: Session, r: Record)
    requires NumbersUnique(s) && FreeNumber(s, SequenceOf(r))
    requires after.sequence == s.sequence && after.log == s.log + [r] && after.threads == s.threads
    ensures NumbersUnique(after)
  {
  }

  /** So can a record with the next number, and free numbers stay free. */
  lemma AddNext(s: Session, after: Session, r: Record)
    requires NumbersUnique(s) && SequenceOf(r) == s.sequence + 1
    requires after.sequence == s.sequence + 1 && after.log == s.log + [r] && after.threads == s.threads
    ensures NumbersUnique(after)
    ensures forall n: nat :: FreeNumber(s, n) ==> FreeNumber(after, n)
  {
  }

  lemma {:induction false} DumpRecordsUnique(s: Session, pid: int, tid: int, n: nat)
    requires NumbersUnique(s)
    ensures NumbersUnique(DumpRecords(s, pid, tid, n))
    ensures forall k: nat :: FreeNumber(s, k) ==> FreeNumber(DumpRecords(s, pid, tid, n), k)
  {
    if n > 0 {
      DumpRecordsUnique(s, pid, tid, n - 1);
      var before := DumpRecords(s, pid, tid, n - 1);
      AddNext(before, DumpRecords(s, pid, tid, n), DumpRecord(before.sequence + 1, pid, tid, true));
    }
  }

  lemma DumpFiltersUnique(env: Env, s: Session, tid: int, dump: DumpAttempt)
    requires NumbersUnique(s)
    ensures NumbersUnique(DumpFilters(env, s, tid, dump))
    ensures forall k: nat :: FreeNumber(s, k) ==> FreeNumber(DumpFilters(env, s, tid, dump), k)
  {
    var pid := PidOf(s, tid);
    if env.dumpSeccomp && pid !in s.dumped && pid !in s.failed {
      if dump.filters > 0 {
        DumpRecordsUnique(s, pid, tid, dump.filters);
      } else if dump.permanentFailure {
        AddNext(s, DumpFilters(env, s, tid, dump), DumpRecord(s.sequence + 1, pid, tid, false));
      }
    }
  }

  lemma EmitUnique(env: Env, s: Session, e: SyscallEvent, dump: DumpAttempt)
    requires NumbersUnique(s) && FreeNumber(s, e.sequence)
    ensures NumbersUnique(Emit(env, s, e, dump))
  {
    DumpFiltersUnique(env, s, e.tid, dump);
    if Passes(env, e.name) {
      AddFree(DumpFilters(env, s, e.tid, dump), Emit(env, s, e, dump), SyscallRecord(e));
    }
  }

  lemma Release(s: Session, tid: int, idle: Pending)
    requires NumbersUnique(s) && !idle.active
    ensures NumbersUnique(s.(threads := s.threads[tid := idle]))
    ensures ThreadOf(s, tid).active ==>
              FreeNumber(s.(threads := s.threads[tid := idle]), ThreadOf(s, tid).event.sequence)
  {
  }

  lemma CompleteUnique(env: Env, s: Session, tid: int, ret: int, labelledError: bool, dump: DumpAttempt)
    requires NumbersUnique(s)
    ensures NumbersUnique(Complete(env, s, tid, ret, labelledError, dump))
  {
    var t := ThreadOf(s, tid);
    Release(s, tid, t.(active := false));
    if t.active {
      EmitUnique(env, s.(threads := s.threads[tid := t.(active := false)]), Finish(t.event, ret, labelledError), dump);
    } else {
      assert t.(active := false) == t;
    }
  }

  lemma BeginUnique(env: Env, s: Session, tid: int, nr: u64, args: seq<u64>, data: Option<int>)
    requires NumbersUnique(s)
    ensures NumbersUnique(Begin(env, s, tid, nr, args, data))
  {
    var after := Begin(env, s, tid, nr, args, data);
    assert forall t :: t in after.threads && t != tid ==> t in s.threads && after.threads[t] == s.threads[t];
    assert after.threads[tid].event.sequence == s.sequence + 1;
  }

  lemma SyscallStopUnique(env: Env, s: Session, st: Status)
    requires NumbersUnique(s) && st.SyscallStop?
    ensures NumbersUnique(HandleSyscallStop(env, s, st))
  {
    var injected := ThreadOf(s, st.tid).event.injectedErrno.Some?;
    BeginUnique(env, s, st.tid, st.nr, st.args, None);
    CompleteUnique(env, s, st.tid, st.ret, false, st.dump);
    CompleteUnique(env, s, st.tid, st.ret, injected || st.kernelError, st.dump);
  }

  lemma FewerThreads(s: Session, after: Session)
    requires NumbersUnique(s) && after.sequence == s.sequence && after.log == s.log
    requires forall t :: t in after.threads && after.threads[t].active ==> t in s.threads && s.threads[t] == after.threads[t]
    ensures NumbersUnique(after)
  {
  }

  lemma CountThenForget(s: Session, counted: Session, after: Session, r: Record)
    requires NumbersUnique(s) && SequenceOf(r) == s.sequence + 1
    requires counted == s || counted == Count(s, r)
    requires after.sequence == counted.sequence && after.log == counted.log
    requires forall t :: t in after.threads && after.threads[t].active ==> t in s.threads && s.threads[t] == after.threads[t]
    ensures NumbersUnique(after)
  {
    if counted != s {
      AddNext(s, counted, r);
    }
    FewerThreads(counted, after);
  }

  lemma HandleUnique(env: Env, s: Session, st: Status)
    requires NumbersUnique(s)
    ensures NumbersUnique(Handle(env, s, st))
  {
    var n, pid, primary := s.sequence + 1, PidOf(s, st.tid), st.tid == s.primaryPid;
    match st
    case Exited(tid, code) =>
      var r := ExitRecord(n, pid, tid, code, primary);
      CountThenForget(s, if env.lifecycle then Count(s, r) else s, HandleExited(env, s, tid, code), r);
    case Signaled(tid, sig) =>
      var r := SignaledRecord(n, pid, tid, sig, primary);
      CountThenForget(s, if env.lifecycle then Count(s, r) else s, HandleSignaled(env, s, tid, sig), r);
    case SyscallStop(_, _, _, _, _, _, _, _) =>
      SyscallStopUnique(env, s, st);
    case SeccompStop(tid, nr, args, data, reading) =>
      BeginUnique(env, s, tid, nr, args, if reading == Labelled then Some(data) else None);
    case PtraceStop(_, _, _, _) =>
      FewerThreads(s, HandlePtraceStop(env, s, st));
    case SignalStop(tid, sig) =>
      var r := SignalRecord(n, pid, tid, sig, !(sig == SIGSTOP || sig == SIGTRAP) && sig != 0);
      CountThenForget(s, HandleSignalStop(env, s, tid, sig), HandleSignalStop(env, s, tid, sig), r);
    case NotStopped(_) =>
  }

  /** Over any run, no two emitted records share a sequence number. */
  lemma {:induction false} RunNumbersUnique(env: Env, s: Session, statuses: seq<Status>)
    requires NumbersUnique(s)
    ensures NumbersUnique(Fold(env, s, statuses))
    decreases |statuses|
  {
    if statuses != [] {
      var n := |statuses| - 1;
      RunNumbersUnique(env, s, statuses[..n]);
      HandleUnique(env, Fold(env, s, statuses[..n]), statuses[n]);
    }
  }

  // ---------------------------------------------------------------- the event count and its cap

  function Counted(log: seq<Record>): nat {
    if log == [] then 0
    else Counted(log[..|log| - 1]) + (if log[|log| - 1].DumpRecord? then 0 else 1)
  }

  lemma {:induction false} CountedExtends(log: seq<Record>, more: seq<Record>)
    requires forall i :: 0 <= i < |more| ==> more[i].DumpRecord?
    ensures Counted(log + more) == Counted(log)
    decreases |more|
  {
    if more == [] {
      assert log + more == log;
    } else {
      var n := |more| - 1;
      assert (log + more)[..|log| + n] == log + more[..n];
      CountedExtends(log, more[..n]);
    }
  }

  lemma {:induction false} DumpRecordsCount(s: Session, pid: int, tid: int, n: nat)
    ensures DumpRecords(s, pid, tid, n).events == s.events
    ensures Counted(DumpRecords(s, pid, tid, n).log) == Counted(s.log)
  {
    if n > 0 {
      DumpRecordsCount(s, pid, tid, n - 1);
      CountedExtends(DumpRecords(s, pid, tid, n - 1).log, [DumpRecord(DumpRecords(s, pid, tid, n - 1).sequence + 1, pid, tid, true)]);
    }
  }

  lemma CountedOne(log: seq<Record>, r: Record)
    ensures Counted(log + [r]) == Counted(log) + if r.DumpRecord? then 0 else 1
  {
    assert (log + [r])[..|log|] == log;
  }

  lemma EmitCounts(env: Env, s: Session, e: SyscallEvent, dump: DumpAttempt)
    ensures var after := Emit(env, s, e, dump);
            && s.events <= after.events <= s.events + 1
            && after.events - s.events == Counted(after.log) - Counted(s.log)
  {
    var pid := PidOf(s, e.tid);
    DumpRecordsCount(s, pid, e.tid, dump.filters);
    CountedOne(s.log, DumpRecord(s.sequence + 1, pid, e.tid, false));
    CountedOne(DumpFilters(env, s, e.tid, dump).log, SyscallRecord(e));
  }

  ghost predicate CountsStep(s: Session, after: Session) {
    && s.events <= after.events <= s.events + 1
    && after.events - s.events == Counted(after.log) - Counted(s.log)
  }

  lemma CompleteCounts(env: Env, s: Session, tid: int, ret: int, labelledError: bool, dump: DumpAttempt)
    ensures CountsStep(s, Complete(env, s, tid, ret, labelledError, dump))
  {
    var t := ThreadOf(s, tid);
    if t.active {
      EmitCounts(env, s.(threads := s.threads[tid := t.(active := false)]), Finish(t.event, ret, labelledError), dump);
    }
  }

  lemma CountStep(s: Session, after: Session, r: Record)
    requires !r.DumpRecord?
    requires (after.events == s.events && after.log == s.log) || (after.events == s.events + 1 && after.log == s.log + [r])
    ensures CountsStep(s, after)
  {
    CountedOne(s.log, r);
  }

  /** One status adds at most one counted record, and `events` moves exactly with it. */
  lemma HandleCounts(env: Env, s: Session, st: Status)
    ensures CountsStep(s, Handle(env, s, st))
  {
    var n, pid, primary := s.sequence + 1, PidOf(s, st.tid), st.tid == s.primaryPid;
    match st
    case Exited(tid, code) =>
      CountStep(s, HandleExited(env, s, tid, code), ExitRecord(n, pid, tid, code, primary));
    case Signaled(tid, sig) =>
      CountStep(s, HandleSignaled(env, s, tid, sig), SignaledRecord(n, pid, tid, sig, primary));
    case SyscallStop(tid, _, _, _, ret, kernelError, _, dump) =>
      CompleteCounts(env, s, tid, ret, false, dump);
      CompleteCounts(env, s, tid, ret, ThreadOf(s, tid).event.injectedErrno.Some? || kernelError, dump);
    case SeccompStop(_, _, _, _, _) =>
    case PtraceStop(_, _, _, _) =>
    case SignalStop(tid, sig) =>
      CountStep(s, HandleSignalStop(env, s, tid, sig),
                SignalRecord(n, pid, tid, sig, !(sig == SIGSTOP || sig == SIGTRAP) && sig != 0));
    case NotStopped(_) =>
  }

  /** `events` is the number of counted records written since the start. */
  lemma {:induction false} RunCounts(env: Env, s: Session, statuses: seq<Status>)
    ensures Fold(env, s, statuses).events - s.events == Counted(Fold(env, s, statuses).log) - Counted(s.log)
    decreases |statuses|
  {
    if statuses != [] {
      var n := |statuses| - 1;
      RunCounts(env, s, statuses[..n]);
      HandleCounts(env, Fold(env, s, statuses[..n]), statuses[n]);
    }
  }

  /** With a cap set, the loop never reports more events than the cap. */
  lemma {:induction false} CapHolds(env: Env, s: Session, statuses: seq<Status>)
    requires env.maxEvents != 0 && s.events <= env.maxEvents
    ensures RunLoop(env, s, statuses).events <= env.maxEvents
    decreases |statuses|
  {
    if statuses != [] {
      var n := |statuses| - 1;
      var init := statuses[..n];
      CapHolds(env, s, init);
      if Taken(env, s, statuses) == n + 1 {
        assert init[..n] == init && statuses[..n + 1] == statuses;
        HandleCounts(env, Fold(env, s, init), statuses[n]);
      } else {
        assert statuses[..Taken(env, s, init)] == init[..Taken(env, s, init)];
      }
    }
  }

  /** There are tasks, and room below the cap. */
  predicate GoesOn(env: Env, s: Session) {
    s.tasks != {} && (env.maxEvents == 0 || s.events < env.maxEvents)
  }

  /** The loop takes a status exactly while it can go on. */
  lemma {:induction false} LoopStops(env: Env, s: Session, statuses: seq<Status>)
    ensures var k := Taken(env, s, statuses);
            && (k < |statuses| ==> !GoesOn(env, Fold(env, s, statuses[..k])))
            && forall i :: 0 <= i < k ==> GoesOn(env, Fold(env, s, statuses[..i]))
    decreases |statuses|
  {
    if statuses != [] {
      var n := |statuses| - 1;
      var init, k := statuses[..n], Taken(env, s, statuses[..n]);
      LoopStops(env, s, init);
      forall i | 0 <= i <= n ensures statuses[..i] == init[..i] {}
      assert init[..n] == init;
      if k < n {
        assert Taken(env, s, statuses) == k;
      }
    }
  }

  // ---------------------------------------------------------------- filters are dumped once

  ghost predicate IsDump(r: Record, pid: int, tid: int, available: bool) {
    r.DumpRecord? && r.pid == pid && r.tid == tid && r.available == available
  }

  lemma {:induction false} DumpRecordsAre(s: Session, pid: int, tid: int, n: nat)
    ensures var log := DumpRecords(s, pid, tid, n).log;
            && |log| == |s.log| + n && log[..|s.log|] == s.log
            && forall i :: |s.log| <= i < |log| ==> IsDump(log[i], pid, tid, true)
  {
    if n > 0 {
      DumpRecordsAre(s, pid, tid, n - 1);
    }
  }

  /** A dump of a traced process, not of the program's own filter. */
  predicate DumpsProcess(r: Record) {
    r.DumpRecord? && r != GENERATED_DUMP
  }

  /** Every dump was asked for and is settled, and a process is dumped by one thread or found unreadable once. */
  ghost predicate DumpsSettled(env: Env, s: Session) {
    && s.dumped !! s.failed
    && (forall i :: 0 <= i < |s.log| && DumpsProcess(s.log[i]) ==>
          env.dumpSeccomp && if s.log[i].available then s.log[i].pid in s.dumped else s.log[i].pid in s.failed)
    && OneDumper(s.log)
  }

  ghost predicate OneDumper(log: seq<Record>) {
    forall i, j :: 0 <= i < j < |log| && DumpsProcess(log[i]) && DumpsProcess(log[j]) && log[i].pid == log[j].pid ==>
      log[i].available && log[j].available && log[i].tid == log[j].tid
  }

  /** New dumps of a process that had none. */
  ghost predicate DumpsAdded(log: seq<Record>, after: seq<Record>, pid: int, tid: int, available: bool, n: nat) {
    && |after| == |log| + n && after[..|log|] == log
    && forall i :: |log| <= i < |after| ==> IsDump(after[i], pid, tid, available)
  }

  lemma AddedSettled(env: Env, s: Session, after: Session, pid: int, tid: int, available: bool, n: nat)
    requires DumpsSettled(env, s) && env.dumpSeccomp && pid !in s.dumped && pid !in s.failed
    requires DumpsAdded(s.log, after.log, pid, tid, available, n) && (available || n <= 1)
    requires after.dumped == (if available then s.dumped + {pid} else s.dumped)
    requires after.failed == (if available then s.failed else s.failed + {pid})
    ensures DumpsSettled(env, after)
  {
    assert forall i :: 0 <= i < |s.log| ==> after.log[i] == s.log[i];
  }

  /** A process not settled yet has all its filters dumped, or is found unreadable. */
  lemma DumpStep(env: Env, s: Session, tid: int, dump: DumpAttempt)
    requires DumpsSettled(env, s)
    ensures var after, pid := DumpFilters(env, s, tid, dump), PidOf(s, tid);
            && DumpsSettled(env, after)
            && DumpsAdded(s.log, after.log, pid, tid, dump.filters > 0,
                          if !env.dumpSeccomp || pid in s.dumped || pid in s.failed then 0
                          else if dump.filters > 0 then dump.filters
                          else if dump.permanentFailure then 1 else 0)
  {
    var after, pid := DumpFilters(env, s, tid, dump), PidOf(s, tid);
    if env.dumpSeccomp && pid !in s.dumped && pid !in s.failed {
      if dump.filters > 0 {
        DumpRecordsAre(s, pid, tid, dump.filters);
        DumpedOnce(s, pid, tid, dump.filters);
        AddedSettled(env, s, after, pid, tid, true, dump.filters);
      } else if dump.permanentFailure {
        AddedSettled(env, s, after, pid, tid, false, 1);
      }
    }
  }

  lemma {:induction false} DumpedOnce(s: Session, pid: int, tid: int, n: nat)
    ensures DumpRecords(s, pid, tid, n).dumped == s.dumped && DumpRecords(s, pid, tid, n).failed == s.failed
  {
    if n > 0 {
      DumpedOnce(s, pid, tid, n - 1);
    }
  }

  lemma NotADump(env: Env, s: Session, after: Session)
    requires DumpsSettled(env, s) && after.dumped == s.dumped && after.failed == s.failed
    requires after.log == s.log || (|after.log| == |s.log| + 1 && after.log[..|s.log|] == s.log && !after.log[|s.log|].DumpRecord?)
    ensures DumpsSettled(env, after)
  {
    assert forall i :: 0 <= i < |s.log| ==> after.log[i] == s.log[i];
  }

  lemma CompleteSettled(env: Env, s: Session, tid: int, ret: int, labelledError: bool, dump: DumpAttempt)
    requires DumpsSettled(env, s)
    ensures DumpsSettled(env, Complete(env, s, tid, ret, labelledError, dump))
  {
    var t := ThreadOf(s, tid);
    var freed := s.(threads := s.threads[tid := t.(active := false)]);
    if t.active {
      DumpStep(env, freed, t.event.tid, dump);
      NotADump(env, DumpFilters(env, freed, t.event.tid, dump), Complete(env, s, tid, ret, labelledError, dump));
    }
  }

  lemma HandleSettled(env: Env, s: Session, st: Status)
    requires DumpsSettled(env, s)
    ensures DumpsSettled(env, Handle(env, s, st))
  {
    if st.SyscallStop? {
      CompleteSettled(env, s, st.tid, st.ret, false, st.dump);
      CompleteSettled(env, s, st.tid, st.ret, ThreadOf(s, st.tid).event.injectedErrno.Some? || st.kernelError, st.dump);
      NotADump(env, s, Begin(env, s, st.tid, st.nr, st.args, None));
    } else {
      NotADump(env, s, Handle(env, s, st));
    }
  }

  /** Over any run no process is dumped twice. */
  lemma {:induction false} RunSettled(env: Env, s: Session, statuses: seq<Status>)
    requires DumpsSettled(env, s)
    ensures DumpsSettled(env, Fold(env, s, statuses))
    decreases |statuses|
  {
    if statuses != [] {
      var n := |statuses| - 1;
      RunSettled(env, s, statuses[..n]);
      HandleSettled(env, Fold(env, s, statuses[..n]), statuses[n]);
    }
  }
}
