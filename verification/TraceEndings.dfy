/** What a run reports besides syscalls: signals, deaths, and how the launched command ended. */
module TraceEndings {
  import opened TraceFunctions
  import opened TracePairing

  // ---------------------------------------------------------------- the end of the command

  predicate DiesAt(statuses: seq<Status>, child: int, i: int) {
    0 <= i < |statuses| && Dies(statuses[i]) && statuses[i].tid == child
  }

  /** The last death reported of the child. */
  ghost predicate LastDeath(statuses: seq<Status>, child: int, i: int) {
    DiesAt(statuses, child, i) && forall j :: i < j < |statuses| ==> !DiesAt(statuses, child, j)
  }

  /** The exit code and signal a session holds are those of a death. */
  predicate EndsWith(s: Session, death: Status) {
    match death
    case Exited(_, code) => s.exitCode == code
    case Signaled(_, sig) => s.exitCode == 128 + sig && s.signaled && s.termSignal == sig
    case _ => false
  }

  lemma EndingStep(env: Env, s: Session, st: Status)
    ensures var after := Handle(env, s, st);
            && after.primaryPid == s.primaryPid
            && if Dies(st) && st.tid == s.primaryPid
               then EndsWith(after, st) && (st.Exited? ==> after.signaled == s.signaled && after.termSignal == s.termSignal)
               else after.exitCode == s.exitCode && after.signaled == s.signaled && after.termSignal == s.termSignal
  {
    if !Follows(env, st) && !Dies(st) {
      TablesStep(env, s, st);
    }
  }

  /** The result is the last death of the child, and it was killed if any of its deaths was a killing. */
  ghost predicate Ended(s: Session, statuses: seq<Status>, child: int) {
    && (forall i :: LastDeath(statuses, child, i) ==> EndsWith(s, statuses[i]))
    && ((forall i :: !DiesAt(statuses, child, i)) ==> s.exitCode == 0)
    && (s.signaled <==> exists i :: DiesAt(statuses, child, i) && statuses[i].Signaled?)
  }

  lemma EndedStep(s: Session, after: Session, init: seq<Status>, last: Status, child: int)
    requires Ended(s, init, child)
    requires if Dies(last) && last.tid == child
             then EndsWith(after, last) && (last.Exited? ==> after.signaled == s.signaled)
             else after.exitCode == s.exitCode && after.signaled == s.signaled && after.termSignal == s.termSignal
    ensures Ended(after, init + [last], child)
  {
    var now, n := init + [last], |init|;
    assert forall i :: DiesAt(now, child, i) <==> if i == n then Dies(last) && last.tid == child else DiesAt(init, child, i);
    if Dies(last) && last.tid == child {
      assert DiesAt(now, child, n);
      forall i | LastDeath(now, child, i) ensures i == n {}
    } else {
      assert forall i :: LastDeath(now, child, i) ==> LastDeath(init, child, i);
    }
    if s.signaled {
      var i :| DiesAt(init, child, i) && init[i].Signaled?;
      assert DiesAt(now, child, i) && now[i].Signaled?;
    }
  }

  lemma {:induction false} RunEnding(env: Env, child: int, dumped: bool, statuses: seq<Status>)
    ensures var s := Fold(env, Launched(child, dumped), statuses);
            s.primaryPid == child && Ended(s, statuses, child)
    decreases |statuses|
  {
    if statuses != [] {
      var n := |statuses| - 1;
      var init, last := statuses[..n], statuses[n];
      assert init + [last] == statuses;
      RunEnding(env, child, dumped, init);
      var s := Fold(env, Launched(child, dumped), init);
      EndingStep(env, s, last);
      EndedStep(s, Handle(env, s, last), init, last, child);
    }
  }

  // ---------------------------------------------------------------- signals and deaths reported

  datatype Notice =
    | SignalNotice(pid: int, tid: int, sig: int, delivered: bool)
    | ExitNotice(pid: int, tid: int, status: int, primary: bool)
    | DeathNotice(pid: int, tid: int, sig: int, primary: bool)

  function NoticeIn(r: Record): seq<Notice> {
    match r
    case SignalRecord(_, pid, tid, sig, delivered) => [SignalNotice(pid, tid, sig, delivered)]
    case ExitRecord(_, pid, tid, status, primary) => [ExitNotice(pid, tid, status, primary)]
    case SignaledRecord(_, pid, tid, sig, primary) => [DeathNotice(pid, tid, sig, primary)]
    case SyscallRecord(_) => []
    case DumpRecord(_, _, _, _) => []
  }

  /** The notices written, without their numbers. */
  function Notices(log: seq<Record>): seq<Notice> {
    if log == [] then [] else Notices(log[..|log| - 1]) + NoticeIn(log[|log| - 1])
  }

  /** What a status is reported as, if that was asked for; the process is that of the thread before it. */
  function NoticeOf(env: Env, st: Status, pid: int, primary: bool): seq<Notice> {
    match st
    case SignalStop(tid, sig) =>
      if env.signals then [SignalNotice(pid, tid, sig, sig != 0 && sig != 5 && sig != 19)] else []
    case Exited(tid, code) => if env.lifecycle then [ExitNotice(pid, tid, code, primary)] else []
    case Signaled(tid, sig) => if env.lifecycle then [DeathNotice(pid, tid, sig, primary)] else []
    case _ => []
  }

  function ExpectedNotices(env: Env, base: map<int, int>, child: int, statuses: seq<Status>): seq<Notice> {
    if statuses == [] then []
    else
      var n := |statuses| - 1;
      var init, last := statuses[..n], statuses[n];
      ExpectedNotices(env, base, child, init)
      + NoticeOf(env, last, ProcessOf(env, base, init, last.tid), last.tid == child)
  }

  lemma NoticesOne(log: seq<Record>, r: Record)
    ensures Notices(log + [r]) == Notices(log) + NoticeIn(r)
  {
    assert (log + [r])[..|log|] == log;
  }

  lemma DumpIsNoNotice(log: seq<Record>, n: nat, pid: int, tid: int)
    ensures Notices(log + [DumpRecord(n, pid, tid, true)]) == Notices(log)
  {
    NoticesOne(log, DumpRecord(n, pid, tid, true));
  }

  lemma {:induction false} DumpsAreNoNotices(s: Session, pid: int, tid: int, n: nat)
    ensures Notices(DumpRecords(s, pid, tid, n).log) == Notices(s.log)
  {
    if n > 0 {
      DumpsAreNoNotices(s, pid, tid, n - 1);
      var before := DumpRecords(s, pid, tid, n - 1);
      DumpIsNoNotice(before.log, before.sequence + 1, pid, tid);
    }
  }

  lemma FiltersAreNoNotices(env: Env, s: Session, tid: int, dump: DumpAttempt)
    ensures Notices(DumpFilters(env, s, tid, dump).log) == Notices(s.log)
  {
    DumpsAreNoNotices(s, PidOf(s, tid), tid, dump.filters);
    NoticesOne(s.log, DumpRecord(s.sequence + 1, PidOf(s, tid), tid, false));
  }

  lemma EmitWritesNone(env: Env, s: Session, e: SyscallEvent, dump: DumpAttempt)
    ensures Notices(Emit(env, s, e, dump).log) == Notices(s.log)
  {
    FiltersAreNoNotices(env, s, e.tid, dump);
    NoticesOne(DumpFilters(env, s, e.tid, dump).log, SyscallRecord(e));
  }

  lemma CompleteWritesNone(env: Env, s: Session, tid: int, ret: int, labelledError: bool, dump: DumpAttempt)
    ensures Notices(Complete(env, s, tid, ret, labelledError, dump).log) == Notices(s.log)
  {
    var t := ThreadOf(s, tid);
    if t.active {
      EmitWritesNone(env, s.(threads := s.threads[tid := t.(active := false)]), Finish(t.event, ret, labelledError), dump);
    }
  }

  lemma Noted(log: seq<Record>, after: seq<Record>, asked: bool, r: Record)
    requires after == if asked then log + [r] else log
    ensures Notices(after) == Notices(log) + if asked then NoticeIn(r) else []
  {
    NoticesOne(log, r);
  }

  lemma SilentStep(env: Env, s: Session, st: Status)
    requires st.SyscallStop? || st.SeccompStop? || st.PtraceStop? || st.NotStopped?
    ensures Notices(Handle(env, s, st).log) == Notices(s.log)
  {
    if st.SyscallStop? {
      CompleteWritesNone(env, s, st.tid, st.ret, false, st.dump);
      CompleteWritesNone(env, s, st.tid, st.ret, ThreadOf(s, st.tid).event.injectedErrno.Some? || st.kernelError, st.dump);
    }
  }

  lemma SpokenStep(env: Env, s: Session, st: Status, r: Record)
    requires Dies(st) || st.SignalStop?
    requires Handle(env, s, st).log
             == if (if st.SignalStop? then env.signals else env.lifecycle) then s.log + [r] else s.log
    requires NoticeIn(r) == NoticeOf(env.(signals := true, lifecycle := true), st, PidOf(s, st.tid), st.tid == s.primaryPid)
    ensures Notices(Handle(env, s, st).log)
            == Notices(s.log) + NoticeOf(env, st, PidOf(s, st.tid), st.tid == s.primaryPid)
  {
    Noted(s.log, Handle(env, s, st).log, if st.SignalStop? then env.signals else env.lifecycle, r);
  }

  lemma NoticeStep(env: Env, s: Session, st: Status)
    ensures Notices(Handle(env, s, st).log)
            == Notices(s.log) + NoticeOf(env, st, PidOf(s, st.tid), st.tid == s.primaryPid)
  {
    if Dies(st) || st.SignalStop? {
      LogAfter(env, s, st, RecordOf(s, st));
      SpokenStep(env, s, st, RecordOf(s, st));
    } else {
      SilentStep(env, s, st);
    }
  }

  /** The notices of a run are those of its statuses, in order. */
  lemma {:induction false} RunNotices(env: Env, child: int, dumped: bool, statuses: seq<Status>)
    ensures Notices(Fold(env, Launched(child, dumped), statuses).log)
            == ExpectedNotices(env, map[child := child], child, statuses)
    decreases |statuses|
  {
    var start := Launched(child, dumped);
    if statuses == [] {
      assert start.log == [] || start.log[..0] == [];
    } else {
      var n := |statuses| - 1;
      var init, last := statuses[..n], statuses[n];
      RunNotices(env, child, dumped, init);
      RunEnding(env, child, dumped, init);
      RunTasks(env, start, init, last.tid);
      NoticeStep(env, Fold(env, start, init), last);
    }
  }
}
