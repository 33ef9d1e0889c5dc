/** The ptrace event loop as the program runs it: one session, updated stop by stop. */
module TraceLoops {
  import opened Machine
  import opened TraceFunctions

  class TraceSession {
    var tasks: set<int>
    var threads: map<int, Pending>
    var tgids: map<int, int>
    var sequence: nat
    var injectionSeen: map<string, nat>
    var dumped: set<int>
    var failed: set<int>
    var primaryPid: int
    var events: nat
    var exitCode: int
    var signaled: bool
    var termSignal: int
    var log: seq<Record>

    ghost function State(): Session
      reads this
    {
      Session(tasks, threads, tgids, sequence, injectionSeen, dumped, failed, primaryPid,
              events, exitCode, signaled, termSignal, log)
    }

    constructor (child: int, generated: bool)
      ensures State() == Launched(child, generated)
    {
      tasks, threads, tgids := {child}, map[child := IDLE], map[child := child];
      injectionSeen, dumped, failed, primaryPid := map[], {}, {}, child;
      events, exitCode, signaled, termSignal := 0, 0, false, 0;
      sequence, log := 0, [];
      if generated {
        sequence, log := 1, [GENERATED_DUMP];
      }
    }

    function Pid(tid: int): int
      reads this
    {
      if tid in tgids then tgids[tid] else tid
    }

    /** Scans the rules in order; the counter moves once, at the first rule for this syscall. */
    method MatchingInjection(env: Env, nr: u64) returns (errno: Option<int>)
      modifies this`injectionSeen
      ensures injectionSeen == CountEntry(env, old(injectionSeen), nr)
      ensures errno == Injection(env, injectionSeen, nr)
    {
      var name, rules := env.syscallName(nr), env.injections;
      var seen := 0;
      for i := 0 to |rules|
        invariant seen != 0 <==> HasRule(rules[..i], nr)
        invariant injectionSeen ==
                  if seen != 0 then old(injectionSeen)[name := SeenOf(old(injectionSeen), name) + 1]
                  else old(injectionSeen)
        invariant seen != 0 ==> seen == SeenOf(injectionSeen, name)
        invariant FiringRule(rules, nr, SeenOf(old(injectionSeen), name) + 1)
                  == FiringRule(rules[i..], nr, SeenOf(old(injectionSeen), name) + 1)
      {
        assert rules[i..][1..] == rules[i + 1..];
        assert rules[..i + 1][i] == rules[i] && forall j :: 0 <= j < i ==> rules[..i + 1][j] == rules[..i][j];
        if rules[i].nr == nr {
          if seen == 0 {
            injectionSeen := injectionSeen[name := SeenOf(injectionSeen, name) + 1];
            seen := injectionSeen[name];
          }
          if rules[i].when == 0 || rules[i].when == seen {
            assert HasRule(rules, nr);
            return Some(rules[i].errnoValue);
          }
        } else if seen == 0 {
          assert !HasRule(rules[..i + 1], nr) by {
            assert forall j :: 0 <= j < i ==> rules[..i][j].nr != nr;
          }
        }
      }
      assert rules[..|rules|] == rules;
      if seen == 0 {
        NoRuleFires(rules, nr, SeenOf(injectionSeen, name));
      }
      errno := None;
    }

    method BeginSyscall(env: Env, tid: int, nr: u64, args: seq<u64>, data: Option<int>)
      modifies this`sequence, this`injectionSeen, this`threads
      ensures State() == Begin(env, old(State()), tid, nr, args, data)
    {
      sequence := sequence + 1;
      var event := SyscallEvent(Pid(tid), tid, sequence, nr, env.syscallName(nr), args, 0, false, 0, data, None);
      var errno := MatchingInjection(env, nr);
      event := event.(injectedErrno := errno);
      threads := threads[tid := Pending(true, event)];
    }

    method DumpTargetFilters(env: Env, tid: int, dump: DumpAttempt)
      modifies this`sequence, this`log, this`dumped, this`failed
      ensures State() == DumpFilters(env, old(State()), tid, dump)
    {
      if !env.dumpSeccomp {
        return;
      }
      var pid := Pid(tid);
      if pid in dumped || pid in failed {
        return;
      }
      if dump.filters > 0 {
        for i := 0 to dump.filters
          invariant State() == DumpRecords(old(State()), pid, tid, i)
          invariant dumped == old(dumped)
        {
          sequence := sequence + 1;
          log := log + [DumpRecord(sequence, pid, tid, true)];
        }
        dumped := dumped + {pid};
      } else if dump.permanentFailure {
        sequence := sequence + 1;
        log := log + [DumpRecord(sequence, pid, tid, false)];
        failed := failed + {pid};
      }
    }

    method EmitEvent(env: Env, event: SyscallEvent, dump: DumpAttempt)
      modifies this`sequence, this`log, this`dumped, this`failed, this`events
      ensures State() == Emit(env, old(State()), event, dump)
    {
      DumpTargetFilters(env, event.tid, dump);
      if !Passes(env, event.name) {
        return;
      }
      events := events + 1;
      log := log + [SyscallRecord(event)];
    }

    method CompleteSyscall(env: Env, tid: int, ret: int, labelledError: bool, dump: DumpAttempt)
      modifies this
      ensures State() == Complete(env, old(State()), tid, ret, labelledError, dump)
    {
      if tid !in threads {
        threads := threads[tid := IDLE];
      }
      var t := threads[tid];
      if !t.active {
        assert threads == old(threads)[tid := t];
        return;
      }
      var event := t.event;
      threads := threads[tid := t.(active := false)];
      event := event.(rawRet := if event.injectedErrno.Some? then -event.injectedErrno.value else ret);
      event := event.(isError := labelledError || ErrorReturn(event.rawRet));
      if event.isError {
        event := event.(errnoValue := -event.rawRet);
      } else {
        event := event.(errnoValue := 0);
      }
      EmitEvent(env, event, dump);
    }

    method SyscallStopped(env: Env, st: Status)
      requires st.SyscallStop?
      modifies this
      ensures State() == HandleSyscallStop(env, old(State()), st)
    {
      var t := if st.tid in threads then threads[st.tid] else IDLE;
      if st.reading == Labelled {
        if st.kind == Entry {
          BeginSyscall(env, st.tid, st.nr, st.args, None);
          return;
        }
        CompleteSyscall(env, st.tid, st.ret, t.event.injectedErrno.Some? || st.kernelError, st.dump);
        return;
      }
      if !t.active {
        BeginSyscall(env, st.tid, st.nr, st.args, None);
        return;
      }
      CompleteSyscall(env, st.tid, st.ret, false, st.dump);
    }

    method PtraceEvent(env: Env, st: Status)
      requires st.PtraceStop?
      modifies this`tasks, this`threads, this`tgids
      ensures State() == HandlePtraceStop(env, old(State()), st)
    {
      if st.event == Fork || st.event == Vfork || st.event == Clone {
        if st.child > 0 && env.followFork {
          tasks := tasks + {st.child};
          if st.child !in threads {
            threads := threads[st.child := IDLE];
          }
          var tgid :=
            if st.event == Fork || st.event == Vfork then st.child
            else if st.childTgid > 0 then st.childTgid else Pid(st.tid);
          tgids := tgids[st.child := tgid];
        }
      }
    }

    method CountRecord(r: Record)
      requires SequenceOf(r) == sequence + 1
      modifies this`sequence, this`events, this`log
      ensures State() == Count(old(State()), r)
    {
      sequence := sequence + 1;
      events := events + 1;
      log := log + [r];
    }

    method Drop(tid: int)
      modifies this`tasks, this`threads, this`tgids
      ensures State() == Forget(old(State()), tid)
    {
      tasks := tasks - {tid};
      threads := threads - {tid};
      tgids := tgids - {tid};
    }

    method HandleStatus(env: Env, st: Status)
      modifies this
      ensures State() == Handle(env, old(State()), st)
    {
      match st
      case Exited(tid, code) =>
        if env.lifecycle {
          CountRecord(ExitRecord(sequence + 1, Pid(tid), tid, code, tid == primaryPid));
        }
        if tid == primaryPid {
          exitCode := code;
        }
        Drop(tid);
      case Signaled(tid, sig) =>
        if env.lifecycle {
          CountRecord(SignaledRecord(sequence + 1, Pid(tid), tid, sig, tid == primaryPid));
        }
        if tid == primaryPid {
          signaled, termSignal, exitCode := true, sig, 128 + sig;
        }
        Drop(tid);
      case SyscallStop(_, _, _, _, _, _, _, _) =>
        SyscallStopped(env, st);
      case SeccompStop(tid, nr, args, data, reading) =>
        BeginSyscall(env, tid, nr, args, if reading == Labelled then Some(data) else None);
      case PtraceStop(_, _, _, _) =>
        PtraceEvent(env, st);
      case SignalStop(tid, sig) =>
        var deliver := if sig == SIGSTOP || sig == SIGTRAP then 0 else sig;
        if env.signals {
          CountRecord(SignalRecord(sequence + 1, Pid(tid), tid, sig, deliver != 0));
        }
      case NotStopped(_) =>
    }

    method TakeStatus(env: Env, ghost start: Session, statuses: seq<Status>, i: nat)
      requires i < |statuses| && State() == Fold(env, start, statuses[..i])
      requires Taken(env, start, statuses[..i]) == i && !Stopped(env, State())
      modifies this
      ensures State() == Fold(env, start, statuses[..i + 1])
      ensures Taken(env, start, statuses[..i + 1]) == i + 1
    {
      TakenStep(env, start, statuses, i);
      HandleStatus(env, statuses[i]);
    }

    /** The statuses are what `waitpid` would return, ending where it reports no children left. */
    method EventLoop(env: Env, statuses: seq<Status>)
      modifies this
      ensures State() == RunLoop(env, old(State()), statuses)
    {
      ghost var start := State();
      var i := 0;
      while tasks != {} && i < |statuses|
        invariant 0 <= i <= |statuses|
        invariant State() == Fold(env, start, statuses[..i])
        invariant Taken(env, start, statuses[..i]) == i
        decreases |statuses| - i
      {
        if env.maxEvents != 0 && events >= env.maxEvents {
          break;
        }
        TakeStatus(env, start, statuses, i);
        i := i + 1;
      }
      TakenStops(env, start, statuses, i);
      assert RunLoop(env, start, statuses) == Fold(env, start, statuses[..i]);
    }
  }

  lemma {:induction false} NoRuleFires(rules: seq<Rule>, nr: u64, k: nat)
    requires !HasRule(rules, nr)
    ensures FiringRule(rules, nr, k) == None
  {
    if rules != [] {
      assert rules[0].nr != nr;
      assert forall i :: 0 <= i < |rules[1..]| ==> rules[1..][i] == rules[i + 1];
      NoRuleFires(rules[1..], nr, k);
    }
  }

  lemma TakenStep(env: Env, s: Session, statuses: seq<Status>, i: nat)
    requires i < |statuses| && Taken(env, s, statuses[..i]) == i
    requires !Stopped(env, Fold(env, s, statuses[..i]))
    ensures Taken(env, s, statuses[..i + 1]) == i + 1
    ensures Fold(env, s, statuses[..i + 1]) == Handle(env, Fold(env, s, statuses[..i]), statuses[i])
  {
    assert statuses[..i + 1][..i] == statuses[..i];
  }

  /** Once the loop stops it takes nothing more. */
  lemma {:induction false} TakenStops(env: Env, s: Session, statuses: seq<Status>, i: nat)
    requires i <= |statuses| && Taken(env, s, statuses[..i]) == i
    requires i == |statuses| || Stopped(env, Fold(env, s, statuses[..i]))
    ensures Taken(env, s, statuses) == i
    decreases |statuses| - i
  {
    var n := |statuses|;
    if i == n {
      assert statuses[..i] == statuses;
    } else {
      StaysTaken(env, s, statuses, i, n);
      assert statuses[..n] == statuses;
    }
  }

  lemma {:induction false} StaysTaken(env: Env, s: Session, statuses: seq<Status>, i: nat, n: nat)
    requires i <= n <= |statuses| && Taken(env, s, statuses[..i]) == i
    requires Stopped(env, Fold(env, s, statuses[..i]))
    ensures Taken(env, s, statuses[..n]) == i
    decreases n
  {
    if i < n {
      StaysTaken(env, s, statuses, i, n - 1);
      assert statuses[..n][..n - 1] == statuses[..n - 1];
    }
  }
}
