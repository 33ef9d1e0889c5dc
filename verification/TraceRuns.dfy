/** A traced command from launch to end: the whole-run theorems at the session the program starts from. */
module TraceRuns {
  import opened Machine
  import opened TraceFunctions
  import opened TraceLoops
  import opened TraceProperties
  import opened TracePairing
  import opened TraceEndings
  import Seccomp

  /** The records of a run, and what it reports. */
  datatype Outcome = Outcome(log: seq<Record>, events: nat, exitCode: int, signaled: bool, termSignal: int)

  function OutcomeOf(s: Session): Outcome {
    Outcome(s.log, s.events, s.exitCode, s.signaled, s.termSignal)
  }

  lemma LaunchedIsFresh(child: int, dumped: bool)
    ensures var s := Launched(child, dumped); NumbersUnique(s) && Untouched(s) && Counted(s.log) == 0
  {
    var log := Launched(child, dumped).log;
    assert log != [] ==> log[..|log| - 1] == [];
  }

  /** What the loop takes, it handles in order. */
  function TakenOf(env: Env, child: int, dumped: bool, statuses: seq<Status>): seq<Status> {
    statuses[..Taken(env, Launched(child, dumped), statuses)]
  }

  /** The session a launched command ends in, whatever is reported of its tasks. */
  lemma LaunchedRun(env: Env, child: int, dumped: bool, statuses: seq<Status>)
    ensures var end := RunLoop(env, Launched(child, dumped), statuses);
            && DistinctNumbers(end.log)
            && end.events == Counted(end.log)
            && (env.maxEvents != 0 ==> end.events <= env.maxEvents)
            && DumpsSettled(env, end)
  {
    var start, taken := Launched(child, dumped), TakenOf(env, child, dumped, statuses);
    LaunchedIsFresh(child, dumped);
    RunNumbersUnique(env, start, taken);
    RunCounts(env, start, taken);
    RunSettled(env, start, taken);
    if env.maxEvents != 0 {
      CapHolds(env, start, statuses);
    }
  }

  /** The calls it has emitted, when the taken stops of every thread alternate. */
  lemma LaunchedCalls(env: Env, child: int, dumped: bool, statuses: seq<Status>)
    requires RulesValid(env)
    requires var taken := TakenOf(env, child, dumped, statuses); Alternates(taken) && KernelConsistent(taken)
    ensures Calls(RunLoop(env, Launched(child, dumped), statuses).log)
            == Expected(env, map[child := child], TakenOf(env, child, dumped, statuses))
  {
    LaunchedIsFresh(child, dumped);
    RunPairs(env, Launched(child, dumped), TakenOf(env, child, dumped, statuses));
  }

  /** How it ends and what it notes: the last death of the child, and the signals and deaths taken. */
  lemma LaunchedEnding(env: Env, child: int, dumped: bool, statuses: seq<Status>)
    ensures var end, taken := RunLoop(env, Launched(child, dumped), statuses), TakenOf(env, child, dumped, statuses);
            && Ended(end, taken, child)
            && Notices(end.log) == ExpectedNotices(env, map[child := child], child, taken)
  {
    RunEnding(env, child, dumped, TakenOf(env, child, dumped, statuses));
    RunNotices(env, child, dumped, TakenOf(env, child, dumped, statuses));
  }

  ghost predicate SomeTraced(env: Env, start: set<int>, statuses: seq<Status>) {
    exists tid :: IsTraced(env, start, statuses, tid)
  }

  /** The loop stops for want of tasks, at the cap, or with the last status; a task is there as long as the history says. */
  lemma LaunchedStops(env: Env, child: int, dumped: bool, statuses: seq<Status>)
    ensures var end, taken := RunLoop(env, Launched(child, dumped), statuses), TakenOf(env, child, dumped, statuses);
            && (|taken| < |statuses| ==>
                  (forall tid :: !IsTraced(env, {child}, taken, tid)) || (env.maxEvents != 0 && end.events == env.maxEvents))
            && forall i :: 0 <= i < |taken| ==> SomeTraced(env, {child}, taken[..i])
  {
    var start, taken := Launched(child, dumped), TakenOf(env, child, dumped, statuses);
    LoopStops(env, start, statuses);
    LaunchedRun(env, child, dumped, statuses);
    forall tid ensures tid in RunLoop(env, start, statuses).tasks <==> IsTraced(env, {child}, taken, tid) {
      RunTasks(env, start, taken, tid);
    }
    forall i | 0 <= i < |taken| ensures SomeTraced(env, {child}, taken[..i]) {
      assert taken[..i] == statuses[..i] && start.tasks == {child};
      assert GoesOn(env, Fold(env, start, statuses[..i]));
      SomeTask(env, start, statuses[..i]);
    }
  }

  lemma SomeTask(env: Env, s: Session, statuses: seq<Status>)
    requires Fold(env, s, statuses).tasks != {}
    ensures SomeTraced(env, s.tasks, statuses)
  {
    var tid := OneOf(Fold(env, s, statuses).tasks);
    RunTasks(env, s, statuses, tid);
  }

  lemma OneOf<T>(s: set<T>) returns (x: T)
    requires s != {}
    ensures x in s
  {
    x :| x in s;
  }

  /** Whether the program's own filter is dumped: asked for, and there is one. */
  ghost predicate DumpsGenerated(env: Env, seccompBpf: bool, table: map<string, u64>) {
    seccompBpf && env.dumpSeccomp && 1 <= |Seccomp.Resolved(env.filters, table)| <= 200
  }

  /**
   Launching a command and tracing it to the end. No two records share a number, the count reported
   is that of the records other than dumps and stays within the cap, the calls are the exits joined
   with their entries, and the result is the last death of the command.
   */
  method TraceCommand(env: Env, seccompBpf: bool, table: map<string, u64>, child: int, statuses: seq<Status>)
    returns (outcome: Outcome)
    ensures var dumped := DumpsGenerated(env, seccompBpf, table);
            outcome == OutcomeOf(RunLoop(env, Launched(child, dumped), statuses))
    ensures DistinctNumbers(outcome.log) && outcome.events == Counted(outcome.log)
    ensures env.maxEvents != 0 ==> outcome.events <= env.maxEvents
    ensures var taken := TakenOf(env, child, DumpsGenerated(env, seccompBpf, table), statuses);
            && (forall i :: LastDeath(taken, child, i) ==>
                  match taken[i]
                  case Exited(_, code) => outcome.exitCode == code
                  case Signaled(_, sig) => outcome.exitCode == 128 + sig && outcome.signaled && outcome.termSignal == sig
                  case _ => false)
            && (outcome.signaled <==> exists i :: DiesAt(taken, child, i) && taken[i].Signaled?)
            && Notices(outcome.log) == ExpectedNotices(env, map[child := child], child, taken)
    ensures var taken := TakenOf(env, child, DumpsGenerated(env, seccompBpf, table), statuses);
            RulesValid(env) && Alternates(taken) && KernelConsistent(taken) ==>
              Calls(outcome.log) == Expected(env, map[child := child], taken)
  {
    var dumped := false;
    if seccompBpf && env.dumpSeccomp {
      var program := Seccomp.BuildTraceProgram(env.filters, table);
      dumped := program.Some?;
    }
    var session := new TraceSession(child, dumped);
    session.EventLoop(env, statuses);
    outcome := Outcome(session.log, session.events, session.exitCode, session.signaled, session.termSignal);
    LaunchedRun(env, child, dumped, statuses);
    LaunchedEnding(env, child, dumped, statuses);
    var taken := TakenOf(env, child, dumped, statuses);
    if RulesValid(env) && Alternates(taken) && KernelConsistent(taken) {
      LaunchedCalls(env, child, dumped, statuses);
    }
  }
}
