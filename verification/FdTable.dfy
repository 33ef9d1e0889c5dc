/** The user-side table of open descriptors, kept from a stream of kernel events. */
module FdTable {
  import opened Machine

  datatype EventType = Open | Close | Exec | Exit | UnknownType

  /** `range` marks a close_range event; `live` is what the process still has open after an exec. */
  datatype FdEvent = FdEvent(
    timestampNs: u64, pid: u32, fd: i32, eventType: EventType, range: bool, fdEnd: u32, live: set<int>)

  type FdKey = (u32, i32)

  const UINT32_MAX: u32 := 0xFFFF_FFFF

  /** `static_cast<uint32_t>` of a descriptor. */
  function AsU32(fd: i32): int {
    fd % TWO32
  }

  predicate InRange(k: FdKey, pid: u32, begin: i32, end: u32) {
    k.0 == pid && k.1 >= begin && (end == UINT32_MAX || AsU32(k.1) <= end)
  }

  /** The event means that the descriptor is no longer open. */
  predicate Removes(e: FdEvent, k: FdKey) {
    match e.eventType
    case Close => if e.range then InRange(k, e.pid, e.fd, e.fdEnd) else k == (e.pid, e.fd)
    case Exec => k.0 == e.pid && k.1 !in e.live
    case Exit => k.0 == e.pid
    case Open => false
    case UnknownType => false
  }

  datatype Counters = Counters(
    seen: nat, opens: nat, closes: nat, rangeCloses: nat, rangeClosed: nat, execs: nat, execClosed: nat,
    exits: nat, exitCleared: nat)

  class TraceState {
    var openFds: map<FdKey, FdEvent>
    var counters: Counters

    constructor ()
      ensures openFds == map[] && counters == Counters(0, 0, 0, 0, 0, 0, 0, 0, 0)
    {
      openFds, counters := map[], Counters(0, 0, 0, 0, 0, 0, 0, 0, 0);
    }

    /** The erasing loop shared by the range, exec and exit paths; visits every entry once. */
    method EraseMatching(doomed: FdKey -> bool) returns (removed: nat)
      modifies this`openFds
      ensures openFds == Surviving(old(openFds), doomed)
      ensures removed == |set k | k in old(openFds) && doomed(k)|
    {
      var rest := openFds.Keys;
      removed := 0;
      while rest != {}
        invariant rest <= openFds.Keys <= old(openFds).Keys
        invariant forall k :: k in openFds ==> openFds[k] == old(openFds)[k]
        invariant forall k :: k in old(openFds) && k !in rest ==> (k in openFds <==> !doomed(k))
        invariant removed == |set k | k in old(openFds) && k !in rest && doomed(k)|
        decreases rest
      {
        var k :| k in rest;
        ghost var gone := set j | j in old(openFds) && j !in rest && doomed(j);
        rest := rest - {k};
        ghost var now := set j | j in old(openFds) && j !in rest && doomed(j);
        if doomed(k) {
          assert now == gone + {k};
          openFds := openFds - {k};
          removed := removed + 1;
        } else {
          assert now == gone;
        }
      }
      assert (set k | k in old(openFds) && k !in rest && doomed(k)) == set k | k in old(openFds) && doomed(k);
      assert openFds == Surviving(old(openFds), doomed);
    }

    method HandleEvent(e: FdEvent)
      modifies this
      ensures openFds == TableAfter(old(openFds), e)
      ensures counters == CountersAfter(old(counters), old(openFds), e)
    {
      var c := counters.(seen := counters.seen + 1);
      match e.eventType {
        case Open =>
          c := c.(opens := c.opens + 1);
          openFds := openFds[(e.pid, e.fd) := e];
        case Close =>
          c := c.(closes := c.closes + 1);
          if e.range {
            c := c.(rangeCloses := c.rangeCloses + 1);
            var doomed := (k: FdKey) => InRange(k, e.pid, e.fd, e.fdEnd);
            var removed := EraseMatching(doomed);
            SameDoomed(old(openFds), doomed, e);
            c := c.(rangeClosed := c.rangeClosed + removed);
          } else {
            openFds := openFds - {(e.pid, e.fd)};
          }
        case Exec =>
          c := c.(execs := c.execs + 1);
          var doomed := (k: FdKey) => k.0 == e.pid && k.1 !in e.live;
          var removed := EraseMatching(doomed);
          SameDoomed(old(openFds), doomed, e);
          c := c.(execClosed := c.execClosed + removed);
        case Exit =>
          c := c.(exits := c.exits + 1);
          var doomed := (k: FdKey) => k.0 == e.pid;
          var removed := EraseMatching(doomed);
          SameDoomed(old(openFds), doomed, e);
          c := c.(exitCleared := c.exitCleared + removed);
        case UnknownType =>
      }
      counters := c;
      assert openFds == TableAfter(old(openFds), e);
    }
  }

  function Surviving(table: map<FdKey, FdEvent>, doomed: FdKey -> bool): map<FdKey, FdEvent> {
    map k | k in table && !doomed(k) :: table[k]
  }

  lemma SameDoomed(table: map<FdKey, FdEvent>, doomed: FdKey -> bool, e: FdEvent)
    requires forall k: FdKey :: doomed(k) <==> Removes(e, k)
    ensures |set k | k in table && doomed(k)| == Removed(table, e)
  {
    assert (set k | k in table && doomed(k)) == set k | k in table && Removes(e, k);
  }

  function TableAfter(table: map<FdKey, FdEvent>, e: FdEvent): map<FdKey, FdEvent> {
    if e.eventType == Open then table[(e.pid, e.fd) := e]
    else map k | k in table && !Removes(e, k) :: table[k]
  }

  function CountersAfter(c: Counters, table: map<FdKey, FdEvent>, e: FdEvent): Counters {
    var c := c.(seen := c.seen + 1);
    match e.eventType
    case Open => c.(opens := c.opens + 1)
    case Close =>
      var c := c.(closes := c.closes + 1);
      if e.range then c.(rangeCloses := c.rangeCloses + 1, rangeClosed := c.rangeClosed + Removed(table, e)) else c
    case Exec => c.(execs := c.execs + 1, execClosed := c.execClosed + Removed(table, e))
    case Exit => c.(exits := c.exits + 1, exitCleared := c.exitCleared + Removed(table, e))
    case UnknownType => c
  }

  /** How many entries the event takes out of the table. */
  function Removed(table: map<FdKey, FdEvent>, e: FdEvent): nat {
    |set k | k in table && Removes(e, k)|
  }

  // ---------------------------------------------------------------- the table as a function of history

  function RunTable(history: seq<FdEvent>): map<FdKey, FdEvent> {
    if history == [] then map[]
    else TableAfter(RunTable(history[..|history| - 1]), history[|history| - 1])
  }

  function RunCounters(history: seq<FdEvent>): Counters {
    if history == [] then Counters(0, 0, 0, 0, 0, 0, 0, 0, 0)
    else
      var n := |history| - 1;
      CountersAfter(RunCounters(history[..n]), RunTable(history[..n]), history[n])
  }

  /** The whole stream through the handler. */
  method Replay(history: seq<FdEvent>) returns (table: map<FdKey, FdEvent>, counters: Counters)
    ensures table == RunTable(history) && counters == RunCounters(history)
  {
    var state := new TraceState();
    for i := 0 to |history|
      invariant state.openFds == RunTable(history[..i]) && state.counters == RunCounters(history[..i])
    {
      assert history[..i + 1][..i] == history[..i];
      state.HandleEvent(history[i]);
    }
    assert history[..|history|] == history;
    table, counters := state.openFds, state.counters;
  }

  /** The event takes descriptor `fd` of process `pid`: by its number, its range, an exec it does not survive, or exit. */
  predicate Takes(e: FdEvent, pid: u32, fd: i32) {
    e.pid == pid &&
    match e.eventType
    case Open => false
    case Close =>
      if !e.range then fd == e.fd
      else fd >= e.fd && (e.fdEnd == 0xFFFF_FFFF || (if fd >= 0 then fd else fd + 0x1_0000_0000) <= e.fdEnd)
    case Exec => fd !in e.live
    case Exit => true
    case UnknownType => false
  }

  lemma TakesIs(e: FdEvent, k: FdKey)
    ensures Removes(e, k) <==> Takes(e, k.0, k.1)
  {
  }

  predicate OpensIt(e: FdEvent, pid: u32, fd: i32) {
    e.eventType == Open && e.pid == pid && e.fd == fd
  }

  /** The event at `i` opened the descriptor and nothing since opened it again or took it. */
  ghost predicate LastOpen(history: seq<FdEvent>, k: FdKey, i: nat) {
    && i < |history| && OpensIt(history[i], k.0, k.1)
    && forall j :: i < j < |history| ==> !OpensIt(history[j], k.0, k.1) && !Takes(history[j], k.0, k.1)
  }

  /** A descriptor is in the table exactly when some open of it stands, and the table holds that open. */
  lemma {:induction false} TableIsHistory(history: seq<FdEvent>, k: FdKey)
    ensures k in RunTable(history) <==> exists i: nat :: LastOpen(history, k, i)
    ensures forall i: nat :: LastOpen(history, k, i) ==> k in RunTable(history) && RunTable(history)[k] == history[i]
  {
    if history != [] {
      var n := |history| - 1;
      var init, last := history[..n], history[n];
      TableIsHistory(init, k);
      assert TableAfter(RunTable(init), last) == RunTable(history);
      TakesIs(last, k);
      forall i: nat ensures LastOpen(history, k, i) <==>
          if i == n then OpensIt(last, k.0, k.1)
          else LastOpen(init, k, i) && !OpensIt(last, k.0, k.1) && !Takes(last, k.0, k.1)
      {
        if i < n {
          assert forall j :: i < j < n ==> init[j] == history[j];
        }
      }
      if OpensIt(last, k.0, k.1) {
        assert LastOpen(history, k, n);
      } else if k in RunTable(history) {
        var i: nat :| LastOpen(init, k, i);
        assert LastOpen(history, k, i);
      }
    }
  }

  /** How many events are of a type, and of those how many close a range. */
  function CountOf(history: seq<FdEvent>, t: EventType, ranges: bool): nat {
    if history == [] then 0
    else
      var n := |history| - 1;
      CountOf(history[..n], t, ranges)
      + if history[n].eventType == t && (ranges ==> history[n].range) then 1 else 0
  }

  /** The event counters are the numbers of events of each type. */
  lemma {:induction false} EventsCounted(history: seq<FdEvent>)
    ensures var c := RunCounters(history);
            && c.seen == |history| && c.opens == CountOf(history, Open, false)
            && c.closes == CountOf(history, Close, false) && c.rangeCloses == CountOf(history, Close, true)
            && c.execs == CountOf(history, Exec, false) && c.exits == CountOf(history, Exit, false)
  {
    if history != [] {
      EventsCounted(history[..|history| - 1]);
    }
  }

  /** Opens of descriptors that were already in the table. */
  function Overwrites(history: seq<FdEvent>): nat {
    if history == [] then 0
    else
      var n := |history| - 1;
      var last := history[n];
      Overwrites(history[..n])
      + if last.eventType == Open && (last.pid, last.fd) in RunTable(history[..n]) then 1 else 0
  }

  /** Plain closes of descriptors that were in the table. */
  function CloseHits(history: seq<FdEvent>): nat {
    if history == [] then 0
    else
      var n := |history| - 1;
      var last := history[n];
      CloseHits(history[..n])
      + if last.eventType == Close && !last.range && (last.pid, last.fd) in RunTable(history[..n]) then 1 else 0
  }

  lemma TableSize(table: map<FdKey, FdEvent>, e: FdEvent)
    requires e.eventType != Open
    ensures |TableAfter(table, e)| + Removed(table, e) == |table|
  {
    var kept, gone := TableAfter(table, e).Keys, set k | k in table && Removes(e, k);
    assert table.Keys == kept + gone && kept !! gone;
    assert |kept| + |gone| == |table.Keys|;
    assert |table| == |table.Keys| && |TableAfter(table, e)| == |kept|;
  }

  lemma OpenSize(table: map<FdKey, FdEvent>, k: FdKey, e: FdEvent)
    ensures |table[k := e]| == |table| + if k in table then 0 else 1
  {
    var after := table[k := e];
    assert after.Keys == table.Keys + {k};
    assert |after| == |after.Keys| && |table| == |table.Keys|;
  }

  lemma PlainCloseRemoves(table: map<FdKey, FdEvent>, e: FdEvent)
    requires e.eventType == Close && !e.range
    ensures Removed(table, e) == if (e.pid, e.fd) in table then 1 else 0
  {
    var k := (e.pid, e.fd);
    assert (set j | j in table && Removes(e, j)) == if k in table then {k} else {};
  }

  lemma UnknownRemovesNothing(table: map<FdKey, FdEvent>, e: FdEvent)
    requires e.eventType == UnknownType
    ensures Removed(table, e) == 0
  {
    assert (set k | k in table && Removes(e, k)) == {};
  }

  /** Every open is accounted for: still open, overwritten, or closed in one of the four ways. */
  lemma {:induction false} OpensConserved(history: seq<FdEvent>)
    ensures var c := RunCounters(history);
            c.opens == |RunTable(history)| + Overwrites(history) + CloseHits(history)
                       + c.rangeClosed + c.execClosed + c.exitCleared
  {
    if history != [] {
      var n := |history| - 1;
      var table, last := RunTable(history[..n]), history[n];
      OpensConserved(history[..n]);
      match last.eventType
      case Open => OpenSize(table, (last.pid, last.fd), last);
      case Close =>
        TableSize(table, last);
        if !last.range { PlainCloseRemoves(table, last); }
      case Exec => TableSize(table, last);
      case Exit => TableSize(table, last);
      case UnknownType =>
        TableSize(table, last);
        UnknownRemovesNothing(table, last);
    }
  }
}
