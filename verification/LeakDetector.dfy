/** Leak attribution: which descriptors a process gained between the first and the last sample. */
module LeakDetector {
  import opened Machine
  import opened Strings
  import Numerals
  import Sorting

  datatype FdType =
    | File | Dir | CharDev | BlockDev | Fifo | Pipe | Socket | EventPoll | EventFd | TimerFd
    | SignalFd | Inotify | Fanotify | AnonOther | Unknown

  datatype SocketInfo = SocketInfo(proto: string, remoteAddr: string, state: string)

  datatype FdEntry = FdEntry(fdType: FdType, target: string, inode: u64, socket: Option<SocketInfo>)

  function TypeName(t: FdType): string {
    match t
    case File => "file"
    case Dir => "dir"
    case CharDev => "char"
    case BlockDev => "block"
    case Fifo => "fifo"
    case Pipe => "pipe"
    case Socket => "socket"
    case EventPoll => "epoll"
    case EventFd => "eventfd"
    case TimerFd => "timerfd"
    case SignalFd => "signalfd"
    case Inotify => "inotify"
    case Fanotify => "fanotify"
    case AnonOther => "anon"
    case Unknown => "unknown"
  }

  function LeakKey(e: FdEntry): string {
    TypeName(e.fdType) + ":" +
    if e.socket.Some? && e.socket.value.remoteAddr != "" then e.socket.value.proto + ":" + e.socket.value.remoteAddr
    else if e.target != "" then e.target
    else "inode:" + Numerals.Print(e.inode, 10)
  }

  lemma TypeNamesDiffer(t: FdType, u: FdType)
    ensures TypeName(t) == TypeName(u) <==> t == u
    ensures ':' !in TypeName(t)
  {
    var x, y := TypeName(t), TypeName(u);
    assert |x| == |y| && t != u ==> x[0] != y[0] || x[1] != y[1] || x[2] != y[2];
  }

  /** The entry is a socket with a remote address. */
  predicate HasPeer(e: FdEntry) {
    e.socket.Some? && e.socket.value.remoteAddr != ""
  }

  /** What an entry is known by besides its type: its peer, else its target, else its inode. */
  ghost predicate KnownBy(e: FdEntry, name: string) {
    if HasPeer(e) then name == e.socket.value.proto + ":" + e.socket.value.remoteAddr
    else if e.target != "" then name == e.target
    else name == "inode:" + Numerals.Print(e.inode, 10)
  }

  /** Two entries share a key exactly when they share their type and what they are known by. */
  lemma SharedLeakKey(a: FdEntry, b: FdEntry, x: string, y: string)
    requires KnownBy(a, x) && KnownBy(b, y)
    ensures LeakKey(a) == LeakKey(b) <==> a.fdType == b.fdType && x == y
  {
    TypeNamesDiffer(a.fdType, b.fdType);
    TypeNamesDiffer(b.fdType, a.fdType);
    SplitUnique(':', TypeName(a.fdType), TypeName(b.fdType), x, y);
    KeyText(a, x);
    KeyText(b, y);
  }

  lemma KeyText(e: FdEntry, name: string)
    requires KnownBy(e, name)
    ensures LeakKey(e) == TypeName(e.fdType) + ([':'] + name)
  {
  }

  /** So peers of one protocol are told apart by address, other entries by target, nameless ones by inode. */
  lemma SharedLeakKeyCases(a: FdEntry, b: FdEntry)
    requires a.fdType == b.fdType
    ensures HasPeer(a) && HasPeer(b) && a.socket.value.proto == b.socket.value.proto ==>
              (LeakKey(a) == LeakKey(b) <==> a.socket.value.remoteAddr == b.socket.value.remoteAddr)
    ensures !HasPeer(a) && !HasPeer(b) && a.target != "" && b.target != "" ==>
              (LeakKey(a) == LeakKey(b) <==> a.target == b.target)
    ensures !HasPeer(a) && !HasPeer(b) && a.target == b.target == "" ==>
              (LeakKey(a) == LeakKey(b) <==> a.inode == b.inode)
  {
    var prefix := TypeName(a.fdType) + ":";
    if HasPeer(a) && HasPeer(b) && a.socket.value.proto == b.socket.value.proto {
      var peer := prefix + (a.socket.value.proto + ":");
      SamePrefix(peer, a.socket.value.remoteAddr, b.socket.value.remoteAddr);
      assert LeakKey(a) == peer + a.socket.value.remoteAddr && LeakKey(b) == peer + b.socket.value.remoteAddr;
    } else if !HasPeer(a) && !HasPeer(b) && a.target != "" && b.target != "" {
      SamePrefix(prefix, a.target, b.target);
    } else if !HasPeer(a) && !HasPeer(b) && a.target == b.target == "" {
      var x, y := Numerals.Print(a.inode, 10), Numerals.Print(b.inode, 10);
      SamePrefix(prefix + "inode:", x, y);
      assert LeakKey(a) == prefix + "inode:" + x && LeakKey(b) == prefix + "inode:" + y;
      Numerals.PrintRoundTrip(a.inode, 10);
      Numerals.PrintRoundTrip(b.inode, 10);
    }
  }

  lemma SamePrefix(p: string, x: string, y: string)
    ensures p + x == p + y <==> x == y
  {
    if p + x == p + y {
      assert x == (p + x)[|p|..] == (p + y)[|p|..] == y;
    }
  }

  function KeysOf(entries: seq<FdEntry>): (keys: seq<string>)
    ensures |keys| == |entries|
  {
    seq(|entries|, i requires 0 <= i < |entries| => LeakKey(entries[i]))
  }

  /** How many times the key occurs. */
  function Count(keys: seq<string>, key: string): nat {
    if keys == [] then 0
    else
      var n := |keys| - 1;
      Count(keys[..n], key) + if keys[n] == key then 1 else 0
  }

  lemma {:induction false} CountPositive(keys: seq<string>, key: string)
    ensures Count(keys, key) > 0 <==> key in keys
  {
    if keys != [] {
      var n := |keys| - 1;
      CountPositive(keys[..n], key);
      assert keys == keys[..n] + [keys[n]];
    }
  }

  // ---------------------------------------------------------------- new targets

  /** Keys of the last sample absent from the first, each at its first appearance. */
  function Added(first: seq<string>, last: seq<string>): seq<string> {
    if last == [] then []
    else
      var n := |last| - 1;
      var before := Added(first, last[..n]);
      if last[n] in first || last[n] in before then before else before + [last[n]]
  }

  method NewTargets(first: seq<FdEntry>, last: seq<FdEntry>) returns (added: seq<string>)
    ensures added == Added(KeysOf(first), KeysOf(last))
    ensures Sorting.Distinct(added)
    ensures forall key :: key in added <==> key in KeysOf(last) && key !in KeysOf(first)
  {
    ghost var firstKeys, lastKeys := KeysOf(first), KeysOf(last);
    var before: set<string> := {};
    for i := 0 to |first|
      invariant forall key :: key in before <==> key in firstKeys[..i]
    {
      assert firstKeys[..i + 1] == firstKeys[..i] + [firstKeys[i]];
      before := before + {LeakKey(first[i])};
    }
    assert firstKeys[..|first|] == firstKeys;
    added := [];
    var emitted: set<string> := {};
    for i := 0 to |last|
      invariant added == Added(firstKeys, lastKeys[..i])
      invariant forall key :: key in emitted <==> key in added
    {
      assert lastKeys[..i + 1][..i] == lastKeys[..i];
      var key := LeakKey(last[i]);
      assert key == lastKeys[i];
      if key !in before && key !in emitted {
        emitted := emitted + {key};
        added := added + [key];
      }
    }
    assert lastKeys[..|last|] == lastKeys;
    AddedMeans(firstKeys, lastKeys);
  }

  lemma {:induction false} AddedMeans(first: seq<string>, last: seq<string>)
    ensures Sorting.Distinct(Added(first, last))
    ensures forall key :: key in Added(first, last) <==> key in last && key !in first
  {
    if last != [] {
      var n := |last| - 1;
      AddedMeans(first, last[..n]);
      assert last == last[..n] + [last[n]];
    }
  }

  // ---------------------------------------------------------------- growth buckets

  datatype GrowthBucket = GrowthBucket(key: string, growth: int)

  function GrowthLess(): (GrowthBucket, GrowthBucket) -> bool {
    (a: GrowthBucket, b: GrowthBucket) => if a.growth != b.growth then a.growth > b.growth else StringLess(a.key, b.key)
  }

  lemma GrowthLessTotal()
    ensures Sorting.Total(GrowthLess())
  {
    StringOrder();
  }

  /** The larger growth first; ties by key. */
  lemma GrowthOrder(s: seq<GrowthBucket>)
    requires Sorting.SortedBy(GrowthLess(), s)
    ensures forall i, j :: 0 <= i < j < |s| ==>
              || s[i].growth > s[j].growth
              || (s[i].growth == s[j].growth && (s[i].key == s[j].key || StringLess(s[i].key, s[j].key)))
  {
    StringOrder();
    forall i, j | 0 <= i < j < |s| ensures !GrowthLess()(s[j], s[i]) {}
  }

  function SumGrowth(buckets: seq<GrowthBucket>): int {
    if buckets == [] then 0 else buckets[0].growth + SumGrowth(buckets[1..])
  }

  lemma {:induction false} InsertKeepsSum(b: GrowthBucket, s: seq<GrowthBucket>)
    ensures SumGrowth(Sorting.InsertBy(GrowthLess(), b, s)) == b.growth + SumGrowth(s)
  {
    if s != [] && GrowthLess()(s[0], b) {
      InsertKeepsSum(b, s[1..]);
    }
  }

  lemma {:induction false} SortKeepsSum(s: seq<GrowthBucket>)
    ensures SumGrowth(Sorting.SortBy(GrowthLess(), s)) == SumGrowth(s)
  {
    if s != [] {
      SortKeepsSum(s[1..]);
      InsertKeepsSum(s[0], Sorting.SortBy(GrowthLess(), s[1..]));
    }
  }

  lemma {:induction false} SumAppend(s: seq<GrowthBucket>, b: GrowthBucket)
    ensures SumGrowth(s + [b]) == SumGrowth(s) + b.growth
  {
    if s == [] {
      assert [b][1..] == [];
    } else {
      assert (s + [b])[1..] == s[1..] + [b];
      SumAppend(s[1..], b);
    }
  }

  method BucketCounts(entries: seq<FdEntry>) returns (counts: map<string, int>)
    ensures forall key :: key in counts <==> key in KeysOf(entries)
    ensures forall key :: key in counts ==> counts[key] == Count(KeysOf(entries), key)
  {
    ghost var keys := KeysOf(entries);
    counts := map[];
    for i := 0 to |entries|
      invariant forall key :: key in counts <==> Count(keys[..i], key) > 0
      invariant forall key :: key in counts ==> counts[key] == Count(keys[..i], key)
    {
      assert keys[..i + 1][..i] == keys[..i];
      var key := LeakKey(entries[i]);
      assert key == keys[i];
      counts := counts[key := (if key in counts then counts[key] else 0) + 1];
    }
    assert keys[..|entries|] == keys;
    forall key ensures key in counts <==> key in keys {
      CountPositive(keys, key);
    }
  }

  /** Occurrences of any of the keys in `among`. */
  ghost function CountAmong(keys: seq<string>, among: set<string>): nat {
    if keys == [] then 0
    else
      var n := |keys| - 1;
      CountAmong(keys[..n], among) + if keys[n] in among then 1 else 0
  }

  lemma {:induction false} AmongAll(keys: seq<string>, among: set<string>)
    ensures CountAmong(keys, among) <= |keys|
    ensures (forall i :: 0 <= i < |keys| ==> keys[i] in among) ==> CountAmong(keys, among) == |keys|
  {
    if keys != [] {
      AmongAll(keys[..|keys| - 1], among);
    }
  }

  lemma {:induction false} AmongOneMore(keys: seq<string>, among: set<string>, key: string)
    requires key !in among
    ensures CountAmong(keys, among + {key}) == CountAmong(keys, among) + Count(keys, key)
  {
    if keys != [] {
      AmongOneMore(keys[..|keys| - 1], among, key);
    }
  }

  lemma {:induction false} AmongNone(keys: seq<string>)
    ensures CountAmong(keys, {}) == 0
  {
    if keys != [] {
      AmongNone(keys[..|keys| - 1]);
    }
  }

  function GrowthOf(first: seq<string>, last: seq<string>, key: string): int {
    Count(last, key) - Count(first, key)
  }

  /** The buckets are exactly the keys that grew, once each, with how much. */
  ghost predicate ListsGrowth(buckets: seq<GrowthBucket>, first: seq<string>, last: seq<string>, keys: set<string>) {
    && (forall i, j :: 0 <= i < j < |buckets| ==> buckets[i].key != buckets[j].key)
    && forall b :: b in buckets <==> b.key in keys && b.growth == GrowthOf(first, last, b.key) && b.growth > 0
  }

  lemma ListsGrowthPermuted(a: seq<GrowthBucket>, b: seq<GrowthBucket>, first: seq<string>, last: seq<string>,
                            keys: set<string>)
    requires ListsGrowth(a, first, last, keys) && multiset(a) == multiset(b)
    ensures ListsGrowth(b, first, last, keys)
  {
    Sorting.SameElements(a, b);
    forall i, j | 0 <= i < j < |b| ensures b[i].key != b[j].key {
      Sorting.KeysStayDistinct((g: GrowthBucket) => g.key, a, b, i, j);
    }
  }

  method UnsortedBuckets(first: seq<FdEntry>, last: seq<FdEntry>) returns (buckets: seq<GrowthBucket>)
    ensures ListsGrowth(buckets, KeysOf(first), KeysOf(last), set key | key in KeysOf(last))
    ensures SumGrowth(buckets) >= |last| - |first|
  {
    var before := BucketCounts(first);
    var after := BucketCounts(last);
    buckets := CollectGrowth(before, after, KeysOf(first), KeysOf(last));
  }

  ghost predicate CountsOf(counts: map<string, int>, keys: seq<string>) {
    forall key :: (key in counts <==> key in keys) && (key in counts ==> counts[key] == Count(keys, key))
  }

  /** The buckets gathered so far account for the growth of the keys visited so far. */
  ghost predicate Accounts(buckets: seq<GrowthBucket>, first: seq<string>, last: seq<string>, done: set<string>) {
    && ListsGrowth(buckets, first, last, done)
    && SumGrowth(buckets) >= CountAmong(last, done) - CountAmong(first, done)
  }

  method CollectGrowth(before: map<string, int>, after: map<string, int>, ghost first: seq<string>, ghost last: seq<string>)
    returns (buckets: seq<GrowthBucket>)
    requires CountsOf(before, first) && CountsOf(after, last)
    ensures ListsGrowth(buckets, first, last, set key | key in last)
    ensures SumGrowth(buckets) >= |last| - |first|
  {
    var rest := after.Keys;
    buckets := [];
    ghost var done: set<string> := {};
    AccountsNothing(first, last);
    while rest != {}
      invariant rest + done == after.Keys && rest !! done
      invariant Accounts(buckets, first, last, done)
      decreases rest
    {
      var key :| key in rest;
      var growth: int := after[key] - if key in before then before[key] else 0;
      CountPositive(first, key);
      AccountsOneMore(buckets, first, last, done, key);
      if growth > 0 {
        buckets := buckets + [GrowthBucket(key, growth)];
      }
      rest, done := rest - {key}, done + {key};
    }
    AccountsAll(buckets, first, last, done);
  }

  lemma AccountsNothing(first: seq<string>, last: seq<string>)
    ensures Accounts([], first, last, {})
  {
    AmongNone(first);
    AmongNone(last);
  }

  lemma AccountsAll(buckets: seq<GrowthBucket>, first: seq<string>, last: seq<string>, done: set<string>)
    requires Accounts(buckets, first, last, done) && forall key :: key in done <==> key in last
    ensures ListsGrowth(buckets, first, last, set key | key in last) && SumGrowth(buckets) >= |last| - |first|
  {
    assert done == set key | key in last;
    AmongAll(first, done);
    AmongAll(last, done);
  }

  lemma AccountsOneMore(buckets: seq<GrowthBucket>, first: seq<string>, last: seq<string>, done: set<string>, key: string)
    requires Accounts(buckets, first, last, done) && key !in done
    ensures var growth := GrowthOf(first, last, key);
            Accounts(if growth > 0 then buckets + [GrowthBucket(key, growth)] else buckets, first, last, done + {key})
  {
    ListsOneMore(buckets, first, last, done, key);
    SumAppend(buckets, GrowthBucket(key, GrowthOf(first, last, key)));
    AmongOneMore(first, done, key);
    AmongOneMore(last, done, key);
  }

  lemma ListsOneMore(buckets: seq<GrowthBucket>, first: seq<string>, last: seq<string>, keys: set<string>, key: string)
    requires ListsGrowth(buckets, first, last, keys) && key !in keys
    ensures var growth := GrowthOf(first, last, key);
            ListsGrowth(if growth > 0 then buckets + [GrowthBucket(key, growth)] else buckets, first, last, keys + {key})
  {
    assert forall i :: 0 <= i < |buckets| ==> buckets[i] in buckets && buckets[i].key in keys;
  }

  method GrowthBuckets(first: seq<FdEntry>, last: seq<FdEntry>) returns (buckets: seq<GrowthBucket>)
    ensures Sorting.SortedBy(GrowthLess(), buckets)
    ensures ListsGrowth(buckets, KeysOf(first), KeysOf(last), set key | key in KeysOf(last))
    ensures SumGrowth(buckets) >= |last| - |first|
  {
    var unsorted := UnsortedBuckets(first, last);
    buckets := Sorting.InsertSort(GrowthLess(), unsorted);
    Sorting.SortPermutes(GrowthLess(), unsorted);
    ListsGrowthPermuted(unsorted, buckets, KeysOf(first), KeysOf(last), set key | key in KeysOf(last));
    SortKeepsSum(unsorted);
    GrowthLessTotal();
    Sorting.SortSorts(GrowthLess(), unsorted);
  }

  // ---------------------------------------------------------------- the report

  datatype LeakReport = LeakReport(
    sampleCount: nat, monotonicGrowth: bool, totalGrowth: int, fileGrowth: int, socketGrowth: int, pipeGrowth: int,
    closeWaitCount: nat, newTargets: seq<string>, growthBuckets: seq<GrowthBucket>, suspected: bool, verdict: Verdict)

  /** The four sentences the report can end with. */
  datatype Verdict = SuspectedConnectionLeak | SuspectedFdLeak | GrewUnevenly | NoLeak

  function CountType(entries: seq<FdEntry>, t: FdType): nat {
    if entries == [] then 0
    else
      var n := |entries| - 1;
      CountType(entries[..n], t) + if entries[n].fdType == t then 1 else 0
  }

  function CountCloseWait(entries: seq<FdEntry>): nat {
    if entries == [] then 0
    else
      var n := |entries| - 1;
      CountCloseWait(entries[..n])
      + if entries[n].socket.Some? && entries[n].socket.value.state == "CLOSE_WAIT" then 1 else 0
  }

  ghost function Positions(n: nat, p: int -> bool): set<int> {
    set i | 0 <= i < n && p(i)
  }

  lemma OneMorePosition(n: nat, p: int -> bool)
    ensures |Positions(n + 1, p)| == |Positions(n, p)| + if p(n) then 1 else 0
  {
    assert Positions(n + 1, p) == if p(n) then Positions(n, p) + {n} else Positions(n, p);
  }

  /** As many as there are entries of the type. */
  lemma {:induction false} CountsType(entries: seq<FdEntry>, n: nat, t: FdType)
    requires n <= |entries|
    ensures CountType(entries[..n], t) == |Positions(n, i => 0 <= i < |entries| && entries[i].fdType == t)|
  {
    var p := (i: int) => 0 <= i < |entries| && entries[i].fdType == t;
    if n == 0 {
      assert Positions(0, p) == {};
    } else {
      CountsType(entries, n - 1, t);
      OneMorePosition(n - 1, p);
      assert entries[..n][..n - 1] == entries[..n - 1];
    }
  }

  predicate WaitsToClose(e: FdEntry) {
    e.socket.Some? && e.socket.value.state == "CLOSE_WAIT"
  }

  /** As many as there are sockets waiting to be closed. */
  lemma {:induction false} CountsWaiting(entries: seq<FdEntry>, n: nat)
    requires n <= |entries|
    ensures CountCloseWait(entries[..n]) == |Positions(n, i => 0 <= i < |entries| && WaitsToClose(entries[i]))|
  {
    var p := (i: int) => 0 <= i < |entries| && WaitsToClose(entries[i]);
    if n == 0 {
      assert Positions(0, p) == {};
    } else {
      CountsWaiting(entries, n - 1);
      OneMorePosition(n - 1, p);
      assert entries[..n][..n - 1] == entries[..n - 1];
    }
  }

  function At(counts: map<FdType, int>, t: FdType): int {
    if t in counts then counts[t] else 0
  }

  method CountByType(entries: seq<FdEntry>) returns (counts: map<FdType, int>)
    ensures forall t :: At(counts, t) == CountType(entries, t)
  {
    counts := map[];
    for i := 0 to |entries|
      invariant forall t :: At(counts, t) == CountType(entries[..i], t)
    {
      assert entries[..i + 1][..i] == entries[..i];
      var t := entries[i].fdType;
      counts := counts[t := At(counts, t) + 1];
    }
    assert entries[..|entries|] == entries;
  }

  method CountWaiting(entries: seq<FdEntry>) returns (count: nat)
    ensures count == CountCloseWait(entries)
  {
    count := 0;
    for i := 0 to |entries|
      invariant count == CountCloseWait(entries[..i])
    {
      assert entries[..i + 1][..i] == entries[..i];
      if entries[i].socket.Some? && entries[i].socket.value.state == "CLOSE_WAIT" {
        count := count + 1;
      }
    }
    assert entries[..|entries|] == entries;
  }

  /** Sockets grew and some of them wait to be closed. */
  predicate Waiting(r: LeakReport) {
    r.socketGrowth > 0 && r.closeWaitCount > 0
  }

  method IsMonotonicNonDecreasing(values: seq<nat>) returns (yes: bool)
    ensures yes <==> forall i, j :: 0 <= i < j < |values| ==> values[i] <= values[j]
  {
    var i := 1;
    while i < |values|
      invariant 1 <= i
      invariant forall p, q :: 0 <= p < q < i && q < |values| ==> values[p] <= values[q]
    {
      if values[i] < values[i - 1] {
        return false;
      }
      i := i + 1;
    }
    yes := true;
  }

  lemma NewTargetsGrew(added: seq<string>, buckets: seq<GrowthBucket>, first: seq<string>, last: seq<string>)
    requires forall key :: key in added <==> key in last && key !in first
    requires ListsGrowth(buckets, first, last, set key | key in last)
    ensures forall key :: key in added ==> GrowthBucket(key, Count(last, key)) in buckets
  {
    forall key | key in added ensures GrowthBucket(key, Count(last, key)) in buckets {
      CountPositive(first, key);
      CountPositive(last, key);
    }
  }

  /** The sizes of the samples never fall. */
  ghost predicate NeverFall(samples: seq<seq<FdEntry>>) {
    forall i, j :: 0 <= i < j < |samples| ==> |samples[i]| <= |samples[j]|
  }

  /** What the report says of growth. */
  ghost predicate GrowthReported(r: LeakReport, samples: seq<seq<FdEntry>>)
    requires samples != []
  {
    var first, last := samples[0], samples[|samples| - 1];
    && r.sampleCount == |samples| && r.totalGrowth == |last| - |first|
    && (r.monotonicGrowth <==> NeverFall(samples))
    && (r.suspected <==> r.totalGrowth > 0 && r.monotonicGrowth)
    && CountType(first, File) + r.fileGrowth == CountType(last, File)
    && CountType(first, Socket) + r.socketGrowth == CountType(last, Socket)
    && CountType(first, Pipe) + r.pipeGrowth == CountType(last, Pipe)
    && r.closeWaitCount == CountCloseWait(last)
  }

  /** Which keys it names: enough to account for the growth, and every new target. */
  ghost predicate Attributed(r: LeakReport, first: seq<FdEntry>, last: seq<FdEntry>) {
    && ListsGrowth(r.growthBuckets, KeysOf(first), KeysOf(last), set key | key in KeysOf(last))
    && Sorting.SortedBy(GrowthLess(), r.growthBuckets)
    && SumGrowth(r.growthBuckets) >= |last| - |first|
    && r.newTargets == Added(KeysOf(first), KeysOf(last))
    && forall key :: key in r.newTargets ==> GrowthBucket(key, Count(KeysOf(last), key)) in r.growthBuckets
  }

  /** When each verdict is given. */
  predicate VerdictFits(r: LeakReport) {
    && (r.verdict == SuspectedConnectionLeak <==> Waiting(r))
    && (r.verdict == SuspectedFdLeak <==> !Waiting(r) && r.suspected)
    && (r.verdict == NoLeak <==> !Waiting(r) && r.totalGrowth <= 0)
  }

  /**
   The report made of the samples. A suspected leak always names at least one key that grew, and
   every new target is listed with the number of times it appears.
   */
  method CheckLeak(seconds: int, samples: seq<seq<FdEntry>>) returns (report: Option<LeakReport>)
    requires seconds > 0 ==> |samples| == seconds + 1
    ensures report.None? <==> seconds <= 0
    ensures report.Some? ==>
              && GrowthReported(report.value, samples)
              && Attributed(report.value, samples[0], samples[|samples| - 1])
              && VerdictFits(report.value)
              && (report.value.suspected ==> report.value.growthBuckets != [])
  {
    if seconds <= 0 {
      return None;
    }
    var first, last := samples[0], samples[|samples| - 1];
    var r := MeasureGrowth(samples);
    var added, buckets := Attribute(first, last);
    r := r.(newTargets := added, growthBuckets := buckets);
    r := r.(verdict := if r.socketGrowth > 0 && r.closeWaitCount > 0 then SuspectedConnectionLeak
                       else if r.suspected then SuspectedFdLeak
                       else if r.totalGrowth > 0 then GrewUnevenly
                       else NoLeak);
    report := Some(r);
  }

  method MeasureGrowth(samples: seq<seq<FdEntry>>) returns (r: LeakReport)
    requires samples != []
    ensures GrowthReported(r, samples)
  {
    var first, last := samples[0], samples[|samples| - 1];
    var totals: seq<nat> := seq(|samples|, i requires 0 <= i < |samples| => |samples[i]|);
    var monotonic := IsMonotonicNonDecreasing(totals);
    assert forall i :: 0 <= i < |samples| ==> totals[i] == |samples[i]|;
    var totalGrowth: int := |last| - |first|;
    var firstCounts := CountByType(first);
    var lastCounts := CountByType(last);
    var closeWait := CountWaiting(last);
    r := LeakReport(|samples|, monotonic, totalGrowth,
                    At(lastCounts, File) - At(firstCounts, File),
                    At(lastCounts, Socket) - At(firstCounts, Socket),
                    At(lastCounts, Pipe) - At(firstCounts, Pipe),
                    closeWait, [], [], totalGrowth > 0 && monotonic, NoLeak);
  }

  method Attribute(first: seq<FdEntry>, last: seq<FdEntry>) returns (added: seq<string>, buckets: seq<GrowthBucket>)
    ensures added == Added(KeysOf(first), KeysOf(last))
    ensures ListsGrowth(buckets, KeysOf(first), KeysOf(last), set key | key in KeysOf(last))
    ensures Sorting.SortedBy(GrowthLess(), buckets) && SumGrowth(buckets) >= |last| - |first|
    ensures forall key :: key in added ==> GrowthBucket(key, Count(KeysOf(last), key)) in buckets
  {
    added := NewTargets(first, last);
    buckets := GrowthBuckets(first, last);
    NewTargetsGrew(added, buckets, KeysOf(first), KeysOf(last));
  }
}
