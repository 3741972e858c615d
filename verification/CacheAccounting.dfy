/**
 * Accounting, eviction order and capacity of the static file cache under every
 * interleaving of concurrent `get` calls.
 */
module CacheAccounting {
  import opened Basics
  import opened CacheEviction
  import opened CacheProtocol

  // ---------------------------------------------------------------- one shard and its lock holder

  /** How far the shard's `bytes` field is from the sizes of its entries, in the middle of an update. */
  function ShardSkew(l: Lock): int {
    if !l.Exclusive? || l.section.Revalidation? then 0 else
      match l.section.stage
      case GlobalSub(prior) => -prior
      case Stamp(replaced) => if replaced.Some? then -replaced.value else 0
      case Store(replaced, _) => if replaced.Some? then -replaced.value else 0
      case ShardAdd(_) => 0 - l.section.file.size
      case EvictBytes(_, _, removed) => -removed
      case EvictEntries(_, _, removed) => -removed
      case EvictErase(_, _, removed) => -removed
      case _ => 0
  }

  /** What the lock holder of a shard has added to `bytes_` but not yet to the entries, or the other way round. */
  function InFlightBytes(l: Lock): int {
    if !l.Exclusive? || l.section.Revalidation? then 0 else
      match l.section.stage
      case Stamp(replaced) => if replaced.Some? then -replaced.value else 0
      case Store(replaced, _) => if replaced.Some? then -replaced.value else 0
      case ShardAdd(_) => 0 - l.section.file.size
      case GlobalAdd(_) => 0 - l.section.file.size
      case EvictEntries(_, _, removed) => -removed
      case EvictErase(_, _, removed) => -removed
      case _ => 0
  }

  /** The same for `entries_`. */
  function InFlightEntries(l: Lock): int {
    if !l.Exclusive? || l.section.Revalidation? then 0 else
      match l.section.stage
      case Stamp(None) => 1
      case Store(None, _) => 1
      case EvictErase(_, _, _) => -1
      case _ => 0
  }

  ghost predicate Capped(c: Config, m: Entries)
    requires ValidConfig(c)
  {
    Fits(m, ShardMaxEntries(c), ShardMaxBytes(c))
  }

  /** The shard still is a newest-first run of what the insert produced and has lost no fitting one. */
  ghost predicate Trimmed(c: Config, full: Entries, key: string, m: Entries)
    requires ValidConfig(c)
  {
    && key in full
    && DistinctStamps(full)
    && (forall k :: k in full && k != key ==> full[k].lastAccess < full[key].lastAccess)
    && NewestRun(full, m)
    && CoversFittingRuns(full, m, ShardMaxEntries(c), ShardMaxBytes(c))
  }

  ghost predicate Untouched(c: Config, i: Section, m: Entries)
    requires ValidConfig(c) && i.Insertion?
  {
    m == i.at && Capped(c, m)
  }

  ghost predicate ReplacedIs(i: Section, m: Entries, replaced: Option<int>)
    requires i.Insertion?
  {
    replaced == if i.call.key in m then Some(m[i.call.key].file.size) else None
  }

  ghost predicate Evicting(c: Config, full: Entries, key: string, m: Entries, v: string, removed: int)
    requires ValidConfig(c)
  {
    Trimmed(c, full, key, m) && !Capped(c, m) && IsOldest(m, v) && removed == m[v].file.size
  }

  /** What the lock holder knows about the entries it works on. */
  ghost predicate InsertionKnows(c: Config, m: Entries, i: Section, clock: nat)
    requires ValidConfig(c) && i.Insertion?
  {
    match i.stage
    case Find => Untouched(c, i, m)
    case GlobalSub(prior) => Untouched(c, i, m) && ReplacedIs(i, m, Some(prior))
    case Stamp(replaced) => Untouched(c, i, m) && ReplacedIs(i, m, replaced)
    case Store(replaced, stamp) =>
      && Untouched(c, i, m) && ReplacedIs(i, m, replaced)
      && stamp <= clock && forall k :: k in m ==> m[k].lastAccess < stamp
    case ShardAdd(stamp) => m == Full(i, stamp) && Trimmed(c, Full(i, stamp), i.call.key, m)
    case GlobalAdd(stamp) => m == Full(i, stamp) && Trimmed(c, Full(i, stamp), i.call.key, m)
    case EvictTest(stamp) => Trimmed(c, Full(i, stamp), i.call.key, m)
    case EvictBytes(stamp, v, removed) => Evicting(c, Full(i, stamp), i.call.key, m, v, removed)
    case EvictEntries(stamp, v, removed) => Evicting(c, Full(i, stamp), i.call.key, m, v, removed)
    case EvictErase(stamp, v, removed) => Evicting(c, Full(i, stamp), i.call.key, m, v, removed)
    case EvictCount(stamp) => Trimmed(c, Full(i, stamp), i.call.key, m)
  }

  ghost predicate StampsOk(m: Entries, clock: nat) {
    DistinctStamps(m) && forall k :: k in m ==> m[k].lastAccess <= clock
  }

  /** A shard whose insert section is free is within its budgets; a held one is as its holder knows. */
  ghost predicate ShardOk(c: Config, m: Entries, sum: int, l: Lock, clock: nat)
    requires ValidConfig(c)
  {
    && StampsOk(m, clock)
    && sum == Bytes(m) + ShardSkew(l)
    && (!Stores(c) ==> m == map[])
    && (if l.Exclusive? && l.section.Insertion?
        then Stores(c) && InsertionKnows(c, m, l.section, clock)
        else Capped(c, m))
  }

  function LockAfter(t: nat, a: After): Lock {
    if a.Stay? then Exclusive(t, a.section) else Free
  }

  /** The step of a lock holder, followed on its own shard: what it promises. */
  ghost predicate StepBalances(c: Config, m: Entries, l: Lock, clock: nat, e: Effect)
    requires ValidConfig(c) && l.Exclusive?
  {
    var l' := LockAfter(l.t, e.after);
    && ShardOk(c, e.held, e.sum, l', clock + e.clock)
    && Bytes(e.held) + InFlightBytes(l') == Bytes(m) + InFlightBytes(l) + e.bytes
    && |e.held| + InFlightEntries(l') == |m| + InFlightEntries(l) + e.entries
  }

  lemma RevalidationKeeps(c: Config, m: Entries, key: string, validatedAt: int, clock: nat)
    requires ValidConfig(c) && key in m && StampsOk(m, clock)
    ensures var m' := m[key := m[key].(validatedAt := validatedAt)];
            StampsOk(m', clock) && Bytes(m') == Bytes(m) && |m'| == |m|
  {
    var m' := m[key := m[key].(validatedAt := validatedAt)];
    BytesSameSize(m, key, m[key].(validatedAt := validatedAt));
    assert m'.Keys == m.Keys;
  }

  lemma RevalidationBalances(c: Config, m: Entries, sum: int, l: Lock, clock: nat)
    requires ValidConfig(c) && l.Exclusive? && l.section.Revalidation? && ShardOk(c, m, sum, l, clock)
    ensures StepBalances(c, m, l, clock, RevalidationStep(m, sum, l.section))
  {
    hide StampsOk, Bytes;
    if l.section.call.key in m {
      RevalidationKeeps(c, m, l.section.call.key, l.section.call.now, clock);
    }
  }

  lemma StoreTrims(c: Config, i: Section, stamp: nat, clock: nat)
    requires ValidConfig(c) && i.Insertion? && StampsOk(i.at, clock) && stamp <= clock
    requires forall k :: k in i.at ==> i.at[k].lastAccess < stamp
    ensures Trimmed(c, Full(i, stamp), i.call.key, Full(i, stamp)) && StampsOk(Full(i, stamp), clock)
  {
    hide CoversFittingRuns, NewestRun;
    WholeMapIsNewestRun(Full(i, stamp), ShardMaxEntries(c), ShardMaxBytes(c));
  }

  lemma StoreCounts(m: Entries, key: string, e: Entry)
    ensures |m[key := e]| == if key in m then |m| else |m| + 1
  {
    assert m[key := e].Keys == m.Keys + {key};
    assert key in m ==> m[key := e].Keys == m.Keys;
  }

  lemma StoreBalances(c: Config, m: Entries, sum: int, l: Lock, clock: nat)
    requires ValidConfig(c) && l.Exclusive? && l.section.Insertion? && l.section.stage.Store?
    requires ShardOk(c, m, sum, l, clock)
    ensures StepBalances(c, m, l, clock, InsertionStep(c, m, sum, clock, l.section))
  {
    hide StampsOk, Trimmed, Fits, Bytes;
    var i := l.section;
    var stamp := i.stage.stamp;
    StoreTrims(c, i, stamp, clock);
    BytesStore(m, i.call.key, NewEntry(i, stamp));
    StoreCounts(m, i.call.key, NewEntry(i, stamp));
  }

  lemma EraseBalances(c: Config, m: Entries, sum: int, l: Lock, clock: nat)
    requires ValidConfig(c) && l.Exclusive? && l.section.Insertion? && l.section.stage.EvictErase?
    requires ShardOk(c, m, sum, l, clock)
    ensures StepBalances(c, m, l, clock, InsertionStep(c, m, sum, clock, l.section))
  {
    hide CoversFittingRuns, NewestRun;
    var i := l.section;
    var v := i.stage.victim;
    BytesRemove(m, v);
    RemoveKeepsStamps(m, v);
    EvictOldestKeepsRun(Full(i, i.stage.stamp), m, v, ShardMaxEntries(c), ShardMaxBytes(c));
  }

  lemma LookupBalances(c: Config, m: Entries, sum: int, l: Lock, clock: nat)
    requires ValidConfig(c) && l.Exclusive? && l.section.Insertion? && ShardOk(c, m, sum, l, clock)
    requires var g := l.section.stage; g.Find? || g.GlobalSub?
    ensures StepBalances(c, m, l, clock, InsertionStep(c, m, sum, clock, l.section))
  {
    hide StampsOk, Trimmed, Fits, Bytes;
  }

  lemma StampBalances(c: Config, m: Entries, sum: int, l: Lock, clock: nat)
    requires ValidConfig(c) && l.Exclusive? && l.section.Insertion? && ShardOk(c, m, sum, l, clock)
    requires var g := l.section.stage; g.Stamp?
    ensures StepBalances(c, m, l, clock, InsertionStep(c, m, sum, clock, l.section))
  {
    hide DistinctStamps, Trimmed, Fits, Bytes;
  }

  lemma AddBalances(c: Config, m: Entries, sum: int, l: Lock, clock: nat)
    requires ValidConfig(c) && l.Exclusive? && l.section.Insertion? && ShardOk(c, m, sum, l, clock)
    requires var g := l.section.stage; g.ShardAdd? || g.GlobalAdd?
    ensures StepBalances(c, m, l, clock, InsertionStep(c, m, sum, clock, l.section))
  {
    hide StampsOk, Trimmed, Fits, Bytes;
  }

  lemma EvictTestBalances(c: Config, m: Entries, sum: int, l: Lock, clock: nat)
    requires ValidConfig(c) && l.Exclusive? && l.section.Insertion? && ShardOk(c, m, sum, l, clock)
    requires var g := l.section.stage; g.EvictTest?
    ensures StepBalances(c, m, l, clock, InsertionStep(c, m, sum, clock, l.section))
  {
    hide StampsOk, Trimmed;
    assert m == map[] ==> Bytes(m) == 0;
  }

  lemma EvictBalances(c: Config, m: Entries, sum: int, l: Lock, clock: nat)
    requires ValidConfig(c) && l.Exclusive? && l.section.Insertion? && ShardOk(c, m, sum, l, clock)
    requires var g := l.section.stage; g.EvictBytes? || g.EvictEntries? || g.EvictCount?
    ensures StepBalances(c, m, l, clock, InsertionStep(c, m, sum, clock, l.section))
  {
    hide StampsOk, Trimmed, Fits, Bytes;
  }

  lemma SectionBalances(c: Config, m: Entries, sum: int, l: Lock, clock: nat)
    requires ValidConfig(c) && l.Exclusive? && ShardOk(c, m, sum, l, clock)
    ensures StepBalances(c, m, l, clock, SectionStep(c, m, sum, clock, l.section))
  {
    hide StepBalances, ShardOk, InsertionStep, RevalidationStep;
    if l.section.Revalidation? {
      RevalidationBalances(c, m, sum, l, clock);
    } else {
      match l.section.stage
      case Find => LookupBalances(c, m, sum, l, clock);
      case GlobalSub(_) => LookupBalances(c, m, sum, l, clock);
      case Stamp(_) => StampBalances(c, m, sum, l, clock);
      case Store(_, _) => StoreBalances(c, m, sum, l, clock);
      case ShardAdd(_) => AddBalances(c, m, sum, l, clock);
      case GlobalAdd(_) => AddBalances(c, m, sum, l, clock);
      case EvictTest(_) => EvictTestBalances(c, m, sum, l, clock);
      case EvictBytes(_, _, _) => EvictBalances(c, m, sum, l, clock);
      case EvictEntries(_, _, _) => EvictBalances(c, m, sum, l, clock);
      case EvictErase(_, _, _) => EraseBalances(c, m, sum, l, clock);
      case EvictCount(_) => EvictBalances(c, m, sum, l, clock);
    }
  }

  /** The in-flight deltas never exceed what the shard holds, so no counter can underflow. */
  lemma ContributionNonNegative(c: Config, m: Entries, sum: int, l: Lock, clock: nat)
    requires ValidConfig(c) && ShardOk(c, m, sum, l, clock)
    ensures sum >= 0
    ensures Bytes(m) + InFlightBytes(l) >= 0
    ensures |m| + InFlightEntries(l) >= 0
  {
    hide Bytes, Trimmed, DistinctStamps, Fits;
    if l.Exclusive? && l.section.Insertion? {
      var key := l.section.call.key;
      if key in m { BytesRemove(m, key); }
      var g := l.section.stage;
      if g.EvictBytes? || g.EvictEntries? || g.EvictErase? { BytesRemove(m, g.victim); }
    }
  }

  lemma ClockGrows(c: Config, m: Entries, sum: int, l: Lock, clock: nat, clock': nat)
    requires ValidConfig(c) && ShardOk(c, m, sum, l, clock) && clock <= clock'
    ensures ShardOk(c, m, sum, l, clock')
  {
    hide DistinctStamps, Trimmed, Fits, Bytes;
  }

  // ---------------------------------------------------------------- all shards

  /** Bytes of all cached files plus the in-flight deltas of the threads inside an insert section. */
  ghost function TotalBytes(shards: seq<Shard>): int {
    if shards == [] then 0 else
      TotalBytes(shards[1..]) + Bytes(shards[0].entries) + InFlightBytes(shards[0].lock)
  }

  ghost function TotalEntries(shards: seq<Shard>): int {
    if shards == [] then 0 else
      TotalEntries(shards[1..]) + |shards[0].entries| + InFlightEntries(shards[0].lock)
  }

  ghost predicate ShardsOk(c: Config, shards: seq<Shard>, clock: nat)
    requires ValidConfig(c)
  {
    forall i :: 0 <= i < |shards| ==> ShardOk(c, shards[i].entries, shards[i].bytes, shards[i].lock, clock)
  }

  ghost predicate Inv(c: Config, s: State) {
    && WellFormed(c, s)
    && ShardsOk(c, s.shards, s.clock)
    && s.bytes == TotalBytes(s.shards)
    && s.entries == TotalEntries(s.shards)
    && (forall t :: t in s.threads && s.threads[t].Insert? ==> Stores(c))
  }

  /** Changing one shard changes the totals by what that shard's own contribution changed. */
  lemma {:induction false} TotalsFollowOneShard(shards: seq<Shard>, i: nat, sh: Shard)
    requires i < |shards|
    ensures TotalBytes(shards[i := sh]) == TotalBytes(shards)
              - Bytes(shards[i].entries) - InFlightBytes(shards[i].lock)
              + Bytes(sh.entries) + InFlightBytes(sh.lock)
    ensures TotalEntries(shards[i := sh]) == TotalEntries(shards)
              - |shards[i].entries| - InFlightEntries(shards[i].lock)
              + |sh.entries| + InFlightEntries(sh.lock)
  {
    hide Bytes, InFlightBytes, InFlightEntries;
    if i == 0 {
      assert shards[i := sh][1..] == shards[1..];
    } else {
      TotalsFollowOneShard(shards[1..], i - 1, sh);
      assert shards[i := sh][1..] == shards[1..][i - 1 := sh];
    }
  }

  lemma {:induction false} TotalsNonNegative(c: Config, shards: seq<Shard>, clock: nat)
    requires ValidConfig(c) && ShardsOk(c, shards, clock)
    ensures TotalBytes(shards) >= 0 && TotalEntries(shards) >= 0
  {
    hide ShardOk, Bytes, InFlightBytes, InFlightEntries;
    if shards != [] {
      TotalsNonNegative(c, shards[1..], clock);
      ContributionNonNegative(c, shards[0].entries, shards[0].bytes, shards[0].lock, clock);
    }
  }

  lemma {:induction false} InitialTotals(shards: seq<Shard>)
    requires forall i :: 0 <= i < |shards| ==> shards[i] == Shard(map[], 0, Free)
    ensures TotalBytes(shards) == 0 && TotalEntries(shards) == 0
  {
    if shards != [] { InitialTotals(shards[1..]); }
  }

  lemma InitialInv(c: Config, s: State)
    requires Initial(c, s)
    ensures Inv(c, s)
  {
    InitialTotals(s.shards);
    assert Bytes(map[]) == 0;
  }

  /** Replacing one shard by one that is as good, with the clock possibly advanced. */
  lemma OneShardKeepsOk(c: Config, shards: seq<Shard>, i: nat, sh: Shard, clock: nat, clock': nat)
    requires ValidConfig(c) && ShardsOk(c, shards, clock) && i < |shards| && clock <= clock'
    requires ShardOk(c, sh.entries, sh.bytes, sh.lock, clock')
    ensures ShardsOk(c, shards[i := sh], clock')
  {
    hide ShardOk;
    forall j | 0 <= j < |shards| && j != i
      ensures ShardOk(c, shards[j].entries, shards[j].bytes, shards[j].lock, clock')
    {
      ClockGrows(c, shards[j].entries, shards[j].bytes, shards[j].lock, clock, clock');
    }
  }

  /** A thread takes a lock, or drops the shared one: nothing stored changes. */
  lemma LockingKeepsOk(c: Config, sh: Shard, lock: Lock, clock: nat)
    requires ValidConfig(c) && ShardOk(c, sh.entries, sh.bytes, sh.lock, clock)
    requires !sh.lock.Exclusive?
    requires lock.Exclusive? && lock.section.Insertion? ==>
               Stores(c) && lock.section.stage == Find && lock.section.at == sh.entries
    ensures ShardOk(c, sh.entries, sh.bytes, lock, clock)
    ensures InFlightBytes(lock) == InFlightBytes(sh.lock) == 0
    ensures InFlightEntries(lock) == InFlightEntries(sh.lock) == 0
  {
    hide StampsOk, Fits, Bytes;
  }

  lemma MoveKeepsInv(c: Config, s: State, t: nat)
    requires Inv(c, s) && Enabled(c, s, Move(t))
    ensures Inv(c, Moved(c, s, t))
  {
    hide ShardsOk, ShardOk, TotalBytes, TotalEntries;
    var p := s.threads[t];
    var i := ShardOf(c.hash, c.shards, p.call.key);
    var sh := s.shards[i];
    assert ShardOk(c, sh.entries, sh.bytes, sh.lock, s.clock) by { ShardIsOk(c, s.shards, s.clock, i); }
    var s' := Moved(c, s, t);
    if s'.shards != s.shards {
      var lock := s'.shards[i].lock;
      LockingKeepsOk(c, sh, lock, s.clock);
      OneShardKeepsOk(c, s.shards, i, sh.(lock := lock), s.clock, s.clock);
      TotalsFollowOneShard(s.shards, i, sh.(lock := lock));
    }
  }

  lemma ShardIsOk(c: Config, shards: seq<Shard>, clock: nat, i: nat)
    requires ValidConfig(c) && ShardsOk(c, shards, clock) && i < |shards|
    ensures ShardOk(c, shards[i].entries, shards[i].bytes, shards[i].lock, clock)
  {
  }

  lemma HolderMoveKeepsInv(c: Config, s: State, i: nat)
    requires Inv(c, s) && Enabled(c, s, MoveHolder(i))
    ensures Inv(c, HolderMoved(c, s, i))
  {
    hide ShardsOk, ShardOk, TotalBytes, TotalEntries, InFlightBytes, InFlightEntries, Bytes;
    var sh := s.shards[i];
    ShardIsOk(c, s.shards, s.clock, i);
    SectionBalances(c, sh.entries, sh.bytes, sh.lock, s.clock);
    var e := SectionStep(c, sh.entries, sh.bytes, s.clock, sh.lock.section);
    var sh' := Shard(e.held, e.sum, LockAfter(sh.lock.t, e.after));
    OneShardKeepsOk(c, s.shards, i, sh', s.clock, s.clock + e.clock);
    TotalsFollowOneShard(s.shards, i, sh');
    assert e.after.Leave? ==> !e.after.pc.Insert?;
  }

  lemma StepKeepsInv(c: Config, s: State, l: Label)
    requires Inv(c, s) && Enabled(c, s, l)
    ensures Inv(c, Apply(c, s, l))
  {
    hide ShardsOk, TotalBytes, TotalEntries, Moved, HolderMoved;
    match l
    case Move(t) => MoveKeepsInv(c, s, t);
    case MoveHolder(i) => HolderMoveKeepsInv(c, s, i);
    case _ =>
  }

  lemma {:induction false} RunKeepsInv(c: Config, run: seq<State>, labels: seq<Label>, k: nat)
    requires IsRun(c, run, labels) && k < |run|
    ensures Inv(c, run[k])
  {
    hide Inv, Apply, Initial;
    if k == 0 {
      InitialInv(c, run[0]);
    } else {
      RunKeepsInv(c, run, labels, k - 1);
      StepKeepsInv(c, run[k - 1], labels[k - 1]);
    }
  }

  // ---------------------------------------------------------------- main results

  /**
   * Accounting, for every run and every reachable state: the atomic counters are the
   * totals over the shards plus exactly what the insert sections have in flight, a shard
   * whose insert section is free has an exact byte sum, and nothing ever underflows.
   */
  lemma AccountingHolds(c: Config, run: seq<State>, labels: seq<Label>, k: nat)
    requires IsRun(c, run, labels) && k < |run|
    ensures run[k].bytes == TotalBytes(run[k].shards) && run[k].entries == TotalEntries(run[k].shards)
    ensures run[k].bytes >= 0 && run[k].entries >= 0
    ensures forall i :: 0 <= i < |run[k].shards| ==>
              && run[k].shards[i].bytes == Bytes(run[k].shards[i].entries) + ShardSkew(run[k].shards[i].lock)
              && run[k].shards[i].bytes >= 0
  {
    RunKeepsInv(c, run, labels, k);
    var s := run[k];
    TotalsNonNegative(c, s.shards, s.clock);
    forall i | 0 <= i < |s.shards|
      ensures s.shards[i].bytes == Bytes(s.shards[i].entries) + ShardSkew(s.shards[i].lock) && s.shards[i].bytes >= 0
    {
      var sh := s.shards[i];
      ContributionNonNegative(c, sh.entries, sh.bytes, sh.lock, s.clock);
    }
  }

  predicate Inserting(l: Lock) {
    l.Exclusive? && l.section.Insertion?
  }

  /** Whenever no thread is inside the insert section of a shard, its byte sum is exact. */
  lemma FreeShardIsExact(c: Config, run: seq<State>, labels: seq<Label>, k: nat, i: nat)
    requires IsRun(c, run, labels) && k < |run| && i < |run[k].shards| && !Inserting(run[k].shards[i].lock)
    ensures run[k].shards[i].bytes == Bytes(run[k].shards[i].entries)
    ensures Capped(c, run[k].shards[i].entries)
  {
    RunKeepsInv(c, run, labels, k);
    ShardIsOk(c, run[k].shards, run[k].clock, i);
  }

  /** A finished insert leaves exactly the longest newest-first run of what it produced. */
  lemma InsertLeavesLongestRun(c: Config, run: seq<State>, labels: seq<Label>, k: nat, i: nat)
    requires IsRun(c, run, labels) && k < |labels| && labels[k] == MoveHolder(i)
    requires i < |run[k].shards| && Inserting(run[k].shards[i].lock) && run[k].shards[i].lock.section.stage.EvictTest?
    requires !Inserting(run[k + 1].shards[i].lock)
    ensures var x := run[k].shards[i].lock.section;
            var after := run[k + 1].shards[i].entries;
            && LongestNewestRun(Full(x, x.stage.stamp), after, ShardMaxEntries(c), ShardMaxBytes(c))
            && (x.call.key in after <==> x.file.size <= ShardMaxBytes(c))
            && (x.file.size > ShardMaxBytes(c) ==> after == map[])
  {
    RunKeepsInv(c, run, labels, k);
    var sh := run[k].shards[i];
    var x := sh.lock.section;
    ShardIsOk(c, run[k].shards, run[k].clock, i);
    assert Bytes(map[]) == 0;
    NewEntryGoesOnlyIfTooBig(Full(x, x.stage.stamp), sh.entries, x.call.key, ShardMaxEntries(c), ShardMaxBytes(c));
  }

  /** Two shards that share a budget of two bytes. */
  const SMALL: Config := Config(true, 2, 2, 2, 2, 0, _ => 0)

  /** A file of two bytes is not bypassed there; inserting it empties its shard, itself included. */
  lemma LargeFileEmptiesShard(others: Entries, key: string, file: CachedFile, modified: int, now: int, stamp: nat,
                              r: Entries)
    requires file.size == 2 && forall k :: k in others ==> others[k].lastAccess < stamp
    ensures !Bypassed(SMALL, file.size) && ShardMaxBytes(SMALL) == 1
    ensures LongestNewestRun(others[key := Entry(file, modified, now, stamp)], r, ShardMaxEntries(SMALL),
                             ShardMaxBytes(SMALL))
            ==> r == map[]
  {
    hide LongestNewestRun;
    var full := others[key := Entry(file, modified, now, stamp)];
    if LongestNewestRun(full, r, ShardMaxEntries(SMALL), ShardMaxBytes(SMALL)) {
      NewEntryGoesOnlyIfTooBig(full, r, key, ShardMaxEntries(SMALL), ShardMaxBytes(SMALL));
    }
  }

  lemma {:induction false} CappedTotals(c: Config, shards: seq<Shard>, clock: nat)
    requires ValidConfig(c) && ShardsOk(c, shards, clock)
    requires forall i :: 0 <= i < |shards| ==> !Inserting(shards[i].lock)
    ensures TotalEntries(shards) <= |shards| * ShardMaxEntries(c)
    ensures TotalBytes(shards) <= |shards| * ShardMaxBytes(c)
    ensures !Stores(c) ==> TotalEntries(shards) == 0 && TotalBytes(shards) == 0
  {
    hide ShardOk, Bytes, InFlightBytes, InFlightEntries, ShardMaxEntries, ShardMaxBytes;
    if shards != [] {
      CappedTotals(c, shards[1..], clock);
      ShardIsOk(c, shards, clock, 0);
      ShardIsCapped(c, shards[0], clock);
      assert (|shards| - 1) * ShardMaxEntries(c) + ShardMaxEntries(c) == |shards| * ShardMaxEntries(c);
      assert (|shards| - 1) * ShardMaxBytes(c) + ShardMaxBytes(c) == |shards| * ShardMaxBytes(c);
    }
  }

  lemma ShardIsCapped(c: Config, sh: Shard, clock: nat)
    requires ValidConfig(c) && ShardOk(c, sh.entries, sh.bytes, sh.lock, clock) && !Inserting(sh.lock)
    ensures InFlightBytes(sh.lock) == 0 && InFlightEntries(sh.lock) == 0
    ensures |sh.entries| <= ShardMaxEntries(c) && Bytes(sh.entries) <= ShardMaxBytes(c)
    ensures !Stores(c) ==> |sh.entries| == 0 && Bytes(sh.entries) == 0
  {
    assert Bytes(map[]) == 0;
  }

  lemma RoundedUpShare(n: nat, total: nat)
    requires n >= 1 && total >= 1
    ensures n * Max(1, (total + n - 1) / n) <= total + n - 1
  {
    var q := (total + n - 1) / n;
    assert total + n - 1 == n * q + (total + n - 1) % n;
    if q < 1 {
      assert false;
    }
  }

  /** Capacity: with no insert in flight the counters exceed the configured limits by less than the shard count. */
  lemma CapacityHolds(c: Config, run: seq<State>, labels: seq<Label>, k: nat)
    requires IsRun(c, run, labels) && k < |run|
    requires forall i :: 0 <= i < |run[k].shards| ==> !Inserting(run[k].shards[i].lock)
    ensures run[k].entries <= c.maxEntries + c.shards - 1
    ensures run[k].bytes <= c.maxBytes + c.shards - 1
  {
    RunKeepsInv(c, run, labels, k);
    CappedTotals(c, run[k].shards, run[k].clock);
    if Stores(c) {
      RoundedUpShare(c.shards, c.maxEntries);
      RoundedUpShare(c.shards, c.maxBytes);
    }
  }
}
