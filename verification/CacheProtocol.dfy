/**
 * The static file cache as a transition system (src/StaticFileCache.cpp:60-125).
 * Any number of threads are inside `get`; each lock acquisition, each lock section and,
 * inside the insert section, each single update of a shard field or of an atomic
 * counter is one step.  The file system is a map that may change between any two steps.
 */
module CacheProtocol {
  import opened Basics
  import opened CacheEviction
  import Hex

  /** The constructor's arguments after normalisation; `hash` is any fixed function. */
  datatype Config = Config(
    enabled: bool, shards: nat, maxEntries: nat, maxBytes: nat, maxFileBytes: nat,
    interval: int, hash: string -> nat)

  ghost predicate ValidConfig(c: Config) {
    c.shards >= 1
  }

  /** Whether anything is ever stored. */
  predicate Stores(c: Config) {
    c.enabled && c.maxEntries != 0 && c.maxBytes != 0
  }

  predicate Bypassed(c: Config, size: nat) {
    !Stores(c) || size > c.maxFileBytes || size > c.maxBytes
  }

  function ShardMaxEntries(c: Config): nat
    requires c.shards >= 1
  {
    Max(1, (c.maxEntries + c.shards - 1) / c.shards)
  }

  function ShardMaxBytes(c: Config): nat
    requires c.shards >= 1
  {
    Max(1, (c.maxBytes + c.shards - 1) / c.shards)
  }

  /** Each shard gets the smallest positive share with which all shards together reach the whole budget. */
  lemma ShardBudgets(c: Config)
    requires c.shards >= 1
    ensures c.shards * ShardMaxEntries(c) >= c.maxEntries && c.shards * ShardMaxBytes(c) >= c.maxBytes
    ensures ShardMaxEntries(c) >= 1 && ShardMaxBytes(c) >= 1
    ensures ShardMaxEntries(c) > 1 ==> c.shards * (ShardMaxEntries(c) - 1) < c.maxEntries
    ensures ShardMaxBytes(c) > 1 ==> c.shards * (ShardMaxBytes(c) - 1) < c.maxBytes
  {
  }

  /** `fs::file_time_type::min()`, used when the second stat fails. */
  const MIN_TIME: int := -0x8000_0000_0000_0000

  function MakeEtag(size: nat, modified: int): string {
    "\"" + Hex.Text(size) + "-" + Hex.Text(modified % 0x1_0000_0000_0000_0000) + "\""
  }

  /** Lower-case hexadecimal digits, at least one, and no zero in front of others. */
  predicate IsHex(s: string) {
    && s != "" && (|s| > 1 ==> s[0] != '0')
    && forall k :: 0 <= k < |s| ==> '0' <= s[k] <= '9' || 'a' <= s[k] <= 'f'
  }

  /** Quoted, two hexadecimal numbers around a dash: the size, and the ticks of the write time modulo 2^64. */
  predicate IsEtag(etag: string, first: string, second: string, size: nat, modified: int) {
    && IsHex(first) && IsHex(second) && etag == "\"" + first + "-" + second + "\""
    && Hex.Value(first) == size && Hex.Value(second) == modified % 0x1_0000_0000_0000_0000
  }

  ghost predicate NamesVersion(etag: string, size: nat, modified: int) {
    exists first, second :: IsEtag(etag, first, second, size, modified)
  }

  lemma {:induction false} TextIsHex(n: nat)
    ensures IsHex(Hex.Text(n)) && (n > 0 ==> Hex.Text(n)[0] != '0')
  {
    if n >= 16 { TextIsHex(n / 16); }
  }

  lemma EtagNamesVersion(size: nat, modified: int)
    ensures NamesVersion(MakeEtag(size, modified), size, modified)
  {
    var ticks := modified % 0x1_0000_0000_0000_0000;
    TextIsHex(size);
    TextIsHex(ticks);
    Hex.TextRoundTrip(size);
    Hex.TextRoundTrip(ticks);
    assert IsEtag(MakeEtag(size, modified), Hex.Text(size), Hex.Text(ticks), size, modified);
  }

  // ---------------------------------------------------------------- state

  datatype Version = Version(content: string, mtime: int)

  /** Steady-clock time together with the files on disk. */
  datatype Moment = Moment(time: int, disk: map<string, Version>)

  datatype Call = Call(key: string, now: int)

  /** Where the holder of a shard's exclusive lock is inside the insert section. */
  datatype Stage =
    | Find
    | GlobalSub(prior: int)
    | Stamp(replaced: Option<int>)
    | Store(replaced: Option<int>, stamp: nat)
    | ShardAdd(stamp: nat)
    | GlobalAdd(stamp: nat)
    | EvictTest(stamp: nat)
    | EvictBytes(stamp: nat, victim: string, removed: int)
    | EvictEntries(stamp: nat, victim: string, removed: int)
    | EvictErase(stamp: nat, victim: string, removed: int)
    | EvictCount(stamp: nat)

  /** An exclusive section; `at` (history only) is the shard when the lock was taken. */
  datatype Section =
    | Revalidation(call: Call, size: nat, modified: int)
    | Insertion(call: Call, file: CachedFile, modified: int, at: Entries, stage: Stage)

  /** A `std::shared_mutex` together with the work of whoever holds it exclusively. */
  datatype Lock = Free | Shared(readers: set<nat>) | Exclusive(t: nat, section: Section)

  /** `bytes` is the shard's own running sum. */
  datatype Shard = Shard(entries: Entries, bytes: int, lock: Lock)

  /** Where a thread is while it holds no exclusive lock; `Inside` while it does. */
  datatype Pc =
    | Start(call: Call)
    | Lookup(call: Call)
    | StatSize(call: Call)
    | StatTime(call: Call, size: nat)
    | Revalidate(call: Call, size: nat, modified: int)
    | Miss(call: Call, size: nat, modified: int)
    | Read(call: Call, size: nat, modified: int)
    | Insert(call: Call, file: CachedFile, modified: int)
    | Inside(call: Call)
    | Done(call: Call, result: Option<CachedFile>)

  datatype State = State(
    shards: seq<Shard>, threads: map<nat, Pc>,
    clock: nat, hits: nat, misses: nat, evictions: nat, bytes: int, entries: int,
    past: seq<Moment>)

  function Now(s: State): Moment
    requires s.past != []
  {
    s.past[|s.past| - 1]
  }

  ghost predicate WellFormed(c: Config, s: State) {
    ValidConfig(c) && |s.shards| == c.shards && s.past != []
  }

  // ---------------------------------------------------------------- steps under an exclusive lock

  datatype After = Stay(section: Section) | Leave(pc: Pc)

  /** What one step of the lock holder does to its shard, to itself and to the atomics. */
  datatype Effect = Effect(
    held: Entries, sum: int, after: After,
    bytes: int, entries: int, clock: nat, hits: nat, evictions: nat)

  function Plain(held: Entries, sum: int, after: After): Effect {
    Effect(held, sum, after, 0, 0, 0, 0, 0)
  }

  lemma {:induction false} OldestExists(m: Entries)
    requires m != map[]
    ensures exists v :: IsOldest(m, v)
    decreases |m|
  {
    var k :| k in m;
    var rest := m - {k};
    assert forall j :: j in m ==> j == k || j in rest;
    if rest == map[] {
      assert IsOldest(m, k);
    } else {
      assert rest.Keys == m.Keys - {k};
      OldestExists(rest);
      var v :| IsOldest(rest, v);
      assert IsOldest(m, if m[v].lastAccess <= m[k].lastAccess then v else k);
    }
  }

  /** The victim search: an entry with the smallest `lastAccess`. */
  ghost function Victim(m: Entries): (v: string)
    requires m != map[]
    ensures IsOldest(m, v)
  {
    OldestExists(m);
    var v :| IsOldest(m, v); v
  }

  function NewEntry(i: Section, stamp: nat): Entry
    requires i.Insertion?
  {
    Entry(i.file, i.modified, i.call.now, stamp)
  }

  /** The shard right after the new entry was stored. */
  function Full(i: Section, stamp: nat): Entries
    requires i.Insertion?
  {
    i.at[i.call.key := NewEntry(i, stamp)]
  }

  function StayAt(i: Section, stage: Stage): After
    requires i.Insertion?
  {
    Stay(i.(stage := stage))
  }

  /** The second lookup, under the exclusive lock, with fresh stat results. */
  function RevalidationStep(m: Entries, sum: int, r: Section): Effect
    requires r.Revalidation?
  {
    var key := r.call.key;
    if key in m && r.modified == m[key].modified && r.size == m[key].file.size then
      Plain(m[key := m[key].(validatedAt := r.call.now)], sum, Leave(Done(r.call, Some(m[key].file)))).(hits := 1)
    else
      Plain(m, sum, Leave(Miss(r.call, r.size, r.modified)))
  }

  /** One update inside the insert section. */
  ghost function InsertionStep(c: Config, m: Entries, sum: int, clock: nat, i: Section): Effect
    requires ValidConfig(c) && i.Insertion?
  {
    var key := i.call.key;
    match i.stage
    case Find =>
      if key in m then Plain(m, sum - m[key].file.size, StayAt(i, GlobalSub(m[key].file.size)))
      else Plain(m, sum, StayAt(i, Stamp(None))).(entries := 1)
    case GlobalSub(prior) => Plain(m, sum, StayAt(i, Stamp(Some(prior)))).(bytes := -prior)
    case Stamp(replaced) => Plain(m, sum, StayAt(i, Store(replaced, clock + 1))).(clock := 1)
    case Store(_, stamp) => Plain(m[key := NewEntry(i, stamp)], sum, StayAt(i, ShardAdd(stamp)))
    case ShardAdd(stamp) => Plain(m, sum + i.file.size, StayAt(i, GlobalAdd(stamp)))
    case GlobalAdd(stamp) => Plain(m, sum, StayAt(i, EvictTest(stamp))).(bytes := i.file.size)
    case EvictTest(stamp) =>
      if m != map[] && (|m| > ShardMaxEntries(c) || sum > ShardMaxBytes(c)) then
        var v := Victim(m);
        Plain(m, sum - m[v].file.size, StayAt(i, EvictBytes(stamp, v, m[v].file.size)))
      else
        Plain(m, sum, Leave(Done(i.call, Some(i.file))))
    case EvictBytes(stamp, v, removed) => Plain(m, sum, StayAt(i, EvictEntries(stamp, v, removed))).(bytes := -removed)
    case EvictEntries(stamp, v, removed) => Plain(m, sum, StayAt(i, EvictErase(stamp, v, removed))).(entries := -1)
    case EvictErase(stamp, v, _) => Plain(m - {v}, sum, StayAt(i, EvictCount(stamp)))
    case EvictCount(stamp) => Plain(m, sum, StayAt(i, EvictTest(stamp))).(evictions := 1)
  }

  ghost function SectionStep(c: Config, m: Entries, sum: int, clock: nat, x: Section): Effect
    requires ValidConfig(c)
  {
    if x.Revalidation? then RevalidationStep(m, sum, x) else InsertionStep(c, m, sum, clock, x)
  }

  // ---------------------------------------------------------------- all steps

  /** Everything that can happen: calls begin, move and return; time passes; files change. */
  datatype Label =
    | Begin(t: nat, key: string)
    | Move(t: nat)
    | MoveHolder(i: nat)
    | Return(t: nat)
    | Tick(elapsed: nat)
    | WriteFile(path: string, version: Version)
    | RemoveFile(path: string)

  function Readers(l: Lock): set<nat> {
    if l.Shared? then l.readers else {}
  }

  function WithReaders(readers: set<nat>): Lock {
    if readers == {} then Free else Shared(readers)
  }

  /** Only lock acquisition blocks. */
  ghost predicate Enabled(c: Config, s: State, l: Label)
    requires WellFormed(c, s)
  {
    match l
    case Begin(t, _) => t !in s.threads
    case Move(t) =>
      && t in s.threads && !s.threads[t].Inside? && !s.threads[t].Done?
      && var lock := s.shards[ShardOf(c.hash, c.shards, s.threads[t].call.key)].lock;
         && (s.threads[t].Start? && c.enabled ==> !lock.Exclusive?)
         && (s.threads[t].Lookup? ==> lock.Shared?)
         && (s.threads[t].Revalidate? || s.threads[t].Insert? ==> lock.Free?)
    case MoveHolder(i) => i < |s.shards| && s.shards[i].lock.Exclusive?
    case Return(t) => t in s.threads && s.threads[t].Done?
    case _ => true
  }

  /** The step of a thread that does not touch its shard. */
  function LocalStep(c: Config, disk: map<string, Version>, p: Pc): Pc
    requires p.Start? || p.StatSize? || p.StatTime? || p.Miss? || p.Read?
  {
    var key := p.call.key;
    match p
    case Start(call) => StatSize(call)
    case StatSize(call) => if key in disk then StatTime(call, |disk[key].content|) else Done(call, None)
    case StatTime(call, size) =>
      var modified := if key in disk then disk[key].mtime else MIN_TIME;
      if c.enabled then Revalidate(call, size, modified) else Miss(call, size, modified)
    case Miss(call, size, modified) => Read(call, size, modified)
    case Read(call, size, modified) =>
      if key !in disk || |disk[key].content| < size then Done(call, None) else
        var file := CachedFile(disk[key].content[..size], MakeEtag(size, modified), size);
        if Bypassed(c, size) then Done(call, Some(file)) else Insert(call, file, modified)
  }

  /** Whether the first lookup serves the entry without looking at the disk. */
  predicate FreshHit(c: Config, m: Entries, call: Call) {
    call.key in m && call.now - m[call.key].validatedAt < c.interval
  }

  ghost function Moved(c: Config, s: State, t: nat): State
    requires WellFormed(c, s) && Enabled(c, s, Move(t))
  {
    var p := s.threads[t];
    var i := ShardOf(c.hash, c.shards, p.call.key);
    var sh := s.shards[i];
    if p.Start? && c.enabled then
      s.(shards := s.shards[i := sh.(lock := Shared(Readers(sh.lock) + {t}))],
         threads := s.threads[t := Lookup(p.call)])
    else if p.Lookup? then
      var hit := FreshHit(c, sh.entries, p.call);
      s.(shards := s.shards[i := sh.(lock := WithReaders(Readers(sh.lock) - {t}))],
         threads := s.threads[t := if hit then Done(p.call, Some(sh.entries[p.call.key].file)) else StatSize(p.call)],
         hits := s.hits + if hit then 1 else 0)
    else if p.Revalidate? then
      s.(shards := s.shards[i := sh.(lock := Exclusive(t, Revalidation(p.call, p.size, p.modified)))],
         threads := s.threads[t := Inside(p.call)])
    else if p.Insert? then
      s.(shards := s.shards[i := sh.(lock := Exclusive(t, Insertion(p.call, p.file, p.modified, sh.entries, Find)))],
         threads := s.threads[t := Inside(p.call)])
    else
      s.(threads := s.threads[t := LocalStep(c, Now(s).disk, p)], misses := s.misses + if p.Miss? then 1 else 0)
  }

  ghost function HolderMoved(c: Config, s: State, i: nat): State
    requires WellFormed(c, s) && Enabled(c, s, MoveHolder(i))
  {
    var sh := s.shards[i];
    var t := sh.lock.t;
    var e := SectionStep(c, sh.entries, sh.bytes, s.clock, sh.lock.section);
    State(
      s.shards[i := Shard(e.held, e.sum, if e.after.Stay? then Exclusive(t, e.after.section) else Free)],
      if e.after.Leave? then s.threads[t := e.after.pc] else s.threads,
      s.clock + e.clock, s.hits + e.hits, s.misses, s.evictions + e.evictions,
      s.bytes + e.bytes, s.entries + e.entries, s.past)
  }

  ghost function Apply(c: Config, s: State, l: Label): (s': State)
    requires WellFormed(c, s) && Enabled(c, s, l)
    ensures WellFormed(c, s')
  {
    var now := Now(s);
    match l
    case Begin(t, key) => s.(threads := s.threads[t := Start(Call(key, now.time))])
    case Move(t) => Moved(c, s, t)
    case MoveHolder(i) => HolderMoved(c, s, i)
    case Return(t) => s.(threads := s.threads - {t})
    case Tick(elapsed) => s.(past := s.past + [Moment(now.time + elapsed, now.disk)])
    case WriteFile(path, version) => s.(past := s.past + [Moment(now.time, now.disk[path := version])])
    case RemoveFile(path) => s.(past := s.past + [Moment(now.time, now.disk - {path})])
  }

  ghost predicate Initial(c: Config, s: State) {
    && WellFormed(c, s)
    && |s.past| == 1
    && s.threads == map[] && s.clock == 0 && s.bytes == 0 && s.entries == 0
    && s.hits == 0 && s.misses == 0 && s.evictions == 0
    && forall i :: 0 <= i < |s.shards| ==> s.shards[i] == Shard(map[], 0, Free)
  }

  /** A run: `run[k + 1]` comes from `run[k]` by the event `labels[k]`. */
  ghost predicate IsRun(c: Config, run: seq<State>, labels: seq<Label>) {
    && |run| == |labels| + 1
    && Initial(c, run[0])
    && forall k :: 0 <= k < |labels| ==>
         WellFormed(c, run[k]) && Enabled(c, run[k], labels[k]) && run[k + 1] == Apply(c, run[k], labels[k])
  }
}
