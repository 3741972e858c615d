/**
 * What a file served by the cache has to do with the file on disk.  Two assumptions are
 * made about a run: a file is not written while a `get` of it is in progress, and its
 * modification time together with its size identifies its content.
 */
module CacheFreshness {
  import opened Basics
  import opened CacheEviction
  import opened CacheProtocol
  import Hex

  /** At moment `m`, the file on disk was exactly the version that `file` and its ETag describe. */
  ghost predicate SeenAt(past: seq<Moment>, m: int, key: string, file: CachedFile, modified: int) {
    && 0 <= m < |past|
    && key in past[m].disk
    && past[m].disk[key] == Version(file.body, modified)
    && file.size == |file.body|
    && NamesVersion(file.etag, file.size, modified)
  }

  /** The same at some moment no earlier than time `t`. */
  ghost predicate SeenSince(past: seq<Moment>, key: string, file: CachedFile, modified: int, t: int) {
    exists m :: SeenAt(past, m, key, file, modified) && past[m].time >= t
  }

  /** What a caller gets: content from during the call, or less than the interval before it began. */
  ghost predicate Served(c: Config, past: seq<Moment>, call: Call, file: CachedFile) {
    exists m, modified :: SeenAt(past, m, call.key, file, modified)
                          && (past[m].time >= call.now || past[m].time > call.now - c.interval)
  }

  /** (mtime, size) identifies the content of every file that ever was on disk. */
  ghost predicate Identified(past: seq<Moment>) {
    forall a, b, key ::
      0 <= a < |past| && 0 <= b < |past| && key in past[a].disk && key in past[b].disk
      && past[a].disk[key].mtime == past[b].disk[key].mtime
      && |past[a].disk[key].content| == |past[b].disk[key].content|
      ==> past[a].disk[key].content == past[b].disk[key].content
  }

  /** No call in progress is about this file. */
  ghost predicate Unused(s: State, path: string) {
    forall t :: t in s.threads && !s.threads[t].Done? ==> s.threads[t].call.key != path
  }

  ghost predicate QuietLabel(s: State, l: Label) {
    match l
    case WriteFile(path, _) => Unused(s, path)
    case RemoveFile(path) => Unused(s, path)
    case _ => true
  }

  ghost predicate IsQuietRun(c: Config, run: seq<State>, labels: seq<Label>) {
    && IsRun(c, run, labels)
    && (forall k :: 0 <= k < |labels| ==> QuietLabel(run[k], labels[k]))
    && (forall k :: 0 <= k < |run| ==> Identified(run[k].past))
  }

  // ---------------------------------------------------------------- invariant

  /** The file on disk right now has this size and modification time. */
  ghost predicate DiskNow(s: State, key: string, size: nat, modified: int)
    requires s.past != []
  {
    key in Now(s).disk && |Now(s).disk[key].content| == size && Now(s).disk[key].mtime == modified
  }

  ghost predicate PcFresh(c: Config, s: State, p: Pc)
    requires s.past != []
  {
    && p.call.now <= Now(s).time
    && match p
       case StatTime(call, size) => call.key in Now(s).disk && |Now(s).disk[call.key].content| == size
       case Revalidate(call, size, modified) => DiskNow(s, call.key, size, modified)
       case Miss(call, size, modified) => DiskNow(s, call.key, size, modified)
       case Read(call, size, modified) => DiskNow(s, call.key, size, modified)
       case Insert(call, file, modified) => SeenSince(s.past, call.key, file, modified, call.now)
       case Done(call, Some(file)) => Served(c, s.past, call, file)
       case _ => true
  }

  ghost predicate SectionFresh(s: State, x: Section)
    requires s.past != []
  {
    && x.call.now <= Now(s).time
    && match x
       case Revalidation(call, size, modified) => DiskNow(s, call.key, size, modified)
       case Insertion(call, file, modified, _, _) => SeenSince(s.past, call.key, file, modified, call.now)
  }

  ghost predicate EntriesFresh(past: seq<Moment>, m: Entries) {
    forall k :: k in m ==> SeenSince(past, k, m[k].file, m[k].modified, m[k].validatedAt)
  }

  /** A shard's entries are fresh and its exclusive holder is a thread waiting inside that very call. */
  ghost predicate ShardFresh(c: Config, s: State, i: nat)
    requires WellFormed(c, s) && i < |s.shards|
  {
    var l := s.shards[i].lock;
    && EntriesFresh(s.past, s.shards[i].entries)
    && (l.Exclusive? ==>
          && l.t in s.threads && s.threads[l.t] == Inside(l.section.call)
          && ShardOf(c.hash, c.shards, l.section.call.key) == i
          && SectionFresh(s, l.section))
  }

  ghost predicate Fresh(c: Config, s: State) {
    && WellFormed(c, s)
    && (forall t :: t in s.threads ==> PcFresh(c, s, s.threads[t]))
    && (forall i :: 0 <= i < |s.shards| ==> ShardFresh(c, s, i))
  }

  // ---------------------------------------------------------------- the past only grows

  lemma SeenLater(past: seq<Moment>, next: Moment, key: string, file: CachedFile, modified: int, t: int)
    requires SeenSince(past, key, file, modified, t)
    ensures SeenSince(past + [next], key, file, modified, t)
  {
    var m :| SeenAt(past, m, key, file, modified) && past[m].time >= t;
    assert (past + [next])[m] == past[m];
    assert SeenAt(past + [next], m, key, file, modified);
  }

  lemma ServedLater(c: Config, past: seq<Moment>, next: Moment, call: Call, file: CachedFile)
    requires Served(c, past, call, file)
    ensures Served(c, past + [next], call, file)
  {
    var m, modified :| SeenAt(past, m, call.key, file, modified)
                       && (past[m].time >= call.now || past[m].time > call.now - c.interval);
    assert (past + [next])[m] == past[m];
    assert SeenAt(past + [next], m, call.key, file, modified);
  }

  lemma PcStaysFresh(c: Config, s: State, next: Moment, p: Pc)
    requires s.past != [] && PcFresh(c, s, p) && Now(s).time <= next.time
    requires !p.Done? ==> (p.call.key in next.disk <==> p.call.key in Now(s).disk)
    requires !p.Done? && p.call.key in next.disk ==> next.disk[p.call.key] == Now(s).disk[p.call.key]
    ensures PcFresh(c, s.(past := s.past + [next]), p)
  {
    hide SeenSince, Served;
    match p
    case Insert(call, file, modified) => SeenLater(s.past, next, call.key, file, modified, call.now);
    case Done(call, Some(file)) => ServedLater(c, s.past, next, call, file);
    case _ =>
  }

  lemma ShardStaysFresh(c: Config, s: State, next: Moment, i: nat)
    requires WellFormed(c, s) && i < |s.shards| && ShardFresh(c, s, i) && Now(s).time <= next.time
    requires forall t :: t in s.threads && !s.threads[t].Done? ==>
               var key := s.threads[t].call.key;
               (key in next.disk <==> key in Now(s).disk) && (key in next.disk ==> next.disk[key] == Now(s).disk[key])
    ensures ShardFresh(c, s.(past := s.past + [next]), i)
  {
    hide SeenSince;
    var m := s.shards[i].entries;
    forall k | k in m ensures SeenSince(s.past + [next], k, m[k].file, m[k].modified, m[k].validatedAt) {
      SeenLater(s.past, next, k, m[k].file, m[k].modified, m[k].validatedAt);
    }
    var l := s.shards[i].lock;
    if l.Exclusive? && l.section.Insertion? {
      var x := l.section;
      SeenLater(s.past, next, x.call.key, x.file, x.modified, x.call.now);
    }
  }

  /** Time passes, or a file that no call is about changes. */
  lemma WorldStepKeepsFresh(c: Config, s: State, next: Moment)
    requires Fresh(c, s) && Now(s).time <= next.time
    requires forall t :: t in s.threads && !s.threads[t].Done? ==>
               var key := s.threads[t].call.key;
               (key in next.disk <==> key in Now(s).disk) && (key in next.disk ==> next.disk[key] == Now(s).disk[key])
    ensures Fresh(c, s.(past := s.past + [next]))
  {
    hide ShardFresh, PcFresh;
    var s' := s.(past := s.past + [next]);
    forall t | t in s'.threads ensures PcFresh(c, s', s'.threads[t]) {
      PcStaysFresh(c, s, next, s.threads[t]);
    }
    forall i | 0 <= i < |s'.shards| ensures ShardFresh(c, s', i) {
      ShardStaysFresh(c, s, next, i);
    }
  }

  // ---------------------------------------------------------------- steps of threads

  /** Reading a file that is as the stats found it yields that version and its ETag. */
  lemma ReadIsFresh(c: Config, s: State, call: Call, size: nat, modified: int)
    requires s.past != [] && call.now <= Now(s).time && DiskNow(s, call.key, size, modified)
    ensures var file := CachedFile(Now(s).disk[call.key].content[..size], MakeEtag(size, modified), size);
            SeenSince(s.past, call.key, file, modified, call.now) && Served(c, s.past, call, file)
  {
    var content := Now(s).disk[call.key].content;
    assert content[..size] == content;
    var file := CachedFile(content[..size], MakeEtag(size, modified), size);
    EtagNamesVersion(size, modified);
    assert SeenAt(s.past, |s.past| - 1, call.key, file, modified);
  }

  lemma LocalStepKeepsFresh(c: Config, s: State, p: Pc)
    requires s.past != [] && PcFresh(c, s, p)
    requires p.Start? || p.StatSize? || p.StatTime? || p.Miss? || p.Read?
    ensures PcFresh(c, s, LocalStep(c, Now(s).disk, p))
  {
    hide SeenSince, Served;
    if p.Read? {
      ReadIsFresh(c, s, p.call, p.size, p.modified);
    }
  }

  /** A hit without looking at the disk: the entry was validated less than the interval ago. */
  lemma HitIsServed(c: Config, past: seq<Moment>, m: Entries, call: Call)
    requires EntriesFresh(past, m) && FreshHit(c, m, call)
    ensures Served(c, past, call, m[call.key].file)
  {
    var e := m[call.key];
    var k :| SeenAt(past, k, call.key, e.file, e.modified) && past[k].time >= e.validatedAt;
    assert past[k].time > call.now - c.interval;
  }

  lemma MoveKeepsFresh(c: Config, s: State, t: nat)
    requires Fresh(c, s) && Enabled(c, s, Move(t))
    ensures Fresh(c, Moved(c, s, t))
  {
    hide SeenSince, Served, LocalStep, EntriesFresh, FreshHit;
    var p := s.threads[t];
    var i := ShardOf(c.hash, c.shards, p.call.key);
    var s' := Moved(c, s, t);
    assert ShardFresh(c, s, i);
    if p.Lookup? {
      if FreshHit(c, s.shards[i].entries, p.call) {
        HitIsServed(c, s.past, s.shards[i].entries, p.call);
      }
    } else if !(p.Start? && c.enabled) && !p.Revalidate? && !p.Insert? {
      LocalStepKeepsFresh(c, s, p);
    }
    assert PcFresh(c, s', s'.threads[t]);
    forall u | u in s'.threads ensures PcFresh(c, s', s'.threads[u]) {
      if u != t { assert PcFresh(c, s, s.threads[u]); }
    }
    forall j | 0 <= j < |s'.shards| ensures ShardFresh(c, s', j) {
      assert ShardFresh(c, s, j);
    }
  }

  /** Revalidation: the stats match, so by identification the cached body is what is on disk now. */
  lemma RevalidatedIsFresh(c: Config, s: State, m: Entries, x: Section)
    requires s.past != [] && Identified(s.past) && EntriesFresh(s.past, m)
    requires x.Revalidation? && SectionFresh(s, x)
    requires x.call.key in m && x.modified == m[x.call.key].modified && x.size == m[x.call.key].file.size
    ensures SeenSince(s.past, x.call.key, m[x.call.key].file, x.modified, x.call.now)
    ensures Served(c, s.past, x.call, m[x.call.key].file)
  {
    hide NamesVersion, Served, Identified;
    var e := m[x.call.key];
    var last := |s.past| - 1;
    var k :| SeenAt(s.past, k, x.call.key, e.file, e.modified) && s.past[k].time >= e.validatedAt;
    SameStatSameContent(s.past, k, last, x.call.key);
    assert SeenAt(s.past, last, x.call.key, e.file, e.modified);
    SeenDuringIsServed(c, s.past, last, x.call, e.file, e.modified);
  }

  lemma SameStatSameContent(past: seq<Moment>, a: nat, b: nat, key: string)
    requires Identified(past) && a < |past| && b < |past| && key in past[a].disk && key in past[b].disk
    requires past[a].disk[key].mtime == past[b].disk[key].mtime
    requires |past[a].disk[key].content| == |past[b].disk[key].content|
    ensures past[a].disk[key] == past[b].disk[key]
  {
  }

  lemma SeenDuringIsServed(c: Config, past: seq<Moment>, m: nat, call: Call, file: CachedFile, modified: int)
    requires SeenAt(past, m, call.key, file, modified) && past[m].time >= call.now
    ensures Served(c, past, call, file)
  {
  }

  lemma SectionKeepsFresh(c: Config, s: State, m: Entries, sum: int, x: Section)
    requires ValidConfig(c) && s.past != [] && Identified(s.past)
    requires EntriesFresh(s.past, m) && SectionFresh(s, x)
    ensures var e := SectionStep(c, m, sum, s.clock, x);
            && EntriesFresh(s.past, e.held)
            && (e.after.Leave? ==> PcFresh(c, s, e.after.pc) && !e.after.pc.Inside?)
            && (e.after.Stay? ==> SectionFresh(s, e.after.section) && e.after.section.call == x.call)
  {
    hide SeenSince, Identified, Full;
    if x.Revalidation? {
      if x.call.key in m && x.modified == m[x.call.key].modified && x.size == m[x.call.key].file.size {
        RevalidatedIsFresh(c, s, m, x);
      }
    } else if x.stage.EvictTest? {
      InsertedIsServed(c, s.past, x);
    }
  }

  lemma InsertedIsServed(c: Config, past: seq<Moment>, x: Section)
    requires x.Insertion? && SeenSince(past, x.call.key, x.file, x.modified, x.call.now)
    ensures Served(c, past, x.call, x.file)
  {
  }

  lemma HolderMoveKeepsFresh(c: Config, s: State, i: nat)
    requires Fresh(c, s) && Identified(s.past) && Enabled(c, s, MoveHolder(i))
    ensures Fresh(c, HolderMoved(c, s, i))
  {
    hide SeenSince, Served, EntriesFresh, SectionStep, Identified;
    var sh := s.shards[i];
    var t := sh.lock.t;
    var s' := HolderMoved(c, s, i);
    assert ShardFresh(c, s, i);
    SectionKeepsFresh(c, s, sh.entries, sh.bytes, sh.lock.section);
    forall u | u in s'.threads ensures PcFresh(c, s', s'.threads[u]) {
      if u != t { assert PcFresh(c, s, s.threads[u]); } else { assert PcFresh(c, s, s.threads[t]); }
    }
    forall j | 0 <= j < |s'.shards| ensures ShardFresh(c, s', j) {
      assert ShardFresh(c, s, j);
    }
  }

  lemma StepKeepsFresh(c: Config, s: State, l: Label)
    requires Fresh(c, s) && Enabled(c, s, l) && QuietLabel(s, l) && Identified(s.past)
    ensures Fresh(c, Apply(c, s, l))
  {
    hide SeenSince, Served, Identified, EntriesFresh, Moved, HolderMoved;
    var now := Now(s);
    match l
    case Begin(t, key) => ThreadsKeepFresh(c, s, Apply(c, s, l));
    case Return(t) => ThreadsKeepFresh(c, s, Apply(c, s, l));
    case Move(t) => MoveKeepsFresh(c, s, t);
    case MoveHolder(i) => HolderMoveKeepsFresh(c, s, i);
    case Tick(d) => WorldStepKeepsFresh(c, s, Moment(now.time + d, now.disk));
    case WriteFile(path, v) => WorldStepKeepsFresh(c, s, Moment(now.time, now.disk[path := v]));
    case RemoveFile(path) => WorldStepKeepsFresh(c, s, Moment(now.time, now.disk - {path}));
  }

  lemma ThreadsKeepFresh(c: Config, s: State, s': State)
    requires Fresh(c, s) && WellFormed(c, s') && s'.past == s.past && s'.shards == s.shards
    requires forall t :: t in s'.threads && !(t in s.threads && s'.threads[t] == s.threads[t]) ==>
               s'.threads[t].Start? && s'.threads[t].call.now == Now(s).time
    requires forall t :: t in s.threads && s.threads[t].Inside? ==> t in s'.threads && s'.threads[t] == s.threads[t]
    ensures Fresh(c, s')
  {
    hide SeenSince, Served, EntriesFresh;
    forall u | u in s'.threads ensures PcFresh(c, s', s'.threads[u]) {
      if u in s.threads { assert PcFresh(c, s, s.threads[u]); }
    }
    forall j | 0 <= j < |s'.shards| ensures ShardFresh(c, s', j) {
      assert ShardFresh(c, s, j);
    }
  }

  lemma {:induction false} RunKeepsFresh(c: Config, run: seq<State>, labels: seq<Label>, k: nat)
    requires IsQuietRun(c, run, labels) && k < |run|
    ensures Fresh(c, run[k])
  {
    if k == 0 {
      assert Initial(c, run[0]);
    } else {
      hide Fresh, Apply, Initial, Identified;
      RunKeepsFresh(c, run, labels, k - 1);
      StepKeepsFresh(c, run[k - 1], labels[k - 1]);
    }
  }

  // ---------------------------------------------------------------- main results

  /**
   * For every run and every interleaving: whatever `get` returns was the content of the
   * file at some moment during the call, or less than the revalidation interval before
   * the call began, and its ETag is the ETag of that version.
   */
  lemma ReturnedFileWasOnDisk(c: Config, run: seq<State>, labels: seq<Label>, k: nat, t: nat)
    requires IsQuietRun(c, run, labels) && k < |run| && t in run[k].threads
    requires run[k].threads[t].Done? && run[k].threads[t].result.Some?
    ensures Served(c, run[k].past, run[k].threads[t].call, run[k].threads[t].result.value)
  {
    RunKeepsFresh(c, run, labels, k);
    assert PcFresh(c, run[k], run[k].threads[t]);
  }

  /** Position of the first dash. */
  function Dash(s: string): (n: nat)
    ensures n <= |s|
  {
    if s == "" || s[0] == '-' then 0 else 1 + Dash(s[1..])
  }

  lemma {:induction false} DashAfterHex(a: string, b: string)
    requires forall k :: 0 <= k < |a| ==> Hex.IsDigit(a[k])
    ensures Dash(a + "-" + b) == |a|
  {
    if a != "" {
      DashAfterHex(a[1..], b);
      assert (a + "-" + b)[1..] == a[1..] + "-" + b;
    }
  }

  /** The ETag names one version: a different size or modification time has a different ETag. */
  lemma EtagIsInjective(etag: string, size: nat, modified: int, size': nat, modified': int)
    requires NamesVersion(etag, size, modified) && NamesVersion(etag, size', modified')
    ensures size == size' && modified % 0x1_0000_0000_0000_0000 == modified' % 0x1_0000_0000_0000_0000
  {
    var a, b :| IsEtag(etag, a, b, size, modified);
    var a', b' :| IsEtag(etag, a', b', size', modified');
    SameTexts(etag, a, b, a', b');
  }

  lemma SameTexts(etag: string, a: string, b: string, a': string, b': string)
    requires IsHex(a) && IsHex(a')
    requires etag == "\"" + a + "-" + b + "\"" && etag == "\"" + a' + "-" + b' + "\""
    ensures a == a' && b == b'
  {
    var middle := etag[1..|etag| - 1];
    assert middle == a + "-" + b;
    assert middle == a' + "-" + b';
    DashAfterHex(a, b);
    DashAfterHex(a', b');
    assert a == middle[..|a|] && a' == middle[..|a'|];
    assert b == middle[|a| + 1..] && b' == middle[|a'| + 1..];
  }
}
