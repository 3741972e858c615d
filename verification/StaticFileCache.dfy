/**
 * The cache as the single object it is in the source, run by one thread: the lock
 * sections of `get` as methods over mutable fields, with the eviction loop and its
 * victim search.  The counters are natural numbers, so each subtraction is checked.
 */
module StaticFileCache {
  import opened Basics
  import opened CacheEviction
  import opened CacheProtocol
  import opened CacheAccounting

  /** Every file in a shard has the ETag of the version it was read from. */
  ghost predicate EtagsOk(m: Entries) {
    forall k :: k in m ==> NamesVersion(m[k].file.etag, m[k].file.size, m[k].modified)
  }

  lemma EtagOf(m: Entries, k: string)
    requires EtagsOk(m) && k in m
    ensures NamesVersion(m[k].file.etag, m[k].file.size, m[k].modified)
  {
  }

  /** A new entry, a revalidated one and the trimming of the shard all leave the ETags right. */
  lemma InsertKeepsEtags(m: Entries, k: string, e: Entry, r: Entries)
    requires EtagsOk(m) && NamesVersion(e.file.etag, e.file.size, e.modified) && NewestRun(m[k := e], r)
    ensures EtagsOk(r)
  {
    hide NamesVersion;
  }

  lemma RevalidationKeepsEtags(m: Entries, k: string, now: int)
    requires EtagsOk(m) && k in m
    ensures EtagsOk(m[k := m[k].(validatedAt := now)])
  {
    hide NamesVersion;
  }

  class StaticFileCache {
    const c: Config
    var shards: seq<Shard>
    var clock: nat
    var hits: nat
    var misses: nat
    var evictions: nat
    var bytes: nat
    var entries: nat

    /** The state of the transition system that this object is in between two calls. */
    ghost function Abstract(): State
      reads this
    {
      State(shards, map[], clock, hits, misses, evictions, bytes, entries, [Moment(0, map[])])
    }

    ghost predicate Valid()
      reads this
    {
      Inv(c, Abstract()) && forall i :: 0 <= i < |shards| ==> shards[i].lock == Free && EtagsOk(shards[i].entries)
    }

    constructor (enabled: bool, shardCount: nat, maxEntries: nat, maxBytes: nat, maxFileBytes: nat,
                 interval: int, hash: string -> nat)
      ensures Valid()
      ensures Initial(c, Abstract())
      ensures c == Config(enabled, Max(1, shardCount), maxEntries, maxBytes, maxFileBytes, interval, hash)
    {
      c := Config(enabled, Max(1, shardCount), maxEntries, maxBytes, maxFileBytes, interval, hash);
      shards := seq(Max(1, shardCount), _ => Shard(map[], 0, Free));
      clock, hits, misses, evictions, bytes, entries := 0, 0, 0, 0, 0, 0;
      new;
      InitialInv(c, Abstract());
    }

    /** The scan for the smallest `lastAccess`. */
    method FindVictim(m: Entries) returns (victim: string)
      requires m != map[]
      ensures IsOldest(m, victim)
    {
      var rest := m.Keys;
      victim :| victim in rest;
      rest := rest - {victim};
      while rest != {}
        invariant rest <= m.Keys && victim in m
        invariant forall k :: k in m && k !in rest ==> m[victim].lastAccess <= m[k].lastAccess
        decreases |rest|
      {
        var k :| k in rest;
        if m[k].lastAccess < m[victim].lastAccess {
          victim := k;
        }
        rest := rest - {k};
      }
    }

    /**
     * Trims shard `i`: the longest newest-first run is left, the evicted entries are
     * counted, and both counters and the shard's sum drop by exactly what went.
     */
    method EvictIfNeeded(i: nat, shardMaxEntries: nat, shardMaxBytes: nat)
      requires i < |shards| && DistinctStamps(shards[i].entries)
      requires shards[i].bytes == Bytes(shards[i].entries)
      requires bytes >= Bytes(shards[i].entries) && entries >= |shards[i].entries|
      modifies this`shards, this`bytes, this`entries, this`evictions
      ensures |shards| == |old(shards)| && forall j :: 0 <= j < |shards| && j != i ==> shards[j] == old(shards)[j]
      ensures LongestNewestRun(old(shards)[i].entries, shards[i].entries, shardMaxEntries, shardMaxBytes)
      ensures shards[i] == Shard(shards[i].entries, Bytes(shards[i].entries), old(shards)[i].lock)
      ensures bytes - Bytes(shards[i].entries) == old(bytes) - Bytes(old(shards)[i].entries)
      ensures entries - |shards[i].entries| == old(entries) - |old(shards)[i].entries|
      ensures evictions + |shards[i].entries| == old(evictions) + |old(shards)[i].entries|
    {
      hide DistinctStamps, NewestRun, CoversFittingRuns, Bytes;
      EmptyHasNoBytes();
      ghost var full := shards[i].entries;
      WholeMapIsNewestRun(full, shardMaxEntries, shardMaxBytes);
      while shards[i].entries != map[] && (|shards[i].entries| > shardMaxEntries || shards[i].bytes > shardMaxBytes)
        invariant |shards| == |old(shards)| && forall j :: 0 <= j < |shards| && j != i ==> shards[j] == old(shards)[j]
        invariant shards[i].lock == old(shards)[i].lock
        invariant NewestRun(full, shards[i].entries)
        invariant CoversFittingRuns(full, shards[i].entries, shardMaxEntries, shardMaxBytes)
        invariant DistinctStamps(shards[i].entries)
        invariant shards[i].bytes == Bytes(shards[i].entries)
        invariant bytes - Bytes(shards[i].entries) == old(bytes) - Bytes(old(shards)[i].entries)
        invariant entries - |shards[i].entries| == old(entries) - |old(shards)[i].entries|
        invariant evictions + |shards[i].entries| == old(evictions) + |old(shards)[i].entries|
        decreases |shards[i].entries|
      {
        var m := shards[i].entries;
        var victim := FindVictim(m);
        EvictOldestKeepsRun(full, m, victim, shardMaxEntries, shardMaxBytes);
        BytesRemove(m, victim);
        RemoveKeepsStamps(m, victim);
        var removed := m[victim].file.size;
        shards := shards[i := shards[i].(bytes := shards[i].bytes - removed)];
        bytes := bytes - removed;
        entries := entries - 1;
        shards := shards[i := shards[i].(entries := m - {victim})];
        evictions := evictions + 1;
      }
    }

    /** The first lookup, under the shared lock. */
    method LookupSection(call: Call) returns (found: Option<CachedFile>)
      requires Valid()
      modifies this`hits
      ensures Valid()
      ensures var m := shards[ShardOf(c.hash, c.shards, call.key)].entries;
              && (found.Some? <==> call.key in m && call.now - m[call.key].validatedAt < c.interval)
              && (found.Some? ==> found.value == m[call.key].file)
      ensures hits == old(hits) + if found.Some? then 1 else 0
    {
      var sh := shards[ShardOf(c.hash, c.shards, call.key)];
      found := None;
      if call.key in sh.entries && call.now - sh.entries[call.key].validatedAt < c.interval {
        hits := hits + 1;
        found := Some(sh.entries[call.key].file);
      }
    }

    /** The second lookup, under the exclusive lock, with the stat results in hand. */
    method RevalidateSection(call: Call, size: nat, modified: int) returns (found: Option<CachedFile>)
      requires Valid()
      modifies this`hits, this`shards
      ensures Valid()
      ensures var i := ShardOf(c.hash, c.shards, call.key);
              var m := old(shards)[i].entries;
              && (found.Some? <==> call.key in m && m[call.key].modified == modified && m[call.key].file.size == size)
              && (found.None? ==> shards == old(shards))
              && (found.Some? ==>
                    && found.value == m[call.key].file
                    && var validated := m[call.key := m[call.key].(validatedAt := call.now)];
                       shards == old(shards)[i := old(shards)[i].(entries := validated)])
      ensures hits == old(hits) + if found.Some? then 1 else 0
    {
      hide EtagsOk;
      var i := ShardOf(c.hash, c.shards, call.key);
      var sh := shards[i];
      found := None;
      if call.key in sh.entries && modified == sh.entries[call.key].modified && size == sh.entries[call.key].file.size {
        RevalidationKeepsValid(call, size, modified);
        RevalidationKeepsEtags(sh.entries, call.key, call.now);
        shards := shards[i := sh.(entries := sh.entries[call.key := sh.entries[call.key].(validatedAt := call.now)])];
        hits := hits + 1;
        found := Some(sh.entries[call.key].file);
      }
    }

    lemma RevalidationKeepsValid(call: Call, size: nat, modified: int)
      requires Valid()
      requires var m := shards[ShardOf(c.hash, c.shards, call.key)].entries;
               call.key in m && m[call.key].modified == modified && m[call.key].file.size == size
      ensures var i := ShardOf(c.hash, c.shards, call.key);
              var sh := shards[i];
              var m := sh.entries[call.key := sh.entries[call.key].(validatedAt := call.now)];
              var shards' := shards[i := sh.(entries := m)];
              ShardsOk(c, shards', clock) && bytes == TotalBytes(shards') && entries == TotalEntries(shards')
    {
      hide ShardsOk, TotalBytes, TotalEntries, EtagsOk;
      var i := ShardOf(c.hash, c.shards, call.key);
      var sh := shards[i];
      ShardIsOk(c, shards, clock, i);
      RevalidationKeeps(c, sh.entries, call.key, call.now, clock);
      var sh' := sh.(entries := sh.entries[call.key := sh.entries[call.key].(validatedAt := call.now)]);
      assert !Stores(c) ==> sh.entries == map[];
      assert ShardOk(c, sh'.entries, sh'.bytes, sh'.lock, clock);
      OneShardKeepsOk(c, shards, i, sh', clock, clock);
      TotalsFollowOneShard(shards, i, sh');
    }

    /** The first half of the insert section: one subtraction and one addition for each counter. */
    method StoreEntry(i: nat, call: Call, file: CachedFile, modified: int)
      requires i < |shards|
      requires call.key in shards[i].entries ==>
                 shards[i].bytes >= shards[i].entries[call.key].file.size
                 && bytes >= shards[i].entries[call.key].file.size
      modifies this`shards, this`clock, this`bytes, this`entries
      ensures clock == old(clock) + 1
      ensures var m := old(shards)[i].entries;
              var prior := if call.key in m then m[call.key].file.size else 0;
              && shards == old(shards)[i := Shard(m[call.key := Entry(file, modified, call.now, clock)],
                                                  old(shards)[i].bytes - prior + file.size, old(shards)[i].lock)]
              && bytes == old(bytes) - prior + file.size
              && entries == old(entries) + if call.key in m then 0 else 1
    {
      if call.key in shards[i].entries {
        var prior := shards[i].entries[call.key].file.size;
        shards := shards[i := shards[i].(bytes := shards[i].bytes - prior)];
        bytes := bytes - prior;
      } else {
        entries := entries + 1;
      }
      clock := clock + 1;
      var entry := Entry(file, modified, call.now, clock);
      shards := shards[i := shards[i].(entries := shards[i].entries[call.key := entry])];
      shards := shards[i := shards[i].(bytes := shards[i].bytes + file.size)];
      bytes := bytes + file.size;
    }

    /**
     * The insert section: the new entry gets the next stamp and the shard becomes the
     * longest newest-first run of the old entries with the new one.
     */
    method InsertSection(call: Call, file: CachedFile, modified: int)
      requires Valid() && Stores(c) && NamesVersion(file.etag, file.size, modified)
      modifies this`shards, this`clock, this`bytes, this`entries, this`evictions
      ensures Valid()
      ensures clock == old(clock) + 1
      ensures var i := ShardOf(c.hash, c.shards, call.key);
              var full := old(shards)[i].entries[call.key := Entry(file, modified, call.now, old(clock) + 1)];
              && (forall j :: 0 <= j < |shards| && j != i ==> shards[j] == old(shards)[j])
              && LongestNewestRun(full, shards[i].entries, ShardMaxEntries(c), ShardMaxBytes(c))
              && evictions - old(evictions) == |full| - |shards[i].entries|
    {
      hide ShardsOk, TotalBytes, TotalEntries, StampsOk, NewestRun, CoversFittingRuns, Bytes, ShardMaxEntries,
        ShardMaxBytes, Fits, EtagsOk, NamesVersion;
      var i := ShardOf(c.hash, c.shards, call.key);
      ghost var sh := shards[i];
      ghost var before := shards;
      ghost var e := Entry(file, modified, call.now, clock + 1);
      ghost var full := sh.entries[call.key := e];
      InsertPrepares(call, e);
      StoreEntry(i, call, file, modified);
      assert shards[i] == Shard(full, Bytes(full), Free);
      EvictIfNeeded(i, ShardMaxEntries(c), ShardMaxBytes(c));
      InsertRestores(before, i, full, shards[i], old(clock));
      InsertKeepsEtags(sh.entries, call.key, e, shards[i].entries);
      assert shards == before[i := shards[i]];
    }

    /** The trimmed shard fits back into the invariant. */
    lemma InsertRestores(before: seq<Shard>, i: nat, full: Entries, sh: Shard, clock: nat)
      requires ValidConfig(c) && Stores(c) && i < |before| && ShardsOk(c, before, clock) && before[i].lock == Free
      requires StampsOk(full, clock + 1) && LongestNewestRun(full, sh.entries, ShardMaxEntries(c), ShardMaxBytes(c))
      requires sh == Shard(sh.entries, Bytes(sh.entries), Free)
      ensures ShardsOk(c, before[i := sh], clock + 1)
      ensures TotalBytes(before[i := sh]) == TotalBytes(before) - Bytes(before[i].entries) + Bytes(sh.entries)
      ensures TotalEntries(before[i := sh]) == TotalEntries(before) - |before[i].entries| + |sh.entries|
    {
      hide ShardsOk, TotalBytes, TotalEntries, StampsOk, NewestRun, CoversFittingRuns, Bytes;
      RunKeepsStamps(full, sh.entries, clock + 1);
      OneShardKeepsOk(c, before, i, sh, clock, clock + 1);
      TotalsFollowOneShard(before, i, sh);
    }

    /**
     * `get`, run alone.  What the file system answers to the two stats and to the read
     * is given by `statSize`, `statTime` and `content`.
     */
    method Get(path: string, now: int, statSize: Option<nat>, statTime: Option<int>, content: Option<string>)
      returns (r: Option<CachedFile>)
      requires Valid()
      modifies this`shards, this`clock, this`hits, this`misses, this`bytes, this`entries, this`evictions
      ensures Valid()
      ensures var m := old(shards)[ShardOf(c.hash, c.shards, path)].entries;
              var modified := if statTime.Some? then statTime.value else MIN_TIME;
              var recent := c.enabled && path in m && now - m[path].validatedAt < c.interval;
              var same := c.enabled && statSize.Some? && path in m
                          && m[path].modified == modified && m[path].file.size == statSize.value;
              var readable := statSize.Some? && content.Some? && |content.value| >= statSize.value;
              var stored := c.enabled && c.maxEntries != 0 && c.maxBytes != 0 && statSize.Some?
                            && statSize.value <= c.maxFileBytes && statSize.value <= c.maxBytes;
              && (recent ==> r == Some(m[path].file) && shards == old(shards))
              && (!recent && statSize.None? ==> r == None && shards == old(shards) && misses == old(misses))
              && (!recent && same ==> r == Some(m[path].file))
              && (!recent && statSize.Some? && !same ==> misses == old(misses) + 1)
              && (!recent && !same && !readable ==> r == None && shards == old(shards))
              && (!recent && !same && readable ==>
                    r.Some? && r.value.body == content.value[..statSize.value] && r.value.size == statSize.value)
              && (!recent && r.Some? ==> NamesVersion(r.value.etag, statSize.value, modified))
              && (recent ==> NamesVersion(r.value.etag, r.value.size, m[path].modified))
              && (!recent && !same && readable && !stored ==> shards == old(shards))
              && (!recent && !same && readable && stored ==>
                    LongestNewestRun(m[path := Entry(r.value, modified, now, old(clock) + 1)],
                                     shards[ShardOf(c.hash, c.shards, path)].entries,
                                     ShardMaxEntries(c), ShardMaxBytes(c)))
      ensures hits + misses <= old(hits) + old(misses) + 1
      ensures r.Some? ==> hits + misses == old(hits) + old(misses) + 1
    {
      hide LongestNewestRun, MakeEtag, NamesVersion, EtagsOk;
      CachedEtag(path);
      hide Valid, Inv, ShardMaxEntries, ShardMaxBytes, ShardOf;
      var call := Call(path, now);
      if c.enabled {
        r := LookupSection(call);
        if r.Some? { return; }
      }
      if statSize.None? { return None; }
      var size := statSize.value;
      var modified := if statTime.Some? then statTime.value else MIN_TIME;
      if c.enabled {
        r := RevalidateSection(call, size, modified);
        if r.Some? { return; }
      }
      r := ReadSection(call, size, modified, content);
    }

    /** After a miss: the file is read and, unless it is too large to store, inserted. */
    method ReadSection(call: Call, size: nat, modified: int, content: Option<string>) returns (r: Option<CachedFile>)
      requires Valid()
      modifies this`shards, this`clock, this`misses, this`bytes, this`entries, this`evictions
      ensures Valid() && misses == old(misses) + 1
      ensures var i := ShardOf(c.hash, c.shards, call.key);
              var stored := c.enabled && c.maxEntries != 0 && c.maxBytes != 0
                            && size <= c.maxFileBytes && size <= c.maxBytes;
              && (r.Some? <==> content.Some? && |content.value| >= size)
              && (r.None? ==> shards == old(shards))
              && (r.Some? ==>
                    && r.value.body == content.value[..size] && r.value.size == size
                    && NamesVersion(r.value.etag, size, modified)
                    && (!stored ==> shards == old(shards))
                    && (stored ==> LongestNewestRun(
                            old(shards)[i].entries[call.key := Entry(r.value, modified, call.now, old(clock) + 1)],
                            shards[i].entries, ShardMaxEntries(c), ShardMaxBytes(c))))
    {
      hide LongestNewestRun, MakeEtag, NamesVersion, EtagsOk, Valid, Inv, ShardMaxEntries, ShardMaxBytes, ShardOf;
      CountMiss();
      if content.None? || |content.value| < size { return None; }
      var file := CachedFile(content.value[..size], MakeEtag(size, modified), size);
      EtagNamesVersion(size, modified);
      r := Some(file);
      if Bypassed(c, size) { return; }
      InsertSection(call, file, modified);
    }

    lemma CachedEtag(path: string)
      requires Valid()
      ensures var i := ShardOf(c.hash, c.shards, path);
              i < |shards| && (path in shards[i].entries ==>
                                 var e := shards[i].entries[path]; NamesVersion(e.file.etag, e.file.size, e.modified))
    {
    }

    method CountMiss()
      requires Valid()
      modifies this`misses
      ensures Valid() && misses == old(misses) + 1
    {
      hide ShardsOk, EtagsOk, TotalBytes, TotalEntries;
      misses := misses + 1;
    }

    /** What the insert section relies on before it touches anything. */
    lemma InsertPrepares(call: Call, e: Entry)
      requires Valid() && Stores(c) && e.lastAccess == clock + 1
      ensures var sh := shards[ShardOf(c.hash, c.shards, call.key)];
              var full := sh.entries[call.key := e];
              && sh.bytes == Bytes(sh.entries) && bytes >= Bytes(sh.entries) && entries >= |sh.entries|
              && StampsOk(full, clock + 1) && DistinctStamps(full)
              && |full| == |sh.entries| + (if call.key in sh.entries then 0 else 1)
              && (call.key in sh.entries ==> Bytes(sh.entries) >= sh.entries[call.key].file.size)
              && var prior := if call.key in sh.entries then sh.entries[call.key].file.size else 0;
                 Bytes(full) == Bytes(sh.entries) + e.file.size - prior
    {
      hide ShardsOk, TotalBytes, TotalEntries, Bytes, EtagsOk;
      var i := ShardOf(c.hash, c.shards, call.key);
      ShardIsOk(c, shards, clock, i);
      var sh := shards[i];
      BytesStore(sh.entries, call.key, e);
      StoreCounts(sh.entries, call.key, e);
      if call.key in sh.entries { BytesRemove(sh.entries, call.key); }
      PartOfTotals(shards, i, c, clock);
    }
  }

  lemma EmptyHasNoBytes()
    ensures Bytes(map[]) == 0
  {
  }

  /** Each shard's own share is part of the totals. */
  lemma {:induction false} PartOfTotals(shards: seq<Shard>, i: nat, c: Config, clock: nat)
    requires ValidConfig(c) && i < |shards| && ShardsOk(c, shards, clock) && shards[i].lock == Free
    ensures TotalBytes(shards) >= Bytes(shards[i].entries) && TotalEntries(shards) >= |shards[i].entries|
  {
    hide ShardOk, Bytes;
    if i == 0 {
      TotalsNonNegative(c, shards[1..], clock);
    } else {
      PartOfTotals(shards[1..], i - 1, c, clock);
      ContributionNonNegative(c, shards[0].entries, shards[0].bytes, shards[0].lock, clock);
    }
  }

  lemma RunKeepsStamps(full: Entries, r: Entries, clock: nat)
    requires StampsOk(full, clock) && NewestRun(full, r)
    ensures StampsOk(r, clock)
  {
  }
}
