/**
 * The contents of one shard of the static file cache and the rule by which it is
 * trimmed (src/StaticFileCache.cpp:39-58).  Eviction is specified declaratively:
 * what is left is the longest newest-first run of entries that fits both budgets.
 */
module CacheEviction {
  datatype CachedFile = CachedFile(body: string, etag: string, size: nat)

  datatype Entry = Entry(file: CachedFile, modified: int, validatedAt: int, lastAccess: nat)

  type Entries = map<string, Entry>

  /** Total size of all cached files of a shard. */
  ghost function Bytes(m: Entries): nat {
    if m == map[] then 0 else
      var k :| k in m;
      m[k].file.size + Bytes(m - {k})
  }

  lemma {:induction false} BytesRemove(m: Entries, k: string)
    requires k in m
    ensures Bytes(m) == m[k].file.size + Bytes(m - {k})
    decreases |m|
  {
    var c :| c in m && Bytes(m) == m[c].file.size + Bytes(m - {c});
    if c != k {
      var rest := m - {c};
      assert |rest| < |m| by { assert rest.Keys == m.Keys - {c}; }
      BytesRemove(rest, k);
      assert |m - {k}| < |m| by { assert (m - {k}).Keys == m.Keys - {k}; }
      BytesRemove(m - {k}, c);
      assert rest - {k} == (m - {k}) - {c};
    }
  }

  lemma BytesStore(m: Entries, k: string, e: Entry)
    ensures Bytes(m[k := e]) == e.file.size + Bytes(m - {k})
    ensures k in m ==> Bytes(m[k := e]) == Bytes(m) - m[k].file.size + e.file.size
    ensures k !in m ==> Bytes(m[k := e]) == Bytes(m) + e.file.size
  {
    BytesRemove(m[k := e], k);
    assert m[k := e] - {k} == m - {k};
    if k in m {
      BytesRemove(m, k);
    } else {
      assert m - {k} == m;
    }
  }

  /** Bytes only looks at the sizes, so revalidating an entry keeps it. */
  lemma BytesSameSize(m: Entries, k: string, e: Entry)
    requires k in m && e.file.size == m[k].file.size
    ensures Bytes(m[k := e]) == Bytes(m)
  {
    BytesStore(m, k, e);
  }

  /** The insertion stamps taken from `clock_` are never shared. */
  ghost predicate DistinctStamps(m: Entries) {
    forall j, k :: j in m && k in m && m[j].lastAccess == m[k].lastAccess ==> j == k
  }

  ghost predicate Fits(m: Entries, maxEntries: nat, maxBytes: nat) {
    |m| <= maxEntries && Bytes(m) <= maxBytes
  }

  /** `r` consists of the newest entries of `m`: whatever is newer than something kept is kept. */
  ghost predicate NewestRun(m: Entries, r: Entries) {
    && (forall k :: k in r ==> k in m && r[k] == m[k])
    && (forall j, k :: k in r && j in m && m[k].lastAccess <= m[j].lastAccess ==> j in r)
  }

  ghost predicate FittingRun(m: Entries, r: Entries, maxEntries: nat, maxBytes: nat) {
    NewestRun(m, r) && Fits(r, maxEntries, maxBytes)
  }

  /** No newest-first run that fits keeps anything outside `r`. */
  ghost predicate CoversFittingRuns(m: Entries, r: Entries, maxEntries: nat, maxBytes: nat) {
    forall q: Entries :: FittingRun(m, q, maxEntries, maxBytes) ==> q.Keys <= r.Keys
  }

  /** The contract of eviction: `r` is the longest newest-first run of `m` inside both budgets. */
  ghost predicate LongestNewestRun(m: Entries, r: Entries, maxEntries: nat, maxBytes: nat) {
    FittingRun(m, r, maxEntries, maxBytes) && CoversFittingRuns(m, r, maxEntries, maxBytes)
  }

  ghost predicate IsOldest(m: Entries, v: string) {
    v in m && forall k :: k in m ==> m[v].lastAccess <= m[k].lastAccess
  }

  lemma LongestNewestRunIsUnique(m: Entries, r: Entries, q: Entries, maxEntries: nat, maxBytes: nat)
    requires LongestNewestRun(m, r, maxEntries, maxBytes)
    requires LongestNewestRun(m, q, maxEntries, maxBytes)
    ensures r == q
  {
    assert q.Keys <= r.Keys && r.Keys <= q.Keys;
    assert r.Keys == q.Keys;
  }

  lemma WholeMapIsNewestRun(m: Entries, maxEntries: nat, maxBytes: nat)
    ensures NewestRun(m, m) && CoversFittingRuns(m, m, maxEntries, maxBytes)
  {
  }

  /** Dropping the oldest entry of a run that does not fit loses no run that does. */
  lemma EvictOldestKeepsRun(m: Entries, r: Entries, v: string, maxEntries: nat, maxBytes: nat)
    requires DistinctStamps(m)
    requires NewestRun(m, r) && CoversFittingRuns(m, r, maxEntries, maxBytes)
    requires !Fits(r, maxEntries, maxBytes) && IsOldest(r, v)
    ensures NewestRun(m, r - {v}) && CoversFittingRuns(m, r - {v}, maxEntries, maxBytes)
  {
    hide Fits;
    forall q: Entries | FittingRun(m, q, maxEntries, maxBytes)
      ensures q.Keys <= (r - {v}).Keys
    {
      if v in q { RunWithOldest(m, r, q, v); }
    }
  }

  /** A run inside `r` that has the oldest entry of `r` is all of `r`. */
  lemma RunWithOldest(m: Entries, r: Entries, q: Entries, v: string)
    requires NewestRun(m, r) && NewestRun(m, q) && q.Keys <= r.Keys && IsOldest(r, v) && v in q
    ensures q == r
  {
    assert q.Keys == r.Keys;
  }

  /**
   * What an insert does to a full shard: with `newest` stamped later than everything
   * else, it survives exactly when its own size is within the byte budget; when it is
   * not, eviction empties the shard.
   */
  lemma NewEntryGoesOnlyIfTooBig(m: Entries, r: Entries, newest: string, maxEntries: nat, maxBytes: nat)
    requires newest in m && maxEntries >= 1
    requires forall k :: k in m && k != newest ==> m[k].lastAccess < m[newest].lastAccess
    requires LongestNewestRun(m, r, maxEntries, maxBytes)
    ensures newest in r <==> m[newest].file.size <= maxBytes
    ensures newest !in r ==> r == map[]
  {
    var alone: Entries := map[newest := m[newest]];
    assert NewestRun(m, alone);
    BytesRemove(alone, newest);
    assert alone - {newest} == map[];
    if m[newest].file.size <= maxBytes {
      assert FittingRun(m, alone, maxEntries, maxBytes);
      assert newest in alone.Keys;
    } else if newest in r {
      BytesRemove(r, newest);
      assert false;
    }
  }

  lemma RemoveKeepsStamps(m: Entries, k: string)
    requires DistinctStamps(m)
    ensures DistinctStamps(m - {k})
    ensures k in m ==> |m - {k}| == |m| - 1
    ensures k !in m ==> m - {k} == m
  {
    assert (m - {k}).Keys == m.Keys - {k};
  }
}
