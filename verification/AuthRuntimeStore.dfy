/** The hot-reloading token store (src/AuthRuntimeStore.cpp) as a transition function, and what holds over its runs. */
module AuthStoreModel {
  import opened Basics
  import opened Text
  import opened AuthModel
  import Sha256Spec

  /** Nanoseconds in a second of the steady clock. */
  const SECOND: nat := 1_000_000_000

  datatype StoreState = StoreState(
    inlineTokens: seq<TokenRule>, hasPath: bool, hotReload: bool, interval: nat,
    fileTokens: seq<TokenRule>, activeTokens: seq<TokenRule>,
    lastCheck: int, lastWriteTime: int, hadFile: bool, generation: nat, lastReload: int)

  /** What a call finds: clock readings, and the file as each system call sees it (nothing: the call throws). */
  datatype Probe = Probe(now: int, epoch: int, present: bool, writeTime: Option<int>, load: Option<seq<TokenRule>>)

  datatype Code = NoChange | Reloaded | Failed

  datatype ReloadResult = ReloadResult(code: Code, tokenCount: nat, generation: nat)

  predicate DistinctNames(rules: seq<TokenRule>) {
    forall i, j :: 0 <= i < j < |rules| ==> rules[i].name != rules[j].name
  }

  /** `combineAndValidate`: nothing when two rules have the same name. */
  function Combine(inlineTokens: seq<TokenRule>, fileTokens: seq<TokenRule>): Option<seq<TokenRule>> {
    if DistinctNames(inlineTokens + fileTokens) then Some(inlineTokens + fileTokens) else None
  }

  /** The constructor: the file is loaded first, its write time is read afterwards. */
  function Created(inlineTokens: seq<TokenRule>, hasPath: bool, hotReload: bool, interval: nat,
                   p: Probe): Option<StoreState> {
    if hasPath && !(p.present && p.load.Some? && p.writeTime.Some?) then None
    else
      var fileTokens := if hasPath then p.load.value else [];
      var combined := Combine(inlineTokens, fileTokens);
      if combined.None? then None
      else Some(StoreState(inlineTokens, hasPath, hotReload, interval, fileTokens, combined.value,
                           p.now, if hasPath then p.writeTime.value else 0, hasPath, 1, p.epoch))
  }

  /** The call gets as far as the file. */
  predicate Looks(s: StoreState, force: bool, now: int) {
    (s.hotReload || force) && s.hasPath && (force || s.interval == 0 || now - s.lastCheck >= s.interval * SECOND)
  }

  function ResultOf(s: StoreState, code: Code): ReloadResult {
    ReloadResult(code, |s.activeTokens|, s.generation)
  }

  function Refreshed(s: StoreState, force: bool, p: Probe): (StoreState, ReloadResult) {
    if !Looks(s, force, p.now) then (s, ResultOf(s, NoChange)) else
      var c := s.(lastCheck := p.now);
      if !p.present then
        if !s.hadFile then (c, ResultOf(c, NoChange)) else
          var active := Combine(s.inlineTokens, []);
          if active.None? then (c.(fileTokens := []), ResultOf(c, Failed)) else
            var r := c.(fileTokens := [], activeTokens := active.value, hadFile := false, lastWriteTime := 0,
                        generation := s.generation + 1, lastReload := p.epoch);
            (r, ResultOf(r, Reloaded))
      else if p.writeTime.None? then (c, ResultOf(c, Failed))
      else if !force && s.hadFile && p.writeTime.value == s.lastWriteTime then (c, ResultOf(c, NoChange))
      else
        var seen := c.(lastWriteTime := p.writeTime.value, hadFile := true);
        if p.load.None? || Combine(s.inlineTokens, p.load.value).None? then (seen, ResultOf(seen, Failed)) else
          var r := seen.(fileTokens := p.load.value, activeTokens := Combine(s.inlineTokens, p.load.value).value,
                         generation := s.generation + 1, lastReload := p.epoch);
          (r, ResultOf(r, Reloaded))
  }

  // ---------------------------------------------------------------- runs

  datatype Event = Event(force: bool, probe: Probe)

  function Run(s: StoreState, events: seq<Event>): StoreState {
    if events == [] then s else
      var e := events[|events| - 1];
      Refreshed(Run(s, events[..|events| - 1]), e.force, e.probe).0
  }

  /** What each call of the run returned. */
  function Results(s: StoreState, events: seq<Event>): (r: seq<ReloadResult>)
    ensures |r| == |events|
  {
    if events == [] then [] else
      var e, before := events[|events| - 1], events[..|events| - 1];
      Results(s, before) + [Refreshed(Run(s, before), e.force, e.probe).1]
  }

  function ReloadCount(results: seq<ReloadResult>): nat {
    if results == [] then 0
    else ReloadCount(results[..|results| - 1]) + (if results[|results| - 1].code.Reloaded? then 1 else 0)
  }

  /** The rules of the last file version that a call reported as loaded; none if it reported the removal. */
  function LastLoaded(start: seq<TokenRule>, events: seq<Event>, results: seq<ReloadResult>): seq<TokenRule>
    requires |events| == |results|
  {
    if events == [] then start else
      var n := |events| - 1;
      var p := events[n].probe;
      if results[n].code.Reloaded? then
        if p.present && p.load.Some? then p.load.value else []
      else LastLoaded(start, events[..n], results[..n])
  }

  ghost predicate Consistent(s: StoreState) {
    && s.activeTokens == s.inlineTokens + s.fileTokens
    && DistinctNames(s.activeTokens)
    && s.generation >= 1
    && (!s.hadFile ==> s.fileTokens == [])
  }

  /** Forced calls always, others with reloading on and the interval in seconds gone by since the last check. */
  predicate IsDue(s: StoreState, force: bool, now: int) {
    && s.hasPath
    && (!force ==> s.hotReload)
    && (!force && s.interval != 0 ==> s.lastCheck + s.interval * 1_000_000_000 <= now)
  }

  lemma LooksWhenDue(s: StoreState, force: bool, now: int)
    ensures Looks(s, force, now) <==> IsDue(s, force, now)
  {
  }

  lemma PrefixIsDistinct(a: seq<TokenRule>, b: seq<TokenRule>)
    requires DistinctNames(a + b)
    ensures DistinctNames(a)
  {
    assert forall k :: 0 <= k < |a| ==> a[k] == (a + b)[k];
  }

  lemma CreatedIsConsistent(inlineTokens: seq<TokenRule>, hasPath: bool, hotReload: bool, interval: nat, p: Probe)
    ensures var s := Created(inlineTokens, hasPath, hotReload, interval, p);
            s.Some? ==> Consistent(s.value) && s.value.generation == 1
  {
  }

  /**
   * One call: consistency is kept; a reload raises the generation by one and installs what was
   * loaded, or nothing after a removal; any other outcome changes neither rules nor generation;
   * a detected removal cannot fail; and nothing at all happens unless the call is due.
   */
  lemma StepKeepsConsistency(s: StoreState, force: bool, p: Probe)
    requires Consistent(s)
    ensures var (t, r) := Refreshed(s, force, p);
            && Consistent(t)
            && t.inlineTokens == s.inlineTokens && r.generation == t.generation && r.tokenCount == |t.activeTokens|
            && (r.code.Reloaded? ==>
                  && t.generation == s.generation + 1
                  && t.fileTokens == if p.present && p.load.Some? then p.load.value else [])
            && (!r.code.Reloaded? ==>
                  t.activeTokens == s.activeTokens && t.fileTokens == s.fileTokens && t.generation == s.generation)
            && (IsDue(s, force, p.now) && !p.present ==> !r.code.Failed? && t.activeTokens == s.inlineTokens)
            && (!IsDue(s, force, p.now) ==> t == s && r.code.NoChange?)
            && t.lastCheck == if IsDue(s, force, p.now) then p.now else s.lastCheck
  {
    hide DistinctNames;
    LooksWhenDue(s, force, p.now);
    PrefixIsDistinct(s.inlineTokens, s.fileTokens);
    assert s.inlineTokens + [] == s.inlineTokens;
  }

  /**
   * Over every run: the active rules are the inline rules followed by those of the last
   * successfully loaded file version (none after a detected removal), names are distinct and
   * the generation counts the reloads.
   */
  lemma {:induction false} RunsServeTheLastLoaded(s: StoreState, events: seq<Event>)
    requires Consistent(s)
    ensures var t := Run(s, events);
            && Consistent(t) && t.inlineTokens == s.inlineTokens
            && t.fileTokens == LastLoaded(s.fileTokens, events, Results(s, events))
            && t.activeTokens == s.inlineTokens + LastLoaded(s.fileTokens, events, Results(s, events))
            && t.generation == s.generation + ReloadCount(Results(s, events))
    decreases |events|
  {
    hide Refreshed, DistinctNames;
    if events != [] {
      var n := |events| - 1;
      var e, before := events[n], events[..n];
      RunsServeTheLastLoaded(s, before);
      StepKeepsConsistency(Run(s, before), e.force, e.probe);
      assert Results(s, events)[..n] == Results(s, before);
    }
  }

  /** A file version that failed is not tried again until its write time changes. */
  lemma FailedVersionIsRemembered(s: StoreState, force: bool, p: Probe, q: Probe)
    requires Refreshed(s, force, p).1.code.Failed? && Consistent(s)
    requires p.writeTime.Some? && q.present && q.writeTime == p.writeTime
    ensures var t := Refreshed(s, force, p).0;
            Refreshed(t, false, q)
            == (if Looks(t, false, q.now) then t.(lastCheck := q.now) else t, ResultOf(t, NoChange))
  {
    hide DistinctNames;
    StepKeepsConsistency(s, force, p);
  }

  // ---------------------------------------------------------------- agreement with the file

  /** Every write makes a new version of the file. */
  datatype FileVersion = Gone | Present(mtime: int, rules: Option<seq<TokenRule>>)

  type History = nat -> FileVersion

  ghost predicate WriteTimesIdentify(h: History) {
    forall i, j :: h(i).Present? && h(j).Present? && h(i).mtime == h(j).mtime ==> i == j
  }

  /** A refresh, and which version was current at each of its system calls. */
  datatype Look = Look(force: bool, now: int, epoch: int, atExists: nat, atStat: nat, atLoad: nat)

  predicate InOrder(k: Look) {
    k.atExists <= k.atStat <= k.atLoad
  }

  function ProbeOf(h: History, k: Look): Probe {
    Probe(k.now, k.epoch, h(k.atExists).Present?,
          if h(k.atStat).Present? then Some(h(k.atStat).mtime) else None,
          if h(k.atLoad).Present? then h(k.atLoad).rules else None)
  }

  predicate Acceptable(inlineTokens: seq<TokenRule>, v: FileVersion) {
    v.Present? && v.rules.Some? && DistinctNames(inlineTokens + v.rules.value)
  }

  /** Which versions the store's memory is about: the one whose write time it has, and the one last read. */
  datatype Track = NoFile | Loaded(stat: nat, load: nat) | Broken(stat: nat, load: nat)

  ghost predicate Tracks(s: StoreState, h: History, t: Track, latest: nat) {
    match t
    case NoFile => !s.hadFile
    case Loaded(w, l) =>
      && s.hadFile && w <= l <= latest && h(w).Present? && h(w).mtime == s.lastWriteTime
      && h(l).Present? && h(l).rules == Some(s.fileTokens)
    case Broken(w, l) =>
      && s.hadFile && w <= l <= latest && h(w).Present? && h(w).mtime == s.lastWriteTime
      && !Acceptable(s.inlineTokens, h(l))
  }

  function NextTrack(s: StoreState, h: History, t: Track, k: Look): Track {
    if !Looks(s, k.force, k.now) then t
    else if h(k.atExists).Gone? then NoFile
    else if h(k.atStat).Gone? || (!k.force && s.hadFile && h(k.atStat).mtime == s.lastWriteTime) then t
    else if Acceptable(s.inlineTokens, h(k.atLoad)) then Loaded(k.atStat, k.atLoad)
    else Broken(k.atStat, k.atLoad)
  }

  /**
   * A call that looks at the file ends with the rules of a version that was current during the
   * call, or with none if the file was gone, unless some version during the call was unusable.
   */
  ghost predicate UpToDate(s: StoreState, h: History, k: Look) {
    && (h(k.atExists).Gone? ==> s.fileTokens == [])
    && ((forall v :: k.atExists <= v <= k.atLoad ==> Acceptable(s.inlineTokens, h(v))) ==>
          exists v :: k.atExists <= v <= k.atLoad && h(v).Present? && h(v).rules == Some(s.fileTokens))
  }

  lemma StepTracks(s: StoreState, h: History, t: Track, latest: nat, k: Look)
    requires Consistent(s) && WriteTimesIdentify(h) && InOrder(k)
    requires Tracks(s, h, t, latest) && latest <= k.atExists
    ensures var s' := Refreshed(s, k.force, ProbeOf(h, k)).0;
            && Consistent(s') && Tracks(s', h, NextTrack(s, h, t, k), k.atLoad)
            && (Looks(s, k.force, k.now) ==> UpToDate(s', h, k))
  {
    hide DistinctNames;
    var p := ProbeOf(h, k);
    var s' := Refreshed(s, k.force, p).0;
    StepKeepsConsistency(s, k.force, p);
    if Looks(s, k.force, k.now) && h(k.atExists).Present? && h(k.atStat).Present? {
      if !k.force && s.hadFile && h(k.atStat).mtime == s.lastWriteTime {
        assert !t.NoFile?;
        assert h(t.stat).mtime == h(k.atStat).mtime;
        assert t.stat == t.load == k.atStat;
      } else if Acceptable(s.inlineTokens, h(k.atLoad)) {
        assert h(k.atLoad).rules == Some(s'.fileTokens);
      }
    }
  }

  /** The calls of a run, each later than the one before. */
  ghost predicate Successive(looks: seq<Look>, from: nat) {
    && (forall i :: 0 <= i < |looks| ==> InOrder(looks[i]) && from <= looks[i].atExists)
    && (forall i, j :: 0 <= i < j < |looks| ==> looks[i].atLoad <= looks[j].atExists)
  }

  function EventsOf(h: History, looks: seq<Look>): (r: seq<Event>)
    ensures |r| == |looks|
  {
    seq(|looks|, i requires 0 <= i < |looks| => Event(looks[i].force, ProbeOf(h, looks[i])))
  }

  ghost predicate Tracked(s: StoreState, h: History, latest: nat) {
    exists t :: Tracks(s, h, t, latest)
  }

  /** The last version that any of the calls can have seen. */
  function Latest(looks: seq<Look>, from: nat): nat {
    if looks == [] then from else looks[|looks| - 1].atLoad
  }

  /** After every look of a run the rules are up to date, however the file was written in between. */
  lemma {:induction false} RunsAreUpToDate(s: StoreState, h: History, from: nat, looks: seq<Look>)
    requires Consistent(s) && WriteTimesIdentify(h) && Tracked(s, h, from) && Successive(looks, from)
    ensures Tracked(Run(s, EventsOf(h, looks)), h, Latest(looks, from)) && Consistent(Run(s, EventsOf(h, looks)))
    ensures looks != [] ==>
              var k := looks[|looks| - 1];
              Looks(Run(s, EventsOf(h, looks[..|looks| - 1])), k.force, k.now) ==>
                UpToDate(Run(s, EventsOf(h, looks)), h, k)
    decreases |looks|
  {
    hide Refreshed, Tracks, UpToDate, Looks, Consistent, NextTrack, WriteTimesIdentify;
    if looks == [] {
      assert Run(s, EventsOf(h, looks)) == s;
    } else {
      var n := |looks| - 1;
      var k := looks[n];
      RunsAreUpToDate(s, h, from, looks[..n]);
      assert EventsOf(h, looks)[..n] == EventsOf(h, looks[..n]);
      var before := Run(s, EventsOf(h, looks[..n]));
      var latest := Latest(looks[..n], from);
      var u :| Tracks(before, h, u, latest);
      StepTracks(before, h, u, latest, k);
    }
  }

  // ---------------------------------------------------------------- the constructor's race

  /** The constructor with the version it loads and the version whose write time it then reads. */
  function CreatedAt(inlineTokens: seq<TokenRule>, hotReload: bool, interval: nat, h: History, now: int, epoch: int,
                     load: nat, stat: nat): Option<StoreState> {
    Created(inlineTokens, true, hotReload, interval,
            Probe(now, epoch, true, if h(stat).Present? then Some(h(stat).mtime) else None,
                  if h(load).Present? then h(load).rules else None))
  }

  lemma QuietConstructorTracks(inlineTokens: seq<TokenRule>, hotReload: bool, interval: nat, h: History, now: int,
                               epoch: int, v: nat)
    ensures var s := CreatedAt(inlineTokens, hotReload, interval, h, now, epoch, v, v);
            s.Some? ==> Consistent(s.value) && Tracked(s.value, h, v)
  {
    var s := CreatedAt(inlineTokens, hotReload, interval, h, now, epoch, v, v);
    if s.Some? { assert Tracks(s.value, h, Loaded(v, v), v); }
  }

  /** The call gets past the comparison of write times: forced, another write time, or no file any more. */
  predicate Notices(s: StoreState, force: bool, p: Probe) {
    Looks(s, force, p.now) && (!p.present || (p.writeTime.Some? && (force || p.writeTime.value != s.lastWriteTime)))
  }

  /** Some call of the run did. */
  ghost predicate Noticed(s: StoreState, h: History, looks: seq<Look>) {
    exists i :: 0 <= i < |looks| && Notices(Run(s, EventsOf(h, looks[..i])), looks[i].force, ProbeOf(h, looks[i]))
  }

  /** From any remembered write time, such a call sets the store right. */
  lemma NoticingRecovers(s: StoreState, h: History, k: Look)
    requires Consistent(s) && s.hadFile && InOrder(k) && Notices(s, k.force, ProbeOf(h, k))
    ensures var s' := Refreshed(s, k.force, ProbeOf(h, k)).0; Tracked(s', h, k.atLoad) && UpToDate(s', h, k)
  {
    hide DistinctNames;
    var s' := Refreshed(s, k.force, ProbeOf(h, k)).0;
    StepKeepsConsistency(s, k.force, ProbeOf(h, k));
    var t := if h(k.atExists).Gone? then NoFile
             else if Acceptable(s.inlineTokens, h(k.atLoad)) then Loaded(k.atStat, k.atLoad)
             else Broken(k.atStat, k.atLoad);
    assert Tracks(s', h, t, k.atLoad);
  }

  lemma NotNoticingKeeps(s: StoreState, force: bool, p: Probe)
    requires s.hadFile && !Notices(s, force, p)
    ensures var s' := Refreshed(s, force, p).0; s' == s.(lastCheck := s'.lastCheck)
  {
    hide DistinctNames;
  }

  lemma NoticedStep(s: StoreState, h: History, looks: seq<Look>)
    requires looks != []
    ensures var n := |looks| - 1;
            Noticed(s, h, looks)
            <==> (Noticed(s, h, looks[..n])
                  || Notices(Run(s, EventsOf(h, looks[..n])), looks[n].force, ProbeOf(h, looks[n])))
  {
    hide Notices, Run, EventsOf, ProbeOf;
    var n := |looks| - 1;
    assert forall i :: 0 <= i < n ==> looks[..n][..i] == looks[..i] && looks[..n][i] == looks[i];
  }

  /**
   * Whatever write time a store starts with: until some call notices, nothing changes but the
   * time of the last check; from then on every call that looks leaves the rules up to date.
   */
  lemma {:induction false} RunsRecover(s: StoreState, h: History, from: nat, looks: seq<Look>)
    requires Consistent(s) && s.hadFile && WriteTimesIdentify(h) && Successive(looks, from)
    ensures var t := Run(s, EventsOf(h, looks));
            && Consistent(t)
            && (!Noticed(s, h, looks) ==> t == s.(lastCheck := t.lastCheck))
            && (Noticed(s, h, looks) ==> Tracked(t, h, Latest(looks, from)))
            && (Noticed(s, h, looks) ==>
                  var k := looks[|looks| - 1];
                  Looks(Run(s, EventsOf(h, looks[..|looks| - 1])), k.force, k.now) ==> UpToDate(t, h, k))
    decreases |looks|
  {
    hide Refreshed, Tracks, UpToDate, Looks, NextTrack, WriteTimesIdentify, Notices, Noticed, Consistent;
    if looks == [] {
      assert Run(s, EventsOf(h, looks)) == s;
      NothingNoticed(s, h);
    } else {
      var n := |looks| - 1;
      var k := looks[n];
      RunsRecover(s, h, from, looks[..n]);
      NoticedStep(s, h, looks);
      assert EventsOf(h, looks)[..n] == EventsOf(h, looks[..n]);
      var before := Run(s, EventsOf(h, looks[..n]));
      StepKeepsConsistency(before, k.force, ProbeOf(h, k));
      if Noticed(s, h, looks[..n]) {
        var latest := Latest(looks[..n], from);
        var u :| Tracks(before, h, u, latest);
        StepTracks(before, h, u, latest, k);
      } else if Notices(before, k.force, ProbeOf(h, k)) {
        NoticingRecovers(before, h, k);
      } else {
        NotNoticingKeeps(before, k.force, ProbeOf(h, k));
      }
    }
  }

  lemma NothingNoticed(s: StoreState, h: History)
    ensures !Noticed(s, h, [])
  {
  }

  /** The rules are those of a version that was current during the call. */
  ghost predicate Current(s: StoreState, h: History, k: Look) {
    exists v :: k.atExists <= v <= k.atLoad && h(v).Present? && h(v).rules == Some(s.fileTokens)
  }

  /** During the call the file only had usable versions, all different from what the constructor loaded. */
  ghost predicate Changed(inlineTokens: seq<TokenRule>, h: History, load: nat, k: Look) {
    forall v :: k.atExists <= v <= k.atLoad ==>
      Acceptable(inlineTokens, h(v)) && (h(load).Present? ==> h(v).rules != h(load).rules)
  }

  /**
   * The constructor's race, exactly.  The file was loaded at version `load`, its write time was
   * read at version `stat`.  A later call that looks at a file whose rules have changed ends
   * with current rules if and only if it or some call before it was forced, saw another write
   * time than the constructor, or found no file; otherwise the store still has what it loaded.
   */
  lemma MissedWriteStaysMissed(inlineTokens: seq<TokenRule>, hotReload: bool, interval: nat, h: History, now: int,
                               epoch: int, load: nat, stat: nat, looks: seq<Look>)
    requires WriteTimesIdentify(h) && Successive(looks, stat)
    ensures var created := CreatedAt(inlineTokens, hotReload, interval, h, now, epoch, load, stat);
            created.Some? ==>
              var s, t := created.value, Run(created.value, EventsOf(h, looks));
              && (!Noticed(s, h, looks) ==>
                    t == s.(lastCheck := t.lastCheck) && h(load).Present? && Some(t.fileTokens) == h(load).rules)
              && (looks != [] && Changed(inlineTokens, h, load, looks[|looks| - 1])
                  && Looks(Run(s, EventsOf(h, looks[..|looks| - 1])), looks[|looks| - 1].force,
                           looks[|looks| - 1].now) ==>
                    (Current(t, h, looks[|looks| - 1]) <==> Noticed(s, h, looks)))
  {
    hide Run, EventsOf, Noticed, Looks, Successive, WriteTimesIdentify, DistinctNames;
    var created := CreatedAt(inlineTokens, hotReload, interval, h, now, epoch, load, stat);
    if created.Some? {
      RunsRecover(created.value, h, stat, looks);
      RunKeepsInline(created.value, EventsOf(h, looks));
    }
  }

  lemma {:induction false} RunKeepsInline(s: StoreState, events: seq<Event>)
    ensures Run(s, events).inlineTokens == s.inlineTokens
    decreases |events|
  {
    if events != [] { RunKeepsInline(s, events[..|events| - 1]); }
  }

  // ---------------------------------------------------------------- the race at work

  const SECRET: string := "x"

  function RevokedRule(): TokenRule {
    TokenRule("a", "", Sha256Spec.HexDigest(Bytes(SECRET)), ["*"], 0)
  }

  /** A file that names one token, from which it is then removed. */
  function Revocation(v: nat): FileVersion {
    Present(v, Some(if v == 0 then [RevokedRule()] else []))
  }

  function QuietLooks(n: nat): seq<Look> {
    seq(n, i => Look(false, i, 0, 1, 1, 1))
  }

  lemma SecretIsAllowed()
    ensures IsBytes("Bearer x")
    ensures AuthModel.Authorize("Bearer x", [RevokedRule()], "", "upload", 0) == Allowed("a")
  {
    hide Sha256Spec.HexDigest;
    Sha256Spec.DigestIs64HexDigits(Bytes(SECRET));
    var digest := Sha256Spec.HexDigest(Bytes(SECRET));
    assert Lowercase(digest) == digest;
    assert "Bearer x"[..7] == PREFIX && "Bearer x"[7..] == SECRET;
  }

  /**
   * A store that is constructed while a token is being revoked: after any number of refreshes,
   * each of which looks at the file without it, the token is still allowed.
   */
  lemma RevocationIsMissed(n: nat)
    ensures WriteTimesIdentify(Revocation) && Successive(QuietLooks(n), 1)
    ensures var s := CreatedAt([], true, 0, Revocation, 0, 0, 0, 1);
            && s.Some? && !Noticed(s.value, Revocation, QuietLooks(n))
            && var t := Run(s.value, EventsOf(Revocation, QuietLooks(n)));
               && t.activeTokens == [RevokedRule()]
               && IsBytes("Bearer x")
               && AuthModel.Authorize("Bearer x", t.activeTokens, "", "upload", 0) == Allowed("a")
    ensures Revocation(1).rules == Some([])
  {
    hide RevokedRule;
    SecretIsAllowed();
    var s := CreatedAt([], true, 0, Revocation, 0, 0, 0, 1).value;
    assert [] + [RevokedRule()] == [RevokedRule()];
    NothingIsNoticed(s, n);
    RunsRecover(s, Revocation, 1, QuietLooks(n));
  }

  lemma {:induction false} NothingIsNoticed(s: StoreState, n: nat)
    requires Consistent(s) && s.hadFile && s.lastWriteTime == 1 && WriteTimesIdentify(Revocation)
    ensures !Noticed(s, Revocation, QuietLooks(n))
  {
    hide Revocation, WriteTimesIdentify, Consistent, Run, EventsOf;
    VersionOne();
    if n == 0 {
      NothingNoticed(s, Revocation);
    } else {
      NothingIsNoticed(s, n - 1);
      assert QuietLooks(n)[..n - 1] == QuietLooks(n - 1);
      NoticedStep(s, Revocation, QuietLooks(n));
      RunsRecover(s, Revocation, 1, QuietLooks(n - 1));
    }
  }

  lemma VersionOne()
    ensures Revocation(1).Present? && Revocation(1).mtime == 1
  {
  }
}

module AuthRuntimeStore {
  import opened Basics
  import opened AuthModel
  import opened AuthStoreModel
  import Auth

  class AuthRuntimeStore {
    const inlineTokens: seq<TokenRule>
    const hasPath: bool
    const hotReload: bool
    const interval: nat
    var fileTokens: seq<TokenRule>
    var activeTokens: seq<TokenRule>
    var lastCheck: int
    var lastWriteTime: int
    var hadFile: bool
    var generation: nat
    var lastReload: int

    ghost function State(): StoreState
      reads this
    {
      StoreState(inlineTokens, hasPath, hotReload, interval, fileTokens, activeTokens,
                 lastCheck, lastWriteTime, hadFile, generation, lastReload)
    }

    /** The members before the constructor's body has run. */
    constructor (inlineTokens: seq<TokenRule>, hasPath: bool, hotReload: bool, interval: nat)
      ensures State() == StoreState(inlineTokens, hasPath, hotReload, interval, [], [], 0, 0, false, 0, 0)
    {
      this.inlineTokens, this.hasPath, this.hotReload, this.interval := inlineTokens, hasPath, hotReload, interval;
      fileTokens, activeTokens, lastCheck, lastWriteTime, hadFile, generation, lastReload := [], [], 0, 0, false, 0, 0;
    }

    /** The constructor's body; nothing is returned where it throws. */
    static method Create(inlineTokens: seq<TokenRule>, hasPath: bool, hotReload: bool, interval: nat, p: Probe)
      returns (store: AuthRuntimeStore?)
      ensures match Created(inlineTokens, hasPath, hotReload, interval, p)
              case None => store == null
              case Some(s) => store != null && fresh(store) && store.State() == s
    {
      hide DistinctNames;
      var s := new AuthRuntimeStore(inlineTokens, hasPath, hotReload, interval);
      if hasPath {
        if !p.present { return null; }
        if p.load.None? { return null; }
        s.fileTokens := p.load.value;
        if p.writeTime.None? { return null; }
        s.lastWriteTime := p.writeTime.value;
        s.hadFile := true;
      }
      var combined := CombineAndValidate(inlineTokens, s.fileTokens);
      if combined.None? { return null; }
      s.activeTokens := combined.value;
      s.generation := 1;
      s.lastReload := p.epoch;
      s.lastCheck := p.now;
      return s;
    }

    /** Rules are appended one by one while their names are new. */
    static method Append(combined: seq<TokenRule>, source: seq<TokenRule>) returns (r: Option<seq<TokenRule>>)
      requires DistinctNames(combined)
      ensures r == Combine(combined, source)
    {
      var names := set k | 0 <= k < |combined| :: combined[k].name;
      var all := combined;
      for i := 0 to |source|
        invariant all == combined + source[..i] && DistinctNames(all)
        invariant names == set k | 0 <= k < |all| :: all[k].name
      {
        var token := source[i];
        if token.name in names {
          var k :| 0 <= k < |all| && all[k].name == token.name;
          assert (combined + source)[k].name == (combined + source)[|combined| + i].name;
          return None;
        }
        ghost var before := all;
        names := names + {token.name};
        all := all + [token];
        assert all[|before|] == token && forall k :: 0 <= k < |before| ==> all[k] == before[k];
      }
      assert source[..|source|] == source;
      return Some(all);
    }

    static method CombineAndValidate(inlineTokens: seq<TokenRule>, fileTokens: seq<TokenRule>)
      returns (r: Option<seq<TokenRule>>)
      ensures r == Combine(inlineTokens, fileTokens)
    {
      hide DistinctNames;
      NothingIsDistinct();
      var first := Append([], inlineTokens);
      assert [] + inlineTokens == inlineTokens;
      if first.None? {
        if DistinctNames(inlineTokens + fileTokens) { PrefixIsDistinct(inlineTokens, fileTokens); }
        return None;
      }
      r := Append(first.value, fileTokens);
    }

    static lemma NothingIsDistinct()
      ensures DistinctNames([])
    {
    }

    method CheckIntervalElapsed(now: int) returns (elapsed: bool)
      ensures elapsed == (interval == 0 || now - lastCheck >= interval * SECOND)
    {
      if interval == 0 { return true; }
      return now - lastCheck >= interval * SECOND;
    }

    method Refresh(force: bool, p: Probe) returns (result: ReloadResult)
      modifies this
      ensures (State(), result) == Refreshed(old(State()), force, p)
    {
      hide DistinctNames;
      result := ReloadResult(NoChange, |activeTokens|, generation);
      if !hotReload && !force { return; }
      if !hasPath { return; }
      var elapsed := CheckIntervalElapsed(p.now);
      if !force && !elapsed { return; }
      lastCheck := p.now;
      if !p.present {
        if !hadFile { return; }
        fileTokens := [];
        var combined := CombineAndValidate(inlineTokens, fileTokens);
        if combined.None? { return result.(code := Failed); }
        activeTokens := combined.value;
        hadFile := false;
        lastWriteTime := 0;
        generation := generation + 1;
        lastReload := p.epoch;
        return ReloadResult(Reloaded, |activeTokens|, generation);
      }
      if p.writeTime.None? { return result.(code := Failed); }
      var writeTime := p.writeTime.value;
      if !force && hadFile && writeTime == lastWriteTime { return; }
      var combined: Option<seq<TokenRule>> := None;
      if p.load.Some? { combined := CombineAndValidate(inlineTokens, p.load.value); }
      lastWriteTime := writeTime;
      hadFile := true;
      if combined.None? { return result.(code := Failed); }
      fileTokens := p.load.value;
      activeTokens := combined.value;
      generation := generation + 1;
      lastReload := p.epoch;
      result := ReloadResult(Reloaded, |activeTokens|, generation);
    }

    /**
     * A refresh, then a decision.  The mutex is free between the two: `between` are the refreshes
     * that other threads get in there.  The decision is taken with the rules as the last one left them.
     */
    method Authorize(header: string, legacy: string, scope: string, now: int, p: Probe, between: seq<Event>)
      returns (d: Decision, reload: ReloadResult)
      requires IsBytes(header) && |header| < 0x2000_0000_0000_0000
      modifies this
      ensures reload == Refreshed(old(State()), false, p).1
      ensures State() == Run(Refreshed(old(State()), false, p).0, between)
      ensures d == AuthModel.Authorize(header, State().activeTokens, legacy, scope, now)
    {
      hide Refreshed;
      reload := Refresh(false, p);
      ghost var after := State();
      for i := 0 to |between|
        invariant State() == Run(after, between[..i])
      {
        assert between[..i + 1][..i] == between[..i];
        var _ := Refresh(between[i].force, between[i].probe);
      }
      assert between[..|between|] == between;
      d := Auth.Authorize(header, activeTokens, legacy, scope, now);
    }
  }
}
