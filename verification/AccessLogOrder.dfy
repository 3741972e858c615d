/**
 * When the access file has the lines in order (src/Logger.cpp:51-140): exactly as long as no
 * batch is written while one that was taken from the queue before it is still unwritten.
 */
module AccessLogOrder {
  import opened AccessLogProtocol

  // ---------------------------------------------------------------- which batches are out

  /**
   * A record of a run: how many lines were taken off the queue so far, the non-empty batches
   * that were taken and not written yet, by the number of lines taken before them, and that
   * number for the last batch of the writer, of the destructor and of each flush in progress.
   */
  datatype Ledger = Ledger(taken: nat, unwritten: map<nat, seq<string>>, writerFrom: nat, lastFrom: nat,
                           flushFrom: seq<nat>)

  function Took(l: Ledger, batch: seq<string>): Ledger {
    l.(taken := l.taken + |batch|, unwritten := if batch == [] then l.unwritten else l.unwritten[l.taken := batch])
  }

  function Put(l: Ledger, from: nat, batch: seq<string>): Ledger {
    l.(unwritten := if batch == [] then l.unwritten else l.unwritten - {from})
  }

  /** The batch that a step writes to the file. */
  function Written(s: State, a: Label): seq<string>
    requires Enabled(s, a)
  {
    match a
    case Write => s.writer.batch
    case FlushWrite(f) => s.flushing[f]
    case LastWrite => s.life.batch
    case _ => []
  }

  /** How many lines had been taken before that batch was. */
  function WrittenFrom(l: Ledger, a: Label): nat {
    match a
    case Write => l.writerFrom
    case FlushWrite(f) => if f < |l.flushFrom| then l.flushFrom[f] else 0
    case LastWrite => l.lastFrom
    case _ => 0
  }

  function NextLedger(l: Ledger, s: State, a: Label): Ledger
    requires Enabled(s, a)
  {
    var next := Put(l, WrittenFrom(l, a), Written(s, a));
    match a
    case Swap => Took(l, s.queue).(writerFrom := l.taken)
    case FlushSwap => Took(l, s.queue).(flushFrom := l.flushFrom + [l.taken])
    case LastSwap => Took(l, s.queue).(lastFrom := l.taken)
    case FlushWrite(f) =>
      next.(flushFrom := if f < |l.flushFrom| then l.flushFrom[..f] + l.flushFrom[f + 1..] else l.flushFrom)
    case _ => next
  }

  ghost function LedgerAt(run: seq<State>, labels: seq<Label>, k: nat): Ledger
    requires IsRun(run, labels) && k < |run|
  {
    if k == 0 then Ledger(0, map[], 0, 0, []) else NextLedger(LedgerAt(run, labels, k - 1), run[k - 1], labels[k - 1])
  }

  /** Step `j` writes a non-empty batch while a non-empty one taken earlier is still unwritten. */
  ghost predicate Overtakes(run: seq<State>, labels: seq<Label>, j: nat)
    requires IsRun(run, labels) && j < |labels|
  {
    var l := LedgerAt(run, labels, j);
    Written(run[j], labels[j]) != [] && exists from :: from in l.unwritten && from < WrittenFrom(l, labels[j])
  }

  ghost predicate NoOvertaking(run: seq<State>, labels: seq<Label>, k: nat)
    requires IsRun(run, labels) && k < |run|
  {
    forall j :: 0 <= j < k ==> !Overtakes(run, labels, j)
  }

  ghost predicate Distinct(lines: seq<string>) {
    forall i, j :: 0 <= i < j < |lines| ==> lines[i] != lines[j]
  }

  // ---------------------------------------------------------------- the ledger is right

  /** The non-empty ones among `batches` are exactly the unwritten ones, each held once. */
  ghost predicate Held(batches: seq<seq<string>>, froms: seq<nat>, unwritten: map<nat, seq<string>>) {
    && |batches| == |froms|
    && (forall i :: 0 <= i < |batches| && batches[i] != [] ==>
          froms[i] in unwritten && unwritten[froms[i]] == batches[i])
    && (forall i, j :: 0 <= i < j < |batches| && batches[i] != [] && batches[j] != [] ==> froms[i] != froms[j])
    && (forall from :: from in unwritten ==> exists i :: 0 <= i < |batches| && batches[i] != [] && froms[i] == from)
  }

  /** The writer's batch and those of the flushes in progress; the destructor's is always empty. */
  ghost predicate Linked(s: State, l: Ledger) {
    Held([WriterBatch(s.writer)] + s.flushing, [l.writerFrom] + l.flushFrom, l.unwritten)
  }

  lemma EmptyKeepsHeld(bs: seq<seq<string>>, fs: seq<nat>, u: map<nat, seq<string>>, i: nat)
    requires Held(bs, fs, u) && i < |bs|
    ensures Held(bs[i := []], fs, if bs[i] == [] then u else u - {fs[i]})
  {
    var next := bs[i := []];
    var v := if bs[i] == [] then u else u - {fs[i]};
    assert bs[i] == [] ==> next == bs;
    forall from | from in v ensures exists j :: 0 <= j < |next| && next[j] != [] && fs[j] == from {
      var j :| 0 <= j < |bs| && bs[j] != [] && fs[j] == from;
      assert next[j] != [] && fs[j] == from;
    }
  }

  lemma FillKeepsHeld(bs: seq<seq<string>>, fs: seq<nat>, u: map<nat, seq<string>>, i: nat, batch: seq<string>,
                      from: nat)
    requires Held(bs, fs, u) && i < |bs| && bs[i] == [] && from !in u
    ensures Held(bs[i := batch], fs[i := from], if batch == [] then u else u[from := batch])
  {
    var nb, nf := bs[i := batch], fs[i := from];
    var v := if batch == [] then u else u[from := batch];
    forall x | x in v ensures exists j :: 0 <= j < |nb| && nb[j] != [] && nf[j] == x {
      if x in u {
        var j :| 0 <= j < |bs| && bs[j] != [] && fs[j] == x;
        assert nb[j] != [] && nf[j] == x;
      } else {
        assert nb[i] != [] && nf[i] == x;
      }
    }
  }

  lemma AppendKeepsHeld(bs: seq<seq<string>>, fs: seq<nat>, u: map<nat, seq<string>>, from: nat)
    requires Held(bs, fs, u)
    ensures Held(bs + [[]], fs + [from], u)
  {
    var nb, nf := bs + [[]], fs + [from];
    forall x | x in u ensures exists j :: 0 <= j < |nb| && nb[j] != [] && nf[j] == x {
      var j :| 0 <= j < |bs| && bs[j] != [] && fs[j] == x;
      assert nb[j] != [] && nf[j] == x;
    }
  }

  lemma DropKeepsHeld(bs: seq<seq<string>>, fs: seq<nat>, u: map<nat, seq<string>>, i: nat)
    requires Held(bs, fs, u) && i < |bs| && bs[i] == []
    ensures Held(bs[..i] + bs[i + 1..], fs[..i] + fs[i + 1..], u)
  {
    hide Without;
    WithoutIs(bs, i);
    WithoutIs(fs, i);
    var nb, nf := Without(bs, i), Without(fs, i);
    forall x | x in u ensures exists j :: 0 <= j < |nb| && nb[j] != [] && nf[j] == x {
      var k :| 0 <= k < |bs| && bs[k] != [] && fs[k] == x;
      var j := if k < i then k else k - 1;
      assert nb[j] != [] && nf[j] == x;
    }
  }

  /** A list with its `i`-th element taken out. */
  function Without<T>(xs: seq<T>, i: nat): (r: seq<T>)
    requires i < |xs|
    ensures |r| == |xs| - 1 && forall j :: 0 <= j < |r| ==> r[j] == xs[Kept(j, i)]
  {
    xs[..i] + xs[i + 1..]
  }

  lemma WithoutIs<T>(xs: seq<T>, i: nat)
    requires i < |xs|
    ensures xs[..i] + xs[i + 1..] == Without(xs, i)
  {
  }

  /** Where the `j`-th of a list was before its `i`-th was taken out. */
  function Kept(j: nat, i: nat): nat {
    if j < i then j else j + 1
  }

  /** Unwritten batches are disjoint stretches of the accepted lines, the queue is what follows them all. */
  ghost predicate Tiled(accepted: seq<string>, queue: seq<string>, l: Ledger) {
    && l.taken <= |accepted| && queue == accepted[l.taken..]
    && (forall f :: f in l.unwritten ==>
          && l.unwritten[f] != [] && f + |l.unwritten[f]| <= l.taken
          && accepted[f..f + |l.unwritten[f]|] == l.unwritten[f])
    && (forall f, g :: f in l.unwritten && g in l.unwritten && f < g ==> f + |l.unwritten[f]| <= g)
  }

  ghost predicate Covered(unwritten: map<nat, seq<string>>, p: nat) {
    exists f :: f in unwritten && f <= p < f + |unwritten[f]|
  }

  /** The file is the beginning of the accepted lines; all that was taken beyond it is in some batch. */
  ghost predicate Ordered(accepted: seq<string>, file: seq<string>, l: Ledger) {
    && |file| <= l.taken <= |accepted| && file == accepted[..|file|]
    && (forall f :: f in l.unwritten ==> |file| <= f)
    && (forall p :: |file| <= p < l.taken ==> Covered(l.unwritten, p))
  }

  lemma TookKeepsTiled(accepted: seq<string>, queue: seq<string>, l: Ledger)
    requires Tiled(accepted, queue, l)
    ensures Tiled(accepted, [], Took(l, queue))
  {
    var next := Took(l, queue);
    assert accepted[l.taken..] == accepted[l.taken..l.taken + |queue|];
    forall f, g | f in next.unwritten && g in next.unwritten && f < g ensures f + |next.unwritten[f]| <= g {
      assert f in l.unwritten;
    }
  }

  lemma PutKeepsTiled(accepted: seq<string>, queue: seq<string>, l: Ledger, from: nat, batch: seq<string>)
    requires Tiled(accepted, queue, l)
    ensures Tiled(accepted, queue, Put(l, from, batch))
  {
  }

  lemma PushKeepsTiled(accepted: seq<string>, queue: seq<string>, l: Ledger, line: string)
    requires Tiled(accepted, queue, l)
    ensures Tiled(accepted + [line], queue + [line], l)
  {
    var more := accepted + [line];
    assert more[l.taken..] == accepted[l.taken..] + [line];
    forall f | f in l.unwritten ensures more[f..f + |l.unwritten[f]|] == l.unwritten[f] {
      assert more[f..f + |l.unwritten[f]|] == accepted[f..f + |l.unwritten[f]|];
    }
  }

  lemma TookKeepsOrdered(accepted: seq<string>, file: seq<string>, queue: seq<string>, l: Ledger)
    requires Tiled(accepted, queue, l) && Ordered(accepted, file, l)
    ensures Ordered(accepted, file, Took(l, queue))
  {
    var next := Took(l, queue);
    forall p | |file| <= p < next.taken ensures Covered(next.unwritten, p) {
      if p < l.taken {
        assert Covered(l.unwritten, p);
        var f :| f in l.unwritten && f <= p < f + |l.unwritten[f]|;
        assert f in next.unwritten && next.unwritten[f] == l.unwritten[f];
      } else {
        assert l.taken in next.unwritten && next.unwritten[l.taken] == queue;
      }
    }
  }

  lemma PushKeepsOrdered(accepted: seq<string>, file: seq<string>, l: Ledger, line: string)
    requires Ordered(accepted, file, l)
    ensures Ordered(accepted + [line], file, l)
  {
    assert (accepted + [line])[..|file|] == accepted[..|file|];
  }

  /** The earliest unwritten batch starts where the file ends, so writing it continues the file. */
  lemma PutKeepsOrdered(accepted: seq<string>, file: seq<string>, queue: seq<string>, l: Ledger, from: nat)
    requires Tiled(accepted, queue, l) && Ordered(accepted, file, l) && from in l.unwritten
    requires forall f :: f in l.unwritten ==> from <= f
    ensures Ordered(accepted, file + l.unwritten[from], Put(l, from, l.unwritten[from]))
  {
    var batch := l.unwritten[from];
    var next := Put(l, from, batch);
    assert |file| < from ==> Covered(l.unwritten, |file|);
    assert accepted[..|file|] + accepted[from..from + |batch|] == accepted[..from + |batch|];
    forall p | |file + batch| <= p < l.taken ensures Covered(next.unwritten, p) {
      assert Covered(l.unwritten, p);
      var f :| f in l.unwritten && f <= p < f + |l.unwritten[f]|;
      assert f in next.unwritten && next.unwritten[f] == l.unwritten[f];
    }
  }

  // ---------------------------------------------------------------- every step keeps this

  lemma TakenIsNew(accepted: seq<string>, queue: seq<string>, l: Ledger)
    requires Tiled(accepted, queue, l)
    ensures l.taken !in l.unwritten
  {
  }

  lemma SwapKeepsLinked(s: State, l: Ledger)
    requires Linked(s, l) && Tiled(s.accepted, s.queue, l) && s.rate >= 1 && Enabled(s, Swap)
    ensures Linked(Apply(s, Swap), NextLedger(l, s, Swap))
  {
    hide Held, Tiled;
    TakenIsNew(s.accepted, s.queue, l);
    var bs, fs := [WriterBatch(s.writer)] + s.flushing, [l.writerFrom] + l.flushFrom;
    FillKeepsHeld(bs, fs, l.unwritten, 0, s.queue, l.taken);
    assert bs[0 := s.queue] == [s.queue] + s.flushing && fs[0 := l.taken] == [l.taken] + l.flushFrom;
  }

  lemma WriteKeepsLinked(s: State, l: Ledger)
    requires Linked(s, l) && s.rate >= 1 && Enabled(s, Write)
    ensures Linked(Apply(s, Write), NextLedger(l, s, Write))
  {
    hide Held;
    var bs, fs := [s.writer.batch] + s.flushing, [l.writerFrom] + l.flushFrom;
    EmptyKeepsHeld(bs, fs, l.unwritten, 0);
    assert bs[0 := []] == [[]] + s.flushing;
  }

  lemma FlushTakesLinked(s: State, l: Ledger)
    requires Linked(s, l) && Tiled(s.accepted, s.queue, l) && s.rate >= 1 && Enabled(s, FlushSwap)
    ensures Linked(Apply(s, FlushSwap), NextLedger(l, s, FlushSwap))
  {
    hide Held, Tiled;
    TakenIsNew(s.accepted, s.queue, l);
    var wb := WriterBatch(s.writer);
    var bs, fs := [wb] + s.flushing, [l.writerFrom] + l.flushFrom;
    HeldHasFroms(bs, fs, l.unwritten);
    AppendKeepsHeld(bs, fs, l.unwritten, l.taken);
    FillKeepsHeld(bs + [[]], fs + [l.taken], l.unwritten, |bs|, s.queue, l.taken);
    assert (bs + [[]])[|bs| := s.queue] == [wb] + (s.flushing + [s.queue]);
    assert (fs + [l.taken])[|bs| := l.taken] == [l.writerFrom] + (l.flushFrom + [l.taken]);
  }

  lemma HeldHasFroms(bs: seq<seq<string>>, fs: seq<nat>, u: map<nat, seq<string>>)
    requires Held(bs, fs, u)
    ensures |bs| == |fs|
  {
  }

  lemma FlushPutsLinked(s: State, l: Ledger, f: nat)
    requires Linked(s, l) && s.rate >= 1 && Enabled(s, FlushWrite(f))
    ensures Linked(Apply(s, FlushWrite(f)), NextLedger(l, s, FlushWrite(f)))
  {
    hide Held;
    var wb := WriterBatch(s.writer);
    var bs, fs := [wb] + s.flushing, [l.writerFrom] + l.flushFrom;
    HeldHasFroms(bs, fs, l.unwritten);
    EmptyKeepsHeld(bs, fs, l.unwritten, f + 1);
    var cleared := bs[f + 1 := []];
    DropKeepsHeld(cleared, fs, Put(l, l.flushFrom[f], s.flushing[f]).unwritten, f + 1);
    assert cleared[..f + 1] + cleared[f + 2..] == [wb] + (s.flushing[..f] + s.flushing[f + 1..]);
    assert fs[..f + 1] + fs[f + 2..] == [l.writerFrom] + (l.flushFrom[..f] + l.flushFrom[f + 1..]);
  }

  lemma StepKeepsLinked(s: State, l: Ledger, a: Label)
    requires LifeOk(s) && Linked(s, l) && Tiled(s.accepted, s.queue, l) && Enabled(s, a)
    ensures Linked(Apply(s, a), NextLedger(l, s, a))
  {
    hide Held, Tiled;
    match a
    case Swap => SwapKeepsLinked(s, l);
    case Write => WriteKeepsLinked(s, l);
    case FlushSwap => FlushTakesLinked(s, l);
    case FlushWrite(f) => FlushPutsLinked(s, l, f);
    case _ =>
  }

  lemma TiledIgnores(accepted: seq<string>, queue: seq<string>, l: Ledger)
    requires Tiled(accepted, queue, l)
    ensures forall w, d, fs :: Tiled(accepted, queue, l.(writerFrom := w, lastFrom := d, flushFrom := fs))
  {
  }

  lemma StepKeepsTiled(s: State, l: Ledger, a: Label)
    requires LifeOk(s) && Tiled(s.accepted, s.queue, l) && Enabled(s, a)
    ensures Tiled(Apply(s, a).accepted, Apply(s, a).queue, NextLedger(l, s, a))
  {
    hide Tiled;
    match a
    case Push(line) => PushKeepsTiled(s.accepted, s.queue, l, line);
    case Write => PutKeepsTiled(s.accepted, s.queue, l, l.writerFrom, s.writer.batch);
    case FlushWrite(f) =>
      PutKeepsTiled(s.accepted, s.queue, l, WrittenFrom(l, a), s.flushing[f]);
      TiledIgnores(s.accepted, s.queue, Put(l, WrittenFrom(l, a), s.flushing[f]));
    case LastWrite => PutKeepsTiled(s.accepted, s.queue, l, l.lastFrom, s.life.batch);
    case Swap => TookKeepsTiled(s.accepted, s.queue, l); TiledIgnores(s.accepted, [], Took(l, s.queue));
    case FlushSwap => TookKeepsTiled(s.accepted, s.queue, l); TiledIgnores(s.accepted, [], Took(l, s.queue));
    case LastSwap => TookKeepsTiled(s.accepted, s.queue, l); TiledIgnores(s.accepted, [], Took(l, s.queue));
    case _ =>
  }

  /** What a step writes is one of the ledger's batches. */
  lemma WrittenIsUnwritten(s: State, l: Ledger, a: Label)
    requires LifeOk(s) && Linked(s, l) && Enabled(s, a) && Written(s, a) != []
    ensures WrittenFrom(l, a) in l.unwritten && l.unwritten[WrittenFrom(l, a)] == Written(s, a)
    ensures Apply(s, a).file == s.file + Written(s, a)
  {
    var bs, fs := [WriterBatch(s.writer)] + s.flushing, [l.writerFrom] + l.flushFrom;
    if a.Write? {
      assert bs[0] != [];
    } else {
      assert bs[a.f + 1] == s.flushing[a.f] && fs[a.f + 1] == l.flushFrom[a.f];
    }
  }

  lemma NothingWritten(s: State, a: Label)
    requires s.rate >= 1 && Enabled(s, a) && Written(s, a) == []
    ensures Apply(s, a).file == s.file
  {
    assert s.file + [] == s.file;
  }

  ghost predicate OvertakesHere(s: State, l: Ledger, a: Label)
    requires Enabled(s, a)
  {
    Written(s, a) != [] && exists from :: from in l.unwritten && from < WrittenFrom(l, a)
  }

  lemma StepKeepsOrdered(s: State, l: Ledger, a: Label)
    requires LifeOk(s) && Linked(s, l) && Tiled(s.accepted, s.queue, l) && Ordered(s.accepted, s.file, l)
    requires Enabled(s, a) && !OvertakesHere(s, l, a)
    ensures Ordered(Apply(s, a).accepted, Apply(s, a).file, NextLedger(l, s, a))
  {
    hide Ordered, Tiled, Linked;
    if Written(s, a) != [] {
      WrittenIsUnwritten(s, l, a);
      PutKeepsOrdered(s.accepted, s.file, s.queue, l, WrittenFrom(l, a));
      OrderedIgnores(s.accepted, s.file + Written(s, a), Put(l, WrittenFrom(l, a), Written(s, a)));
    } else {
      NothingWritten(s, a);
      OrderedIgnores(s.accepted, s.file, l);
      TookKeepsOrdered(s.accepted, s.file, s.queue, l);
      OrderedIgnores(s.accepted, s.file, Took(l, s.queue));
      if a.Push? { PushKeepsOrdered(s.accepted, s.file, l, a.line); }
    }
  }

  lemma OrderedIgnores(accepted: seq<string>, file: seq<string>, l: Ledger)
    requires Ordered(accepted, file, l)
    ensures forall w, d, fs :: Ordered(accepted, file, l.(writerFrom := w, lastFrom := d, flushFrom := fs))
  {
  }

  lemma StartIsLinked(s: State)
    requires Initial(s)
    ensures Linked(s, Ledger(0, map[], 0, 0, [])) && Tiled(s.accepted, s.queue, Ledger(0, map[], 0, 0, []))
    ensures Ordered(s.accepted, s.file, Ledger(0, map[], 0, 0, []))
  {
  }

  lemma {:induction false} RunKeepsLedger(run: seq<State>, labels: seq<Label>, k: nat)
    requires IsRun(run, labels) && k < |run|
    ensures LifeOk(run[k])
    ensures Linked(run[k], LedgerAt(run, labels, k)) && Tiled(run[k].accepted, run[k].queue, LedgerAt(run, labels, k))
    decreases k
  {
    hide Linked, Tiled, NextLedger, Apply, Enabled, Initial;
    RunKeepsInv(run, labels, k);
    if k == 0 {
      StartIsLinked(run[0]);
    } else {
      RunKeepsLedger(run, labels, k - 1);
      StepKeepsLinked(run[k - 1], LedgerAt(run, labels, k - 1), labels[k - 1]);
      StepKeepsTiled(run[k - 1], LedgerAt(run, labels, k - 1), labels[k - 1]);
    }
  }

  lemma {:induction false} OrderIsKept(run: seq<State>, labels: seq<Label>, k: nat)
    requires IsRun(run, labels) && k < |run| && NoOvertaking(run, labels, k)
    ensures Ordered(run[k].accepted, run[k].file, LedgerAt(run, labels, k))
    decreases k
  {
    hide Linked, Tiled, Ordered, NextLedger, Apply, Enabled, Initial, Written;
    if k == 0 {
      StartIsLinked(run[0]);
    } else {
      OrderIsKept(run, labels, k - 1);
      RunKeepsLedger(run, labels, k - 1);
      assert !Overtakes(run, labels, k - 1);
      StepKeepsOrdered(run[k - 1], LedgerAt(run, labels, k - 1), labels[k - 1]);
    }
  }

  /** The first overtaking puts a line where a different one belongs. */
  lemma OvertakingBreaks(s: State, l: Ledger, a: Label)
    requires LifeOk(s) && Linked(s, l) && Tiled(s.accepted, s.queue, l) && Ordered(s.accepted, s.file, l)
    requires Distinct(s.accepted) && Enabled(s, a) && OvertakesHere(s, l, a)
    ensures var n := |s.file|; n < |Apply(s, a).file| && n < |s.accepted| && Apply(s, a).file[n] != s.accepted[n]
  {
    hide Linked, Apply, Written;
    WrittenIsUnwritten(s, l, a);
    var from, batch := WrittenFrom(l, a), Written(s, a);
    assert (s.file + batch)[|s.file|] == batch[0] == s.accepted[from..from + |batch|][0];
  }

  lemma {:induction false} OnlyGrows(run: seq<State>, labels: seq<Label>, j: nat, k: nat)
    requires IsRun(run, labels) && j <= k < |run|
    ensures run[j].file <= run[k].file && run[j].accepted <= run[k].accepted
    decreases k
  {
    if j < k { OnlyGrows(run, labels, j, k - 1); }
  }

  lemma {:induction false} FirstOvertaking(run: seq<State>, labels: seq<Label>, k: nat) returns (j: nat)
    requires IsRun(run, labels) && k < |run| && !NoOvertaking(run, labels, k)
    ensures j < k && Overtakes(run, labels, j) && NoOvertaking(run, labels, j)
    decreases k
  {
    hide Overtakes, IsRun;
    if NoOvertaking(run, labels, k - 1) { j := k - 1; } else { j := FirstOvertaking(run, labels, k - 1); }
  }

  // ---------------------------------------------------------------- main results

  /** Without overtaking the file is a prefix of the accepted lines, whatever the lines are. */
  lemma InOrderWithoutOvertaking(run: seq<State>, labels: seq<Label>, k: nat)
    requires IsRun(run, labels) && k < |run| && NoOvertaking(run, labels, k)
    ensures run[k].file <= run[k].accepted
  {
    hide IsRun, NoOvertaking, Covered;
    OrderIsKept(run, labels, k);
  }

  /**
   * The exact condition, in every reachable state of every run whose lines can be told apart:
   * the file is a prefix of the accepted lines if and only if no step so far wrote a non-empty
   * batch while a non-empty batch taken from the queue earlier was still unwritten.
   */
  lemma InOrderIffNoOvertaking(run: seq<State>, labels: seq<Label>, k: nat)
    requires IsRun(run, labels) && k < |run| && Distinct(run[k].accepted)
    ensures run[k].file <= run[k].accepted <==> NoOvertaking(run, labels, k)
  {
    if NoOvertaking(run, labels, k) {
      InOrderWithoutOvertaking(run, labels, k);
    } else {
      hide Linked, Tiled, Ordered, NextLedger, Apply, Enabled, Initial, NoOvertaking, Written;
      var j := FirstOvertaking(run, labels, k);
      OrderIsKept(run, labels, j);
      RunKeepsLedger(run, labels, j);
      OnlyGrows(run, labels, j, k);
      OnlyGrows(run, labels, j + 1, k);
      OvertakingBreaks(run[j], LedgerAt(run, labels, j), labels[j]);
      var n := |run[j].file|;
      assert run[k].file[n] == run[j + 1].file[n] && run[k].accepted[n] == run[j].accepted[n];
    }
  }

  /** After the destructor the file has all accepted lines in order if and only if nothing overtook. */
  lemma DestroyedInOrderIff(run: seq<State>, labels: seq<Label>, k: nat)
    requires IsRun(run, labels) && k < |run| && run[k].life.Destroyed? && Distinct(run[k].accepted)
    ensures run[k].file == run[k].accepted <==> NoOvertaking(run, labels, k)
  {
    hide IsRun, NoOvertaking, Distinct;
    InOrderIffNoOvertaking(run, labels, k);
    NothingUnwrittenAfterDestructor(run, labels, k);
    assert |multiset(run[k].accepted)| == |run[k].accepted| && |multiset(run[k].file)| == |run[k].file|;
  }

  // ---------------------------------------------------------------- flushing alone

  ghost predicate NoFlushOut(s: State) {
    forall f :: 0 <= f < |s.flushing| ==> s.flushing[f] == []
  }

  /**
   * A condition on callers and writer together: `flushAccess` is called while nobody holds
   * lines, and the writer takes no lines until it is done.
   */
  ghost predicate FlushesAlone(run: seq<State>, labels: seq<Label>, k: nat)
    requires IsRun(run, labels) && k < |run|
  {
    forall j :: 0 <= j < k ==>
      && (labels[j].FlushSwap? ==> WriterBatch(run[j].writer) == [] && NoFlushOut(run[j]))
      && (labels[j].Swap? && run[j].queue != [] ==> NoFlushOut(run[j]))
  }

  ghost predicate AtMostOne(l: Ledger) {
    forall f, g :: f in l.unwritten && g in l.unwritten ==> f == g
  }

  lemma NothingOut(s: State, l: Ledger)
    requires Linked(s, l) && WriterBatch(s.writer) == [] && NoFlushOut(s)
    ensures l.unwritten == map[]
  {
    var bs := [WriterBatch(s.writer)] + s.flushing;
    assert forall i :: 0 <= i < |bs| ==> bs[i] == [];
    assert forall from :: from !in l.unwritten;
  }

  lemma {:induction false} FlushingAloneKeepsOne(run: seq<State>, labels: seq<Label>, k: nat)
    requires IsRun(run, labels) && k < |run| && FlushesAlone(run, labels, k)
    ensures AtMostOne(LedgerAt(run, labels, k))
    decreases k
  {
    hide Linked, Tiled, Initial, Apply;
    if k > 0 {
      var s, a := run[k - 1], labels[k - 1];
      FlushingAloneKeepsOne(run, labels, k - 1);
      RunKeepsLedger(run, labels, k - 1);
      if a.FlushSwap? || (a.Swap? && s.queue != []) {
        NothingOut(s, LedgerAt(run, labels, k - 1));
      }
    }
  }

  /** Flushes of that kind never overtake, so the file stays a prefix of the accepted lines. */
  lemma FlushingAloneKeepsOrder(run: seq<State>, labels: seq<Label>, k: nat)
    requires IsRun(run, labels) && k < |run| && FlushesAlone(run, labels, k)
    ensures NoOvertaking(run, labels, k) && run[k].file <= run[k].accepted
  {
    hide Linked, Tiled, NextLedger, Apply, Initial;
    forall j | 0 <= j < k ensures !Overtakes(run, labels, j) {
      FlushingAloneKeepsOne(run, labels, j);
      RunKeepsLedger(run, labels, j);
      if Written(run[j], labels[j]) != [] { WrittenIsUnwritten(run[j], LedgerAt(run, labels, j), labels[j]); }
    }
    InOrderWithoutOvertaking(run, labels, k);
  }
}
