/**
 * The bounded asynchronous access log (src/Logger.cpp:51-140): any number of request
 * threads, the batch writer thread, concurrent `flushAccess` calls and the destructor.
 * The access file is open throughout.
 */
module AccessLogProtocol {
  import opened Basics

  /** The writer thread: waiting, holding a swapped-out batch, or gone. */
  datatype Writer = Waiting | Writing(batch: seq<string>) | Exited

  /** The object's life: `~Logger` stops, joins, takes what is left and writes it. */
  datatype Life = Alive | Stopping | Joined | LastFlush(batch: seq<string>) | Destroyed

  datatype State = State(
    capacity: nat, rate: nat,
    counter: nat, dropped: nat, queue: seq<string>, stopping: bool, file: seq<string>,
    writer: Writer, life: Life,
    pending: multiset<string>,      // sampled lines of threads that have not taken the mutex yet
    flushing: seq<seq<string>>,     // batches of flushAccess calls in progress
    accepted: seq<string>,          // history: lines pushed on the queue, in order
    sampled: nat)                   // history: number of sampled calls

  datatype Label =
    | Call(line: string)           // access(): the counter and the sampling test
    | Push(line: string)           // the queue section of a sampled call
    | Swap                         // the writer wakes, for whatever reason, and swaps
    | Write                        // the writer writes its batch
    | FlushSwap                    // flushAccess() takes the queue
    | FlushWrite(f: nat)           // and writes what it took
    | Stop | JoinWriter | LastSwap | LastWrite

  ghost predicate Enabled(s: State, l: Label) {
    match l
    case Call(_) => s.life.Alive?
    case Push(line) => s.pending[line] > 0
    case Swap => s.writer.Waiting?
    case Write => s.writer.Writing?
    case FlushSwap => s.life.Alive?
    case FlushWrite(f) => f < |s.flushing|
    // An object is destroyed only when no other call on it is in progress.
    case Stop => s.life.Alive? && s.pending == multiset{} && s.flushing == []
    case JoinWriter => s.life.Stopping? && s.writer.Exited?
    case LastSwap => s.life.Joined?
    case LastWrite => s.life.LastFlush?
  }

  function Apply(s: State, l: Label): State
    requires s.rate >= 1 && Enabled(s, l)
  {
    match l
    case Call(line) =>
      if s.counter % s.rate != 0 then s.(counter := s.counter + 1)
      else s.(counter := s.counter + 1, sampled := s.sampled + 1, pending := s.pending + multiset{line})
    case Push(line) =>
      var rest := s.pending - multiset{line};
      if |s.queue| >= s.capacity then s.(pending := rest, dropped := s.dropped + 1)
      else s.(pending := rest, queue := s.queue + [line], accepted := s.accepted + [line])
    case Swap =>
      s.(queue := [], writer := if s.stopping && s.queue == [] then Exited else Writing(s.queue))
    case Write => s.(file := s.file + s.writer.batch, writer := Waiting)
    case FlushSwap => s.(queue := [], flushing := s.flushing + [s.queue])
    case FlushWrite(f) => s.(file := s.file + s.flushing[f], flushing := s.flushing[..f] + s.flushing[f + 1..])
    case Stop => s.(stopping := true, life := Stopping)
    case JoinWriter => s.(life := Joined)
    case LastSwap => s.(queue := [], life := LastFlush(s.queue))
    case LastWrite => s.(file := s.file + s.life.batch, life := Destroyed)
  }

  ghost predicate Initial(s: State) {
    && s.capacity >= 1 && s.rate >= 1
    && s.counter == 0 && s.dropped == 0 && s.queue == [] && !s.stopping && s.file == []
    && s.writer == Waiting && s.life == Alive && s.pending == multiset{} && s.flushing == []
    && s.accepted == [] && s.sampled == 0
  }

  ghost predicate IsRun(run: seq<State>, labels: seq<Label>) {
    && |run| == |labels| + 1
    && Initial(run[0])
    && forall k :: 0 <= k < |labels| ==>
         run[k].rate >= 1 && Enabled(run[k], labels[k]) && run[k + 1] == Apply(run[k], labels[k])
  }

  // ---------------------------------------------------------------- invariants

  function WriterBatch(w: Writer): seq<string> {
    if w.Writing? then w.batch else []
  }

  function LastBatch(l: Life): seq<string> {
    if l.LastFlush? then l.batch else []
  }

  function All(batches: seq<seq<string>>): multiset<string> {
    if batches == [] then multiset{} else multiset(batches[0]) + All(batches[1..])
  }

  lemma {:induction false} AllSplits(a: seq<seq<string>>, b: seq<seq<string>>)
    ensures All(a + b) == All(a) + All(b)
  {
    if a == [] {
      assert a + b == b;
    } else {
      assert (a + b)[1..] == a[1..] + b;
      AllSplits(a[1..], b);
    }
  }

  lemma AllWithout(batches: seq<seq<string>>, f: nat)
    requires f < |batches|
    ensures All(batches) == All(batches[..f] + batches[f + 1..]) + multiset(batches[f])
  {
    var a, b := batches[..f], batches[f + 1..];
    assert batches == a + ([batches[f]] + b);
    AllSplits(a, [batches[f]] + b);
    AllSplits([batches[f]], b);
    AllSplits(a, b);
    assert [batches[f]][1..] == [];
  }

  /** Nothing accepted is lost or duplicated, whoever is carrying it. */
  ghost predicate Conserved(s: State) {
    multiset(s.accepted) == multiset(s.file) + multiset(WriterBatch(s.writer)) + multiset(LastBatch(s.life))
                            + multiset(s.queue) + All(s.flushing)
  }

  /** In order as well, as long as nobody else flushes. */
  ghost predicate InOrder(s: State) {
    && s.flushing == []
    && (s.life.LastFlush? ==> s.writer.Exited?)
    && s.accepted == s.file + WriterBatch(s.writer) + LastBatch(s.life) + s.queue
  }

  ghost predicate LifeOk(s: State) {
    && s.rate >= 1
    && |s.queue| <= s.capacity
    && (s.stopping <==> !s.life.Alive?)
    && (!s.life.Alive? ==> s.pending == multiset{} && s.flushing == [])
    && (s.writer.Exited? ==> s.queue == [] && s.stopping)
    && (s.life.Joined? || s.life.LastFlush? || s.life.Destroyed? ==> s.writer.Exited?)
    && (s.life.LastFlush? ==> s.life.batch == [])
  }

  /** Each sampled call is accepted, counted as dropped, or still on its way; sampling is one in `rate`. */
  ghost predicate Counted(s: State)
    requires s.rate >= 1
  {
    && s.sampled == |s.accepted| + s.dropped + |s.pending|
    && s.sampled == (s.counter + s.rate - 1) / s.rate
  }

  ghost predicate Inv(s: State) {
    LifeOk(s) && Conserved(s) && Counted(s)
  }

  lemma PushKeepsConserved(s: State, line: string)
    requires Conserved(s) && Enabled(s, Push(line)) && s.rate >= 1
    ensures Conserved(Apply(s, Push(line)))
  {
    hide All, Conserved;
    var t := Apply(s, Push(line));
    assert t.file == s.file && t.writer == s.writer && t.life == s.life && t.flushing == s.flushing;
    if |s.queue| < s.capacity {
      AddLine(s.queue, line);
      AddLine(s.accepted, line);
    }
    ConservedParts(s);
    ConservedParts(t);
  }

  lemma AddLine(lines: seq<string>, line: string)
    ensures multiset(lines + [line]) == multiset(lines) + multiset{line}
  {
  }

  lemma ConservedParts(s: State)
    ensures Conserved(s) <==>
              multiset(s.accepted) == multiset(s.file) + multiset(WriterBatch(s.writer)) + multiset(LastBatch(s.life))
                                      + All(s.flushing) + multiset(s.queue)
  {
    hide All, WriterBatch, LastBatch;
  }

  lemma OneBatch(batch: seq<string>)
    ensures All([batch]) == multiset(batch)
  {
    assert [batch][1..] == [];
  }

  lemma FlushKeepsConserved(s: State, l: Label)
    requires Conserved(s) && Enabled(s, l) && s.rate >= 1 && (l.FlushSwap? || l.FlushWrite?)
    ensures Conserved(Apply(s, l))
  {
    OneBatch(s.queue);
    hide All;
    if l.FlushSwap? {
      AllSplits(s.flushing, [s.queue]);
    } else {
      AllWithout(s.flushing, l.f);
    }
  }

  lemma StepKeepsConserved(s: State, l: Label)
    requires LifeOk(s) && Conserved(s) && Enabled(s, l)
    ensures Conserved(Apply(s, l))
  {
    hide All;
    if l.Push? {
      PushKeepsConserved(s, l.line);
    } else if l.FlushSwap? || l.FlushWrite? {
      FlushKeepsConserved(s, l);
    }
  }

  lemma StepKeepsLife(s: State, l: Label)
    requires LifeOk(s) && Enabled(s, l)
    ensures LifeOk(Apply(s, l))
  {
  }

  /** The sampling test passes exactly when the rounded-up quotient grows. */
  lemma SampleCounts(counter: nat, rate: nat)
    requires rate >= 1
    ensures (counter + rate) / rate == (counter + rate - 1) / rate + if counter % rate == 0 then 1 else 0
  {
    var q, r := counter / rate, counter % rate;
    assert counter == q * rate + r;
    QuotientIs(counter + rate, rate, q + 1);
    QuotientIs(counter + rate - 1, rate, if r == 0 then q else q + 1);
  }

  lemma StepKeepsCounted(s: State, l: Label)
    requires LifeOk(s) && Counted(s) && Enabled(s, l)
    ensures Counted(Apply(s, l))
  {
    match l
    case Call(_) =>
      SampleCounts(s.counter, s.rate);
    case Push(line) =>
      assert s.pending == (s.pending - multiset{line}) + multiset{line};
    case _ =>
  }

  lemma StepKeepsInv(s: State, l: Label)
    requires Inv(s) && Enabled(s, l)
    ensures Inv(Apply(s, l))
  {
    hide LifeOk, Conserved, Counted;
    LifeHasRate(s);
    StepKeepsLife(s, l);
    StepKeepsConserved(s, l);
    StepKeepsCounted(s, l);
  }

  lemma LifeHasRate(s: State)
    requires LifeOk(s)
    ensures s.rate >= 1
  {
  }

  lemma InvHasRate(s: State)
    requires Inv(s)
    ensures s.rate >= 1
  {
  }

  lemma StepKeepsOrder(s: State, l: Label)
    requires LifeOk(s) && InOrder(s) && Enabled(s, l) && !l.FlushSwap?
    ensures InOrder(Apply(s, l))
  {
  }

  lemma {:induction false} RunKeepsInv(run: seq<State>, labels: seq<Label>, k: nat)
    requires IsRun(run, labels) && k < |run|
    ensures Inv(run[k])
  {
    if k > 0 {
      hide Inv, Apply, Enabled, Initial;
      RunKeepsInv(run, labels, k - 1);
      StepKeepsInv(run[k - 1], labels[k - 1]);
    }
  }

  lemma {:induction false} RunKeepsOrder(run: seq<State>, labels: seq<Label>, k: nat)
    requires IsRun(run, labels) && k < |run| && forall j :: 0 <= j < k ==> !labels[j].FlushSwap?
    ensures InOrder(run[k])
  {
    if k > 0 {
      hide LifeOk, InOrder, Apply, Enabled, Initial;
      RunKeepsOrder(run, labels, k - 1);
      RunKeepsInv(run, labels, k - 1);
      StepKeepsOrder(run[k - 1], labels[k - 1]);
    }
  }

  // ---------------------------------------------------------------- main results

  /** In every reachable state: nothing is lost, the queue is bounded, every sampled line is accounted for. */
  lemma AccessLinesConserved(run: seq<State>, labels: seq<Label>, k: nat)
    requires IsRun(run, labels) && k < |run|
    ensures Conserved(run[k]) && |run[k].queue| <= run[k].capacity
    ensures run[k].sampled == |run[k].accepted| + run[k].dropped + |run[k].pending|
    ensures run[k].rate >= 1 && run[k].sampled == (run[k].counter + run[k].rate - 1) / run[k].rate
  {
    RunKeepsInv(run, labels, k);
  }

  /** Without concurrent flushes the file, the writer's batch and the queue are the accepted lines in order. */
  lemma AccessLinesInOrder(run: seq<State>, labels: seq<Label>, k: nat)
    requires IsRun(run, labels) && k < |run| && forall j :: 0 <= j < k ==> !labels[j].FlushSwap?
    ensures run[k].accepted == run[k].file + WriterBatch(run[k].writer) + run[k].queue
  {
    RunKeepsOrder(run, labels, k);
    RunKeepsInv(run, labels, k);
    var s := run[k];
    assert s.file + WriterBatch(s.writer) + [] == s.file + WriterBatch(s.writer);
  }

  /** After the destructor everything accepted is in the file, in order if nobody else ever flushed. */
  lemma NothingUnwrittenAfterDestructor(run: seq<State>, labels: seq<Label>, k: nat)
    requires IsRun(run, labels) && k < |run| && run[k].life.Destroyed?
    ensures multiset(run[k].accepted) == multiset(run[k].file) && run[k].sampled == |run[k].file| + run[k].dropped
    ensures (forall j :: 0 <= j < k ==> !labels[j].FlushSwap?) ==> run[k].accepted == run[k].file
  {
    RunKeepsInv(run, labels, k);
    var s := run[k];
    assert multiset(s.accepted) == multiset(s.file);
    assert |multiset(s.accepted)| == |s.accepted| && |multiset(s.file)| == |s.file|;
    if forall j :: 0 <= j < k ==> !labels[j].FlushSwap? {
      RunKeepsOrder(run, labels, k);
      assert s.file + [] + [] + [] == s.file;
    }
  }

  // ---------------------------------------------------------------- the destructor terminates

  /** Steps the writer has left once stopping is set; the queue only shrinks then. */
  function WriterWork(s: State): nat {
    match s.writer
    case Exited => 0
    case Waiting => if s.queue == [] then 1 else 3
    case Writing(_) => if s.queue == [] then 2 else 4
  }

  /** What is left to do before a destructor that has begun can return. */
  function Work(s: State): nat {
    WriterWork(s) +
    match s.life
    case Alive => 4
    case Stopping => 3
    case Joined => 2
    case LastFlush(_) => 1
    case Destroyed => 0
  }

  /** Once stopping, every step brings the end nearer, whoever takes it. */
  lemma StoppingStepsWork(s: State, l: Label)
    requires LifeOk(s) && s.stopping && Enabled(s, l)
    ensures Work(Apply(s, l)) < Work(s) && Apply(s, l).stopping
  {
  }

  /** Until the destructor is done, such a step is possible: the writer or the destructor can go on. */
  lemma DestructorNeverStuck(run: seq<State>, labels: seq<Label>, k: nat)
    requires IsRun(run, labels) && k < |run| && run[k].stopping && !run[k].life.Destroyed?
    ensures exists l: Label :: Enabled(run[k], l)
  {
    RunKeepsInv(run, labels, k);
    var s := run[k];
    var l := if s.writer.Waiting? then Swap else if s.writer.Writing? then Write
             else if s.life.Stopping? then JoinWriter else if s.life.Joined? then LastSwap else LastWrite;
    assert Enabled(s, l);
  }

  /** From the moment stopping is set a run has at most seven further steps, so the destructor returns. */
  lemma {:induction false} DestructorIsBounded(run: seq<State>, labels: seq<Label>, k: nat, j: nat)
    requires IsRun(run, labels) && k <= j < |run| && run[k].stopping
    ensures run[j].stopping && j - k + Work(run[j]) <= Work(run[k]) <= 7
  {
    hide Apply, Enabled, Initial, Inv, Work;
    if k < j {
      DestructorIsBounded(run, labels, k, j - 1);
      RunKeepsInv(run, labels, j - 1);
      InvIsLifeOk(run[j - 1]);
      StoppingStepsWork(run[j - 1], labels[j - 1]);
    } else {
      RunKeepsInv(run, labels, k);
      InvIsLifeOk(run[k]);
      WorkIsSmall(run[k]);
    }
  }

  lemma InvIsLifeOk(s: State)
    requires Inv(s)
    ensures LifeOk(s)
  {
  }

  lemma WorkIsSmall(s: State)
    requires LifeOk(s) && s.stopping
    ensures Work(s) <= 7
  {
  }

  // ---------------------------------------------------------------- a flush that overtakes the writer

  const REORDERING: seq<Label> :=
    [Call("a"), Push("a"), Swap, Call("b"), Push("b"), FlushSwap, FlushWrite(0), Write]

  /** The states of a run in which a flush overtakes the writer. */
  function Reordered(k: nat): State {
    var s0 := State(2, 1, 0, 0, [], false, [], Waiting, Alive, multiset{}, [], [], 0);
    var s3 := s0.(counter := 1, sampled := 1, accepted := ["a"], writer := Writing(["a"]));
    var s5 := s3.(counter := 2, sampled := 2, accepted := ["a", "b"]);
    match k
    case 0 => s0
    case 1 => s0.(counter := 1, sampled := 1, pending := multiset{"a"})
    case 2 => s0.(counter := 1, sampled := 1, accepted := ["a"], queue := ["a"])
    case 3 => s3
    case 4 => s3.(counter := 2, sampled := 2, pending := multiset{"b"})
    case 5 => s5.(queue := ["b"])
    case 6 => s5.(flushing := [["b"]])
    case 7 => s5.(file := ["b"])
    case _ => s5.(file := ["b", "a"], writer := Waiting)
  }

  lemma ReorderedBegins(k: nat)
    requires k < 5
    ensures Enabled(Reordered(k), REORDERING[k]) && Reordered(k + 1) == Apply(Reordered(k), REORDERING[k])
  {
  }

  lemma ReorderedEnds(k: nat)
    requires 5 <= k < 8
    ensures Enabled(Reordered(k), REORDERING[k]) && Reordered(k + 1) == Apply(Reordered(k), REORDERING[k])
  {
  }

  /** The condition is needed: a flush that overtakes the writer puts a later line first. */
  lemma ConcurrentFlushReorders()
    ensures exists run: seq<State>, labels: seq<Label> :: IsRun(run, labels)
              && run[|run| - 1].accepted == ["a", "b"] && run[|run| - 1].file == ["b", "a"]
  {
    var run := seq(9, k requires 0 <= k < 9 => Reordered(k));
    assert Initial(run[0]);
    assert run[8].accepted == ["a", "b"] && run[8].file == ["b", "a"];
    assert forall k :: 0 <= k < 8 ==> Reordered(k).rate == 1;
    hide Reordered, Apply, Enabled;
    forall k | 0 <= k < 8
      ensures run[k].rate >= 1 && Enabled(run[k], REORDERING[k]) && run[k + 1] == Apply(run[k], REORDERING[k])
    {
      if k < 5 { ReorderedBegins(k); } else { ReorderedEnds(k); }
    }
    assert IsRun(run, REORDERING);
  }
}

/** The access half of the logger as the object it is in the source. */
module AccessLog {
  import opened AccessLogProtocol

  class AccessLog {
    const capacity: nat
    const rate: nat
    var counter: nat
    var dropped: nat
    var queue: seq<string>
    var stopping: bool
    var file: seq<string>
    ghost var writer: Writer
    ghost var life: Life
    ghost var pending: multiset<string>
    ghost var flushing: seq<seq<string>>
    ghost var accepted: seq<string>
    ghost var sampled: nat

    ghost function Abstract(): State
      reads this
    {
      State(capacity, rate, counter, dropped, queue, stopping, file, writer, life, pending, flushing, accepted, sampled)
    }

    ghost predicate Valid()
      reads this
    {
      Inv(Abstract())
    }

    constructor (capacity: nat, rate: nat)
      ensures Valid() && Initial(Abstract())
      ensures this.capacity == (if capacity == 0 then 1 else capacity) && this.rate == (if rate == 0 then 1 else rate)
    {
      this.capacity := if capacity == 0 then 1 else capacity;
      this.rate := if rate == 0 then 1 else rate;
      counter, dropped, queue, stopping, file := 0, 0, [], false, [];
      writer, life, pending, flushing, accepted, sampled := Waiting, Alive, multiset{}, [], [], 0;
    }

    /** The sampling test of `access`. */
    method Sample(ghost line: string) returns (take: bool)
      requires Valid() && life.Alive?
      modifies this
      ensures Valid() && Abstract() == Apply(old(Abstract()), Call(line))
      ensures take <==> old(counter) % rate == 0
    {
      hide Inv;
      StepKeepsInv(Abstract(), Call(line));
      InvHasRate(Abstract());
      take := counter % rate == 0;
      counter := counter + 1;
      if take {
        sampled := sampled + 1;
        pending := pending + multiset{line};
      }
    }

    /** The queue section of `access`. */
    method PushLocked(line: string) returns (queued: bool)
      requires Valid() && pending[line] > 0
      modifies this
      ensures Valid() && Abstract() == Apply(old(Abstract()), Push(line))
      ensures queued <==> |old(queue)| < capacity
      ensures if queued then queue == old(queue) + [line] && dropped == old(dropped)
              else queue == old(queue) && dropped == old(dropped) + 1
    {
      hide Inv;
      StepKeepsInv(Abstract(), Push(line));
      pending := pending - multiset{line};
      if |queue| >= capacity {
        dropped := dropped + 1;
        return false;
      }
      queue := queue + [line];
      accepted := accepted + [line];
      return true;
    }

    /** The writer's critical section: the batch it goes on with, or the decision to leave. */
    method WriterSwap() returns (batch: seq<string>, leave: bool)
      requires Valid() && writer.Waiting?
      modifies this
      ensures Valid() && Abstract() == Apply(old(Abstract()), Swap)
      ensures batch == old(queue) && queue == [] && (leave <==> stopping && batch == [])
    {
      hide Inv;
      StepKeepsInv(Abstract(), Swap);
      batch, queue := queue, [];
      leave := stopping && batch == [];
      writer := if leave then Exited else Writing(batch);
    }

    /** `writeAccessBatch`: line by line, under the file mutex. */
    method WriteBatch(batch: seq<string>)
      requires Valid() && writer == Writing(batch)
      modifies this
      ensures Valid() && Abstract() == Apply(old(Abstract()), Write)
      ensures file == old(file) + batch
    {
      hide Inv;
      StepKeepsInv(Abstract(), Write);
      WriteLines(batch);
      writer := Waiting;
    }

    /** `flushAccess` takes the whole queue. */
    method FlushTake() returns (batch: seq<string>)
      requires Valid() && life.Alive?
      modifies this
      ensures Valid() && Abstract() == Apply(old(Abstract()), FlushSwap)
      ensures batch == old(queue) && queue == []
    {
      hide Inv;
      StepKeepsInv(Abstract(), FlushSwap);
      batch, queue := queue, [];
      flushing := flushing + [batch];
    }

    /** ... and later writes what it took, behind whatever was written in between. */
    method FlushPut(ghost f: nat, batch: seq<string>)
      requires Valid() && f < |flushing| && flushing[f] == batch
      modifies this
      ensures Valid() && Abstract() == Apply(old(Abstract()), FlushWrite(f))
      ensures file == old(file) + batch
    {
      hide Inv;
      StepKeepsInv(Abstract(), FlushWrite(f));
      WriteLines(batch);
      flushing := flushing[..f] + flushing[f + 1..];
    }

    method WriteLines(batch: seq<string>)
      modifies this`file
      ensures file == old(file) + batch
    {
      var i := 0;
      while i < |batch|
        invariant i <= |batch| && file == old(file) + batch[..i]
      {
        file := file + [batch[i]];
        i := i + 1;
      }
      assert batch[..i] == batch;
    }

    /** The destructor's critical section; nobody else uses the object any more. */
    method StopLocked()
      requires Valid() && life.Alive? && pending == multiset{} && flushing == []
      modifies this`stopping, this`life
      ensures Valid() && Abstract() == Apply(old(Abstract()), Stop)
    {
      hide Inv;
      StepKeepsInv(Abstract(), Stop);
      stopping := true;
      life := Stopping;
    }

    /** The rest of the destructor, once the writer thread is gone: a last flush that leaves nothing behind. */
    method JoinAndFlush()
      requires Valid() && life.Stopping? && writer.Exited?
      modifies this
      ensures Valid() && life.Destroyed? && queue == [] && file == old(file) + old(queue)
      ensures multiset(file) == multiset(accepted) && accepted == old(accepted)
    {
      hide Inv;
      StepKeepsInv(Abstract(), JoinWriter);
      life := Joined;
      StepKeepsInv(Abstract(), LastSwap);
      var batch := queue;
      queue := [];
      life := LastFlush(batch);
      StepKeepsInv(Abstract(), LastWrite);
      WriteLines(batch);
      life := Destroyed;
      EverythingIsWritten(Abstract());
    }
  }

  lemma EverythingIsWritten(s: State)
    requires Inv(s) && s.life.Destroyed?
    ensures multiset(s.file) == multiset(s.accepted)
  {
  }
}
