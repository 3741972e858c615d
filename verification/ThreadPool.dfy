/**
 * The bounded thread pool (src/ThreadPool.cpp) as a mutex and condition-variable protocol:
 * any number of producers, a fixed number of workers and a joining shutdown, with
 * spurious wakeups and with the gap between a push and its `notify_one`.
 */
module ThreadPoolProtocol {
  /** A submitted task; `ticket` (history only) is its number in order of acceptance. */
  datatype Job = Job(ticket: nat, task: nat)

  /** Where a worker is in `workerLoop`. */
  datatype Worker =
    | Ready                    // wants the mutex, not because it was woken
    | Sleeping                 // blocked in cv_.wait
    | Awakened                 // woken, has not re-checked the predicate yet
    | Holding(job: Job)        // popped a task, active_ not yet raised
    | Running(job: Job)        // inside its task
    | Ran(job: Job)            // its task returned or threw
    | Uncounted(job: Job)      // active_ lowered, completed_ not yet raised
    | Exited

  /** Where the first call of `shutdown` is. */
  datatype Phase = NotCalled | Stopped | Joining(next: nat) | Returned

  datatype State = State(
    maxQueue: nat, queue: seq<Job>, stopping: bool, workers: seq<Worker>,
    active: int, completed: nat, rejected: nat,
    notifying: nat,       // producers between unlocking after a push and notify_one
    phase: Phase,
    accepted: nat,        // history: number of accepted tasks
    popped: nat,          // history: number of tasks taken off the queue
    ran: seq<nat>,        // history: tickets in the order in which tasks finished running
    finished: seq<nat>)   // history: tickets in the order in which completed_ counted them

  datatype Label =
    | Enqueue(task: nat)
    | NotifyOne(w: nat)        // wakes sleeper w
    | NotifyNobody
    | Spurious(w: nat)
    | Check(w: nat)            // the wait predicate and what follows it, under the mutex
    | Begin(w: nat)
    | Finish(w: nat)
    | Uncount(w: nat)
    | Count(w: nat)
    | Stop
    | NotifyAll
    | Join

  ghost predicate NoSleeper(ws: seq<Worker>) {
    forall w :: 0 <= w < |ws| ==> !ws[w].Sleeping?
  }

  ghost predicate Enabled(s: State, l: Label) {
    match l
    case Enqueue(_) => true
    case NotifyOne(w) => s.notifying > 0 && w < |s.workers| && s.workers[w].Sleeping?
    case NotifyNobody => s.notifying > 0 && NoSleeper(s.workers)
    case Spurious(w) => w < |s.workers| && s.workers[w].Sleeping?
    case Check(w) => w < |s.workers| && (s.workers[w].Ready? || s.workers[w].Awakened?)
    case Begin(w) => w < |s.workers| && s.workers[w].Holding?
    case Finish(w) => w < |s.workers| && s.workers[w].Running?
    case Uncount(w) => w < |s.workers| && s.workers[w].Ran?
    case Count(w) => w < |s.workers| && s.workers[w].Uncounted?
    case Stop => !s.stopping
    case NotifyAll => s.phase == Stopped
    case Join => s.phase.Joining? && (s.phase.next >= |s.workers| || s.workers[s.phase.next].Exited?)
  }

  /** `notify_all`: every sleeper is woken. */
  function WakeAll(ws: seq<Worker>): (r: seq<Worker>)
    ensures |r| == |ws|
    ensures forall w :: 0 <= w < |ws| ==> r[w] == if ws[w].Sleeping? then Awakened else ws[w]
  {
    seq(|ws|, w requires 0 <= w < |ws| => if ws[w].Sleeping? then Awakened else ws[w])
  }

  function Apply(s: State, l: Label): State
    requires Enabled(s, l)
  {
    match l
    case Enqueue(task) =>
      if s.stopping || |s.queue| >= s.maxQueue then s.(rejected := s.rejected + 1)
      else s.(queue := s.queue + [Job(s.accepted, task)], accepted := s.accepted + 1, notifying := s.notifying + 1)
    case NotifyOne(w) => s.(workers := s.workers[w := Awakened], notifying := s.notifying - 1)
    case NotifyNobody => s.(notifying := s.notifying - 1)
    case Spurious(w) => s.(workers := s.workers[w := Awakened])
    case Check(w) =>
      if !s.stopping && s.queue == [] then s.(workers := s.workers[w := Sleeping])
      else if s.stopping && s.queue == [] then s.(workers := s.workers[w := Exited])
      else s.(workers := s.workers[w := Holding(s.queue[0])], queue := s.queue[1..], popped := s.popped + 1)
    case Begin(w) => s.(workers := s.workers[w := Running(s.workers[w].job)], active := s.active + 1)
    case Finish(w) => s.(workers := s.workers[w := Ran(s.workers[w].job)], ran := s.ran + [s.workers[w].job.ticket])
    case Uncount(w) => s.(workers := s.workers[w := Uncounted(s.workers[w].job)], active := s.active - 1)
    case Count(w) =>
      s.(workers := s.workers[w := Ready], completed := s.completed + 1,
         finished := s.finished + [s.workers[w].job.ticket])
    case Stop => s.(stopping := true, phase := Stopped)
    case NotifyAll => s.(workers := WakeAll(s.workers), phase := Joining(0))
    case Join => s.(phase := if s.phase.next >= |s.workers| then Returned else Joining(s.phase.next + 1))
  }

  ghost predicate Initial(s: State) {
    && |s.workers| >= 1 && s.maxQueue >= 1
    && (forall w :: 0 <= w < |s.workers| ==> s.workers[w] == Ready)
    && s.queue == [] && !s.stopping && s.phase == NotCalled && s.notifying == 0
    && s.active == 0 && s.completed == 0 && s.rejected == 0
    && s.accepted == 0 && s.popped == 0 && s.ran == [] && s.finished == []
  }

  ghost predicate IsRun(run: seq<State>, labels: seq<Label>) {
    && |run| == |labels| + 1
    && Initial(run[0])
    && forall k :: 0 <= k < |labels| ==> Enabled(run[k], labels[k]) && run[k + 1] == Apply(run[k], labels[k])
  }

  // ---------------------------------------------------------------- counting over workers

  predicate HasJob(x: Worker) {
    x.Holding? || x.Running? || x.Ran? || x.Uncounted?
  }

  function JobOf(x: Worker): multiset<nat> {
    if HasJob(x) then multiset{x.job.ticket} else multiset{}
  }

  function RanJobOf(x: Worker): multiset<nat> {
    if x.Ran? || x.Uncounted? then multiset{x.job.ticket} else multiset{}
  }

  function IsActive(x: Worker): nat {
    if x.Running? || x.Ran? then 1 else 0
  }

  function IsAwakened(x: Worker): nat {
    if x.Awakened? then 1 else 0
  }

  /** All tickets that the workers hold in the sense of `f`. */
  function Gather(ws: seq<Worker>, f: Worker -> multiset<nat>): multiset<nat> {
    if ws == [] then multiset{} else Gather(ws[1..], f) + f(ws[0])
  }

  function Sum(ws: seq<Worker>, f: Worker -> nat): nat {
    if ws == [] then 0 else Sum(ws[1..], f) + f(ws[0])
  }

  /** Tickets in the hands of workers. */
  function Held(ws: seq<Worker>): multiset<nat> {
    Gather(ws, JobOf)
  }

  /** Tickets whose task has run but is not counted as completed yet. */
  function HeldRan(ws: seq<Worker>): multiset<nat> {
    Gather(ws, RanJobOf)
  }

  function CountActive(ws: seq<Worker>): nat {
    Sum(ws, IsActive)
  }

  function CountAwakened(ws: seq<Worker>): nat {
    Sum(ws, IsAwakened)
  }

  /** What is gathered follows the move of one worker. */
  lemma {:induction false} OneWorkerGathers(ws: seq<Worker>, w: nat, x: Worker, f: Worker -> multiset<nat>)
    requires w < |ws|
    ensures Gather(ws[w := x], f) + f(ws[w]) == Gather(ws, f) + f(x)
  {
    if w == 0 {
      assert ws[w := x][1..] == ws[1..];
    } else {
      var rest := ws[1..];
      assert ws[w := x][1..] == rest[w - 1 := x];
      OneWorkerGathers(rest, w - 1, x, f);
      calc {
        Gather(ws[w := x], f) + f(ws[w]);
        Gather(rest[w - 1 := x], f) + f(ws[0]) + f(ws[w]);
        (Gather(rest[w - 1 := x], f) + f(rest[w - 1])) + f(ws[0]);
        (Gather(rest, f) + f(x)) + f(ws[0]);
        Gather(ws, f) + f(x);
      }
    }
  }

  /** The three ways in which a single move shows in what is gathered. */
  lemma MoveGathers(ws: seq<Worker>, w: nat, x: Worker, f: Worker -> multiset<nat>)
    requires w < |ws|
    ensures f(ws[w]) == f(x) ==> Gather(ws[w := x], f) == Gather(ws, f)
    ensures f(ws[w]) == multiset{} ==> Gather(ws[w := x], f) == Gather(ws, f) + f(x)
    ensures f(x) == multiset{} ==> Gather(ws[w := x], f) + f(ws[w]) == Gather(ws, f)
  {
    OneWorkerGathers(ws, w, x, f);
    var a, b := Gather(ws[w := x], f), Gather(ws, f);
    assert a + f(ws[w]) - f(ws[w]) == a && b + f(x) - f(x) == b;
  }

  lemma {:induction false} OneWorkerCounts(ws: seq<Worker>, w: nat, x: Worker, f: Worker -> nat)
    requires w < |ws|
    ensures Sum(ws[w := x], f) + f(ws[w]) == Sum(ws, f) + f(x)
  {
    if w == 0 {
      assert ws[w := x][1..] == ws[1..];
    } else {
      assert ws[w := x][1..] == ws[1..][w - 1 := x];
      OneWorkerCounts(ws[1..], w - 1, x, f);
    }
  }

  lemma {:induction false} WakeAllGathers(ws: seq<Worker>, f: Worker -> multiset<nat>)
    requires f(Sleeping) == f(Awakened)
    ensures Gather(WakeAll(ws), f) == Gather(ws, f)
  {
    if ws != [] {
      WakeAllGathers(ws[1..], f);
      assert WakeAll(ws)[1..] == WakeAll(ws[1..]);
    }
  }

  lemma {:induction false} WakeAllSums(ws: seq<Worker>, f: Worker -> nat)
    requires f(Sleeping) == f(Awakened)
    ensures Sum(WakeAll(ws), f) == Sum(ws, f)
  {
    if ws != [] {
      WakeAllSums(ws[1..], f);
      assert WakeAll(ws)[1..] == WakeAll(ws[1..]);
    }
  }

  lemma {:induction false} ActiveAtMostWorkers(ws: seq<Worker>)
    ensures CountActive(ws) <= |ws|
  {
    if ws != [] { ActiveAtMostWorkers(ws[1..]); }
  }

  lemma {:induction false} NobodyHolds(ws: seq<Worker>)
    requires forall w :: 0 <= w < |ws| ==> !HasJob(ws[w])
    ensures Held(ws) == multiset{} && HeldRan(ws) == multiset{} && CountActive(ws) == 0
  {
    if ws != [] { NobodyHolds(ws[1..]); }
  }

  /** The tickets 0, ..., n - 1, once each. */
  function Upto(n: nat): (m: multiset<nat>)
    ensures |m| == n
    ensures forall t: nat :: m[t] == if t < n then 1 else 0
  {
    if n == 0 then multiset{} else Upto(n - 1) + multiset{n - 1}
  }

  // ---------------------------------------------------------------- invariant

  /** FIFO: the queue is what was accepted and not popped, in order, and within its bound. */
  ghost predicate QueueOk(s: State) {
    && |s.queue| <= s.maxQueue
    && s.popped + |s.queue| == s.accepted
    && forall k :: 0 <= k < |s.queue| ==> s.queue[k].ticket == s.popped + k
  }

  /** Each popped ticket is with exactly one worker or finished exactly once, never both. */
  ghost predicate TicketsOk(s: State) {
    && Held(s.workers) + multiset(s.finished) == Upto(s.popped)
    && HeldRan(s.workers) + multiset(s.finished) == multiset(s.ran)
    && |s.finished| == s.completed
    && s.active == CountActive(s.workers)
  }

  ghost predicate WakeupsOk(s: State) {
    NoSleeper(s.workers) || |s.queue| <= s.notifying + CountAwakened(s.workers)
  }

  ghost predicate ShutdownOk(s: State) {
    && (s.stopping <==> s.phase != NotCalled)
    && (s.phase.Joining? || s.phase.Returned? ==> NoSleeper(s.workers))
    && (forall w :: 0 <= w < |s.workers| && s.workers[w].Exited? ==> s.stopping && s.queue == [])
    && (s.phase.Joining? ==> s.phase.next <= |s.workers| && forall w :: 0 <= w < s.phase.next ==> s.workers[w].Exited?)
    && (s.phase.Returned? ==> forall w :: 0 <= w < |s.workers| ==> s.workers[w].Exited?)
  }

  ghost predicate Inv(s: State) {
    |s.workers| >= 1 && QueueOk(s) && TicketsOk(s) && WakeupsOk(s) && ShutdownOk(s)
  }

  lemma InitialInv(s: State)
    requires Initial(s)
    ensures Inv(s)
  {
    NobodyHolds(s.workers);
  }

  /** What one move of worker `w` does to the three counts the tickets depend on. */
  lemma WorkerMoves(ws: seq<Worker>, w: nat, x: Worker)
    requires w < |ws|
    ensures JobOf(ws[w]) == JobOf(x) ==> Held(ws[w := x]) == Held(ws)
    ensures JobOf(ws[w]) == multiset{} ==> Held(ws[w := x]) == Held(ws) + JobOf(x)
    ensures JobOf(x) == multiset{} ==> Held(ws[w := x]) + JobOf(ws[w]) == Held(ws)
    ensures RanJobOf(ws[w]) == RanJobOf(x) ==> HeldRan(ws[w := x]) == HeldRan(ws)
    ensures RanJobOf(ws[w]) == multiset{} ==> HeldRan(ws[w := x]) == HeldRan(ws) + RanJobOf(x)
    ensures RanJobOf(x) == multiset{} ==> HeldRan(ws[w := x]) + RanJobOf(ws[w]) == HeldRan(ws)
    ensures CountActive(ws[w := x]) + IsActive(ws[w]) == CountActive(ws) + IsActive(x)
  {
    MoveGathers(ws, w, x, JobOf);
    MoveGathers(ws, w, x, RanJobOf);
    OneWorkerCounts(ws, w, x, IsActive);
  }

  /** A move that changes neither what the worker holds nor what it has run. */
  lemma SameHands(ws: seq<Worker>, w: nat, x: Worker)
    requires w < |ws| && JobOf(ws[w]) == JobOf(x) && RanJobOf(ws[w]) == RanJobOf(x)
    ensures Held(ws[w := x]) == Held(ws) && HeldRan(ws[w := x]) == HeldRan(ws)
    ensures CountActive(ws[w := x]) + IsActive(ws[w]) == CountActive(ws) + IsActive(x)
  {
    hide Held, HeldRan, CountActive;
    WorkerMoves(ws, w, x);
  }

  /** A worker takes a task. */
  lemma TakesJob(ws: seq<Worker>, w: nat, job: Job)
    requires w < |ws| && (ws[w].Ready? || ws[w].Awakened?)
    ensures Held(ws[w := Holding(job)]) == Held(ws) + multiset{job.ticket}
    ensures HeldRan(ws[w := Holding(job)]) == HeldRan(ws)
    ensures CountActive(ws[w := Holding(job)]) == CountActive(ws)
  {
    hide Held, HeldRan, CountActive;
    WorkerMoves(ws, w, Holding(job));
  }

  /** A step that only moves worker `w`, without touching what it holds or has run. */
  lemma WorkerStepKeepsTickets(s: State, l: Label, w: nat)
    requires TicketsOk(s) && Enabled(s, l) && w < |s.workers|
    requires l == Begin(w) || l == Uncount(w) || l == NotifyOne(w) || l == Spurious(w)
    ensures TicketsOk(Apply(s, l))
  {
    hide Held, HeldRan, CountActive, Upto, WakeAll;
    SameHands(s.workers, w, Apply(s, l).workers[w]);
  }

  lemma CheckKeepsTickets(s: State, w: nat)
    requires TicketsOk(s) && QueueOk(s) && Enabled(s, Check(w))
    ensures TicketsOk(Apply(s, Check(w)))
  {
    hide Held, HeldRan, CountActive, Upto, WakeAll;
    if s.queue == [] {
      SameHands(s.workers, w, Apply(s, Check(w)).workers[w]);
    } else {
      PopKeepsTickets(s, w);
    }
  }

  lemma PopKeepsTickets(s: State, w: nat)
    requires TicketsOk(s) && Enabled(s, Check(w)) && s.queue != [] && s.queue[0].ticket == s.popped
    ensures TicketsOk(Apply(s, Check(w)))
  {
    hide Held, HeldRan, CountActive, Upto, WakeAll;
    TakesJob(s.workers, w, s.queue[0]);
    PopOne(Held(s.workers), Held(s.workers[w := Holding(s.queue[0])]), multiset(s.finished), s.popped);
  }

  lemma PopOne(held: multiset<nat>, held': multiset<nat>, finished: multiset<nat>, popped: nat)
    requires held + finished == Upto(popped) && held' == held + multiset{popped}
    ensures held' + finished == Upto(popped + 1)
  {
    assert held' + finished == (held + finished) + multiset{popped};
  }

  lemma FinishKeepsTickets(s: State, w: nat)
    requires TicketsOk(s) && Enabled(s, Finish(w))
    ensures TicketsOk(Apply(s, Finish(w)))
  {
    hide Held, HeldRan, CountActive;
    var s' := Apply(s, Finish(w));
    var t := s.workers[w].job.ticket;
    WorkerMoves(s.workers, w, s'.workers[w]);
    assert HeldRan(s'.workers) + multiset(s.finished) == (HeldRan(s.workers) + multiset(s.finished)) + multiset{t};
  }

  lemma CountKeepsTickets(s: State, w: nat)
    requires TicketsOk(s) && Enabled(s, Count(w))
    ensures TicketsOk(Apply(s, Count(w)))
  {
    hide Held, HeldRan, CountActive, Upto;
    var s' := Apply(s, Count(w));
    var t := s.workers[w].job.ticket;
    WorkerMoves(s.workers, w, s'.workers[w]);
    var f := multiset(s.finished);
    assert multiset(s'.finished) == f + multiset{t};
    assert Held(s'.workers) + (f + multiset{t}) == (Held(s'.workers) + multiset{t}) + f;
    assert HeldRan(s'.workers) + (f + multiset{t}) == (HeldRan(s'.workers) + multiset{t}) + f;
  }

  lemma StepKeepsTickets(s: State, l: Label)
    requires TicketsOk(s) && QueueOk(s) && Enabled(s, l)
    ensures TicketsOk(Apply(s, l))
  {
    hide Gather, Sum;
    match l
    case Check(w) => CheckKeepsTickets(s, w);
    case Begin(w) => WorkerStepKeepsTickets(s, l, w);
    case Finish(w) => FinishKeepsTickets(s, w);
    case Uncount(w) => WorkerStepKeepsTickets(s, l, w);
    case Count(w) => CountKeepsTickets(s, w);
    case NotifyOne(w) => WorkerStepKeepsTickets(s, l, w);
    case Spurious(w) => WorkerStepKeepsTickets(s, l, w);
    case NotifyAll =>
      WakeAllGathers(s.workers, JobOf);
      WakeAllGathers(s.workers, RanJobOf);
      WakeAllSums(s.workers, IsActive);
    case _ =>
  }

  lemma StepKeepsQueue(s: State, l: Label)
    requires QueueOk(s) && Enabled(s, l)
    ensures QueueOk(Apply(s, l))
  {
  }

  lemma StepKeepsWakeups(s: State, l: Label)
    requires WakeupsOk(s) && Enabled(s, l)
    ensures WakeupsOk(Apply(s, l))
  {
    var s' := Apply(s, l);
    if l.Check? || l.Begin? || l.Finish? || l.Uncount? || l.Count? || l.NotifyOne? || l.Spurious? {
      OneWorkerCounts(s.workers, l.w, s'.workers[l.w], IsAwakened);
      assert NoSleeper(s.workers) && !s'.workers[l.w].Sleeping? ==> NoSleeper(s'.workers);
    }
  }

  lemma StepKeepsShutdown(s: State, l: Label)
    requires ShutdownOk(s) && Enabled(s, l)
    ensures ShutdownOk(Apply(s, l))
  {
  }

  lemma StepKeepsInv(s: State, l: Label)
    requires Inv(s) && Enabled(s, l)
    ensures Inv(Apply(s, l))
  {
    hide QueueOk, TicketsOk, WakeupsOk, ShutdownOk;
    StepKeepsQueue(s, l);
    StepKeepsTickets(s, l);
    StepKeepsWakeups(s, l);
    StepKeepsShutdown(s, l);
  }

  lemma {:induction false} RunKeepsInv(run: seq<State>, labels: seq<Label>, k: nat)
    requires IsRun(run, labels) && k < |run|
    ensures Inv(run[k])
    ensures run[k].maxQueue == run[0].maxQueue && |run[k].workers| == |run[0].workers|
  {
    hide Inv;
    if k == 0 {
      InitialInv(run[0]);
    } else {
      RunKeepsInv(run, labels, k - 1);
      StepKeepsInv(run[k - 1], labels[k - 1]);
    }
  }

  // ---------------------------------------------------------------- main results

  /**
   * No lost wakeup: while some worker is asleep, every queued task is covered by a
   * producer that has yet to notify or by a woken worker that has yet to re-check.
   */
  lemma NoLostWakeup(run: seq<State>, labels: seq<Label>, k: nat, w: nat)
    requires IsRun(run, labels) && k < |run| && w < |run[k].workers| && run[k].workers[w].Sleeping?
    ensures |run[k].queue| <= run[k].notifying + CountAwakened(run[k].workers)
  {
    RunKeepsInv(run, labels, k);
  }

  /** Hence a queued task is never stuck: once its producer has notified, some worker is on its way. */
  lemma QueuedTaskIsPickedUp(run: seq<State>, labels: seq<Label>, k: nat)
    requires IsRun(run, labels) && k < |run| && run[k].queue != [] && run[k].notifying == 0
    ensures exists w :: 0 <= w < |run[k].workers| && !run[k].workers[w].Sleeping? && !run[k].workers[w].Exited?
  {
    RunKeepsInv(run, labels, k);
    var ws := run[k].workers;
    if NoSleeper(ws) {
      assert !ws[0].Sleeping?;
    } else if forall w :: 0 <= w < |ws| ==> !ws[w].Awakened? {
      NobodyAwakened(ws);
      assert false;
    }
  }

  lemma {:induction false} NobodyAwakened(ws: seq<Worker>)
    requires forall w :: 0 <= w < |ws| ==> !ws[w].Awakened?
    ensures CountAwakened(ws) == 0
  {
    if ws != [] { NobodyAwakened(ws[1..]); }
  }

  /** After the shutdown's `notify_all` no worker ever sleeps again. */
  lemma {:induction false} NoSleepAfterNotifyAll(run: seq<State>, labels: seq<Label>, k: nat, j: nat)
    requires IsRun(run, labels) && k < |labels| && labels[k] == NotifyAll && k < j < |run|
    ensures NoSleeper(run[j].workers)
    decreases j
  {
    PhaseStays(run, labels, k + 1, j);
    RunKeepsInv(run, labels, j);
  }

  lemma {:induction false} PhaseStays(run: seq<State>, labels: seq<Label>, k: nat, j: nat)
    requires IsRun(run, labels) && k <= j < |run| && (run[k].phase.Joining? || run[k].phase.Returned?)
    ensures run[j].phase.Joining? || run[j].phase.Returned?
  {
    if k < j {
      hide Inv, Apply, Enabled, Initial;
      PhaseStays(run, labels, k, j - 1);
      RunKeepsInv(run, labels, j - 1);
      PhaseStep(run[j - 1], labels[j - 1]);
    }
  }

  lemma PhaseStep(s: State, l: Label)
    requires Inv(s) && Enabled(s, l) && (s.phase.Joining? || s.phase.Returned?)
    ensures Apply(s, l).phase.Joining? || Apply(s, l).phase.Returned?
  {
    hide QueueOk, TicketsOk, WakeupsOk;
  }

  /** Conservation in every reachable state, with the bounds on the queue and on `active`. */
  lemma TasksConserved(run: seq<State>, labels: seq<Label>, k: nat)
    requires IsRun(run, labels) && k < |run|
    ensures var s := run[k];
            && s.accepted == |s.queue| + |Held(s.workers)| + s.completed
            && |s.queue| <= s.maxQueue
            && 0 <= s.active <= |s.workers|
            && (forall j :: 0 <= j < |s.queue| ==> s.queue[j].ticket == s.accepted - |s.queue| + j)
            && (forall t: nat :: multiset(s.ran)[t] <= if t < s.popped then 1 else 0)
  {
    RunKeepsInv(run, labels, k);
    var s := run[k];
    ActiveAtMostWorkers(s.workers);
    assert |Held(s.workers) + multiset(s.finished)| == |Held(s.workers)| + |multiset(s.finished)|;
    forall t: nat ensures multiset(s.ran)[t] <= if t < s.popped then 1 else 0 {
      RanAreHeld(s.workers, t);
      assert (Held(s.workers) + multiset(s.finished))[t] == Upto(s.popped)[t];
      assert (HeldRan(s.workers) + multiset(s.finished))[t] == multiset(s.ran)[t];
    }
  }

  lemma {:induction false} RanAreHeld(ws: seq<Worker>, t: nat)
    ensures HeldRan(ws)[t] <= Held(ws)[t]
  {
    if ws != [] { RanAreHeld(ws[1..], t); }
  }

  /** Tasks are popped in the order in which they were accepted. */
  lemma PopsAreFifo(run: seq<State>, labels: seq<Label>, k: nat, w: nat)
    requires IsRun(run, labels) && k < |labels| && labels[k] == Check(w) && w < |run[k + 1].workers|
    requires run[k + 1].workers[w].Holding?
    ensures run[k + 1].workers[w].job.ticket == run[k].popped && run[k + 1].popped == run[k].popped + 1
  {
    RunKeepsInv(run, labels, k);
  }

  /** When the joining `shutdown` has returned, every accepted task has run exactly once. */
  lemma ShutdownDrains(run: seq<State>, labels: seq<Label>, k: nat)
    requires IsRun(run, labels) && k < |run| && run[k].phase == Returned
    ensures multiset(run[k].ran) == Upto(run[k].accepted)
    ensures run[k].queue == [] && run[k].completed == run[k].accepted && run[k].active == 0
  {
    RunKeepsInv(run, labels, k);
    var s := run[k];
    NobodyHolds(s.workers);
    assert s.workers[0].Exited?;
    assert multiset(s.finished) == Upto(s.popped);
  }

  // ---------------------------------------------------------------- shutdown terminates

  function Rank(x: Worker): nat {
    match x
    case Exited => 0
    case Ready => 1
    case Awakened => 1
    case Sleeping => 2
    case Uncounted(_) => 2
    case Ran(_) => 3
    case Running(_) => 4
    case Holding(_) => 5
  }

  function PhaseRank(s: State): nat {
    match s.phase
    case NotCalled => |s.workers| + 3
    case Stopped => |s.workers| + 2
    case Joining(i) => if i <= |s.workers| then |s.workers| - i + 1 else 1
    case Returned => 0
  }

  /** What is left to do before a shutdown that has begun can return. */
  function Work(s: State): nat {
    5 * |s.queue| + Sum(s.workers, Rank) + PhaseRank(s) + s.notifying
  }

  lemma {:induction false} WakeAllRanks(ws: seq<Worker>)
    ensures Sum(WakeAll(ws), Rank) <= Sum(ws, Rank)
  {
    if ws != [] {
      WakeAllRanks(ws[1..]);
      assert WakeAll(ws)[1..] == WakeAll(ws[1..]);
    }
  }

  /** Once stopping, every step but a rejected `enqueue` brings the end nearer, whatever the schedule. */
  lemma StoppingStepsWork(s: State, l: Label)
    requires Inv(s) && s.stopping && Enabled(s, l)
    ensures l.Enqueue? ==> Work(Apply(s, l)) == Work(s) && Apply(s, l).accepted == s.accepted
    ensures !l.Enqueue? ==> Work(Apply(s, l)) < Work(s)
    ensures Apply(s, l).stopping
  {
    var s' := Apply(s, l);
    if l.Check? || l.Begin? || l.Finish? || l.Uncount? || l.Count? || l.NotifyOne? || l.Spurious? {
      OneWorkerCounts(s.workers, l.w, s'.workers[l.w], Rank);
    } else if l.NotifyAll? {
      WakeAllRanks(s.workers);
    }
  }

  /** ... and until shutdown has returned some such step is possible, so it does return. */
  lemma ShutdownNeverStuck(run: seq<State>, labels: seq<Label>, k: nat)
    requires IsRun(run, labels) && k < |run| && run[k].stopping && run[k].phase != Returned
    ensures exists l: Label :: !l.Enqueue? && Enabled(run[k], l)
  {
    RunKeepsInv(run, labels, k);
    var s := run[k];
    if s.phase == Stopped {
      assert Enabled(s, NotifyAll);
    } else {
      var i := s.phase.next;
      if i >= |s.workers| || s.workers[i].Exited? {
        assert Enabled(s, Join);
      } else {
        var x := s.workers[i];
        var l := if x.Holding? then Begin(i) else if x.Running? then Finish(i)
                 else if x.Ran? then Uncount(i) else if x.Uncounted? then Count(i) else Check(i);
        assert Enabled(s, l);
      }
    }
  }

  /** Number of events other than calls of `enqueue`. */
  function Moves(labels: seq<Label>): nat {
    if labels == [] then 0 else Moves(labels[..|labels| - 1]) + if labels[|labels| - 1].Enqueue? then 0 else 1
  }

  /**
   * From the moment stopping is set, no run contains more than `Work` further moves of
   * workers, notifiers and the joining thread, and nothing more is accepted.
   */
  lemma {:induction false} ShutdownIsBounded(run: seq<State>, labels: seq<Label>, k: nat, j: nat)
    requires IsRun(run, labels) && k <= j < |run| && run[k].stopping
    ensures run[j].stopping && run[j].accepted == run[k].accepted
    ensures Moves(labels[k..j]) + Work(run[j]) <= Work(run[k])
  {
    hide Apply, Enabled, Initial, Inv, Work;
    if k < j {
      ShutdownIsBounded(run, labels, k, j - 1);
      RunKeepsInv(run, labels, j - 1);
      StoppingStepsWork(run[j - 1], labels[j - 1]);
      StoppingAcceptsNothing(run[j - 1], labels[j - 1]);
      assert labels[k..j][..j - k - 1] == labels[k..j - 1];
    }
  }

  lemma StoppingAcceptsNothing(s: State, l: Label)
    requires s.stopping && Enabled(s, l)
    ensures Apply(s, l).accepted == s.accepted
  {
  }
}

/**
 * The pool as the object it is in the source.  Each method is one critical section or one
 * update of an atomic, and is exactly one event of the protocol.
 */
module ThreadPool {
  import opened ThreadPoolProtocol

  /** What a worker does after the wait predicate was evaluated. */
  datatype Next = Wait | Leave | Take(task: nat)

  /** The queued tasks with their acceptance numbers. */
  function Tickets(tasks: seq<nat>, first: nat): seq<Job> {
    seq(|tasks|, k requires 0 <= k < |tasks| => Job(first + k, tasks[k]))
  }

  class ThreadPool {
    const maxQueueSize: nat
    var tasks: seq<nat>
    var stopping: bool
    var active: nat
    var completed: nat
    var rejected: nat
    ghost var workers: seq<Worker>
    ghost var notifying: nat
    ghost var phase: Phase
    ghost var accepted: nat
    ghost var popped: nat
    ghost var ran: seq<nat>
    ghost var finished: seq<nat>

    ghost function Abstract(): State
      reads this
    {
      State(maxQueueSize, Tickets(tasks, popped), stopping, workers, active, completed, rejected,
            notifying, phase, accepted, popped, ran, finished)
    }

    ghost predicate Valid()
      reads this
    {
      Inv(Abstract())
    }

    constructor Start(workerCount: nat, maxQueueSize: nat)
      requires workerCount > 0 && maxQueueSize > 0
      ensures Valid() && Initial(Abstract()) && |workers| == workerCount && this.maxQueueSize == maxQueueSize
    {
      this.maxQueueSize := maxQueueSize;
      tasks, stopping, active, completed, rejected := [], false, 0, 0, 0;
      workers, notifying, phase := seq(workerCount, _ => Ready), 0, NotCalled;
      accepted, popped, ran, finished := 0, 0, [], [];
      new;
      InitialInv(Abstract());
    }

    /** The constructor's argument checks: null stands for the exception. */
    static method Create(workerCount: nat, maxQueueSize: nat) returns (pool: ThreadPool?)
      ensures pool == null <==> workerCount == 0 || maxQueueSize == 0
      ensures pool != null ==> fresh(pool) && pool.Valid() && Initial(pool.Abstract()) && |pool.workers| == workerCount
    {
      if workerCount == 0 || maxQueueSize == 0 { return null; }
      pool := new ThreadPool.Start(workerCount, maxQueueSize);
    }

    /** `enqueue` up to the unlock: full or stopping means rejected and nothing queued. */
    method EnqueueLocked(task: nat) returns (ok: bool)
      requires Valid()
      modifies this
      ensures Valid() && Abstract() == Apply(old(Abstract()), Enqueue(task))
      ensures ok <==> !old(stopping) && |old(tasks)| < maxQueueSize
      ensures if ok then tasks == old(tasks) + [task]
              else tasks == old(tasks) && rejected == old(rejected) + 1
    {
      hide Inv;
      NextTicket(Abstract());
      StepKeepsInv(Abstract(), Enqueue(task));
      assert Tickets(tasks + [task], popped) == Tickets(tasks, popped) + [Job(accepted, task)];
      if stopping || |tasks| >= maxQueueSize {
        rejected := rejected + 1;
        return false;
      }
      tasks := tasks + [task];
      accepted := accepted + 1;
      notifying := notifying + 1;
      return true;
    }

    /** One evaluation of the wait predicate by worker `w`, and what the worker does next. */
    method CheckLocked(ghost w: nat) returns (next: Next)
      requires Valid() && Enabled(Abstract(), Check(w))
      modifies this
      ensures Valid() && Abstract() == Apply(old(Abstract()), Check(w))
      ensures next == if old(tasks) != [] then Take(old(tasks)[0]) else if old(stopping) then Leave else Wait
      ensures tasks == if old(tasks) != [] then old(tasks)[1..] else []
    {
      hide Inv;
      StepKeepsInv(Abstract(), Check(w));
      assert tasks != [] ==> Tickets(tasks[1..], popped + 1) == Tickets(tasks, popped)[1..];
      if !(stopping || tasks != []) {
        workers := workers[w := Sleeping];
        return Wait;
      }
      if stopping && tasks == [] {
        workers := workers[w := Exited];
        return Leave;
      }
      next := Take(tasks[0]);
      workers := workers[w := Holding(Job(popped, tasks[0]))];
      tasks := tasks[1..];
      popped := popped + 1;
    }

    /** `active_.fetch_add`, then the function itself, `active_.fetch_sub`, `completed_.fetch_add`. */
    method BeginTask(ghost w: nat)
      requires Valid() && Enabled(Abstract(), Begin(w))
      modifies this`active, this`workers
      ensures Valid() && Abstract() == Apply(old(Abstract()), Begin(w))
    {
      hide Inv;
      StepKeepsInv(Abstract(), Begin(w));
      active := active + 1;
      workers := workers[w := Running(workers[w].job)];
    }

    ghost method FinishTask(w: nat)
      requires Valid() && Enabled(Abstract(), Finish(w))
      modifies this`workers, this`ran
      ensures Valid() && Abstract() == Apply(old(Abstract()), Finish(w))
    {
      hide Inv;
      StepKeepsInv(Abstract(), Finish(w));
      ran := ran + [workers[w].job.ticket];
      workers := workers[w := Ran(workers[w].job)];
    }

    /** The subtraction on the atomic cannot underflow. */
    method UncountTask(ghost w: nat)
      requires Valid() && Enabled(Abstract(), Uncount(w))
      modifies this`active, this`workers
      ensures Valid() && Abstract() == Apply(old(Abstract()), Uncount(w))
    {
      hide Inv;
      StepKeepsInv(Abstract(), Uncount(w));
      ActivePositive(Abstract(), w);
      active := active - 1;
      workers := workers[w := Uncounted(workers[w].job)];
    }

    method CountTask(ghost w: nat)
      requires Valid() && Enabled(Abstract(), Count(w))
      modifies this`completed, this`workers, this`finished
      ensures Valid() && Abstract() == Apply(old(Abstract()), Count(w))
    {
      hide Inv;
      StepKeepsInv(Abstract(), Count(w));
      completed := completed + 1;
      finished := finished + [workers[w].job.ticket];
      workers := workers[w := Ready];
    }

    /** `shutdown` up to the unlock: only the first caller goes on to notify and join. */
    method StopLocked() returns (first: bool)
      requires Valid()
      modifies this`stopping, this`phase
      ensures Valid() && stopping && first == !old(stopping)
      ensures Abstract() == if first then Apply(old(Abstract()), Stop) else old(Abstract())
    {
      hide Inv;
      if stopping { return false; }
      StepKeepsInv(Abstract(), Stop);
      stopping := true;
      phase := Stopped;
      return true;
    }
  }

  lemma NextTicket(s: State)
    requires Inv(s)
    ensures s.popped + |s.queue| == s.accepted
  {
  }

  lemma ActivePositive(s: State, w: nat)
    requires Inv(s) && w < |s.workers| && s.workers[w].Ran?
    ensures s.active >= 1
  {
    SomebodyActive(s.workers, w);
  }

  lemma {:induction false} SomebodyActive(ws: seq<Worker>, w: nat)
    requires w < |ws| && ws[w].Ran?
    ensures CountActive(ws) >= 1
  {
    if w > 0 { SomebodyActive(ws[1..], w - 1); }
  }
}
