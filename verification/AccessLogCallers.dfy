/**
 * What callers of the access log have in their hands (src/Logger.cpp:63-140): the order of
 * their own calls, not the moments at which the writer thread takes and writes its batches.
 */
module AccessLogCallers {
  import opened AccessLogProtocol
  import opened AccessLogOrder

  /** The steps that are not the writer's. */
  function CallsOf(labels: seq<Label>): (r: seq<Label>)
    ensures |r| <= |labels|
  {
    if labels == [] then [] else
      var n := |labels| - 1;
      CallsOf(labels[..n]) + if labels[n].Swap? || labels[n].Write? then [] else [labels[n]]
  }

  /** The lines that were to be queued, in order. */
  function PushLines(calls: seq<Label>): seq<string> {
    if calls == [] then [] else
      var n := |calls| - 1;
      PushLines(calls[..n]) + if calls[n].Push? then [calls[n].line] else []
  }

  /** How many flushes are between taking the queue and writing it. */
  function Flushing(calls: seq<Label>): int {
    if calls == [] then 0 else
      var n := |calls| - 1;
      Flushing(calls[..n]) + if calls[n].FlushSwap? then 1 else if calls[n].FlushWrite? then -1 else 0
  }

  /** No flush takes the queue once two lines were to be queued. */
  ghost predicate FlushesAreEarly(calls: seq<Label>) {
    forall n :: 0 <= n < |calls| && calls[n].FlushSwap? ==> |PushLines(calls[..n])| <= 1
  }

  /** No line is queued during a flush. */
  ghost predicate FlushesAreApart(calls: seq<Label>) {
    forall n :: 0 <= n < |calls| && calls[n].Push? ==> Flushing(calls[..n]) == 0
  }

  // ---------------------------------------------------------------- the condition suffices

  lemma {:induction false} CallsOfPrefix(labels: seq<Label>, j: nat)
    requires j <= |labels|
    ensures CallsOf(labels[..j]) <= CallsOf(labels)
    decreases |labels|
  {
    if j < |labels| {
      var n := |labels| - 1;
      CallsOfPrefix(labels[..n], j);
      assert labels[..n][..j] == labels[..j];
    } else {
      assert labels[..j] == labels;
    }
  }

  /** A caller's step is the next one of the calls. */
  lemma NextCall(labels: seq<Label>, j: nat)
    requires j < |labels| && !labels[j].Swap? && !labels[j].Write?
    ensures var n := |CallsOf(labels[..j])|;
            n < |CallsOf(labels)| && CallsOf(labels)[n] == labels[j] && CallsOf(labels)[..n] == CallsOf(labels[..j])
  {
    CallsOfPrefix(labels, j + 1);
    assert labels[..j + 1][..j] == labels[..j];
    var n := |CallsOf(labels[..j])|;
    assert CallsOf(labels[..j + 1]) == CallsOf(labels[..j]) + [labels[j]];
    assert CallsOf(labels)[..n + 1] == CallsOf(labels[..j + 1]);
    assert CallsOf(labels)[..n] == CallsOf(labels)[..n + 1][..n];
  }

  /** What the calls so far say about the state, whatever the writer did. */
  ghost predicate Follows(s: State, calls: seq<Label>) {
    multiset(s.accepted) <= multiset(PushLines(calls)) && |s.flushing| == Flushing(calls)
  }

  lemma CallsAppend(calls: seq<Label>, a: Label)
    ensures PushLines(calls + [a]) == PushLines(calls) + if a.Push? then [a.line] else []
    ensures Flushing(calls + [a]) == Flushing(calls) + if a.FlushSwap? then 1 else if a.FlushWrite? then -1 else 0
  {
    assert (calls + [a])[..|calls|] == calls;
  }

  lemma PushFollows(s: State, line: string, lines: seq<string>)
    requires s.rate >= 1 && Enabled(s, Push(line)) && multiset(s.accepted) <= multiset(lines)
    ensures multiset(Apply(s, Push(line)).accepted) <= multiset(lines + [line])
  {
    AddLine(lines, line);
    AddLine(s.accepted, line);
  }

  lemma StepFollows(s: State, a: Label, calls: seq<Label>)
    requires s.rate >= 1 && Enabled(s, a) && Follows(s, calls)
    ensures Follows(Apply(s, a), if a.Swap? || a.Write? then calls else calls + [a])
  {
    hide PushLines, Flushing;
    CallsAppend(calls, a);
    if a.Push? {
      PushFollows(s, a.line, PushLines(calls));
    } else {
      assert PushLines(calls) + [] == PushLines(calls);
    }
  }

  lemma {:induction false} RunFollows(run: seq<State>, labels: seq<Label>, k: nat)
    requires IsRun(run, labels) && k < |run|
    ensures Follows(run[k], CallsOf(labels[..k]))
    decreases k
  {
    hide Follows, Apply, Enabled, Initial;
    if k == 0 {
      StartFollows(run[0]);
      assert labels[..0] == [];
    } else {
      RunFollows(run, labels, k - 1);
      assert labels[..k][..k - 1] == labels[..k - 1] && labels[..k][k - 1] == labels[k - 1];
      assert CallsOf(labels[..k - 1]) + [] == CallsOf(labels[..k - 1]);
      StepFollows(run[k - 1], labels[k - 1], CallsOf(labels[..k - 1]));
    }
  }

  lemma StartFollows(s: State)
    requires Initial(s)
    ensures Follows(s, [])
  {
  }

  lemma AcceptedAreFew(s: State, calls: seq<Label>)
    requires Follows(s, calls)
    ensures |s.accepted| <= |PushLines(calls)|
  {
    assert |multiset(s.accepted)| == |s.accepted| && |multiset(PushLines(calls))| == |PushLines(calls)|;
    assert multiset(PushLines(calls)) == multiset(s.accepted) + (multiset(PushLines(calls)) - multiset(s.accepted));
  }

  /** While a flush is under way there is at most one line. */
  lemma {:induction false} FlushesSeeOneLine(run: seq<State>, labels: seq<Label>, k: nat)
    requires IsRun(run, labels) && k < |run|
    requires FlushesAreEarly(CallsOf(labels)) && FlushesAreApart(CallsOf(labels))
    ensures run[k].flushing == [] || |run[k].accepted| <= 1
    decreases k
  {
    if k > 0 {
      hide Initial, Enabled, Apply, Follows, FlushesAreEarly, FlushesAreApart, CallsOf, PushLines, Flushing;
      FlushesSeeOneLine(run, labels, k - 1);
      RunFollows(run, labels, k - 1);
      CallIsAllowed(labels, k - 1);
      OneLineStep(run[k - 1], labels[k - 1], CallsOf(labels[..k - 1]));
    } else {
      hide Enabled, Apply, FlushesAreEarly, FlushesAreApart, CallsOf;
    }
  }

  lemma CallIsAllowed(labels: seq<Label>, j: nat)
    requires j < |labels| && FlushesAreEarly(CallsOf(labels)) && FlushesAreApart(CallsOf(labels))
    ensures labels[j].FlushSwap? ==> |PushLines(CallsOf(labels[..j]))| <= 1
    ensures labels[j].Push? ==> Flushing(CallsOf(labels[..j])) == 0
  {
    hide CallsOf, PushLines, Flushing;
    if !labels[j].Swap? && !labels[j].Write? { NextCall(labels, j); }
  }

  lemma OneLineStep(s: State, a: Label, before: seq<Label>)
    requires s.rate >= 1 && Enabled(s, a) && Follows(s, before) && (s.flushing == [] || |s.accepted| <= 1)
    requires a.FlushSwap? ==> |PushLines(before)| <= 1
    requires a.Push? ==> Flushing(before) == 0
    ensures var t := Apply(s, a); t.flushing == [] || |t.accepted| <= 1
  {
    if a.FlushSwap? {
      AcceptedAreFew(s, before);
    } else if a.Push? {
      FollowsFlushing(s, before);
    }
  }

  lemma FollowsFlushing(s: State, calls: seq<Label>)
    requires Follows(s, calls)
    ensures |s.flushing| == Flushing(calls)
  {
  }

  lemma OneLineOneBatch(s: State, l: Ledger)
    requires Linked(s, l) && Tiled(s.accepted, s.queue, l) && (s.flushing == [] || |s.accepted| <= 1)
    ensures AtMostOne(l)
  {
    forall f, g | f in l.unwritten && g in l.unwritten ensures f == g {
      if s.flushing == [] {
        assert [WriterBatch(s.writer)] + s.flushing == [WriterBatch(s.writer)];
      } else {
        assert f + |l.unwritten[f]| <= 1 && g + |l.unwritten[g]| <= 1;
      }
    }
  }

  /**
   * A condition on the calls alone: if no flush comes after the second line and no line is
   * queued during a flush, then whatever the writer does, nothing overtakes and the file is a
   * prefix of the accepted lines in every state.
   */
  lemma EarlyApartFlushesKeepOrder(run: seq<State>, labels: seq<Label>, k: nat)
    requires IsRun(run, labels) && k < |run|
    requires FlushesAreEarly(CallsOf(labels)) && FlushesAreApart(CallsOf(labels))
    ensures NoOvertaking(run, labels, k) && run[k].file <= run[k].accepted
  {
    hide Linked, Tiled, NextLedger, Apply, Initial, FlushesAreEarly, FlushesAreApart;
    forall j | 0 <= j < k ensures !Overtakes(run, labels, j) {
      FlushesSeeOneLine(run, labels, j);
      RunKeepsLedger(run, labels, j);
      OneLineOneBatch(run[j], LedgerAt(run, labels, j));
      if Written(run[j], labels[j]) != [] { WrittenIsUnwritten(run[j], LedgerAt(run, labels, j), labels[j]); }
    }
    InOrderWithoutOvertaking(run, labels, k);
  }

  // ---------------------------------------------------------------- one caller

  /** What a single thread does with the log, one call after the other. */
  datatype Op = Log(line: string) | Flush

  /** The steps of these calls; only every `rate`-th line is queued. */
  function StepsOf(program: seq<Op>, rate: nat, counter: nat): seq<Label>
    requires rate >= 1
  {
    if program == [] then [] else
      match program[0]
      case Log(line) =>
        [Call(line)] + (if counter % rate == 0 then [Push(line)] else []) + StepsOf(program[1..], rate, counter + 1)
      case Flush => [FlushSwap, FlushWrite(0)] + StepsOf(program[1..], rate, counter)
  }

  /** Some flush comes after the second line, `pushed` of which were queued before. */
  predicate FlushesLate(program: seq<Op>, rate: nat, counter: nat, pushed: nat)
    requires rate >= 1
  {
    program != [] &&
    match program[0]
    case Log(_) => FlushesLate(program[1..], rate, counter + 1, pushed + if counter % rate == 0 then 1 else 0)
    case Flush => pushed >= 2 || FlushesLate(program[1..], rate, counter, pushed)
  }

  lemma {:induction false} CallsSum(a: seq<Label>, b: seq<Label>)
    ensures PushLines(a + b) == PushLines(a) + PushLines(b) && Flushing(a + b) == Flushing(a) + Flushing(b)
    decreases |b|
  {
    if b == [] {
      assert a + b == a;
    } else {
      var n := |b| - 1;
      CallsSum(a, b[..n]);
      assert (a + b)[..|a + b| - 1] == a + b[..n];
    }
  }

  /** The steps of the first call. */
  function FirstSteps(op: Op, rate: nat, counter: nat): seq<Label>
    requires rate >= 1
  {
    match op
    case Log(line) => [Call(line)] + if counter % rate == 0 then [Push(line)] else []
    case Flush => [FlushSwap, FlushWrite(0)]
  }

  lemma FirstStepsCount(op: Op, rate: nat, counter: nat)
    requires rate >= 1
    ensures var a := FirstSteps(op, rate, counter);
            && |PushLines(a)| == (if op.Log? && counter % rate == 0 then 1 else 0) && Flushing(a) == 0
            && (forall n :: 0 <= n < |a| && a[n].Push? ==> Flushing(a[..n]) == 0)
            && (forall n :: 0 <= n < |a| ==> PushLines(a[..n]) == [] && (a[n].FlushSwap? <==> op.Flush? && n == 0))
  {
    hide PushLines, Flushing;
    var a := FirstSteps(op, rate, counter);
    NoCalls();
    CallsAppend([], a[0]);
    assert [] + [a[0]] == [a[0]] == a[..1] && a[..0] == [];
    if |a| == 2 {
      CallsAppend([a[0]], a[1]);
      assert a == [a[0]] + [a[1]];
    } else {
      assert a == [a[0]];
    }
  }

  lemma NoCalls()
    ensures PushLines([]) == [] && Flushing([]) == 0
  {
  }

  /** The condition on the calls, with `pushed` lines queued before. */
  ghost predicate EarlyFrom(calls: seq<Label>, pushed: nat) {
    forall n :: 0 <= n < |calls| ==> EarlyAt(calls, pushed, n)
  }

  ghost predicate EarlyAt(calls: seq<Label>, pushed: nat, n: nat)
    requires n < |calls|
  {
    calls[n].FlushSwap? ==> pushed + |PushLines(calls[..n])| <= 1
  }

  lemma EarlyInFirst(a: seq<Label>, b: seq<Label>, pushed: nat, n: nat)
    requires n < |a|
    ensures EarlyAt(a + b, pushed, n) <==> EarlyAt(a, pushed, n)
  {
    assert (a + b)[..n] == a[..n];
  }

  lemma EarlyInSecond(a: seq<Label>, b: seq<Label>, pushed: nat, n: nat)
    requires n < |b|
    ensures EarlyAt(a + b, pushed, |a| + n) <==> EarlyAt(b, pushed + |PushLines(a)|, n)
  {
    assert (a + b)[..|a| + n] == a + b[..n];
    CallsSum(a, b[..n]);
  }

  lemma EarlyFromSplits(a: seq<Label>, b: seq<Label>, pushed: nat)
    ensures EarlyFrom(a + b, pushed) <==> EarlyFrom(a, pushed) && EarlyFrom(b, pushed + |PushLines(a)|)
  {
    hide PushLines, EarlyAt;
    var c, later := a + b, pushed + |PushLines(a)|;
    forall n | 0 <= n < |a| ensures EarlyAt(c, pushed, n) <==> EarlyAt(a, pushed, n) {
      EarlyInFirst(a, b, pushed, n);
    }
    forall n | 0 <= n < |b| ensures EarlyAt(c, pushed, |a| + n) <==> EarlyAt(b, later, n) {
      EarlyInSecond(a, b, pushed, n);
    }
    if EarlyFrom(a, pushed) && EarlyFrom(b, later) {
      forall n | 0 <= n < |c| ensures EarlyAt(c, pushed, n) {
        if n >= |a| { assert EarlyAt(b, later, n - |a|) == EarlyAt(c, pushed, |a| + (n - |a|)); }
      }
    }
  }

  lemma ApartSplits(a: seq<Label>, b: seq<Label>)
    requires FlushesAreApart(a) && FlushesAreApart(b) && Flushing(a) == 0
    ensures FlushesAreApart(a + b)
  {
    hide Flushing;
    var c := a + b;
    forall n | 0 <= n < |c| && c[n].Push? ensures Flushing(c[..n]) == 0 {
      if n < |a| {
        assert c[..n] == a[..n];
      } else {
        assert c[..n] == a + b[..n - |a|];
        CallsSum(a, b[..n - |a|]);
      }
    }
  }

  lemma FirstStepsEarly(op: Op, rate: nat, counter: nat, pushed: nat)
    requires rate >= 1
    ensures EarlyFrom(FirstSteps(op, rate, counter), pushed) <==> (op.Flush? ==> pushed <= 1)
  {
    hide PushLines;
    var a := FirstSteps(op, rate, counter);
    FirstStepsCount(op, rate, counter);
    assert EarlyAt(a, pushed, 0) <==> (op.Flush? ==> pushed <= 1);
  }

  /** The program's recursion and the condition on its steps say the same; a single caller's flushes are apart. */
  lemma {:induction false} ProgramSteps(program: seq<Op>, rate: nat, counter: nat, pushed: nat)
    requires rate >= 1
    ensures EarlyFrom(StepsOf(program, rate, counter), pushed) <==> !FlushesLate(program, rate, counter, pushed)
    ensures FlushesAreApart(StepsOf(program, rate, counter)) && Flushing(StepsOf(program, rate, counter)) == 0
    decreases |program|
  {
    hide PushLines, Flushing;
    if program != [] {
      var op := program[0];
      var a := FirstSteps(op, rate, counter);
      var next := counter + if op.Log? then 1 else 0;
      var b := StepsOf(program[1..], rate, next);
      FirstStepsCount(op, rate, counter);
      ProgramSteps(program[1..], rate, next, pushed + |PushLines(a)|);
      assert StepsOf(program, rate, counter) == a + b;
      EarlyFromSplits(a, b, pushed);
      ApartSplits(a, b);
      CallsSum(a, b);
      FirstStepsEarly(op, rate, counter, pushed);
    } else {
      NothingFlushing();
    }
  }

  lemma NothingFlushing()
    ensures Flushing([]) == 0
  {
  }

  // ---------------------------------------------------------------- the condition is needed

  function Last(run: seq<State>): State
    requires run != []
  {
    run[|run| - 1]
  }

  ghost predicate Runs(run: seq<State>, labels: seq<Label>) {
    run != [] && IsRun(run, labels)
  }

  /** A run with one step more. */
  lemma Extend(run: seq<State>, labels: seq<Label>, a: Label) returns (run': seq<State>, labels': seq<Label>)
    requires Runs(run, labels) && Last(run).rate >= 1 && Enabled(Last(run), a)
    ensures Runs(run', labels') && run'[0] == run[0] && Last(run') == Apply(Last(run), a)
    ensures CallsOf(labels') == CallsOf(labels) + if a.Swap? || a.Write? then [] else [a]
  {
    hide Apply, Enabled, Initial;
    run', labels' := run + [Apply(Last(run), a)], labels + [a];
    assert labels'[..|labels|] == labels;
  }

  /**
   * The worst the writer can do: it takes the first line as soon as it is queued and does not
   * get to write it.  `pushed` lines were to be queued so far.
   */
  ghost predicate Stalled(s: State, pushed: nat) {
    && s.life.Alive? && s.pending == multiset{} && s.flushing == [] && s.rate >= 1 && s.capacity >= 1
    && (pushed == 0 ==> s.accepted == [] && s.queue == [] && s.file == [] && s.writer.Waiting?)
    && (pushed >= 1 ==> s.accepted != [] && s.writer == Writing([s.accepted[0]]))
    && (pushed == 1 ==> |s.accepted| == 1 && s.queue == [] && s.file == [])
    && (pushed >= 2 ==> |s.accepted| >= 2)
  }

  lemma CallKeepsStalled(s: State, line: string, pushed: nat)
    requires Stalled(s, pushed)
    ensures s.rate >= 1 && Enabled(s, Call(line))
    ensures var t := Apply(s, Call(line));
            && t.rate == s.rate && t.counter == s.counter + 1 && t.file == s.file
            && (s.counter % s.rate != 0 ==> Stalled(t, pushed))
            && (s.counter % s.rate == 0 ==> t.pending == multiset{line} && Stalled(t.(pending := multiset{}), pushed))
  {
  }

  /** The line is queued, and taken by the writer if it is the very first one. */
  lemma PushKeepsStalled(s: State, line: string, pushed: nat)
    requires s.pending == multiset{line} && Stalled(s.(pending := multiset{}), pushed)
    ensures s.rate >= 1 && Enabled(s, Push(line))
    ensures var t := Apply(s, Push(line));
            && t.rate == s.rate && t.counter == s.counter && t.file == s.file
            && (pushed == 0 ==>
                  Enabled(t, Swap)
                  && var u := Apply(t, Swap);
                     Stalled(u, 1) && u.rate == s.rate && u.counter == s.counter && u.file == s.file)
            && (pushed >= 1 ==> Stalled(t, pushed + 1))
  {
    var t := Apply(s, Push(line));
    assert t.pending == multiset{};
  }

  /** One line is logged; the writer takes the very first one. */
  lemma LogStalled(run: seq<State>, labels: seq<Label>, line: string, pushed: nat)
    returns (run': seq<State>, labels': seq<Label>, pushed': nat)
    requires Runs(run, labels) && Stalled(Last(run), pushed)
    ensures Runs(run', labels') && run'[0] == run[0]
    ensures var s, t := Last(run), Last(run');
            && CallsOf(labels') == CallsOf(labels) + FirstSteps(Log(line), s.rate, s.counter)
            && pushed' == pushed + (if s.counter % s.rate == 0 then 1 else 0)
            && Stalled(t, pushed') && t.rate == s.rate && t.counter == s.counter + 1 && t.file == s.file
  {
    hide IsRun, Stalled, Apply, Enabled, CallsOf;
    var s := Last(run);
    CallKeepsStalled(s, line, pushed);
    run', labels' := Extend(run, labels, Call(line));
    pushed' := pushed;
    if s.counter % s.rate == 0 {
      PushKeepsStalled(Last(run'), line, pushed);
      run', labels' := Extend(run', labels', Push(line));
      pushed' := pushed + 1;
      if pushed == 0 { run', labels' := Extend(run', labels', Swap); }
      assert CallsOf(labels) + [Call(line)] + [Push(line)] + [] == CallsOf(labels) + [Call(line), Push(line)];
    } else {
      assert [Call(line)] + [] == [Call(line)];
    }
  }

  /** A flush; everything but the first line is in the file afterwards. */
  lemma FlushStalled(run: seq<State>, labels: seq<Label>, pushed: nat) returns (run': seq<State>, labels': seq<Label>)
    requires Runs(run, labels) && Stalled(Last(run), pushed)
    ensures Runs(run', labels') && run'[0] == run[0]
    ensures var s, t := Last(run), Last(run');
            && CallsOf(labels') == CallsOf(labels) + [FlushSwap, FlushWrite(0)]
            && Stalled(t, pushed) && t.rate == s.rate && t.counter == s.counter
            && s.file <= t.file && (pushed >= 2 ==> t.file != [])
  {
    hide IsRun, CallsOf, Stalled, Apply, Enabled;
    var s := Last(run);
    FlushKeepsStalled(s, pushed);
    run', labels' := Extend(run, labels, FlushSwap);
    run', labels' := Extend(run', labels', FlushWrite(0));
    assert CallsOf(labels) + [FlushSwap] + [FlushWrite(0)] == CallsOf(labels) + [FlushSwap, FlushWrite(0)];
    if pushed >= 2 {
      StalledHolds(Last(run'), pushed);
      StalledFile(run', labels', Last(run'));
    }
  }

  lemma FlushKeepsStalled(s: State, pushed: nat)
    requires Stalled(s, pushed)
    ensures s.rate >= 1 && Enabled(s, FlushSwap)
    ensures var t := Apply(s, FlushSwap);
            && t.rate >= 1 && Enabled(t, FlushWrite(0))
            && var u := Apply(t, FlushWrite(0));
               && Stalled(u, pushed) && u.queue == [] && u.rate == s.rate && u.counter == s.counter && s.file <= u.file
  {
    assert (s.flushing + [s.queue])[0] == s.queue;
    assert [s.queue][..0] + [s.queue][1..] == [];
    assert s.file + [] == s.file;
  }

  lemma StalledHolds(s: State, pushed: nat)
    requires Stalled(s, pushed) && pushed >= 1
    ensures s.life.Alive? && s.flushing == [] && s.accepted != [] && s.writer == Writing([s.accepted[0]])
    ensures pushed >= 2 ==> |s.accepted| >= 2
  {
  }

  lemma StalledFile(run: seq<State>, labels: seq<Label>, s: State)
    requires Runs(run, labels) && s == Last(run) && s.queue == [] && s.flushing == [] && s.life.Alive?
    requires |s.accepted| >= 2 && s.writer == Writing([s.accepted[0]])
    ensures s.file != []
  {
    hide IsRun;
    AccessLinesConserved(run, labels, |run| - 1);
    assert multiset(s.accepted) == multiset(s.file) + multiset([s.accepted[0]]);
    assert |multiset(s.accepted)| == |s.accepted| && |multiset([s.accepted[0]])| == 1;
  }

  /** One call of a program under that schedule. */
  lemma PerformOne(run: seq<State>, labels: seq<Label>, op: Op, pushed: nat)
    returns (run': seq<State>, labels': seq<Label>, pushed': nat)
    requires Runs(run, labels) && Stalled(Last(run), pushed) && Last(run).rate >= 1
    ensures Runs(run', labels') && run'[0] == run[0]
    ensures var s, t := Last(run), Last(run');
            && CallsOf(labels') == CallsOf(labels) + FirstSteps(op, s.rate, s.counter)
            && Stalled(t, pushed') && t.rate == s.rate && t.counter == s.counter + (if op.Log? then 1 else 0)
            && pushed' == pushed + (if op.Log? && s.counter % s.rate == 0 then 1 else 0)
            && s.file <= t.file && (op.Flush? && pushed >= 2 ==> t.file != [])
  {
    hide IsRun, Stalled, CallsOf;
    if op.Log? {
      run', labels', pushed' := LogStalled(run, labels, op.line, pushed);
    } else {
      run', labels' := FlushStalled(run, labels, pushed);
      pushed' := pushed;
    }
  }

  /** A whole program under that schedule: a late flush leaves later lines in the file and the first one out. */
  lemma {:induction false} Perform(run: seq<State>, labels: seq<Label>, program: seq<Op>, pushed: nat)
    returns (run': seq<State>, labels': seq<Label>, pushed': nat)
    requires Runs(run, labels) && Stalled(Last(run), pushed)
    ensures Runs(run', labels') && run'[0] == run[0]
    ensures var s, t := Last(run), Last(run');
            && CallsOf(labels') == CallsOf(labels) + StepsOf(program, s.rate, s.counter)
            && Stalled(t, pushed') && pushed <= pushed' && s.file <= t.file
            && (FlushesLate(program, s.rate, s.counter, pushed) ==> pushed' >= 2 && t.file != [])
    decreases |program|
  {
    hide IsRun, Stalled, CallsOf, FirstSteps;
    var s := Last(run);
    StalledHasRate(s, pushed);
    if program == [] {
      run', labels', pushed' := run, labels, pushed;
      assert CallsOf(labels) + [] == CallsOf(labels);
    } else {
      hide StepsOf, FlushesLate;
      ProgramUnfolds(program, s.rate, s.counter, pushed);
      run', labels', pushed' := PerformOne(run, labels, program[0], pushed);
      var t, late := Last(run'), pushed';
      run', labels', pushed' := Perform(run', labels', program[1..], late);
      Concatenates(CallsOf(labels), FirstSteps(program[0], s.rate, s.counter),
                   StepsOf(program[1..], t.rate, t.counter));
    }
  }

  lemma Concatenates(a: seq<Label>, b: seq<Label>, c: seq<Label>)
    ensures a + b + c == a + (b + c)
  {
  }

  /** One call of a program. */
  lemma ProgramUnfolds(program: seq<Op>, rate: nat, counter: nat, pushed: nat)
    requires rate >= 1 && program != []
    ensures var op, rest := program[0], program[1..];
            var next := counter + if op.Log? then 1 else 0;
            var pushed' := pushed + if op.Log? && counter % rate == 0 then 1 else 0;
            && StepsOf(program, rate, counter) == FirstSteps(op, rate, counter) + StepsOf(rest, rate, next)
            && (FlushesLate(program, rate, counter, pushed) <==>
                  (op.Flush? && pushed >= 2) || FlushesLate(rest, rate, next, pushed'))
  {
  }

  lemma StalledHasRate(s: State, pushed: nat)
    requires Stalled(s, pushed)
    ensures s.rate >= 1
  {
  }

  lemma DistinctOnce(lines: seq<string>, x: string)
    requires Distinct(lines)
    ensures multiset(lines)[x] <= 1
  {
    if x in lines {
      var i :| 0 <= i < |lines| && lines[i] == x;
      assert lines == lines[..i] + [x] + lines[i + 1..];
      assert x !in lines[..i] && x !in lines[i + 1..];
    }
  }

  /** The file of a stalled run does not begin with the first line. */
  lemma StalledIsOutOfOrder(run: seq<State>, labels: seq<Label>)
    requires Runs(run, labels) && Distinct(PushLines(CallsOf(labels)))
    requires var s := Last(run);
             && s.life.Alive? && s.flushing == [] && s.file != [] && s.accepted != []
             && s.writer == Writing([s.accepted[0]])
    ensures !(Last(run).file <= Last(run).accepted)
  {
    hide IsRun, Distinct, PushLines, CallsOf, Flushing;
    var s := Last(run);
    var x := s.accepted[0];
    AccessLinesConserved(run, labels, |run| - 1);
    RunFollows(run, labels, |run| - 1);
    RunLength(run, labels);
    assert labels[..|run| - 1] == labels;
    DistinctOnce(PushLines(CallsOf(labels)), x);
    assert multiset([x])[x] == 1;
    assert s.file[0] in multiset(s.file);
  }

  lemma RunLength(run: seq<State>, labels: seq<Label>)
    requires Runs(run, labels)
    ensures |labels| == |run| - 1
  {
  }

  function Start(capacity: nat, rate: nat): State {
    State(capacity, rate, 0, 0, [], false, [], Waiting, Alive, multiset{}, [], [], 0)
  }

  /** The single caller's run: these are its calls, whatever the writer does in between. */
  ghost predicate RunsProgram(run: seq<State>, labels: seq<Label>, program: seq<Op>, capacity: nat, rate: nat)
    requires rate >= 1
  {
    Runs(run, labels) && run[0] == Start(capacity, rate) && CallsOf(labels) == StepsOf(program, rate, 0)
  }

  lemma LateFlushReorders(program: seq<Op>, capacity: nat, rate: nat) returns (run: seq<State>, labels: seq<Label>)
    requires capacity >= 1 && rate >= 1 && Distinct(PushLines(StepsOf(program, rate, 0)))
    requires FlushesLate(program, rate, 0, 0)
    ensures RunsProgram(run, labels, program, capacity, rate) && !(Last(run).file <= Last(run).accepted)
  {
    hide Distinct, PushLines, StepsOf, FlushesLate;
    var s := Start(capacity, rate);
    StartRuns(capacity, rate);
    var pushed: nat;
    run, labels, pushed := Perform([s], [], program, 0);
    assert [] + StepsOf(program, rate, 0) == StepsOf(program, rate, 0);
    StalledIsOutOfOrder(run, labels);
  }

  /**
   * The exact condition for a single caller of an access log of any capacity and sampling rate:
   * its lines are in order in every state, whatever the writer does, if and only if it does
   * not flush after the second line that was to be queued.
   */
  lemma InOrderIffFlushesEarly(program: seq<Op>, capacity: nat, rate: nat)
    requires capacity >= 1 && rate >= 1 && Distinct(PushLines(StepsOf(program, rate, 0)))
    ensures (forall run, labels :: RunsProgram(run, labels, program, capacity, rate) ==>
               Last(run).file <= Last(run).accepted)
            <==> FlushesAreEarly(StepsOf(program, rate, 0))
  {
    hide IsRun, Distinct, PushLines, StepsOf, FlushesLate, CallsOf, FlushesAreApart, Start;
    ProgramSteps(program, rate, 0, 0);
    EarlyIsEarly(StepsOf(program, rate, 0));
    if FlushesAreEarly(StepsOf(program, rate, 0)) {
      forall run, labels | RunsProgram(run, labels, program, capacity, rate)
        ensures Last(run).file <= Last(run).accepted
      {
        EarlyApartFlushesKeepOrder(run, labels, |run| - 1);
      }
    } else {
      var run, labels := LateFlushReorders(program, capacity, rate);
    }
  }

  lemma EarlyIsEarly(calls: seq<Label>)
    ensures EarlyFrom(calls, 0) <==> FlushesAreEarly(calls)
  {
    assert forall n :: 0 <= n < |calls| ==>
      (EarlyAt(calls, 0, n) <==> (calls[n].FlushSwap? ==> |PushLines(calls[..n])| <= 1));
  }

  /** A sampled line is logged while there is room. */
  lemma LineIsQueued(s: State, line: string)
    requires s.rate == 1 && s.life.Alive? && s.pending == multiset{} && |s.queue| < s.capacity
    ensures Enabled(s, Call(line)) && Enabled(Apply(s, Call(line)), Push(line)) && Apply(s, Call(line)).rate == 1
    ensures Apply(Apply(s, Call(line)), Push(line))
            == s.(counter := s.counter + 1, sampled := s.sampled + 1,
                  accepted := s.accepted + [line], queue := s.queue + [line])
  {
    var t := Apply(Apply(s, Call(line)), Push(line));
    assert t.pending == multiset{};
  }

  lemma QueueIsFlushed(s: State)
    requires s.rate == 1 && s.life.Alive? && s.flushing == []
    ensures Enabled(s, FlushSwap) && Apply(s, FlushSwap) == s.(queue := [], flushing := [s.queue])
  {
  }

  /** A flush has taken line `a` when line `b` is logged. */
  lemma FlushTakesFirst(a: string, b: string) returns (run: seq<State>, labels: seq<Label>)
    ensures Runs(run, labels) && CallsOf(labels) == [Call(a), Push(a), FlushSwap, Call(b), Push(b)]
    ensures Last(run) == Start(2, 1).(counter := 2, sampled := 2, accepted := [a, b], queue := [b], flushing := [[a]])
  {
    hide IsRun, CallsOf;
    var s := Start(2, 1);
    StartRuns(2, 1);
    hide Apply, Enabled;
    var s2 := s.(counter := 1, sampled := 1, accepted := [a], queue := [a]);
    LineIsQueued(s, a);
    run, labels := Extend([s], [], Call(a));
    run, labels := Extend(run, labels, Push(a));
    assert [] + [a] == [a];
    var s3 := s2.(queue := [], flushing := [[a]]);
    QueueIsFlushed(s2);
    run, labels := Extend(run, labels, FlushSwap);
    LineIsQueued(s3, b);
    run, labels := Extend(run, labels, Call(b));
    run, labels := Extend(run, labels, Push(b));
    assert [a] + [b] == [a, b] && [] + [b] == [b];
    assert [] + [Call(a)] + [Push(a)] + [FlushSwap] + [Call(b)] + [Push(b)]
        == [Call(a), Push(a), FlushSwap, Call(b), Push(b)];
  }

  /** The other half is needed with several callers: a line logged during a flush can come before the flushed one. */
  lemma LineDuringFlushReorders(a: string, b: string) returns (run: seq<State>, labels: seq<Label>)
    requires a != b
    ensures Runs(run, labels) && FlushesAreEarly(CallsOf(labels)) && !FlushesAreApart(CallsOf(labels))
    ensures Last(run).accepted == [a, b] && Last(run).file == [b, a]
  {
    hide IsRun, CallsOf, PushLines, Flushing, FlushesAreEarly, FlushesAreApart;
    run, labels := FlushTakesFirst(a, b);
    run, labels := Extend(run, labels, Swap);
    run, labels := Extend(run, labels, Write);
    run, labels := Extend(run, labels, FlushWrite(0));
    var calls := [Call(a), Push(a), FlushSwap, Call(b), Push(b), FlushWrite(0)];
    assert CallsOf(labels) == calls;
    LineDuringFlush(a, b, calls);
  }

  lemma LineDuringFlush(a: string, b: string, calls: seq<Label>)
    requires calls == [Call(a), Push(a), FlushSwap, Call(b), Push(b), FlushWrite(0)]
    ensures FlushesAreEarly(calls) && !FlushesAreApart(calls)
  {
    hide PushLines, Flushing;
    NoCalls();
    CallsAppend([], Call(a));
    CallsAppend([Call(a)], Push(a));
    CallsAppend([Call(a), Push(a)], FlushSwap);
    CallsAppend([Call(a), Push(a), FlushSwap], Call(b));
    assert [] + [Call(a)] == [Call(a)] && [Call(a)] + [Push(a)] == [Call(a), Push(a)] == calls[..2];
    assert [Call(a), Push(a)] + [FlushSwap] == [Call(a), Push(a), FlushSwap];
    assert [Call(a), Push(a), FlushSwap] + [Call(b)] == calls[..4];
    assert calls[4].Push? && Flushing(calls[..4]) == 1;
  }

  lemma StartRuns(capacity: nat, rate: nat)
    requires capacity >= 1 && rate >= 1
    ensures Runs([Start(capacity, rate)], []) && CallsOf([]) == []
  {
  }
}
