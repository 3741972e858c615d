/**
 * Audit log rotation (src/Logger.cpp:154-204).  A directory gives, for each index, the
 * content of a file or nothing: index 0 is the live file, index k the file with suffix `.k`.
 * It reaches arbitrarily far beyond the configured `keep`.
 */
module AuditLogModel {
  import opened Basics

  type Files = seq<Option<string>>

  /** The rename cascade at once: .k takes .(k-1), .1 takes the live file, the old .keep is gone. */
  function Rotated(files: Files, keep: nat): Files
    requires 1 <= keep < |files|
  {
    [Some("")] + files[..keep] + files[keep + 1..]
  }

  function Content(f: Option<string>): string {
    if f.Some? then f.value else ""
  }

  predicate NeedsRotation(files: Files, limit: nat, keep: nat, incoming: nat)
    requires |files| > 0
  {
    limit != 0 && keep != 0 && |Content(files[0])| + incoming > limit
  }

  function AfterRotation(files: Files, limit: nat, keep: nat, incoming: nat): (r: Files)
    requires keep < |files|
    ensures |r| == |files|
  {
    if NeedsRotation(files, limit, keep, incoming) then Rotated(files, keep) else files
  }

  /** One call of `audit` with the finished line. */
  function Audited(files: Files, limit: nat, keep: nat, line: string): (r: Files)
    requires keep < |files|
    ensures |r| == |files|
  {
    var r := AfterRotation(files, limit, keep, |line|);
    r[0 := Some(Content(r[0]) + line)]
  }

  function AuditedAll(files: Files, limit: nat, keep: nat, lines: seq<string>): (r: Files)
    requires keep < |files|
    ensures |r| == |files|
    decreases |lines|
  {
    if lines == [] then files
    else AuditedAll(Audited(files, limit, keep, lines[0]), limit, keep, lines[1..])
  }

  // ---------------------------------------------------------------- history

  /** The contents of a row of files, last index first: oldest text first. */
  function OldestFirst(files: Files): string {
    if files == [] then "" else OldestFirst(files[1..]) + Content(files[0])
  }

  /** Everything that is kept, `.keep` through `.1` and then the live file. */
  function History(files: Files, keep: nat): string
    requires keep < |files|
  {
    OldestFirst(files[..keep + 1])
  }

  function Concat(lines: seq<string>): string {
    if lines == [] then "" else lines[0] + Concat(lines[1..])
  }

  ghost predicate IsSuffix(s: string, whole: string) {
    |s| <= |whole| && whole[|whole| - |s|..] == s
  }

  lemma {:induction false} OldestFirstSplits(files: Files, last: Option<string>)
    ensures OldestFirst(files + [last]) == Content(last) + OldestFirst(files)
  {
    hide Content;
    if files == [] {
      assert files + [last] == [last] && [last][1..] == [];
      assert OldestFirst([last]) == OldestFirst([]) + Content(last) == Content(last) + "";
    } else {
      OldestFirstSplits(files[1..], last);
      assert (files + [last])[1..] == files[1..] + [last];
      assert Content(last) + (OldestFirst(files[1..]) + Content(files[0])) == Content(last) + OldestFirst(files);
    }
  }

  /** A rotation drops exactly the old `.keep` and nothing else. */
  lemma RotationDropsOldest(files: Files, keep: nat)
    requires 1 <= keep < |files|
    ensures History(files, keep) == Content(files[keep]) + History(Rotated(files, keep), keep)
  {
    assert files[..keep + 1] == files[..keep] + [files[keep]];
    OldestFirstSplits(files[..keep], files[keep]);
    var shifted := Rotated(files, keep)[..keep + 1];
    assert shifted == [Some("")] + files[..keep];
    assert shifted[1..] == files[..keep];
  }

  lemma LiveIsLast(files: Files, keep: nat, live: string)
    requires keep < |files|
    ensures History(files[0 := Some(live)], keep) == OldestFirst(files[1..keep + 1]) + live
    ensures History(files, keep) == OldestFirst(files[1..keep + 1]) + Content(files[0])
  {
    assert files[0 := Some(live)][..keep + 1][1..] == files[1..keep + 1] == files[..keep + 1][1..];
  }

  /** Rotation is off, or the live file has room for the line. */
  predicate HasRoom(files: Files, limit: nat, keep: nat, line: string)
    requires |files| > 0
  {
    limit == 0 || keep == 0 || |Content(files[0])| + |line| <= limit
  }

  /** One `audit`: without room every file moves up by one and the old `.keep` is lost; with room nothing moves. */
  lemma AuditExtendsHistory(files: Files, limit: nat, keep: nat, line: string)
    requires keep < |files|
    ensures var h := History(files, keep) + line;
            var files' := Audited(files, limit, keep, line);
            var h' := History(files', keep);
            && (HasRoom(files, limit, keep, line) ==> h' == h && files' == files[0 := Some(Content(files[0]) + line)])
            && (!HasRoom(files, limit, keep, line) ==>
                  && Content(files[keep]) + h' == h
                  && files'[0] == Some(line) && forall i :: 1 <= i <= keep ==> files'[i] == files[i - 1])
            && IsSuffix(h', h)
  {
    var r := AfterRotation(files, limit, keep, |line|);
    LiveIsLast(r, keep, Content(r[0]) + line);
    var older := OldestFirst(r[1..keep + 1]);
    assert older + (Content(r[0]) + line) == (older + Content(r[0])) + line;
    if NeedsRotation(files, limit, keep, |line|) {
      RotationDropsOldest(files, keep);
      assert Content(files[keep]) + (History(r, keep) + line) == (Content(files[keep]) + History(r, keep)) + line;
      assert Content(r[0]) + line == line;
    }
  }

  /** While the live file and the lines fit into the limit, no file moves and no byte is lost. */
  lemma {:induction false} NothingIsRotatedAway(files: Files, limit: nat, keep: nat, lines: seq<string>)
    requires keep < |files| && |Content(files[0])| + |Concat(lines)| <= limit
    ensures AuditedAll(files, limit, keep, lines)[1..] == files[1..]
    ensures Content(AuditedAll(files, limit, keep, lines)[0]) == Content(files[0]) + Concat(lines)
    decreases |lines|
  {
    if lines == [] {
      assert Content(files[0]) + "" == Content(files[0]);
    } else {
      var next := files[0 := Some(Content(files[0]) + lines[0])];
      assert Audited(files, limit, keep, lines[0]) == next;
      NothingIsRotatedAway(next, limit, keep, lines[1..]);
      assert (Content(files[0]) + lines[0]) + Concat(lines[1..]) == Content(files[0]) + Concat(lines);
      assert next[1..] == files[1..];
    }
  }

  lemma SuffixOfMore(s: string, whole: string, more: string)
    requires IsSuffix(s, whole)
    ensures IsSuffix(s + more, whole + more)
  {
    assert (whole + more)[|whole| - |s|..] == whole[|whole| - |s|..] + more;
  }

  lemma SuffixTransitive(a: string, b: string, c: string)
    requires IsSuffix(a, b) && IsSuffix(b, c)
    ensures IsSuffix(a, c)
  {
    assert c[|c| - |a|..] == c[|c| - |b|..][|b| - |a|..];
  }

  /**
   * Over any run, what is kept is a suffix of everything there ever was: the initial
   * contents followed by all lines written.
   */
  lemma {:induction false} RotationKeepsSuffix(files: Files, limit: nat, keep: nat, lines: seq<string>)
    requires keep < |files|
    ensures IsSuffix(History(AuditedAll(files, limit, keep, lines), keep), History(files, keep) + Concat(lines))
    ensures limit == 0 || keep == 0 ==>
              History(AuditedAll(files, limit, keep, lines), keep) == History(files, keep) + Concat(lines)
    decreases |lines|
  {
    hide IsSuffix, History, Audited;
    if lines == [] {
      assert History(files, keep) + "" == History(files, keep);
      SuffixOfItself(History(files, keep));
    } else {
      var next := Audited(files, limit, keep, lines[0]);
      AuditExtendsHistory(files, limit, keep, lines[0]);
      RotationKeepsSuffix(next, limit, keep, lines[1..]);
      var h, h' := History(files, keep), History(next, keep);
      SuffixOfMore(h', h + lines[0], Concat(lines[1..]));
      assert (h + lines[0]) + Concat(lines[1..]) == h + Concat(lines);
      SuffixTransitive(History(AuditedAll(files, limit, keep, lines), keep), h' + Concat(lines[1..]),
                       h + Concat(lines));
    }
  }

  lemma SuffixOfItself(s: string)
    ensures IsSuffix(s, s)
  {
  }

  /** Files beyond `.keep` are neither created nor touched. */
  lemma {:induction false} NothingBeyondKeep(files: Files, limit: nat, keep: nat, lines: seq<string>)
    requires keep < |files|
    ensures AuditedAll(files, limit, keep, lines)[keep + 1..] == files[keep + 1..]
    decreases |lines|
  {
    if lines != [] { NothingBeyondKeep(Audited(files, limit, keep, lines[0]), limit, keep, lines[1..]); }
  }

  /** `bound` covers the rotation limit and the longest line. */
  ghost predicate Covers(bound: nat, limit: nat, lines: seq<string>) {
    limit <= bound && forall i :: 0 <= i < |lines| ==> |lines[i]| <= bound
  }

  ghost predicate SmallOrInitial(files: Files, initial: Files, bound: nat) {
    forall k :: 0 <= k < |files| ==> |Content(files[k])| <= bound || files[k] in initial
  }

  /**
   * No file outgrows the larger of the limit and the longest line: whatever is larger is
   * one of the initial files, unchanged.
   */
  lemma {:induction false} FilesStaySmall(files: Files, initial: Files, limit: nat, keep: nat, lines: seq<string>,
                                          bound: nat)
    requires keep < |files| && limit > 0 && keep > 0 && Covers(bound, limit, lines)
    requires SmallOrInitial(files, initial, bound)
    ensures SmallOrInitial(AuditedAll(files, limit, keep, lines), initial, bound)
    decreases |lines|
  {
    if lines != [] {
      var r := AfterRotation(files, limit, keep, |lines[0]|);
      assert |Content(r[0]) + lines[0]| <= bound;
      FilesStaySmall(Audited(files, limit, keep, lines[0]), initial, limit, keep, lines[1..], bound);
    }
  }
}

/** The audit half of the logger as the object it is in the source. */
module AuditLog {
  import opened Basics
  import opened AuditLogModel

  /** The directory when everything from `.index` to the old `.(keep - 1)` has moved up by one. */
  function Cascade(files: Files, keep: nat, index: nat): (r: Files)
    requires index <= keep < |files|
    ensures |r| == |files|
  {
    files[..index] + [None] + files[index..keep] + files[keep + 1..]
  }

  lemma CascadeStep(files: Files, keep: nat, index: nat)
    requires 1 <= index <= keep < |files|
    ensures var c := Cascade(files, keep, index);
            Cascade(files, keep, index - 1)
            == if c[index - 1].Some? then c[index := c[index - 1]][index - 1 := None] else c
  {
    assert files[index - 1..keep] == [files[index - 1]] + files[index..keep];
    assert files[..index] == files[..index - 1] + [files[index - 1]];
  }

  lemma CascadeBegins(files: Files, keep: nat)
    requires 1 <= keep < |files|
    ensures Cascade(files, keep, keep) == files[keep := None]
  {
  }

  lemma CascadeEnds(files: Files, keep: nat)
    requires 1 <= keep < |files|
    ensures var c := Cascade(files, keep, 1);
            (if c[0].Some? then c[1 := c[0]][0 := None] else c)[0 := Some("")] == Rotated(files, keep)
  {
    CascadeStep(files, keep, 1);
  }

  class AuditLog {
    const limit: nat
    const keep: nat
    var files: Files

    ghost predicate Valid()
      reads this
    {
      keep < |files| && files[0].Some?
    }

    /** Opening for append creates the live file when there is none. */
    constructor (limit: nat, keep: nat, onDisk: Files)
      requires keep < |onDisk|
      ensures Valid() && this.limit == limit && this.keep == keep
      ensures files == onDisk[0 := Some(Content(onDisk[0]))]
    {
      this.limit := limit;
      this.keep := keep;
      files := onDisk[0 := Some(Content(onDisk[0]))];
    }

    /** Renames file `from` to the index above it, if it exists. */
    method Rename(from: nat)
      requires from + 1 < |files|
      modifies this
      ensures files == if old(files)[from].Some?
                       then old(files)[from + 1 := old(files)[from]][from := None] else old(files)
    {
      if files[from].Some? {
        files := files[from + 1 := None];
        files := files[from + 1 := files[from]][from := None];
      }
    }

    /** The cascade in the source's order: drop `.keep`, rename upwards from the top, reopen. */
    method RotateIfNeeded(incoming: nat)
      requires keep < |files|
      modifies this
      ensures files == AfterRotation(old(files), limit, keep, incoming)
    {
      hide Cascade, Rotated;
      if limit == 0 || keep == 0 { return; }
      var currentSize := if files[0].Some? then |files[0].value| else 0;
      if currentSize + incoming <= limit { return; }
      files := files[keep := None];
      CascadeBegins(old(files), keep);
      var index := keep;
      while index > 1
        invariant 1 <= index <= keep < |files| == |old(files)|
        invariant files == Cascade(old(files), keep, index)
      {
        CascadeStep(old(files), keep, index);
        Rename(index - 1);
        index := index - 1;
      }
      CascadeEnds(old(files), keep);
      Rename(0);
      files := files[0 := Some(Content(files[0]))];
    }

    method Audit(line: string)
      requires Valid()
      modifies this
      ensures Valid() && files == Audited(old(files), limit, keep, line)
    {
      RotateIfNeeded(|line|);
      files := files[0 := Some(Content(files[0]) + line)];
    }
  }
}
