/**
 * What the two request parsers accept, said about the pieces of a request and not about their
 * loops: the three words of the first line, the header lines up to the blank line, the rest.
 */
module HttpMeaning {
  import opened Basics
  import opened Text
  import opened HttpParsers

  // ---------------------------------------------------------------- the pieces of a request

  predicate HasNoBreak(s: string) {
    forall k :: 0 <= k < |s| - 1 ==> !(s[k] == '\r' && s[k + 1] == '\n')
  }

  predicate AreLines(lines: seq<string>) {
    forall i :: 0 <= i < |lines| ==> lines[i] != "" && HasNoBreak(lines[i])
  }

  /** Header lines, the empty line after them, and what follows. */
  function Block(lines: seq<string>, rest: string): string {
    if lines == [] then CRLF + rest else lines[0] + CRLF + Block(lines[1..], rest)
  }

  function Raw(first: string, lines: seq<string>, rest: string): string {
    first + CRLF + Block(lines, rest)
  }

  lemma FirstBreakOf(x: string, s: string)
    requires HasNoBreak(x)
    ensures Find(x + CRLF + s, CRLF, 0) == Some(|x|)
  {
    hide Find;
    var t := x + CRLF + s;
    assert t[|x|..|x| + 2] == CRLF;
    forall j | 0 <= j < |x| ensures !At(t, CRLF, j) {
      assert t[j] == x[j] && t[j + 1] == if j + 1 < |x| then x[j + 1] else '\r';
      assert t[j..j + 2][0] == t[j] && t[j..j + 2][1] == t[j + 1];
    }
    FindIs(t, CRLF, 0, |x|);
  }

  lemma FirstBreakFrom(s: string, start: nat, x: string, more: string)
    requires start <= |s| && s[start..] == x + CRLF + more && HasNoBreak(x)
    ensures Find(s, CRLF, start) == Some(start + |x|) && s[start..start + |x|] == x
    ensures start + |x| + 2 <= |s| && s[start + |x| + 2..] == more
  {
    hide Find;
    FirstBreakOf(x, more);
    FindInSuffix(s, CRLF, start);
    var t := s[start..];
    assert t[..|x|] == x && t[|x| + 2..] == more;
  }

  /** Every text with a blank line has such pieces. */
  lemma Pieces(raw: string) returns (first: string, lines: seq<string>, rest: string)
    requires Find(raw, BLANK_LINE, 0).Some?
    ensures raw == Raw(first, lines, rest) && HasNoBreak(first) && AreLines(lines)
  {
    var h := Find(raw, BLANK_LINE, 0).value;
    var more;
    first, more := CutLine(raw, h);
    lines, rest := BlockPieces(more);
  }

  lemma PairIsBreak(t: string, j: nat)
    requires j + 1 < |t|
    ensures At(t, CRLF, j) <==> t[j] == '\r' && t[j + 1] == '\n'
  {
    assert At(t, CRLF, j) ==> t[j..j + 2][0] == '\r' && t[j..j + 2][1] == '\n';
  }

  lemma CutLine(t: string, h: nat) returns (line: string, more: string)
    requires At(t, BLANK_LINE, h)
    ensures t == line + CRLF + more && HasNoBreak(line)
    ensures StartsWith(more, CRLF) || exists k: nat :: At(more, BLANK_LINE, k)
  {
    hide Find;
    BlankLineIsTwoBreaks(t, h);
    var found := Find(t, CRLF, 0);
    var k := found.value;
    line, more := t[..k], t[k + 2..];
    assert t == line + CRLF + more by { assert t[k..k + 2] == CRLF; }
    assert HasNoBreak(line) by {
      forall j | 0 <= j < |line| - 1 ensures !(line[j] == '\r' && line[j + 1] == '\n') {
        assert !At(t, CRLF, j);
        PairIsBreak(t, j);
      }
    }
    if k == h {
      assert t[h + 2..h + 4] == more[..2];
    } else {
      assert t[k..k + 2][1] == t[k + 1] && t[h..h + 2][0] == t[h];
      AtInSuffix(t, BLANK_LINE, k + 2, h - k - 2);
      assert At(more, BLANK_LINE, h - k - 2);
    }
  }

  lemma BlockPieces(t: string) returns (lines: seq<string>, rest: string)
    requires StartsWith(t, CRLF) || exists k: nat :: At(t, BLANK_LINE, k)
    ensures t == Block(lines, rest) && AreLines(lines)
    decreases |t|
  {
    if StartsWith(t, CRLF) {
      lines, rest := [], t[2..];
    } else {
      var h: nat :| At(t, BLANK_LINE, h);
      var line, more := CutLine(t, h);
      assert line != "" by { assert "" + CRLF + more == CRLF + more; }
      var tail;
      tail, rest := BlockPieces(more);
      lines := [line] + tail;
      assert lines[1..] == tail;
    }
  }

  /** The lines of a request are those the loops cut out. */
  lemma {:induction false} LinesOfBlock(s: string, start: nat, lines: seq<string>, rest: string)
    requires start <= |s| && s[start..] == Block(lines, rest) && AreLines(lines)
    ensures HeaderLines(s, start) == lines
    decreases lines
  {
    hide Find;
    if lines == [] {
      assert "" + CRLF + rest == CRLF + rest;
      FirstBreakFrom(s, start, "", rest);
    } else {
      FirstBreakFrom(s, start, lines[0], Block(lines[1..], rest));
      LinesOfBlock(s, start + |lines[0]| + 2, lines[1..], rest);
    }
  }

  // ---------------------------------------------------------------- the first line

  predicate AllSpace(s: string) {
    forall k :: 0 <= k < |s| ==> IsSpace(s[k])
  }

  predicate IsWord(s: string) {
    s != "" && forall k :: 0 <= k < |s| ==> !IsSpace(s[k])
  }

  /** `w`, and white space or the end of the text after it. */
  predicate EndsWord(s: string) {
    s == "" || IsSpace(s[0])
  }

  predicate Spaced(line: string, g0: string, a: string, g1: string, b: string, g2: string, c: string, g3: string) {
    && line == g0 + (a + (g1 + (b + (g2 + (c + g3)))))
    && AllSpace(g0) && AllSpace(g1) && AllSpace(g2) && AllSpace(g3) && g1 != "" && g2 != ""
    && IsWord(a) && IsWord(b) && IsWord(c)
  }

  /** The line is these three words, white space between them, and perhaps around them. */
  ghost predicate ThreeWords(line: string, a: string, b: string, c: string) {
    exists g0, g1, g2, g3 :: Spaced(line, g0, a, g1, b, g2, c, g3)
  }

  lemma {:induction false} WordsAfterSpace(g: string, s: string)
    requires AllSpace(g)
    ensures Words(g + s) == Words(s)
  {
    if g == "" {
      assert g + s == s;
    } else {
      assert (g + s)[1..] == g[1..] + s;
      WordsAfterSpace(g[1..], s);
    }
  }

  lemma {:induction false} WordEnds(w: string, s: string)
    requires (forall k :: 0 <= k < |w| ==> !IsSpace(w[k])) && EndsWord(s)
    ensures WordLength(w + s) == |w|
  {
    if w == "" {
      assert w + s == s;
    } else {
      assert (w + s)[1..] == w[1..] + s;
      WordEnds(w[1..], s);
    }
  }

  lemma WordsWithFirst(w: string, s: string)
    requires IsWord(w) && EndsWord(s)
    ensures Words(w + s) == [w] + Words(s)
  {
    WordEnds(w, s);
    assert (w + s)[..|w|] == w && (w + s)[|w|..] == s;
  }

  lemma {:induction false} WordLengthIs(s: string)
    ensures forall k :: 0 <= k < WordLength(s) ==> !IsSpace(s[k])
    ensures EndsWord(s[WordLength(s)..])
  {
    if s != "" && !IsSpace(s[0]) { WordLengthIs(s[1..]); }
  }

  lemma {:induction false} CutWord(s: string) returns (gap: string, word: string, more: string)
    requires Words(s) != []
    ensures s == gap + (word + more) && AllSpace(gap) && IsWord(word) && EndsWord(more)
    ensures Words(s) == [word] + Words(more)
    decreases |s|
  {
    if IsSpace(s[0]) {
      gap, word, more := CutWord(s[1..]);
      gap := [s[0]] + gap;
    } else {
      var n := WordLength(s);
      WordLengthIs(s);
      gap, word, more := "", s[..n], s[n..];
    }
  }

  lemma {:induction false} NoWordsLeft(s: string)
    requires Words(s) == []
    ensures AllSpace(s)
    decreases |s|
  {
    if s != "" { NoWordsLeft(s[1..]); }
  }

  lemma WordsAreThree(line: string, a: string, b: string, c: string)
    ensures ThreeWords(line, a, b, c) <==> Words(line) == [a, b, c]
  {
    if Words(line) == [a, b, c] {
      hide Words;
      var g0, w0, t0 := CutWord(line);
      var g1, w1, t1 := CutWord(t0);
      var g2, w2, t2 := CutWord(t1);
      assert Words(t2) == [] by { assert Words(line) == [w0] + ([w1] + ([w2] + Words(t2))); }
      NoWordsLeft(t2);
      assert [w0, w1, w2] == [a, b, c];
      assert Spaced(line, g0, a, g1, b, g2, c, t2);
    }
    if ThreeWords(line, a, b, c) { SpacedWords(line, a, b, c); }
  }

  lemma SpacedWords(line: string, a: string, b: string, c: string)
    requires ThreeWords(line, a, b, c)
    ensures Words(line) == [a, b, c]
  {
    var g0, g1, g2, g3 :| Spaced(line, g0, a, g1, b, g2, c, g3);
    assert Words("") == [];
    hide Words;
    WordsAfterSpace(g3, "");
    assert g3 + "" == g3;
    WordsWithFirst(c, g3);
    WordsAfterSpace(g2, c + g3);
    WordsWithFirst(b, g2 + (c + g3));
    WordsAfterSpace(g1, b + (g2 + (c + g3)));
    WordsWithFirst(a, g1 + (b + (g2 + (c + g3))));
    WordsAfterSpace(g0, a + (g1 + (b + (g2 + (c + g3)))));
  }

  // ---------------------------------------------------------------- header lines

  /** The header's name in lower case: what stands before the first colon. */
  function NameOf(line: string): string {
    var colon := Find(line, ":", 0);
    Lowercase(if colon.None? then line else line[..colon.value])
  }

  function ValueOf(line: string): string {
    TrimBlanks(AfterColon(line))
  }

  /** `value` is `text` without the spaces and tabs around it. */
  ghost predicate IsTrimmed(value: string, text: string) {
    exists i, j ::
      && 0 <= i <= j <= |text| && text[i..j] == value
      && (forall k :: 0 <= k < i || j <= k < |text| ==> text[k] == ' ' || text[k] == '\t')
      && (i < j ==> text[i] !in " \t" && text[j - 1] !in " \t")
  }

  /** A tab is the only control character in it. */
  predicate HasNoControls(value: string) {
    forall k :: 0 <= k < |value| ==> value[k] == '\t' || (value[k] as int > 31 && value[k] as int != 127)
  }

  /** Not folded, a colon, a token before it, and for the strict parser no control characters after it. */
  predicate WellFormed(line: string, strict: bool) {
    && line != "" && line[0] != ' ' && line[0] != '\t'
    && Find(line, ":", 0).Some? && IsToken(NameOf(line)) && (strict ==> HasNoControls(ValueOf(line)))
  }

  /** The value of the last line with this name. */
  function LastNamed(lines: seq<string>, name: string): Option<string> {
    var n := |lines|;
    if n == 0 then None
    else if NameOf(lines[n - 1]) == name then Some(ValueOf(lines[n - 1]))
    else LastNamed(lines[..n - 1], name)
  }

  /** Line `i` is the last one with this name. */
  predicate IsLastNamed(lines: seq<string>, i: nat, name: string) {
    && i < |lines| && NameOf(lines[i]) == name
    && forall j :: i < j < |lines| ==> NameOf(lines[j]) != name
  }

  lemma {:induction false} LastNamedIs(lines: seq<string>, name: string)
    ensures LastNamed(lines, name).None? <==> forall i :: 0 <= i < |lines| ==> NameOf(lines[i]) != name
    ensures forall i: nat :: IsLastNamed(lines, i, name) ==> LastNamed(lines, name) == Some(ValueOf(lines[i]))
    ensures LastNamed(lines, name).Some? ==> exists i: nat :: IsLastNamed(lines, i, name)
  {
    hide NameOf, ValueOf;
    var n := |lines|;
    if n > 0 && NameOf(lines[n - 1]) == name {
      assert IsLastNamed(lines, n - 1, name);
    } else if n > 0 {
      LastNamedIs(lines[..n - 1], name);
      OtherLast(lines, name);
    }
  }

  lemma OtherLast(lines: seq<string>, name: string)
    requires lines != [] && NameOf(lines[|lines| - 1]) != name
    ensures var before := lines[..|lines| - 1];
            && (forall i: nat :: IsLastNamed(lines, i, name)
                                 <==> IsLastNamed(before, i, name))
            && (forall i: nat :: IsLastNamed(before, i, name) ==> before[i] == lines[i])
  {
    hide NameOf;
    var before := lines[..|lines| - 1];
    assert forall i :: 0 <= i < |before| ==> lines[i] == before[i];
  }

  lemma NextNamed(done: seq<string>, line: string, name: string)
    ensures LastNamed(done + [line], name)
            == if NameOf(line) == name then Some(ValueOf(line)) else LastNamed(done, name)
  {
    hide NameOf, ValueOf;
    assert (done + [line])[..|done|] == done;
  }

  lemma TrimmedIs(text: string)
    ensures IsTrimmed(TrimBlanks(text), text)
  {
    var t := TrimLeft(text, IsBlank);
    var r := TrimRight(t, IsBlank);
    var i := |text| - |t|;
    TrimLeftDrops(text, IsBlank);
    TrimLeftEnd(text, IsBlank);
    TrimRightEnd(t, IsBlank);
    TrimRightDrops(t, IsBlank);
    hide TrimLeft, TrimRight;
    assert t == text[i..] && r == t[..|r|] == text[i..i + |r|];
    forall k | i + |r| <= k < |text| ensures text[k] == ' ' || text[k] == '\t' {
      assert text[k] == t[k - i];
    }
  }

  lemma {:induction false} TrimRightDrops(s: string, drop: char -> bool)
    ensures forall k :: |TrimRight(s, drop)| <= k < |s| ==> drop(s[k])
  {
    if s != "" && drop(s[|s| - 1]) { TrimRightDrops(s[..|s| - 1], drop); }
  }

  /** The characters of a token, section 5.6.2 of RFC 9110. */
  lemma TokenCharacters(c: char)
    ensures IsTokenChar(c) <==> (c in "!#$%&'*+-.^_`|~" || '0' <= c <= '9' || 'A' <= c <= 'Z' || 'a' <= c <= 'z')
  {
  }

  /** Each capital letter becomes its small one; nothing else changes. */
  lemma SmallLetters(s: string, k: nat)
    requires k < |s|
    ensures 'A' <= s[k] <= 'Z' ==> 'a' <= Lowercase(s)[k] <= 'z' && Lowercase(s)[k] - s[k] == 'a' - 'A'
    ensures !('A' <= s[k] <= 'Z') ==> Lowercase(s)[k] == s[k]
  {
  }

  // ---------------------------------------------------------------- acceptable header lines

  predicate Fits(line: string, number: nat, limits: Limits) {
    |line| <= limits.maxHeaderLineBytes && number <= limits.maxHeaders
  }

  /** No line so far is a host line. */
  predicate NoHost(lines: seq<string>) {
    forall i :: 0 <= i < |lines| ==> NameOf(lines[i]) != "host"
  }

  /** No earlier content length is another one; an empty value counts as none. */
  predicate SameLength(lines: seq<string>, line: string) {
    forall i :: 0 <= i < |lines| && NameOf(lines[i]) == "content-length" ==> ValueOf(lines[i]) in ["", ValueOf(line)]
  }

  /** Line `i` is acceptable after the lines before it. */
  predicate LineIsGood(lines: seq<string>, i: nat, limits: Limits, strict: bool)
    requires i < |lines|
  {
    && Fits(lines[i], i + 1, limits)
    && WellFormed(lines[i], strict)
    && NameOf(lines[i]) != "transfer-encoding"
    && (NameOf(lines[i]) == "host" ==> NoHost(lines[..i]))
    && (NameOf(lines[i]) == "content-length" ==> SameLength(lines[..i], lines[i]))
  }

  predicate GoodLines(lines: seq<string>, limits: Limits, strict: bool) {
    forall i :: 0 <= i < |lines| ==> LineIsGood(lines, i, limits, strict)
  }

  /** The state of the header loop after these lines. */
  ghost predicate Tracks(f: Fields, done: seq<string>) {
    && f.count == |done|
    && (f.sawHost <==> LastNamed(done, "host").Some?)
    && f.contentLength == LengthText(done)
    && (forall k :: k in f.headers <==> LastNamed(done, k).Some?)
    && (forall k :: k in f.headers ==> Some(f.headers[k]) == LastNamed(done, k))
  }

  /** The declared length as text; "" when there is none. */
  function LengthText(lines: seq<string>): string {
    var r := LastNamed(lines, "content-length");
    if r.None? then "" else r.value
  }

  function LineResult(line: string, f: Fields, strict: bool): Scan {
    var counted := f.(count := f.count + 1);
    if strict then StrictLine(line, counted) else PlainLine(line, counted)
  }

  lemma ControlsAre(value: string)
    ensures HasNoControls(value) <==> NoControls(value)
  {
  }

  /** Until the rules about names come in, a line is refused if and only if it is not well formed. */
  lemma LineForm(line: string, f: Fields, strict: bool)
    requires line != ""
    ensures LineResult(line, f, strict)
            == if WellFormed(line, strict) then Store(f.(count := f.count + 1), NameOf(line), ValueOf(line))
                else Bad(400)
  {
    ControlsAre(ValueOf(line));
    hide Find, IsToken, Lowercase, TrimBlanks, NoControls, HasNoControls, Store;
    var colon := Find(line, ":", 0);
    if colon.Some? { LowercaseToken(line[..colon.value]); }
  }

  /** Of good lines, every content length that is not empty is the last one. */
  lemma LengthsSame(done: seq<string>, limits: Limits, strict: bool)
    requires GoodLines(done, limits, strict)
    ensures forall i :: 0 <= i < |done| && NameOf(done[i]) == "content-length" ==>
                          ValueOf(done[i]) in ["", LengthText(done)]
    ensures LengthText(done) != "" ==>
              exists i :: 0 <= i < |done| && NameOf(done[i]) == "content-length" && ValueOf(done[i]) == LengthText(done)
  {
    hide NameOf, ValueOf, WellFormed, Fits, NoHost, LastNamed;
    LastNamedIs(done, "content-length");
    if LastNamed(done, "content-length").Some? {
      var last: nat :| IsLastNamed(done, last, "content-length");
      assert LineIsGood(done, last, limits, strict);
      forall i | 0 <= i < |done| && NameOf(done[i]) == "content-length"
        ensures ValueOf(done[i]) in ["", LengthText(done)]
      {
        if i < last { assert done[..last][i] == done[i]; }
      }
    }
  }

  lemma PreviousLengths(done: seq<string>, line: string, limits: Limits, strict: bool)
    requires GoodLines(done, limits, strict)
    ensures SameLength(done, line) <==> LengthText(done) in ["", ValueOf(line)]
  {
    hide NameOf, ValueOf, GoodLines, LengthText;
    LengthsSame(done, limits, strict);
  }

  lemma HostSeen(done: seq<string>)
    ensures NoHost(done) <==> LastNamed(done, "host").None?
  {
    hide NameOf, ValueOf, LastNamed;
    LastNamedIs(done, "host");
  }

  /** One more line, after good ones. */
  lemma LineStep(line: string, f: Fields, done: seq<string>, limits: Limits, strict: bool)
    requires line != "" && GoodLines(done, limits, strict) && Tracks(f, done)
    ensures var r := LineResult(line, f, strict);
            && (!WellFormed(line, strict) ==> r == Bad(400))
            && (WellFormed(line, strict) && NameOf(line) == "transfer-encoding" ==> r == Bad(501))
            && (WellFormed(line, strict) && NameOf(line) == "host" && !NoHost(done) ==> r == Bad(400))
            && (WellFormed(line, strict) && NameOf(line) == "content-length" && !SameLength(done, line)
                ==> r == Bad(400))
            && (WellFormed(line, strict) && NameOf(line) != "transfer-encoding"
                && (NameOf(line) == "host" ==> NoHost(done))
                && (NameOf(line) == "content-length" ==> SameLength(done, line))
                ==> r.Good? && Tracks(r.fields, done + [line]))
  {
    hide NameOf, ValueOf, WellFormed, GoodLines, NoHost, SameLength, LastNamed, StrictLine, PlainLine;
    LineForm(line, f, strict);
    PreviousLengths(done, line, limits, strict);
    HostSeen(done);
    forall k ensures LastNamed(done + [line], k)
                     == if NameOf(line) == k then Some(ValueOf(line)) else LastNamed(done, k)
    {
      NextNamed(done, line, k);
    }
  }

  // ---------------------------------------------------------------- the header loop on the pieces

  lemma {:induction false} BlockLength(lines: seq<string>, rest: string)
    ensures |Block(lines, rest)| >= |rest| + 2
  {
    if lines != [] { BlockLength(lines[1..], rest); }
  }

  /** One round of the header loop. */
  lemma ScanLine(s: string, headerEnd: nat, start: nat, lines: seq<string>, rest: string, f: Fields, limits: Limits,
                 strict: bool)
    requires start <= |s| == headerEnd + 4 + |rest| && s[start..] == Block(lines, rest)
    requires lines != [] && AreLines(lines)
    ensures var line, next := lines[0], start + |lines[0]| + 2;
            && next <= |s| && s[next..] == Block(lines[1..], rest)
            && ScanFields(s, headerEnd, start, f, limits, strict)
               == if !Fits(line, f.count + 1, limits) then Bad(431)
                  else var r := LineResult(line, f, strict);
                       if r.Bad? then r else ScanFields(s, headerEnd, next, r.fields, limits, strict)
  {
    hide Find, StrictLine, PlainLine;
    FirstBreakFrom(s, start, lines[0], Block(lines[1..], rest));
    BlockLength(lines[1..], rest);
  }

  lemma ScanEnd(s: string, headerEnd: nat, start: nat, rest: string, f: Fields, limits: Limits, strict: bool)
    requires start <= |s| && s[start..] == Block([], rest)
    ensures ScanFields(s, headerEnd, start, f, limits, strict) == Good(f)
  {
    hide Find;
    assert "" + CRLF + rest == CRLF + rest;
    FirstBreakFrom(s, start, "", rest);
  }

  lemma GoodPrefix(lines: seq<string>, more: seq<string>, limits: Limits, strict: bool)
    requires GoodLines(lines + more, limits, strict)
    ensures GoodLines(lines, limits, strict)
  {
    hide Fits, WellFormed, NameOf, NoHost, SameLength;
    var all := lines + more;
    forall i | 0 <= i < |lines| ensures LineIsGood(lines, i, limits, strict) {
      assert LineIsGood(all, i, limits, strict);
      assert all[i] == lines[i] && all[..i] == lines[..i];
    }
  }

  /** Line `line` after the good lines `done`: the rules in the order of the source. */
  lemma GoodNext(done: seq<string>, line: string, limits: Limits, strict: bool)
    requires GoodLines(done, limits, strict)
    ensures GoodLines(done + [line], limits, strict)
            <==> (&& Fits(line, |done| + 1, limits) && WellFormed(line, strict) && NameOf(line) != "transfer-encoding"
                  && (NameOf(line) == "host" ==> NoHost(done))
                  && (NameOf(line) == "content-length" ==> SameLength(done, line)))
  {
    hide Fits, WellFormed, NameOf, NoHost, SameLength;
    var all := done + [line];
    assert all[..|done|] == done && all[|done|] == line;
    forall i | 0 <= i < |done| ensures LineIsGood(all, i, limits, strict) {
      assert LineIsGood(done, i, limits, strict);
      assert all[i] == done[i] && all[..i] == done[..i];
    }
    if GoodLines(all, limits, strict) { assert LineIsGood(all, |done|, limits, strict); }
  }

  /** The loop gets past good lines, and then its state tracks them. */
  lemma {:induction false} ScanPasses(
    s: string, headerEnd: nat, start: nat, done: seq<string>, good: seq<string>, more: seq<string>, rest: string,
    f: Fields, limits: Limits, strict: bool) returns (next: nat, after: Fields)
    requires start <= |s| == headerEnd + 4 + |rest| && s[start..] == Block(good + more, rest)
    requires AreLines(good + more) && Tracks(f, done) && GoodLines(done + good, limits, strict)
    ensures next <= |s| && s[next..] == Block(more, rest) && Tracks(after, done + good)
    ensures ScanFields(s, headerEnd, start, f, limits, strict) == ScanFields(s, headerEnd, next, after, limits, strict)
    decreases |good|
  {
    hide GoodLines, Tracks, Fits, WellFormed, NoHost, SameLength, NameOf, ScanFields, LineResult, Block;
    if good == [] {
      assert good + more == more && done + good == done;
      next, after := start, f;
    } else {
      var line, lines := good[0], good + more;
      assert lines[1..] == good[1..] + more;
      assert done + good == done + [line] + good[1..];
      GoodPrefix(done + [line], good[1..], limits, strict);
      GoodPrefix(done, [line], limits, strict);
      GoodNext(done, line, limits, strict);
      assert f.count == |done| by { CountOf(f, done); }
      ScanLine(s, headerEnd, start, lines, rest, f, limits, strict);
      LineStep(line, f, done, limits, strict);
      next, after := ScanPasses(s, headerEnd, start + |line| + 2, done + [line], good[1..], more, rest,
                                LineResult(line, f, strict).fields, limits, strict);
    }
  }

  lemma CountOf(f: Fields, done: seq<string>)
    requires Tracks(f, done)
    ensures f.count == |done|
  {
  }

  lemma StartTracks()
    ensures Tracks(NO_FIELDS, [])
  {
  }

  /** The first line that is not good ends the loop, with the status of the rule it breaks. */
  lemma ScanStops(
    s: string, headerEnd: nat, start: nat, good: seq<string>, line: string, more: seq<string>, rest: string,
    limits: Limits, strict: bool)
    requires start <= |s| == headerEnd + 4 + |rest| && s[start..] == Block(good + [line] + more, rest)
    requires AreLines(good + [line] + more) && GoodLines(good, limits, strict)
    ensures var r := ScanFields(s, headerEnd, start, NO_FIELDS, limits, strict);
            && (!Fits(line, |good| + 1, limits) ==> r == Bad(431))
            && (Fits(line, |good| + 1, limits) ==>
                  && (!WellFormed(line, strict) ==> r == Bad(400))
                  && (WellFormed(line, strict) && NameOf(line) == "transfer-encoding" ==> r == Bad(501))
                  && (WellFormed(line, strict) && NameOf(line) == "host" && !NoHost(good) ==> r == Bad(400))
                  && (WellFormed(line, strict) && NameOf(line) == "content-length" && !SameLength(good, line)
                      ==> r == Bad(400)))
  {
    hide GoodLines, Tracks, Fits, WellFormed, NoHost, SameLength, NameOf, ScanFields, LineResult, Block;
    StartTracks();
    assert good + [line] + more == good + ([line] + more) && [] + good == good;
    var next, f := ScanPasses(s, headerEnd, start, [], good, [line] + more, rest, NO_FIELDS, limits, strict);
    var lines := [line] + more;
    assert AreLines(lines) by {
      forall i | 0 <= i < |lines| ensures lines[i] != "" && HasNoBreak(lines[i]) {
        assert lines[i] == (good + lines)[|good| + i];
      }
    }
    CountOf(f, good);
    ScanLine(s, headerEnd, next, lines, rest, f, limits, strict);
    LineStep(line, f, good, limits, strict);
  }

  lemma ScanSucceeds(s: string, headerEnd: nat, start: nat, lines: seq<string>, rest: string, limits: Limits,
                     strict: bool)
    requires start <= |s| == headerEnd + 4 + |rest| && s[start..] == Block(lines, rest)
    requires AreLines(lines) && GoodLines(lines, limits, strict)
    ensures var r := ScanFields(s, headerEnd, start, NO_FIELDS, limits, strict);
            r.Good? && Tracks(r.fields, lines)
  {
    hide GoodLines, Tracks, ScanFields, Block;
    StartTracks();
    assert lines + [] == lines && [] + lines == lines;
    var next, f := ScanPasses(s, headerEnd, start, [], lines, [], rest, NO_FIELDS, limits, strict);
    ScanEnd(s, headerEnd, next, rest, f, limits, strict);
  }

  /** Lines that are not all good have a first one that is not. */
  lemma {:induction false} FirstBad(lines: seq<string>, limits: Limits, strict: bool) returns (i: nat)
    requires !GoodLines(lines, limits, strict)
    ensures i < |lines| && GoodLines(lines[..i], limits, strict) && !GoodLines(lines[..i + 1], limits, strict)
  {
    var n := |lines| - 1;
    if GoodLines(lines[..n], limits, strict) {
      i := n;
      assert lines[..n + 1] == lines;
    } else {
      i := FirstBad(lines[..n], limits, strict);
      assert lines[..n][..i] == lines[..i] && lines[..n][..i + 1] == lines[..i + 1];
    }
  }

  // ---------------------------------------------------------------- the head of a request

  lemma BlankNotBefore(x: string, s: string, j: nat)
    requires HasNoBreak(x) && !StartsWith(s, CRLF) && j < |x| + 2
    ensures !At(x + CRLF + s, BLANK_LINE, j)
  {
    hide Find;
    var t := x + CRLF + s;
    FirstBreakOf(x, s);
    assert t[|x| + 1] == '\n' && t[|x| + 2..] == s;
    AtInSuffix(t, CRLF, |x| + 2, 0);
    if j + 1 < |t| { PairIsBreak(t, j); }
    if At(t, BLANK_LINE, j) { BlankLineIsTwoBreaks(t, j); }
  }

  lemma BlockIsNoBreak(lines: seq<string>, rest: string)
    requires lines != [] && AreLines(lines)
    ensures !StartsWith(Block(lines, rest), CRLF)
  {
    var x, t := lines[0], Block(lines, rest);
    assert t[0] == x[0] && t[1] == if |x| > 1 then x[1] else '\r';
    assert t[..2][0] == t[0] && t[..2][1] == t[1];
  }

  lemma {:induction false} BlankLineIs(x: string, lines: seq<string>, rest: string)
    requires HasNoBreak(x) && AreLines(lines)
    ensures Find(Raw(x, lines, rest), BLANK_LINE, 0) == Some(|Raw(x, lines, rest)| - |rest| - 4)
    decreases lines
  {
    hide Find;
    var t := Raw(x, lines, rest);
    if lines == [] {
      FirstBreakOf(x, CRLF + rest);
      assert t == x + BLANK_LINE + rest;
      BlankAtFirstBreak(x, rest);
    } else {
      var s, n := Block(lines, rest), |x| + 2;
      BlockIsNoBreak(lines, rest);
      forall j: nat | j < n ensures !At(t, BLANK_LINE, j) {
        BlankNotBefore(x, s, j);
      }
      SearchFrom(t, BLANK_LINE, n);
      FindInSuffix(t, BLANK_LINE, n);
      assert t[n..] == s == Raw(lines[0], lines[1..], rest);
      BlankLineIs(lines[0], lines[1..], rest);
    }
  }

  /** The request line as the limits want it. */
  predicate GoodWords(a: string, b: string, c: string, limits: Limits) {
    && |a| <= limits.maxMethodBytes && IsToken(a) && |b| <= limits.maxUriBytes
    && c in ["HTTP/1.1", "HTTP/1.0"]
  }

  /** Both parsers find the end of the first line and the blank line and run the loop between them. */
  lemma HeadOfPieces(first: string, lines: seq<string>, rest: string, limits: Limits, strict: bool)
    requires HasNoBreak(first) && AreLines(lines)
    ensures var s := Raw(first, lines, rest);
            var line, end := ParseRequestLine(first, limits), |s| - |rest| - 4;
            && end >= |first| && s[|first| + 2..] == Block(lines, rest)
            && ParseHead(s, limits, strict) ==
               if |first| > limits.maxHeaderLineBytes then BadHead(431)
               else if line.BadLine? then BadHead(line.status)
               else var scan := ScanFields(s, end, |first| + 2, NO_FIELDS, limits, strict);
                    if scan.Bad? then BadHead(scan.status)
                    else if line.version == "HTTP/1.1" && !scan.fields.sawHost then BadHead(400)
                    else GoodHead(Request(line.verb, line.target, line.version, scan.fields.headers, false, 0, ""),
                                  scan.fields, |s| - |rest|)
  {
    hide Find, ScanFields, ParseRequestLine, Block;
    BlankLineIs(first, lines, rest);
    FirstBreakOf(first, Block(lines, rest));
    BlockLength(lines, rest);
    assert Raw(first, lines, rest)[..|first|] == first;
  }

  /** The map has exactly the names of the lines as keys, each with the value of its last line. */
  ghost predicate HeadersOf(headers: map<string, string>, lines: seq<string>) {
    && (forall k :: k in headers <==> exists i :: 0 <= i < |lines| && NameOf(lines[i]) == k)
    && (forall k, i: nat :: IsLastNamed(lines, i, k) ==> k in headers && headers[k] == ValueOf(lines[i]))
  }

  lemma TrackedHeaders(f: Fields, lines: seq<string>)
    requires Tracks(f, lines)
    ensures HeadersOf(f.headers, lines) && f.contentLength == LengthText(lines) && (f.sawHost <==> !NoHost(lines))
  {
    hide NameOf, ValueOf, LastNamed, NoHost;
    HostSeen(lines);
    forall k ensures k in f.headers <==> exists i :: 0 <= i < |lines| && NameOf(lines[i]) == k {
      LastNamedIs(lines, k);
    }
    forall k, i: nat | IsLastNamed(lines, i, k) ensures k in f.headers && f.headers[k] == ValueOf(lines[i]) {
      LastNamedIs(lines, k);
    }
  }

  /** The head is good if and only if its words, its lines and its host are. */
  lemma HeadIsGoodIff(first: string, a: string, b: string, c: string, lines: seq<string>, rest: string, limits: Limits,
                      strict: bool)
    requires HasNoBreak(first) && AreLines(lines) && ThreeWords(first, a, b, c)
    ensures var s := Raw(first, lines, rest); var head := ParseHead(s, limits, strict);
            && (head.GoodHead? <==>
                  && |first| <= limits.maxHeaderLineBytes && GoodWords(a, b, c, limits)
                  && GoodLines(lines, limits, strict) && (c == "HTTP/1.1" ==> !NoHost(lines)))
            && (head.GoodHead? ==>
                  && head.request == Request(a, b, c, head.fields.headers, false, 0, "")
                  && HeadersOf(head.fields.headers, lines) && head.fields.contentLength == LengthText(lines)
                  && head.bodyOffset == |s| - |rest|)
  {
    hide ScanFields, GoodLines, Block, ThreeWords, HeadersOf, Tracks, ParseHead, NoHost, IsToken;
    WordsAreThree(first, a, b, c);
    HeadOfPieces(first, lines, rest, limits, strict);
    var s := Raw(first, lines, rest);
    if GoodLines(lines, limits, strict) {
      ScanSucceeds(s, |s| - |rest| - 4, |first| + 2, lines, rest, limits, strict);
      TrackedHeaders(ScanFields(s, |s| - |rest| - 4, |first| + 2, NO_FIELDS, limits, strict).fields, lines);
    } else {
      var i := FirstBad(lines, limits, strict);
      assert lines == lines[..i] + [lines[i]] + lines[i + 1..] && lines[..i + 1] == lines[..i] + [lines[i]];
      GoodNext(lines[..i], lines[i], limits, strict);
      ScanStops(s, |s| - |rest| - 4, |first| + 2, lines[..i], lines[i], lines[i + 1..], rest, limits, strict);
    }
  }

  // ---------------------------------------------------------------- main results

  function Parsed(s: string, limits: Limits, strict: bool): ParseResult {
    if strict then ParseStrict(s, limits) else ParsePlain(s, limits)
  }

  /** The declared length is a number of 64 bits within the limit, and for the strict parser the body is there. */
  predicate GoodLength(text: string, size: nat, rest: string, limits: Limits, strict: bool)
    requires |rest| <= size
  {
    && Digits(text) && Number(text) < 0x1_0000_0000_0000_0000 && Number(text) <= limits.maxBodyBytes
    && (strict ==> size >= (size - |rest| + Number(text)) % 0x1_0000_0000_0000_0000)
  }

  /**
   * Acceptance, for both parsers: exactly when the first line, every header line, the host
   * rule and the declared length are as required; and what the accepted request then holds.
   */
  lemma AcceptedIff(first: string, a: string, b: string, c: string, lines: seq<string>, rest: string, limits: Limits,
                    strict: bool)
    requires HasNoBreak(first) && AreLines(lines) && ThreeWords(first, a, b, c)
    ensures var s := Raw(first, lines, rest); var text := LengthText(lines); var r := Parsed(s, limits, strict);
            && |rest| <= |s|
            && (r.Accepted? <==>
                  && |first| <= limits.maxHeaderLineBytes && GoodWords(a, b, c, limits)
                  && GoodLines(lines, limits, strict) && (c == "HTTP/1.1" ==> !NoHost(lines))
                  && (text != "" ==> GoodLength(text, |s|, rest, limits, strict)))
            && (r.Accepted? ==>
                  && r.request.verb == a && r.request.target == b && r.request.version == c
                  && HeadersOf(r.request.headers, lines)
                  && (r.request.hasContentLength <==> text != "")
                  && (text == "" ==> r.request.contentLength == 0 && r.request.body == "")
                  && (text != "" ==> r.request.contentLength == Number(text))
                  && (text != "" ==> r.request.body == if strict then rest[..Min(|rest|, Number(text))] else ""))
  {
    hide GoodLines, ThreeWords, HeadersOf, ParseHead, NoHost, GoodWords, Number, Digits, LengthText;
    HeadIsGoodIff(first, a, b, c, lines, rest, limits, strict);
    var s := Raw(first, lines, rest);
    BlockLength(lines, rest);
    assert s[|s| - |rest|..] == rest by { BlockEnds(first, lines, rest); }
  }

  lemma {:induction false} BlockEnds(first: string, lines: seq<string>, rest: string)
    ensures |rest| <= |Raw(first, lines, rest)|
    ensures Raw(first, lines, rest)[|Raw(first, lines, rest)| - |rest|..] == rest
    decreases lines
  {
    var s := Raw(first, lines, rest);
    if lines == [] {
      assert s == first + CRLF + CRLF + rest;
    } else {
      BlockEnds(lines[0], lines[1..], rest);
      assert Block(lines, rest) == Raw(lines[0], lines[1..], rest);
    }
  }

  /** Refusals because of the first line, in the order of the tests. */
  lemma RefusedFirstLine(first: string, lines: seq<string>, rest: string, limits: Limits, strict: bool)
    requires HasNoBreak(first) && AreLines(lines)
    ensures var r := Parsed(Raw(first, lines, rest), limits, strict);
            && (|first| > limits.maxHeaderLineBytes ==> r == Rejected(431))
            && (|first| <= limits.maxHeaderLineBytes ==>
                  && ((forall a, b, c :: !ThreeWords(first, a, b, c)) ==> r == Rejected(400))
                  && (forall a, b, c :: ThreeWords(first, a, b, c) && !GoodWords(a, b, c, limits) ==>
                        r == Rejected(if |a| > limits.maxMethodBytes then 405
                                      else if !IsToken(a) then 400
                                      else if |b| > limits.maxUriBytes then 414
                                      else 505)))
  {
    hide ThreeWords, ParseHead, Block, ScanFields;
    HeadOfPieces(first, lines, rest, limits, strict);
    forall a, b, c ensures ThreeWords(first, a, b, c) <==> Words(first) == [a, b, c] {
      WordsAreThree(first, a, b, c);
    }
    var ws := Words(first);
    if |ws| == 3 { assert ws == [ws[0], ws[1], ws[2]]; }
  }

  /** Refusals because of a header line: the first one that is not good decides. */
  lemma RefusedHeaderLine(
    first: string, a: string, b: string, c: string, good: seq<string>, line: string, more: seq<string>, rest: string,
    limits: Limits, strict: bool)
    requires HasNoBreak(first) && AreLines(good + [line] + more) && ThreeWords(first, a, b, c)
    requires |first| <= limits.maxHeaderLineBytes && GoodWords(a, b, c, limits) && GoodLines(good, limits, strict)
    ensures var r := Parsed(Raw(first, good + [line] + more, rest), limits, strict);
            && (|line| > limits.maxHeaderLineBytes || |good| + 1 > limits.maxHeaders ==> r == Rejected(431))
            && (|line| <= limits.maxHeaderLineBytes && |good| + 1 <= limits.maxHeaders ==>
                  && (!WellFormed(line, strict) ==> r == Rejected(400))
                  && (WellFormed(line, strict) && NameOf(line) == "transfer-encoding" ==> r == Rejected(501))
                  && (WellFormed(line, strict) && NameOf(line) == "host" && !NoHost(good) ==> r == Rejected(400))
                  && (WellFormed(line, strict) && NameOf(line) == "content-length" && !SameLength(good, line)
                      ==> r == Rejected(400)))
  {
    hide ThreeWords, ParseHead, Block, ScanFields, GoodLines, WellFormed, NameOf, NoHost, SameLength, Words, IsToken;
    var lines := good + [line] + more;
    HeadOfPieces(first, lines, rest, limits, strict);
    WordsAreThree(first, a, b, c);
    var s := Raw(first, lines, rest);
    ScanStops(s, |s| - |rest| - 4, |first| + 2, good, line, more, rest, limits, strict);
  }

  /** Refusals after good lines: no host in HTTP/1.1, or the declared length. */
  lemma RefusedAtEnd(first: string, a: string, b: string, c: string, lines: seq<string>, rest: string, limits: Limits,
                     strict: bool)
    requires HasNoBreak(first) && AreLines(lines) && ThreeWords(first, a, b, c)
    requires |first| <= limits.maxHeaderLineBytes && GoodWords(a, b, c, limits) && GoodLines(lines, limits, strict)
    ensures var s := Raw(first, lines, rest); var text := LengthText(lines); var r := Parsed(s, limits, strict);
            && (c == "HTTP/1.1" && NoHost(lines) ==> r == Rejected(400))
            && (!(c == "HTTP/1.1" && NoHost(lines)) && text != "" ==>
                  if !Digits(text) || Number(text) >= 0x1_0000_0000_0000_0000 then r == Rejected(400)
                  else if Number(text) > limits.maxBodyBytes then r == Rejected(413)
                  else strict && |s| < (|s| - |rest| + Number(text)) % 0x1_0000_0000_0000_0000 ==> r == Rejected(400))
  {
    hide ThreeWords, Block, ScanFields, GoodLines, NoHost, Words, IsToken, LengthText, HeadersOf, Number, Digits;
    HeadOfPieces(first, lines, rest, limits, strict);
    HeadIsGoodIff(first, a, b, c, lines, rest, limits, strict);
    WordsAreThree(first, a, b, c);
    var s := Raw(first, lines, rest);
    ScanSucceeds(s, |s| - |rest| - 4, |first| + 2, lines, rest, limits, strict);
  }

  /** Without a blank line there is no request. */
  lemma RefusedWithoutBlankLine(s: string, limits: Limits, strict: bool)
    requires forall k: nat :: !At(s, BLANK_LINE, k)
    ensures Parsed(s, limits, strict) == Rejected(400)
  {
    hide Find;
    FindNothing(s, BLANK_LINE, 0);
  }

  /** Every accepted request, taken apart. */
  lemma AcceptedRequest(s: string, limits: Limits, strict: bool)
    returns (first: string, lines: seq<string>, rest: string)
    requires Parsed(s, limits, strict).Accepted?
    ensures s == Raw(first, lines, rest) && HasNoBreak(first) && AreLines(lines)
    ensures lines == HeaderLines(s, |first| + 2) && |lines| <= limits.maxHeaders
    ensures var q := Parsed(s, limits, strict).request;
            && ThreeWords(first, q.verb, q.target, q.version)
            && (q.version == "HTTP/1.1" || q.version == "HTTP/1.0")
            && (q.version == "HTTP/1.1" ==> exists i :: 0 <= i < |lines| && NameOf(lines[i]) == "host")
            && HeadersOf(q.headers, lines)
    ensures forall i :: 0 <= i < |lines| ==> WellFormed(lines[i], strict) && NameOf(lines[i]) != "transfer-encoding"
    ensures forall i, j :: 0 <= i < j < |lines| ==> !(NameOf(lines[i]) == "host" && NameOf(lines[j]) == "host")
    ensures forall i, j :: 0 <= i < j < |lines| && NameOf(lines[i]) == NameOf(lines[j]) == "content-length" ==>
                             ValueOf(lines[i]) in ["", ValueOf(lines[j])]
  {
    hide ThreeWords, Block, HeadersOf, NameOf, ValueOf, WellFormed, Fits, GoodLines;
    BlankFound(s, limits, strict);
    first, lines, rest := Pieces(s);
    LinesOfBlock(s, |first| + 2, lines, rest);
    FirstWords(first, lines, rest, limits, strict);
    var ws := Words(first);
    WordsAreThree(first, ws[0], ws[1], ws[2]);
    AcceptedIff(first, ws[0], ws[1], ws[2], lines, rest, limits, strict);
    GoodLinesMean(lines, limits, strict);
  }

  lemma BlankFound(s: string, limits: Limits, strict: bool)
    requires Parsed(s, limits, strict).Accepted?
    ensures Find(s, BLANK_LINE, 0).Some?
  {
    hide Find, ScanFields, ParseRequestLine;
  }

  lemma FirstWords(first: string, lines: seq<string>, rest: string, limits: Limits, strict: bool)
    requires HasNoBreak(first) && AreLines(lines) && Parsed(Raw(first, lines, rest), limits, strict).Accepted?
    ensures |Words(first)| == 3 && Words(first) == [Words(first)[0], Words(first)[1], Words(first)[2]]
  {
    hide Block, ScanFields, ParseHead, Words;
    HeadOfPieces(first, lines, rest, limits, strict);
  }

  lemma GoodLinesMean(lines: seq<string>, limits: Limits, strict: bool)
    requires GoodLines(lines, limits, strict)
    ensures |lines| <= limits.maxHeaders
    ensures forall i :: 0 <= i < |lines| ==> WellFormed(lines[i], strict) && NameOf(lines[i]) != "transfer-encoding"
    ensures forall i, j :: 0 <= i < j < |lines| ==> !(NameOf(lines[i]) == "host" && NameOf(lines[j]) == "host")
    ensures forall i, j :: 0 <= i < j < |lines| && NameOf(lines[i]) == NameOf(lines[j]) == "content-length" ==>
                             ValueOf(lines[i]) in ["", ValueOf(lines[j])]
  {
    hide NameOf, ValueOf, WellFormed;
    if |lines| > 0 { assert LineIsGood(lines, |lines| - 1, limits, strict); }
    forall j | 0 <= j < |lines|
      ensures WellFormed(lines[j], strict) && NameOf(lines[j]) != "transfer-encoding"
      ensures forall i :: 0 <= i < j ==> !(NameOf(lines[i]) == "host" && NameOf(lines[j]) == "host")
      ensures forall i :: 0 <= i < j && NameOf(lines[i]) == "content-length" && NameOf(lines[j]) == "content-length"
                          ==> ValueOf(lines[i]) in ["", ValueOf(lines[j])]
    {
      assert LineIsGood(lines, j, limits, strict);
      assert forall i :: 0 <= i < j ==> lines[..j][i] == lines[i];
    }
  }
}
