/**
 * Which requests get through: the way of a request from the connection to the strict parser
 * (src/Server.cpp:140-296), against what the strict parser makes of the bytes sent.
 */
module HttpServed {
  import opened Basics
  import opened Text
  import opened HttpParsers
  import opened HttpMeaning
  import HttpFraming

  /** A content length line without a value. */
  predicate SomeEmptyLength(lines: seq<string>) {
    exists i :: 0 <= i < |lines| && NameOf(lines[i]) == "content-length" && ValueOf(lines[i]) == ""
  }

  // ---------------------------------------------------------------- the length-only loop on the lines

  /** The lines are as the header loops leave them: a colon each, and one length at most. */
  predicate OneLength(lines: seq<string>, text: string) {
    forall i :: 0 <= i < |lines| ==>
      Find(lines[i], ":", 0).Some? && (NameOf(lines[i]) == "content-length" ==> ValueOf(lines[i]) in ["", text])
  }

  /** `text` is empty or denotes `n`, a number of 64 bits. */
  predicate Denotes(text: string, n: nat) {
    text == "" || (Digits(text) && Number(text) == n && n < 0x1_0000_0000_0000_0000)
  }

  /** What is found in the lines when `length` was found before them. */
  function LengthFound(lines: seq<string>, n: nat, length: Option<nat>): Option<nat> {
    if lines == [] then length
    else if NameOf(lines[0]) != "content-length" then LengthFound(lines[1..], n, length)
    else if ValueOf(lines[0]) == "" then None
    else LengthFound(lines[1..], n, Some(n))
  }

  /** One round of the loop of `parseHeaderContentLength`. */
  lemma ScanStep(s: string, start: nat, line: string, more: string, length: Option<nat>)
    requires start <= |s| && s[start..] == line + CRLF + more && line != "" && HasNoBreak(line)
    requires Find(line, ":", 0).Some?
    ensures start + |line| + 2 <= |s| && s[start + |line| + 2..] == more
    ensures HttpFraming.ScanLength(s, start, length)
            == if NameOf(line) != "content-length" then HttpFraming.ScanLength(s, start + |line| + 2, length)
               else var text := ValueOf(line);
                    if !Digits(text) || Number(text) >= SIZE_LIMIT || (length.Some? && length.value != Number(text))
                    then None else HttpFraming.ScanLength(s, start + |line| + 2, Some(Number(text)))
  {
    hide Find, Digits, Number, TrimBlanks, Lowercase;
    FirstBreakFrom(s, start, line, more);
  }

  lemma {:induction false} ScanLengthIs(s: string, start: nat, lines: seq<string>, rest: string, text: string, n: nat,
                                        length: Option<nat>)
    requires start <= |s| && s[start..] == Block(lines, rest) && AreLines(lines) && OneLength(lines, text)
    requires Denotes(text, n) && length in [None, Some(n)]
    ensures HttpFraming.ScanLength(s, start, length) == LengthFound(lines, n, length)
    decreases |lines|
  {
    hide Find, Digits, Number, NameOf, ValueOf, HasNoBreak, HttpFraming.ScanLength, Block;
    if lines == [] {
      ScanStops(s, start, rest, length);
    } else {
      var line, more := lines[0], lines[1..];
      BlockStep(lines, rest);
      ScanStep(s, start, line, Block(more, rest), length);
      NoDigits();
      assert forall i :: 0 <= i < |more| ==> more[i] == lines[i + 1];
      ScanLengthIs(s, start + |line| + 2, more, rest, text, n,
                   if NameOf(line) == "content-length" then Some(n) else length);
    }
  }

  lemma BlockStep(lines: seq<string>, rest: string)
    requires lines != []
    ensures Block(lines, rest) == lines[0] + CRLF + Block(lines[1..], rest)
  {
  }

  lemma ScanStops(s: string, start: nat, rest: string, length: Option<nat>)
    requires start <= |s| && s[start..] == Block([], rest)
    ensures HttpFraming.ScanLength(s, start, length) == length
  {
    hide Find;
    assert "" + CRLF + rest == CRLF + rest;
    FirstBreakFrom(s, start, "", rest);
  }

  lemma NoDigits()
    ensures !Digits("")
  {
  }

  lemma {:induction false} LengthIsFound(lines: seq<string>, text: string, n: nat, length: Option<nat>)
    requires OneLength(lines, text) && length in [None, Some(n)]
    ensures var r := LengthFound(lines, n, length);
            && r in [None, Some(n)]
            && (SomeEmptyLength(lines) ==> r.None?)
            && (!SomeEmptyLength(lines) ==>
                  r == if exists i :: 0 <= i < |lines| && NameOf(lines[i]) == "content-length" then Some(n) else length)
    decreases |lines|
  {
    hide NameOf, ValueOf, Find;
    if lines != [] {
      var more := lines[1..];
      assert forall i :: 0 <= i < |more| ==> more[i] == lines[i + 1];
      assert forall i :: 1 <= i < |lines| ==> lines[i] == more[i - 1];
      if NameOf(lines[0]) != "content-length" {
        LengthIsFound(more, text, n, length);
      } else if ValueOf(lines[0]) != "" {
        LengthIsFound(more, text, n, Some(n));
      }
    }
  }

  // ---------------------------------------------------------------- the same head, whatever follows

  lemma {:induction false} RawAppends(first: string, lines: seq<string>, x: string, y: string)
    ensures Raw(first, lines, x) + y == Raw(first, lines, x + y)
    decreases lines
  {
    if lines == [] {
      assert Raw(first, [], x) + y == first + CRLF + CRLF + x + y;
    } else {
      RawAppends(lines[0], lines[1..], x, y);
      assert Block(lines, x) == Raw(lines[0], lines[1..], x) && Block(lines, x + y) == Raw(lines[0], lines[1..], x + y);
    }
  }

  lemma PartOfRaw(first: string, lines: seq<string>, rest: string)
    requires HasNoBreak(first) && AreLines(lines)
    ensures var part, s := Raw(first, lines, ""), Raw(first, lines, rest);
            && HeaderPartOf(part, s) && s == part + rest && |part| >= 4
            && Find(s, BLANK_LINE, 0) == Some(|part| - 4) && s[..|part|] == part && s[|part|..] == rest
  {
    hide Find;
    RawAppends(first, lines, "", rest);
    assert "" + rest == rest;
    BlankLineIs(first, lines, rest);
    BlankLineIs(first, lines, "");
  }

  lemma SameControls(first: string, lines: seq<string>, rest: string)
    requires HasNoBreak(first) && AreLines(lines)
    ensures ControlFree(Raw(first, lines, rest)) <==> forall line :: line in lines ==> NoControls(AfterColon(line))
  {
    hide Find, NoControls, AfterColon, HeaderLines, Block;
    FirstBreakOf(first, Block(lines, rest));
    assert Raw(first, lines, rest)[|first| + 2..] == Block(lines, rest);
    LinesOfBlock(Raw(first, lines, rest), |first| + 2, lines, rest);
  }

  lemma SameHead(first: string, lines: seq<string>, x: string, y: string, limits: Limits)
    requires HasNoBreak(first) && AreLines(lines)
    ensures var a, b := ParseHead(Raw(first, lines, x), limits, true), ParseHead(Raw(first, lines, y), limits, true);
            a.GoodHead? || b.GoodHead? ==> a == b
  {
    hide ParseHead, ControlFree, HeaderPartOf, Raw;
    PartOfRaw(first, lines, x);
    PartOfRaw(first, lines, y);
    HeadsAgree(Raw(first, lines, x), Raw(first, lines, ""), limits);
    HeadsAgree(Raw(first, lines, y), Raw(first, lines, ""), limits);
    SameControls(first, lines, x);
    SameControls(first, lines, y);
  }

  lemma GoodHeadMeans(first: string, lines: seq<string>, rest: string, limits: Limits)
    requires HasNoBreak(first) && AreLines(lines)
    ensures var head := ParseHead(Raw(first, lines, rest), limits, true);
            head.GoodHead? ==>
              && GoodLines(lines, limits, true) && head.fields.contentLength == LengthText(lines)
              && head.bodyOffset == |Raw(first, lines, "")|
              && !head.request.hasContentLength && head.request.contentLength == 0 && head.request.body == ""
  {
    hide ScanFields, GoodLines, Block, LengthText, HeadersOf, IsToken, Raw, ThreeWords, NoHost;
    HeadOfPieces(first, lines, rest, limits, true);
    var ws := Words(first);
    if |ws| == 3 {
      hide ParseHead, Words;
      assert ws == [ws[0], ws[1], ws[2]];
      WordsAreThree(first, ws[0], ws[1], ws[2]);
      HeadIsGoodIff(first, ws[0], ws[1], ws[2], lines, rest, limits, true);
      PartOfRaw(first, lines, rest);
    }
  }

  // ---------------------------------------------------------------- the completed request

  lemma HeaderLengthIs(first: string, lines: seq<string>, text: string, n: nat)
    requires HasNoBreak(first) && AreLines(lines) && OneLength(lines, text) && Denotes(text, n)
    ensures HttpFraming.HeaderLength(Raw(first, lines, "")) == LengthFound(lines, n, None)
  {
    hide Find, HttpFraming.ScanLength, Denotes, OneLength, Block;
    FirstBreakOf(first, Block(lines, ""));
    assert Raw(first, lines, "")[|first| + 2..] == Block(lines, "");
    ScanLengthIs(Raw(first, lines, ""), |first| + 2, lines, "", text, n, None);
  }

  lemma LinesHaveOneLength(lines: seq<string>, limits: Limits)
    requires GoodLines(lines, limits, true)
    ensures OneLength(lines, LengthText(lines))
  {
    LengthsSame(lines, limits, true);
    hide NameOf, ValueOf, LengthText, Find, IsToken;
    forall i | 0 <= i < |lines| ensures Find(lines[i], ":", 0).Some? {
      assert LineIsGood(lines, i, limits, true);
    }
  }

  /** How much of what follows the headers is read. */
  lemma CompletedIs(first: string, lines: seq<string>, rest: string, n: nat, limits: Limits)
    requires HasNoBreak(first) && AreLines(lines) && GoodLines(lines, limits, true) && Denotes(LengthText(lines), n)
    requires n <= limits.maxBodyBytes && (LengthText(lines) == "" ==> n == 0)
    ensures var m := if SomeEmptyLength(lines) then 0 else Min(n, |rest|);
            HttpFraming.CompleteRequest(Raw(first, lines, ""), rest, limits.maxBodyBytes)
            == Raw(first, lines, rest[..m])
  {
    hide GoodLines, LengthText, Denotes, OneLength, Raw, HttpFraming.HeaderLength, SomeEmptyLength, NameOf, ValueOf;
    LinesHaveOneLength(lines, limits);
    HeaderLengthIs(first, lines, LengthText(lines), n);
    LengthIsFound(lines, LengthText(lines), n, None);
    LengthsSame(lines, limits, true);
    var m := if SomeEmptyLength(lines) then 0 else Min(n, |rest|);
    RawAppends(first, lines, "", rest[..m]);
    assert "" + rest[..m] == rest[..m] && rest[..0] == "";
    assert Raw(first, lines, "") + "" == Raw(first, lines, "");
  }

  // ---------------------------------------------------------------- main result

  lemma CompletedForm(first: string, lines: seq<string>, rest: string, maxBodyBytes: nat) returns (k: nat)
    requires HasNoBreak(first) && AreLines(lines)
    ensures k <= |rest|
    ensures HttpFraming.CompleteRequest(Raw(first, lines, ""), rest, maxBodyBytes) == Raw(first, lines, rest[..k])
  {
    hide HttpFraming.HeaderLength, Raw;
    var length := HttpFraming.HeaderLength(Raw(first, lines, ""));
    k := if length.None? || length.value > maxBodyBytes then 0 else Min(length.value, |rest|);
    RawAppends(first, lines, "", rest[..k]);
    assert "" + rest[..k] == rest[..k];
    assert Raw(first, lines, "") + "" == Raw(first, lines, "");
  }

  lemma ServedWay(first: string, lines: seq<string>, rest: string, maxRequestBytes: nat, limits: Limits)
    requires HasNoBreak(first) && AreLines(lines)
    ensures var part := Raw(first, lines, "");
            var raw := HttpFraming.CompleteRequest(part, rest, limits.maxBodyBytes);
            forall q :: HttpFraming.Served(Raw(first, lines, rest), maxRequestBytes, limits) == Some(Accepted(q))
                        <==> (|raw| <= maxRequestBytes && ParseStrict(raw, limits) == Accepted(q))
  {
    hide Find, ParseStrict, ParsePlain, ControlFree, BodyPresent, HeaderPartOf, Raw;
    var part := Raw(first, lines, "");
    PartOfRaw(first, lines, rest);
    HttpFraming.CompletedBegins(part, rest, limits.maxBodyBytes);
    var raw := HttpFraming.CompleteRequest(part, rest, limits.maxBodyBytes);
    ParsersAgree(raw, part, limits);
  }

  /** The strict parser on the pieces, once the head is good. */
  lemma StrictOnGoodHead(first: string, lines: seq<string>, rest: string, limits: Limits, head: Head)
    requires HasNoBreak(first) && AreLines(lines)
    requires head.GoodHead? && head == ParseHead(Raw(first, lines, rest), limits, true)
    requires |Raw(first, lines, "")| + limits.maxBodyBytes < SIZE_LIMIT
    ensures var r, text := ParseStrict(Raw(first, lines, rest), limits), LengthText(lines);
            if text == "" then r == Accepted(head.request)
            else if !(Digits(text) && Number(text) <= limits.maxBodyBytes && Number(text) <= |rest|) then r.Rejected?
            else r == Accepted(head.request.(hasContentLength := true, contentLength := Number(text),
                                             body := rest[..Number(text)]))
  {
    hide ParseHead, Number, Raw, LengthText, GoodLines;
    GoodHeadMeans(first, lines, rest, limits);
    PartOfRaw(first, lines, rest);
    var s, part, text := Raw(first, lines, rest), Raw(first, lines, ""), LengthText(lines);
    if Digits(text) && Number(text) <= limits.maxBodyBytes && Number(text) <= |rest| {
      assert s[|part|..|part| + Number(text)] == rest[..Number(text)];
    }
  }

  /**
   * What is served, both directions: of all that a peer sends, a request gets through exactly when
   * the strict parser accepts the bytes sent, the headers and the declared body fit the request
   * limit, and no content length line is empty (or there is no body to read); and then it is the
   * strict parser's request.
   */
  lemma ServedIff(first: string, lines: seq<string>, rest: string, maxRequestBytes: nat, limits: Limits, q: Request)
    requires HasNoBreak(first) && AreLines(lines)
    requires |Raw(first, lines, "")| + limits.maxBodyBytes < SIZE_LIMIT
    ensures HttpFraming.Served(Raw(first, lines, rest), maxRequestBytes, limits) == Some(Accepted(q))
            <==> (&& ParseStrict(Raw(first, lines, rest), limits) == Accepted(q)
                  && |Raw(first, lines, "")| + q.contentLength <= maxRequestBytes
                  && (q.contentLength == 0 || !SomeEmptyLength(lines)))
  {
    hide ParseHead, ParseStrict, HttpFraming.Served, HttpFraming.CompleteRequest, Raw, GoodLines, LengthText,
      SomeEmptyLength, Number;
    ServedWay(first, lines, rest, maxRequestBytes, limits);
    var k := CompletedForm(first, lines, rest, limits.maxBodyBytes);
    SameHead(first, lines, rest, rest[..k], limits);
    var head := ParseHead(Raw(first, lines, rest), limits, true);
    if head.BadHead? {
      BadHeadIsRefused(Raw(first, lines, rest), limits);
      BadHeadIsRefused(Raw(first, lines, rest[..k]), limits);
    } else {
      StrictOnGoodHead(first, lines, rest, limits, head);
      StrictOnGoodHead(first, lines, rest[..k], limits, head);
      GoodHeadMeans(first, lines, rest, limits);
      RawAppends(first, lines, "", rest[..k]);
      assert "" + rest[..k] == rest[..k];
      var text := LengthText(lines);
      if Digits(text) && Number(text) <= k { assert rest[..k][..Number(text)] == rest[..Number(text)]; }
      ServedLength(first, lines, rest, k, limits);
    }
  }

  lemma BadHeadIsRefused(s: string, limits: Limits)
    requires ParseHead(s, limits, true).BadHead?
    ensures ParseStrict(s, limits).Rejected?
  {
    hide ParseHead;
  }

  /** How much is read is what the good lines declare. */
  lemma ServedLength(first: string, lines: seq<string>, rest: string, k: nat, limits: Limits)
    requires HasNoBreak(first) && AreLines(lines) && GoodLines(lines, limits, true) && k <= |rest|
    requires HttpFraming.CompleteRequest(Raw(first, lines, ""), rest, limits.maxBodyBytes)
             == Raw(first, lines, rest[..k])
    requires limits.maxBodyBytes < SIZE_LIMIT
    ensures var text := LengthText(lines);
            && (text == "" ==> k == 0)
            && (Digits(text) && Number(text) <= limits.maxBodyBytes ==>
                  k == if SomeEmptyLength(lines) then 0 else Min(Number(text), |rest|))
  {
    hide GoodLines, LengthText, Number, SomeEmptyLength, HttpFraming.CompleteRequest, Raw;
    var text := LengthText(lines);
    if text == "" || (Digits(text) && Number(text) <= limits.maxBodyBytes) {
      var n := if text == "" then 0 else Number(text);
      NoDigits();
      CompletedIs(first, lines, rest, n, limits);
      var m := if SomeEmptyLength(lines) then 0 else Min(n, |rest|);
      RawAppends(first, lines, "", rest[..k]);
      RawAppends(first, lines, "", rest[..m]);
      assert "" + rest[..k] == rest[..k] && "" + rest[..m] == rest[..m];
    }
  }

  // ---------------------------------------------------------------- a request that does not get through

  const FIRST: string := "GET / HTTP/1.0"
  const NAME: string := "Content-Length"
  const EMPTY_THEN_FIVE: seq<string> := [NAME + ":" + "", NAME + ":" + "5"]

  lemma LengthLineIs(value: string)
    requires value in ["", "5"]
    ensures var line := NAME + ":" + value;
            WellFormed(line, true) && NameOf(line) == "content-length" && ValueOf(line) == value && HasNoBreak(line)
  {
    var line := NAME + ":" + value;
    ShortValues(value);
    NameIsLength();
    FirstSeparator(NAME, ":", value);
    hide Find, TrimBlanks, Lowercase, IsToken, HasNoBreak, Misses;
    assert line[..14] == NAME && line[15..] == value && line[0] == 'C';
  }

  lemma ShortValues(value: string)
    requires value in ["", "5"]
    ensures TrimBlanks(value) == value && HasNoControls(value) && HasNoBreak(NAME + ":" + value)
  {
  }

  lemma NameIsLength()
    ensures Misses(NAME, ':') && IsToken("content-length") && Lowercase(NAME) == "content-length"
  {
    HttpFraming.LiteralsHaveNoBreak();
    HttpFraming.NameOfLength();
    LowercaseToken(NAME);
  }

  /** An empty length line and another one. */
  lemma TwoLengthLines(empty: string, other: string, limits: Limits)
    requires limits.maxHeaders >= 2
    requires WellFormed(empty, true) && NameOf(empty) == "content-length" && ValueOf(empty) == "" && HasNoBreak(empty)
    requires WellFormed(other, true) && NameOf(other) == "content-length" && HasNoBreak(other)
    requires |empty| <= limits.maxHeaderLineBytes && |other| <= limits.maxHeaderLineBytes
    ensures var lines := [empty, other];
            && AreLines(lines) && GoodLines(lines, limits, true) && SomeEmptyLength(lines)
            && LengthText(lines) == ValueOf(other)
  {
    hide WellFormed, NameOf, ValueOf, HasNoBreak, LengthText, GoodLines, AreLines, SomeEmptyLength;
    LastOfTwo(empty, other);
    NeitherIsEmpty(empty, other);
    LengthLinesPass([], empty, limits);
    LengthLinesPass([empty], other, limits);
    assert [] + [empty] == [empty] && [empty] + [other] == [empty, other];
  }

  lemma NeitherIsEmpty(empty: string, other: string)
    requires WellFormed(empty, true) && HasNoBreak(empty) && WellFormed(other, true) && HasNoBreak(other)
    ensures AreLines([empty, other])
  {
    hide NameOf, ValueOf, HasNoBreak, IsToken, Find;
  }

  lemma LastOfTwo(empty: string, other: string)
    requires NameOf(empty) == "content-length" && ValueOf(empty) == "" && NameOf(other) == "content-length"
    ensures SomeEmptyLength([empty, other]) && LengthText([empty, other]) == ValueOf(other)
  {
    hide NameOf, ValueOf;
    assert [empty, other][0] == empty && [empty, other][1] == other;
  }

  lemma LengthLinesPass(done: seq<string>, line: string, limits: Limits)
    requires WellFormed(line, true) && NameOf(line) == "content-length" && Fits(line, |done| + 1, limits)
    requires done == [] || (|done| == 1 && ValueOf(done[0]) == "")
    ensures GoodLines(done, limits, true) ==> GoodLines(done + [line], limits, true)
    ensures GoodLines([], limits, true)
  {
    hide WellFormed, NameOf, ValueOf, NoHost, Fits;
    assert GoodLines([], limits, true);
    hide GoodLines;
    NamesDiffer(NameOf(line));
    if GoodLines(done, limits, true) { GoodNext(done, line, limits, true); }
  }

  lemma NamesDiffer(name: string)
    requires name == "content-length"
    ensures name != "transfer-encoding" && name != "host"
  {
    assert |name| == 14 && |"transfer-encoding"| == 17 && |"host"| == 4;
  }

  lemma EmptyThenFiveIsGood(limits: Limits)
    requires limits.maxHeaderLineBytes >= 16 && limits.maxHeaders >= 2
    ensures AreLines(EMPTY_THEN_FIVE) && GoodLines(EMPTY_THEN_FIVE, limits, true) && SomeEmptyLength(EMPTY_THEN_FIVE)
    ensures LengthText(EMPTY_THEN_FIVE) == "5"
  {
    hide WellFormed, NameOf, ValueOf, HasNoBreak, AreLines, GoodLines, SomeEmptyLength, LengthText;
    LengthLineIs("");
    LengthLineIs("5");
    TwoLengthLines(NAME + ":" + "", NAME + ":" + "5", limits);
  }

  /** An empty length line in front of the real one: accepted by the strict parser, with its body, but never served. */
  lemma EmptyLengthIsRefused(maxRequestBytes: nat, limits: Limits)
    requires limits.maxHeaderLineBytes >= 16 && limits.maxHeaders >= 2 && limits.maxMethodBytes >= 3
    requires limits.maxUriBytes >= 1 && 5 <= limits.maxBodyBytes < 0x1000_0000
    ensures var sent := Raw(FIRST, EMPTY_THEN_FIVE, "abcde");
            && ParseStrict(sent, limits).Accepted? && ParseStrict(sent, limits).request.body == "abcde"
            && !HttpFraming.Accepts(sent, maxRequestBytes, limits)
  {
    hide AreLines, GoodLines, SomeEmptyLength, LengthText, HasNoBreak, ThreeWords, GoodWords, NoHost, Raw, Digits,
      Number,
      ParseStrict, HttpFraming.Accepts;
    EmptyThenFiveIsGood(limits);
    FirstLineIs(limits);
    FiveIsNumber();
    HeadersAreShort();
    hide EMPTY_THEN_FIVE, FIRST;
    EmptyLengthBlocks(FIRST, "GET", "/", "HTTP/1.0", EMPTY_THEN_FIVE, "abcde", maxRequestBytes, limits);
  }

  /** The same for every request with an empty length line and a body. */
  lemma EmptyLengthBlocks(first: string, a: string, b: string, c: string, lines: seq<string>, rest: string,
                          maxRequestBytes: nat, limits: Limits)
    requires HasNoBreak(first) && AreLines(lines) && ThreeWords(first, a, b, c)
    requires |first| <= limits.maxHeaderLineBytes && GoodWords(a, b, c, limits) && GoodLines(lines, limits, true)
    requires c == "HTTP/1.1" ==> !NoHost(lines)
    requires SomeEmptyLength(lines) && Digits(LengthText(lines)) && Number(LengthText(lines)) == |rest| > 0
    requires |rest| <= limits.maxBodyBytes && |Raw(first, lines, "")| + limits.maxBodyBytes < SIZE_LIMIT
    ensures var sent := Raw(first, lines, rest);
            && ParseStrict(sent, limits).Accepted? && ParseStrict(sent, limits).request.body == rest
            && !HttpFraming.Accepts(sent, maxRequestBytes, limits)
  {
    var sent := Raw(first, lines, rest);
    hide ParseStrict, ParsePlain, GoodLines, AreLines, SomeEmptyLength, LengthText, HeadersOf, NoHost, Number,
      HasNoBreak,
      GoodWords, ThreeWords, HttpFraming.Served, Raw;
    NoDigits();
    PartOfRaw(first, lines, rest);
    assert |sent| == |Raw(first, lines, "")| + |rest|;
    assert rest[..|rest|] == rest;
    AcceptedIff(first, a, b, c, lines, rest, limits, true);
    var r := HttpFraming.Served(sent, maxRequestBytes, limits);
    if r.Some? && r.value.Accepted? {
      ServedIff(first, lines, rest, maxRequestBytes, limits, r.value.request);
    }
  }

  lemma FirstLineIs(limits: Limits)
    requires limits.maxHeaderLineBytes >= 16 && limits.maxMethodBytes >= 3 && limits.maxUriBytes >= 1
    ensures HasNoBreak(FIRST) && |FIRST| <= limits.maxHeaderLineBytes
    ensures ThreeWords(FIRST, "GET", "/", "HTTP/1.0") && GoodWords("GET", "/", "HTTP/1.0", limits)
  {
    assert Spaced(FIRST, "", "GET", " ", "/", " ", "HTTP/1.0", "");
    GetIsToken();
  }

  lemma GetIsToken()
    ensures IsToken("GET")
  {
  }

  lemma HeadersAreShort()
    ensures |Raw(FIRST, EMPTY_THEN_FIVE, "")| == 53
  {
    var more := [NAME + ":" + "5"];
    assert EMPTY_THEN_FIVE[1..] == more && more[1..] == [];
    assert |Block([], "")| == 2;
    assert |Block(more, "")| == 20;
  }

  lemma FiveIsNumber()
    ensures Digits("5") && Number("5") == 5
  {
    assert "5"[..0] == "";
  }
}
