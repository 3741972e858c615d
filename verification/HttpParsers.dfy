/**
 * The two request parsers: `StrictHttpParser::parse` (src/StrictHttp.cpp:48-139) and
 * `parseHeadersOnly` (src/Server.cpp:175-264), each as the source has it, and their
 * agreement.  A rejection is its status code; the reason phrase is a function of it.
 */
module HttpParsers {
  import opened Basics
  import opened Text

  /** `std::size_t` wraps here. */
  const SIZE_LIMIT: nat := 0x1_0000_0000_0000_0000

  datatype Limits = Limits(
    maxHeaderLineBytes: nat, maxHeaders: nat, maxUriBytes: nat, maxMethodBytes: nat, maxBodyBytes: nat)

  datatype Request = Request(
    verb: string, target: string, version: string, headers: map<string, string>,
    hasContentLength: bool, contentLength: nat, body: string)

  datatype ParseResult = Rejected(status: nat) | Accepted(request: Request)

  predicate IsCtl(c: char) {
    c as int < 32 || c as int == 127
  }

  predicate IsTokenChar(c: char) {
    IsAlnum(c) || c in "!#$%&'*+-.^_`|~"
  }

  predicate IsToken(s: string) {
    s != "" && forall k :: 0 <= k < |s| ==> IsTokenChar(s[k])
  }

  /** What the header loops accumulate. */
  datatype Fields = Fields(headers: map<string, string>, contentLength: string, sawHost: bool, count: nat)

  const NO_FIELDS: Fields := Fields(map[], "", false, 0)

  datatype Scan = Bad(status: nat) | Good(fields: Fields)

  // ---------------------------------------------------------------- the request line

  datatype RequestLine = BadLine(status: nat) | GoodLine(verb: string, target: string, version: string)

  function ParseRequestLine(line: string, limits: Limits): RequestLine {
    var words := Words(line);
    if |words| != 3 then BadLine(400)
    else if |words[0]| > limits.maxMethodBytes then BadLine(405)
    else if !IsToken(words[0]) then BadLine(400)
    else if |words[1]| > limits.maxUriBytes then BadLine(414)
    else if words[2] != "HTTP/1.1" && words[2] != "HTTP/1.0" then BadLine(505)
    else GoodLine(words[0], words[1], words[2])
  }

  // ---------------------------------------------------------------- one header line, in each parser

  /** Host, Transfer-Encoding and Content-Length rules, then the entry in the map. */
  function Store(f: Fields, name: string, value: string): Scan {
    if name == "host" && f.sawHost then Bad(400)
    else if name == "transfer-encoding" then Bad(501)
    else if name == "content-length" && f.contentLength != "" && f.contentLength != value then Bad(400)
    else Good(Fields(f.headers[name := value],
                     if name == "content-length" then value else f.contentLength,
                     f.sawHost || name == "host", f.count))
  }

  predicate NoControls(value: string) {
    forall k :: 0 <= k < |value| ==> !IsCtl(value[k]) || value[k] == '\t'
  }

  /** The text after the first colon. */
  function AfterColon(line: string): string {
    var colon := Find(line, ":", 0);
    if colon.None? then "" else line[colon.value + 1..]
  }

  /** Strict: token test on the name as written, then the control character test on the value. */
  function StrictLine(line: string, f: Fields): Scan {
    if line != "" && IsBlank(line[0]) then Bad(400) else
      var colon := Find(line, ":", 0);
      if colon.None? then Bad(400) else
        var name, value := line[..colon.value], TrimBlanks(line[colon.value + 1..]);
        if !IsToken(name) then Bad(400)
        else if !NoControls(value) then Bad(400)
        else Store(f, Lowercase(name), value)
  }

  /** Headers only: token test on the lower-cased name, no control character test. */
  function PlainLine(line: string, f: Fields): Scan {
    if line != "" && IsBlank(line[0]) then Bad(400) else
      var colon := Find(line, ":", 0);
      if colon.None? then Bad(400) else
        var name, value := Lowercase(line[..colon.value]), TrimBlanks(line[colon.value + 1..]);
        if !IsToken(name) then Bad(400) else Store(f, name, value)
  }

  /** The header loop from position `start`; `strict` picks the treatment of a line. */
  function ScanFields(s: string, headerEnd: nat, start: nat, f: Fields, limits: Limits, strict: bool): Scan
    requires start <= |s|
    decreases |s| - start
  {
    var found := Find(s, CRLF, start);
    if found.None? then Bad(400) else
      var end := found.value;
      if end == start then Good(f)
      else if end > headerEnd then Bad(400)
      else if end - start > limits.maxHeaderLineBytes then Bad(431)
      else if f.count + 1 > limits.maxHeaders then Bad(431)
      else
        var line := s[start..end];
        var counted := f.(count := f.count + 1);
        var r := if strict then StrictLine(line, counted) else PlainLine(line, counted);
        if r.Bad? then r else ScanFields(s, headerEnd, end + 2, r.fields, limits, strict)
  }

  // ---------------------------------------------------------------- the whole parsers

  /** `bodyOffset + len` in `std::size_t`. */
  function AddSize(a: nat, b: nat): nat {
    (a + b) % SIZE_LIMIT
  }

  function FinishStrict(raw: string, bodyOffset: nat, q: Request, contentLength: string, limits: Limits): ParseResult
    requires bodyOffset <= |raw|
  {
    if contentLength == "" then Accepted(q)
    else if !Digits(contentLength) then Rejected(400)
    else
      var n := Number(contentLength);
      if n >= SIZE_LIMIT then Rejected(400)
      else if n > limits.maxBodyBytes then Rejected(413)
      else if |raw| < AddSize(bodyOffset, n) then Rejected(400)
      else Accepted(q.(hasContentLength := true, contentLength := n,
                       body := raw[bodyOffset..Min(|raw|, bodyOffset + n)]))
  }

  function FinishPlain(q: Request, contentLength: string, limits: Limits): ParseResult {
    if contentLength == "" then Accepted(q)
    else if !Digits(contentLength) then Rejected(400)
    else
      var n := Number(contentLength);
      if n >= SIZE_LIMIT then Rejected(400)
      else if n > limits.maxBodyBytes then Rejected(413)
      else Accepted(q.(hasContentLength := true, contentLength := n))
  }

  /** Everything up to the end of the header loop. */
  datatype Head = BadHead(status: nat) | GoodHead(request: Request, fields: Fields, bodyOffset: nat)

  function ParseHead(s: string, limits: Limits, strict: bool): (r: Head)
    ensures r.GoodHead? ==> r.bodyOffset <= |s|
  {
    var blank := Find(s, BLANK_LINE, 0);
    if blank.None? then BadHead(400) else
      var headerEnd := blank.value;
      var lineEnd := Find(s, CRLF, 0);
      if lineEnd.None? || lineEnd.value > headerEnd then BadHead(400)
      else if lineEnd.value > limits.maxHeaderLineBytes then BadHead(431)
      else
        var first := ParseRequestLine(s[..lineEnd.value], limits);
        if first.BadLine? then BadHead(first.status) else
          var scan := ScanFields(s, headerEnd, lineEnd.value + 2, NO_FIELDS, limits, strict);
          if scan.Bad? then BadHead(scan.status)
          else if first.version == "HTTP/1.1" && !scan.fields.sawHost then BadHead(400)
          else GoodHead(Request(first.verb, first.target, first.version, scan.fields.headers, false, 0, ""),
                        scan.fields, headerEnd + 4)
  }

  function ParseStrict(raw: string, limits: Limits): ParseResult {
    var head := ParseHead(raw, limits, true);
    if head.BadHead? then Rejected(head.status)
    else FinishStrict(raw, head.bodyOffset, head.request, head.fields.contentLength, limits)
  }

  function ParsePlain(headerPart: string, limits: Limits): ParseResult {
    var head := ParseHead(headerPart, limits, false);
    if head.BadHead? then Rejected(head.status)
    else FinishPlain(head.request, head.fields.contentLength, limits)
  }

  // ---------------------------------------------------------------- independent view of the header lines

  /** The header lines of a request, up to the blank line. */
  function HeaderLines(s: string, start: nat): seq<string>
    requires start <= |s|
    decreases |s| - start
  {
    var found := Find(s, CRLF, start);
    if found.None? || found.value == start then [] else
      [s[start..found.value]] + HeaderLines(s, found.value + 2)
  }

  /** No header value of the request contains a control character other than a tab. */
  ghost predicate ControlFree(s: string) {
    var lineEnd := Find(s, CRLF, 0);
    lineEnd.Some? ==> forall line :: line in HeaderLines(s, lineEnd.value + 2) ==> NoControls(AfterColon(line))
  }

  // ---------------------------------------------------------------- lines agree

  lemma LowercaseToken(s: string)
    ensures IsToken(Lowercase(s)) <==> IsToken(s)
  {
    assert forall k :: 0 <= k < |s| ==> (IsTokenChar(Lowercase(s)[k]) <==> IsTokenChar(s[k]));
    if IsToken(Lowercase(s)) {
      forall k | 0 <= k < |s| ensures IsTokenChar(s[k]) {
        assert IsTokenChar(Lowercase(s)[k]);
      }
    }
  }

  /** Trimming removes spaces and tabs only, so it neither hides nor adds a control character. */
  lemma {:induction false} TrimLeftControls(s: string)
    ensures NoControls(TrimLeft(s, IsBlank)) <==> NoControls(s)
  {
    hide NoControls;
    if s != "" && IsBlank(s[0]) {
      TrimLeftControls(s[1..]);
      BlankIsNoControl(s);
    }
  }

  lemma BlankIsNoControl(s: string)
    requires s != "" && IsBlank(s[0])
    ensures NoControls(s[1..]) <==> NoControls(s)
  {
    hide IsCtl;
    assert !IsCtl(' ') by { SpaceIsNoControl(); }
    assert forall k :: 0 < k < |s| ==> s[k] == s[1..][k - 1];
    assert forall k :: 0 <= k < |s| - 1 ==> s[1..][k] == s[k + 1];
  }

  lemma SpaceIsNoControl()
    ensures !IsCtl(' ')
  {
  }

  lemma {:induction false} TrimRightControls(s: string)
    ensures NoControls(TrimRight(s, IsBlank)) <==> NoControls(s)
  {
    if s != "" && IsBlank(s[|s| - 1]) {
      TrimRightControls(s[..|s| - 1]);
      assert forall k :: 0 <= k < |s| - 1 ==> s[..|s| - 1][k] == s[k];
    }
  }

  /** On one line the strict parser refuses more, and only for a control character in the value. */
  lemma LinesAgree(line: string, f: Fields)
    ensures StrictLine(line, f).Good? ==> PlainLine(line, f) == StrictLine(line, f)
    ensures PlainLine(line, f).Good? ==> (StrictLine(line, f).Good? <==> NoControls(AfterColon(line)))
  {
    hide Find, NoControls, IsToken, Store, Lowercase, TrimLeft, TrimRight;
    var colon := Find(line, ":", 0);
    if colon.Some? {
      LowercaseToken(line[..colon.value]);
      TrimLeftControls(line[colon.value + 1..]);
      TrimRightControls(TrimLeft(line[colon.value + 1..], IsBlank));
    }
  }

  /** The two header loops run over the same lines of a request and of its header part. */
  lemma {:induction false} ScansAgree(raw: string, part: string, headerEnd: nat, start: nat, f: Fields, limits: Limits)
    requires headerEnd + 4 <= |raw| && part == raw[..headerEnd + 4] && start <= headerEnd + 2
    requires At(raw, CRLF, headerEnd + 2)
    ensures var strict := ScanFields(raw, headerEnd, start, f, limits, true);
            var plain := ScanFields(part, headerEnd, start, f, limits, false);
            && (strict.Good? ==> plain == strict)
            && (plain.Good? ==>
                  (strict.Good? <==> forall line :: line in HeaderLines(raw, start) ==> NoControls(AfterColon(line))))
    decreases headerEnd + 4 - start
  {
    hide Find, At, StrictLine, PlainLine, NoControls, AfterColon;
    EndIsNear(raw, headerEnd, start);
    var end := Find(raw, CRLF, start).value;
    FindInPrefix(part, raw, CRLF, start);
    assert Find(part, CRLF, start) == Some(end);
    if end != start && end <= headerEnd {
      var line := raw[start..end];
      assert part[start..end] == line;
      var counted := f.(count := f.count + 1);
      LinesAgree(line, counted);
      assert HeaderLines(raw, start) == [line] + HeaderLines(raw, end + 2);
      if PlainLine(line, counted).Good? {
        ScansAgree(raw, part, headerEnd, end + 2, PlainLine(line, counted).fields, limits);
        MoreLines(line, HeaderLines(raw, end + 2));
      }
    }
  }

  lemma MoreLines(line: string, rest: seq<string>)
    ensures (forall x :: x in [line] + rest ==> NoControls(AfterColon(x)))
            <==> NoControls(AfterColon(line)) && forall x :: x in rest ==> NoControls(AfterColon(x))
  {
    hide NoControls, AfterColon;
    assert line in [line] + rest;
    assert forall x :: x in rest ==> x in [line] + rest;
  }

  lemma EndIsNear(s: string, headerEnd: nat, start: nat)
    requires start <= headerEnd + 2 && At(s, CRLF, headerEnd + 2)
    ensures Find(s, CRLF, start).Some? && Find(s, CRLF, start).value <= headerEnd + 2
  {
    var r := Find(s, CRLF, start);
    assert !(r.None? || headerEnd + 2 < r.value);
  }

  // ---------------------------------------------------------------- main results

  /** A request's header part: everything up to and including the first blank line. */
  predicate HeaderPartOf(part: string, raw: string) {
    var blank := Find(raw, BLANK_LINE, 0);
    blank.Some? && part == raw[..blank.value + 4]
  }

  lemma BlankLineIsTwoBreaks(s: string, k: nat)
    requires At(s, BLANK_LINE, k)
    ensures At(s, CRLF, k) && At(s, CRLF, k + 2)
  {
    assert s[k..k + 2] == s[k..k + 4][..2] && s[k + 2..k + 4] == s[k..k + 4][2..];
  }

  lemma HeadsAgree(raw: string, part: string, limits: Limits)
    requires HeaderPartOf(part, raw)
    ensures var strict, plain := ParseHead(raw, limits, true), ParseHead(part, limits, false);
            && (strict.GoodHead? ==> plain == strict)
            && (plain.GoodHead? ==> (strict.GoodHead? <==> ControlFree(raw)) && plain.bodyOffset == |part|)
  {
    hide Find, ScanFields, ParseRequestLine, NoControls, AfterColon, HeaderLines;
    var headerEnd := Find(raw, BLANK_LINE, 0).value;
    BlankLineIsTwoBreaks(raw, headerEnd);
    FindInPrefix(part, raw, BLANK_LINE, 0);
    EndIsNear(raw, headerEnd, 0);
    FindInPrefix(part, raw, CRLF, 0);
    var lineEnd := Find(raw, CRLF, 0).value;
    assert Find(part, CRLF, 0).value == lineEnd;
    if lineEnd <= headerEnd {
      assert part[..lineEnd] == raw[..lineEnd];
      ScansAgree(raw, part, headerEnd, lineEnd + 2, NO_FIELDS, limits);
    }
  }

  /** The body the strict parser needs is there (in the wrapping arithmetic of `std::size_t`). */
  predicate BodyPresent(raw: string, part: string, q: Request) {
    q.hasContentLength ==> |raw| >= AddSize(|part|, q.contentLength)
  }

  /**
   * Parser agreement, both directions.  What the strict parser accepts, the headers-only
   * parser accepts in the header part, with the same method, target, version, header map
   * and content length.  What the headers-only parser accepts, the strict parser accepts
   * if and only if no header value has a control character and the body is not short.
   */
  lemma ParsersAgree(raw: string, part: string, limits: Limits)
    requires HeaderPartOf(part, raw)
    ensures var strict, plain := ParseStrict(raw, limits), ParsePlain(part, limits);
            && (strict.Accepted? ==> plain == Accepted(strict.request.(body := "")))
            && (plain.Accepted? ==>
                  (strict.Accepted? <==> ControlFree(raw) && BodyPresent(raw, part, plain.request)))
  {
    hide ParseHead, ControlFree, Digits, Number;
    HeadsAgree(raw, part, limits);
    var head := ParseHead(part, limits, false);
    if head.GoodHead? { HeadHasNoLength(part, limits); }
  }

  lemma HeadHasNoLength(s: string, limits: Limits)
    ensures var head := ParseHead(s, limits, false);
            head.GoodHead? ==> !head.request.hasContentLength && head.request.body == ""
  {
  }
}
