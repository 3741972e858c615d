/**
 * Reading a request off a connection (src/Server.cpp:44-84, 140-296): bytes arrive in
 * chunks of any size, one request is looked at by three separate pieces of code.
 */
module HttpFraming {
  import opened Basics
  import opened Text
  import opened HttpParsers
  import HttpMeaning
  import StrictHttp
  import HeadersOnly

  /** A connection: what the peer sends before it closes, and how much of it was read. */
  class ByteStream {
    const data: string
    var pos: nat

    ghost predicate Valid()
      reads this
    {
      pos <= |data|
    }

    constructor (data: string)
      ensures Valid() && this.data == data && pos == 0
    {
      this.data := data;
      pos := 0;
    }

    /** `read_some`: at least one byte and at most `size`, as many as it likes; nothing at the end. */
    method ReadSome(size: nat) returns (bytes: string)
      requires Valid() && size >= 1
      modifies this
      ensures Valid() && pos == old(pos) + |bytes| && bytes == data[old(pos)..pos] && |bytes| <= size
      ensures bytes == "" <==> old(pos) == |data|
    {
      if pos == |data| { return ""; }
      var n :| 1 <= n <= size && pos + n <= |data|;
      bytes := data[pos..pos + n];
      pos := pos + n;
    }
  }

  const BUFFER: nat := 512

  datatype HeaderRead = TooLarge | Incomplete | Headers(headerPart: string, leftover: string)

  /** What must come out, as a function of the bytes sent: the chunks play no part. */
  datatype HeaderOutcome = Fails(tooLarge: bool) | Yields(headerPart: string)

  function Outcome(sent: string, maxRequestBytes: nat): HeaderOutcome {
    var blank := Find(sent, BLANK_LINE, 0);
    if blank.Some? && blank.value + 4 <= maxRequestBytes then Yields(sent[..blank.value + 4])
    else Fails(|sent| >= maxRequestBytes)
  }

  predicate Matches(r: HeaderRead, o: HeaderOutcome) {
    match r
    case TooLarge => o == Fails(true)
    case Incomplete => o == Fails(false)
    case Headers(headerPart, _) => o == Yields(headerPart)
  }

  /**
   * For every stream and every sequence of read sizes: the shortest prefix ending in a blank
   * line, or the same failure; what was read too much is handed on as the leftover.
   */
  method ReadHeadersOnly(stream: ByteStream, maxRequestBytes: nat) returns (r: HeaderRead)
    requires stream.Valid()
    modifies stream
    ensures stream.Valid() && stream.pos >= old(stream.pos)
    ensures Matches(r, Outcome(stream.data[old(stream.pos)..], maxRequestBytes))
    ensures r.Headers? ==> r.headerPart + r.leftover == stream.data[old(stream.pos)..stream.pos]
  {
    hide Find;
    ghost var sent := stream.data[stream.pos..];
    var data := "";
    while Find(data, BLANK_LINE, 0).None?
      invariant stream.Valid() && |data| <= maxRequestBytes
      invariant stream.pos == old(stream.pos) + |data| && data == sent[..|data|]
      decreases |stream.data| - stream.pos
    {
      if |data| >= maxRequestBytes {
        NotYet(sent, data);
        return TooLarge;
      }
      var bytes := stream.ReadSome(Min(BUFFER, maxRequestBytes - |data|));
      if bytes == "" { break; }
      NextBytes(stream.data, old(stream.pos), |data|, bytes);
      data := data + bytes;
    }
    var blank := Find(data, BLANK_LINE, 0);
    if blank.None? {
      assert data == sent;
      return Incomplete;
    }
    FindInPrefix(data, sent, BLANK_LINE, 0);
    assert data[..blank.value + 4] == sent[..blank.value + 4];
    r := Headers(data[..blank.value + 4], data[blank.value + 4..]);
  }

  lemma NextBytes(all: string, from: nat, n: nat, bytes: string)
    requires from + n + |bytes| <= |all| && bytes == all[from + n..from + n + |bytes|]
    ensures all[from..][..n] + bytes == all[from..][..n + |bytes|]
  {
  }

  /** No blank line in a prefix means none that ends within it. */
  lemma NotYet(sent: string, data: string)
    requires |data| <= |sent| && data == sent[..|data|] && Find(data, BLANK_LINE, 0).None?
    ensures var blank := Find(sent, BLANK_LINE, 0); blank.Some? ==> blank.value + 4 > |data|
  {
    FindInPrefix(data, sent, BLANK_LINE, 0);
  }

  // ---------------------------------------------------------------- the third look: Content-Length only

  /** The loop of `parseHeaderContentLength`; nothing means that no usable length was found. */
  function ScanLength(s: string, start: nat, length: Option<nat>): Option<nat>
    requires start <= |s|
    decreases |s| - start
  {
    var found := Find(s, CRLF, start);
    if found.None? || found.value == start then length else
      var line := s[start..found.value];
      var colon := Find(line, ":", 0);
      if colon.Some? && Lowercase(line[..colon.value]) == "content-length" then
        var text := TrimBlanks(line[colon.value + 1..]);
        if !Digits(text) || Number(text) >= SIZE_LIMIT || (length.Some? && length.value != Number(text)) then None
        else ScanLength(s, found.value + 2, Some(Number(text)))
      else ScanLength(s, found.value + 2, length)
  }

  function HeaderLength(headerPart: string): Option<nat> {
    var found := Find(headerPart, CRLF, 0);
    if found.None? then None else ScanLength(headerPart, found.value + 2, None)
  }

  method ParseHeaderContentLength(headerPart: string) returns (length: Option<nat>)
    ensures length == HeaderLength(headerPart)
  {
    hide Find, Digits, Number, Lowercase, TrimBlanks;
    var first := Find(headerPart, CRLF, 0);
    if first.None? { return None; }
    var start := first.value + 2;
    length := None;
    while true
      invariant start <= |headerPart|
      invariant ScanLength(headerPart, first.value + 2, None) == ScanLength(headerPart, start, length)
      decreases |headerPart| - start
    {
      var end := Find(headerPart, CRLF, start);
      if end.None? || end.value == start { break; }
      var line := headerPart[start..end.value];
      var colon := Find(line, ":", 0);
      if colon.Some? {
        var name := Lowercase(line[..colon.value]);
        if name == "content-length" {
          var text := StrictHttp.Trim(line[colon.value + 1..]);
          var digits := StrictHttp.CheckDigits(text);
          if !digits { return None; }
          var parsed := StrictHttp.ParseNumber(text);
          if parsed.None? { return None; }
          if length.Some? && parsed.value != length.value { return None; }
          length := parsed;
        }
      }
      start := end.value + 2;
    }
  }

  // ---------------------------------------------------------------- the body

  /** What `completeRequestInMemory` returns, as a function of the bytes sent after the headers. */
  function CompleteRequest(headerPart: string, after: string, maxBodyBytes: nat): string {
    var length := HeaderLength(headerPart);
    if length.None? || length.value == 0 || length.value > maxBodyBytes then headerPart
    else headerPart + after[..Min(length.value, |after|)]
  }

  /** `leftover` and whatever the connection still has are one stretch of bytes; the split does not show. */
  method CompleteRequestInMemory(stream: ByteStream, headerPart: string, leftover: string, maxBodyBytes: nat)
    returns (data: string)
    requires stream.Valid()
    modifies stream
    ensures stream.Valid()
    ensures data == CompleteRequest(headerPart, leftover + stream.data[old(stream.pos)..], maxBodyBytes)
  {
    hide HeaderLength;
    ghost var after := leftover + stream.data[stream.pos..];
    var length := ParseHeaderContentLength(headerPart);
    if length.None? || length.value == 0 { return headerPart; }
    if length.value > maxBodyBytes { return headerPart; }
    data := headerPart + leftover;
    var alreadyHave := |leftover|;
    while alreadyHave < length.value
      invariant stream.Valid() && alreadyHave <= Max(|leftover|, length.value)
      invariant alreadyHave == |leftover| + stream.pos - old(stream.pos)
      invariant alreadyHave <= |after| && data == headerPart + after[..alreadyHave]
      decreases length.value - alreadyHave
    {
      var bytes := stream.ReadSome(Min(BUFFER, length.value - alreadyHave));
      if bytes == "" { break; }
      assert after[..alreadyHave] + bytes == after[..alreadyHave + |bytes|];
      data := data + bytes;
      alreadyHave := alreadyHave + |bytes|;
    }
    if |data| > |headerPart| + length.value {
      data := data[..|headerPart| + length.value];
    }
  }

  // ---------------------------------------------------------------- the pieces fit together

  /** What one accepted header line does to the content length that the strict parser remembers. */
  lemma LineLength(line: string, f: Fields)
    ensures StrictLine(line, f).Good? ==>
            var colon, t := Find(line, ":", 0), StrictLine(line, f).fields.contentLength;
            && colon.Some?
            && (f.contentLength != "" ==> t == f.contentLength)
            && t == if Lowercase(line[..colon.value]) == "content-length" then TrimBlanks(line[colon.value + 1..])
                    else f.contentLength
  {
    hide Find, IsToken, NoControls, TrimBlanks, Lowercase;
  }

  /**
   * While the strict scan succeeds, the length scan either gives up or finds the number that
   * the strict parser takes its content length from.
   */
  lemma {:induction false} LengthsAgree(raw: string, part: string, headerEnd: nat, start: nat, f: Fields,
                                        length: Option<nat>, limits: Limits)
    requires headerEnd + 4 <= |raw| && part == raw[..headerEnd + 4] && start <= headerEnd + 2
    requires At(raw, CRLF, headerEnd + 2)
    requires ScanFields(raw, headerEnd, start, f, limits, true).Good?
    requires length.Some? ==> Digits(f.contentLength) && length.value == Number(f.contentLength)
    ensures var t := ScanFields(raw, headerEnd, start, f, limits, true).fields.contentLength;
            var n := ScanLength(part, start, length);
            && (n.Some? ==> Digits(t) && n.value == Number(t))
            && (f.contentLength != "" ==> t == f.contentLength)
    decreases headerEnd + 4 - start
  {
    hide Find, At, StrictLine, PlainLine, TrimBlanks, Number, Lowercase;
    EndIsNear(raw, headerEnd, start);
    var end := Find(raw, CRLF, start).value;
    FindInPrefix(part, raw, CRLF, start);
    assert Find(part, CRLF, start) == Some(end);
    if end != start {
      var line := raw[start..end];
      assert part[start..end] == line;
      var counted := f.(count := f.count + 1);
      LineLength(line, counted);
      var next := StrictLine(line, counted).fields;
      var colon := Find(line, ":", 0);
      FoundAt(line, ":", 0);
      var after := if Lowercase(line[..colon.value]) != "content-length" then length
                   else if Digits(next.contentLength) then Some(Number(next.contentLength)) else None;
      LengthsAgree(raw, part, headerEnd, end + 2, next, after, limits);
    }
  }

  lemma HeaderLengthAgrees(raw: string, part: string, limits: Limits)
    requires HeaderPartOf(part, raw) && ParseHead(raw, limits, true).GoodHead?
    ensures HeaderLength(part).Some? ==>
              var t := ParseHead(raw, limits, true).fields.contentLength;
              Digits(t) && HeaderLength(part).value == Number(t)
  {
    hide Find, ScanFields, ScanLength, ParseRequestLine, Digits, Number;
    var headerEnd := Find(raw, BLANK_LINE, 0).value;
    BlankLineIsTwoBreaks(raw, headerEnd);
    EndIsNear(raw, headerEnd, 0);
    FindInPrefix(part, raw, CRLF, 0);
    var lineEnd := Find(raw, CRLF, 0).value;
    LengthsAgree(raw, part, headerEnd, lineEnd + 2, NO_FIELDS, None, limits);
  }

  /** The completed request begins with the header part it was made from. */
  lemma CompletedBegins(part: string, after: string, maxBodyBytes: nat)
    requires HeaderPartOf(part, part + after)
    ensures var raw := CompleteRequest(part, after, maxBodyBytes);
            |part| <= |raw| && HeaderPartOf(part, raw)
  {
    hide Find, HeaderLength;
    var raw := CompleteRequest(part, after, maxBodyBytes);
    var whole := part + after;
    assert raw == whole[..|raw|];
    FindInPrefix(raw, whole, BLANK_LINE, 0);
  }

  /** The body is the declared number of bytes after the headers. */
  predicate Exact(q: Request, after: string) {
    if q.hasContentLength then q.contentLength <= |after| && q.body == after[..q.contentLength] else q.body == ""
  }

  /**
   * A request read off a connection and then accepted by the strict parser: the body is exactly
   * the declared bytes that follow the headers, or empty, wherever the sums of the length
   * check stay below 2^64.
   */
  lemma BodyIsExact(part: string, after: string, limits: Limits)
    requires |part| + limits.maxBodyBytes < SIZE_LIMIT
    ensures var r := ParseStrict(CompleteRequest(part, after, limits.maxBodyBytes), limits);
            HeaderPartOf(part, part + after) && r.Accepted? ==> Exact(r.request, after)
  {
    hide ParseHead, HeaderLength, Digits, Number, Find;
    var raw := CompleteRequest(part, after, limits.maxBodyBytes);
    if !HeaderPartOf(part, part + after) || ParseStrict(raw, limits).Rejected? { return; }
    CompletedBegins(part, after, limits.maxBodyBytes);
    HeaderLengthAgrees(raw, part, limits);
    HeadHasNoLength(part, limits);
    HeadsAgree(raw, part, limits);
    var q := ParseStrict(raw, limits).request;
    if q.hasContentLength {
      var n := q.contentLength;
      assert AddSize(|part|, n) == |part| + n;
      assert raw == part || raw == part + after[..Min(n, |after|)];
    }
  }

  /**
   * The exact condition: of what a peer sends within the address space, the body of an accepted
   * request is the declared bytes if and only if the sum in the length check does not wrap.
   */
  lemma BodyIsExactIffNoWrap(part: string, after: string, limits: Limits)
    requires |part| + |after| < SIZE_LIMIT
    ensures var r := ParseStrict(CompleteRequest(part, after, limits.maxBodyBytes), limits);
            HeaderPartOf(part, part + after) && r.Accepted? ==>
            (Exact(r.request, after)
             <==> (r.request.hasContentLength ==> |part| + r.request.contentLength < SIZE_LIMIT))
  {
    hide ParseHead, HeaderLength, Digits, Number, Find;
    var raw := CompleteRequest(part, after, limits.maxBodyBytes);
    if !HeaderPartOf(part, part + after) || ParseStrict(raw, limits).Rejected? { return; }
    CompletedBegins(part, after, limits.maxBodyBytes);
    HeaderLengthAgrees(raw, part, limits);
    HeadHasNoLength(part, limits);
    HeadsAgree(raw, part, limits);
    var q := ParseStrict(raw, limits).request;
    if q.hasContentLength && |part| + q.contentLength < SIZE_LIMIT {
      var n := q.contentLength;
      assert AddSize(|part|, n) == |part| + n;
      assert raw == part || raw == part + after[..Min(n, |after|)];
    }
  }

  // ---------------------------------------------------------------- one request, start to end

  /**
   * The way of a request that is completed in memory: nothing when the headers fail, otherwise
   * what the parsers and the size check between them say.
   */
  function Served(sent: string, maxRequestBytes: nat, limits: Limits): Option<ParseResult> {
    match Outcome(sent, maxRequestBytes)
    case Fails(_) => None
    case Yields(part) =>
      var plain := ParsePlain(part, limits);
      if plain.Rejected? then Some(plain) else
        var raw := CompleteRequest(part, sent[|part|..], limits.maxBodyBytes);
        if raw == "" || |raw| > maxRequestBytes then Some(Rejected(400)) else Some(ParseStrict(raw, limits))
  }

  predicate Accepts(sent: string, maxRequestBytes: nat, limits: Limits) {
    var r := Served(sent, maxRequestBytes, limits);
    r.Some? && r.value.Accepted?
  }

  /** Whatever the sizes of the chunks, the result is the same function of the bytes sent. */
  method Serve(stream: ByteStream, maxRequestBytes: nat, limits: Limits) returns (r: Option<ParseResult>)
    requires stream.Valid()
    modifies stream
    ensures r == Served(stream.data[old(stream.pos)..], maxRequestBytes, limits)
  {
    hide CompleteRequest, ParsePlain, ParseStrict;
    ghost var sent := stream.data[stream.pos..];
    ghost var from := stream.pos;
    var headers := ReadHeadersOnly(stream, maxRequestBytes);
    if !headers.Headers? { return None; }
    var part, leftover := headers.headerPart, headers.leftover;
    var plain := HeadersOnly.Parse(part, limits);
    if plain.Rejected? { return Some(plain); }
    ghost var after := leftover + stream.data[stream.pos..];
    assert part + after == sent by {
      assert part + leftover == stream.data[from..stream.pos];
    }
    assert after == sent[|part|..];
    var raw := CompleteRequestInMemory(stream, part, leftover, limits.maxBodyBytes);
    if raw == "" || |raw| > maxRequestBytes { return Some(Rejected(400)); }
    var strict := StrictHttp.Parse(raw, limits);
    return Some(strict);
  }

  /**
   * A request that is served is the headers-only parser's request plus a body, and the body is
   * exactly the declared number of bytes after the first blank line, or empty (where the length
   * check cannot wrap).
   */
  lemma ServedBodyIsExact(sent: string, maxRequestBytes: nat, limits: Limits)
    ensures Accepts(sent, maxRequestBytes, limits) ==>
            var q := Served(sent, maxRequestBytes, limits).value.request;
            var blank := Find(sent, BLANK_LINE, 0);
            && blank.Some? && blank.value + 4 <= maxRequestBytes
            && ParsePlain(sent[..blank.value + 4], limits) == Accepted(q.(body := ""))
            && (!q.hasContentLength ==> q.contentLength == 0)
            && (blank.value + 4 + limits.maxBodyBytes < SIZE_LIMIT ==>
                  && blank.value + 4 + q.contentLength <= |sent|
                  && q.body == sent[blank.value + 4..blank.value + 4 + q.contentLength])
  {
    hide Find, Served, Digits, CompleteRequest, ParsePlain, ParseStrict, HeaderLength, HeaderPartOf, ControlFree,
      BodyPresent;
    ServedIs(sent, maxRequestBytes, limits);
    if !Accepts(sent, maxRequestBytes, limits) { return; }
    var part := sent[..Find(sent, BLANK_LINE, 0).value + 4];
    var after := sent[|part|..];
    var raw := CompleteRequest(part, after, limits.maxBodyBytes);
    CompletedBegins(part, after, limits.maxBodyBytes);
    ParsersAgree(raw, part, limits);
    LengthWithinLimit(part, limits);
    if |part| + limits.maxBodyBytes >= SIZE_LIMIT { return; }
    BodyIsExact(part, after, limits);
    var n := ParseStrict(raw, limits).request.contentLength;
    if ParseStrict(raw, limits).request.hasContentLength {
      assert after[..n] == sent[|part|..|part| + n];
    }
  }

  lemma ServedIs(sent: string, maxRequestBytes: nat, limits: Limits)
    ensures Accepts(sent, maxRequestBytes, limits) ==>
            var blank := Find(sent, BLANK_LINE, 0);
            && blank.Some? && blank.value + 4 <= maxRequestBytes && blank.value + 4 <= |sent|
            && var part, after := sent[..blank.value + 4], sent[blank.value + 4..];
            && HeaderPartOf(part, part + after)
            && ParsePlain(part, limits).Accepted?
            && Served(sent, maxRequestBytes, limits)
               == Some(ParseStrict(CompleteRequest(part, after, limits.maxBodyBytes), limits))
  {
    hide Find, CompleteRequest, ParsePlain, ParseStrict;
    FoundAt(sent, BLANK_LINE, 0);
    var blank := Find(sent, BLANK_LINE, 0);
    if blank.Some? {
      var k := blank.value + 4;
      assert sent[..k] + sent[k..] == sent;
    }
  }

  lemma LengthWithinLimit(part: string, limits: Limits)
    requires ParsePlain(part, limits).Accepted?
    ensures var q := ParsePlain(part, limits).request;
            q.contentLength <= limits.maxBodyBytes && (!q.hasContentLength ==> q.contentLength == 0)
  {
    hide ParseHead, Digits, Number;
    HeadCountsNothing(part, limits);
  }

  lemma HeadCountsNothing(part: string, limits: Limits)
    ensures var head := ParseHead(part, limits, false);
            head.GoodHead? ==> !head.request.hasContentLength && head.request.contentLength == 0
  {
  }

  // ---------------------------------------------------------------- the length check wraps

  const FIRST_LINE: string := "GET / HTTP/1.0"

  /** Content-Length: 18446744073709551615 */
  function LengthLine(): string {
    "Content-Length" + ":" + (" " + Decimal(SIZE_LIMIT - 1))
  }

  /** A complete request: a request line, the largest length there is, a blank line, and no body. */
  function WrappingRequest(): string {
    FIRST_LINE + CRLF + (LengthLine() + BLANK_LINE)
  }

  lemma DigitsAreHarmless(d: string)
    requires Digits(d)
    ensures Misses(d, '\n') && NoControls(d) && TrimBlanks(" " + d) == d
  {
    hide TrimLeft, TrimRight;
    TrimPadded(d, IsBlank);
  }

  lemma MissesBoth(a: string, b: string, c: char)
    requires Misses(a, c) && Misses(b, c)
    ensures Misses(a + b, c)
  {
  }

  lemma LiteralsHaveNoBreak()
    ensures Misses(FIRST_LINE, '\n') && Misses("Content-Length", '\n') && Misses("Content-Length", ':')
    ensures Misses(":", '\n') && Misses(" ", '\n')
  {
  }

  lemma LengthLineHasNoBreak()
    ensures Misses(LengthLine(), '\n')
  {
    hide Decimal, Misses, TrimBlanks, NoControls;
    var d := Decimal(SIZE_LIMIT - 1);
    DigitsAreHarmless(d);
    LiteralsHaveNoBreak();
    MissesBoth("Content-Length", ":", '\n');
    MissesBoth(" ", d, '\n');
    MissesBoth("Content-Length" + ":", " " + d, '\n');
  }

  /** Where the breaks are in two lines that a blank line follows. */
  lemma TwoLineBreaks(x: string, y: string)
    requires Misses(x, '\n') && Misses(y, '\n') && y != "" && y[0] != '\r'
    ensures var raw, m, n := x + CRLF + (y + BLANK_LINE), |x|, |y|;
            && Find(raw, CRLF, 0) == Some(m) && Find(raw, BLANK_LINE, 0) == Some(m + 2 + n) && |raw| == m + n + 6
            && Find(raw, CRLF, m + 2) == Some(m + 2 + n) && Find(raw, CRLF, m + n + 4) == Some(m + n + 4)
            && raw[..m] == x && raw[m + 2..m + 2 + n] == y
  {
    hide Find, Misses;
    var rest := y + BLANK_LINE;
    var raw := x + CRLF + rest;
    FirstBreak(x, rest);
    BlankAfterLine(y);
    SkipLine(x, rest, CRLF);
    assert CRLF + CRLF == BLANK_LINE;
    BreaksAfter(x, y);
  }

  lemma BlankAfterLine(y: string)
    requires Misses(y, '\n') && y != "" && y[0] != '\r'
    ensures var rest := y + BLANK_LINE;
            !StartsWith(rest, CRLF) && Find(rest, CRLF, 0) == Some(|y|) && Find(rest, BLANK_LINE, 0) == Some(|y|)
  {
    hide Find, Misses;
    var rest := y + BLANK_LINE;
    var pair := CRLF + CRLF;
    assert pair == BLANK_LINE;
    assert y + CRLF + CRLF == y + pair;
    FirstBreak(y, CRLF);
    assert y + BLANK_LINE + "" == rest;
    BlankAtFirstBreak(y, "");
    assert rest[..2][0] == y[0];
  }

  lemma BreaksAfter(x: string, y: string)
    requires Misses(y, '\n') && y != "" && y[0] != '\r'
    ensures var raw, m, n := x + CRLF + (y + BLANK_LINE), |x|, |y|;
            && Find(raw, CRLF, m + 2) == Some(m + 2 + n) && Find(raw, CRLF, m + n + 4) == Some(m + n + 4)
            && raw[..m] == x && raw[m + 2..m + 2 + n] == y
  {
    hide Find, Misses, At, StartsWith;
    var rest := y + BLANK_LINE;
    var raw, k := x + CRLF + rest, |x| + |y| + 4;
    BlankAfterLine(y);
    FindInSuffix(raw, CRLF, |x| + 2);
    assert raw[|x| + 2..] == rest;
    assert raw[k..k + 2] == BLANK_LINE[2..] == CRLF;
    LastBreak(raw, k);
  }

  /** Where the breaks of the request are. */
  lemma WrappingBreaks()
    ensures var raw, n := WrappingRequest(), |LengthLine()|;
            && Find(raw, CRLF, 0) == Some(14) && Find(raw, BLANK_LINE, 0) == Some(16 + n) && |raw| == 20 + n
            && Find(raw, CRLF, 16) == Some(16 + n) && Find(raw, CRLF, 18 + n) == Some(18 + n)
            && raw[..14] == FIRST_LINE && raw[16..16 + n] == LengthLine()
  {
    hide Find, Misses, LengthLine;
    LengthLineHasNoBreak();
    LiteralsHaveNoBreak();
    LengthLineStarts();
    TwoLineBreaks(FIRST_LINE, LengthLine());
  }

  lemma LastBreak(s: string, k: nat)
    requires k + 2 <= |s| && s[k..k + 2] == CRLF
    ensures Find(s, CRLF, k) == Some(k)
  {
  }

  lemma LengthLineStarts()
    ensures |LengthLine()| >= 14 && LengthLine()[0] == 'C'
  {
    hide Decimal;
  }

  lemma FirstLineParses(limits: Limits)
    requires limits.maxMethodBytes >= 3 && limits.maxUriBytes >= 1
    ensures ParseRequestLine(FIRST_LINE, limits) == GoodLine("GET", "/", "HTTP/1.0")
  {
    hide Words;
    HttpMeaning.WordsAreThree(FIRST_LINE, "GET", "/", "HTTP/1.0");
    assert HttpMeaning.Spaced(FIRST_LINE, "", "GET", " ", "/", " ", "HTTP/1.0", "");
  }

  lemma LengthLineParses(f: Fields)
    requires f.contentLength == ""
    ensures var d := Decimal(SIZE_LIMIT - 1);
            StrictLine(LengthLine(), f) == Good(Fields(f.headers["content-length" := d], d, f.sawHost, f.count))
  {
    hide Find, Decimal, TrimBlanks, NoControls;
    var d := Decimal(SIZE_LIMIT - 1);
    LiteralsHaveNoBreak();
    FirstSeparator("Content-Length", ":", " " + d);
    DigitsAreHarmless(d);
    assert LengthLine()[..14] == "Content-Length" && LengthLine()[15..] == " " + d;
    NameOfLength();
  }

  lemma NameOfLength()
    ensures IsToken("Content-Length") && Lowercase("Content-Length") == "content-length"
  {
  }

  predicate LargeLimits(limits: Limits) {
    && limits.maxBodyBytes == SIZE_LIMIT - 1 && limits.maxHeaders >= 1 && limits.maxMethodBytes >= 3
    && limits.maxUriBytes >= 1
    && limits.maxHeaderLineBytes >= |LengthLine()|
  }

  lemma WrappingHead(limits: Limits)
    requires LargeLimits(limits)
    ensures var d := Decimal(SIZE_LIMIT - 1);
            var fields := Fields(map["content-length" := d], d, false, 1);
            ParseHead(WrappingRequest(), limits, true)
            == GoodHead(Request("GET", "/", "HTTP/1.0", fields.headers, false, 0, ""), fields, |WrappingRequest()|)
  {
    hide Find, Decimal, WrappingRequest, LengthLine, ParseRequestLine, StrictLine, PlainLine;
    WrappingBreaks();
    FirstLineParses(limits);
    LengthLineParses(NO_FIELDS.(count := 1));
    LengthLineStarts();
  }

  /**
   * The length check wrapping on a complete request: sent by a peer that then closes, it is
   * accepted with the largest declared length there is and an empty body.
   */
  lemma WrappedLengthPasses(maxRequestBytes: nat, limits: Limits)
    requires LargeLimits(limits) && maxRequestBytes >= |WrappingRequest()|
    ensures var q := Request("GET", "/", "HTTP/1.0", map["content-length" := Decimal(SIZE_LIMIT - 1)], true,
                             SIZE_LIMIT - 1, "");
            && ParseStrict(WrappingRequest(), limits) == Accepted(q)
            && Served(WrappingRequest(), maxRequestBytes, limits) == Some(Accepted(q))
  {
    hide Find, Decimal, ParseHead, ParsePlain, ControlFree;
    var raw := WrappingRequest();
    WrappingHead(limits);
    DecimalRoundTrip(SIZE_LIMIT - 1);
    WrappingBreaks();
    LengthLineStarts();
    assert raw[..|raw|] == raw && raw[|raw|..] == "";
    ParsersAgree(raw, raw, limits);
    assert CompleteRequest(raw, "", limits.maxBodyBytes) == raw;
  }
}
