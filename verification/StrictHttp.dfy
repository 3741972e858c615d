/** `StrictHttpParser` (src/StrictHttp.cpp) as it is in the source: cursors, a map and loops. */
module StrictHttp {
  import opened Basics
  import opened Text
  import opened HttpParsers

  method CheckToken(value: string) returns (ok: bool)
    ensures ok == IsToken(value)
  {
    if value == "" { return false; }
    for i := 0 to |value|
      invariant forall k :: 0 <= k < i ==> IsTokenChar(value[k])
    {
      if !(IsAlnum(value[i]) || value[i] in "!#$%&'*+-.^_`|~") { return false; }
    }
    return true;
  }

  method CheckDigits(value: string) returns (ok: bool)
    ensures ok == Digits(value)
  {
    if value == "" { return false; }
    for i := 0 to |value|
      invariant forall k :: 0 <= k < i ==> IsDigit(value[k])
    {
      if !IsDigit(value[i]) { return false; }
    }
    return true;
  }

  method CheckControls(value: string) returns (ok: bool)
    ensures ok == NoControls(value)
  {
    for i := 0 to |value|
      invariant forall k :: 0 <= k < i ==> !IsCtl(value[k]) || value[k] == '\t'
    {
      if IsCtl(value[i]) && value[i] != '\t' { return false; }
    }
    return true;
  }

  /** Spaces and tabs are erased from the front and popped from the back, one by one. */
  method Trim(text: string) returns (value: string)
    ensures value == TrimBlanks(text)
  {
    value := text;
    while value != "" && IsBlank(value[0])
      invariant TrimLeft(value, IsBlank) == TrimLeft(text, IsBlank)
      decreases |value|
    {
      value := value[1..];
    }
    while value != "" && IsBlank(value[|value| - 1])
      invariant TrimRight(value, IsBlank) == TrimBlanks(text)
      decreases |value|
    {
      value := value[..|value| - 1];
    }
  }

  /** `std::stoull`: nothing when the number does not fit. */
  method ParseNumber(digits: string) returns (n: Option<nat>)
    requires Digits(digits)
    ensures n == if Number(digits) < SIZE_LIMIT then Some(Number(digits)) else None
  {
    var value := 0;
    for i := 0 to |digits|
      invariant value == Number(digits[..i])
    {
      assert digits[..i + 1][..i] == digits[..i];
      value := 10 * value + (digits[i] as int - '0' as int);
    }
    assert digits[..|digits|] == digits;
    n := if value < SIZE_LIMIT then Some(value) else None;
  }

  /** The loop body from the continuation-line test to the entry in the map. */
  method TakeLine(line: string, f: Fields) returns (r: Scan)
    ensures r == StrictLine(line, f)
  {
    hide Find, IsToken, NoControls, TrimBlanks, Lowercase;
    if line != "" && (line[0] == ' ' || line[0] == '\t') { return Bad(400); }
    var colon := Find(line, ":", 0);
    if colon.None? { return Bad(400); }
    var name := line[..colon.value];
    var value := Trim(line[colon.value + 1..]);
    var ok := CheckToken(name);
    if !ok { return Bad(400); }
    ok := CheckControls(value);
    if !ok { return Bad(400); }
    name := Lowercase(name);
    r := Enter(f, name, value);
  }

  method Enter(f: Fields, name: string, value: string) returns (r: Scan)
    ensures r == Store(f, name, value)
  {
    var sawHost, contentLength := f.sawHost, f.contentLength;
    if name == "host" {
      if sawHost { return Bad(400); }
      sawHost := true;
    }
    if name == "transfer-encoding" { return Bad(501); }
    if name == "content-length" {
      if contentLength != "" && contentLength != value { return Bad(400); }
      contentLength := value;
    }
    r := Good(Fields(f.headers[name := value], contentLength, sawHost, f.count));
  }

  /** The header loop. */
  method ParseFields(raw: string, headerEnd: nat, from: nat, limits: Limits) returns (r: Scan)
    requires from <= |raw|
    ensures r == ScanFields(raw, headerEnd, from, NO_FIELDS, limits, true)
  {
    hide Find, StrictLine, PlainLine;
    var start := from;
    var f := NO_FIELDS;
    while true
      invariant start <= |raw|
      invariant ScanFields(raw, headerEnd, from, NO_FIELDS, limits, true)
                == ScanFields(raw, headerEnd, start, f, limits, true)
      decreases |raw| - start
    {
      var found := Find(raw, CRLF, start);
      if found.None? { return Bad(400); }
      var end := found.value;
      if end == start { return Good(f); }
      if end > headerEnd { return Bad(400); }
      if end - start > limits.maxHeaderLineBytes { return Bad(431); }
      f := f.(count := f.count + 1);
      if f.count > limits.maxHeaders { return Bad(431); }
      var taken := TakeLine(raw[start..end], f);
      if taken.Bad? { return taken; }
      f := taken.fields;
      start := end + 2;
    }
  }

  /** From the end of the header loop on. */
  method TakeBody(raw: string, bodyOffset: nat, q: Request, contentLength: string, limits: Limits)
    returns (r: ParseResult)
    requires bodyOffset <= |raw|
    ensures r == FinishStrict(raw, bodyOffset, q, contentLength, limits)
  {
    hide Number;
    if contentLength == "" { return Accepted(q); }
    var digits := CheckDigits(contentLength);
    if !digits { return Rejected(400); }
    var n := ParseNumber(contentLength);
    if n.None? { return Rejected(400); }
    var len := n.value;
    if len > limits.maxBodyBytes { return Rejected(413); }
    if |raw| < AddSize(bodyOffset, len) { return Rejected(400); }
    return Accepted(q.(hasContentLength := true, contentLength := len,
                       body := raw[bodyOffset..Min(|raw|, bodyOffset + len)]));
  }

  /** `StrictHttpParser::parse`. */
  method Parse(raw: string, limits: Limits) returns (r: ParseResult)
    ensures r == ParseStrict(raw, limits)
  {
    hide Find, ScanFields, ParseRequestLine, FinishStrict;
    if raw == "" { EmptyHasNoBlankLine(); return Rejected(400); }
    var blank := Find(raw, BLANK_LINE, 0);
    if blank.None? { return Rejected(400); }
    var headerEnd := blank.value;
    var end := Find(raw, CRLF, 0);
    if end.None? || end.value > headerEnd { return Rejected(400); }
    if end.value > limits.maxHeaderLineBytes { return Rejected(431); }
    var first := ParseRequestLine(raw[..end.value], limits);
    if first.BadLine? { return Rejected(first.status); }
    var scan := ParseFields(raw, headerEnd, end.value + 2, limits);
    if scan.Bad? { return Rejected(scan.status); }
    if first.version == "HTTP/1.1" && !scan.fields.sawHost { return Rejected(400); }
    var q := Request(first.verb, first.target, first.version, scan.fields.headers, false, 0, "");
    r := TakeBody(raw, headerEnd + 4, q, scan.fields.contentLength, limits);
  }

  lemma EmptyHasNoBlankLine()
    ensures Find("", BLANK_LINE, 0) == None
  {
  }
}

/** `parseHeadersOnly` (src/Server.cpp:175-264): the same job written a second time. */
module HeadersOnly {
  import opened Basics
  import opened Text
  import opened HttpParsers
  import StrictHttp

  /** Here the name is lower-cased before the token test and the value is taken as it is. */
  method TakeLine(line: string, f: Fields) returns (r: Scan)
    ensures r == PlainLine(line, f)
  {
    hide Find, IsToken, TrimBlanks, Lowercase;
    if line != "" && (line[0] == ' ' || line[0] == '\t') { return Bad(400); }
    var colon := Find(line, ":", 0);
    if colon.None? { return Bad(400); }
    var name := Lowercase(line[..colon.value]);
    var value := StrictHttp.Trim(line[colon.value + 1..]);
    var ok := StrictHttp.CheckToken(name);
    if !ok { return Bad(400); }
    r := StrictHttp.Enter(f, name, value);
  }

  method ParseFields(headerPart: string, headerEnd: nat, from: nat, limits: Limits) returns (r: Scan)
    requires from <= |headerPart|
    ensures r == ScanFields(headerPart, headerEnd, from, NO_FIELDS, limits, false)
  {
    hide Find, StrictLine, PlainLine;
    var start := from;
    var f := NO_FIELDS;
    while true
      invariant start <= |headerPart|
      invariant ScanFields(headerPart, headerEnd, from, NO_FIELDS, limits, false)
             == ScanFields(headerPart, headerEnd, start, f, limits, false)
      decreases |headerPart| - start
    {
      var found := Find(headerPart, CRLF, start);
      if found.None? { return Bad(400); }
      var end := found.value;
      if end == start { return Good(f); }
      if end > headerEnd { return Bad(400); }
      if end - start > limits.maxHeaderLineBytes { return Bad(431); }
      f := f.(count := f.count + 1);
      if f.count > limits.maxHeaders { return Bad(431); }
      var taken := TakeLine(headerPart[start..end], f);
      if taken.Bad? { return taken; }
      f := taken.fields;
      start := end + 2;
    }
  }

  method Parse(headerPart: string, limits: Limits) returns (r: ParseResult)
    ensures r == ParsePlain(headerPart, limits)
  {
    hide Find, ScanFields, ParseRequestLine, Number;
    var blank := Find(headerPart, BLANK_LINE, 0);
    if blank.None? { return Rejected(400); }
    var headerEnd := blank.value;
    var lineEnd := Find(headerPart, CRLF, 0);
    if lineEnd.None? || lineEnd.value > headerEnd { return Rejected(400); }
    if lineEnd.value > limits.maxHeaderLineBytes { return Rejected(431); }
    var first := ParseRequestLine(headerPart[..lineEnd.value], limits);
    if first.BadLine? { return Rejected(first.status); }
    var scan := ParseFields(headerPart, headerEnd, lineEnd.value + 2, limits);
    if scan.Bad? { return Rejected(scan.status); }
    if first.version == "HTTP/1.1" && !scan.fields.sawHost { return Rejected(400); }
    var q := Request(first.verb, first.target, first.version, scan.fields.headers, false, 0, "");
    if scan.fields.contentLength == "" { return Accepted(q); }
    var digits := StrictHttp.CheckDigits(scan.fields.contentLength);
    if !digits { return Rejected(400); }
    var n := StrictHttp.ParseNumber(scan.fields.contentLength);
    if n.None? { return Rejected(400); }
    if n.value > limits.maxBodyBytes { return Rejected(413); }
    return Accepted(q.(hasContentLength := true, contentLength := n.value));
  }
}
