/**
 * The two multipart parsers as functions of the bytes they read (src/Multipart.cpp): one
 * searches a buffer for the boundary, the other reads a spool file line by line.
 */
module MultipartModel {
  import opened Basics
  import opened Text
  import opened UploadNames

  datatype UploadLimits = UploadLimits(maxParts: nat, maxFileBytes: nat, maxFieldBytes: nat)

  /** A file in the upload directory, with what was written to it. */
  datatype SavedFile = SavedFile(field: string, original: string, stored: string, content: string)

  /** The files listed in the result; a failure keeps those of the parts before it. */
  datatype UploadResult = Failed(status: nat, files: seq<SavedFile>) | Saved(files: seq<SavedFile>)

  /** The unique prefix that the k-th saved file gets: a clock reading. */
  type Stamps = nat -> string

  // ---------------------------------------------------------------- the boundary

  predicate IsBoundaryChar(c: char) {
    IsAlnum(c) || c in "'()+_,-./:=?"
  }

  predicate IsBoundary(s: string) {
    0 < |s| <= 70 && forall k :: 0 <= k < |s| ==> IsBoundaryChar(s[k])
  }

  function UpTo(s: string, pattern: string): string {
    var k := Find(s, pattern, 0);
    if k.Some? then s[..k.value] else s
  }

  function Unquoted(s: string): string {
    if |s| >= 2 && s[0] == '"' && s[|s| - 1] == '"' then s[1..|s| - 1] else s
  }

  function ExtractBoundary(contentType: string): (r: Option<string>)
    ensures r.Some? ==> IsBoundary(r.value)
  {
    var lower := Lowercase(contentType);
    var at := Find(lower, "boundary=", 0);
    if Find(lower, "multipart/form-data", 0).None? || at.None? then None else
      var text := UpTo(contentType[at.value + 9..], ";");
      if Find(text, "\r", 0).Some? || Find(text, "\n", 0).Some? then None else
        var boundary := Unquoted(TrimSpaces(text));
        if IsBoundary(boundary) then Some(boundary) else None
  }

  // ---------------------------------------------------------------- part headers

  function HeaderLine(line: string, headers: map<string, string>): map<string, string> {
    var colon := Find(line, ":", 0);
    if colon.None? then headers
    else headers[Lowercase(TrimRight(line[..colon.value], IsSpace)) := TrimBlanks(line[colon.value + 1..])]
  }

  /** `parsePartHeaders` on the text that is left. */
  function PartHeaders(raw: string, headers: map<string, string>): map<string, string>
    decreases |raw|
  {
    if raw == "" then headers else
      var end := Find(raw, CRLF, 0);
      if end.None? then HeaderLine(raw, headers)
      else PartHeaders(raw[end.value + 2..], HeaderLine(raw[..end.value], headers))
  }

  function DispositionValue(disposition: string, key: string): string {
    var quoted := Find(disposition, key + "=\"", 0);
    if quoted.Some? then
      var text := disposition[quoted.value + |key| + 2..];
      var end := Find(text, "\"", 0);
      if end.None? then "" else text[..end.value]
    else
      var plain := Find(disposition, key + "=", 0);
      if plain.None? then "" else UpTo(disposition[plain.value + |key| + 1..], ";")
  }

  datatype Disposition = Absent | Field | File(field: string, original: string)

  function DispositionOf(headers: map<string, string>): Disposition {
    if "content-disposition" !in headers then Absent else
      var text := headers["content-disposition"];
      var original := DispositionValue(text, "filename");
      if original == "" then Field else File(DispositionValue(text, "name"), original)
  }

  // ---------------------------------------------------------------- the parser over a buffer

  datatype PartResult = Skipped | Refused(status: nat) | Kept(file: SavedFile)

  function TakePart(d: Disposition, content: string, limits: UploadLimits, stamp: string): PartResult {
    match d
    case Absent => Skipped
    case Field => if |content| > limits.maxFieldBytes then Refused(413) else Skipped
    case File(field, original) =>
      if |content| > limits.maxFileBytes then Refused(413)
      else if !IsSafe(Sanitize(original)) then Refused(415)
      else Kept(SavedFile(field, original, StoredName(stamp, Sanitize(original)), content))
  }

  /** The loop of `saveUploads`; `rest` is what follows an occurrence of the delimiter. */
  function Parts(rest: string, delimiter: string, limits: UploadLimits, count: nat, files: seq<SavedFile>,
                 stamps: Stamps): UploadResult
    decreases |rest|
  {
    if StartsWith(rest, "--") then Saved(files)
    else if !StartsWith(rest, CRLF) then Failed(400, files)
    else
      var s := rest[2..];
      var next := Find(s, CRLF + delimiter, 0);
      if next.None? then Failed(400, files)
      else if count + 1 > limits.maxParts then Failed(413, files)
      else
        var part := s[..next.value];
        var headerEnd := Find(part, BLANK_LINE, 0);
        if headerEnd.None? then Failed(400, files) else
          var d := DispositionOf(PartHeaders(part[..headerEnd.value], map[]));
          var r := TakePart(d, part[headerEnd.value + 4..], limits, stamps(|files|));
          if r.Refused? then Failed(r.status, files)
          else Parts(s[next.value + 2 + |delimiter|..], delimiter, limits, count + 1,
                     if r.Kept? then files + [r.file] else files, stamps)
  }

  function SaveUploads(body: string, contentType: string, limits: UploadLimits, stamps: Stamps): UploadResult {
    var boundary := ExtractBoundary(contentType);
    if boundary.None? then Failed(415, [])
    else if limits.maxParts == 0 || limits.maxFileBytes == 0 then Failed(500, [])
    else
      var delimiter := "--" + boundary.value;
      var at := Find(body, delimiter, 0);
      if at.None? then Failed(400, [])
      else Parts(body[at.value + |delimiter|..], delimiter, limits, 0, [], stamps)
  }

  // ---------------------------------------------------------------- the parser over lines

  function Chomp(line: string): string {
    if line != "" && line[|line| - 1] == '\r' then line[..|line| - 1] else line
  }

  datatype LineRead = NoLine | Line(text: string, rest: string)

  /** `std::getline` and the removal of one CR; a last line needs no LF. */
  function GetLine(s: string): (r: LineRead)
    ensures r.Line? ==> |r.rest| < |s|
  {
    if s == "" then NoLine else
      var end := Find(s, "\n", 0);
      if end.None? then Line(Chomp(s), "") else Line(Chomp(s[..end.value]), s[end.value + 1..])
  }

  datatype HeaderBlock = HeaderBlock(raw: string, rest: string, ended: bool)

  function ReadHeaders(s: string, raw: string): (r: HeaderBlock)
    ensures |r.rest| <= |s| && (!r.ended ==> r.rest == "")
    decreases |s|
  {
    var line := GetLine(s);
    if line.NoLine? then HeaderBlock(raw, s, false)
    else if line.text == "" then HeaderBlock(raw, line.rest, true)
    else ReadHeaders(line.rest, raw + line.text + CRLF)
  }

  datatype ContentRead = TooLarge | Unterminated | Content(text: string, final: bool, rest: string)

  /** The content loop: a line is written only when the next one turns out not to be a delimiter. */
  function ReadContent(s: string, delimiter: string, limit: nat, written: string,
                       pending: Option<string>): (r: ContentRead)
    ensures r.Content? ==> |r.rest| < |s|
    decreases |s|
  {
    var line := GetLine(s);
    if line.NoLine? then Unterminated
    else if line.text == delimiter || line.text == delimiter + "--" then
      if pending.None? then Content(written, line.text == delimiter + "--", line.rest)
      else if |written| + |pending.value| > limit then TooLarge
      else Content(written + pending.value, line.text == delimiter + "--", line.rest)
    else if pending.Some? && |written| + |pending.value| + 1 > limit then TooLarge
    else ReadContent(line.rest, delimiter, limit,
                     if pending.Some? then written + pending.value + "\n" else written, Some(line.text))
  }

  /** The loop of `saveUploadsFromSpoolFile`; `rest` is what follows a delimiter line. */
  function SpoolParts(rest: string, delimiter: string, limits: UploadLimits, count: nat, files: seq<SavedFile>,
                      stamps: Stamps): UploadResult
    decreases |rest|
  {
    if count + 1 > limits.maxParts then Failed(413, files) else
      var block := ReadHeaders(rest, "");
      if !block.ended && block.raw == "" then Failed(400, files) else
        var d := DispositionOf(PartHeaders(block.raw, map[]));
        if d.File? && !IsSafe(Sanitize(d.original)) then Failed(415, files) else
          var limit := if d.File? then limits.maxFileBytes else limits.maxFieldBytes;
          var c := ReadContent(block.rest, delimiter, limit, "", None);
          match c
          case TooLarge => Failed(413, files)
          case Unterminated => Failed(400, files)
          case Content(text, final, next) =>
            var more :=
              if d.File? then
                files + [SavedFile(d.field, d.original, StoredName(stamps(|files|), Sanitize(d.original)), text)]
              else files;
            if final then Saved(more) else SpoolParts(next, delimiter, limits, count + 1, more, stamps)
  }

  function SaveSpooled(spool: string, contentType: string, limits: UploadLimits, stamps: Stamps): UploadResult {
    var boundary := ExtractBoundary(contentType);
    if boundary.None? then Failed(415, [])
    else if limits.maxParts == 0 || limits.maxFileBytes == 0 then Failed(500, [])
    else
      var delimiter := "--" + boundary.value;
      var first := GetLine(spool);
      if first.NoLine? || first.text != delimiter then Failed(400, [])
      else SpoolParts(first.rest, delimiter, limits, 0, [], stamps)
  }

  /** The same with the opening of the file: nothing where it cannot be opened. */
  function SaveSpoolFile(spool: Option<string>, contentType: string, limits: UploadLimits,
                         stamps: Stamps): UploadResult {
    if spool.Some? then SaveSpooled(spool.value, contentType, limits, stamps)
    else if ExtractBoundary(contentType).None? then Failed(415, [])
    else Failed(500, [])
  }

  // ---------------------------------------------------------------- whatever the body: what ends up on disk

  predicate AllHarmless(files: seq<SavedFile>, limits: UploadLimits) {
    forall k :: 0 <= k < |files| ==> IsHarmless(files[k].stored) && |files[k].content| <= limits.maxFileBytes
  }

  ghost predicate DigitStamps(stamps: Stamps) {
    forall k :: Digits(stamps(k))
  }

  lemma {:induction false} PartsAreHarmless(rest: string, delimiter: string, limits: UploadLimits, count: nat,
                                            files: seq<SavedFile>, stamps: Stamps)
    requires DigitStamps(stamps) && AllHarmless(files, limits)
    ensures var r := Parts(rest, delimiter, limits, count, files, stamps);
            AllHarmless(r.files, limits) && |r.files| <= |files| + Max(0, limits.maxParts - count)
    decreases |rest|
  {
    hide Find, IsHarmless, IsSafe, Sanitize, StoredName, PartHeaders, DispositionOf, StartsWith, Digits;
    if StartsWith(rest, CRLF) && !StartsWith(rest, "--") {
      TwoChars(rest);
      var s := rest[2..];
      var next := Find(s, CRLF + delimiter, 0);
      if next.Some? && count + 1 <= limits.maxParts {
        var part := s[..next.value];
        var headerEnd := Find(part, BLANK_LINE, 0);
        if headerEnd.Some? {
          var d := DispositionOf(PartHeaders(part[..headerEnd.value], map[]));
          var r := TakePart(d, part[headerEnd.value + 4..], limits, stamps(|files|));
          if r.Kept? { SafeNameIsStoredHarmless(stamps(|files|), d.original); }
          if !r.Refused? {
            PartsAreHarmless(s[next.value + 2 + |delimiter|..], delimiter, limits, count + 1,
                             if r.Kept? then files + [r.file] else files, stamps);
          }
        }
      }
    }
  }

  lemma TwoChars(rest: string)
    requires StartsWith(rest, CRLF)
    ensures |rest| >= 2
  {
  }

  lemma {:induction false} ContentFits(s: string, delimiter: string, limit: nat, written: string,
                                       pending: Option<string>)
    requires |written| <= limit
    ensures var c := ReadContent(s, delimiter, limit, written, pending); c.Content? ==> |c.text| <= limit
    decreases |s|
  {
    var line := GetLine(s);
    if line.Line? && !(pending.Some? && |written| + |pending.value| + 1 > limit) {
      ContentFits(line.rest, delimiter, limit,
                  if pending.Some? then written + pending.value + "\n" else written, Some(line.text));
    }
  }

  lemma {:induction false} SpoolPartsAreHarmless(rest: string, delimiter: string, limits: UploadLimits, count: nat,
                                                 files: seq<SavedFile>, stamps: Stamps)
    requires DigitStamps(stamps) && AllHarmless(files, limits)
    ensures var r := SpoolParts(rest, delimiter, limits, count, files, stamps);
            AllHarmless(r.files, limits) && |r.files| <= |files| + Max(0, limits.maxParts - count)
    decreases |rest|
  {
    hide ReadContent, ReadHeaders, IsHarmless, IsSafe, Sanitize, StoredName, PartHeaders, DispositionOf, Digits;
    if count + 1 <= limits.maxParts {
      var block := ReadHeaders(rest, "");
      var d := DispositionOf(PartHeaders(block.raw, map[]));
      if (block.ended || block.raw != "") && !(d.File? && !IsSafe(Sanitize(d.original))) {
        var limit := if d.File? then limits.maxFileBytes else limits.maxFieldBytes;
        ContentFits(block.rest, delimiter, limit, "", None);
        var c := ReadContent(block.rest, delimiter, limit, "", None);
        if c.Content? {
          if d.File? { SafeNameIsStoredHarmless(stamps(|files|), d.original); }
          var more :=
            if d.File? then
              files + [SavedFile(d.field, d.original, StoredName(stamps(|files|), Sanitize(d.original)), c.text)]
            else files;
          if !c.final { SpoolPartsAreHarmless(c.rest, delimiter, limits, count + 1, more, stamps); }
        }
      }
    }
  }

  /**
   * Over every body, limits and client-chosen names, whether or not the upload succeeds: each
   * file listed has a plain name in the upload directory, an extension that is not blocked, and
   * a size within the limit; there are at most as many as parts allowed.
   */
  lemma UploadsAreHarmless(body: string, contentType: string, limits: UploadLimits, stamps: Stamps)
    requires DigitStamps(stamps)
    ensures var r := SaveUploads(body, contentType, limits, stamps);
            AllHarmless(r.files, limits) && |r.files| <= limits.maxParts
    ensures var r := SaveSpooled(body, contentType, limits, stamps);
            AllHarmless(r.files, limits) && |r.files| <= limits.maxParts
  {
    hide Find, GetLine, Parts, SpoolParts, ExtractBoundary, DigitStamps;
    var boundary := ExtractBoundary(contentType);
    if boundary.Some? {
      var delimiter := "--" + boundary.value;
      var at := Find(body, delimiter, 0);
      if at.Some? { PartsAreHarmless(body[at.value + |delimiter|..], delimiter, limits, 0, [], stamps); }
      var first := GetLine(body);
      if first.Line? { SpoolPartsAreHarmless(first.rest, delimiter, limits, 0, [], stamps); }
    }
  }

  // ---------------------------------------------------------------- what clients usually write

  const MULTIPART: string := "multipart/form-data; boundary="

  lemma LowerPrefix(rest: string)
    ensures Lowercase(MULTIPART + rest) == MULTIPART + Lowercase(rest)
  {
    PrefixIsLower();
    hide MULTIPART, Lower;
    assert Lowercase(MULTIPART + rest) == Lowercase(MULTIPART) + Lowercase(rest);
  }

  lemma PrefixIsLower()
    ensures Lowercase(MULTIPART) == MULTIPART
  {
  }

  lemma MultipartPieces()
    ensures MULTIPART == "multipart/form-data; " + "boundary=" && MULTIPART[0..19] == "multipart/form-data"
    ensures |MULTIPART| == 30 && Misses("multipart/form-data; ", 'b')
  {
  }

  lemma LiteralsAreFound(rest: string)
    ensures var s := MULTIPART + rest;
            && Find(Lowercase(s), "multipart/form-data", 0).Some?
            && Find(Lowercase(s), "boundary=", 0) == Some(21)
            && s[30..] == rest
  {
    hide Find, Lowercase, Misses, MULTIPART;
    LowerPrefix(rest);
    MultipartPieces();
    var s := MULTIPART + Lowercase(rest);
    assert s[0..19] == MULTIPART[0..19];
    assert At(s, "multipart/form-data", 0);
    FindAfter("multipart/form-data; ", "boundary=", Lowercase(rest));
  }

  lemma BoundaryCharIsPlain(c: char)
    requires IsBoundaryChar(c)
    ensures !IsSpace(c) && c != '"' && c != ';' && c != '\r' && c != '\n'
  {
  }

  /** A boundary of 1 to 70 permitted characters is taken; a longer one is not. */
  lemma BoundaryIsTaken(b: string)
    requires forall k :: 0 <= k < |b| ==> IsBoundaryChar(b[k])
    ensures ExtractBoundary(MULTIPART + b) == if 1 <= |b| <= 70 then Some(b) else None
  {
    hide MULTIPART, IsPlain, Unquoted, Misses, ExtractBoundary, IsBoundary, TrimSpaces, IsBoundaryChar;
    BoundaryIsPlain(b);
    BoundaryIff(b);
    PlainText(b);
    TakenFrom(b);
  }

  /** The same with quotes around it. */
  lemma QuotedBoundaryIsTaken(b: string)
    requires forall k :: 0 <= k < |b| ==> IsBoundaryChar(b[k])
    ensures ExtractBoundary(MULTIPART + ("\"" + b + "\"")) == if 1 <= |b| <= 70 then Some(b) else None
  {
    hide MULTIPART, IsPlain, Unquoted, Misses, ExtractBoundary, IsBoundary, TrimSpaces, IsBoundaryChar;
    BoundaryIsPlain(b);
    BoundaryIff(b);
    QuotedIsPlain(b);
    PlainText("\"" + b + "\"");
    TakenFrom("\"" + b + "\"");
  }

  lemma BoundaryIff(b: string)
    requires forall k :: 0 <= k < |b| ==> IsBoundaryChar(b[k])
    ensures IsBoundary(b) <==> 1 <= |b| <= 70
    ensures Unquoted(b) == b && Unquoted("\"" + b + "\"") == b
  {
    assert b != "" ==> b[0] != '"' by {
      if b != "" { BoundaryCharIsPlain(b[0]); }
    }
    hide IsBoundaryChar;
    assert ("\"" + b + "\"")[1..|b| + 1] == b;
  }

  /** Nothing that a boundary is trimmed of or cut at. */
  predicate IsPlain(c: char) {
    !IsSpace(c) && c != ';' && c != '\r' && c != '\n'
  }

  lemma BoundaryIsPlain(b: string)
    requires forall k :: 0 <= k < |b| ==> IsBoundaryChar(b[k])
    ensures forall k :: 0 <= k < |b| ==> IsPlain(b[k])
  {
    hide IsBoundaryChar;
    forall k | 0 <= k < |b| ensures IsPlain(b[k]) {
      BoundaryCharIsPlain(b[k]);
    }
  }

  lemma QuotedIsPlain(b: string)
    requires forall k :: 0 <= k < |b| ==> IsPlain(b[k])
    ensures var quoted := "\"" + b + "\""; forall k :: 0 <= k < |quoted| ==> IsPlain(quoted[k])
  {
    assert IsPlain('"');
    hide IsPlain;
  }

  lemma PlainText(s: string)
    requires forall k :: 0 <= k < |s| ==> IsPlain(s[k])
    ensures Misses(s, ';') && Misses(s, '\r') && Misses(s, '\n') && TrimSpaces(s) == s
  {
    assert s != "" ==> IsPlain(s[0]) && IsPlain(s[|s| - 1]);
    hide TrimLeft, TrimRight;
    TrimEnds(s, IsSpace);
  }

  lemma TakenFrom(text: string)
    requires Misses(text, ';') && Misses(text, '\r') && Misses(text, '\n') && TrimSpaces(text) == text
    ensures ExtractBoundary(MULTIPART + text)
            == if IsBoundary(Unquoted(text)) then Some(Unquoted(text)) else None
  {
    hide Find, Lowercase, TrimSpaces, IsBoundary, Unquoted;
    Undelimited(text);
    LiteralsAreFound(text);
  }

  lemma Undelimited(s: string)
    requires Misses(s, ';') && Misses(s, '\r') && Misses(s, '\n')
    ensures Find(s, ";", 0) == None && Find(s, "\r", 0) == None && Find(s, "\n", 0) == None
  {
    hide Find;
    PatternIsAbsent(s, ";", 0);
    PatternIsAbsent(s, "\r", 0);
    PatternIsAbsent(s, "\n", 0);
  }

  const NAMED: string := "form-data; name=\""
  const FILENAMED: string := "\"; filename=\""

  /** A quoted field name and a quoted file name are read as they are. */
  lemma DispositionIsRead(name: string, file: string, more: string, headers: map<string, string>)
    requires Misses(name, '"') && Misses(file, '"') && !EndsWith(name, "filename=")
    requires "content-disposition" in headers
    requires headers["content-disposition"] == NAMED + name + FILENAMED + file + "\"" + more
    ensures DispositionOf(headers) == if file == "" then Field else File(name, file)
  {
    hide Find;
    var text := headers["content-disposition"];
    var tail := FILENAMED[1..] + file + "\"" + more;
    NameIsFound(name, tail);
    assert text == NAMED + (name + "\"" + tail);
    FilenameIsFound(name, file + "\"" + more);
    assert text == NAMED + name + FILENAMED + (file + "\"" + more);
    FirstSeparator(file, "\"", more);
    assert (file + "\"" + more)[..|file|] == file;
  }

  lemma NameIsFound(name: string, tail: string)
    requires Misses(name, '"')
    ensures DispositionValue(NAMED + (name + "\"" + tail), "name") == name
  {
    hide Find;
    var rest := name + "\"" + tail;
    var s := NAMED + rest;
    var pattern := "name" + "=\"";
    assert s == "form-data; " + pattern + rest;
    FindAfter("form-data; ", pattern, rest);
    assert s[17..] == rest;
    FirstSeparator(name, "\"", tail);
    assert rest[..|name|] == name;
  }

  /** A quote that is not closed leaves nothing; without quotes the value ends at a semicolon. */
  lemma UnquotedIsRead(name: string, more: string)
    requires Misses(name, '"') && Misses(name, ';') && Misses(more, '"')
    ensures DispositionValue(NAMED + name, "name") == ""
    ensures DispositionValue("form-data; name=" + name, "name") == name
    ensures DispositionValue("form-data; name=" + (name + ";" + more), "name") == name
  {
    hide Find;
    var quoted, plain := "name" + "=\"", "name" + "=";
    FindAfter("form-data; ", quoted, name);
    assert NAMED + name == "form-data; " + quoted + name && (NAMED + name)[17..] == name;
    PatternIsAbsent(name, "\"", 0);
    PatternIsAbsent(name, ";", 0);
    FirstSeparator(name, ";", more);
    PlainIsFound(name);
    PlainIsFound(name + ";" + more);
    assert (name + ";" + more)[..|name|] == name;
  }

  lemma PlainIsFound(rest: string)
    requires Misses(rest, '"')
    ensures var s := "form-data; name=" + rest;
            Find(s, "name" + "=\"", 0) == None && Find(s, "name" + "=", 0) == Some(11) && s[16..] == rest
  {
    hide Find;
    var s := "form-data; name=" + rest;
    assert Misses(s, '"') by { LiteralHasNoQuote(); }
    PatternIsAbsent(s, "name" + "=\"", 5);
    FindAfter("form-data; ", "name" + "=", rest);
    assert s == "form-data; " + ("name" + "=") + rest;
  }

  lemma LiteralHasNoQuote()
    ensures Misses("form-data; name=", '"')
  {
  }

  lemma FilenameIsFound(name: string, rest: string)
    requires Misses(name, '"') && !EndsWith(name, "filename=")
    ensures var s, n := NAMED + name + FILENAMED + rest, 20 + |name|;
            Find(s, "filename" + "=\"", 0) == Some(n) && s[n + 10..] == rest
  {
    hide Find;
    var s, n, pattern := NAMED + name + FILENAMED + rest, 20 + |name|, "filename" + "=\"";
    assert s[n..n + 10] == pattern;
    forall k: nat | k < n ensures !At(s, pattern, k) {
      NoFilenameBefore(name, rest, k);
    }
    FindIs(s, pattern, 0, n);
  }

  lemma NoFilenameBefore(name: string, rest: string, k: nat)
    requires Misses(name, '"') && !EndsWith(name, "filename=") && k < 20 + |name|
    ensures !At(NAMED + name + FILENAMED + rest, "filename" + "=\"", k)
  {
    var s, pattern := NAMED + name + FILENAMED + rest, "filename" + "=\"";
    Quotes(name, rest, k + 9);
    assert s[7] == NAMED[7] && s[16] == NAMED[16];
    assert s[17..17 + |name|] == name;
    assert |name| >= 9 ==> s[8 + |name|..17 + |name|] == name[|name| - 9..];
    if At(s, pattern, k) { LettersAre(s, pattern, k); }
  }

  /** What an occurrence of the pattern says about the text. */
  lemma LettersAre(s: string, pattern: string, k: nat)
    requires At(s, pattern, k) && pattern == "filename" + "=\""
    ensures s[k + 9] == '"' && s[k] == 'f' && s[k..k + 9] == "filename="
    ensures forall i :: k <= i < k + 9 ==> s[i] != '"'
  {
    var u := s[k..k + 10];
    assert u[9] == s[k + 9] && u[0] == s[k] && u[..9] == s[k..k + 9];
    assert forall i :: k <= i < k + 9 ==> s[i] == u[i - k];
  }

  /** The quotes up to the one before the file name. */
  lemma Quotes(name: string, rest: string, i: nat)
    requires Misses(name, '"') && i < 29 + |name|
    ensures (NAMED + name + FILENAMED + rest)[i] == '"' ==> i == 16 || i == 17 + |name|
  {
    var s := NAMED + name + FILENAMED + rest;
    if i < 17 {
      assert s[i] == NAMED[i];
    } else if i < 17 + |name| {
      assert s[i] == name[i - 17];
    } else {
      assert s[i] == FILENAMED[i - 17 - |name|];
    }
  }
}

/** An encoder for multipart bodies, and the proof that both parsers invert it. */
module MultipartRoundTrip {
  import opened Basics
  import opened Text
  import opened UploadNames
  import opened MultipartModel

  datatype Part = Part(headers: seq<string>, content: string)

  // ---------------------------------------------------------------- the encoder

  function Lines(lines: seq<string>): string {
    if lines == [] then "" else lines[0] + CRLF + Lines(lines[1..])
  }

  function PartText(p: Part): string {
    Lines(p.headers) + CRLF + p.content
  }

  /** From the end of one delimiter on. */
  function EncodeParts(parts: seq<Part>, delimiter: string, tail: string): (r: string)
    ensures |r| >= 2
  {
    if parts == [] then "--" + tail
    else CRLF + PartText(parts[0]) + CRLF + delimiter + EncodeParts(parts[1..], delimiter, tail)
  }

  function Encode(parts: seq<Part>, delimiter: string, tail: string): string {
    delimiter + EncodeParts(parts, delimiter, tail)
  }

  // ---------------------------------------------------------------- what can be encoded

  /** Header lines do not end early, do not look like the blank line or like a delimiter. */
  predicate GoodHeaders(headers: seq<string>, delimiter: string) {
    headers != [] && forall k :: 0 <= k < |headers| ==>
      headers[k] != "" && Misses(headers[k], '\n') && !StartsWith(headers[k], delimiter)
  }

  /** The buffer parser does not see a delimiter in the content. */
  predicate NoBoundary(content: string, delimiter: string) {
    !StartsWith(content, delimiter) && Find(content, CRLF + delimiter, 0).None?
  }

  /** The lines of the content as the line parser sees them. */
  function ContentLines(content: string): seq<string>
    decreases |content|
  {
    var end := Find(content, "\n", 0);
    if end.None? then [content] else [Chomp(content[..end.value])] + ContentLines(content[end.value + 1..])
  }

  /** The line parser does not see a delimiter in the content. */
  predicate NoDelimiterLine(content: string, delimiter: string) {
    delimiter !in ContentLines(content) && delimiter + "--" !in ContentLines(content)
  }

  predicate IsDelimiter(delimiter: string) {
    && |delimiter| >= 2 && delimiter[..2] == "--"
    && forall k :: 0 <= k < |delimiter| ==> delimiter[k] != '\r' && delimiter[k] != '\n'
  }

  /** The content with one CR taken away before each LF. */
  function DropCr(s: string): string {
    if s == "" then ""
    else if s[0] == '\r' && |s| > 1 && s[1] == '\n' then DropCr(s[1..])
    else [s[0]] + DropCr(s[1..])
  }

  // ---------------------------------------------------------------- what should be saved

  function HeaderMap(lines: seq<string>, headers: map<string, string>): map<string, string> {
    if lines == [] then headers else HeaderMap(lines[1..], HeaderLine(lines[0], headers))
  }

  function Kind(p: Part): Disposition {
    DispositionOf(HeaderMap(p.headers, map[]))
  }

  /** The content of a part as each parser keeps it. */
  function KeptContent(p: Part, spooled: bool): string {
    if spooled then DropCr(p.content) else p.content
  }

  /** Limits and file name of one part; only the line parser limits a part without disposition. */
  predicate Allowed(p: Part, limits: UploadLimits, spooled: bool) {
    var size := |KeptContent(p, spooled)|;
    match Kind(p)
    case Absent => !spooled || size <= limits.maxFieldBytes
    case Field => size <= limits.maxFieldBytes
    case File(_, original) => size <= limits.maxFileBytes && !EndsBlocked(Sanitize(original))
  }

  predicate AllAllowed(parts: seq<Part>, limits: UploadLimits, spooled: bool) {
    forall k :: 0 <= k < |parts| ==> Allowed(parts[k], limits, spooled)
  }

  function WithFile(p: Part, files: seq<SavedFile>, stamps: Stamps, spooled: bool): seq<SavedFile> {
    match Kind(p)
    case Absent => files
    case Field => files
    case File(field, original) =>
      files + [SavedFile(field, original, StoredName(stamps(|files|), Sanitize(original)), KeptContent(p, spooled))]
  }

  /** `files`, then one file for each part that has a file name, in order. */
  function Collected(parts: seq<Part>, files: seq<SavedFile>, stamps: Stamps, spooled: bool): seq<SavedFile> {
    if parts == [] then files else Collected(parts[1..], WithFile(parts[0], files, stamps, spooled), stamps, spooled)
  }

  predicate Verdict(r: UploadResult, ok: bool, files: seq<SavedFile>) {
    if ok then r == Saved(files) else r.Failed?
  }

  // ---------------------------------------------------------------- searching through lines

  lemma LineDoesNotStart(x: string, s: string, d: string)
    requires IsDelimiter(d) && !StartsWith(x, d)
    ensures !StartsWith(x + CRLF + s, d)
  {
    var t := x + CRLF + s;
    if |x| < |d| {
      assert t[|x|] == '\r';
      assert |t| >= |d| ==> t[..|d|][|x|] == t[|x|];
    } else {
      assert t[..|d|] == x[..|d|];
    }
  }

  // ---------------------------------------------------------------- the buffer parser on one part

  lemma ContentBoundary(content: string, delimiter: string, s: string)
    requires IsDelimiter(delimiter) && NoBoundary(content, delimiter)
    ensures !StartsWith(content + CRLF + delimiter + s, delimiter)
    ensures Find(content + CRLF + delimiter + s, CRLF + delimiter, 0) == Some(|content|)
  {
    hide Find;
    var t, p := content + CRLF + delimiter + s, CRLF + delimiter;
    assert t == content + CRLF + (delimiter + s);
    LineDoesNotStart(content, delimiter + s, delimiter);
    assert t[|content|..|content| + |p|] == p;
    forall j: nat | j < |content| ensures !At(t, p, j) {
      if j + |p| <= |content| {
        AtInPrefix(content, t, p, j);
      } else {
        // the CR at the end of the content would have to be an LF or a character of the delimiter
        var k := |content| - j;
        assert t[j..j + |p|][k] == t[|content|] == '\r';
        assert p[k] == if k == 1 then '\n' else delimiter[k - 2];
      }
    }
    FindIs(t, p, 0, |content|);
  }

  lemma NothingHasNoBreaks()
    ensures Misses("", '\n')
  {
  }

  /** What follows a header line does not look like a delimiter. */
  lemma NextDoesNotStart(headers: seq<string>, z: string, delimiter: string)
    requires IsDelimiter(delimiter) && (headers != [] ==> GoodHeaders(headers, delimiter))
    ensures !StartsWith(Lines(headers) + CRLF + z, delimiter)
  {
    if headers == [] {
      assert (Lines(headers) + CRLF + z)[0] == '\r';
      assert delimiter[0] == delimiter[..2][0];
    } else {
      var x, s := headers[0], Lines(headers[1..]) + CRLF + z;
      assert Lines(headers) + CRLF + z == x + CRLF + s;
      LineDoesNotStart(x, s, delimiter);
    }
  }

  /** Header lines do not hide or add a delimiter: the search goes on behind them. */
  lemma {:induction false} LinesAreSkipped(headers: seq<string>, z: string, delimiter: string)
    requires IsDelimiter(delimiter) && !StartsWith(z, delimiter) && (headers != [] ==> GoodHeaders(headers, delimiter))
    ensures Find(Lines(headers) + CRLF + z, CRLF + delimiter, 0)
            == Shifted(Find(z, CRLF + delimiter, 0), |Lines(headers)| + 2)
    decreases |headers|
  {
    hide Find, StartsWith, Misses, IsDelimiter, Lines;
    if headers == [] {
      NothingHasNoBreaks();
      NoLines(z);
      SkipLine("", z, delimiter);
    } else {
      var more := headers[1..];
      FirstLine(headers, z);
      LinesAreSkipped(more, z, delimiter);
      NextDoesNotStart(more, z, delimiter);
      SkipLine(headers[0], Lines(more) + CRLF + z, delimiter);
    }
  }

  lemma NoLines(z: string)
    ensures Lines([]) + CRLF + z == "" + CRLF + z && Lines([]) == ""
  {
  }

  /** From a part's first header line, the search for a delimiter finds the end of the part. */
  lemma PartEnds(headers: seq<string>, content: string, delimiter: string, s: string)
    requires IsDelimiter(delimiter) && NoBoundary(content, delimiter)
    requires headers != [] ==> GoodHeaders(headers, delimiter)
    ensures var text := Lines(headers) + CRLF + content;
            Find(text + CRLF + delimiter + s, CRLF + delimiter, 0) == Some(|text|)
  {
    hide Find, NoBoundary, StartsWith, GoodHeaders, IsDelimiter, Lines;
    var z := content + CRLF + delimiter + s;
    ContentBoundary(content, delimiter, s);
    LinesAreSkipped(headers, z, delimiter);
    assert Lines(headers) + CRLF + content + CRLF + delimiter + s == Lines(headers) + CRLF + z;
  }

  /** The blank line of a part comes right after its header lines. */
  lemma {:induction false} HeadersEnd(headers: seq<string>, content: string)
    requires headers != [] && forall k :: 0 <= k < |headers| ==> headers[k] != "" && Misses(headers[k], '\n')
    ensures |Lines(headers)| >= 2
    ensures Find(Lines(headers) + CRLF + content, BLANK_LINE, 0) == Some(|Lines(headers)| - 2)
    decreases |headers|
  {
    hide Find, Misses, StartsWith, Lines;
    var x, more := headers[0], headers[1..];
    FirstLine(headers, content);
    if more == [] {
      LastHeader(x, content);
    } else {
      HeadersEnd(more, content);
      FirstLine(more, content);
      LineIsNotBlank(more[0], Lines(more[1..]) + CRLF + content);
      assert CRLF + CRLF == BLANK_LINE;
      SkipLine(x, Lines(more) + CRLF + content, CRLF);
    }
  }

  lemma FirstLine(headers: seq<string>, content: string)
    requires headers != []
    ensures Lines(headers) + CRLF + content == headers[0] + CRLF + (Lines(headers[1..]) + CRLF + content)
    ensures |Lines(headers)| == |headers[0]| + 2 + |Lines(headers[1..])|
    ensures Lines([]) == ""
  {
  }

  lemma LastHeader(x: string, content: string)
    requires Misses(x, '\n')
    ensures Find(x + CRLF + ("" + CRLF + content), BLANK_LINE, 0) == Some(|x|)
  {
    hide Find, Misses;
    var pair := CRLF + CRLF;
    assert pair == BLANK_LINE;
    TwoBreaks(x, CRLF, content);
    FirstBreak(x, CRLF + content);
    BlankAtFirstBreak(x, content);
  }

  /** Header lines are parsed one by one, with or without the last break. */
  lemma {:induction false} LinesParse(headers: seq<string>, m: map<string, string>)
    requires forall k :: 0 <= k < |headers| ==> headers[k] != "" && Misses(headers[k], '\n')
    ensures PartHeaders(Lines(headers), m) == HeaderMap(headers, m)
    ensures headers != [] ==>
              |Lines(headers)| > 2 && PartHeaders(Lines(headers)[..|Lines(headers)| - 2], m) == HeaderMap(headers, m)
    decreases |headers|
  {
    hide Misses, HeaderLine, PartHeaders;
    if headers == [] {
      NoHeaders(m);
    } else {
      var x, more := headers[0], headers[1..];
      var text := Lines(more);
      LinesParse(more, HeaderLine(x, m));
      HeaderThenRest(x, text, m);
      var short := Lines(headers)[..|Lines(headers)| - 2];
      if more == [] {
        assert short == x;
        OneHeader(x, m);
      } else {
        var rest := text[..|text| - 2];
        assert short == x + CRLF + rest;
        HeaderThenRest(x, rest, m);
      }
    }
  }

  lemma NoHeaders(m: map<string, string>)
    ensures PartHeaders("", m) == m
  {
  }

  lemma OneHeader(x: string, m: map<string, string>)
    requires Misses(x, '\n') && x != ""
    ensures PartHeaders(x, m) == HeaderLine(x, m)
  {
    hide Find, HeaderLine;
    NoBreakFound(x);
  }

  lemma HeaderThenRest(x: string, rest: string, m: map<string, string>)
    requires Misses(x, '\n')
    ensures PartHeaders(x + CRLF + rest, m) == PartHeaders(rest, HeaderLine(x, m))
  {
    hide Find, HeaderLine;
    var t := x + CRLF + rest;
    FirstBreak(x, rest);
    assert t[..|x|] == x && t[|x| + 2..] == rest;
  }

  predicate GoodParts(parts: seq<Part>, delimiter: string, spooled: bool) {
    forall k :: 0 <= k < |parts| ==>
      && GoodHeaders(parts[k].headers, delimiter)
      && if spooled then NoDelimiterLine(parts[k].content, delimiter) else NoBoundary(parts[k].content, delimiter)
  }

  /** One round of the buffer parser's loop on an encoded part. */
  lemma PartIsRead(p: Part, rest: string, delimiter: string, limits: UploadLimits, count: nat, files: seq<SavedFile>,
                   stamps: Stamps)
    requires IsDelimiter(delimiter) && GoodHeaders(p.headers, delimiter) && NoBoundary(p.content, delimiter)
    ensures Parts(CRLF + PartText(p) + CRLF + delimiter + rest, delimiter, limits, count, files, stamps)
            == if count + 1 > limits.maxParts then Failed(413, files) else
                 var r := TakePart(Kind(p), p.content, limits, stamps(|files|));
                 if r.Refused? then Failed(r.status, files)
                 else Parts(rest, delimiter, limits, count + 1, if r.Kept? then files + [r.file] else files, stamps)
  {
    hide Find, NoBoundary, StartsWith, TakePart, DispositionOf, PartHeaders, HeaderMap, IsDelimiter;
    var whole := CRLF + PartText(p) + CRLF + delimiter + rest;
    var s := PartText(p) + CRLF + delimiter + rest;
    assert whole == CRLF + s;
    BreakFirst(s);
    assert whole[2..] == s;
    PartEnds(p.headers, p.content, delimiter, rest);
    var text := PartText(p);
    assert s[..|text|] == text;
    assert s[|text| + 2 + |delimiter|..] == rest;
    HeadersEnd(p.headers, p.content);
    LinesParse(p.headers, map[]);
    var h := |Lines(p.headers)| - 2;
    assert text[..h] == Lines(p.headers)[..h];
    assert text[h + 4..] == p.content;
  }

  lemma BreakFirst(s: string)
    ensures StartsWith(CRLF + s, CRLF) && !StartsWith(CRLF + s, "--")
  {
    assert (CRLF + s)[..2] == CRLF;
    assert CRLF[0] != "--"[0];
  }

  /** The buffer parser inverts the encoder. */
  lemma {:induction false} PartsInvert(parts: seq<Part>, delimiter: string, tail: string, limits: UploadLimits,
                                       count: nat, files: seq<SavedFile>, stamps: Stamps)
    requires IsDelimiter(delimiter) && GoodParts(parts, delimiter, false)
    ensures Verdict(Parts(EncodeParts(parts, delimiter, tail), delimiter, limits, count, files, stamps),
                    AllAllowed(parts, limits, false) && (parts == [] || count + |parts| <= limits.maxParts),
                    Collected(parts, files, stamps, false))
    decreases |parts|
  {
    hide Parts, TakePart, IsDelimiter, GoodHeaders, NoBoundary, WithFile, Allowed, PartText;
    if parts == [] {
      FinalDelimiter(tail, delimiter, limits, count, files, stamps);
    } else {
      var p, more := parts[0], parts[1..];
      assert GoodHeaders(parts[0].headers, delimiter);
      assert GoodParts(more, delimiter, false) by {
        assert forall k :: 0 <= k < |more| ==> more[k] == parts[k + 1];
      }
      PartIsRead(p, EncodeParts(more, delimiter, tail), delimiter, limits, count, files, stamps);
      TakenIfAllowed(p, limits, files, stamps);
      assert AllAllowed(parts, limits, false) <==> Allowed(p, limits, false) && AllAllowed(more, limits, false) by {
        assert forall k :: 0 <= k < |more| ==> more[k] == parts[k + 1];
        assert forall k :: 1 <= k < |parts| ==> parts[k] == more[k - 1];
      }
      if count + 1 <= limits.maxParts && Allowed(p, limits, false) {
        PartsInvert(more, delimiter, tail, limits, count + 1, WithFile(p, files, stamps, false), stamps);
      }
    }
  }

  lemma FinalDelimiter(tail: string, delimiter: string, limits: UploadLimits, count: nat, files: seq<SavedFile>,
                       stamps: Stamps)
    ensures Parts("--" + tail, delimiter, limits, count, files, stamps) == Saved(files)
  {
    assert ("--" + tail)[..2] == "--";
  }

  lemma TakenIfAllowed(p: Part, limits: UploadLimits, files: seq<SavedFile>, stamps: Stamps)
    ensures var r := TakePart(Kind(p), p.content, limits, stamps(|files|));
            && (Allowed(p, limits, false) <==> !r.Refused?)
            && (!r.Refused? ==> WithFile(p, files, stamps, false) == if r.Kept? then files + [r.file] else files)
  {
    hide IsSafe, EndsBlocked, Sanitize, DispositionOf, HeaderMap, StoredName;
    if Kind(p).File? { SafeIff(Kind(p).original); }
  }

  // ---------------------------------------------------------------- the line parser on one part

  lemma LineIsRead(x: string, s: string)
    requires Misses(x, '\n')
    ensures GetLine(x + CRLF + s) == Line(x, s)
  {
    hide Find;
    var t := x + CRLF + s;
    FirstBreak(x, s);
    assert t[..|x| + 1] == x + "\r" && t[|x| + 2..] == s;
  }

  lemma {:induction false} HeadersAreRead(headers: seq<string>, s: string, raw: string)
    requires forall k :: 0 <= k < |headers| ==> headers[k] != "" && Misses(headers[k], '\n')
    ensures ReadHeaders(Lines(headers) + CRLF + s, raw) == HeaderBlock(raw + Lines(headers), s, true)
    decreases |headers|
  {
    hide GetLine, Misses;
    var t := Lines(headers) + CRLF + s;
    if headers == [] {
      assert t == "" + CRLF + s;
      NothingHasNoBreaks();
      LineIsRead("", s);
      assert raw + Lines(headers) == raw;
    } else {
      var x, next := headers[0], Lines(headers[1..]) + CRLF + s;
      assert t == x + CRLF + next;
      LineIsRead(x, next);
      HeadersAreRead(headers[1..], s, raw + x + CRLF);
      assert raw + x + CRLF + Lines(headers[1..]) == raw + Lines(headers);
    }
  }

  lemma DropCrLf(rest: string)
    ensures DropCr("\n" + rest) == "\n" + DropCr(rest) && Chomp("") == ""
  {
    assert ("\n" + rest)[1..] == rest;
  }

  /** Dropping CRs line by line. */
  lemma {:induction false} DropCrLine(line: string, rest: string)
    requires Misses(line, '\n')
    ensures DropCr(line + "\n" + rest) == Chomp(line) + "\n" + DropCr(rest)
  {
    hide Misses, DropCr, Chomp;
    var s := line + "\n" + rest;
    if line == "" {
      DropCrLf(rest);
      assert s == "\n" + rest;
    } else {
      assert s[1..] == line[1..] + "\n" + rest;
      NoBreaksInTail(line);
      DropCrLine(line[1..], rest);
      DropCrStep(s);
      assert s[0] == line[0] && s[1] == if |line| > 1 then line[1] else '\n';
      ChompStep(line);
    }
  }

  lemma NoBreaksInTail(line: string)
    requires Misses(line, '\n') && line != ""
    ensures Misses(line[1..], '\n') && line[0] != '\n' && (|line| > 1 ==> line[1] != '\n')
  {
    assert forall k :: 0 <= k < |line| - 1 ==> line[1..][k] == line[k + 1];
  }

  lemma DropCrStep(s: string)
    requires |s| > 1
    ensures DropCr(s) == if s[0] == '\r' && s[1] == '\n' then DropCr(s[1..]) else [s[0]] + DropCr(s[1..])
  {
  }

  lemma ChompStep(line: string)
    requires line != ""
    ensures |line| > 1 ==> Chomp(line) == [line[0]] + Chomp(line[1..])
    ensures |line| == 1 ==> Chomp(line) == if line[0] == '\r' then "" else line
    ensures |line| == 1 ==> line[1..] == "" && Chomp("") == "" && line == [line[0]]
  {
  }

  lemma {:induction false} DropCrNothing(s: string)
    requires Find(s, CRLF, 0).None?
    ensures DropCr(s) == s
  {
    if s != "" {
      FindInSuffix(s, CRLF, 1);
      if |s| > 1 { assert !At(s, CRLF, 0); assert s[0..2] == [s[0], s[1]]; }
      TailHasNone(s);
      DropCrNothing(s[1..]);
      assert s == [s[0]] + s[1..];
    }
  }

  lemma TailHasNone(s: string)
    requires s != "" && Find(s, CRLF, 0).None?
    ensures Find(s[1..], CRLF, 0).None?
  {
    hide Find, At;
    forall k: nat ensures !At(s[1..], CRLF, k) {
      AtInSuffix(s, CRLF, 1, k);
    }
    FindNothing(s[1..], CRLF, 0);
  }

  /** Text before the first LF has none, and the string is that text, the LF and the rest. */
  lemma SplitAtLf(s: string)
    ensures var end := Find(s, "\n", 0);
            if end.None? then Misses(s, '\n')
            else end.value < |s| && Misses(s[..end.value], '\n') && s == s[..end.value] + "\n" + s[end.value + 1..]
  {
    hide Find, At;
    var end := Find(s, "\n", 0);
    var n := if end.None? then |s| else end.value;
    FoundAt(s, "\n", 0);
    forall k: nat | k < n ensures s[k] != '\n' {
      LfAt(s, k);
    }
    if end.Some? {
      LfAt(s, n);
      LfSplits(s, n);
    }
  }

  lemma LfAt(s: string, k: nat)
    requires k < |s|
    ensures At(s, "\n", k) <==> s[k] == '\n'
  {
    assert s[k..k + 1] == [s[k]];
  }

  lemma LfSplits(s: string, n: nat)
    requires n < |s| && s[n] == '\n'
    ensures s == s[..n] + "\n" + s[n + 1..]
  {
  }

  lemma LfLineIsRead(x: string, s: string)
    requires Misses(x, '\n')
    ensures GetLine(x + "\n" + s) == Line(Chomp(x), s)
  {
    hide Find, Chomp;
    var t := x + "\n" + s;
    assert t[|x|..|x| + 1] == "\n";
    forall j: nat | j < |x| ensures !At(t, "\n", j) {
      assert t[j..j + 1] == [x[j]];
    }
    FindIs(t, "\n", 0, |x|);
    assert t[..|x|] == x && t[|x| + 1..] == s;
  }

  function Flushed(written: string, pending: Option<string>): string {
    if pending.Some? then written + pending.value + "\n" else written
  }

  /** The content loop stores the content with the CRs dropped, if that fits. */
  lemma {:induction false} ContentIsRead(content: string, s: string, delimiter: string, limit: nat, written: string,
                                         pending: Option<string>)
    requires NoDelimiterLine(content, delimiter) && |written| <= limit
    requires GetLine(s).Line? && GetLine(s).text in {delimiter, delimiter + "--"}
    ensures var total := Flushed(written, pending) + DropCr(content);
            ReadContent(content + CRLF + s, delimiter, limit, written, pending)
            == if |total| > limit then TooLarge
               else Content(total, GetLine(s).text == delimiter + "--", GetLine(s).rest)
    decreases |content|
  {
    hide Find, GetLine, Chomp, Misses;
    var t := content + CRLF + s;
    var w := Flushed(written, pending);
    SplitAtLf(content);
    var end := Find(content, "\n", 0);
    if end.None? {
      LineIsRead(content, s);
      LastLine(content, s, delimiter, limit, written, pending);
      NoBreakFound(content);
      DropCrNothing(content);
    } else {
      var x, rest := content[..end.value], content[end.value + 1..];
      var next := rest + CRLF + s;
      assert t == x + "\n" + next;
      LfLineIsRead(x, next);
      DropCrLine(x, rest);
      assert ContentLines(content) == [Chomp(x)] + ContentLines(rest);
      assert Chomp(x) in ContentLines(content);
      if |w| <= limit {
        ContentIsRead(rest, s, delimiter, limit, w, Some(Chomp(x)));
        assert Flushed(w, Some(Chomp(x))) + DropCr(rest) == w + DropCr(content);
      }
    }
  }

  lemma LastLine(content: string, s: string, delimiter: string, limit: nat, written: string, pending: Option<string>)
    requires GetLine(content + CRLF + s) == Line(content, s) && |written| <= limit
    requires content != delimiter && content != delimiter + "--"
    requires GetLine(s).Line? && GetLine(s).text in {delimiter, delimiter + "--"}
    ensures var total := Flushed(written, pending) + content;
            ReadContent(content + CRLF + s, delimiter, limit, written, pending)
            == if |total| > limit then TooLarge
               else Content(total, GetLine(s).text == delimiter + "--", GetLine(s).rest)
  {
    hide GetLine;
  }

  /** What may follow the final delimiter for its line to be recognised: nothing, or a line end of some kind. */
  predicate GoodTail(tail: string) {
    tail == "" || tail == "\r" || StartsWith(tail, "\n") || StartsWith(tail, CRLF)
  }

  /** The delimiter line between two parts, or the final one. */
  lemma DelimiterIsRead(more: seq<Part>, delimiter: string, tail: string)
    requires IsDelimiter(delimiter) && GoodTail(tail)
    ensures var line := GetLine(delimiter + EncodeParts(more, delimiter, tail));
            && line.Line?
            && (more == [] ==> line.text == delimiter + "--")
            && (more != [] ==> line == Line(delimiter, EncodeParts(more, delimiter, tail)[2..]))
  {
    hide GetLine, PartText;
    var rest := EncodeParts(more, delimiter, tail);
    if more != [] {
      var s := rest[2..];
      assert rest[..2] == CRLF;
      assert delimiter + rest == delimiter + CRLF + s;
      LineIsRead(delimiter, s);
    } else {
      assert delimiter + rest == delimiter + "--" + tail;
      FinalLineIsRead(delimiter, tail);
    }
  }

  lemma FinalLineIsRead(delimiter: string, tail: string)
    requires IsDelimiter(delimiter) && GoodTail(tail)
    ensures var line := GetLine(delimiter + "--" + tail); line.Line? && line.text == delimiter + "--"
  {
    hide GetLine, Find;
    var final := delimiter + "--";
    assert Misses(final, '\n') && Chomp(final) == final;
    if tail == "" {
      LastLineIsRead(final);
      assert final + tail == final;
    } else if tail == "\r" {
      LastCrIsDropped(final);
    } else if StartsWith(tail, "\n") {
      assert final + tail == final + "\n" + tail[1..];
      LfLineIsRead(final, tail[1..]);
    } else {
      assert final + tail == final + CRLF + tail[2..];
      LineIsRead(final, tail[2..]);
    }
  }

  lemma LastCrIsDropped(x: string)
    requires Misses(x, '\n')
    ensures GetLine(x + "\r") == Line(x, "")
  {
    NoBreakFound(x + "\r");
    assert (x + "\r")[..|x|] == x;
  }

  lemma LastLineIsRead(x: string)
    requires x != "" && Misses(x, '\n') && x[|x| - 1] != '\r'
    ensures GetLine(x) == Line(x, "")
  {
    NoBreakFound(x);
  }

  /** One round of the line parser's loop on an encoded part. */
  lemma SpooledPartIsRead(p: Part, more: seq<Part>, delimiter: string, tail: string, limits: UploadLimits, count: nat,
                          files: seq<SavedFile>, stamps: Stamps)
    requires IsDelimiter(delimiter) && GoodHeaders(p.headers, delimiter) && NoDelimiterLine(p.content, delimiter)
             && GoodTail(tail)
    requires count + 1 <= limits.maxParts
    ensures var r := SpoolParts(EncodeParts([p] + more, delimiter, tail)[2..], delimiter, limits, count, files, stamps);
            var next := WithFile(p, files, stamps, true);
            if !Allowed(p, limits, true) then r.Failed?
            else if more == [] then r == Saved(next)
            else r == SpoolParts(EncodeParts(more, delimiter, tail)[2..], delimiter, limits, count + 1, next, stamps)
  {
    hide GetLine, ReadContent, ReadHeaders, IsDelimiter, NoDelimiterLine, DispositionOf, PartHeaders, HeaderMap,
      IsSafe, EndsBlocked, Sanitize, StoredName, DropCr, EncodeParts;
    var s := delimiter + EncodeParts(more, delimiter, tail);
    var body := p.content + CRLF + s;
    EncodedPart(p, more, delimiter, tail);
    HeadersAreRead(p.headers, body, "");
    assert "" + Lines(p.headers) == Lines(p.headers);
    LinesParse(p.headers, map[]);
    DelimiterIsRead(more, delimiter, tail);
    var d := Kind(p);
    if d.File? { SafeIff(d.original); }
    var limit := if d.File? then limits.maxFileBytes else limits.maxFieldBytes;
    ContentIsRead(p.content, s, delimiter, limit, "", None);
    assert Flushed("", None) + DropCr(p.content) == DropCr(p.content);
  }

  lemma EncodedPart(p: Part, more: seq<Part>, delimiter: string, tail: string)
    ensures var s := delimiter + EncodeParts(more, delimiter, tail);
            EncodeParts([p] + more, delimiter, tail)[2..] == Lines(p.headers) + CRLF + (p.content + CRLF + s)
  {
    assert ([p] + more)[1..] == more;
  }

  /** The line parser inverts the encoder, up to the CRs that it drops. */
  lemma {:induction false} SpoolPartsInvert(parts: seq<Part>, delimiter: string, tail: string, limits: UploadLimits,
                                            count: nat, files: seq<SavedFile>, stamps: Stamps)
    requires IsDelimiter(delimiter) && GoodParts(parts, delimiter, true) && GoodTail(tail) && parts != []
    ensures Verdict(SpoolParts(EncodeParts(parts, delimiter, tail)[2..], delimiter, limits, count, files, stamps),
                    AllAllowed(parts, limits, true) && count + |parts| <= limits.maxParts,
                    Collected(parts, files, stamps, true))
    decreases |parts|
  {
    hide IsDelimiter, GoodHeaders, NoDelimiterLine, WithFile, Allowed, EncodeParts, GoodTail, SpoolParts;
    var p, more := parts[0], parts[1..];
    assert parts == [p] + more;
    assert GoodHeaders(parts[0].headers, delimiter);
    assert forall k :: 0 <= k < |more| ==> more[k] == parts[k + 1];
    assert AllAllowed(parts, limits, true) <==> Allowed(p, limits, true) && AllAllowed(more, limits, true) by {
      assert forall k :: 1 <= k < |parts| ==> parts[k] == more[k - 1];
    }
    if count + 1 > limits.maxParts {
      TooManyParts(EncodeParts(parts, delimiter, tail)[2..], delimiter, limits, count, files, stamps);
    } else {
      SpooledPartIsRead(p, more, delimiter, tail, limits, count, files, stamps);
      if Allowed(p, limits, true) && more != [] {
        SpoolPartsInvert(more, delimiter, tail, limits, count + 1, WithFile(p, files, stamps, true), stamps);
      }
    }
  }

  lemma TooManyParts(rest: string, delimiter: string, limits: UploadLimits, count: nat, files: seq<SavedFile>,
                     stamps: Stamps)
    requires count + 1 > limits.maxParts
    ensures SpoolParts(rest, delimiter, limits, count, files, stamps).Failed?
  {
  }

  // ---------------------------------------------------------------- main results

  predicate Acceptable(parts: seq<Part>, limits: UploadLimits, spooled: bool) {
    limits.maxFileBytes > 0 && |parts| <= limits.maxParts && AllAllowed(parts, limits, spooled)
  }

  /** The content type names a boundary, and the parser concerned does not see it inside a part. */
  predicate Encodable(parts: seq<Part>, contentType: string, spooled: bool) {
    var boundary := ExtractBoundary(contentType);
    boundary.Some? && GoodParts(parts, "--" + boundary.value, spooled)
  }

  lemma BoundaryMakesDelimiter(boundary: string)
    requires IsBoundary(boundary)
    ensures IsDelimiter("--" + boundary)
  {
    var d := "--" + boundary;
    assert forall k :: 2 <= k < |d| ==> d[k] == boundary[k - 2];
    assert d[..2] == "--";
  }

  /**
   * The buffer parser succeeds on an encoded body exactly when the parts respect the limits
   * and the file names are safe, and then saves their contents unchanged.
   */
  lemma BufferParserInverts(parts: seq<Part>, contentType: string, tail: string, limits: UploadLimits, stamps: Stamps)
    requires parts != []
    ensures Encodable(parts, contentType, false) ==>
            var delimiter := "--" + ExtractBoundary(contentType).value;
            Verdict(SaveUploads(Encode(parts, delimiter, tail), contentType, limits, stamps),
                    Acceptable(parts, limits, false), Collected(parts, [], stamps, false))
  {
    hide Find, ExtractBoundary, Parts, EncodeParts, AllAllowed, GoodParts, Collected, IsDelimiter;
    if !Encodable(parts, contentType, false) { return; }
    var delimiter := "--" + ExtractBoundary(contentType).value;
    BoundaryMakesDelimiter(ExtractBoundary(contentType).value);
    var body := Encode(parts, delimiter, tail);
    var rest := EncodeParts(parts, delimiter, tail);
    assert body[0..|delimiter|] == delimiter && body[|delimiter|..] == rest;
    assert At(body, delimiter, 0);
    FindIs(body, delimiter, 0, 0);
    PartsInvert(parts, delimiter, tail, limits, 0, [], stamps);
  }

  /**
   * The line parser succeeds on an encoded body exactly when the parts, with one CR dropped
   * before each LF, respect the limits and the file names are safe, and saves that content.
   */
  lemma LineParserInverts(parts: seq<Part>, contentType: string, tail: string, limits: UploadLimits, stamps: Stamps)
    requires parts != []
    ensures Encodable(parts, contentType, true) && GoodTail(tail) ==>
            var delimiter := "--" + ExtractBoundary(contentType).value;
            Verdict(SaveSpooled(Encode(parts, delimiter, tail), contentType, limits, stamps),
                    Acceptable(parts, limits, true), Collected(parts, [], stamps, true))
  {
    hide GetLine, ExtractBoundary, SpoolParts, AllAllowed, GoodParts, Collected, PartText, GoodTail;
    if !Encodable(parts, contentType, true) || !GoodTail(tail) { return; }
    var delimiter := "--" + ExtractBoundary(contentType).value;
    BoundaryMakesDelimiter(ExtractBoundary(contentType).value);
    var rest := EncodeParts(parts, delimiter, tail);
    assert rest[..2] == CRLF;
    assert Encode(parts, delimiter, tail) == delimiter + CRLF + rest[2..];
    LineIsRead(delimiter, rest[2..]);
    SpoolPartsInvert(parts, delimiter, tail, limits, 0, [], stamps);
  }

  /**
   * The first part whose file name has a blocked ending ends the upload with status 415: the
   * files of the parts before it are listed, and nothing after them.  The buffer parser tests
   * the size of the part first, the line parser its name.
   */
  lemma BlockedNameIsRefused(before: seq<Part>, p: Part, after: seq<Part>, contentType: string, tail: string,
                             limits: UploadLimits, stamps: Stamps)
    requires limits.maxFileBytes > 0 && |before| < limits.maxParts
    requires Kind(p).File? && EndsBlocked(Sanitize(Kind(p).original))
    ensures Encodable(before + [p] + after, contentType, false) && AllAllowed(before, limits, false)
            && |p.content| <= limits.maxFileBytes ==>
            var delimiter := "--" + ExtractBoundary(contentType).value;
            SaveUploads(Encode(before + [p] + after, delimiter, tail), contentType, limits, stamps)
            == Failed(415, Collected(before, [], stamps, false))
    ensures Encodable(before + [p] + after, contentType, true) && AllAllowed(before, limits, true) && GoodTail(tail) ==>
            var delimiter := "--" + ExtractBoundary(contentType).value;
            SaveSpooled(Encode(before + [p] + after, delimiter, tail), contentType, limits, stamps)
            == Failed(415, Collected(before, [], stamps, true))
  {
    hide Find, GetLine, ExtractBoundary, Parts, SpoolParts, EncodeParts, AllAllowed, GoodParts, Collected, IsDelimiter,
      GoodTail, EndsBlocked, Sanitize, Kind;
    var boundary := ExtractBoundary(contentType);
    if boundary.None? { return; }
    var parts, delimiter := before + [p] + after, "--" + boundary.value;
    BoundaryMakesDelimiter(boundary.value);
    var body, rest := Encode(parts, delimiter, tail), EncodeParts(parts, delimiter, tail);
    if Encodable(parts, contentType, false) && AllAllowed(before, limits, false)
       && |p.content| <= limits.maxFileBytes {
      assert body[0..|delimiter|] == delimiter && body[|delimiter|..] == rest;
      FindIs(body, delimiter, 0, 0);
      PartsReach(before, p, after, delimiter, tail, limits, 0, [], stamps);
    }
    if Encodable(parts, contentType, true) && AllAllowed(before, limits, true) && GoodTail(tail) {
      EncodedStart(parts, delimiter, tail);
      LineIsRead(delimiter, rest[2..]);
      SpoolPartsReach(before, p, after, delimiter, tail, limits, 0, [], stamps);
    }
  }

  lemma EncodedStart(parts: seq<Part>, delimiter: string, tail: string)
    requires parts != [] && IsDelimiter(delimiter)
    ensures Encode(parts, delimiter, tail) == delimiter + CRLF + EncodeParts(parts, delimiter, tail)[2..]
    ensures Misses(delimiter, '\n')
  {
    hide PartText;
    assert EncodeParts(parts, delimiter, tail)[..2] == CRLF;
  }

  lemma {:induction false} PartsReach(
    before: seq<Part>, p: Part, after: seq<Part>, delimiter: string, tail: string, limits: UploadLimits, count: nat,
    files: seq<SavedFile>, stamps: Stamps)
    requires IsDelimiter(delimiter) && GoodParts(before + [p] + after, delimiter, false)
    requires AllAllowed(before, limits, false) && count + |before| < limits.maxParts
    requires Kind(p).File? && EndsBlocked(Sanitize(Kind(p).original)) && |p.content| <= limits.maxFileBytes
    ensures Parts(EncodeParts(before + [p] + after, delimiter, tail), delimiter, limits, count, files, stamps)
            == Failed(415, Collected(before, files, stamps, false))
    decreases |before|
  {
    hide Parts, TakePart, IsDelimiter, GoodHeaders, NoBoundary, WithFile, Allowed, PartText, EndsBlocked, Kind,
      Sanitize;
    var parts := before + [p] + after;
    var first, more := parts[0], parts[1..];
    assert GoodHeaders(parts[0].headers, delimiter);
    PartIsRead(first, EncodeParts(more, delimiter, tail), delimiter, limits, count, files, stamps);
    if before == [] {
      BlockedIsRefused(p, limits, stamps(|files|));
    } else {
      assert first == before[0] && more == before[1..] + [p] + after;
      assert GoodParts(more, delimiter, false) by {
        assert forall k :: 0 <= k < |more| ==> more[k] == parts[k + 1];
      }
      assert AllAllowed(before[1..], limits, false) by {
        assert forall k :: 0 <= k < |before| - 1 ==> before[1..][k] == before[k + 1];
      }
      TakenIfAllowed(first, limits, files, stamps);
      PartsReach(before[1..], p, after, delimiter, tail, limits, count + 1, WithFile(first, files, stamps, false),
                 stamps);
    }
  }

  lemma BlockedIsRefused(p: Part, limits: UploadLimits, stamp: string)
    requires Kind(p).File? && EndsBlocked(Sanitize(Kind(p).original)) && |p.content| <= limits.maxFileBytes
    ensures TakePart(Kind(p), p.content, limits, stamp) == Refused(415)
  {
    hide IsSafe, EndsBlocked, Sanitize, DispositionOf, HeaderMap, StoredName;
    SafeIff(Kind(p).original);
  }

  lemma {:induction false} SpoolPartsReach(
    before: seq<Part>, p: Part, after: seq<Part>, delimiter: string, tail: string, limits: UploadLimits, count: nat,
    files: seq<SavedFile>, stamps: Stamps)
    requires IsDelimiter(delimiter) && GoodParts(before + [p] + after, delimiter, true) && GoodTail(tail)
    requires AllAllowed(before, limits, true) && count + |before| < limits.maxParts
    requires Kind(p).File? && EndsBlocked(Sanitize(Kind(p).original))
    ensures SpoolParts(EncodeParts(before + [p] + after, delimiter, tail)[2..], delimiter, limits, count, files, stamps)
            == Failed(415, Collected(before, files, stamps, true))
    decreases |before|
  {
    hide IsDelimiter, GoodHeaders, NoDelimiterLine, WithFile, Allowed, EncodeParts, GoodTail, SpoolParts, EndsBlocked,
      Kind,
      Sanitize;
    var parts := before + [p] + after;
    var first, more := parts[0], parts[1..];
    assert GoodHeaders(parts[0].headers, delimiter);
    assert parts == [first] + more;
    if before == [] {
      BlockedIsNotRead(p, more, delimiter, tail, limits, count, files, stamps);
    } else {
      SpooledPartIsRead(first, more, delimiter, tail, limits, count, files, stamps);
      assert first == before[0] && more == before[1..] + [p] + after;
      assert forall k :: 0 <= k < |more| ==> more[k] == parts[k + 1];
      assert forall k :: 0 <= k < |before| - 1 ==> before[1..][k] == before[k + 1];
      SpoolPartsReach(before[1..], p, after, delimiter, tail, limits, count + 1, WithFile(first, files, stamps, true),
                      stamps);
    }
  }

  lemma BlockedIsNotRead(p: Part, more: seq<Part>, delimiter: string, tail: string, limits: UploadLimits, count: nat,
                         files: seq<SavedFile>, stamps: Stamps)
    requires GoodHeaders(p.headers, delimiter) && count + 1 <= limits.maxParts
    requires Kind(p).File? && EndsBlocked(Sanitize(Kind(p).original))
    ensures SpoolParts(EncodeParts([p] + more, delimiter, tail)[2..], delimiter, limits, count, files, stamps)
            == Failed(415, files)
  {
    hide GetLine, ReadContent, ReadHeaders, DispositionOf, PartHeaders, HeaderMap, IsSafe, Sanitize, StoredName, DropCr,
      EncodeParts, EndsBlocked;
    var s := delimiter + EncodeParts(more, delimiter, tail);
    EncodedPart(p, more, delimiter, tail);
    HeadersAreRead(p.headers, p.content + CRLF + s, "");
    assert "" + Lines(p.headers) == Lines(p.headers);
    LinesParse(p.headers, map[]);
    SafeIff(Kind(p).original);
  }

  predicate NoCrLf(parts: seq<Part>) {
    forall k :: 0 <= k < |parts| ==> Find(parts[k].content, CRLF, 0).None?
  }

  predicate NoLeadingDelimiter(parts: seq<Part>, contentType: string) {
    var boundary := ExtractBoundary(contentType);
    boundary.Some? ==> forall k :: 0 <= k < |parts| ==> !StartsWith(parts[k].content, "--" + boundary.value)
  }

  predicate AllHaveDisposition(parts: seq<Part>) {
    forall k :: 0 <= k < |parts| ==> !Kind(parts[k]).Absent?
  }

  /**
   * Both parsers invert the encoder and so agree: on parts that all have a content-disposition
   * and whose content has no CRLF, both succeed under the same condition and save the same
   * fields, file names and bytes, the bytes that were encoded.
   */
  lemma ParsersInvertTheEncoder(parts: seq<Part>, contentType: string, tail: string, limits: UploadLimits,
                                stamps: Stamps)
    requires parts != []
    ensures Encodable(parts, contentType, true) && NoLeadingDelimiter(parts, contentType) && GoodTail(tail)
            && NoCrLf(parts) && AllHaveDisposition(parts) ==>
            var body := Encode(parts, "--" + ExtractBoundary(contentType).value, tail);
            var buffered := SaveUploads(body, contentType, limits, stamps);
            var spooled := SaveSpooled(body, contentType, limits, stamps);
            && (buffered.Saved? <==> spooled.Saved?)
            && (buffered.Saved? <==> Acceptable(parts, limits, false))
            && (buffered.Saved? ==> buffered == spooled == Saved(Collected(parts, [], stamps, false)))
  {
    hide ExtractBoundary, SaveUploads, SaveSpooled, GoodTail, Allowed, Collected, Find, StartsWith, GoodHeaders,
      NoDelimiterLine, DropCr, Encode;
    if !(Encodable(parts, contentType, true) && NoLeadingDelimiter(parts, contentType) && GoodTail(tail)
         && NoCrLf(parts) && AllHaveDisposition(parts)) { return; }
    var delimiter := "--" + ExtractBoundary(contentType).value;
    forall k | 0 <= k < |parts|
      ensures NoBoundary(parts[k].content, delimiter)
      ensures Allowed(parts[k], limits, true) == Allowed(parts[k], limits, false)
    {
      NoCrLfNoBoundary(parts[k].content, delimiter);
      SamePart(parts[k], limits);
    }
    assert GoodParts(parts, delimiter, false);
    SameFiles(parts, [], stamps);
    BufferParserInverts(parts, contentType, tail, limits, stamps);
    LineParserInverts(parts, contentType, tail, limits, stamps);
  }

  lemma NoCrLfNoBoundary(content: string, delimiter: string)
    requires Find(content, CRLF, 0).None? && !StartsWith(content, delimiter)
    ensures NoBoundary(content, delimiter)
  {
    hide Find;
    var p := CRLF + delimiter;
    forall k: nat ensures !At(content, p, k) {
      assert !At(content, CRLF, k);
      if k + |p| <= |content| { assert content[k..k + |p|][..2] == content[k..k + 2]; assert p[..2] == CRLF; }
    }
    FindNothing(content, p, 0);
  }

  lemma SamePart(p: Part, limits: UploadLimits)
    ensures Find(p.content, CRLF, 0).None? && !Kind(p).Absent? ==> Allowed(p, limits, true) == Allowed(p, limits, false)
  {
    hide EndsBlocked, Sanitize, Kind, Find, DropCr;
    if Find(p.content, CRLF, 0).None? { DropCrNothing(p.content); }
  }

  lemma {:induction false} SameFiles(parts: seq<Part>, files: seq<SavedFile>, stamps: Stamps)
    requires NoCrLf(parts)
    ensures Collected(parts, files, stamps, true) == Collected(parts, files, stamps, false)
    decreases |parts|
  {
    hide StoredName, Sanitize, Kind, Find, DropCr;
    if parts != [] {
      DropCrNothing(parts[0].content);
      assert forall k :: 0 <= k < |parts[1..]| ==> parts[1..][k] == parts[k + 1];
      SameFiles(parts[1..], WithFile(parts[0], files, stamps, true), stamps);
    }
  }

  // ---------------------------------------------------------------- with CRLF in a content

  /** Dropping CRs leaves a string as it is exactly when it has no CRLF. */
  lemma {:induction false} DropCrChanges(s: string)
    ensures |DropCr(s)| <= |s|
    ensures DropCr(s) == s <==> Find(s, CRLF, 0).None?
    ensures Find(s, CRLF, 0).Some? ==> |DropCr(s)| < |s|
  {
    if Find(s, CRLF, 0).None? {
      DropCrNothing(s);
    } else {
      DropCrChanges(s[1..]);
      if !At(s, CRLF, 0) {
        FindInSuffix(s, CRLF, 1);
        SearchFrom(s, CRLF, 1);
      } else {
        assert s[0..2] == [s[0], s[1]];
      }
    }
  }

  /** Two upload results that differ in a file differ, whatever is saved later. */
  lemma {:induction false} CollectedExtends(parts: seq<Part>, files: seq<SavedFile>, stamps: Stamps, spooled: bool)
    ensures var r := Collected(parts, files, stamps, spooled); |files| <= |r| && r[..|files|] == files
    decreases |parts|
  {
    hide StoredName, Sanitize, Kind, KeptContent;
    if parts != [] {
      var next := WithFile(parts[0], files, stamps, spooled);
      CollectedExtends(parts[1..], next, stamps, spooled);
      assert next[..|files|] == files;
    }
  }

  predicate FilesHaveNoCrLf(parts: seq<Part>) {
    forall k :: 0 <= k < |parts| ==> Kind(parts[k]).File? ==> Find(parts[k].content, CRLF, 0).None?
  }

  /** What the two parsers save is the same if and only if no uploaded file contains CRLF. */
  lemma {:induction false} SavedAlikeIffNoCrLf(parts: seq<Part>, files: seq<SavedFile>, stamps: Stamps)
    ensures Collected(parts, files, stamps, true) == Collected(parts, files, stamps, false) <==> FilesHaveNoCrLf(parts)
    decreases |parts|
  {
    hide StoredName, Sanitize, Kind, Find, DropCr;
    if parts != [] {
      var p, more := parts[0], parts[1..];
      DropCrChanges(p.content);
      var a, b := WithFile(p, files, stamps, true), WithFile(p, files, stamps, false);
      CollectedExtends(more, a, stamps, true);
      CollectedExtends(more, b, stamps, false);
      if a != b {
        assert |a| == |b| == |files| + 1 && a[|files|] != b[|files|];
        var ra, rb := Collected(more, a, stamps, true), Collected(more, b, stamps, false);
        assert ra[|files|] == ra[..|a|][|files|] && rb[|files|] == rb[..|b|][|files|];
        assert Kind(parts[0]).File? && Find(parts[0].content, CRLF, 0).Some?;
      }
      assert forall k :: 0 <= k < |more| ==> more[k] == parts[k + 1];
      assert forall k :: 1 <= k < |parts| ==> parts[k] == more[k - 1];
      if a == b {
        assert Kind(p).File? ==> a[|files|].content == b[|files|].content;
        SavedAlikeIffNoCrLf(more, a, stamps);
      }
    }
  }

  /**
   * On a body encoded from parts in which neither parser sees a delimiter: where both accept,
   * their results are equal if and only if no uploaded file contains CRLF.
   */
  lemma ParsersSaveAlikeIff(parts: seq<Part>, contentType: string, tail: string, limits: UploadLimits, stamps: Stamps)
    requires parts != []
    ensures WellFormed(parts, contentType, tail) && Acceptable(parts, limits, false)
            && Acceptable(parts, limits, true) ==>
            var body := BodyOf(parts, contentType, tail);
            && SaveUploads(body, contentType, limits, stamps).Saved?
            && SaveSpooled(body, contentType, limits, stamps).Saved?
            && (SaveUploads(body, contentType, limits, stamps) == SaveSpooled(body, contentType, limits, stamps)
                <==> FilesHaveNoCrLf(parts))
  {
    hide ExtractBoundary, SaveUploads, SaveSpooled, GoodTail, Acceptable, Collected, Encode, GoodParts, FilesHaveNoCrLf;
    BufferParserInverts(parts, contentType, tail, limits, stamps);
    LineParserInverts(parts, contentType, tail, limits, stamps);
    SavedAlikeIffNoCrLf(parts, [], stamps);
  }

  /** Encoded without a preamble, and neither parser sees a delimiter inside a part. */
  predicate WellFormed(parts: seq<Part>, contentType: string, tail: string) {
    Encodable(parts, contentType, false) && Encodable(parts, contentType, true) && GoodTail(tail)
  }

  /** The parts encoded with the boundary that the content type names. */
  function BodyOf(parts: seq<Part>, contentType: string, tail: string): string {
    match ExtractBoundary(contentType)
    case Some(boundary) => Encode(parts, "--" + boundary, tail)
    case None => ""
  }

  // ---------------------------------------------------------------- with a delimiter line in a file

  /** At a delimiter line inside the content the line parser stops short. */
  lemma {:induction false} ContentStopsShort(content: string, s: string, delimiter: string, limit: nat, written: string,
                                             pending: Option<string>)
    requires !NoDelimiterLine(content, delimiter) && delimiter != ""
    ensures var c := ReadContent(content + CRLF + s, delimiter, limit, written, pending);
            c.Content? ==> |c.text| < |Flushed(written, pending)| + |content|
    decreases |content|
  {
    hide Find, GetLine, Chomp, Misses;
    SplitAtLf(content);
    var end := Find(content, "\n", 0);
    if end.None? {
      LineIsRead(content, s);
    } else {
      var x, rest := content[..end.value], content[end.value + 1..];
      assert content + CRLF + s == x + "\n" + (rest + CRLF + s);
      LfLineIsRead(x, rest + CRLF + s);
      ChompShortens(x);
      assert ContentLines(content) == [Chomp(x)] + ContentLines(rest);
      if Chomp(x) != delimiter && Chomp(x) != delimiter + "--" {
        ContentStopsShort(rest, s, delimiter, limit, Flushed(written, pending), Some(Chomp(x)));
      }
    }
  }

  lemma ChompShortens(x: string)
    ensures |Chomp(x)| <= |x|
  {
  }

  /** The line parser's loop keeps the files it was given. */
  lemma {:induction false} SpoolOnlyAppends(rest: string, delimiter: string, limits: UploadLimits, count: nat,
                                            files: seq<SavedFile>, stamps: Stamps)
    ensures var r := SpoolParts(rest, delimiter, limits, count, files, stamps).files;
            |files| <= |r| && r[..|files|] == files
    decreases |rest|
  {
    hide ReadContent, ReadHeaders, IsSafe, Sanitize, StoredName, PartHeaders, DispositionOf;
    if count + 1 <= limits.maxParts {
      var block := ReadHeaders(rest, "");
      var d := DispositionOf(PartHeaders(block.raw, map[]));
      if (block.ended || block.raw != "") && !(d.File? && !IsSafe(Sanitize(d.original))) {
        var limit := if d.File? then limits.maxFileBytes else limits.maxFieldBytes;
        var c := ReadContent(block.rest, delimiter, limit, "", None);
        if c.Content? {
          var more :=
            if d.File? then
              files + [SavedFile(d.field, d.original, StoredName(stamps(|files|), Sanitize(d.original)), c.text)]
            else files;
          assert more[..|files|] == files;
          if !c.final { SpoolOnlyAppends(c.rest, delimiter, limits, count + 1, more, stamps); }
        }
      }
    }
  }

  /** A file with a delimiter line: the line parser fails, or lists it with fewer bytes than were sent. */
  lemma CutFileIsShorter(p: Part, more: seq<Part>, delimiter: string, tail: string, limits: UploadLimits, count: nat,
                         files: seq<SavedFile>, stamps: Stamps)
    requires IsDelimiter(delimiter) && GoodHeaders(p.headers, delimiter)
    requires !NoDelimiterLine(p.content, delimiter) && Kind(p).File?
    ensures var r := SpoolParts(EncodeParts([p] + more, delimiter, tail)[2..], delimiter, limits, count, files, stamps);
            r.Saved? ==> |r.files| > |files| && |r.files[|files|].content| < |p.content|
  {
    hide GetLine, ReadContent, ReadHeaders, IsDelimiter, NoDelimiterLine, DispositionOf, PartHeaders, HeaderMap, IsSafe,
      Sanitize, StoredName, EncodeParts;
    var s := delimiter + EncodeParts(more, delimiter, tail);
    var body := p.content + CRLF + s;
    EncodedPart(p, more, delimiter, tail);
    HeadersAreRead(p.headers, body, "");
    assert "" + Lines(p.headers) == Lines(p.headers);
    LinesParse(p.headers, map[]);
    DelimiterIsNotEmpty(delimiter);
    ContentStopsShort(p.content, s, delimiter, limits.maxFileBytes, "", None);
    var c := ReadContent(body, delimiter, limits.maxFileBytes, "", None);
    if c.Content? && !c.final {
      var d := Kind(p);
      var file := SavedFile(d.field, d.original, StoredName(stamps(|files|), Sanitize(d.original)), c.text);
      SpoolOnlyAppends(c.rest, delimiter, limits, count + 1, files + [file], stamps);
      var r := SpoolParts(c.rest, delimiter, limits, count + 1, files + [file], stamps).files;
      assert r[|files|] == r[..|files| + 1][|files|];
    }
  }

  lemma DelimiterIsNotEmpty(delimiter: string)
    requires IsDelimiter(delimiter)
    ensures delimiter != ""
  {
  }

  predicate FilesHaveNoDelimiterLine(parts: seq<Part>, delimiter: string) {
    forall k :: 0 <= k < |parts| && Kind(parts[k]).File? ==> NoDelimiterLine(parts[k].content, delimiter)
  }

  predicate FieldsHaveNoDelimiterLine(parts: seq<Part>, delimiter: string) {
    forall k :: 0 <= k < |parts| && !Kind(parts[k]).File? ==> NoDelimiterLine(parts[k].content, delimiter)
  }

  /** The first file with a delimiter line shows in the result. */
  lemma {:induction false} DelimiterLineShows(parts: seq<Part>, delimiter: string, tail: string, limits: UploadLimits,
                                              count: nat, sent: seq<SavedFile>, files: seq<SavedFile>, stamps: Stamps)
    requires IsDelimiter(delimiter) && GoodParts(parts, delimiter, false) && GoodTail(tail) && parts != []
    requires FieldsHaveNoDelimiterLine(parts, delimiter) && !FilesHaveNoDelimiterLine(parts, delimiter)
    requires |sent| == |files|
    ensures SpoolParts(EncodeParts(parts, delimiter, tail)[2..], delimiter, limits, count, files, stamps)
            != Saved(Collected(parts, sent, stamps, false))
    decreases |parts|
  {
    hide IsDelimiter, GoodHeaders, NoBoundary, NoDelimiterLine, EncodeParts, GoodTail, SpoolParts, Kind, Sanitize,
      StoredName, DropCr, Allowed;
    var p, more := parts[0], parts[1..];
    assert parts == [p] + more;
    assert GoodHeaders(parts[0].headers, delimiter);
    assert forall k :: 0 <= k < |more| ==> more[k] == parts[k + 1];
    var next := WithFile(p, sent, stamps, false);
    CollectedExtends(more, next, stamps, false);
    if !NoDelimiterLine(p.content, delimiter) {
      CutFileIsShorter(p, more, delimiter, tail, limits, count, files, stamps);
      var all := Collected(parts, sent, stamps, false);
      assert all[|sent|] == all[..|next|][|sent|];
    } else if count + 1 > limits.maxParts {
      TooManyParts(EncodeParts(parts, delimiter, tail)[2..], delimiter, limits, count, files, stamps);
    } else {
      assert !FilesHaveNoDelimiterLine(more, delimiter) && more != [] by {
        var k :| 0 <= k < |parts| && Kind(parts[k]).File? && !NoDelimiterLine(parts[k].content, delimiter);
        assert more[k - 1] == parts[k];
      }
      SpooledPartIsRead(p, more, delimiter, tail, limits, count, files, stamps);
      if Allowed(p, limits, true) {
        DelimiterLineShows(more, delimiter, tail, limits, count + 1, next, WithFile(p, files, stamps, true), stamps);
      }
    }
  }

  /**
   * On a body encoded from parts in which the buffer parser sees no delimiter, and whose fields
   * have no delimiter line: where both parsers accept, their results are equal if and only if no
   * uploaded file contains CRLF and none contains a line that is a delimiter.
   */
  lemma AcceptedAlikeIff(parts: seq<Part>, contentType: string, tail: string, limits: UploadLimits, stamps: Stamps)
    requires parts != []
    ensures var body := BodyOf(parts, contentType, tail);
            var buffered := SaveUploads(body, contentType, limits, stamps);
            var spooled := SaveSpooled(body, contentType, limits, stamps);
            ReadByBuffer(parts, contentType, tail) && buffered.Saved? && spooled.Saved? ==>
            (buffered == spooled <==> FilesHaveNoCrLf(parts) && FilesHaveNoLineOf(parts, contentType))
  {
    hide ExtractBoundary, SaveUploads, SaveSpooled, GoodTail, Acceptable, Collected, Encode, FilesHaveNoCrLf,
      GoodHeaders, NoBoundary, NoDelimiterLine, Kind;
    var body := BodyOf(parts, contentType, tail);
    var buffered := SaveUploads(body, contentType, limits, stamps);
    var spooled := SaveSpooled(body, contentType, limits, stamps);
    if ReadByBuffer(parts, contentType, tail) && buffered.Saved? && spooled.Saved? {
      BufferParserInverts(parts, contentType, tail, limits, stamps);
      var delimiter := "--" + ExtractBoundary(contentType).value;
      if FilesHaveNoDelimiterLine(parts, delimiter) {
        assert GoodParts(parts, delimiter, true);
        LineParserInverts(parts, contentType, tail, limits, stamps);
        SavedAlikeIffNoCrLf(parts, [], stamps);
      } else {
        CutFilesDiffer(parts, contentType, tail, limits, stamps);
      }
    }
  }

  /** The buffer parser sees no delimiter inside a part, and no field has a delimiter line. */
  predicate ReadByBuffer(parts: seq<Part>, contentType: string, tail: string) {
    Encodable(parts, contentType, false) && GoodTail(tail)
    && FieldsHaveNoDelimiterLine(parts, "--" + ExtractBoundary(contentType).value)
  }

  predicate FilesHaveNoLineOf(parts: seq<Part>, contentType: string) {
    var boundary := ExtractBoundary(contentType);
    boundary.Some? ==> FilesHaveNoDelimiterLine(parts, "--" + boundary.value)
  }

  lemma CutFilesDiffer(parts: seq<Part>, contentType: string, tail: string, limits: UploadLimits, stamps: Stamps)
    requires parts != []
    ensures ReadByBuffer(parts, contentType, tail) && !FilesHaveNoLineOf(parts, contentType) ==>
            SaveSpooled(BodyOf(parts, contentType, tail), contentType, limits, stamps)
                != Saved(Collected(parts, [], stamps, false))
  {
    hide GetLine, ExtractBoundary, SpoolParts, GoodParts, Collected, PartText, GoodTail, FilesHaveNoDelimiterLine,
      FieldsHaveNoDelimiterLine;
    if ReadByBuffer(parts, contentType, tail) && !FilesHaveNoLineOf(parts, contentType) {
      var delimiter := "--" + ExtractBoundary(contentType).value;
      BoundaryMakesDelimiter(ExtractBoundary(contentType).value);
      var rest := EncodeParts(parts, delimiter, tail);
      assert rest[..2] == CRLF;
      assert Encode(parts, delimiter, tail) == delimiter + CRLF + rest[2..];
      LineIsRead(delimiter, rest[2..]);
      DelimiterLineShows(parts, delimiter, tail, limits, 0, [], [], stamps);
    }
  }

  // ---------------------------------------------------------------- with a preamble

  /**
   * Text before the first delimiter: the buffer parser skips it, whatever follows; the line
   * parser refuses the body.
   */
  lemma PreambleDiffers(preamble: string, body: string, contentType: string, limits: UploadLimits, stamps: Stamps)
    ensures ExtractBoundary(contentType).Some? && preamble != "" && limits.maxParts > 0 && limits.maxFileBytes > 0
            && StartsWith(body, "--" + ExtractBoundary(contentType).value)
            && Find(preamble + body, "--" + ExtractBoundary(contentType).value, 0) == Some(|preamble|) ==>
              && SaveUploads(preamble + body, contentType, limits, stamps)
                  == SaveUploads(body, contentType, limits, stamps)
              && SaveSpooled(preamble + body, contentType, limits, stamps) == Failed(400, [])
  {
    hide Find, GetLine, ExtractBoundary, Parts, SpoolParts;
    if ExtractBoundary(contentType).Some? && preamble != ""
        && StartsWith(body, "--" + ExtractBoundary(contentType).value)
       && Find(preamble + body, "--" + ExtractBoundary(contentType).value, 0) == Some(|preamble|) {
      var delimiter := "--" + ExtractBoundary(contentType).value;
      assert At(body, delimiter, 0);
      FindIs(body, delimiter, 0, 0);
      assert (preamble + body)[|preamble| + |delimiter|..] == body[|delimiter|..];
      BoundaryMakesDelimiter(ExtractBoundary(contentType).value);
      FirstLineIsPrefix(preamble + body);
      assert !At(preamble + body, delimiter, 0);
    }
  }

  lemma FirstLineIsPrefix(s: string)
    ensures var line := GetLine(s); line.Line? ==> StartsWith(s, line.text)
  {
    hide Find;
    FoundAt(s, "\n", 0);
  }

  // ---------------------------------------------------------------- when the verdicts differ

  /** Within the limits once the CRs are dropped, and safe by name; parts without disposition always are. */
  predicate FitsDropped(p: Part, limits: UploadLimits) {
    match Kind(p)
    case Absent => true
    case Field => |DropCr(p.content)| <= limits.maxFieldBytes
    case File(_, original) => |DropCr(p.content)| <= limits.maxFileBytes && !EndsBlocked(Sanitize(original))
  }

  /** Too large as it was sent: only the buffer parser minds. */
  predicate TooLargeAsSent(p: Part, limits: UploadLimits) {
    match Kind(p)
    case Absent => false
    case Field => |p.content| > limits.maxFieldBytes
    case File(_, _) => |p.content| > limits.maxFileBytes
  }

  /** Without disposition and too large for a field: only the line parser minds. */
  predicate TooLargeUnnamed(p: Part, limits: UploadLimits) {
    Kind(p).Absent? && |DropCr(p.content)| > limits.maxFieldBytes
  }

  predicate AllFitDropped(parts: seq<Part>, limits: UploadLimits) {
    && limits.maxFileBytes > 0 && |parts| <= limits.maxParts
    && forall k :: 0 <= k < |parts| ==> FitsDropped(parts[k], limits)
  }

  predicate SomeTooLargeAsSent(parts: seq<Part>, limits: UploadLimits) {
    exists k :: 0 <= k < |parts| && TooLargeAsSent(parts[k], limits)
  }

  predicate SomeTooLargeUnnamed(parts: seq<Part>, limits: UploadLimits) {
    exists k :: 0 <= k < |parts| && TooLargeUnnamed(parts[k], limits)
  }

  lemma AllowedSplits(p: Part, limits: UploadLimits)
    ensures Allowed(p, limits, false) <==> FitsDropped(p, limits) && !TooLargeAsSent(p, limits)
    ensures Allowed(p, limits, true) <==> FitsDropped(p, limits) && !TooLargeUnnamed(p, limits)
  {
    hide EndsBlocked, Sanitize, Kind, DropCr;
    DropCrChanges(p.content);
  }

  lemma AcceptableSplits(parts: seq<Part>, limits: UploadLimits)
    ensures Acceptable(parts, limits, false) <==> AllFitDropped(parts, limits) && !SomeTooLargeAsSent(parts, limits)
    ensures Acceptable(parts, limits, true) <==> AllFitDropped(parts, limits) && !SomeTooLargeUnnamed(parts, limits)
  {
    hide Allowed, FitsDropped, TooLargeAsSent, TooLargeUnnamed;
    forall k | 0 <= k < |parts|
      ensures Allowed(parts[k], limits, false) <==> FitsDropped(parts[k], limits) && !TooLargeAsSent(parts[k], limits)
      ensures Allowed(parts[k], limits, true) <==> FitsDropped(parts[k], limits) && !TooLargeUnnamed(parts[k], limits)
    {
      AllowedSplits(parts[k], limits);
    }
  }

  /**
   * On a body encoded from parts in which neither parser sees a delimiter, the two verdicts
   * agree if and only if both parsers refuse it in any case (too many parts, no file bytes
   * allowed at all, or a part with an unsafe name or too large even without its CRs), or there
   * is a part that only the buffer parser finds too large exactly when there is one that only
   * the line parser finds too large.
   */
  lemma VerdictsAgreeIff(parts: seq<Part>, contentType: string, tail: string, limits: UploadLimits, stamps: Stamps)
    requires parts != []
    ensures WellFormed(parts, contentType, tail) ==>
            var body := BodyOf(parts, contentType, tail);
            ((SaveUploads(body, contentType, limits, stamps).Saved?
              <==> SaveSpooled(body, contentType, limits, stamps).Saved?)
             <==> (!AllFitDropped(parts, limits)
                   || (SomeTooLargeAsSent(parts, limits) <==> SomeTooLargeUnnamed(parts, limits))))
  {
    hide ExtractBoundary, SaveUploads, SaveSpooled, GoodTail, Acceptable, Collected, Encode, GoodParts, AllFitDropped,
      SomeTooLargeAsSent, SomeTooLargeUnnamed;
    BufferParserInverts(parts, contentType, tail, limits, stamps);
    LineParserInverts(parts, contentType, tail, limits, stamps);
    AcceptableSplits(parts, limits);
  }
}

/** Bodies on which the two multipart parsers part company. */
module MultipartDifferences {
  import opened Basics
  import opened Text
  import opened UploadNames
  import opened MultipartModel
  import opened MultipartRoundTrip

  const CONTENT_TYPE: string := "multipart/form-data" + ";" + "boundary=" + "bbbbb"
  const DELIMITER: string := "--bbbbb"

  lemma BoundaryIsFound()
    ensures ExtractBoundary(CONTENT_TYPE) == Some("bbbbb")
  {
    hide Find, TrimSpaces, Lowercase;
    assert Lowercase(CONTENT_TYPE) == CONTENT_TYPE by { TypeIsLower(); }
    assert CONTENT_TYPE[0..19] == "multipart/form-data";
    assert At(CONTENT_TYPE, "multipart/form-data", 0);
    NoLetterB();
    FindAfter("multipart/form-data" + ";", "boundary=", "bbbbb");
    assert CONTENT_TYPE[29..] == "bbbbb";
    PatternIsAbsent("bbbbb", ";", 0);
    PatternIsAbsent("bbbbb", "\r", 0);
    PatternIsAbsent("bbbbb", "\n", 0);
    BoundaryIsTrimmed();
  }

  lemma NoLetterB()
    ensures Misses("multipart/form-data" + ";", 'b')
  {
  }

  lemma TypeIsLower()
    ensures Lowercase(CONTENT_TYPE) == CONTENT_TYPE
  {
  }

  lemma BoundaryIsTrimmed()
    ensures TrimSpaces("bbbbb") == "bbbbb"
  {
    hide TrimLeft, TrimRight;
    TrimPadded("bbbbb", IsSpace);
  }

  /** A header line without white space around its parts. */
  lemma PlainHeader(name: string, value: string, m: map<string, string>)
    requires Misses(name, ':') && Lowercase(name) == name && TrimRight(name, IsSpace) == name
             && TrimBlanks(value) == value
    ensures HeaderLine(name + ":" + value, m) == m[name := value]
  {
    hide Find, TrimBlanks, TrimRight, Lowercase;
    var line := name + ":" + value;
    FirstSeparator(name, ":", value);
    assert line[..|name|] == name && line[|name| + 1..] == value;
  }

  /** The only header is its header map. */
  lemma OnlyHeader(line: string, content: string)
    ensures Kind(Part([line], content)) == DispositionOf(HeaderLine(line, map[]))
  {
    hide HeaderLine, DispositionOf;
    assert [line][1..] == [];
    assert HeaderMap([line], map[]) == HeaderMap([], HeaderLine(line, map[])) == HeaderLine(line, map[]);
  }

  lemma {:induction false} LinesAreShort(content: string)
    ensures forall k :: 0 <= k < |ContentLines(content)| ==> |ContentLines(content)[k]| <= |content|
    decreases |content|
  {
    hide Find;
    var end := Find(content, "\n", 0);
    FoundAt(content, "\n", 0);
    if end.Some? { LinesAreShort(content[end.value + 1..]); }
  }

  lemma ShortIsEncodable(line: string, content: string)
    requires |content| < |DELIMITER| && line != "" && Misses(line, '\n') && line[0] != '-'
    ensures WellFormed([Part([line], content)], CONTENT_TYPE, "")
  {
    hide Find, ExtractBoundary, ContentLines;
    BoundaryIsFound();
    LinesAreShort(content);
    assert "--" + "bbbbb" == DELIMITER && |DELIMITER + "--"| == 9;
    assert !StartsWith(line, DELIMITER) by {
      if |line| >= 7 { assert line[..7][0] == line[0]; }
    }
    TooShort(content);
  }

  lemma TooShort(content: string)
    requires |content| < |DELIMITER|
    ensures NoBoundary(content, DELIMITER)
  {
  }

  // ---------------------------------------------------------------- CRLF in a file

  const FILE_HEADER: string := "content-disposition" + ":" + "filename=a"

  /** The only header of a part names its disposition. */
  lemma DispositionHeader(text: string, content: string)
    requires text != "" && !IsBlank(text[0]) && !IsBlank(text[|text| - 1])
    ensures var original := DispositionValue(text, "filename");
            Kind(Part(["content-disposition" + ":" + text], content))
            == if original == "" then Field else File(DispositionValue(text, "name"), original)
  {
    hide HeaderLine, TrimBlanks, Lowercase, TrimRight, DispositionValue, Kind, Misses;
    OnlyHeader("content-disposition" + ":" + text, content);
    DispositionIsPlain();
    ValueIsTrimmed(text);
    PlainHeader("content-disposition", text, map[]);
  }

  lemma FilenameIsA()
    ensures DispositionValue("filename=a", "filename") == "a"
  {
    hide Find, At;
    var text, quoted, plain := "filename=a", "filename=\"", "filename=";
    assert "filename" + "=\"" == quoted && "filename" + "=" == plain;
    PatternIsAbsent(text, quoted, 9);
    FindAfter("", plain, "a");
    assert "" + plain + "a" == text && text[9..] == "a";
    PatternIsAbsent("a", ";", 0);
  }

  lemma FileHeaderIsFile(content: string)
    ensures Kind(Part([FILE_HEADER], content)).File? && Kind(Part([FILE_HEADER], content)).original == "a"
  {
    hide DispositionValue, Kind;
    DispositionHeader("filename=a", content);
    FilenameIsA();
  }

  lemma DispositionIsPlain()
    ensures Misses("content-disposition", ':') && Lowercase("content-disposition") == "content-disposition"
    ensures TrimRight("content-disposition", IsSpace) == "content-disposition"
  {
    hide TrimRight;
    TrimPaddedRight("content-disposition", IsSpace);
  }

  lemma ValueIsTrimmed(text: string)
    requires text != "" && !IsBlank(text[0]) && !IsBlank(text[|text| - 1])
    ensures TrimBlanks(text) == text
  {
    hide TrimLeft, TrimRight;
    TrimPadded(text, IsBlank);
  }

  lemma NameIsSafe()
    ensures IsSafe(Sanitize("a")) && !EndsBlocked(Sanitize("a"))
  {
    NameIsClean();
    NoExtensionIsBlocked();
    hide Sanitize, BLOCKED, EndsBlocked, LastDot;
    SafeIff("a");
  }

  lemma NameIsClean()
    ensures Sanitize("a") == "a" && Lowercase("a") == "a" && Extension("a") == ""
  {
    hide TrimLeft, TrimRight, Mapped, Basename;
    PlainNameIsKept("a");
  }

  lemma NoExtensionIsBlocked()
    ensures "" !in BLOCKED
  {
  }

  /** A file with one CRLF: both parsers save it, with different contents. */
  lemma FilesWithCrLfDiffer(stamps: Stamps)
    ensures var parts := [Part([FILE_HEADER], "x\r\ny")];
            && WellFormed(parts, CONTENT_TYPE, "")
            && var body, limits := BodyOf(parts, CONTENT_TYPE, ""), UploadLimits(1, 4, 4);
            && var buffered := SaveUploads(body, CONTENT_TYPE, limits, stamps);
            && var spooled := SaveSpooled(body, CONTENT_TYPE, limits, stamps);
               buffered.Saved? && spooled.Saved? && buffered != spooled
  {
    hide Find, ExtractBoundary, SaveUploads, SaveSpooled, Kind, DropCr, Encode, IsSafe, Sanitize, WellFormed;
    var content := "x\r\ny";
    var parts := [Part([FILE_HEADER], content)];
    ShortIsEncodable(FILE_HEADER, content);
    FileHeaderIsFile(content);
    NameIsSafe();
    DropCrChanges(content);
    FirstBreak("x", "y");
    assert "x" + CRLF + "y" == content;
    assert !FilesHaveNoCrLf(parts) by { assert Kind(parts[0]).File?; }
    ParsersSaveAlikeIff(parts, CONTENT_TYPE, "", UploadLimits(1, 4, 4), stamps);
  }

  // ---------------------------------------------------------------- limits

  /** A part without disposition: skipped by the buffer parser, too large for the line parser. */
  lemma UnnamedPartDiffers(stamps: Stamps)
    ensures var parts := [Part(["x:"], "yy")];
            && WellFormed(parts, CONTENT_TYPE, "")
            && var body, limits := BodyOf(parts, CONTENT_TYPE, ""), UploadLimits(1, 1, 1);
               && SaveUploads(body, CONTENT_TYPE, limits, stamps) == Saved([])
               && SaveSpooled(body, CONTENT_TYPE, limits, stamps).Failed?
  {
    hide Find, ExtractBoundary, SaveUploads, SaveSpooled, Kind, DropCr, Encode, Encodable, IsSafe, Sanitize, HeaderLine;
    var parts, limits := [Part(["x:"], "yy")], UploadLimits(1, 1, 1);
    ShortIsEncodable("x:", "yy");
    BoundaryIsFound();
    OnlyHeader("x:", "yy");
    XIsPlain();
    PatternIsAbsent("yy", CRLF, 0);
    DropCrNothing("yy");
    assert Kind(parts[0]).Absent?;
    assert Collected(parts, [], stamps, false) == [] by { assert parts[1..] == []; }
    assert !Allowed(parts[0], limits, true);
    BufferParserInverts(parts, CONTENT_TYPE, "", limits, stamps);
    LineParserInverts(parts, CONTENT_TYPE, "", limits, stamps);
  }

  lemma XIsPlain()
    ensures HeaderLine("x:", map[]) == map["x" := ""]
  {
    hide TrimLeft, TrimRight;
    TrimPaddedRight("x", IsSpace);
    EmptyIsTrimmed();
    PlainHeader("x", "", map[]);
    assert "x" + ":" + "" == "x:";
  }

  lemma EmptyIsTrimmed()
    ensures TrimBlanks("") == ""
  {
  }

  const FIELD_HEADER: string := "content-disposition" + ":" + "name=a"

  lemma NoFilename()
    ensures DispositionValue("name=a", "filename") == ""
  {
    hide Find, At;
    assert ("filename" + "=\"")[0] == 'f' && ("filename" + "=")[0] == 'f';
    PatternIsAbsent("name=a", "filename" + "=\"", 0);
    PatternIsAbsent("name=a", "filename" + "=", 0);
  }

  lemma FieldHeaderIsField(content: string)
    ensures Kind(Part([FIELD_HEADER], content)) == Field
  {
    hide DispositionValue, Kind;
    DispositionHeader("name=a", content);
    NoFilename();
  }

  /** A field that only fits once its CR is dropped: too large for the buffer parser, accepted by the line parser. */
  lemma FieldWithCrLfDiffers(stamps: Stamps)
    ensures var parts := [Part([FIELD_HEADER], "\r\n")];
            && WellFormed(parts, CONTENT_TYPE, "")
            && var body, limits := BodyOf(parts, CONTENT_TYPE, ""), UploadLimits(1, 1, 1);
               && SaveUploads(body, CONTENT_TYPE, limits, stamps).Failed?
               && SaveSpooled(body, CONTENT_TYPE, limits, stamps) == Saved([])
  {
    hide Find, ExtractBoundary, SaveUploads, SaveSpooled, Kind, DropCr, Encode, Encodable, IsSafe, Sanitize;
    var content := "\r\n";
    var parts, limits := [Part([FIELD_HEADER], content)], UploadLimits(1, 1, 1);
    ShortIsEncodable(FIELD_HEADER, content);
    BoundaryIsFound();
    FieldHeaderIsField(content);
    FirstBreak("", "");
    assert "" + CRLF + "" == content;
    DropCrChanges(content);
    assert Collected(parts, [], stamps, true) == [] by { assert parts[1..] == []; }
    assert !Allowed(parts[0], limits, false);
    BufferParserInverts(parts, CONTENT_TYPE, "", limits, stamps);
    LineParserInverts(parts, CONTENT_TYPE, "", limits, stamps);
  }

  // ---------------------------------------------------------------- delimiter lines in a file

  const FINAL: string := DELIMITER + "--"

  lemma DelimiterFits()
    ensures IsDelimiter(DELIMITER) && "--" + "bbbbb" == DELIMITER
    ensures Misses(DELIMITER, '\n') && Misses(FINAL, '\n') && Chomp(DELIMITER) == DELIMITER && Chomp(FINAL) == FINAL
  {
  }

  /** A line and then a delimiter line: the line parser stops there, whatever follows. */
  lemma StopsAtDelimiter(x: string, d: string, s: string, limit: nat)
    requires |x| == 1 && x[0] != '\n' && x[0] != '\r' && limit >= 1
    requires d == DELIMITER || d == FINAL
    ensures ReadContent(x + "\n" + (d + CRLF + s), DELIMITER, limit, "", None) == Content(x, d == FINAL, s)
  {
    hide GetLine, ReadContent;
    DelimiterFits();
    LfLineIsRead(x, d + CRLF + s);
    LineIsRead(d, s);
    assert Chomp(x) == x && x != DELIMITER && x != FINAL;
    ContentLineStep(x + "\n" + (d + CRLF + s), limit, "", None);
    ContentLineStep(d + CRLF + s, limit, "", Some(x));
    assert "" + x == x && (d == FINAL <==> d != DELIMITER);
  }

  /** One line of the content loop. */
  lemma ContentLineStep(s: string, limit: nat, written: string, pending: Option<string>)
    requires GetLine(s).Line? && |Flushed(written, pending)| <= limit + 1 && (pending.None? ==> |written| <= limit)
    ensures var line := GetLine(s);
            && (line.text == DELIMITER || line.text == FINAL ==>
                  pending.Some? && |written| + |pending.value| <= limit ==>
                    ReadContent(s, DELIMITER, limit, written, pending)
                    == Content(written + pending.value, line.text == FINAL, line.rest))
            && (line.text != DELIMITER && line.text != FINAL && pending.None? ==>
                  ReadContent(s, DELIMITER, limit, written, pending)
                  == ReadContent(line.rest, DELIMITER, limit, written, Some(line.text)))
  {
    hide GetLine;
  }

  /** What the line parser makes of a part that starts with the file header. */
  lemma FileStarts(body: string, limits: UploadLimits, count: nat, files: seq<SavedFile>, stamps: Stamps)
    requires count + 1 <= limits.maxParts
    ensures var c := ReadContent(body, DELIMITER, limits.maxFileBytes, "", None);
            var r := SpoolParts(Lines([FILE_HEADER]) + CRLF + body, DELIMITER, limits, count, files, stamps);
            c.Content? ==>
              exists file: SavedFile :: file.content == c.text
                && r == if c.final then Saved(files + [file])
                        else SpoolParts(c.rest, DELIMITER, limits, count + 1, files + [file], stamps)
  {
    hide GetLine, ReadContent, ReadHeaders, DispositionOf, PartHeaders, HeaderMap, IsSafe, Sanitize, StoredName, Lines;
    var text := Lines([FILE_HEADER]);
    HeaderIsPlain();
    HeadersAreRead([FILE_HEADER], body, "");
    assert "" + text == text;
    LinesParse([FILE_HEADER], map[]);
    FileHeaderIsFile("");
    NameIsSafe();
    var d := Kind(Part([FILE_HEADER], ""));
    var c := ReadContent(body, DELIMITER, limits.maxFileBytes, "", None);
    if c.Content? {
      var file := SavedFile(d.field, d.original, StoredName(stamps(|files|), Sanitize(d.original)), c.text);
      assert file.content == c.text;
    }
  }

  lemma HeaderIsPlain()
    ensures FILE_HEADER != "" && Misses(FILE_HEADER, '\n') && FILE_HEADER[0] != '-'
            && !StartsWith(FILE_HEADER, DELIMITER)
  {
    DelimiterFits();
    assert FILE_HEADER[0] == 'c' && (|FILE_HEADER| >= 7 ==> FILE_HEADER[..7][0] == FILE_HEADER[0]);
    assert DELIMITER[0] == '-';
  }

  /** A body with one file, as the line parser enters it. */
  lemma OneFileBody(content: string, limits: UploadLimits, stamps: Stamps)
    requires limits.maxParts > 0 && limits.maxFileBytes > 0
    ensures var body := BodyOf([Part([FILE_HEADER], content)], CONTENT_TYPE, "");
            SaveSpooled(body, CONTENT_TYPE, limits, stamps)
            == SpoolParts(Lines([FILE_HEADER]) + CRLF + (content + CRLF + (DELIMITER + "--")), DELIMITER, limits, 0,
                          [], stamps)
  {
    hide GetLine, ExtractBoundary, SpoolParts, Lines;
    BoundaryIsFound();
    DelimiterFits();
    var p := Part([FILE_HEADER], content);
    var rest := Lines([FILE_HEADER]) + CRLF + (content + CRLF + (DELIMITER + "--"));
    EncodedPart(p, [], DELIMITER, "");
    assert [p] + [] == [p] && "--" + "" == "--";
    var text := EncodeParts([p], DELIMITER, "");
    assert text[..2] == CRLF && text[2..] == rest;
    assert Encode([p], DELIMITER, "") == DELIMITER + CRLF + rest;
    LineIsRead(DELIMITER, rest);
  }

  /** The buffer parser saves a file in which it sees no delimiter. */
  lemma OneFileIsSaved(content: string, limits: UploadLimits, stamps: Stamps)
    requires NoBoundary(content, DELIMITER) && limits.maxParts > 0 && 0 < |content| <= limits.maxFileBytes
    ensures var parts := [Part([FILE_HEADER], content)];
            && ReadByBuffer(parts, CONTENT_TYPE, "")
            && var r := SaveUploads(BodyOf(parts, CONTENT_TYPE, ""), CONTENT_TYPE, limits, stamps);
               r.Saved? && |r.files| == 1 && r.files[0].content == content
  {
    hide ExtractBoundary, SaveUploads, Kind, Encode, IsSafe, Sanitize, StoredName, NoBoundary;
    var parts := [Part([FILE_HEADER], content)];
    BoundaryIsFound();
    DelimiterFits();
    HeaderIsPlain();
    FileHeaderIsFile(content);
    NameIsSafe();
    assert parts[1..] == [];
    BufferParserInverts(parts, CONTENT_TYPE, "", limits, stamps);
  }

  lemma PrefixHasNone(prefix: string, s: string, pattern: string)
    requires pattern != "" && Misses(prefix, pattern[0]) && Find(s, pattern, 0).None?
    ensures Find(prefix + s, pattern, 0).None?
  {
    hide Find;
    var t := prefix + s;
    assert t[|prefix|..] == s;
    forall k: nat ensures !At(t, pattern, k) {
      if k < |prefix| {
        if k + |pattern| <= |t| { assert t[k..k + |pattern|][0] == t[k] == prefix[k]; }
      } else {
        AtInSuffix(t, pattern, |prefix|, k - |prefix|);
      }
    }
    FindNothing(t, pattern, 0);
  }

  /** A file with a line that is the final delimiter: both parsers accept, the line parser cuts it there. */
  lemma FinalLineInFileDiffers(stamps: Stamps)
    ensures var content := "x\n" + FINAL;
            && var parts, limits := [Part([FILE_HEADER], content)], UploadLimits(1, 99, 99);
            && ReadByBuffer(parts, CONTENT_TYPE, "")
            && var body := BodyOf(parts, CONTENT_TYPE, "");
            && var buffered := SaveUploads(body, CONTENT_TYPE, limits, stamps);
            && var spooled := SaveSpooled(body, CONTENT_TYPE, limits, stamps);
            && buffered.Saved? && spooled.Saved? && |buffered.files| == |spooled.files| == 1
            && buffered.files[0].content == content && spooled.files[0].content == "x"
  {
    hide Find, ExtractBoundary, SaveUploads, SaveSpooled, SpoolParts, ReadContent, ReadByBuffer, Lines, Encode, BodyOf;
    var content, limits := "x\n" + FINAL, UploadLimits(1, 99, 99);
    assert |content| == 11 && content[0] == 'x';
    FindNoneShort(FINAL);
    PrefixHasNone("x\n", FINAL, CRLF + DELIMITER);
    assert !StartsWith(content, DELIMITER) by { assert content[..7][0] == 'x'; }
    OneFileIsSaved(content, limits, stamps);
    OneFileBody(content, limits, stamps);
    StopsAtDelimiter("x", FINAL, DELIMITER + "--", 99);
    assert content + CRLF + (DELIMITER + "--") == "x" + "\n" + (FINAL + CRLF + (DELIMITER + "--"));
    FileStarts(content + CRLF + (DELIMITER + "--"), limits, 0, [], stamps);
  }

  lemma FindNoneShort(s: string)
    requires |s| <= 9 && Misses(s, '\r')
    ensures Find(s, CRLF + DELIMITER, 0).None?
  {
    hide Find;
    PatternIsAbsent(s, CRLF + DELIMITER, 0);
  }

  /** The end of a file that goes on, for the line parser, as a second one. */
  function Smuggled(): string {
    DELIMITER + CRLF + (FILE_HEADER + CRLF + ("" + CRLF + "y"))
  }

  lemma SmuggledHasNoBoundary()
    ensures NoBoundary("x\n" + Smuggled(), DELIMITER)
  {
    hide Find;
    DelimiterFits();
    HeaderIsPlain();
    var last, header := "" + CRLF + "y", FILE_HEADER + CRLF + ("" + CRLF + "y");
    FindNoneShort("y");
    SkipLine("", "y", DELIMITER);
    assert !StartsWith(last, DELIMITER);
    SkipLine(FILE_HEADER, last, DELIMITER);
    assert !StartsWith(header, DELIMITER) by { assert |header| >= 7 ==> header[..7][0] == FILE_HEADER[0]; }
    SkipLine(DELIMITER, header, DELIMITER);
    PrefixHasNone("x\n", Smuggled(), CRLF + DELIMITER);
    var content := "x\n" + Smuggled();
    assert !StartsWith(content, DELIMITER) by { assert |content| >= 7 ==> content[..7][0] == 'x'; }
  }

  /** A file with a delimiter line and headers behind it: the buffer parser saves one file, the line parser two. */
  lemma SecondFileInFile(stamps: Stamps)
    ensures var content := "x\n" + Smuggled();
            && var parts, limits := [Part([FILE_HEADER], content)], UploadLimits(2, 99, 99);
            && ReadByBuffer(parts, CONTENT_TYPE, "")
            && var body := BodyOf(parts, CONTENT_TYPE, "");
            && var buffered := SaveUploads(body, CONTENT_TYPE, limits, stamps);
            && var spooled := SaveSpooled(body, CONTENT_TYPE, limits, stamps);
            && buffered.Saved? && spooled.Saved? && |buffered.files| == 1 && |spooled.files| == 2
            && spooled.files[0].content == "x" && spooled.files[1].content == "y"
  {
    hide Find, ExtractBoundary, SaveUploads, SaveSpooled, SpoolParts, ReadContent, ReadByBuffer, Lines, Encode,
      BodyOf, NoBoundary;
    var content, limits := "x\n" + Smuggled(), UploadLimits(2, 99, 99);
    SmuggledHasNoBoundary();
    SmuggledIsShort();
    OneFileIsSaved(content, limits, stamps);
    OneFileBody(content, limits, stamps);
    var end := DELIMITER + "--";
    var second := "y" + CRLF + end;
    var rest := Lines([FILE_HEADER]) + CRLF + second;
    SmuggledSplits(end);
    StopsAtDelimiter("x", DELIMITER, rest, 99);
    FileStarts(content + CRLF + end, limits, 0, [], stamps);
    FinalIsRead(end, limits);
    var file: SavedFile :| file.content == "x"
      && SaveSpooled(BodyOf([Part([FILE_HEADER], content)], CONTENT_TYPE, ""), CONTENT_TYPE, limits, stamps)
         == SpoolParts(rest, DELIMITER, limits, 1, [] + [file], stamps);
    FileStarts(second, limits, 1, [] + [file], stamps);
  }

  lemma SmuggledIsShort()
    ensures 0 < |"x\n" + Smuggled()| <= 99
  {
  }

  lemma SmuggledSplits(end: string)
    ensures "x\n" + Smuggled() + CRLF + end
            == "x" + "\n" + (DELIMITER + CRLF + (Lines([FILE_HEADER]) + CRLF + ("y" + CRLF + end)))
  {
    assert [FILE_HEADER][1..] == [];
    assert Lines([FILE_HEADER]) == FILE_HEADER + CRLF;
    assert "x\n" == "x" + "\n";
  }

  /** The last line of the body ends the second file. */
  lemma FinalIsRead(end: string, limits: UploadLimits)
    requires end == DELIMITER + "--" && limits.maxFileBytes >= 1
    ensures ReadContent("y" + CRLF + end, DELIMITER, limits.maxFileBytes, "", None) == Content("y", true, "")
  {
    hide GetLine, ReadContent;
    DelimiterFits();
    LastLineIsRead(end);
    LineIsRead("y", end);
    ContentLineStep("y" + CRLF + end, limits.maxFileBytes, "", None);
    ContentLineStep(end, limits.maxFileBytes, "", Some("y"));
    assert "" + "y" == "y";
  }

  // ---------------------------------------------------------------- a preamble

  /** An empty line before the first delimiter: only the buffer parser accepts. */
  lemma EmptyLineBeforeDiffers(stamps: Stamps)
    ensures var body, limits := CRLF + BodyOf([Part([FILE_HEADER], "x")], CONTENT_TYPE, ""), UploadLimits(1, 1, 1);
            && SaveUploads(body, CONTENT_TYPE, limits, stamps).Saved?
            && SaveSpooled(body, CONTENT_TYPE, limits, stamps).Failed?
  {
    hide Find, ExtractBoundary, SaveUploads, SaveSpooled, EncodeParts;
    var parts, limits := [Part([FILE_HEADER], "x")], UploadLimits(1, 1, 1);
    BoundaryIsFound();
    DelimiterFits();
    assert !StartsWith("x", DELIMITER);
    FindNoneShort("x");
    OneFileIsSaved("x", limits, stamps);
    var rest := EncodeParts(parts, DELIMITER, "");
    var body := BodyOf(parts, CONTENT_TYPE, "");
    assert body == DELIMITER + rest && CRLF + body == CRLF + DELIMITER + rest;
    assert StartsWith(body, DELIMITER) by { assert body[..|DELIMITER|] == DELIMITER; }
    FindAfter(CRLF, DELIMITER, rest);
    PreambleDiffers(CRLF, body, CONTENT_TYPE, limits, stamps);
  }
}

/** The two parsers in the source's form: cursors, a line reader, and loops that build up the result. */
module Multipart {
  import opened Basics
  import opened Text
  import opened UploadNames
  import opened MultipartModel

  /** Every character is copied or replaced. */
  method ReplaceUnsafe(name: string) returns (out: string)
    ensures out == Mapped(name)
  {
    out := "";
    for i := 0 to |name|
      invariant |out| == i && forall k :: 0 <= k < i ==> out[k] == NameChar(name[k])
    {
      out := out + [if IsAlnum(name[i]) || name[i] == '.' || name[i] == '_' || name[i] == '-' then name[i] else '_'];
    }
  }

  /** Dots are erased from the front, one by one. */
  method EraseDots(name: string) returns (out: string)
    ensures out == TrimLeft(name, IsDot)
  {
    out := name;
    while out != "" && (out[0] == '.' || out[0] == ' ')
      invariant TrimLeft(out, IsDot) == TrimLeft(name, IsDot)
      decreases |out|
    {
      out := out[1..];
    }
  }

  /** Dots are popped from the back, one by one. */
  method PopDots(name: string) returns (out: string)
    ensures out == TrimRight(name, IsDot)
  {
    out := name;
    while out != "" && (out[|out| - 1] == '.' || out[|out| - 1] == ' ')
      invariant TrimRight(out, IsDot) == TrimRight(name, IsDot)
      decreases |out|
    {
      out := out[..|out| - 1];
    }
  }

  method SanitizeFilename(input: string) returns (out: string)
    ensures out == Sanitize(input)
  {
    hide Basename, Mapped, TrimLeft, TrimRight;
    var name := Basename(input);
    out := ReplaceUnsafe(name);
    out := EraseDots(out);
    out := PopDots(out);
    if out == "" { out := "upload.bin"; }
    if |out| > 96 { out := out[|out| - 96..]; }
    if out[0] == '.' { out := "upload_" + out; }
  }

  method ParsePartHeaders(raw: string) returns (headers: map<string, string>)
    ensures headers == PartHeaders(raw, map[])
  {
    hide Find, HeaderLine;
    headers := map[];
    var start := 0;
    while start < |raw|
      invariant start <= |raw|
      invariant PartHeaders(raw[start..], headers) == PartHeaders(raw, map[])
      decreases |raw| - start
    {
      var found := Find(raw, CRLF, start);
      FindInSuffix(raw, CRLF, start);
      FoundAt(raw, CRLF, start);
      var end := if found.Some? then found.value else |raw|;
      var line := raw[start..end];
      headers := HeaderLine(line, headers);
      assert line == raw[start..][..end - start];
      if end == |raw| {
        assert line == raw[start..];
        return;
      }
      assert raw[start..][end - start + 2..] == raw[end + 2..];
      start := end + 2;
    }
  }

  /** `Multipart::saveUploads`. */
  method SaveUploads(body: string, contentType: string, limits: UploadLimits, stamps: Stamps) returns (r: UploadResult)
    ensures r == MultipartModel.SaveUploads(body, contentType, limits, stamps)
  {
    hide Find, PartHeaders, DispositionOf, ExtractBoundary, Parts, Sanitize, IsSafe, StoredName;
    var boundary := ExtractBoundary(contentType);
    if boundary.None? { return Failed(415, []); }
    if limits.maxParts == 0 || limits.maxFileBytes == 0 { return Failed(500, []); }
    var delimiter := "--" + boundary.value;
    var at := Find(body, delimiter, 0);
    if at.None? { return Failed(400, []); }
    r := SaveFrom(body, at.value + |delimiter|, delimiter, limits, stamps);
  }

  /** The loop over the parts, from the position after the first delimiter. */
  method SaveFrom(body: string, from: nat, delimiter: string, limits: UploadLimits, stamps: Stamps)
    returns (r: UploadResult)
    requires from <= |body|
    ensures r == Parts(body[from..], delimiter, limits, 0, [], stamps)
  {
    hide Find, PartHeaders, DispositionOf, TakePart, Parts, StartsWith;
    var pos, partCount := from, 0;
    var files: seq<SavedFile> := [];
    while true
      invariant pos <= |body|
      invariant Parts(body[pos..], delimiter, limits, partCount, files, stamps)
                == Parts(body[from..], delimiter, limits, 0, [], stamps)
      decreases |body| - pos
    {
      ghost var rest := body[pos..];
      PartsStep(rest, delimiter, limits, partCount, files, stamps);
      if StartsWith(body[pos..], "--") { return Saved(files); }
      if !StartsWith(body[pos..], CRLF) { return Failed(400, files); }
      TwoChars(rest);
      pos := pos + 2;
      assert rest[2..] == body[pos..];
      FindInSuffix(body, CRLF + delimiter, pos);
      var next := Find(body, CRLF + delimiter, pos);
      if next.None? { return Failed(400, files); }
      var part := body[pos..next.value];
      assert part == rest[2..][..next.value - pos];
      assert rest[2..][next.value - pos + 2 + |delimiter|..] == body[next.value + 2 + |delimiter|..];
      pos := next.value + 2;
      partCount := partCount + 1;
      if partCount > limits.maxParts { return Failed(413, files); }
      var headerEnd := Find(part, BLANK_LINE, 0);
      if headerEnd.None? { return Failed(400, files); }
      var headers := ParsePartHeaders(part[..headerEnd.value]);
      var content := part[headerEnd.value + 4..];
      var taken := SavePart(DispositionOf(headers), content, limits, stamps(|files|));
      if taken.Refused? { return Failed(taken.status, files); }
      if taken.Kept? { files := files + [taken.file]; }
      pos := pos + |delimiter|;
    }
  }

  /** One part: the size test, then the name tests, then the file. */
  method SavePart(d: Disposition, content: string, limits: UploadLimits, stamp: string) returns (r: PartResult)
    ensures r == TakePart(d, content, limits, stamp)
    ensures d.File? && |content| <= limits.maxFileBytes ==>
              var clean := Sanitize(d.original);
              r == if EndsBlocked(clean) then Refused(415)
                   else Kept(SavedFile(d.field, d.original, stamp + "_" + clean, content))
  {
    hide Sanitize, IsSafe, EndsBlocked;
    if d.File? { SafeIff(d.original); }
    if d.Absent? { return Skipped; }
    if d.Field? {
      if |content| > limits.maxFieldBytes { return Refused(413); }
      return Skipped;
    }
    if |content| > limits.maxFileBytes { return Refused(413); }
    var clean := SanitizeFilename(d.original);
    if !IsSafe(clean) { return Refused(415); }
    return Kept(SavedFile(d.field, d.original, StoredName(stamp, clean), content));
  }

  /** One unfolding of the parser function. */
  lemma PartsStep(rest: string, delimiter: string, limits: UploadLimits, count: nat, files: seq<SavedFile>,
                  stamps: Stamps)
    ensures StartsWith(rest, "--") ==> Parts(rest, delimiter, limits, count, files, stamps) == Saved(files)
    ensures !StartsWith(rest, "--") && !StartsWith(rest, CRLF) ==>
              Parts(rest, delimiter, limits, count, files, stamps) == Failed(400, files)
    ensures !StartsWith(rest, "--") && StartsWith(rest, CRLF) ==>
      Parts(rest, delimiter, limits, count, files, stamps) == (
        var s := rest[2..];
        var next := Find(s, CRLF + delimiter, 0);
        if next.None? then Failed(400, files)
        else if count + 1 > limits.maxParts then Failed(413, files)
        else
          var part := s[..next.value];
          var headerEnd := Find(part, BLANK_LINE, 0);
          if headerEnd.None? then Failed(400, files) else
            var d := DispositionOf(PartHeaders(part[..headerEnd.value], map[]));
            var r := TakePart(d, part[headerEnd.value + 4..], limits, stamps(|files|));
            if r.Refused? then Failed(r.status, files)
            else Parts(s[next.value + 2 + |delimiter|..], delimiter, limits, count + 1,
                       if r.Kept? then files + [r.file] else files, stamps))
  {
    hide Find, PartHeaders, DispositionOf, TakePart;
  }

  // ---------------------------------------------------------------- the spool file

  /** An input file stream; `good` falls when a read fails. */
  class LineReader {
    const data: string
    var pos: nat
    var good: bool

    ghost predicate Valid()
      reads this
    {
      pos <= |data|
    }

    ghost function Rest(): string
      requires Valid()
      reads this
    {
      data[pos..]
    }

    constructor (data: string)
      ensures Valid() && good && Rest() == data
    {
      this.data, pos, good := data, 0, true;
    }

    method GetLineClean() returns (ok: bool, line: string)
      requires Valid() && (!good ==> Rest() == "")
      modifies this
      ensures Valid() && ok == good
      ensures GetLine(old(Rest())) == if ok then Line(line, Rest()) else NoLine
      ensures !ok ==> Rest() == ""
    {
      hide Find;
      if pos == |data| {
        good := false;
        return false, "";
      }
      FindInSuffix(data, "\n", pos);
      var end := Find(data, "\n", pos);
      var stop := if end.Some? then end.value else |data|;
      line := data[pos..stop];
      assert line == Rest()[..stop - pos];
      if end.Some? { assert Rest()[stop - pos + 1..] == data[stop + 1..]; }
      pos := if end.Some? then stop + 1 else stop;
      good := true;
      if line != "" && line[|line| - 1] == '\r' { line := line[..|line| - 1]; }
      ok := true;
    }
  }

  method ReadHeaderLines(input: LineReader) returns (rawHeaders: string)
    requires input.Valid() && input.good
    modifies input
    ensures input.Valid() && (!input.good ==> input.Rest() == "")
    ensures ReadHeaders(old(input.Rest()), "") == HeaderBlock(rawHeaders, input.Rest(), input.good)
  {
    hide GetLine;
    rawHeaders := "";
    while true
      invariant input.Valid() && input.good
      invariant ReadHeaders(old(input.Rest()), "") == ReadHeaders(input.Rest(), rawHeaders)
      decreases |input.Rest()|
    {
      var ok, line := input.GetLineClean();
      if !ok || line == "" { return; }
      rawHeaders := rawHeaders + line + CRLF;
    }
  }

  /** The content loop with its one pending line; `kept` goes to the file, or is only counted for a field. */
  method ReadContentLines(input: LineReader, delimiter: string, limit: nat) returns (r: ContentRead)
    requires input.Valid() && (!input.good ==> input.Rest() == "")
    modifies input
    ensures input.Valid()
    ensures r == ReadContent(old(input.Rest()), delimiter, limit, "", None)
    ensures r.Content? ==> input.good && r.rest == input.Rest()
  {
    hide GetLine;
    var finalDelimiter := delimiter + "--";
    var kept, hasPending, pending := "", false, "";
    while true
      invariant input.Valid() && (!input.good ==> input.Rest() == "")
      invariant ReadContent(old(input.Rest()), delimiter, limit, "", None)
             == ReadContent(input.Rest(), delimiter, limit, kept, if hasPending then Some(pending) else None)
      decreases |input.Rest()|
    {
      var ok, line := input.GetLineClean();
      if !ok { return Unterminated; }
      if line == delimiter || line == finalDelimiter {
        if hasPending {
          if |kept| + |pending| > limit { return TooLarge; }
          kept := kept + pending;
        }
        return Content(kept, line == finalDelimiter, input.data[input.pos..]);
      }
      if hasPending {
        if |kept| + |pending| + 1 > limit { return TooLarge; }
        kept := kept + pending + "\n";
      }
      pending, hasPending := line, true;
    }
  }

  /** `Multipart::saveUploadsFromSpoolFile`. */
  method SaveUploadsFromSpoolFile(spool: Option<string>, contentType: string, limits: UploadLimits, stamps: Stamps)
    returns (r: UploadResult)
    ensures r == SaveSpoolFile(spool, contentType, limits, stamps)
  {
    hide GetLine, ExtractBoundary, SpoolParts;
    var boundary := ExtractBoundary(contentType);
    if boundary.None? { return Failed(415, []); }
    if limits.maxParts == 0 || limits.maxFileBytes == 0 { return Failed(500, []); }
    if spool.None? { return Failed(500, []); }
    var delimiter := "--" + boundary.value;
    var input := new LineReader(spool.value);
    var ok, line := input.GetLineClean();
    if !ok || line != delimiter { return Failed(400, []); }
    r := SaveLines(input, delimiter, limits, stamps);
  }

  method SaveLines(input: LineReader, delimiter: string, limits: UploadLimits, stamps: Stamps) returns (r: UploadResult)
    requires input.Valid() && input.good
    modifies input
    ensures r == SpoolParts(old(input.Rest()), delimiter, limits, 0, [], stamps)
  {
    hide PartHeaders, DispositionOf, ReadHeaders, ReadContent, Sanitize, IsSafe, StoredName;
    var partCount := 0;
    var files: seq<SavedFile> := [];
    while true
      invariant input.Valid() && input.good
      invariant SpoolParts(old(input.Rest()), delimiter, limits, 0, [], stamps)
             == SpoolParts(input.Rest(), delimiter, limits, partCount, files, stamps)
      decreases |input.Rest()|
    {
      partCount := partCount + 1;
      if partCount > limits.maxParts { return Failed(413, files); }
      var rawHeaders := ReadHeaderLines(input);
      if !input.good && rawHeaders == "" { return Failed(400, files); }
      var headers := ParsePartHeaders(rawHeaders);
      var d := DispositionOf(headers);
      var limit, storedName := limits.maxFieldBytes, "";
      if d.File? {
        var clean := SanitizeFilename(d.original);
        if !IsSafe(clean) { return Failed(415, files); }
        limit, storedName := limits.maxFileBytes, StoredName(stamps(|files|), clean);
      }
      var c := ReadContentLines(input, delimiter, limit);
      if c.TooLarge? { return Failed(413, files); }
      if c.Unterminated? { return Failed(400, files); }
      if d.File? { files := files + [SavedFile(d.field, d.original, storedName, c.text)]; }
      if c.final { return Saved(files); }
    }
  }
}
