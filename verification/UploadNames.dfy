/** File names of uploads (src/Multipart.cpp:14-18, 126-164): what a client names a file, and what it is stored as. */
module UploadNames {
  import opened Basics
  import opened Text

  predicate IsSeparator(c: char) {
    c == '/' || c == '\\'
  }

  predicate IsDot(c: char) {
    c == '.' || c == ' '
  }

  function NameChar(c: char): char {
    if IsNameChar(c) then c else '_'
  }

  /** The text after the last separator. */
  function Basename(s: string): (r: string)
    ensures |r| <= |s| && forall k :: 0 <= k < |r| ==> !IsSeparator(r[k])
    ensures (forall k :: 0 <= k < |s| ==> !IsSeparator(s[k])) ==> r == s
  {
    if s == "" || IsSeparator(s[|s| - 1]) then "" else Basename(s[..|s| - 1]) + [s[|s| - 1]]
  }

  function Mapped(s: string): (r: string)
    ensures |r| == |s| && forall k :: 0 <= k < |r| ==> IsNameChar(r[k])
    ensures (forall k :: 0 <= k < |s| ==> IsNameChar(s[k])) ==> r == s
  {
    seq(|s|, k requires 0 <= k < |s| => NameChar(s[k]))
  }

  const LONGEST: nat := 96

  /** Default name, length limit and a prefix for a dot that the limit brings to the front. */
  function Shortened(s: string): string {
    var named := if s == "" then "upload.bin" else s;
    var short := if |named| > LONGEST then named[|named| - LONGEST..] else named;
    if short[0] == '.' then "upload_" + short else short
  }

  function Sanitize(input: string): string {
    Shortened(TrimRight(TrimLeft(Mapped(Basename(input)), IsDot), IsDot))
  }

  /** The rightmost dot. */
  function LastDot(s: string): (r: Option<nat>)
    ensures r.Some? ==> r.value < |s| && s[r.value] == '.' && forall k :: r.value < k < |s| ==> s[k] != '.'
    ensures r.None? ==> forall k :: 0 <= k < |s| ==> s[k] != '.'
  {
    if s == "" then None
    else if s[|s| - 1] == '.' then Some(|s| - 1)
    else LastDot(s[..|s| - 1])
  }

  /** `path::extension` of a plain file name: a leading dot starts no extension. */
  function Extension(name: string): string {
    var dot := LastDot(name);
    if dot.None? || dot.value == 0 || name == ".." then "" else name[dot.value..]
  }

  const BLOCKED: set<string> := {
    ".php", ".phtml", ".php3", ".php4", ".php5", ".phar",
    ".cgi", ".pl", ".py", ".rb", ".lua",
    ".sh", ".bash", ".zsh", ".fish",
    ".bat", ".cmd", ".ps1", ".vbs",
    ".exe", ".dll", ".so", ".dylib",
    ".htaccess", ".conf", ".ini", ".db", ".sqlite", ".sqlite3",
    ".key", ".pem", ".crt", ".csr", ".log"
  }

  predicate IsSafe(filename: string) {
    var lower := Lowercase(Sanitize(filename));
    && lower != ""
    && lower != ".htaccess" && lower != "server.conf" && lower != "server.production.conf"
    && Extension(lower) !in BLOCKED
  }

  // ---------------------------------------------------------------- what sanitizing gives

  /** A name that stays in its directory and is not hidden. */
  predicate IsPlainName(s: string) {
    && s != "" && (forall k :: 0 <= k < |s| ==> IsNameChar(s[k]))
    && s[0] != '.' && s[|s| - 1] != '.'
  }

  lemma TrimmedIsPlain(input: string)
    ensures var t := TrimRight(TrimLeft(Mapped(Basename(input)), IsDot), IsDot); t != "" ==> IsPlainName(t)
  {
    hide TrimLeft, TrimRight, Mapped, Basename, IsNameChar;
    var s := Mapped(Basename(input));
    TrimEnds(s, IsDot);
    TrimKeepsNameChars(s);
  }

  lemma PlainNameIsKept(input: string)
    requires IsPlainName(input)
    ensures TrimRight(TrimLeft(Mapped(Basename(input)), IsDot), IsDot) == input
  {
    hide TrimLeft, TrimRight, Mapped, Basename;
    assert Basename(input) == input by {
      hide IsAlnum;
      assert forall k :: 0 <= k < |input| ==> IsNameChar(input[k]);
      assert forall k :: 0 <= k < |input| ==> !IsSeparator(input[k]) by {
        forall k | 0 <= k < |input| ensures !IsSeparator(input[k]) {
          NameCharIsNoSeparator(input[k]);
        }
      }
    }
    assert Mapped(input) == input;
    NameCharIsNoSeparator(input[0]);
    NameCharIsNoSeparator(input[|input| - 1]);
    TrimEnds(input, IsDot);
  }

  lemma NameCharIsNoSeparator(c: char)
    requires IsNameChar(c)
    ensures !IsSeparator(c) && c != ' '
  {
  }

  lemma TrimKeepsNameChars(s: string)
    requires forall k :: 0 <= k < |s| ==> IsNameChar(s[k])
    ensures var t := TrimRight(TrimLeft(s, IsDot), IsDot); forall k :: 0 <= k < |t| ==> IsNameChar(t[k])
  {
    hide TrimLeft, TrimRight, IsNameChar;
    var left := TrimLeft(s, IsDot);
    assert forall k :: 0 <= k < |left| ==> left[k] == s[|s| - |left| + k];
    var t := TrimRight(left, IsDot);
    assert forall k :: 0 <= k < |t| ==> t[k] == left[k];
  }

  lemma ShortenedIsPlain(t: string)
    requires t != "" ==> IsPlainName(t)
    ensures IsPlainName(Shortened(t)) && Shortened(Shortened(t)) == Shortened(t)
    ensures |Shortened(t)| <= LONGEST + 7
  {
    var named := if t == "" then "upload.bin" else t;
    var short := if |named| > LONGEST then named[|named| - LONGEST..] else named;
    var r := Shortened(t);
    assert forall k :: 0 <= k < |short| ==> short[k] == named[|named| - |short| + k];
    assert forall k :: 0 <= k < |r| ==> IsNameChar(r[k]);
    if short[0] == '.' {
      assert r[|r| - LONGEST..] == short;
    }
  }

  /**
   * A sanitized name has safe characters only, no dot at either end, at most 103 characters,
   * and sanitizing it again changes nothing: the name that is checked is the name that is used.
   */
  lemma SanitizeIsIdempotent(input: string)
    ensures var clean := Sanitize(input);
            IsPlainName(clean) && |clean| <= LONGEST + 7 && Sanitize(clean) == clean
  {
    hide TrimLeft, TrimRight, Mapped, Basename, Shortened, IsPlainName;
    TrimmedIsPlain(input);
    ShortenedIsPlain(TrimRight(TrimLeft(Mapped(Basename(input)), IsDot), IsDot));
    PlainNameIsKept(Sanitize(input));
  }

  /** Directories are dropped, characters that are not safe become underscores, the rest stays. */
  lemma NameIsKept(directory: string, name: string)
    requires directory == "" || IsSeparator(directory[|directory| - 1])
    requires 0 < |name| <= 96 && name[0] != '.' && name[|name| - 1] != '.'
    requires forall k :: 0 <= k < |name| ==> name[k] != '/' && name[k] != '\\'
    ensures |Sanitize(directory + name)| == |name|
    ensures forall k :: 0 <= k < |name| ==> Sanitize(directory + name)[k] == if IsNameChar(name[k]) then name[k]
            else '_'
  {
    hide TrimLeft, TrimRight, Basename, IsNameChar, Mapped;
    BasenameDrops(directory, name);
    MappedIs(name);
    NameCharIsNoDot(name[0]);
    NameCharIsNoDot(name[|name| - 1]);
    TrimEnds(Mapped(name), IsDot);
  }

  lemma MappedIs(name: string)
    ensures |Mapped(name)| == |name|
    ensures forall k :: 0 <= k < |name| ==> Mapped(name)[k] == NameChar(name[k])
  {
    hide NameChar;
  }

  lemma NameCharIsNoDot(c: char)
    ensures c != '.' ==> !IsDot(NameChar(c))
  {
  }

  lemma {:induction false} BasenameDrops(directory: string, name: string)
    requires directory == "" || IsSeparator(directory[|directory| - 1])
    requires forall k :: 0 <= k < |name| ==> !IsSeparator(name[k])
    ensures Basename(directory + name) == name
  {
    hide IsSeparator, Basename;
    var s := directory + name;
    if name == "" {
      assert s == directory;
      BasenameStep(s);
    } else {
      var short := name[..|name| - 1];
      assert s[..|s| - 1] == directory + short && s[|s| - 1] == name[|name| - 1];
      BasenameDrops(directory, short);
      BasenameStep(s);
      assert short + [name[|name| - 1]] == name;
    }
  }

  lemma BasenameStep(s: string)
    ensures Basename(s) == if s == "" || IsSeparator(s[|s| - 1]) then "" else Basename(s[..|s| - 1]) + [s[|s| - 1]]
  {
  }

  // ---------------------------------------------------------------- the stored name

  function StoredName(stamp: string, clean: string): string {
    stamp + "_" + clean
  }

  lemma PrefixKeepsLastDot(prefix: string, s: string)
    requires forall k :: 0 <= k < |prefix| ==> prefix[k] != '.'
    ensures LastDot(prefix + s) ==
            match LastDot(s) { case None => None case Some(k) => Some(|prefix| + k) }
  {
    if s == "" {
      assert prefix + s == prefix;
    } else {
      assert (prefix + s)[..|prefix + s| - 1] == prefix + s[..|s| - 1];
      if s[|s| - 1] != '.' { PrefixKeepsLastDot(prefix, s[..|s| - 1]); }
    }
  }

  lemma PrefixKeepsExtension(stamp: string, clean: string)
    requires clean != "" && clean[0] != '.' && forall k :: 0 <= k < |stamp| ==> stamp[k] != '.'
    ensures Extension(stamp + "_" + clean) == Extension(clean)
  {
    hide LastDot;
    var prefix := stamp + "_";
    PrefixKeepsLastDot(prefix, clean);
    assert prefix[|stamp|] == '_';
    var dot := LastDot(clean);
    if dot.Some? {
      assert (prefix + clean)[|prefix| + dot.value..] == clean[dot.value..];
      assert (prefix + clean)[|stamp|] == '_';
    }
  }

  // ---------------------------------------------------------------- blocked endings

  predicate EndsWith(s: string, ending: string) {
    |ending| <= |s| && s[|s| - |ending|..] == ending
  }

  /** In some spelling, the name ends like a blocked file. */
  predicate EndsBlocked(name: string) {
    exists b :: b in BLOCKED && EndsWith(Lowercase(name), b)
  }

  /** A dot at the start and no other. */
  predicate IsEnding(b: string) {
    |b| > 1 && b[0] == '.' && forall k :: 1 <= k < |b| ==> b[k] != '.'
  }

  lemma BlockedAreEndings(b: string)
    requires b in BLOCKED
    ensures IsEnding(b)
  {
  }

  /** In a name that does not start with a dot, the extension is the ending that starts at the last dot. */
  lemma ExtensionIsEnding(name: string, b: string)
    requires name != "" && name[0] != '.' && IsEnding(b)
    ensures Extension(name) == b <==> EndsWith(name, b)
  {
    hide LastDot;
    var dot := LastDot(name);
    if EndsWith(name, b) {
      var k := |name| - |b|;
      assert forall j :: 0 <= j < |b| ==> name[k + j] == b[j];
      assert name[k] == '.';
      assert forall j :: k < j < |name| ==> name[j] == b[j - k];
      assert dot == Some(k);
    }
  }

  lemma LowercaseKeepsDots(s: string)
    ensures forall k :: 0 <= k < |s| ==> (Lowercase(s)[k] == '.' <==> s[k] == '.')
  {
  }

  /** The extension test refuses exactly the names with a blocked ending. */
  lemma BlockedIff(name: string)
    requires name != "" && name[0] != '.'
    ensures Extension(Lowercase(name)) in BLOCKED <==> EndsBlocked(name)
  {
    hide Extension, Lowercase, BLOCKED, EndsWith, IsEnding;
    LowercaseKeepsDots(name);
    var lower := Lowercase(name);
    forall b | b in BLOCKED ensures Extension(lower) == b <==> EndsWith(lower, b) {
      BlockedAreEndings(b);
      ExtensionIsEnding(lower, b);
    }
  }

  /** A client's name is refused if and only if what it is stored as has a blocked ending. */
  lemma SafeIff(original: string)
    ensures IsSafe(Sanitize(original)) <==> !EndsBlocked(Sanitize(original))
  {
    var clean := Sanitize(original);
    SanitizeIsIdempotent(original);
    hide Sanitize, Extension, EndsBlocked;
    BlockedIff(clean);
    LowercaseKeepsDots(clean);
    ConfigurationFiles(clean);
  }

  /** The names that the source lists apart are blocked by their endings as well. */
  lemma ConfigurationFiles(clean: string)
    ensures Lowercase(clean) in ["server.conf", "server.production.conf"] ==> EndsBlocked(clean)
    ensures Lowercase(clean) == ".htaccess" ==> clean[0] == '.'
  {
    assert ".conf" in BLOCKED;
    assert EndsWith("server.conf", ".conf") && EndsWith("server.production.conf", ".conf");
    LowercaseKeepsDots(clean);
  }

  /** A name in the upload directory itself, not hidden, that in no spelling has a blocked ending. */
  predicate IsHarmless(storedName: string) {
    IsPlainName(storedName) && !EndsBlocked(storedName)
  }

  lemma LowercaseParts(a: string, b: string)
    ensures Lowercase(a + "_" + b) == Lowercase(a) + "_" + Lowercase(b)
  {
  }

  /** The check on the client's name carries over to the name that the file gets. */
  lemma SafeNameIsStoredHarmless(stamp: string, original: string)
    ensures Digits(stamp) && IsSafe(Sanitize(original)) ==> IsHarmless(StoredName(stamp, Sanitize(original)))
  {
    hide Sanitize, LastDot, Extension, BLOCKED, EndsBlocked;
    SanitizeIsIdempotent(original);
    var clean := Sanitize(original);
    var s := StoredName(stamp, clean);
    if Digits(stamp) && IsSafe(clean) {
      BlockedIff(s);
      assert forall k :: 0 <= k < |s| ==> IsNameChar(s[k]);
      LowercaseParts(stamp, clean);
      PrefixKeepsExtension(Lowercase(stamp), Lowercase(clean));
    }
  }
}
