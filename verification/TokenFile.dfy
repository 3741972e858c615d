/** The token file as `scripts/manage_auth_tokens.py` reads and writes it (lines 16-126). */
module TokenFileModel {
  import opened Basics
  import opened Text

  datatype TokenEntry = TokenEntry(name: string, digest: string, scopes: seq<string>, expires: string)

  /** What `load_entries` returns: lines kept as they are, and the entries in file order. */
  datatype Loaded = Loaded(preserved: seq<string>, entries: seq<TokenEntry>)

  // ---------------------------------------------------------------- text as Python sees it

  /** `str.isspace`, which `str.strip` and `\s` go by. */
  predicate IsPySpace(c: char) {
    var n := c as int;
    || n == 0x20 || 9 <= n <= 13 || 0x1c <= n <= 0x1f || n == 0x85 || n == 0xa0 || n == 0x1680
    || 0x2000 <= n <= 0x200a || n == 0x2028 || n == 0x2029 || n == 0x202f || n == 0x205f || n == 0x3000
  }

  /** Where `str.splitlines` ends a line. */
  predicate IsBreak(c: char) {
    var n := c as int;
    10 <= n <= 13 || 0x1c <= n <= 0x1e || n == 0x85 || n == 0x2028 || n == 0x2029
  }

  function StripLeft(s: string): string {
    TrimLeft(s, IsPySpace)
  }

  function StripRight(s: string): string {
    TrimRight(s, IsPySpace)
  }

  function Strip(s: string): string {
    StripRight(StripLeft(s))
  }

  function LineLength(s: string): (n: nat)
    ensures n <= |s| && forall k :: 0 <= k < n ==> !IsBreak(s[k])
    ensures n < |s| ==> IsBreak(s[n])
  {
    if s == "" || IsBreak(s[0]) then 0 else 1 + LineLength(s[1..])
  }

  function SplitLines(s: string): seq<string>
    decreases |s|
  {
    if s == "" then [] else
      var n := LineLength(s);
      if n == |s| then [s]
      else [s[..n]] + SplitLines(s[n + (if s[n] == '\r' && n + 1 < |s| && s[n + 1] == '\n' then 2 else 1)..])
  }

  /** `text.split(separator)`. */
  function Split(s: string, separator: string): seq<string>
    requires |separator| == 1
    decreases |s|
  {
    var k := Find(s, separator, 0);
    if k.None? then [s] else
      FoundAt(s, separator, 0);
      [s[..k.value]] + Split(s[k.value + 1..], separator)
  }

  /** `separator.join(parts)`. */
  function Join(parts: seq<string>, separator: string): string {
    if parts == [] then ""
    else if |parts| == 1 then parts[0]
    else parts[0] + separator + Join(parts[1..], separator)
  }

  // ---------------------------------------------------------------- the patterns

  predicate IsName(s: string) {
    s != "" && forall k :: 0 <= k < |s| ==> IsNameChar(s[k])
  }

  predicate IsScope(s: string) {
    s != "" && forall k :: 0 <= k < |s| ==> IsNameChar(s[k]) || s[k] == ':'
  }

  predicate IsHexChar(c: char) {
    IsDigit(c) || 'a' <= c <= 'f' || 'A' <= c <= 'F'
  }

  predicate IsHex64(s: string) {
    |s| == 64 && forall k :: 0 <= k < |s| ==> IsHexChar(s[k])
  }

  function NameLength(s: string): (n: nat)
    ensures n <= |s|
  {
    if s == "" || !IsNameChar(s[0]) then 0 else 1 + NameLength(s[1..])
  }

  /** `str.lower` as far as ASCII results go: besides A to Z, the Kelvin sign becomes a `k`. */
  function PyLower(c: char): char {
    if c == '\U{212A}' then 'k' else Lower(c)
  }

  function PyLowercase(s: string): (r: string)
    ensures |r| == |s|
  {
    seq(|s|, k requires 0 <= k < |s| => PyLower(s[k]))
  }

  /** Stripped, lower-cased, and without the blank ones. */
  function CleanScopes(parts: seq<string>): seq<string> {
    if parts == [] then []
    else (if Strip(parts[0]) == "" then [] else [PyLowercase(Strip(parts[0]))]) + CleanScopes(parts[1..])
  }

  function ParseScopes(text: string): Option<seq<string>> {
    var scopes := CleanScopes(Split(text, ","));
    if scopes == [] || exists k :: 0 <= k < |scopes| && !IsScope(scopes[k]) then None else Some(scopes)
  }

  /** The text after one expected piece: the piece itself, then nothing where it is missing. */
  function After(s: string, piece: string): Option<string> {
    if StartsWith(s, piece) then Some(s[|piece|..]) else None
  }

  /** The groups of `TOKEN_RE`, leaving the scopes as text. */
  datatype Groups = Groups(name: string, digest: string, scopes: string, expires: string)

  /** The part of the pattern after the digest: two bars, something between them, an expiry. */
  function MatchTail(name: string, digest: string, s: string): Option<Groups> {
    var bar := After(StripLeft(s), "|");
    if bar.None? then None else
      var next := Find(bar.value, "|", 0);
      if next.None? then None else
        var scopes, expires := Strip(bar.value[..next.value]), Strip(bar.value[next.value + 1..]);
        if expires == "never" || Digits(expires) then Some(Groups(name, digest, scopes, expires)) else None
  }

  /** `TOKEN_RE.fullmatch`; scopes of white space only come out empty and are refused one step later. */
  function MatchToken(raw: string): Option<Groups> {
    var key := After(StripLeft(raw), "token.");
    if key.None? then None else
      var n := NameLength(key.value);
      var equals := After(StripLeft(key.value[n..]), "=");
      if n == 0 || equals.None? then None else
        var hash := After(StripLeft(equals.value), "sha256:");
        if hash.None? || |hash.value| < 64 || !IsHex64(hash.value[..64]) then None
        else MatchTail(key.value[..n], hash.value[..64], hash.value[64..])
  }

  function ParseEntry(raw: string): Option<TokenEntry> {
    var g := MatchToken(raw);
    if g.None? then None else
      var scopes := ParseScopes(g.value.scopes);
      if scopes.None? then None
      else Some(TokenEntry(g.value.name, Lowercase(g.value.digest), scopes.value, Lowercase(g.value.expires)))
  }

  // ---------------------------------------------------------------- reading

  predicate IsPreserved(raw: string) {
    Strip(raw) == "" || StartsWith(Strip(raw), "#")
  }

  predicate HasName(entries: seq<TokenEntry>, name: string) {
    exists k :: 0 <= k < |entries| && entries[k].name == name
  }

  /** The loop of `load_entries`; nothing where the program exits with an error. */
  function LoadLines(lines: seq<string>, state: Loaded): Option<Loaded> {
    if lines == [] then Some(state)
    else if IsPreserved(lines[0]) then LoadLines(lines[1..], state.(preserved := state.preserved + [lines[0]]))
    else
      var e := ParseEntry(lines[0]);
      if e.None? || HasName(state.entries, e.value.name) then None
      else LoadLines(lines[1..], state.(entries := state.entries + [e.value]))
  }

  function Load(text: string): Option<Loaded> {
    LoadLines(SplitLines(text), Loaded([], []))
  }

  // ---------------------------------------------------------------- writing

  function Serialize(e: TokenEntry): string {
    "token." + e.name + " = sha256:" + e.digest + " | " + Join(e.scopes, ",") + " | " + e.expires
  }

  /** Strings in code point order. */
  predicate AtMost(a: string, b: string) {
    a == "" || (b != "" && (a[0] < b[0] || (a[0] == b[0] && AtMost(a[1..], b[1..]))))
  }

  function Insert(e: TokenEntry, s: seq<TokenEntry>): seq<TokenEntry> {
    if s == [] || AtMost(e.name, s[0].name) then [e] + s else [s[0]] + Insert(e, s[1..])
  }

  /** The entries in the order of `sorted(entries)`. */
  function Sorted(s: seq<TokenEntry>): seq<TokenEntry> {
    if s == [] then [] else Insert(s[0], Sorted(s[1..]))
  }

  function SerializeAll(s: seq<TokenEntry>): (r: seq<string>)
    ensures |r| == |s| && forall k :: 0 <= k < |s| ==> r[k] == Serialize(s[k])
  {
    if s == [] then [] else [Serialize(s[0])] + SerializeAll(s[1..])
  }

  /** The preserved lines, set off by a blank one. */
  function Heading(preserved: seq<string>): seq<string> {
    if preserved != [] && Strip(preserved[|preserved| - 1]) != "" then preserved + [""] else preserved
  }

  function Layout(l: Loaded): seq<string> {
    Heading(l.preserved) + SerializeAll(Sorted(l.entries))
  }

  /** The text that `atomic_write` puts into the file. */
  function Payload(l: Loaded): string {
    StripRight(Join(Layout(l), "\n")) + "\n"
  }
}

/** What is written is read back. */
module TokenFileRoundTrip {
  import opened Basics
  import opened Text
  import opened TokenFileModel

  predicate ValidEntry(e: TokenEntry) {
    && IsName(e.name)
    && IsHex64(e.digest) && Lowercase(e.digest) == e.digest
    && e.scopes != []
    && (forall k :: 0 <= k < |e.scopes| ==> IsScope(e.scopes[k]) && Lowercase(e.scopes[k]) == e.scopes[k])
    && (e.expires == "never" || Digits(e.expires))
  }

  predicate DistinctNames(s: seq<TokenEntry>) {
    forall i, j :: 0 <= i < j < |s| ==> s[i].name != s[j].name
  }

  predicate NoBreaks(s: string) {
    forall k :: 0 <= k < |s| ==> !IsBreak(s[k])
  }

  /** A line the program would keep as it is. */
  predicate ValidPreserved(raw: string) {
    IsPreserved(raw) && NoBreaks(raw)
  }

  predicate Valid(l: Loaded) {
    && (forall k :: 0 <= k < |l.preserved| ==> ValidPreserved(l.preserved[k]))
    && (forall k :: 0 <= k < |l.entries| ==> ValidEntry(l.entries[k]))
    && DistinctNames(l.entries)
  }

  // ---------------------------------------------------------------- characters

  predicate IsPlainChar(c: char) {
    IsNameChar(c) || c == ':' || c == ','
  }

  /** Text that neither ends a line nor ends a field. */
  predicate Plain(s: string) {
    s != "" && forall k :: 0 <= k < |s| ==> IsPlainChar(s[k])
  }

  lemma PlainChar(c: char)
    requires IsPlainChar(c)
    ensures !IsPySpace(c) && !IsBreak(c) && c != '|' && c != '#' && c != '=' && c != ' '
  {
  }

  lemma {:induction false} JoinIsPlain(scopes: seq<string>)
    requires scopes != [] && forall k :: 0 <= k < |scopes| ==> IsScope(scopes[k])
    ensures Plain(Join(scopes, ","))
    decreases |scopes|
  {
    hide IsNameChar;
    if |scopes| > 1 {
      JoinIsPlain(scopes[1..]);
    }
  }

  lemma FieldsArePlain(e: TokenEntry)
    requires ValidEntry(e)
    ensures Plain(e.name) && Plain(e.digest) && Plain(Join(e.scopes, ",")) && Plain(e.expires)
  {
    JoinIsPlain(e.scopes);
    if e.expires == "never" { assert Plain("never"); }
  }

  // ---------------------------------------------------------------- stripping

  lemma OneSpaceLeft(t: string)
    requires t != "" && !IsPySpace(t[0])
    ensures StripLeft(t) == t && StripLeft(" " + t) == t
  {
    TrimPaddedLeft(t, IsPySpace);
  }

  lemma OneSpaceRight(t: string)
    requires t != "" && !IsPySpace(t[|t| - 1])
    ensures StripRight(t) == t && StripRight(t + " ") == t
  {
    TrimPaddedRight(t, IsPySpace);
  }

  lemma StripPlain(t: string)
    requires Plain(t)
    ensures Strip(t) == t && Strip(" " + t) == t && Strip(" " + t + " ") == t
  {
    hide IsPlainChar, IsPySpace, StripLeft, StripRight;
    PlainChar(t[0]);
    PlainChar(t[|t| - 1]);
    OneSpaceLeft(t);
    OneSpaceRight(t);
    assert (t + " ")[0] == t[0];
    OneSpaceLeft(t + " ");
    assert " " + t + " " == " " + (t + " ");
  }

  // ---------------------------------------------------------------- scopes

  lemma {:induction false} SplitJoin(scopes: seq<string>)
    requires scopes != [] && forall k :: 0 <= k < |scopes| ==> IsScope(scopes[k])
    ensures Split(Join(scopes, ","), ",") == scopes
    decreases |scopes|
  {
    hide Find, IsNameChar;
    var x := scopes[0];
    NotInScope(x);
    if |scopes| > 1 {
      var rest := Join(scopes[1..], ",");
      SplitJoin(scopes[1..]);
      FirstSeparator(x, ",", rest);
      var t := x + "," + rest;
      assert t[..|x|] == x && t[|x| + 1..] == rest;
    } else {
      NoSeparator(x, ",");
    }
  }

  lemma NotInScope(s: string)
    requires IsScope(s)
    ensures Misses(s, ',')
  {
  }

  lemma {:induction false} CleanKeeps(scopes: seq<string>)
    requires forall k :: 0 <= k < |scopes| ==> IsScope(scopes[k]) && Lowercase(scopes[k]) == scopes[k]
    ensures CleanScopes(scopes) == scopes
    decreases |scopes|
  {
    hide Strip, Lowercase, PyLowercase, IsNameChar;
    if scopes != [] {
      ScopeIsAscii(scopes[0]);
      ScopeIsPlain(scopes[0]);
      StripPlain(scopes[0]);
      CleanKeeps(scopes[1..]);
    }
  }

  lemma ScopeIsAscii(s: string)
    requires IsScope(s)
    ensures PyLowercase(s) == Lowercase(s)
  {
  }

  lemma ScopeIsPlain(s: string)
    requires IsScope(s)
    ensures Plain(s)
  {
  }

  lemma ScopesRoundTrip(scopes: seq<string>)
    requires scopes != [] && forall k :: 0 <= k < |scopes| ==> IsScope(scopes[k]) && Lowercase(scopes[k]) == scopes[k]
    ensures ParseScopes(Join(scopes, ",")) == Some(scopes)
  {
    hide IsScope, Lowercase, CleanScopes, Join, Split;
    SplitJoin(scopes);
    CleanKeeps(scopes);
  }

  // ---------------------------------------------------------------- one entry

  lemma TailMatches(name: string, digest: string, scopes: string, expires: string)
    requires Plain(scopes) && Plain(expires) && (expires == "never" || Digits(expires))
    ensures MatchTail(name, digest, " | " + scopes + " | " + expires) == Some(Groups(name, digest, scopes, expires))
  {
    hide Find, Strip, StripLeft, Digits, IsPlainChar, IsPySpace;
    var s := " | " + scopes + " | " + expires;
    var bar := " " + scopes + " | " + expires;
    assert s == " " + ("|" + bar);
    OneSpaceLeftBar(bar);
    assert ("|" + bar)[..1] == "|" && ("|" + bar)[1..] == bar;
    var left := " " + scopes + " ";
    var right := " " + expires;
    assert bar == left + "|" + right;
    PlainHasNoBar(scopes);
    FirstSeparator(left, "|", right);
    assert bar[..|left|] == left && bar[|left| + 1..] == right;
    StripPlain(scopes);
    StripPlain(expires);
  }

  lemma OneSpaceLeftBar(bar: string)
    ensures StripLeft(" " + ("|" + bar)) == "|" + bar
  {
    OneSpaceLeft("|" + bar);
  }

  lemma PlainHasNoBar(s: string)
    requires Plain(s)
    ensures Misses(" " + s + " ", '|')
  {
    hide IsPlainChar;
    var t := " " + s + " ";
    forall k | 0 <= k < |t| ensures t[k] != '|' {
      if 1 <= k <= |s| { PlainChar(s[k - 1]); }
    }
  }

  lemma {:induction false} NameEnds(name: string, s: string)
    requires IsName(name) || name == ""
    requires s != "" && !IsNameChar(s[0])
    ensures NameLength(name + s) == |name|
    decreases |name|
  {
    hide IsNameChar;
    if name == "" {
      assert name + s == s;
    } else {
      assert (name + s)[1..] == name[1..] + s;
      NameEnds(name[1..], s);
    }
  }

  lemma StartsWithSelf(prefix: string, s: string)
    ensures After(prefix + s, prefix) == Some(s)
  {
    assert (prefix + s)[..|prefix|] == prefix && (prefix + s)[|prefix|..] == s;
  }

  lemma LineMatches(name: string, digest: string, scopes: string, expires: string)
    requires IsName(name) && IsHex64(digest) && Plain(scopes) && Plain(expires)
             && (expires == "never" || Digits(expires))
    ensures MatchToken("token." + name + " = sha256:" + digest + " | " + scopes + " | " + expires)
            == Some(Groups(name, digest, scopes, expires))
  {
    hide StripLeft, Digits, IsNameChar, IsHexChar, MatchTail, After, Plain, IsPySpace, NameLength;
    var tail := " | " + scopes + " | " + expires;
    var hash := digest + tail;
    var equals := " " + ("sha256:" + hash);
    var rest := " " + ("=" + equals);
    var key := name + rest;
    assert "token." + key == "token." + name + " = sha256:" + digest + " | " + scopes + " | " + expires by {
      Associate(name, digest, scopes, expires);
    }
    FirstChars(key, equals, hash);
    StartsWithSelf("token.", key);
    NameEnds(name, rest);
    assert key[..|name|] == name && key[|name|..] == rest;
    StartsWithSelf("=", equals);
    StartsWithSelf("sha256:", hash);
    assert hash[..64] == digest && hash[64..] == tail;
    TailMatches(name, digest, scopes, expires);
  }

  lemma Associate(name: string, digest: string, scopes: string, expires: string)
    ensures "token." + (name + (" " + ("=" + (" " + ("sha256:" + (digest + (" | " + scopes + " | " + expires)))))))
            == "token." + name + " = sha256:" + digest + " | " + scopes + " | " + expires
  {
    assert " " + ("=" + (" " + "sha256:")) == " = sha256:";
  }

  /** The places where the pattern skips white space before a fixed piece. */
  lemma FirstChars(key: string, equals: string, hash: string)
    ensures StripLeft("token." + key) == "token." + key
    ensures StripLeft(" " + ("=" + equals)) == "=" + equals && !IsNameChar((" " + ("=" + equals))[0])
    ensures StripLeft(" " + ("sha256:" + hash)) == "sha256:" + hash
  {
    hide StripLeft;
    OneSpaceLeft("token." + key);
    OneSpaceLeft("=" + equals);
    OneSpaceLeft("sha256:" + hash);
  }

  /** One entry is read back from its line, and its line is not mistaken for a comment. */
  lemma EntryRoundTrip(e: TokenEntry)
    requires ValidEntry(e)
    ensures ParseEntry(Serialize(e)) == Some(e) && !IsPreserved(Serialize(e))
    ensures NoBreaks(Serialize(e)) && StripRight(Serialize(e)) == Serialize(e)
  {
    hide MatchToken, ParseScopes, Join, IsHex64, IsName, Digits, Plain, NoBreaks, IsPreserved, StripRight;
    FieldsArePlain(e);
    LineMatches(e.name, e.digest, Join(e.scopes, ","), e.expires);
    ScopesRoundTrip(e.scopes);
    ExpiryIsLower(e.expires);
    LineIsVisible(e);
  }

  lemma ExpiryIsLower(s: string)
    requires s == "never" || Digits(s)
    ensures Lowercase(s) == s
  {
    assert forall k :: 0 <= k < |s| ==> Lowercase(s)[k] == s[k];
  }

  lemma LineIsVisible(e: TokenEntry)
    requires Plain(e.name) && Plain(e.digest) && Plain(Join(e.scopes, ",")) && Plain(e.expires)
    ensures !IsPreserved(Serialize(e)) && NoBreaks(Serialize(e)) && StripRight(Serialize(e)) == Serialize(e)
  {
    hide Join, IsPlainChar, IsPySpace, IsBreak, StripRight, StripLeft;
    var scopes := Join(e.scopes, ",");
    var s := Serialize(e);
    assert s[|s| - 1] == e.expires[|e.expires| - 1];
    PlainChar(s[|s| - 1]);
    OneSpaceRight(s);
    assert s[0] == 't';
    NotASpace();
    OneSpaceLeft(s);
    assert NoBreaks(s) by {
      PlainNoBreaks(e.name);
      PlainNoBreaks(e.digest);
      PlainNoBreaks(scopes);
      PlainNoBreaks(e.expires);
      PiecesNoBreaks();
    }
  }

  lemma NotASpace()
    ensures !IsPySpace('t')
  {
  }

  lemma PlainNoBreaks(s: string)
    requires Plain(s)
    ensures NoBreaks(s)
  {
    hide IsPlainChar, IsBreak;
    forall k | 0 <= k < |s| ensures !IsBreak(s[k]) {
      PlainChar(s[k]);
    }
  }

  lemma PiecesNoBreaks()
    ensures NoBreaks("token.") && NoBreaks(" = sha256:") && NoBreaks(" | ")
  {
  }

  // ---------------------------------------------------------------- lines

  lemma {:induction false} LineEnds(x: string, s: string)
    requires NoBreaks(x) && s != "" && IsBreak(s[0])
    ensures LineLength(x + s) == |x|
    decreases |x|
  {
    hide IsBreak;
    if x == "" {
      assert x + s == s;
    } else {
      assert (x + s)[1..] == x[1..] + s;
      LineEnds(x[1..], s);
    }
  }

  lemma LineIsSplit(x: string, rest: string)
    requires NoBreaks(x)
    ensures SplitLines(x + "\n" + rest) == [x] + SplitLines(rest)
  {
    hide LineLength;
    var t := x + "\n" + rest;
    assert t == x + ("\n" + rest);
    LineEnds(x, "\n" + rest);
    assert t[..|x|] == x && t[|x|] == '\n' && t[|x| + 1..] == rest;
  }

  /** Lines joined and closed by line feeds are split again. */
  lemma {:induction false} SplitJoinedLines(lines: seq<string>)
    requires lines != [] && forall k :: 0 <= k < |lines| ==> NoBreaks(lines[k])
    ensures SplitLines(Join(lines, "\n") + "\n") == lines
    decreases |lines|
  {
    hide NoBreaks, LineLength;
    var x := lines[0];
    if |lines| == 1 {
      LineIsSplit(x, "");
      assert x + "\n" + "" == x + "\n";
    } else {
      var rest := Join(lines[1..], "\n") + "\n";
      SplitJoinedLines(lines[1..]);
      LineIsSplit(x, rest);
      assert Join(lines, "\n") + "\n" == x + "\n" + rest;
    }
  }

  lemma {:induction false} JoinLast(lines: seq<string>, last: string)
    requires lines != []
    ensures Join(lines + [last], "\n") == Join(lines, "\n") + "\n" + last
    decreases |lines|
  {
    if |lines| > 1 {
      assert (lines + [last])[1..] == lines[1..] + [last];
      JoinLast(lines[1..], last);
    }
  }

  // ---------------------------------------------------------------- trailing white space

  lemma {:induction false} StripSum(a: string, b: string)
    ensures StripRight(a + b) == if StripRight(b) == "" then StripRight(a) else a + StripRight(b)
    decreases |b|
  {
    hide IsPySpace;
    if b == "" {
      assert a + b == a;
    } else {
      var c := b[..|b| - 1];
      assert (a + b)[..|a + b| - 1] == a + c;
      if IsPySpace(b[|b| - 1]) { StripSum(a, c); }
    }
  }

  /** Where a line starts and ends to be visible. */
  lemma {:induction false} Visible(x: string)
    ensures StripRight(x) == "" <==> StripLeft(x) == ""
    ensures StripLeft(x) != "" ==>
              && StripLeft(StripRight(x)) != ""
              && StripLeft(StripRight(x))[0] == StripLeft(x)[0]
    decreases |x|
  {
    hide IsPySpace;
    if x != "" {
      if IsPySpace(x[0]) {
        Visible(x[1..]);
        StripSum([x[0]], x[1..]);
        assert x == [x[0]] + x[1..];
        assert StripRight([x[0]]) == "";
        if StripLeft(x) != "" { assert StripRight(x)[1..] == StripRight(x[1..]); }
      } else {
        StripSum([x[0]], x[1..]);
        assert x == [x[0]] + x[1..];
        assert StripRight([x[0]]) == [x[0]];
      }
    }
  }

  predicate IsComment(x: string) {
    StripLeft(x) == "" || StripLeft(x)[0] == '#'
  }

  lemma PreservedIsComment(x: string)
    ensures IsPreserved(x) <==> IsComment(x)
    ensures Strip(x) == "" <==> StripLeft(x) == ""
  {
    hide IsPySpace, StripLeft, StripRight;
    var y := StripLeft(x);
    if y != "" {
      FirstIsVisible(x);
      StartsWithFirst(StripRight(y));
    } else {
      NothingToStrip();
      assert Strip(x) == "";
    }
  }

  lemma StartsWithFirst(z: string)
    ensures StartsWith(z, "#") <==> z != "" && z[0] == '#'
  {
    if z != "" { assert z[..1] == [z[0]]; }
  }

  lemma FirstIsVisible(x: string)
    requires StripLeft(x) != ""
    ensures var z := StripRight(StripLeft(x)); z != "" && z[0] == StripLeft(x)[0]
  {
    hide IsPySpace;
    var y := StripLeft(x);
    TrimLeftEnd(x, IsPySpace);
    KeepsFirst(y);
  }

  lemma {:induction false} KeepsFirst(y: string)
    requires y != "" && !IsPySpace(y[0])
    ensures StripRight(y) != "" && StripRight(y)[0] == y[0]
    decreases |y|
  {
    hide IsPySpace;
    if IsPySpace(y[|y| - 1]) { KeepsFirst(y[..|y| - 1]); }
  }

  lemma NothingToStrip()
    ensures StripRight("") == "" && StripLeft("") == ""
  {
  }

  /** The lines that are left when white space is stripped from the end of the joined text. */
  function StripTail(lines: seq<string>): seq<string> {
    if lines == [] then [] else
      var n := |lines| - 1;
      if StripRight(lines[n]) == "" then StripTail(lines[..n]) else lines[..n] + [StripRight(lines[n])]
  }

  lemma {:induction false} StripJoined(lines: seq<string>)
    ensures StripRight(Join(lines, "\n")) == Join(StripTail(lines), "\n")
    decreases |lines|
  {
    hide StripRight, Join;
    JoinNone();
    if lines == [] {
      NothingToStrip();
    } else {
      var n := |lines| - 1;
      var init, last := lines[..n], lines[n];
      assert lines == init + [last];
      JoinOne(last);
      JoinOne(StripRight(last));
      if init != [] {
        var text := Join(init, "\n");
        JoinLast(init, last);
        StripLastLine(text, last);
        StripJoined(init);
        JoinLast(init, StripRight(last));
      }
    }
  }

  lemma StripLastLine(text: string, last: string)
    ensures StripRight(text + "\n" + last)
            == if StripRight(last) == "" then StripRight(text) else text + "\n" + StripRight(last)
  {
    hide StripRight;
    assert text + "\n" + last == text + ("\n" + last);
    StripSum(text, "\n" + last);
    StripSum("\n", last);
    LineFeedIsStripped();
  }

  lemma JoinNone()
    ensures Join([], "\n") == ""
  {
  }

  lemma JoinOne(x: string)
    ensures Join([x], "\n") == x && [] + [x] == [x]
  {
  }

  lemma LineFeedIsStripped()
    ensures StripRight("\n") == ""
  {
    assert "\n"[..0] == "";
  }

  lemma StripRightAgain(s: string)
    ensures StripRight(StripRight(s)) == StripRight(s)
  {
    hide IsPySpace;
    TrimRightEnd(s, IsPySpace);
  }

  /** Stripped lines are the preserved lines again, the last one possibly shorter. */
  lemma {:induction false} StrippedLines(lines: seq<string>)
    requires forall k :: 0 <= k < |lines| ==> ValidPreserved(lines[k])
    ensures var r := StripTail(lines);
            && (forall k :: 0 <= k < |r| ==> ValidPreserved(r[k]))
            && (r != [] ==> StripRight(r[|r| - 1]) == r[|r| - 1] != "")
            && StripTail(r) == r
    decreases |lines|
  {
    hide StripRight, ValidPreserved;
    if lines != [] {
      var n := |lines| - 1;
      if StripRight(lines[n]) == "" {
        StrippedLines(lines[..n]);
      } else {
        StripRightAgain(lines[n]);
        ShorterIsValid(lines[n]);
      }
    }
  }

  lemma ShorterIsValid(x: string)
    requires ValidPreserved(x) && StripRight(x) != ""
    ensures ValidPreserved(StripRight(x))
  {
    hide IsPreserved, IsBreak, StripLeft;
    Visible(x);
    PreservedIsComment(x);
    PreservedIsComment(StripRight(x));
    var r := StripRight(x);
    assert r == x[..|r|];
  }

  // ---------------------------------------------------------------- the order of the entries

  lemma {:induction false} OrderIsTotal(a: string, b: string)
    ensures AtMost(a, b) || AtMost(b, a)
    ensures AtMost(a, b) && AtMost(b, a) ==> a == b
    decreases |a|
  {
    if a != "" && b != "" && a[0] == b[0] {
      OrderIsTotal(a[1..], b[1..]);
      assert a == [a[0]] + a[1..] && b == [b[0]] + b[1..];
    }
  }

  predicate Ordered(s: seq<TokenEntry>) {
    forall k :: 0 < k < |s| ==> AtMost(s[k - 1].name, s[k].name)
  }

  lemma {:induction false} InsertPermutes(e: TokenEntry, s: seq<TokenEntry>)
    ensures multiset(Insert(e, s)) == multiset(s) + multiset{e} && |Insert(e, s)| == |s| + 1
    decreases |s|
  {
    hide AtMost;
    if s != [] {
      assert s == [s[0]] + s[1..];
      InsertPermutes(e, s[1..]);
    }
  }

  lemma {:induction false} InsertOrders(e: TokenEntry, s: seq<TokenEntry>)
    requires Ordered(s)
    ensures Insert(e, s) != [] && Ordered(Insert(e, s))
    ensures Insert(e, s)[0] == if s == [] || AtMost(e.name, s[0].name) then e else s[0]
    decreases |s|
  {
    hide AtMost;
    if s == [] || AtMost(e.name, s[0].name) {
      OrderedCons(e, s);
    } else {
      OrderIsTotal(e.name, s[0].name);
      OrderedTail(s);
      InsertOrders(e, s[1..]);
      OrderedCons(s[0], Insert(e, s[1..]));
    }
  }

  lemma OrderedCons(e: TokenEntry, s: seq<TokenEntry>)
    requires Ordered(s) && (s != [] ==> AtMost(e.name, s[0].name))
    ensures Ordered([e] + s)
  {
    hide AtMost;
    var t := [e] + s;
    forall k | 0 < k < |t| ensures AtMost(t[k - 1].name, t[k].name) {
      if k > 1 { assert t[k - 1] == s[k - 2] && t[k] == s[k - 1]; }
    }
  }

  lemma OrderedTail(s: seq<TokenEntry>)
    requires Ordered(s) && s != []
    ensures Ordered(s[1..]) && (|s| > 1 ==> AtMost(s[0].name, s[1..][0].name))
  {
    hide AtMost;
    var t := s[1..];
    forall k | 0 < k < |t| ensures AtMost(t[k - 1].name, t[k].name) {
      assert t[k - 1] == s[k] && t[k] == s[k + 1];
    }
    if |s| > 1 { assert AtMost(s[1 - 1].name, s[1].name); }
  }

  /** `sorted` permutes its input into name order, and does nothing the second time. */
  lemma {:induction false} SortedIsSorted(s: seq<TokenEntry>)
    ensures multiset(Sorted(s)) == multiset(s) && |Sorted(s)| == |s|
    ensures Ordered(Sorted(s))
    decreases |s|
  {
    hide AtMost, Insert, Ordered;
    if s != [] {
      SortedIsSorted(s[1..]);
      InsertPermutes(s[0], Sorted(s[1..]));
      InsertOrders(s[0], Sorted(s[1..]));
      assert s == [s[0]] + s[1..];
    } else {
      assert Ordered([]) by { NothingIsOrdered(); }
    }
  }

  lemma NothingIsOrdered()
    ensures Ordered([])
  {
  }

  lemma {:induction false} SortedStays(s: seq<TokenEntry>)
    requires Ordered(s)
    ensures Sorted(s) == s
    decreases |s|
  {
    hide AtMost, Ordered;
    if s != [] {
      OrderedTail(s);
      SortedStays(s[1..]);
    }
  }

  lemma {:induction false} InsertKeepsDistinct(e: TokenEntry, s: seq<TokenEntry>)
    requires DistinctNames(s) && !HasName(s, e.name)
    ensures DistinctNames(Insert(e, s))
    ensures forall n :: HasName(Insert(e, s), n) <==> n == e.name || HasName(s, n)
    decreases |s|
  {
    hide AtMost;
    if s == [] || AtMost(e.name, s[0].name) {
      NamesOfCons(e, s);
    } else {
      var more := s[1..];
      assert s == [s[0]] + more;
      NamesOfCons(s[0], more);
      DistinctTail(s);
      InsertKeepsDistinct(e, more);
      NamesOfCons(s[0], Insert(e, more));
    }
  }

  lemma NamesOfCons(e: TokenEntry, s: seq<TokenEntry>)
    ensures forall n :: HasName([e] + s, n) <==> n == e.name || HasName(s, n)
    ensures DistinctNames(s) && !HasName(s, e.name) ==> DistinctNames([e] + s)
  {
    var t := [e] + s;
    forall n ensures HasName(t, n) <==> n == e.name || HasName(s, n) {
      if n == e.name { assert t[0].name == n; }
      if HasName(s, n) {
        var k :| 0 <= k < |s| && s[k].name == n;
        assert t[k + 1].name == n;
      }
      if HasName(t, n) && n != e.name {
        var k :| 0 <= k < |t| && t[k].name == n;
        assert s[k - 1].name == n;
      }
    }
  }

  lemma DistinctTail(s: seq<TokenEntry>)
    requires DistinctNames(s) && s != []
    ensures DistinctNames(s[1..]) && !HasName(s[1..], s[0].name)
  {
    var more := s[1..];
    assert forall k :: 0 <= k < |more| ==> more[k] == s[k + 1];
  }

  lemma {:induction false} SortedKeepsDistinct(s: seq<TokenEntry>)
    requires DistinctNames(s)
    ensures DistinctNames(Sorted(s))
    ensures forall n :: HasName(Sorted(s), n) <==> HasName(s, n)
    decreases |s|
  {
    hide AtMost, Insert, HasName, DistinctNames;
    if s != [] {
      assert s == [s[0]] + s[1..];
      DistinctTail(s);
      SortedKeepsDistinct(s[1..]);
      InsertKeepsDistinct(s[0], Sorted(s[1..]));
      NamesOfCons(s[0], s[1..]);
    }
  }

  lemma SortedKeepsValid(s: seq<TokenEntry>)
    requires forall k :: 0 <= k < |s| ==> ValidEntry(s[k])
    ensures forall k :: 0 <= k < |Sorted(s)| ==> ValidEntry(Sorted(s)[k])
  {
    hide ValidEntry, Sorted;
    SortedIsSorted(s);
    forall k | 0 <= k < |Sorted(s)| ensures ValidEntry(Sorted(s)[k]) {
      assert Sorted(s)[k] in multiset(Sorted(s));
      assert Sorted(s)[k] in s;
    }
  }

  // ---------------------------------------------------------------- reading what was written

  lemma {:induction false} PreservedAreLoaded(lines: seq<string>, rest: seq<string>, state: Loaded)
    requires forall k :: 0 <= k < |lines| ==> IsPreserved(lines[k])
    ensures LoadLines(lines + rest, state) == LoadLines(rest, state.(preserved := state.preserved + lines))
    decreases |lines|
  {
    hide IsPreserved, ParseEntry, HasName;
    if lines == [] {
      assert lines + rest == rest && state.preserved + lines == state.preserved;
    } else {
      var next := state.(preserved := state.preserved + [lines[0]]);
      assert (lines + rest)[0] == lines[0] && (lines + rest)[1..] == lines[1..] + rest;
      PreservedAreLoaded(lines[1..], rest, next);
      assert next.preserved + lines[1..] == state.preserved + lines;
    }
  }

  lemma {:induction false} EntriesAreLoaded(es: seq<TokenEntry>, state: Loaded)
    requires forall k :: 0 <= k < |es| ==> ValidEntry(es[k])
    requires DistinctNames(state.entries + es)
    ensures LoadLines(SerializeAll(es), state) == Some(state.(entries := state.entries + es))
    decreases |es|
  {
    hide IsPreserved, ParseEntry, Serialize, ValidEntry;
    if es == [] {
      assert state.entries + es == state.entries;
    } else {
      EntryRoundTrip(es[0]);
      var next := state.(entries := state.entries + [es[0]]);
      assert next.entries + es[1..] == state.entries + es;
      EntriesAreLoaded(es[1..], next);
      NewName(state.entries, es);
    }
  }

  lemma NewName(before: seq<TokenEntry>, es: seq<TokenEntry>)
    requires es != [] && DistinctNames(before + es)
    ensures !HasName(before, es[0].name)
  {
    var all := before + es;
    assert all[|before|] == es[0] && forall k :: 0 <= k < |before| ==> all[k] == before[k];
  }

  /** What a file holds after being written and read back. */
  function Normalized(l: Loaded): Loaded {
    var heading := Heading(l.preserved);
    if l.entries != [] then Loaded(heading, Sorted(l.entries))
    else Loaded(if StripTail(heading) == [] then [""] else StripTail(heading), [])
  }

  lemma BlankIsValid()
    ensures ValidPreserved("") && Strip("") == ""
  {
  }

  lemma HeadingIsValid(preserved: seq<string>)
    requires forall k :: 0 <= k < |preserved| ==> ValidPreserved(preserved[k])
    ensures forall k :: 0 <= k < |Heading(preserved)| ==> ValidPreserved(Heading(preserved)[k])
    ensures Heading(Heading(preserved)) == Heading(preserved)
  {
    hide ValidPreserved, Strip;
    BlankIsValid();
  }

  lemma TailIsKept(lines: seq<string>)
    requires lines != [] && StripRight(lines[|lines| - 1]) == lines[|lines| - 1] != ""
    ensures StripTail(lines) == lines
  {
    hide StripRight;
    var n := |lines| - 1;
    assert lines == lines[..n] + [lines[n]];
  }

  /** Serialized entries end in visible text: nothing is stripped. */
  lemma LayoutKeepsItsTail(l: Loaded)
    requires l.entries != [] && Valid(l)
    ensures StripTail(Layout(l)) == Layout(l) != []
  {
    hide ValidEntry, Serialize, StripRight, StripTail, Sorted, ValidPreserved, Heading, DistinctNames, SerializeAll,
      Ordered;
    SortedIsSorted(l.entries);
    SortedKeepsValid(l.entries);
    var es := Sorted(l.entries);
    assert |es| > 0;
    EntryRoundTrip(es[|es| - 1]);
    SerializedIsNotEmpty(es[|es| - 1]);
    var lines := Layout(l);
    assert lines[|lines| - 1] == Serialize(es[|es| - 1]);
    TailIsKept(lines);
  }

  lemma SerializedIsNotEmpty(e: TokenEntry)
    ensures Serialize(e) != ""
  {
  }

  lemma LoadsWithEntries(l: Loaded)
    requires Valid(l) && l.entries != []
    ensures Load(Payload(l)) == Some(Loaded(Heading(l.preserved), Sorted(l.entries)))
  {
    hide ValidEntry, Serialize, StripRight, Sorted, Heading, DistinctNames, StripTail, Join, SplitLines, LoadLines,
      IsPreserved, NoBreaks;
    LayoutKeepsItsTail(l);
    StripJoined(Layout(l));
    HeadingIsValid(l.preserved);
    SortedKeepsValid(l.entries);
    SortedKeepsDistinct(l.entries);
    var heading, es := Heading(l.preserved), Sorted(l.entries);
    forall k | 0 <= k < |es| ensures NoBreaks(SerializeAll(es)[k]) {
      EntryRoundTrip(es[k]);
    }
    SplitJoinedLines(Layout(l));
    PreservedAreLoaded(heading, SerializeAll(es), Loaded([], []));
    assert [] + heading == heading;
    assert [] + es == es;
    EntriesAreLoaded(es, Loaded(heading, []));
  }

  lemma LoadsWithoutEntries(l: Loaded)
    requires Valid(l) && l.entries == []
    ensures Load(Payload(l)) == Some(Normalized(l))
  {
    hide StripRight, Heading, StripTail, Join, SplitLines, LoadLines, IsPreserved, NoBreaks;
    HeadingIsValid(l.preserved);
    var heading := Heading(l.preserved);
    assert Layout(l) == heading;
    StripJoined(heading);
    StrippedLines(heading);
    var lines := StripTail(heading);
    BlankIsValid();
    var kept := if lines == [] then [""] else lines;
    JoinNothing();
    SplitJoinedLines(kept);
    PreservedAreLoaded(kept, [], Loaded([], []));
    assert kept + [] == kept && [] + kept == kept;
    NothingMore(Loaded(kept, []));
  }

  lemma NothingMore(state: Loaded)
    ensures LoadLines([], state) == Some(state)
  {
  }

  lemma JoinNothing()
    ensures Join([], "\n") == "" == Join([""], "\n")
  {
  }

  // ---------------------------------------------------------------- main results

  /** Whatever is written is read back: the same entries, in name order. */
  lemma WriteThenLoad(l: Loaded)
    requires Valid(l)
    ensures Load(Payload(l)) == Some(Normalized(l))
    ensures multiset(Normalized(l).entries) == multiset(l.entries) && Ordered(Normalized(l).entries)
  {
    hide Valid, Load, Payload, Heading, StripTail, Ordered;
    if l.entries != [] {
      LoadsWithEntries(l);
      SortedIsSorted(l.entries);
    } else {
      LoadsWithoutEntries(l);
      NothingIsOrdered();
    }
  }

  /** Reading and writing a second time leaves the text as it is. */
  lemma TextIsStable(l: Loaded)
    requires Valid(l)
    ensures Payload(Normalized(l)) == Payload(l)
  {
    hide StripRight, StripTail, Join, Heading, Sorted, ValidEntry, ValidPreserved, DistinctNames, Ordered;
    HeadingIsValid(l.preserved);
    if l.entries != [] {
      SortedIsSorted(l.entries);
      SortedStays(Sorted(l.entries));
      assert Layout(Normalized(l)) == Layout(l);
    } else {
      var heading := Heading(l.preserved);
      LayoutWithoutEntries(l);
      StripJoined(heading);
      StrippedLines(heading);
      LayoutWithoutEntries(Normalized(l));
      var kept := Normalized(l).preserved;
      StripJoined(Heading(kept));
      HeadingStrips(kept);
      BlankStrips();
    }
  }

  lemma LayoutWithoutEntries(l: Loaded)
    requires l.entries == []
    ensures Layout(l) == Heading(l.preserved)
  {
  }

  /** A blank line at the end of the heading is stripped with the rest. */
  lemma HeadingStrips(lines: seq<string>)
    ensures StripTail(Heading(lines)) == StripTail(lines)
  {
    hide Strip, StripRight;
    NothingToStrip();
    var h := Heading(lines);
    if h != lines { assert h[..|h| - 1] == lines; }
  }

  lemma BlankStrips()
    ensures StripTail([""]) == []
  {
  }

  // ---------------------------------------------------------------- whatever is read is valid

  lemma {:induction false} SplitLinesHaveNoBreaks(s: string)
    ensures forall k :: 0 <= k < |SplitLines(s)| ==> NoBreaks(SplitLines(s)[k])
    decreases |s|
  {
    hide IsBreak, LineLength;
    if s != "" {
      var n := LineLength(s);
      if n < |s| {
        SplitLinesHaveNoBreaks(s[n + (if s[n] == '\r' && n + 1 < |s| && s[n + 1] == '\n' then 2 else 1)..]);
      }
    }
  }

  lemma {:induction false} NameIsName(s: string)
    ensures forall k :: 0 <= k < NameLength(s) ==> IsNameChar(s[k])
    decreases |s|
  {
    hide IsNameChar;
    if s != "" && IsNameChar(s[0]) { NameIsName(s[1..]); }
  }

  lemma LowercaseTwice(s: string)
    ensures Lowercase(Lowercase(s)) == Lowercase(s)
  {
  }

  lemma LowercaseAgain(s: string)
    ensures Lowercase(PyLowercase(s)) == PyLowercase(s)
  {
  }

  lemma LowercaseHex(s: string)
    requires IsHex64(s)
    ensures IsHex64(Lowercase(s))
  {
    hide IsHexChar;
    forall k | 0 <= k < |s| ensures IsHexChar(Lowercase(s)[k]) {
      LowerHexChar(s[k]);
      assert Lowercase(s)[k] == Lower(s[k]);
    }
  }

  lemma LowerHexChar(c: char)
    requires IsHexChar(c)
    ensures IsHexChar(Lower(c))
  {
  }

  lemma {:induction false} CleanIsLower(parts: seq<string>)
    ensures forall k :: 0 <= k < |CleanScopes(parts)| ==> Lowercase(CleanScopes(parts)[k]) == CleanScopes(parts)[k]
    decreases |parts|
  {
    hide Lowercase, PyLowercase, Strip;
    if parts != [] {
      LowercaseAgain(Strip(parts[0]));
      CleanIsLower(parts[1..]);
    }
  }

  predicate GoodGroups(g: Groups) {
    IsName(g.name) && IsHex64(g.digest) && (g.expires == "never" || Digits(g.expires))
  }

  lemma MatchedIsGood(raw: string)
    ensures var g := MatchToken(raw); g.Some? ==> GoodGroups(g.value)
  {
    hide Find, StripLeft, Strip, After, IsNameChar, IsHexChar, Digits, NameLength;
    var key := After(StripLeft(raw), "token.");
    if key.Some? { NameIsName(key.value); }
  }

  lemma ParsedIsValid(raw: string)
    ensures var e := ParseEntry(raw); e.Some? ==> ValidEntry(e.value)
  {
    hide MatchToken, Lowercase, CleanScopes, Split, IsName, IsHex64, Digits, IsScope;
    var g := MatchToken(raw);
    if g.Some? {
      MatchedIsGood(raw);
      LowercaseHex(g.value.digest);
      LowercaseTwice(g.value.digest);
      CleanIsLower(Split(g.value.scopes, ","));
      ExpiryIsLower(g.value.expires);
    }
  }

  lemma {:induction false} LinesLoadValid(lines: seq<string>, state: Loaded)
    requires Valid(state) && forall k :: 0 <= k < |lines| ==> NoBreaks(lines[k])
    ensures var l := LoadLines(lines, state); l.Some? ==> Valid(l.value)
    decreases |lines|
  {
    hide IsPreserved, ParseEntry, ValidEntry, NoBreaks, HasName;
    if lines != [] {
      if IsPreserved(lines[0]) {
        LinesLoadValid(lines[1..], state.(preserved := state.preserved + [lines[0]]));
      } else if ParseEntry(lines[0]).Some? {
        var e := ParseEntry(lines[0]).value;
        if !HasName(state.entries, e.name) {
          ParsedIsValid(lines[0]);
          DistinctWithNew(state.entries, e);
          LinesLoadValid(lines[1..], state.(entries := state.entries + [e]));
        }
      }
    }
  }

  lemma DistinctWithNew(s: seq<TokenEntry>, e: TokenEntry)
    requires DistinctNames(s) && !HasName(s, e.name)
    ensures DistinctNames(s + [e])
  {
  }

  /**
   * For every file the program accepts, whatever its spacing, comments, case and order: writing
   * it back and reading it again gives the same entries, and the text settles after one write.
   */
  lemma EveryAcceptedFileSettles(text: string)
    requires Load(text).Some?
    ensures var l := Load(text).value;
            && Valid(l)
            && Load(Payload(l)).Some?
            && var again := Load(Payload(l)).value;
               && multiset(again.entries) == multiset(l.entries) && Ordered(again.entries)
               && Payload(again) == Payload(l)
  {
    hide SplitLines, LoadLines, Payload, Normalized, Ordered, ValidEntry, ValidPreserved;
    SplitLinesHaveNoBreaks(text);
    LinesLoadValid(SplitLines(text), Loaded([], []));
    var l := Load(text).value;
    WriteThenLoad(l);
    TextIsStable(l);
  }
}

/** The program's two loops. */
module TokenTool {
  import opened Basics
  import opened Text
  import opened TokenFileModel

  method LoadEntries(text: string) returns (r: Option<Loaded>)
    ensures r == Load(text)
  {
    hide SplitLines, ParseEntry, IsPreserved, HasName;
    var lines := SplitLines(text);
    var preserved: seq<string>, entries: seq<TokenEntry> := [], [];
    for i := 0 to |lines|
      invariant LoadLines(lines[i..], Loaded(preserved, entries)) == Load(text)
    {
      var raw := lines[i];
      assert lines[i..][0] == raw && lines[i..][1..] == lines[i + 1..];
      if IsPreserved(raw) {
        preserved := preserved + [raw];
      } else {
        var e := ParseEntry(raw);
        if e.None? { return None; }
        if HasName(entries, e.value.name) { return None; }
        entries := entries + [e.value];
      }
    }
    return Some(Loaded(preserved, entries));
  }

  method AtomicWrite(preserved: seq<string>, entries: seq<TokenEntry>) returns (payload: string)
    ensures payload == Payload(Loaded(preserved, entries))
  {
    hide Join, StripRight, Strip, Sorted, Serialize, SerializeAll;
    var lines := preserved;
    if lines != [] && Strip(lines[|lines| - 1]) != "" { lines := lines + [""]; }
    var sorted := Sorted(entries);
    for i := 0 to |sorted|
      invariant lines == Heading(preserved) + SerializeAll(sorted)[..i]
    {
      lines := lines + [Serialize(sorted[i])];
    }
    assert SerializeAll(sorted)[..|sorted|] == SerializeAll(sorted);
    assert lines == Layout(Loaded(preserved, entries));
    payload := StripRight(Join(lines, "\n")) + "\n";
  }
}
