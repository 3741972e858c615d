/** The server's reader of the token file (src/Auth.cpp:36-84, 224-275). */
module SecretsModel {
  import opened Basics
  import opened Text
  import opened AuthModel
  import TokenFileModel

  /** `std::int64_t` ends here. */
  const INT64_LIMIT: nat := 0x8000_0000_0000_0000

  /** `split`: pieces read by `std::getline`, trimmed; a separator at the end starts no piece. */
  function SplitOn(s: string, separator: string): seq<string>
    requires |separator| == 1
    decreases |s|
  {
    if s == "" then [] else
      var k := Find(s, separator, 0);
      if k.None? then [TrimSpaces(s)] else
        FoundAt(s, separator, 0);
        [TrimSpaces(s[..k.value])] + SplitOn(s[k.value + 1..], separator)
  }

  function LowerNonEmpty(parts: seq<string>): seq<string> {
    if parts == [] then []
    else (if parts[0] == "" then [] else [Lowercase(parts[0])]) + LowerNonEmpty(parts[1..])
  }

  function SplitScopes(text: string): seq<string> {
    LowerNonEmpty(SplitOn(text, ","))
  }

  /** `parseExpiry`: what `std::stoll` accepts as a whole, if not negative. */
  function ParseExpiry(value: string): Option<int> {
    var s := Lowercase(TrimSpaces(value));
    if s == "" || s == "0" || s == "never" then Some(0) else
      var digits := if s[0] == '+' || s[0] == '-' then s[1..] else s;
      if !Digits(digits) then None
      else if s[0] == '-' then (if Number(digits) == 0 then Some(0) else None)
      else if Number(digits) < INT64_LIMIT then Some(Number(digits)) else None
  }

  const HASH_PREFIX: string := "sha256:"

  /** `parseTokenRule`; nothing where it throws. */
  function ParseTokenRule(name: string, value: string, requireHashed: bool): Option<TokenRule> {
    var parts := SplitOn(value, "|");
    if |parts| < 2 || |parts| > 3 then None else
      var expiry := if |parts| == 3 then ParseExpiry(parts[2]) else Some(0);
      if expiry.None? then None else
        var secret := TrimSpaces(parts[0]);
        var hashed := StartsWith(secret, HASH_PREFIX);
        var hash := if hashed then Lowercase(secret[7..]) else "";
        if hashed && !TokenFileModel.IsHex64(hash) then None
        else if !hashed && requireHashed then None
        else
          var plaintext := if hashed then "" else secret;
          var rule := TokenRule(TrimSpaces(name), plaintext, hash, SplitScopes(parts[1]), expiry.value);
          if rule.name == "" || rule.scopes == [] || (rule.plaintextToken == "" && rule.sha256Hex == "") then None
          else Some(rule)
  }

  datatype LineResult = Skip | Bad | Rule(rule: TokenRule)

  /** The text of a line without its comment. */
  function Uncommented(line: string): string {
    var k := Find(line, "#", 0);
    TrimSpaces(if k.Some? then line[..k.value] else line)
  }

  /** One round of the loop of `loadSecretsFile`. */
  function LoadLine(line: string): LineResult {
    var text := Uncommented(line);
    if text == "" then Skip else
      var equals := Find(text, "=", 0);
      if equals.None? then Bad else
        FoundAt(text, "=", 0);
        var key, value := TrimSpaces(text[..equals.value]), TrimSpaces(text[equals.value + 1..]);
        if !StartsWith(key, "token.") then Bad else
          var rule := ParseTokenRule(key[6..], value, true);
          if rule.None? then Bad else Rule(rule.value)
  }

  /** The loop over the text that is left; nothing where it throws. */
  function LoadRest(text: string, rules: seq<TokenRule>): Option<seq<TokenRule>>
    decreases |text|, 0
  {
    if text == "" then Some(rules) else
      var end := Find(text, "\n", 0);
      if end.Some? then FoundAt(text, "\n", 0); LoadStep(LoadLine(text[..end.value]), rules, text[end.value + 1..])
      else LoadStep(LoadLine(text), rules, "")
  }

  function LoadStep(line: LineResult, rules: seq<TokenRule>, rest: string): Option<seq<TokenRule>>
    decreases |rest|, 1
  {
    match line
    case Bad => None
    case Skip => LoadRest(rest, rules)
    case Rule(rule) => LoadRest(rest, rules + [rule])
  }

  function LoadSecrets(text: string): Option<seq<TokenRule>> {
    LoadRest(text, [])
  }
}

/** The server reads what the Python program writes. */
module TokenFileAcrossLanguages {
  import opened Basics
  import opened Text
  import opened AuthModel
  import opened SecretsModel
  import opened TokenFileModel
  import opened TokenFileRoundTrip
  import AuthStoreModel

  // ---------------------------------------------------------------- one entry

  predicate ExpiryFits(e: TokenEntry) {
    Digits(e.expires) ==> Number(e.expires) < INT64_LIMIT
  }

  function RuleOf(e: TokenEntry): TokenRule {
    TokenRule(e.name, "", e.digest, e.scopes, if Digits(e.expires) then Number(e.expires) else 0)
  }

  lemma PlainIsNoSpace(c: char)
    requires IsPlainChar(c)
    ensures !IsSpace(c)
  {
  }

  lemma TrimPlain(t: string)
    requires Plain(t)
    ensures TrimSpaces(t) == t && TrimSpaces(" " + t) == t && TrimSpaces(" " + t + " ") == t
  {
    hide IsPlainChar, TrimLeft, TrimRight;
    PlainIsNoSpace(t[0]);
    PlainIsNoSpace(t[|t| - 1]);
    TrimPadded(t, IsSpace);
  }

  lemma {:induction false} ScopesSplit(scopes: seq<string>)
    requires scopes != [] && forall k :: 0 <= k < |scopes| ==> IsScope(scopes[k])
    ensures SplitOn(Join(scopes, ","), ",") == scopes
    decreases |scopes|
  {
    hide Find, IsNameChar, TrimSpaces;
    var x := scopes[0];
    NotInScope(x);
    ScopeIsPlain(x);
    TrimPlain(x);
    if |scopes| > 1 {
      var rest := Join(scopes[1..], ",");
      ScopesSplit(scopes[1..]);
      FirstSeparator(x, ",", rest);
      var t := x + "," + rest;
      assert t[..|x|] == x && t[|x| + 1..] == rest;
    } else {
      NoSeparator(x, ",");
    }
  }

  lemma {:induction false} ScopesStayLower(scopes: seq<string>)
    requires forall k :: 0 <= k < |scopes| ==> IsScope(scopes[k]) && Lowercase(scopes[k]) == scopes[k]
    ensures LowerNonEmpty(scopes) == scopes
    decreases |scopes|
  {
    hide Lowercase;
    if scopes != [] { ScopesStayLower(scopes[1..]); }
  }

  lemma ExpiryIsRead(s: string)
    requires s == "never" || Digits(s)
    ensures ParseExpiry(s) == if Digits(s) then (if Number(s) < INT64_LIMIT then Some(Number(s)) else None) else Some(0)
  {
    hide TrimSpaces, Lowercase;
    assert Plain(s) by { ExpiryIsPlain(s); }
    TrimPlain(s);
    ExpiryIsLower(s);
    NumberZero();
  }

  lemma NumberZero()
    ensures Number("0") == 0 && !Digits("never")
  {
    assert "0"[..0] == "";
    assert !IsDigit("never"[0]);
  }

  lemma ExpiryIsPlain(s: string)
    requires s == "never" || Digits(s)
    ensures Plain(s)
  {
  }

  /** The value of an entry's line splits into its three fields. */
  lemma ValueSplits(digest: string, scopes: string, expires: string)
    requires Plain(digest) && Plain(scopes) && Plain(expires)
    ensures SplitOn("sha256:" + digest + " | " + scopes + " | " + expires, "|") == ["sha256:" + digest, scopes, expires]
  {
    hide Find, IsPlainChar, TrimSpaces;
    var secret := "sha256:" + digest;
    var a, b, c := secret + " ", " " + scopes + " ", " " + expires;
    assert "sha256:" + digest + " | " + scopes + " | " + expires == a + "|" + (b + "|" + c);
    SecretIsPlain(digest);
    PlainHasNoBar(secret);
    assert forall k :: 0 <= k < |a| ==> a[k] == (" " + secret + " ")[k + 1];
    PlainHasNoBar(scopes);
    PlainHasNoBar(expires);
    assert forall k :: 0 <= k < |c| ==> c[k] == (" " + expires + " ")[k];
    SplitFirst(a, b + "|" + c);
    SplitFirst(b, c);
    NoSeparator(c, "|");
    TrimPlain(scopes);
    TrimPlain(expires);
    TrimPlainRight(secret);
  }

  lemma SplitFirst(x: string, rest: string)
    requires Misses(x, '|')
    ensures SplitOn(x + "|" + rest, "|") == [TrimSpaces(x)] + SplitOn(rest, "|")
  {
    hide Find, TrimSpaces;
    var t := x + "|" + rest;
    FirstSeparator(x, "|", rest);
    assert t[..|x|] == x && t[|x| + 1..] == rest;
  }

  lemma SecretIsPlain(digest: string)
    requires Plain(digest)
    ensures Plain("sha256:" + digest)
  {
    hide IsPlainChar;
    PrefixIsPlain();
  }

  lemma PrefixIsPlain()
    ensures Plain("sha256:") && Plain("token.")
  {
  }

  lemma TrimPlainRight(t: string)
    requires Plain(t)
    ensures TrimSpaces(t + " ") == t
  {
    hide IsPlainChar, TrimLeft, TrimRight;
    PlainIsNoSpace(t[0]);
    PlainIsNoSpace(t[|t| - 1]);
    TrimPadded(t, IsSpace);
  }

  lemma RuleIsRead(e: TokenEntry)
    requires ValidEntry(e)
    ensures ParseTokenRule(e.name, "sha256:" + e.digest + " | " + Join(e.scopes, ",") + " | " + e.expires, true)
            == if ExpiryFits(e) then Some(RuleOf(e)) else None
  {
    hide SplitOn, Join, Digits, Lowercase, IsName, IsScope, IsHexChar, TrimSpaces, Plain, Number, ParseExpiry,
      LowerNonEmpty;
    FieldsArePlain(e);
    SecretIsPlain(e.digest);
    ValueSplits(e.digest, Join(e.scopes, ","), e.expires);
    TrimPlain(e.name);
    TrimPlain("sha256:" + e.digest);
    ExpiryIsRead(e.expires);
    ScopesSplit(e.scopes);
    ScopesStayLower(e.scopes);
    NamesAreNotEmpty(e);
    StartsWithSelf(HASH_PREFIX, e.digest);
  }

  lemma NamesAreNotEmpty(e: TokenEntry)
    requires ValidEntry(e)
    ensures e.name != "" && e.digest != "" && e.scopes != []
  {
  }

  /** The line of an entry is one rule: the same name, hash, scopes and expiry, if the expiry fits. */
  lemma EntryIsOneRule(e: TokenEntry)
    requires ValidEntry(e)
    ensures LoadLine(Serialize(e)) == if ExpiryFits(e) then Rule(RuleOf(e)) else Bad
  {
    hide ParseTokenRule, Join, ValidEntry, Find, TrimSpaces, IsPlainChar, ExpiryFits, RuleOf;
    FieldsArePlain(e);
    var line := Serialize(e);
    var scopes := Join(e.scopes, ",");
    var value := "sha256:" + e.digest + " | " + scopes + " | " + e.expires;
    var key := "token." + e.name;
    assert line == (key + " ") + "=" + (" " + value);
    assert line == "token." + e.name + " = " + value;
    LineHasNoComment(e.name, e.digest, scopes, e.expires);
    LineIsTrimmed(e.name, e.digest, scopes, e.expires);
    NoSeparator(line, "#");
    KeyHasNoEquals(e.name);
    FirstSeparator(key + " ", "=", " " + value);
    assert line[..|key| + 1] == key + " " && line[|key| + 2..] == " " + value;
    assert Plain(key) by { PrefixIsPlain(); }
    TrimPlainRight(key);
    StartsWithSelf("token.", e.name);
    RuleIsRead(e);
  }

  lemma LineHasNoComment(name: string, digest: string, scopes: string, expires: string)
    requires Plain(name) && Plain(digest) && Plain(scopes) && Plain(expires)
    ensures Misses("token." + name + " = sha256:" + digest + " | " + scopes + " | " + expires, '#')
  {
    hide IsPlainChar;
    MissesHash(name);
    MissesHash(digest);
    MissesHash(scopes);
    MissesHash(expires);
  }

  lemma MissesHash(s: string)
    requires Plain(s)
    ensures Misses(s, '#') && Misses(s, '=')
  {
    hide IsPlainChar;
    forall k | 0 <= k < |s| ensures s[k] != '#' && s[k] != '=' {
      PlainChar(s[k]);
    }
  }

  lemma KeyHasNoEquals(name: string)
    requires Plain(name)
    ensures Misses("token." + name + " ", '=')
  {
    hide IsPlainChar;
    MissesHash(name);
  }

  lemma LineIsTrimmed(name: string, digest: string, scopes: string, expires: string)
    requires Plain(expires)
    ensures var value := "sha256:" + digest + " | " + scopes + " | " + expires;
            && TrimSpaces("token." + name + " = " + value) == "token." + name + " = " + value
            && TrimSpaces(" " + value) == value
  {
    hide IsPlainChar, TrimLeft, TrimRight;
    var last := expires[|expires| - 1];
    PlainIsNoSpace(last);
    var value := "sha256:" + digest + " | " + scopes + " | " + expires;
    var line := "token." + name + " = " + value;
    assert value[|value| - 1] == last && line[|line| - 1] == last;
    TrimPadded(value, IsSpace);
    TrimPadded(line, IsSpace);
  }

  // ---------------------------------------------------------------- preserved lines

  /** A line that the server skips. */
  predicate IsSkipped(line: string) {
    Uncommented(line) == ""
  }

  /** A preserved line the server does not skip is one it refuses. */
  lemma PreservedIsSkippedOrBad(line: string)
    requires IsPreserved(line)
    ensures LoadLine(line) == if IsSkipped(line) then Skip else Bad
  {
    hide Find, IsPySpace, ParseTokenRule, TrimSpaces, IsPreserved;
    PreservedIsComment(line);
    var k := Find(line, "#", 0);
    var text := if k.Some? then line[..k.value] else line;
    TextBeforeComment(line);
    NoEqualsInSpace(text);
    TrimIsPart(text);
    var t := TrimSpaces(text);
    NoSeparator(t, "=");
  }

  lemma TextBeforeComment(line: string)
    requires IsComment(line)
    ensures var k := Find(line, "#", 0);
            var text := if k.Some? then line[..k.value] else line;
            forall j :: 0 <= j < |text| ==> IsPySpace(text[j])
  {
    hide Find, IsPySpace;
    var left := StripLeft(line);
    TrimLeftDrops(line, IsPySpace);
    var n := |line| - |left|;
    if left != "" {
      assert line[n] == left[0] == '#';
      assert line[n..n + 1] == "#";
      assert At(line, "#", n);
    }
  }

  lemma NoEqualsInSpace(s: string)
    requires forall j :: 0 <= j < |s| ==> IsPySpace(s[j])
    ensures Misses(s, '=')
  {
  }

  lemma TrimIsPart(s: string)
    requires Misses(s, '=')
    ensures Misses(TrimSpaces(s), '=')
  {
    hide IsSpace, TrimLeft, TrimRight;
    var left := TrimLeft(s, IsSpace);
    assert forall k :: 0 <= k < |left| ==> left[k] == s[|s| - |left| + k];
    var t := TrimRight(left, IsSpace);
    assert forall k :: 0 <= k < |t| ==> t[k] == left[k];
  }

  // ---------------------------------------------------------------- the whole file

  /** The loop seen line by line. */
  function LoadAll(lines: seq<string>, rules: seq<TokenRule>): Option<seq<TokenRule>> {
    if lines == [] then Some(rules) else
      match LoadLine(lines[0])
      case Bad => None
      case Skip => LoadAll(lines[1..], rules)
      case Rule(rule) => LoadAll(lines[1..], rules + [rule])
  }

  lemma LineIsLoaded(x: string, rest: string, rules: seq<TokenRule>)
    requires Misses(x, '\n')
    ensures LoadRest(x + "\n" + rest, rules) == LoadStep(LoadLine(x), rules, rest)
  {
    hide Find, LoadLine;
    var t := x + "\n" + rest;
    FirstSeparator(x, "\n", rest);
    assert t[..|x|] == x && t[|x| + 1..] == rest;
  }

  lemma {:induction false} JoinedLinesAreLoaded(lines: seq<string>, rules: seq<TokenRule>)
    requires lines != [] && forall k :: 0 <= k < |lines| ==> NoBreaks(lines[k])
    ensures LoadRest(Join(lines, "\n") + "\n", rules) == LoadAll(lines, rules)
    decreases |lines|
  {
    hide LoadLine, NoBreaks;
    var x := lines[0];
    NoBreaksNoLf(x);
    if |lines| == 1 {
      LineIsLoaded(x, "", rules);
      assert x + "\n" + "" == x + "\n";
    } else {
      var rest := Join(lines[1..], "\n") + "\n";
      assert Join(lines, "\n") + "\n" == x + "\n" + rest;
      LineIsLoaded(x, rest, rules);
      var r := LoadLine(x);
      if !r.Bad? {
        JoinedLinesAreLoaded(lines[1..], if r.Rule? then rules + [r.rule] else rules);
      }
    }
  }

  lemma NoBreaksNoLf(x: string)
    requires NoBreaks(x)
    ensures Misses(x, '\n')
  {
  }

  predicate AllSkipped(lines: seq<string>) {
    forall k :: 0 <= k < |lines| ==> IsSkipped(lines[k])
  }

  predicate AllFit(es: seq<TokenEntry>) {
    forall k :: 0 <= k < |es| ==> ExpiryFits(es[k])
  }

  function RulesOf(es: seq<TokenEntry>): seq<TokenRule> {
    seq(|es|, k requires 0 <= k < |es| => RuleOf(es[k]))
  }

  lemma {:induction false} PreservedAreSkipped(lines: seq<string>, rest: seq<string>, rules: seq<TokenRule>)
    requires forall k :: 0 <= k < |lines| ==> IsPreserved(lines[k])
    ensures LoadAll(lines + rest, rules) == if AllSkipped(lines) then LoadAll(rest, rules) else None
    decreases |lines|
  {
    hide LoadLine, IsPreserved, IsSkipped;
    if lines == [] {
      assert lines + rest == rest;
    } else {
      assert (lines + rest)[0] == lines[0] && (lines + rest)[1..] == lines[1..] + rest;
      PreservedIsSkippedOrBad(lines[0]);
      PreservedAreSkipped(lines[1..], rest, rules);
      assert AllSkipped(lines) <==> IsSkipped(lines[0]) && AllSkipped(lines[1..]) by {
        assert forall k :: 0 < k < |lines| ==> lines[k] == lines[1..][k - 1];
        assert forall k :: 0 <= k < |lines[1..]| ==> lines[1..][k] == lines[k + 1];
      }
    }
  }

  lemma {:induction false} EntriesAreRules(es: seq<TokenEntry>, rules: seq<TokenRule>)
    requires forall k :: 0 <= k < |es| ==> ValidEntry(es[k])
    ensures LoadAll(SerializeAll(es), rules) == if AllFit(es) then Some(rules + RulesOf(es)) else None
    decreases |es|
  {
    hide LoadLine, ValidEntry, Serialize, ExpiryFits, RuleOf;
    if es == [] {
      assert rules + RulesOf(es) == rules;
    } else {
      EntryIsOneRule(es[0]);
      EntriesAreRules(es[1..], rules + [RuleOf(es[0])]);
      assert rules + [RuleOf(es[0])] + RulesOf(es[1..]) == rules + RulesOf(es);
      assert AllFit(es) <==> ExpiryFits(es[0]) && AllFit(es[1..]) by {
        assert forall k :: 0 < k < |es| ==> es[k] == es[1..][k - 1];
        assert forall k :: 0 <= k < |es[1..]| ==> es[1..][k] == es[k + 1];
      }
    }
  }

  /**
   * The server reads one rule per entry, in name order, with the same hash, scopes and expiry,
   * from every file that the program writes, if and only if the expiries fit in 63 bits and
   * the kept lines are blank or comments for the server too.
   */
  lemma ServerReadsWhatWasWritten(l: Loaded)
    requires Valid(l)
    ensures LoadSecrets(Payload(l)) ==
            if AllSkipped(Normalized(l).preserved) && AllFit(l.entries) then Some(RulesOf(Sorted(l.entries))) else None
  {
    hide ValidEntry, StripRight, StripTail, Join, Heading, Sorted, DistinctNames, Ordered, LoadRest, AllSkipped,
      ExpiryFits, RuleOf, IsPreserved, NoBreaks, SerializeAll;
    var lines, es := Normalized(l).preserved, Sorted(l.entries);
    SortedKeepsValid(l.entries);
    SortedFits(l.entries);
    WrittenLines(l);
    JoinedLinesAreLoaded(lines + SerializeAll(es), []);
    PreservedAreSkipped(lines, SerializeAll(es), []);
    EntriesAreRules(es, []);
    assert [] + RulesOf(es) == RulesOf(es);
  }

  /** The file consists of the kept lines and then one line per entry. */
  lemma WrittenLines(l: Loaded)
    requires Valid(l)
    ensures var lines := Normalized(l).preserved + SerializeAll(Sorted(l.entries));
            && lines != [] && Payload(l) == Join(lines, "\n") + "\n"
            && (forall k :: 0 <= k < |lines| ==> NoBreaks(lines[k]))
            && forall k :: 0 <= k < |Normalized(l).preserved| ==> IsPreserved(Normalized(l).preserved[k])
  {
    hide ValidEntry, StripRight, StripTail, Join, Heading, DistinctNames, Serialize, IsPreserved, NoBreaks, Sorted;
    HeadingIsValid(l.preserved);
    SortedIsSorted(l.entries);
    var es := Sorted(l.entries);
    if l.entries != [] {
      LayoutKeepsItsTail(l);
      StripJoined(Layout(l));
      SortedKeepsValid(l.entries);
      forall k | 0 <= k < |es| ensures NoBreaks(SerializeAll(es)[k]) {
        EntryRoundTrip(es[k]);
      }
    } else {
      LayoutWithoutEntries(l);
      StripJoined(Heading(l.preserved));
      StrippedLines(Heading(l.preserved));
      BlankIsValid();
      JoinNothing();
      assert es == [];
      assert Normalized(l).preserved + SerializeAll(es) == Normalized(l).preserved;
    }
  }

  // ---------------------------------------------------------------- what the server refuses

  function SomeEntry(expires: string): TokenEntry {
    TokenEntry("a", seq(64, _ => '0'), ["read"], expires)
  }

  lemma SomeEntryIsValid(expires: string)
    requires expires == "never" || Digits(expires)
    ensures ValidEntry(SomeEntry(expires))
  {
    hide Digits;
    ReadIsScope();
    var e := SomeEntry(expires);
    assert Lowercase(e.digest) == e.digest;
  }

  lemma ReadIsScope()
    ensures IsScope("read") && Lowercase("read") == "read" && IsName("a")
  {
  }

  lemma OneEntry(preserved: seq<string>, e: TokenEntry)
    requires ValidEntry(e) && forall k :: 0 <= k < |preserved| ==> ValidPreserved(preserved[k])
    ensures Valid(Loaded(preserved, [e]))
  {
    hide ValidEntry, ValidPreserved;
  }

  /** An entry that expires at 2^63, 9223372036854775808: the tool accepts it, the server refuses the file. */
  lemma LateExpiryIsRefused()
    ensures var l := Loaded([], [SomeEntry(Decimal(INT64_LIMIT))]);
            Valid(l) && Load(Payload(l)) == Some(l) && LoadSecrets(Payload(l)) == None
  {
    hide ValidEntry, Decimal, LoadSecrets, Load, Payload, StripTail, AllSkipped, SomeEntry;
    var e := SomeEntry(Decimal(INT64_LIMIT));
    SomeEntryIsValid(Decimal(INT64_LIMIT));
    OneEntry([], e);
    DecimalRoundTrip(INT64_LIMIT);
    assert !AllFit([e]) by { ExpiryOfSome(Decimal(INT64_LIMIT)); assert !ExpiryFits([e][0]); }
    WriteThenLoad(Loaded([], [e]));
    OneIsSorted(e);
    ServerReadsWhatWasWritten(Loaded([], [e]));
  }

  lemma ExpiryOfSome(expires: string)
    ensures SomeEntry(expires).expires == expires
  {
  }

  lemma OneIsSorted(e: TokenEntry)
    ensures Sorted([e]) == [e] && Heading([]) == []
  {
    assert [e][1..] == [];
    assert Sorted([e]) == Insert(e, Sorted([])) == [e];
  }

  const NO_BREAK_SPACE: string := "\U{00A0}"

  lemma BlankForPython()
    ensures ValidPreserved(NO_BREAK_SPACE) && Strip(NO_BREAK_SPACE) == "" && !IsSkipped(NO_BREAK_SPACE)
  {
    hide Find, StripLeft, StripRight, TrimSpaces, IsBreak;
    var s := NO_BREAK_SPACE;
    OneCharacter(s[0]);
    assert s == [s[0]];
    PreservedIsComment(s);
    NoSeparator(s, "#");
  }

  lemma OneCharacter(c: char)
    ensures IsPySpace(c) ==> StripLeft([c]) == ""
    ensures !IsSpace(c) ==> TrimSpaces([c]) == [c]
    ensures c == '\U{00A0}' ==> IsPySpace(c) && !IsSpace(c) && !IsBreak(c)
  {
    hide TrimRight;
    assert [c][1..] == "";
    if !IsSpace(c) { TrimRightEnds(c); }
  }

  lemma TrimRightEnds(c: char)
    requires !IsSpace(c)
    ensures TrimRight([c], IsSpace) == [c]
  {
  }

  /** A line that is blank for Python and not for the server: again the tool accepts what the server refuses. */
  lemma PythonBlankIsRefused()
    ensures var l := Loaded([NO_BREAK_SPACE], [SomeEntry("never")]);
            Valid(l) && Load(Payload(l)) == Some(l) && LoadSecrets(Payload(l)) == None
  {
    hide ValidEntry, LoadSecrets, Load, Payload, StripTail, AllFit, SomeEntry, ValidPreserved, Strip, IsSkipped;
    var e := SomeEntry("never");
    SomeEntryIsValid("never");
    BlankForPython();
    OneEntry([NO_BREAK_SPACE], e);
    assert !AllSkipped([NO_BREAK_SPACE]) by { assert !IsSkipped([NO_BREAK_SPACE][0]); }
    WriteThenLoad(Loaded([NO_BREAK_SPACE], [e]));
    OneIsSorted(e);
    ServerReadsWhatWasWritten(Loaded([NO_BREAK_SPACE], [e]));
  }

  /** A store without inline rules always takes what the server reads from such a file. */
  lemma WrittenRulesAreAccepted(l: Loaded)
    requires Valid(l)
    ensures AuthStoreModel.Combine([], RulesOf(Sorted(l.entries))) == Some(RulesOf(Sorted(l.entries)))
  {
    hide ValidEntry, Sorted;
    SortedKeepsDistinct(l.entries);
    var rules := RulesOf(Sorted(l.entries));
    assert [] + rules == rules;
  }

  lemma SortedFits(es: seq<TokenEntry>)
    ensures AllFit(Sorted(es)) <==> AllFit(es)
  {
    hide ExpiryFits, Sorted;
    SortedIsSorted(es);
    forall e ensures e in Sorted(es) <==> e in es {
      assert e in multiset(Sorted(es)) <==> e in multiset(es);
    }
    assert AllFit(es) <==> forall e :: e in es ==> ExpiryFits(e);
    assert AllFit(Sorted(es)) <==> forall e :: e in Sorted(es) ==> ExpiryFits(e);
  }
}

/** The loop of `loadSecretsFile` with its position in the file. */
module SecretsLoader {
  import opened Basics
  import opened Text
  import opened AuthModel
  import opened SecretsModel

  method LoadSecretsFile(text: string) returns (r: Option<seq<TokenRule>>)
    ensures r == LoadSecrets(text)
  {
    hide Find, LoadLine;
    var tokens: seq<TokenRule> := [];
    var pos := 0;
    while pos < |text|
      invariant pos <= |text|
      invariant LoadRest(text[pos..], tokens) == LoadSecrets(text)
      decreases |text| - pos
    {
      ghost var rest := text[pos..];
      FindInSuffix(text, "\n", pos);
      FoundAt(text, "\n", pos);
      var end := Find(text, "\n", pos);
      var stop := if end.Some? then end.value else |text|;
      var line := text[pos..stop];
      assert line == rest[..stop - pos];
      var next := if end.Some? then stop + 1 else |text|;
      assert text[next..] == if end.Some? then rest[stop - pos + 1..] else "";
      assert end.None? ==> line == rest;
      pos := next;
      match LoadLine(line)
      case Bad => return None;
      case Skip =>
      case Rule(rule) => tokens := tokens + [rule];
    }
    return Some(tokens);
  }
}
