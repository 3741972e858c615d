/** Byte strings as the C++ code handles them: searching, trimming and the "C" locale's character classes. */
module Text {
  import opened Basics

  const CRLF: string := "\r\n"
  const BLANK_LINE: string := "\r\n\r\n"

  predicate IsSpace(c: char) {
    c == ' ' || '\t' <= c <= '\r'
  }

  predicate IsDigit(c: char) {
    '0' <= c <= '9'
  }

  predicate IsAlnum(c: char) {
    IsDigit(c) || 'a' <= c <= 'z' || 'A' <= c <= 'Z'
  }

  /** Letters, digits, dot, underscore and dash. */
  predicate IsNameChar(c: char) {
    IsAlnum(c) || c == '.' || c == '_' || c == '-'
  }

  function Lower(c: char): char {
    if 'A' <= c <= 'Z' then (c as int + 32) as char else c
  }

  function Lowercase(s: string): (r: string)
    ensures |r| == |s|
  {
    seq(|s|, k requires 0 <= k < |s| => Lower(s[k]))
  }

  predicate Digits(s: string) {
    s != "" && forall k :: 0 <= k < |s| ==> IsDigit(s[k])
  }

  /** The number a string of digits denotes. */
  function Number(s: string): nat
    requires forall k :: 0 <= k < |s| ==> IsDigit(s[k])
  {
    if s == "" then 0 else
      assert IsDigit(s[|s| - 1]);
      10 * Number(s[..|s| - 1]) + (s[|s| - 1] as int - '0' as int)
  }

  /** A number in decimal digits. */
  function Decimal(n: nat): (s: string)
    ensures Digits(s)
  {
    if n < 10 then [('0' as int + n) as char] else Decimal(n / 10) + [('0' as int + n % 10) as char]
  }

  lemma {:induction false} DecimalRoundTrip(n: nat)
    ensures Number(Decimal(n)) == n
  {
    var s := Decimal(n);
    if n >= 10 {
      DecimalRoundTrip(n / 10);
      assert s[..|s| - 1] == Decimal(n / 10);
    } else {
      assert s[..0] == "";
    }
  }

  // ---------------------------------------------------------------- searching

  predicate StartsWith(s: string, prefix: string) {
    |prefix| <= |s| && s[..|prefix|] == prefix
  }

  predicate Misses(s: string, c: char) {
    forall k :: 0 <= k < |s| ==> s[k] != c
  }

  predicate At(s: string, pattern: string, k: int) {
    0 <= k && k + |pattern| <= |s| && s[k..k + |pattern|] == pattern
  }

  /** `std::string::find`: the first occurrence at or after `from`. */
  function Find(s: string, pattern: string, from: nat): (r: Option<nat>)
    ensures r.Some? ==> from <= r.value && At(s, pattern, r.value)
    ensures forall k :: from <= k && (r.Some? ==> k < r.value) ==> !At(s, pattern, k)
    decreases |s| - from
  {
    if from + |pattern| > |s| then None
    else if At(s, pattern, from) then Some(from)
    else Find(s, pattern, from + 1)
  }

  /** A first occurrence is the result of the search. */
  lemma FindIs(s: string, pattern: string, from: nat, k: nat)
    requires from <= k && At(s, pattern, k) && forall j :: from <= j < k ==> !At(s, pattern, j)
    ensures Find(s, pattern, from) == Some(k)
  {
    var r := Find(s, pattern, from);
    assert r.Some?;
    assert !(r.value < k) && !(k < r.value);
  }

  lemma FindNothing(s: string, pattern: string, from: nat)
    requires forall k :: from <= k ==> !At(s, pattern, k)
    ensures Find(s, pattern, from) == None
  {
  }

  lemma AtInPrefix(s: string, t: string, pattern: string, k: int)
    requires |s| <= |t| && t[..|s|] == s && (0 <= k ==> k + |pattern| <= |s|)
    ensures At(s, pattern, k) <==> At(t, pattern, k)
  {
    if 0 <= k { assert s[k..k + |pattern|] == t[k..k + |pattern|]; }
  }

  /** An occurrence inside a prefix is found there and in the whole alike. */
  lemma FindInPrefix(s: string, t: string, pattern: string, from: nat)
    requires |s| <= |t| && t[..|s|] == s
    ensures Find(s, pattern, from).Some? ==> Find(t, pattern, from) == Find(s, pattern, from)
    ensures Find(t, pattern, from).Some? && Find(t, pattern, from).value + |pattern| <= |s|
            ==> Find(s, pattern, from) == Find(t, pattern, from)
  {
    hide Find, At;
    if Find(s, pattern, from).Some? {
      var k := Find(s, pattern, from).value;
      FoundAt(s, pattern, from);
      FoundAt(t, pattern, from);
      AtInPrefix(s, t, pattern, k);
      forall j | from <= j < k ensures !At(t, pattern, j) {
        AtInPrefix(s, t, pattern, j);
      }
      FindIs(t, pattern, from, k);
    } else if Find(t, pattern, from).Some? && Find(t, pattern, from).value + |pattern| <= |s| {
      AtInPrefix(s, t, pattern, Find(t, pattern, from).value);
      assert false;
    }
  }

  lemma FoundAt(s: string, pattern: string, from: nat)
    ensures Find(s, pattern, from).Some? ==> Find(s, pattern, from).value + |pattern| <= |s|
  {
  }

  /** Searching from a position is searching the rest of the string. */
  lemma FindInSuffix(s: string, pattern: string, from: nat)
    requires from <= |s|
    ensures Find(s, pattern, from) ==
            match Find(s[from..], pattern, 0) { case None => None case Some(k) => Some(from + k) }
  {
    hide Find, At;
    forall k: nat ensures At(s[from..], pattern, k) <==> At(s, pattern, from + k) {
      AtInSuffix(s, pattern, from, k);
    }
    if Find(s[from..], pattern, 0).Some? {
      var k := Find(s[from..], pattern, 0).value;
      forall j | from <= j < from + k ensures !At(s, pattern, j) {
        assert !At(s[from..], pattern, j - from);
      }
      FindIs(s, pattern, from, from + k);
    } else {
      forall k | from <= k ensures !At(s, pattern, k) {
        AtInSuffix(s, pattern, from, k - from);
      }
      FindNothing(s, pattern, from);
    }
  }

  lemma AtInSuffix(s: string, pattern: string, from: nat, k: nat)
    requires from <= |s|
    ensures At(s[from..], pattern, k) <==> At(s, pattern, from + k)
  {
    if from + k + |pattern| <= |s| {
      assert s[from..][k..k + |pattern|] == s[from + k..from + k + |pattern|];
    }
  }

  lemma SearchFrom(t: string, p: string, n: nat)
    requires n <= |t| && forall j: nat :: j < n ==> !At(t, p, j)
    ensures Find(t, p, 0) == Find(t, p, n)
  {
    var r := Find(t, p, n);
    if r.Some? { FindIs(t, p, 0, r.value); } else { FindNothing(t, p, 0); }
  }

  lemma NoSeparator(x: string, separator: string)
    requires |separator| == 1 && Misses(x, separator[0])
    ensures Find(x, separator, 0) == None
  {
    hide Find;
    forall j: nat ensures !At(x, separator, j) {
      if j + 1 <= |x| { assert x[j..j + 1] == [x[j]]; }
    }
    FindNothing(x, separator, 0);
  }

  lemma FirstSeparator(x: string, separator: string, s: string)
    requires |separator| == 1 && Misses(x, separator[0])
    ensures Find(x + separator + s, separator, 0) == Some(|x|)
  {
    hide Find;
    var t := x + separator + s;
    assert t[|x|..|x| + 1] == separator;
    forall j: nat | j < |x| ensures !At(t, separator, j) {
      assert t[j..j + 1] == [x[j]];
    }
    FindIs(t, separator, 0, |x|);
  }

  /** An LF-free line followed by a break: the break is the first one. */
  lemma FirstBreak(x: string, s: string)
    requires Misses(x, '\n')
    ensures Find(x + CRLF + s, CRLF, 0) == Some(|x|)
    ensures Find(x + CRLF + s, "\n", 0) == Some(|x| + 1)
  {
    var t := x + CRLF + s;
    assert t[|x|..|x| + 2] == CRLF && t[|x| + 1..|x| + 2] == "\n";
    forall j | 0 <= j < |x| + 1 ensures !At(t, "\n", j) && (j < |x| ==> !At(t, CRLF, j)) {
      assert t[j] == if j < |x| then x[j] else '\r';
      assert t[j..j + 1][0] == t[j];
      if j < |x| {
        assert t[j + 1] == if j + 1 < |x| then x[j + 1] else '\r';
        assert t[j..j + 2][1] == t[j + 1];
      }
    }
    FindIs(t, CRLF, 0, |x|);
    FindIs(t, "\n", 0, |x| + 1);
  }

  lemma NoBreakFound(x: string)
    requires Misses(x, '\n')
    ensures Find(x, CRLF, 0) == None && Find(x, "\n", 0) == None
  {
    forall j: nat ensures !At(x, CRLF, j) && !At(x, "\n", j) {
      if j + 2 <= |x| { assert x[j..j + 2][1] == x[j + 1]; }
      if j + 1 <= |x| { assert x[j..j + 1][0] == x[j]; }
    }
    FindNothing(x, CRLF, 0);
    FindNothing(x, "\n", 0);
  }

  function Shifted(r: Option<nat>, n: nat): Option<nat> {
    match r case None => None case Some(k) => Some(k + n)
  }

  /** A line whose break is not followed by `d` is skipped by the search for break and `d`. */
  lemma SkipLine(x: string, s: string, d: string)
    requires Misses(x, '\n') && !StartsWith(s, d)
    ensures Find(x + CRLF + s, CRLF + d, 0) == Shifted(Find(s, CRLF + d, 0), |x| + 2)
  {
    hide Find, At;
    var t, n := x + CRLF + s, |x| + 2;
    assert t[n..] == s;
    forall j: nat | j < n ensures !At(t, CRLF + d, j) {
      NotBefore(x, s, d, j);
    }
    FindInSuffix(t, CRLF + d, n);
    SearchFrom(t, CRLF + d, n);
  }

  lemma NotBefore(x: string, s: string, d: string, j: nat)
    requires Misses(x, '\n') && !StartsWith(s, d) && j < |x| + 2
    ensures !At(x + CRLF + s, CRLF + d, j)
  {
    var t, p := x + CRLF + s, CRLF + d;
    if j + |p| <= |t| {
      var u := t[j..j + |p|];
      assert u[0] == t[j] && u[1] == t[j + 1];
      if j < |x| {
        assert t[j + 1] == if j + 1 < |x| then x[j + 1] else '\r';
      } else if j == |x| {
        assert u[2..] == t[j + 2..j + 2 + |d|] == s[..|d|];
        assert p[2..] == d;
      }
    }
  }

  lemma LineIsNotBlank(x: string, s: string)
    requires x != "" && Misses(x, '\n')
    ensures !StartsWith(x + CRLF + s, CRLF)
  {
    var t := x + CRLF + s;
    assert t[..2][1] == t[1] == if |x| > 1 then x[1] else '\r';
  }

  lemma TwoBreaks(x: string, c: string, s: string)
    ensures x + c + ("" + c + s) == x + c + (c + s) == x + (c + c) + s
  {
    assert "" + c == c;
    assert x + c + (c + s) == x + (c + (c + s));
    assert c + (c + s) == (c + c) + s;
  }

  lemma BlankAtFirstBreak(x: string, s: string)
    requires Find(x + BLANK_LINE + s, CRLF, 0) == Some(|x|)
    ensures Find(x + BLANK_LINE + s, BLANK_LINE, 0) == Some(|x|)
  {
    hide Find;
    var t := x + BLANK_LINE + s;
    assert t[|x|..|x| + 4] == BLANK_LINE;
    forall j: nat | j < |x| ensures !At(t, BLANK_LINE, j) {
      assert !At(t, CRLF, j);
      if j + 4 <= |t| { assert t[j..j + 4][..2] == t[j..j + 2]; }
    }
    FindIs(t, BLANK_LINE, 0, |x|);
  }

  lemma PatternIsAbsent(s: string, pattern: string, i: nat)
    requires i < |pattern| && Misses(s, pattern[i])
    ensures Find(s, pattern, 0) == None
  {
    hide Find;
    forall k: nat ensures !At(s, pattern, k) {
      if k + |pattern| <= |s| { assert s[k..k + |pattern|][i] == s[k + i]; }
    }
    FindNothing(s, pattern, 0);
  }

  lemma FindAfter(prefix: string, pattern: string, rest: string)
    requires pattern != "" && Misses(prefix, pattern[0])
    ensures Find(prefix + pattern + rest, pattern, 0) == Some(|prefix|)
  {
    hide Find;
    var s := prefix + pattern + rest;
    assert s[|prefix|..|prefix| + |pattern|] == pattern;
    forall k: nat | k < |prefix| ensures !At(s, pattern, k) {
      if k + |pattern| <= |s| { assert s[k..k + |pattern|][0] == s[k] == prefix[k]; }
    }
    FindIs(s, pattern, 0, |prefix|);
  }

  // ---------------------------------------------------------------- trimming and splitting

  predicate IsBlank(c: char) {
    c == ' ' || c == '\t'
  }

  function TrimLeft(s: string, drop: char -> bool): (r: string)
    ensures |r| <= |s| && r == s[|s| - |r|..]
  {
    if s != "" && drop(s[0]) then TrimLeft(s[1..], drop) else s
  }

  function TrimRight(s: string, drop: char -> bool): (r: string)
    ensures |r| <= |s| && r == s[..|r|]
  {
    if s != "" && drop(s[|s| - 1]) then TrimRight(s[..|s| - 1], drop) else s
  }

  /** Both trims leave alone what needs no trimming, and nothing droppable at the ends. */
  lemma {:induction false} TrimEnds(s: string, drop: char -> bool)
    ensures var r := TrimRight(TrimLeft(s, drop), drop);
            && (r != "" ==> !drop(r[0]) && !drop(r[|r| - 1]))
            && (s == "" || (!drop(s[0]) && !drop(s[|s| - 1])) ==> r == s)
  {
    TrimLeftEnd(s, drop);
    TrimRightEnd(TrimLeft(s, drop), drop);
  }

  lemma {:induction false} TrimLeftEnd(s: string, drop: char -> bool)
    ensures TrimLeft(s, drop) != "" ==> !drop(TrimLeft(s, drop)[0])
  {
    if s != "" && drop(s[0]) { TrimLeftEnd(s[1..], drop); }
  }

  lemma {:induction false} TrimRightEnd(s: string, drop: char -> bool)
    ensures var r := TrimRight(s, drop); r != "" ==> !drop(r[|r| - 1]) && r[0] == s[0]
  {
    if s != "" && drop(s[|s| - 1]) { TrimRightEnd(s[..|s| - 1], drop); }
  }

  lemma TrimPaddedLeft(t: string, drop: char -> bool)
    requires t != "" && !drop(t[0]) && drop(' ')
    ensures TrimLeft(t, drop) == t && TrimLeft(" " + t, drop) == t
  {
    assert (" " + t)[1..] == t;
  }

  lemma TrimPaddedRight(t: string, drop: char -> bool)
    requires t != "" && !drop(t[|t| - 1]) && drop(' ')
    ensures TrimRight(t, drop) == t && TrimRight(t + " ", drop) == t
  {
    assert (t + " ")[..|t|] == t;
  }

  /** One space on either side is all that a trim takes off. */
  lemma TrimPadded(t: string, drop: char -> bool)
    requires t != "" && !drop(t[0]) && !drop(t[|t| - 1]) && drop(' ')
    ensures TrimLeft(t, drop) == t && TrimLeft(" " + t, drop) == t && TrimLeft(" " + t + " ", drop) == t + " "
    ensures TrimLeft(t + " ", drop) == t + " " && TrimRight(t, drop) == t && TrimRight(t + " ", drop) == t
  {
    hide TrimLeft, TrimRight;
    TrimPaddedLeft(t, drop);
    TrimPaddedRight(t, drop);
    assert (t + " ")[0] == t[0];
    TrimPaddedLeft(t + " ", drop);
    assert " " + t + " " == " " + (t + " ");
  }

  /** Everything that a trim takes off the front may be dropped. */
  lemma {:induction false} TrimLeftDrops(s: string, drop: char -> bool)
    ensures forall k :: 0 <= k < |s| - |TrimLeft(s, drop)| ==> drop(s[k])
  {
    if s != "" && drop(s[0]) { TrimLeftDrops(s[1..], drop); }
  }

  /** Strips spaces and tabs from both ends. */
  function TrimBlanks(s: string): string {
    TrimRight(TrimLeft(s, IsBlank), IsBlank)
  }

  /** Strips all white space from both ends. */
  function TrimSpaces(s: string): string {
    TrimRight(TrimLeft(s, IsSpace), IsSpace)
  }

  /** Length of the longest prefix without white space. */
  function WordLength(s: string): (n: nat)
    ensures n <= |s| && (s != "" && !IsSpace(s[0]) ==> n > 0)
  {
    if s == "" || IsSpace(s[0]) then 0 else 1 + WordLength(s[1..])
  }

  /** What repeated `stream >> word` extracts. */
  function Words(s: string): seq<string>
    decreases |s|
  {
    if s == "" then []
    else if IsSpace(s[0]) then Words(s[1..])
    else [s[..WordLength(s)]] + Words(s[WordLength(s)..])
  }
}
