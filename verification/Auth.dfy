/** Bearer tokens (src/Auth.cpp:162-222): who may do what, as a function of the rules and the header. */
module AuthModel {
  import opened Basics
  import opened Text
  import Sha256Spec

  datatype TokenRule = TokenRule(name: string, plaintextToken: string, sha256Hex: string, scopes: seq<string>,
                                 expiresAt: int)

  datatype Decision =
    Missing | Invalid | Allowed(name: string) | Expired(name: string) | InsufficientScope(name: string)

  predicate IsBytes(s: string) {
    forall k :: 0 <= k < |s| ==> (s[k] as int) < 256
  }

  function Bytes(s: string): seq<byte>
    requires IsBytes(s)
  {
    seq(|s|, k requires 0 <= k < |s| => s[k] as int)
  }

  predicate Matches(rule: TokenRule, presented: string)
    requires IsBytes(presented)
  {
    if rule.sha256Hex != "" then Lowercase(rule.sha256Hex) == Sha256Spec.HexDigest(Bytes(presented))
    else rule.plaintextToken != "" && rule.plaintextToken == presented
  }

  predicate HasScope(rule: TokenRule, scope: string) {
    "*" in rule.scopes || Lowercase(scope) in rule.scopes
  }

  predicate IsExpired(rule: TokenRule, now: int) {
    rule.expiresAt > 0 && now >= rule.expiresAt
  }

  function Judge(rule: TokenRule, scope: string, now: int): Decision {
    if IsExpired(rule, now) then Expired(rule.name)
    else if !HasScope(rule, scope) then InsufficientScope(rule.name)
    else Allowed(rule.name)
  }

  const PREFIX: string := "Bearer "

  predicate IsBearer(header: string) {
    |header| > 7 && header[..7] == PREFIX
  }

  predicate IsFirstMatch(rules: seq<TokenRule>, presented: string, k: nat)
    requires IsBytes(presented)
  {
    k < |rules| && Matches(rules[k], presented) && forall j :: 0 <= j < k ==> !Matches(rules[j], presented)
  }

  predicate NoMatch(rules: seq<TokenRule>, presented: string)
    requires IsBytes(presented)
  {
    forall k :: 0 <= k < |rules| ==> !Matches(rules[k], presented)
  }

  /** The loop over the rules: the first rule that the secret matches decides. */
  function Scan(rules: seq<TokenRule>, legacy: string, presented: string, scope: string, now: int): Decision
    requires IsBytes(presented)
  {
    if rules == [] then
      if legacy != "" && legacy == presented then Allowed("legacy") else Invalid
    else if Matches(rules[0], presented) then Judge(rules[0], scope, now)
    else Scan(rules[1..], legacy, presented, scope, now)
  }

  function Authorize(header: string, rules: seq<TokenRule>, legacy: string, scope: string, now: int): Decision
    requires IsBytes(header)
  {
    if header == "" then Missing
    else if !IsBearer(header) then Invalid
    else Scan(rules, legacy, header[7..], scope, now)
  }

  lemma {:induction false} ScanByFirstMatch(rules: seq<TokenRule>, legacy: string, presented: string, scope: string,
                                            now: int)
    requires IsBytes(presented)
    ensures forall k :: 0 <= k < |rules| && IsFirstMatch(rules, presented, k) ==>
              Scan(rules, legacy, presented, scope, now) == Judge(rules[k], scope, now)
    ensures NoMatch(rules, presented) ==>
              Scan(rules, legacy, presented, scope, now)
              == if legacy != "" && legacy == presented then Allowed("legacy") else Invalid
    ensures NoMatch(rules, presented) || exists k :: 0 <= k < |rules| && IsFirstMatch(rules, presented, k)
  {
    hide Matches, Judge;
    if rules != [] {
      if Matches(rules[0], presented) {
        assert IsFirstMatch(rules, presented, 0);
      } else {
        var more := rules[1..];
        ScanByFirstMatch(more, legacy, presented, scope, now);
        assert forall j :: 0 <= j < |more| ==> more[j] == rules[j + 1];
        forall k | 0 <= k < |rules| && IsFirstMatch(rules, presented, k)
          ensures Scan(rules, legacy, presented, scope, now) == Judge(rules[k], scope, now)
        {
          assert IsFirstMatch(more, presented, k - 1);
        }
        if !NoMatch(more, presented) {
          var k :| 0 <= k < |more| && IsFirstMatch(more, presented, k);
          assert forall j :: 1 <= j < k + 1 ==> rules[j] == more[j - 1];
          assert IsFirstMatch(rules, presented, k + 1);
        } else {
          assert forall j :: 1 <= j < |rules| ==> rules[j] == more[j - 1];
        }
      }
    }
  }

  /** The secret's digest in any spelling where the rule has one, otherwise the token itself. */
  predicate IsSecretOf(rule: TokenRule, secret: string)
    requires IsBytes(secret)
  {
    && (rule.sha256Hex != "" ==> Lowercase(rule.sha256Hex) == Sha256Spec.HexDigest(Bytes(secret)))
    && (rule.sha256Hex == "" ==> secret != "" && rule.plaintextToken == secret)
  }

  predicate IsLive(rule: TokenRule, now: int) {
    rule.expiresAt <= 0 || now < rule.expiresAt
  }

  predicate Grants(rule: TokenRule, scope: string) {
    exists s :: s in rule.scopes && (s == "*" || s == Lowercase(scope))
  }

  /** Rule `k` is the first one that the secret belongs to. */
  predicate Decides(rules: seq<TokenRule>, secret: string, k: nat)
    requires IsBytes(secret)
  {
    k < |rules| && IsSecretOf(rules[k], secret) && forall j :: 0 <= j < k ==> !IsSecretOf(rules[j], secret)
  }

  predicate IsNobodys(rules: seq<TokenRule>, secret: string)
    requires IsBytes(secret)
  {
    forall j :: 0 <= j < |rules| ==> !IsSecretOf(rules[j], secret)
  }

  lemma SecretMatches(rules: seq<TokenRule>, secret: string)
    requires IsBytes(secret)
    ensures forall k: nat :: Decides(rules, secret, k) <==> IsFirstMatch(rules, secret, k)
    ensures IsNobodys(rules, secret) <==> NoMatch(rules, secret)
  {
    forall k | 0 <= k < |rules| ensures IsSecretOf(rules[k], secret) <==> Matches(rules[k], secret) {
      hide Lowercase;
    }
    hide IsSecretOf, Matches;
  }

  /**
   * The decision, in the fields of the first rule that the secret belongs to: expired exactly from
   * its expiry on, allowed exactly while it is live and has the scope, otherwise refused for its scope.
   */
  lemma DecisionIs(header: string, rules: seq<TokenRule>, legacy: string, scope: string, now: int)
    requires IsBytes(header)
    ensures var d := Authorize(header, rules, legacy, scope, now);
            && (d == Missing <==> header == "")
            && (header != "" && (|header| <= 7 || header[..7] != "Bearer ") ==> d == Invalid)
            && (|header| > 7 && header[..7] == "Bearer " ==>
                  && (forall k: nat :: Decides(rules, header[7..], k) ==>
                        && (d == Expired(rules[k].name) <==> 0 < rules[k].expiresAt <= now)
                        && (d == Allowed(rules[k].name) <==> IsLive(rules[k], now) && Grants(rules[k], scope))
                        && (d == InsufficientScope(rules[k].name)
                            <==> IsLive(rules[k], now) && !Grants(rules[k], scope)))
                  && (IsNobodys(rules, header[7..]) ==>
                        d == if legacy != "" && legacy == header[7..] then Allowed("legacy") else Invalid))
  {
    hide Scan, Matches, IsFirstMatch, NoMatch, Lowercase, IsSecretOf, Decides, IsNobodys;
    if IsBearer(header) {
      ScanByFirstMatch(rules, legacy, header[7..], scope, now);
      SecretMatches(rules, header[7..]);
      forall k: nat | Decides(rules, header[7..], k) ensures k < |rules| && IsFirstMatch(rules, header[7..], k) {
        DecidesInRange(rules, header[7..], k);
      }
    }
  }

  lemma DecidesInRange(rules: seq<TokenRule>, secret: string, k: nat)
    requires IsBytes(secret) && Decides(rules, secret, k)
    ensures k < |rules|
  {
  }

  /** A request is allowed exactly when the first rule that its secret matches has the scope and has not expired. */
  predicate MayPass(header: string, rules: seq<TokenRule>, legacy: string, scope: string, now: int, name: string)
    requires IsBytes(header)
  {
    && |header| > 7 && header[..7] == "Bearer "
    && var secret := header[7..];
       || (exists k :: 0 <= k < |rules| && Decides(rules, secret, k)
             && IsLive(rules[k], now) && Grants(rules[k], scope) && rules[k].name == name)
       || (IsNobodys(rules, secret) && legacy != "" && legacy == secret && name == "legacy")
  }

  lemma AllowedIff(header: string, rules: seq<TokenRule>, legacy: string, scope: string, now: int, name: string)
    requires IsBytes(header)
    ensures Authorize(header, rules, legacy, scope, now) == Allowed(name)
            <==> MayPass(header, rules, legacy, scope, now, name)
  {
    hide Scan, Matches, IsFirstMatch, NoMatch, Lowercase, IsSecretOf, Decides, IsNobodys;
    if IsBearer(header) {
      var secret := header[7..];
      ScanByFirstMatch(rules, legacy, secret, scope, now);
      SecretMatches(rules, secret);
      FirstMatchIsUnique(rules, secret);
    }
  }

  lemma FirstMatchIsUnique(rules: seq<TokenRule>, secret: string)
    requires IsBytes(secret)
    ensures forall i, j :: 0 <= i < |rules| && 0 <= j < |rules| ==>
              IsFirstMatch(rules, secret, i) && IsFirstMatch(rules, secret, j) ==> i == j
    ensures NoMatch(rules, secret) ==> forall i :: 0 <= i < |rules| ==> !IsFirstMatch(rules, secret, i)
  {
    hide Matches;
  }

  /** Later rules never change the answer for a secret that an earlier rule matches. */
  lemma EarlierRulesPrevail(header: string, first: seq<TokenRule>, second: seq<TokenRule>, legacy: string,
                            scope: string, now: int)
    requires IsBytes(header)
    ensures IsBearer(header) && !NoMatch(first, header[7..]) ==>
              Authorize(header, first + second, legacy, scope, now) == Authorize(header, first, legacy, scope, now)
  {
    hide Matches, Judge, Scan;
    if IsBearer(header) && !NoMatch(first, header[7..]) {
      var secret := header[7..];
      ScanByFirstMatch(first, legacy, secret, scope, now);
      var k :| 0 <= k < |first| && IsFirstMatch(first, secret, k);
      assert forall j :: 0 <= j <= k ==> (first + second)[j] == first[j];
      assert IsFirstMatch(first + second, secret, k);
      ScanByFirstMatch(first + second, legacy, secret, scope, now);
    }
  }

  // ---------------------------------------------------------------- bits

  function XorBits(a: nat, b: nat): nat {
    if a == 0 && b == 0 then 0 else 2 * XorBits(a / 2, b / 2) + (if a % 2 == b % 2 then 0 else 1)
  }

  function OrBits(a: nat, b: nat): nat {
    if a == 0 && b == 0 then 0 else 2 * OrBits(a / 2, b / 2) + (if a % 2 == 0 && b % 2 == 0 then 0 else 1)
  }

  lemma {:induction false} XorIsZero(a: nat, b: nat)
    ensures XorBits(a, b) == 0 <==> a == b
  {
    if a != 0 || b != 0 { XorIsZero(a / 2, b / 2); }
  }

  lemma {:induction false} OrIsZero(a: nat, b: nat)
    ensures OrBits(a, b) == 0 <==> a == 0 && b == 0
  {
    if a != 0 || b != 0 { OrIsZero(a / 2, b / 2); }
  }
}

module Auth {
  import opened Basics
  import opened Text
  import opened AuthModel
  import Sha256

  /** All positions are looked at, differences are gathered bit by bit; the result is plain equality. */
  method ConstantTimeEquals(left: string, right: string) returns (equal: bool)
    ensures equal == (left == right)
  {
    var maxSize := Max(|left|, |right|);
    var difference := XorBits(|left|, |right|);
    XorIsZero(|left|, |right|);
    for i := 0 to maxSize
      invariant difference == 0 <==> |left| == |right| && forall k :: 0 <= k < i ==> left[k] == right[k]
    {
      var l := if i < |left| then left[i] as int else 0;
      var r := if i < |right| then right[i] as int else 0;
      XorIsZero(l, r);
      OrIsZero(difference, XorBits(l, r));
      difference := OrBits(difference, XorBits(l, r));
    }
    return difference == 0;
  }

  method CheckScope(rule: TokenRule, requiredScope: string) returns (ok: bool)
    ensures ok == HasScope(rule, requiredScope)
  {
    hide Lowercase;
    var normalized := Lowercase(requiredScope);
    for i := 0 to |rule.scopes|
      invariant forall k :: 0 <= k < i ==> rule.scopes[k] != "*" && rule.scopes[k] != normalized
    {
      if rule.scopes[i] == "*" || rule.scopes[i] == normalized { return true; }
    }
    return false;
  }

  method Authorize(header: string, rules: seq<TokenRule>, legacy: string, scope: string, now: int) returns (d: Decision)
    requires IsBytes(header) && |header| < 0x2000_0000_0000_0000
    ensures d == AuthModel.Authorize(header, rules, legacy, scope, now)
  {
    hide HasScope;
    if header == "" { return Missing; }
    if !(|header| >= 7 && header[..7] == PREFIX) { return Invalid; }
    var presented := header[7..];
    if presented == "" { return Invalid; }
    var presentedHash := Sha256.Sha256Hex(Bytes(presented));
    for i := 0 to |rules|
      invariant Scan(rules, legacy, presented, scope, now) == Scan(rules[i..], legacy, presented, scope, now)
    {
      var rule := rules[i];
      var matched := false;
      if rule.sha256Hex != "" {
        matched := ConstantTimeEquals(Lowercase(rule.sha256Hex), presentedHash);
      } else if rule.plaintextToken != "" {
        matched := ConstantTimeEquals(rule.plaintextToken, presented);
      }
      assert matched == Matches(rules[i..][0], presented);
      assert rules[i..][1..] == rules[i + 1..];
      if matched {
        if IsExpired(rule, now) { return Expired(rule.name); }
        var inScope := CheckScope(rule, scope);
        if !inScope { return InsufficientScope(rule.name); }
        return Allowed(rule.name);
      }
    }
    if legacy != "" {
      var equal := ConstantTimeEquals(legacy, presented);
      if equal { return Allowed("legacy"); }
    }
    return Invalid;
  }
}
