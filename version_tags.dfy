/**
 * Version tags of the renderer: the u64 counter is shown to clients as
 * lowercase hexadecimal (`format!("{:x}", version)`), read back with
 * `u64::from_str_radix(s.trim_matches('"'), 16)`, and compared in
 * `has_changed_since`.
 */
module VersionTags {
  import opened Wrappers
  import opened Primitives

  predicate IsLowerHexDigit(ch: char) {
    '0' <= ch <= '9' || 'a' <= ch <= 'f'
  }

  /** The lowercase digit for `d`, as `{:x}` prints it. */
  function HexDigit(d: nat): (ch: char)
    requires d < 16
    ensures IsLowerHexDigit(ch)
    ensures ch == '0' <==> d == 0
  {
    if d < 10 then ('0' as int + d) as char else ('a' as int + d - 10) as char
  }

  /** The value of one digit in radix 16; `from_str_radix` takes either letter case. */
  function DigitValue(ch: char): Option<nat> {
    if '0' <= ch <= '9' then Some(ch as int - '0' as int)
    else if 'a' <= ch <= 'f' then Some(ch as int - 'a' as int + 10)
    else if 'A' <= ch <= 'F' then Some(ch as int - 'A' as int + 10)
    else None
  }

  /**
   * `format!("{:x}", n)`: lowercase hexadecimal, no prefix, no leading zeros
   * (zero prints as "0").
   */
  function ToHex(n: nat): (s: string)
    ensures |s| >= 1
    ensures forall i :: 0 <= i < |s| ==> IsLowerHexDigit(s[i])
    ensures s[0] == '0' <==> n == 0
    ensures n == 0 ==> s == "0"
    decreases n
  {
    if n < 16 then [HexDigit(n)] else ToHex(n / 16) + [HexDigit(n % 16)]
  }

  /** The value of a run of radix-16 digits, most significant first; None at a non-digit. */
  function DigitsValue(s: string): (r: Option<nat>)
    ensures r.Some? <==> forall i :: 0 <= i < |s| ==> DigitValue(s[i]).Some?
    decreases |s|
  {
    if s == [] then Some(0)
    else
      match (DigitsValue(s[..|s| - 1]), DigitValue(s[|s| - 1]))
      case (Some(high), Some(low)) => Some(high * 16 + low)
      case _ => None
  }

  /** The digits of a `from_str_radix` argument: everything after an optional leading '+'. */
  function UnsignedDigits(s: string): string {
    if s != [] && s[0] == '+' then s[1..] else s
  }

  /**
   * `u64::from_str_radix(s, 16).ok()`: an optional leading '+', then at least
   * one digit; the empty string, a lone sign, any other character and a value
   * of 2^64 or more are errors.
   */
  function FromStrRadix16(s: string): (r: Option<u64>)
    ensures s == [] || s == "+" ==> r.None?
    ensures (exists i :: 0 <= i < |UnsignedDigits(s)| && DigitValue(UnsignedDigits(s)[i]).None?) ==> r.None?
    ensures r.Some? ==> DigitsValue(UnsignedDigits(s)) == Some(r.value as nat)
    ensures s != [] && s != "+" && DigitsValue(UnsignedDigits(s)).Some? ==>
      (r.Some? <==> DigitsValue(UnsignedDigits(s)).value < U64_MODULUS)
  {
    if s == [] || s == "+" then None
    else
      match DigitsValue(UnsignedDigits(s))
      case Some(v) => if v < U64_MODULUS then Some(v as u64) else None
      case None => None
  }

  function TrimLeadingQuotes(s: string): (r: string)
    decreases |s|
  {
    if |s| > 0 && s[0] == '"' then TrimLeadingQuotes(s[1..]) else s
  }

  function TrimTrailingQuotes(s: string): (r: string)
    decreases |s|
  {
    if |s| > 0 && s[|s| - 1] == '"' then TrimTrailingQuotes(s[..|s| - 1]) else s
  }

  /** The quotes at the start of `s` are dropped: what is left is a suffix that does not start with one. */
  lemma {:induction false} TrimLeadingQuotesShape(s: string)
    ensures var r := TrimLeadingQuotes(s);
      && |r| <= |s| && r == s[|s| - |r|..]
      && (forall i :: 0 <= i < |s| - |r| ==> s[i] == '"')
      && (r == [] || r[0] != '"')
    decreases |s|
  {
    if |s| > 0 && s[0] == '"' {
      TrimLeadingQuotesShape(s[1..]);
      var r := TrimLeadingQuotes(s);
      assert s[1..][|s| - 1 - |r|..] == s[|s| - |r|..];
      forall i | 1 <= i < |s| - |r|
        ensures s[i] == '"'
      {
        assert s[i] == s[1..][i - 1];
      }
    }
  }

  /** The quotes at the end of `s` are dropped: what is left is a prefix that does not end with one. */
  lemma {:induction false} TrimTrailingQuotesShape(s: string)
    ensures var r := TrimTrailingQuotes(s);
      && |r| <= |s| && r == s[..|r|]
      && (forall i :: |r| <= i < |s| ==> s[i] == '"')
      && (r == [] || r[|r| - 1] != '"')
    decreases |s|
  {
    if |s| > 0 && s[|s| - 1] == '"' {
      TrimTrailingQuotesShape(s[..|s| - 1]);
      var r := TrimTrailingQuotes(s);
      assert s[..|s| - 1][..|r|] == s[..|r|];
      forall i | |r| <= i < |s| - 1
        ensures s[i] == '"'
      {
        assert s[i] == s[..|s| - 1][i];
      }
    }
  }

  /** `str::trim_matches('"')`: every quote at either end is removed. */
  function TrimQuotes(s: string): string {
    TrimTrailingQuotes(TrimLeadingQuotes(s))
  }

  /**
   * `trim_matches('"')` leaves the middle of `s` from its first non-quote
   * to its last one: everything around it is quotes, and it neither starts
   * nor ends with one.
   */
  lemma TrimQuotesShape(s: string)
    ensures var r := TrimQuotes(s);
      var start := |s| - |TrimLeadingQuotes(s)|;
      && 0 <= start && start + |r| <= |s| && r == s[start .. start + |r|]
      && (forall i :: 0 <= i < start ==> s[i] == '"')
      && (forall i :: start + |r| <= i < |s| ==> s[i] == '"')
      && (r == [] || (r[0] != '"' && r[|r| - 1] != '"'))
  {
    var t := TrimLeadingQuotes(s);
    var r := TrimTrailingQuotes(t);
    var start := |s| - |t|;
    TrimLeadingQuotesShape(s);
    TrimTrailingQuotesShape(t);
    assert t == s[start..];
    assert r == t[..|r|];
    assert s[start .. start + |r|] == s[start..][..|r|];
    forall i | start + |r| <= i < |s|
      ensures s[i] == '"'
    {
      assert s[i] == t[i - start];
    }
    if r != [] {
      assert r[0] == t[0];
    }
  }

  /**
   * `MapRenderer::parse_version_string`: the quotes at both ends are
   * trimmed, then the rest is read in radix 16.
   */
  function ParseVersionString(s: string): (r: Option<u64>)
    ensures TrimQuotes(s) == [] || TrimQuotes(s) == "+" ==> r.None?
    ensures (exists i :: 0 <= i < |UnsignedDigits(TrimQuotes(s))| && DigitValue(UnsignedDigits(TrimQuotes(s))[i]).None?)
            ==> r.None?
    ensures r.Some? ==> DigitsValue(UnsignedDigits(TrimQuotes(s))) == Some(r.value as nat)
  {
    FromStrRadix16(TrimQuotes(s))
  }

  /** `MapRenderer::get_version_string` of a renderer at `version`. */
  function VersionString(version: u64): string {
    ToHex(version as nat)
  }

  /** `MapRenderer::has_changed_since` of a renderer at `version`. */
  function ChangedSince(version: u64, clientVersion: Option<string>): (r: Option<string>)
    ensures r.None? <==> clientVersion.Some? && ParseVersionString(clientVersion.value) == Some(version)
    ensures r.Some? ==> r.value == VersionString(version)
  {
    match clientVersion
    case Some(v) => if ParseVersionString(v) == Some(version) then None else Some(VersionString(version))
    case None => Some(VersionString(version))
  }

  lemma DigitValueOfHexDigit(d: nat)
    requires d < 16
    ensures DigitValue(HexDigit(d)) == Some(d)
  {
  }

  /** Reading back the digits `{:x}` prints gives the number printed. */
  lemma {:induction false} DigitsValueOfToHex(n: nat)
    ensures DigitsValue(ToHex(n)) == Some(n)
    decreases n
  {
    var s := ToHex(n);
    if n < 16 {
      assert s[..0] == [];
      DigitValueOfHexDigit(n);
    } else {
      DigitsValueOfToHex(n / 16);
      assert s[..|s| - 1] == ToHex(n / 16);
      DigitValueOfHexDigit(n % 16);
    }
  }

  lemma {:induction false} TrimLeadingAfterQuotes(q: string, t: string)
    requires forall i :: 0 <= i < |q| ==> q[i] == '"'
    requires t == [] || t[0] != '"'
    ensures TrimLeadingQuotes(q + t) == t
    decreases |q|
  {
    if q != [] {
      assert (q + t)[1..] == q[1..] + t;
      TrimLeadingAfterQuotes(q[1..], t);
    } else {
      assert q + t == t;
    }
  }

  lemma {:induction false} TrimTrailingBeforeQuotes(t: string, q: string)
    requires forall i :: 0 <= i < |q| ==> q[i] == '"'
    requires t == [] || t[|t| - 1] != '"'
    ensures TrimTrailingQuotes(t + q) == t
    decreases |q|
  {
    if q != [] {
      assert (t + q)[..|t + q| - 1] == t + q[..|q| - 1];
      TrimTrailingBeforeQuotes(t, q[..|q| - 1]);
    } else {
      assert t + q == t;
    }
  }

  /** Any number of quotes around a quote-free-ended text is stripped, and only those. */
  lemma TrimQuotesAround(q1: string, t: string, q2: string)
    requires forall i :: 0 <= i < |q1| ==> q1[i] == '"'
    requires forall i :: 0 <= i < |q2| ==> q2[i] == '"'
    requires t != [] && t[0] != '"' && t[|t| - 1] != '"'
    ensures TrimQuotes(q1 + t + q2) == t
  {
    assert q1 + t + q2 == q1 + (t + q2);
    TrimLeadingAfterQuotes(q1, t + q2);
    TrimTrailingBeforeQuotes(t, q2);
  }

  /** The version string of a renderer parses back to its version, and the quoted form does too. */
  lemma ParseVersionStringRoundTrip(version: u64)
    ensures ParseVersionString(VersionString(version)) == Some(version)
    ensures ParseVersionString("\"" + VersionString(version) + "\"") == Some(version)
  {
    var s := VersionString(version);
    DigitsValueOfToHex(version as nat);
    assert s[0] != '+' && s != "+";
    TrimQuotesAround([], s, []);
    assert [] + s + [] == s;
    TrimQuotesAround("\"", s, "\"");
  }

  /** `from_str_radix` also takes a leading '+', so a signed version string parses too. */
  lemma SignedVersionStringParses(version: u64)
    ensures ParseVersionString("+" + VersionString(version)) == Some(version)
  {
    var s := VersionString(version);
    var signed := "+" + s;
    DigitsValueOfToHex(version as nat);
    TrimQuotesAround([], signed, []);
    assert [] + signed + [] == signed;
    assert UnsignedDigits(signed) == s;
  }

  /** Distinct versions get distinct version strings. */
  lemma VersionStringInjective(a: u64, b: u64)
    requires VersionString(a) == VersionString(b)
    ensures a == b
  {
    ParseVersionStringRoundTrip(a);
    ParseVersionStringRoundTrip(b);
  }

  /** A client that echoes the current version string is told nothing changed. */
  lemma EchoedVersionIsUnchanged(version: u64)
    ensures ChangedSince(version, Some(VersionString(version))) == None
    ensures ChangedSince(version, Some("\"" + VersionString(version) + "\"")) == None
  {
    ParseVersionStringRoundTrip(version);
  }
}
