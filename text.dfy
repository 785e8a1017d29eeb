/**
 * Character classes and small string operations shared by the adapters.
 * Python's `str` methods and `re` classes work on Unicode; here they are modelled on
 * ASCII (case folding, word characters); white space is Python's full `str.isspace` set.
 */
module Text {
  import opened Common


  /** `\s` in a Python `str` pattern and the characters `str.rstrip()` removes (`str.isspace`). */
  predicate IsSpace(c: char) {
    c == ' ' || c == '\t' || c == '\n' || c == '\r' || c == '\U{000B}' || c == '\U{000C}'
    || ('\U{001C}' <= c <= '\U{001F}') || c == '\U{0085}' || c == '\U{00A0}' || c == '\U{1680}'
    || ('\U{2000}' <= c <= '\U{200A}') || c == '\U{2028}' || c == '\U{2029}' || c == '\U{202F}'
    || c == '\U{205F}' || c == '\U{3000}'
  }

  /** `\w`: a letter, a digit or the underscore (ASCII). */
  predicate IsWord(c: char) {
    ('a' <= c <= 'z') || ('A' <= c <= 'Z') || ('0' <= c <= '9') || c == '_'
  }

  predicate IsDigit(c: char) { '0' <= c <= '9' }

  function LowerChar(c: char): (r: char)
    ensures 'A' <= c <= 'Z' ==> r as int == c as int + 32
    ensures !('A' <= c <= 'Z') ==> r == c
  {
    if 'A' <= c <= 'Z' then (c as int + 32) as char else c
  }

  /** `str.lower()` on ASCII letters. */
  function Lower(s: string): (r: string)
    ensures |r| == |s|
    ensures forall i :: 0 <= i < |s| ==> r[i] == LowerChar(s[i])
  {
    if s == [] then [] else [LowerChar(s[0])] + Lower(s[1..])
  }

  lemma {:induction false} LowerIdempotent(s: string)
    ensures Lower(Lower(s)) == Lower(s)
  {
    if s != [] {
      LowerIdempotent(s[1..]);
    }
  }

  /** Case-insensitive equality of two characters, as `re.IGNORECASE` compares them (ASCII). */
  predicate SameLetter(a: char, b: char) {
    LowerChar(a) == LowerChar(b)
  }

  /** `s` starts with `lit`, compared without regard to case. */
  predicate StartsWithIgnoringCase(s: string, lit: string) {
    |lit| <= |s| && forall k :: 0 <= k < |lit| ==> SameLetter(s[k], lit[k])
  }

  /** `s.rstrip()`: the text without its trailing white space. */
  function RStrip(s: string): (r: string)
    ensures |r| <= |s| && r == s[..|r|]
    ensures r == [] || !IsSpace(r[|r| - 1])
    ensures forall k :: |r| <= k < |s| ==> IsSpace(s[k])
  {
    if s == [] then []
    else if IsSpace(s[|s| - 1]) then RStrip(s[..|s| - 1])
    else s
  }

  /** `sep.join(parts)`. */
  function Join(parts: seq<string>, sep: string): string {
    if parts == [] then []
    else if |parts| == 1 then parts[0]
    else parts[0] + sep + Join(parts[1..], sep)
  }

  /** `s.split('\n')`: the pieces between line breaks, at least one. */
  function Lines(s: string): (r: seq<string>)
    ensures |r| >= 1
    decreases |s|
  {
    if '\n' !in s then [s]
    else
      var k := FirstIndex(s, '\n');
      [s[..k]] + Lines(s[k + 1..])
  }

  function FirstIndex(s: string, c: char): (k: nat)
    requires c in s
    ensures k < |s| && s[k] == c && c !in s[..k]
  {
    if s[0] == c then 0 else 1 + FirstIndex(s[1..], c)
  }

  /** The first `c` of `a + [c] + b` is the one after `a`, when `a` holds none. */
  lemma FirstIndexAfter(a: string, c: char, b: string)
    requires c !in a
    ensures c in a + [c] + b && FirstIndex(a + [c] + b, c) == |a|
  {
    var s := a + [c] + b;
    assert s[|a|] == c;
  }

  /** `s.partition(c)` when `c` occurs: the text before its first occurrence and after it. */
  function SplitAt(s: string, c: char): (r: Option<(string, string)>)
    ensures r.Some? <==> c in s
    ensures r.Some? ==> s == r.value.0 + [c] + r.value.1 && c !in r.value.0
  {
    if c !in s then None
    else
      var k := FirstIndex(s, c);
      assert s == s[..k] + [c] + s[k + 1..];
      Some((s[..k], s[k + 1..]))
  }

  /** Splitting at a separator the first part does not hold gives the parts back. */
  lemma SplitAtJoin(a: string, c: char, b: string)
    requires c !in a
    ensures SplitAt(a + [c] + b, c) == Some((a, b))
  {
    FirstIndexAfter(a, c, b);
    var s := a + [c] + b;
    assert s[..|a|] == a && s[|a| + 1..] == b;
  }

  /** The rest of `s` after the prefix `p`, if `s` starts with it. */
  function StripPrefix(s: string, p: string): (r: Option<string>)
    ensures r.Some? ==> s == p + r.value
  {
    if |s| >= |p| && s[..|p|] == p then Some(s[|p|..]) else None
  }

  lemma StripPrefixJoin(p: string, s: string)
    ensures StripPrefix(p + s, p) == Some(s)
  {
    assert (p + s)[..|p|] == p && (p + s)[|p|..] == s;
  }

  /** The front of `s` before the suffix `p`, if `s` ends with it. */
  function StripSuffix(s: string, p: string): (r: Option<string>)
    ensures r.Some? ==> s == r.value + p
  {
    if |s| >= |p| && s[|s| - |p|..] == p then Some(s[..|s| - |p|]) else None
  }

  lemma StripSuffixJoin(s: string, p: string)
    ensures StripSuffix(s + p, p) == Some(s)
  {
    assert (s + p)[|s + p| - |p|..] == p && (s + p)[..|s + p| - |p|] == s;
  }

  /** Splitting text that was joined with a line break gives the parts back, when no part holds one. */
  lemma {:induction false} LinesOfJoin(parts: seq<string>)
    requires |parts| >= 1
    requires forall i :: 0 <= i < |parts| ==> '\n' !in parts[i]
    ensures Lines(Join(parts, "\n")) == parts
  {
    if |parts| == 1 {
    } else {
      var s := Join(parts, "\n");
      assert s == parts[0] + "\n" + Join(parts[1..], "\n");
      assert s[|parts[0]|] == '\n';
      assert '\n' in s;
      var k := FirstIndex(s, '\n');
      assert s[..|parts[0]|] == parts[0];
      assert k == |parts[0]|;
      assert s[..k] == parts[0];
      assert s[k + 1..] == Join(parts[1..], "\n");
      LinesOfJoin(parts[1..]);
      assert parts == [parts[0]] + parts[1..];
    }
  }

  /** Python's `str(n)` for an integer. */
  function IntToString(n: int): (r: string)
    ensures r != []
  {
    if n < 0 then "-" + NatToString(-n) else NatToString(n)
  }

  function NatToString(n: nat): (r: string)
    ensures r != []
    ensures forall i :: 0 <= i < |r| ==> IsDigit(r[i])
    decreases n
  {
    if n < 10 then [DigitChar(n)] else NatToString(n / 10) + [DigitChar(n % 10)]
  }

  function DigitChar(d: nat): (c: char)
    requires d < 10
    ensures IsDigit(c) && DigitValue(c) == d
  {
    ('0' as int + d) as char
  }

  function DigitValue(c: char): nat
    requires IsDigit(c)
  {
    c as int - '0' as int
  }

  /** Reads a run of decimal digits back as a number. */
  function ParseNat(s: string): nat
    requires forall i :: 0 <= i < |s| ==> IsDigit(s[i])
  {
    if s == [] then 0 else 10 * ParseNat(s[..|s| - 1]) + DigitValue(s[|s| - 1])
  }

  function ParseInt(s: string): int
    requires s != []
    requires forall i :: (if s[0] == '-' then 1 else 0) <= i < |s| ==> IsDigit(s[i])
  {
    if s[0] == '-' then -(ParseNat(s[1..]) as int) else ParseNat(s)
  }

  lemma {:induction false} NatToStringRoundTrip(n: nat)
    ensures ParseNat(NatToString(n)) == n
    decreases n
  {
    if n >= 10 {
      var s := NatToString(n);
      assert s[..|s| - 1] == NatToString(n / 10);
      NatToStringRoundTrip(n / 10);
    }
  }

  /** The decimal text of a port number reads back as that number. */
  lemma IntToStringRoundTrip(n: int)
    ensures var s := IntToString(n);
      && (forall i :: (if s[0] == '-' then 1 else 0) <= i < |s| ==> IsDigit(s[i]))
      && ParseInt(s) == n
  {
    if n < 0 {
      NatToStringRoundTrip(-n);
      assert IntToString(n)[1..] == NatToString(-n);
    } else {
      NatToStringRoundTrip(n);
    }
  }
}
