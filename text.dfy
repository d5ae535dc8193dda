/**
 * Character classes and the string helpers the source takes from its runtime library:
 * C# `string.IsNullOrWhiteSpace`, `string.Trim` and `string.Join`, and JavaScript
 * `String.prototype.trim`.
 */
module Text {

  /** White space: the ASCII space and the control characters TAB, LF, VT, FF and CR. */
  predicate IsWhiteSpace(c: char) {
    c == ' ' || c == '\t' || c == '\n' || c == '\U{000B}' || c == '\U{000C}' || c == '\r'
  }

  /** Every character is white space (the empty string included). */
  predicate IsBlank(s: string) {
    forall i | 0 <= i < |s| :: IsWhiteSpace(s[i])
  }

  /** Neither the first nor the last character is white space. */
  predicate IsTrimmed(s: string) {
    s == [] || (!IsWhiteSpace(s[0]) && !IsWhiteSpace(s[|s| - 1]))
  }

  /** Drops the longest white-space prefix. */
  function TrimStart(s: string): (r: string)
    ensures |r| <= |s| && r == s[|s| - |r|..]
    ensures IsBlank(s[..|s| - |r|])
    ensures r == [] || !IsWhiteSpace(r[0])
  {
    if |s| > 0 && IsWhiteSpace(s[0]) then
      var r := TrimStart(s[1..]);
      assert s[..|s| - |r|] == [s[0]] + s[1..][..|s| - 1 - |r|];
      r
    else
      s
  }

  /** Drops the longest white-space suffix. */
  function TrimEnd(s: string): (r: string)
    ensures |r| <= |s| && r == s[..|r|]
    ensures IsBlank(s[|r|..])
    ensures r == [] || !IsWhiteSpace(r[|r| - 1])
  {
    if |s| > 0 && IsWhiteSpace(s[|s| - 1]) then
      var r := TrimEnd(s[..|s| - 1]);
      assert s[|r|..] == s[..|s| - 1][|r|..] + [s[|s| - 1]];
      r
    else
      s
  }

  /**
   * Drops white space at both ends. The result is trimmed and is empty exactly when `s` is
   * blank; `TrimIsInfix` shows it is what is left of `s` once a blank prefix and a blank
   * suffix are removed.
   */
  function Trim(s: string): (r: string)
    ensures IsTrimmed(r)
    ensures r == [] <==> IsBlank(s)
  {
    TrimIsTrimmed(s);
    TrimEmptyIffBlank(s);
    TrimEnd(TrimStart(s))
  }

  /** A prefix `r` of a suffix `t` of `s` is an infix of `s`, with the rest of `t` a suffix of `s`. */
  lemma PrefixOfSuffix(s: string, t: string, r: string)
    requires |t| <= |s| && t == s[|s| - |t|..]
    requires |r| <= |t| && r == t[..|r|]
    ensures r == s[|s| - |t|..|s| - |t| + |r|]
    ensures t[|r|..] == s[|s| - |t| + |r|..]
  {
  }

  /** `Trim(s)` is the infix `s[a..b]` of `s` whose prefix `s[..a]` and suffix `s[b..]` are blank. */
  lemma TrimIsInfix(s: string) returns (a: nat, b: nat)
    ensures a <= b <= |s| && Trim(s) == s[a..b]
    ensures IsBlank(s[..a]) && IsBlank(s[b..])
  {
    var t := TrimStart(s);
    var r := TrimEnd(t);
    a := |s| - |t|;
    b := a + |r|;
    PrefixOfSuffix(s, t, r);
  }

  lemma TrimIsTrimmed(s: string)
    ensures IsTrimmed(TrimEnd(TrimStart(s)))
  {
    var t := TrimStart(s);
    var r := TrimEnd(t);
    if r != [] { assert r[0] == t[0]; }
  }

  lemma TrimEmptyIffBlank(s: string)
    ensures TrimEnd(TrimStart(s)) == [] <==> IsBlank(s)
  {
    var t := TrimStart(s);
    var r := TrimEnd(t);
    var a := |s| - |t|;
    if t == [] {
      assert s == s[..a];
    } else {
      assert t[0] == s[a];
    }
  }

  /** A blank prefix before a text that does not start with white space is dropped. */
  lemma {:induction false} TrimStartBlankPrefix(a: string, t: string)
    requires IsBlank(a) && (t == [] || !IsWhiteSpace(t[0]))
    ensures TrimStart(a + t) == t
  {
    if a == [] {
      assert a + t == t;
    } else {
      assert (a + t)[1..] == a[1..] + t;
      TrimStartBlankPrefix(a[1..], t);
    }
  }

  /** A blank suffix after a text that does not end with white space is dropped. */
  lemma {:induction false} TrimEndBlankSuffix(t: string, b: string)
    requires IsBlank(b) && (t == [] || !IsWhiteSpace(t[|t| - 1]))
    ensures TrimEnd(t + b) == t
  {
    if b == [] {
      assert t + b == t;
    } else {
      assert (t + b)[..|t + b| - 1] == t + b[..|b| - 1];
      TrimEndBlankSuffix(t, b[..|b| - 1]);
    }
  }

  /** Trimming removes exactly the blank padding around a trimmed text. */
  lemma TrimPadded(a: string, m: string, b: string)
    requires IsBlank(a) && IsBlank(b) && IsTrimmed(m)
    ensures Trim(a + m + b) == m
  {
    if m == [] {
      assert forall i | 0 <= i < |a + b| :: (a + b)[i] == if i < |a| then a[i] else b[i - |a|];
      assert a + m + b == a + b;
    } else {
      assert a + m + b == a + (m + b);
      TrimStartBlankPrefix(a, m + b);
      TrimEndBlankSuffix(m, b);
    }
  }

  /** Trimming a trimmed string changes nothing. */
  lemma TrimOfTrimmed(s: string)
    requires IsTrimmed(s)
    ensures Trim(s) == s
  {
  }

  /** Trimming is idempotent. */
  lemma TrimIdempotent(s: string)
    ensures Trim(Trim(s)) == Trim(s)
  {
    TrimOfTrimmed(Trim(s));
  }

  /** The parts, separated by the single character `sep` (C# `string.Join(char, parts)`). */
  function Join(sep: char, parts: seq<string>): string {
    if |parts| == 0 then ""
    else if |parts| == 1 then parts[0]
    else parts[0] + [sep] + Join(sep, parts[1..])
  }

  /** The total length of the parts. */
  function TotalLength(parts: seq<string>): nat {
    if parts == [] then 0 else |parts[0]| + TotalLength(parts[1..])
  }

  /** A join begins with the first part and adds one separator between each two neighbours. */
  lemma {:induction false} JoinShape(sep: char, parts: seq<string>)
    requires parts != []
    ensures |Join(sep, parts)| == TotalLength(parts) + |parts| - 1
    ensures Join(sep, parts)[..|parts[0]|] == parts[0]
  {
    if |parts| > 1 {
      JoinShape(sep, parts[1..]);
      assert Join(sep, parts) == parts[0] + [sep] + Join(sep, parts[1..]);
    } else {
      assert TotalLength(parts[1..]) == 0;
    }
  }

  /**
   * Joining non-empty trimmed parts yields a trimmed string, empty exactly when there are
   * no parts.
   */
  lemma {:induction false} JoinTrimmed(sep: char, parts: seq<string>)
    requires forall i | 0 <= i < |parts| :: parts[i] != [] && IsTrimmed(parts[i])
    ensures IsTrimmed(Join(sep, parts))
    ensures Join(sep, parts) == [] <==> parts == []
  {
    if |parts| > 1 {
      var rest := Join(sep, parts[1..]);
      JoinTrimmed(sep, parts[1..]);
      var j := parts[0] + [sep] + rest;
      assert Join(sep, parts) == j;
      assert j[0] == parts[0][0];
      assert j[|j| - 1] == rest[|rest| - 1];
    } else if |parts| == 1 {
      assert parts[0] != [];
    }
  }
}
