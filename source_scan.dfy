/**
 * The quote skipping shared by the two bracket-checking scripts. Each line is scanned on
 * its own, starting outside any string: a quote character opens a string, and the string
 * ends at the next occurrence of the same quote character that is not preceded by a backslash.
 */
module SourceScan {
  datatype ScanMode = Code | InString(quote: char)

  predicate IsQuote(c: char) {
    c == '"' || c == '\'' || c == '`'
  }

  /** The mode after the character at `j`, given the mode before it. */
  function NextMode(line: string, j: nat, mode: ScanMode): ScanMode
    requires j < |line|
  {
    match mode
    case InString(q) => if line[j] == q && (j == 0 || line[j - 1] != '\\') then Code else mode
    case Code => if IsQuote(line[j]) then InString(line[j]) else Code
  }

  /** The mode before the character at `j`; every line starts outside a string. */
  function ModeAt(line: string, j: nat): ScanMode
    requires j <= |line|
  {
    if j == 0 then Code else NextMode(line, j - 1, ModeAt(line, j - 1))
  }

  /** The character at `j` is seen by the bracket logic: outside a string, and not a quote. */
  predicate IsCodeAt(line: string, j: nat)
    requires j < |line|
  {
    ModeAt(line, j) == Code && !IsQuote(line[j])
  }

  /** How many of the first `j` characters of the line are code characters from `cs`. */
  function CodeCount(line: string, j: nat, cs: set<char>): nat
    requires j <= |line|
  {
    if j == 0 then 0
    else CodeCount(line, j - 1, cs) + if IsCodeAt(line, j - 1) && line[j - 1] in cs then 1 else 0
  }

  /** The code characters from `cs` in the whole line. */
  function LineCount(line: string, cs: set<char>): nat {
    CodeCount(line, |line|, cs)
  }

  /** On a line without quote characters every character is code. */
  lemma {:induction false} QuoteFreeLineIsCode(line: string, j: nat)
    requires forall k | 0 <= k < |line| :: !IsQuote(line[k])
    requires j <= |line|
    ensures ModeAt(line, j) == Code
    ensures forall k | 0 <= k < j :: IsCodeAt(line, k)
  {
    if j > 0 {
      QuoteFreeLineIsCode(line, j - 1);
    }
  }

  /** Inside a string opened at `j`, the mode stays in that string up to the first unescaped closing quote. */
  lemma {:induction false} InStringUntil(line: string, j: nat, m: nat)
    requires j < m < |line|
    requires ModeAt(line, j) == Code && IsQuote(line[j])
    requires forall n | j < n < m :: line[n] != line[j] || line[n - 1] == '\\'
    ensures ModeAt(line, m) == InString(line[j])
  {
    if m > j + 1 {
      InStringUntil(line, j, m - 1);
    }
  }

  /**
   * A quoted stretch from the quote at `j` to the first matching unescaped quote at `k` is
   * skipped entirely, other quote kinds and brackets inside included, and code resumes after it.
   */
  lemma SkipQuoted(line: string, j: nat, k: nat)
    requires j < k < |line|
    requires ModeAt(line, j) == Code && IsQuote(line[j])
    requires line[k] == line[j] && line[k - 1] != '\\'
    requires forall n | j < n < k :: line[n] != line[j] || line[n - 1] == '\\'
    ensures forall m | j <= m <= k :: !IsCodeAt(line, m)
    ensures ModeAt(line, k + 1) == Code
  {
    forall m | j < m <= k
      ensures ModeAt(line, m) == InString(line[j])
    {
      InStringUntil(line, j, m);
    }
  }

  /**
   * The no-backslash rule cannot tell an escaped quote from an escaped backslash: in
   * `"a\\"` the last quote does not close the string.
   */
  lemma EscapedBackslashKeepsString()
    ensures var line := "\"a\\\\\"";
      ModeAt(line, |line|) == InString('"')
  {
    var line := "\"a\\\\\"";
    assert ModeAt(line, 1) == InString('"');
    assert ModeAt(line, 2) == InString('"');
    assert ModeAt(line, 3) == InString('"');
    assert ModeAt(line, 4) == InString('"');
  }
}
