/**
 * The stack-based bracket matcher (`debug_syntax.cjs`): openers outside strings are pushed
 * with their line number, a closer pops a matching opener, and every other closer is
 * reported. The file is a sequence of lines; the printed messages are a sequence of reports.
 */
module BracketStack {
  import opened SourceScan

  datatype Entry = Entry(ch: char, line: nat)

  datatype Report =
    | Imbalance(found: char, line: nat)
    | Mismatch(expected: char, fromLine: nat, found: char, line: nat)

  datatype MatchState = MatchState(stack: seq<Entry>, reports: seq<Report>)

  const Openers: set<char> := {'(', '{', '['}
  const Closers: set<char> := {')', '}', ']'}

  /** The opener a closer closes. */
  function OpenerOf(c: char): char
    requires c in Closers
  {
    if c == ')' then '(' else if c == '}' then '{' else '['
  }

  /** The effect of one code character on line `lineNo` (1-based). */
  function Step(st: MatchState, c: char, lineNo: nat): MatchState {
    if c in Openers then st.(stack := st.stack + [Entry(c, lineNo)])
    else if c in Closers then
      if st.stack == [] then st.(reports := st.reports + [Imbalance(c, lineNo)])
      else
        var top := st.stack[|st.stack| - 1];
        if top.ch == OpenerOf(c) then st.(stack := st.stack[..|st.stack| - 1])
        else st.(reports := st.reports + [Mismatch(top.ch, top.line, c, lineNo)])
    else st
  }

  /** The state after the first `j` characters of the line numbered `lineNo`. */
  function AfterChars(st: MatchState, line: string, lineNo: nat, j: nat): MatchState
    requires j <= |line|
  {
    if j == 0 then st
    else
      var s := AfterChars(st, line, lineNo, j - 1);
      if IsCodeAt(line, j - 1) then Step(s, line[j - 1], lineNo) else s
  }

  /** The state after the first `i` lines. */
  function AfterLines(lines: seq<string>, i: nat): MatchState
    requires i <= |lines|
  {
    if i == 0 then MatchState([], [])
    else AfterChars(AfterLines(lines, i - 1), lines[i - 1], i, |lines[i - 1]|)
  }

  /** The code characters from `cs` in the first `i` lines. */
  function LinesCount(lines: seq<string>, i: nat, cs: set<char>): nat
    requires i <= |lines|
  {
    if i == 0 then 0 else LinesCount(lines, i - 1, cs) + LineCount(lines[i - 1], cs)
  }

  // ---- Properties of a step ------------------------------------------------------

  /**
   * Only openers push; a closer pops exactly when the top is its opener; a closer on an empty
   * stack or against another opener adds one report and leaves the stack alone.
   */
  lemma StepSpec(st: MatchState, c: char, lineNo: nat)
    ensures var r := Step(st, c, lineNo);
      && (c in Openers <==> r.stack == st.stack + [Entry(c, lineNo)])
      && (c in Closers && st.stack != [] && st.stack[|st.stack| - 1].ch == OpenerOf(c) <==>
          st.stack != [] && r.stack == st.stack[..|st.stack| - 1])
      && (c in Closers && st.stack == [] ==> r.reports == st.reports + [Imbalance(c, lineNo)] && r.stack == [])
      && (c in Closers && st.stack != [] && st.stack[|st.stack| - 1].ch != OpenerOf(c) ==>
          r.stack == st.stack
          && r.reports == st.reports + [Mismatch(st.stack[|st.stack| - 1].ch, st.stack[|st.stack| - 1].line, c, lineNo)])
      && (c !in Openers && c !in Closers ==> r == st)
  {
  }

  /** The stack holds openers only, their line numbers lie in `1..bound` and never decrease upwards. */
  predicate OrderedStack(stack: seq<Entry>, bound: nat) {
    && (forall k | 0 <= k < |stack| :: stack[k].ch in Openers && 1 <= stack[k].line <= bound)
    && (forall k, l | 0 <= k < l < |stack| :: stack[k].line <= stack[l].line)
  }

  lemma {:induction false} AfterCharsOrdered(st: MatchState, line: string, lineNo: nat, j: nat)
    requires j <= |line| && lineNo >= 1
    requires OrderedStack(st.stack, lineNo)
    ensures OrderedStack(AfterChars(st, line, lineNo, j).stack, lineNo)
  {
    if j > 0 {
      AfterCharsOrdered(st, line, lineNo, j - 1);
    }
  }

  lemma {:induction false} OrderedStackWeaken(stack: seq<Entry>, bound: nat, bound': nat)
    requires OrderedStack(stack, bound) && bound <= bound'
    ensures OrderedStack(stack, bound')
  {
  }

  /**
   * After any number of lines the stack holds only openers, each tagged with the number of a
   * line already read, and the numbers never decrease from the bottom to the top.
   */
  lemma {:induction false} StackOrdered(lines: seq<string>, i: nat)
    requires i <= |lines|
    ensures OrderedStack(AfterLines(lines, i).stack, i)
  {
    if i > 0 {
      StackOrdered(lines, i - 1);
      OrderedStackWeaken(AfterLines(lines, i - 1).stack, i - 1, i);
      AfterCharsOrdered(AfterLines(lines, i - 1), lines[i - 1], i, |lines[i - 1]|);
    }
  }

  /**
   * Every push is an opener and every closer either pops or is reported, so the stack height
   * is openers minus closers plus reports, within a line ...
   */
  lemma {:induction false} AfterCharsHeight(st: MatchState, line: string, lineNo: nat, j: nat)
    requires j <= |line|
    ensures var r := AfterChars(st, line, lineNo, j);
      && st.reports <= r.reports
      && |r.stack| + CodeCount(line, j, Closers) == |st.stack| + CodeCount(line, j, Openers) + |r.reports| - |st.reports|
  {
    if j > 0 {
      AfterCharsHeight(st, line, lineNo, j - 1);
    }
  }

  /**
   * ... and over the whole file: earlier reports stay, and the number of unclosed brackets
   * is the number of openers minus closers plus the number of reports. With no report it is
   * exactly openers minus closers.
   */
  lemma {:induction false} StackHeight(lines: seq<string>, i: nat)
    requires i <= |lines|
    ensures |AfterLines(lines, i).stack| + LinesCount(lines, i, Closers)
         == LinesCount(lines, i, Openers) + |AfterLines(lines, i).reports|
    ensures forall h | 0 <= h <= i :: AfterLines(lines, h).reports <= AfterLines(lines, i).reports
  {
    if i > 0 {
      StackHeight(lines, i - 1);
      AfterCharsHeight(AfterLines(lines, i - 1), lines[i - 1], i, |lines[i - 1]|);
    }
  }

  /** An opener that is closed by the wrong kind stays open, and the wrong closer is reported. */
  lemma MismatchKeepsOpener()
    ensures AfterLines(["(]"], 1) == MatchState([Entry('(', 1)], [Mismatch('(', 1, ']', 1)])
  {
    var line := "(]";
    assert IsCodeAt(line, 0) && IsCodeAt(line, 1);
    assert AfterChars(MatchState([], []), line, 1, 1) == MatchState([Entry('(', 1)], []);
  }

  // ---- The script ----------------------------------------------------------------

  /**
   * The scanning loops: the unclosed openers, the reports printed along the way, and the
   * printed total, which is the number of unclosed openers.
   */
  method CheckNesting(lines: seq<string>) returns (stack: seq<Entry>, reports: seq<Report>, total: nat)
    ensures MatchState(stack, reports) == AfterLines(lines, |lines|)
    ensures total == |stack|
  {
    stack, reports := [], [];
    for i := 0 to |lines|
      invariant MatchState(stack, reports) == AfterLines(lines, i)
    {
      var line := lines[i];
      var inString := false;
      var quoteChar := ' ';
      for j := 0 to |line|
        invariant ModeAt(line, j) == if inString then InString(quoteChar) else Code
        invariant MatchState(stack, reports) == AfterChars(AfterLines(lines, i), line, i + 1, j)
      {
        var ch := line[j];
        if inString {
          if ch == quoteChar && (j == 0 || line[j - 1] != '\\') {
            inString := false;
          }
        } else if IsQuote(ch) {
          inString := true;
          quoteChar := ch;
        } else {
          if ch in Openers {
            stack := stack + [Entry(ch, i + 1)];
          }
          if ch in Closers {
            if |stack| == 0 {
              reports := reports + [Imbalance(ch, i + 1)];
            } else {
              var last := stack[|stack| - 1];
              if last.ch == OpenerOf(ch) {
                stack := stack[..|stack| - 1];
              } else {
                reports := reports + [Mismatch(last.ch, last.line, ch, i + 1)];
              }
            }
          }
        }
      }
    }
    total := |stack|;
  }
}
