/**
 * The counter-based bracket checker (`debug_syntax.js`): three counters track openers minus
 * closers outside strings, and the scan stops at the first line after which the parenthesis
 * or the brace counter is negative. The square-bracket counter is only printed.
 */
module BracketCounter {
  import opened Wrappers
  import opened Text
  import opened SourceScan

  datatype Kind = Paren | Brace

  /** Where the scan stops: the 1-based line and the counter that went negative. */
  datatype Stop = Stop(line: nat, kind: Kind)

  datatype CounterOutcome =
    | ExtraClosing(line: nat, kind: Kind, content: string)
    | FinalBalance(parens: int, braces: int, squares: int)

  /** Openers minus closers of one kind in one line. */
  function LineDelta(line: string, open: char, close: char): int {
    LineCount(line, {open}) - LineCount(line, {close})
  }

  /** Openers minus closers of one kind in the first `i` lines. */
  function Balance(lines: seq<string>, i: nat, open: char, close: char): int
    requires i <= |lines|
  {
    if i == 0 then 0 else Balance(lines, i - 1, open, close) + LineDelta(lines[i - 1], open, close)
  }

  /** The early exit, if any, at the end of one of the first `i` lines. */
  function EarlyExit(lines: seq<string>, i: nat): (r: Option<Stop>)
    requires i <= |lines|
    ensures r.Some? ==> 1 <= r.value.line <= i
  {
    if i == 0 then None
    else if EarlyExit(lines, i - 1).Some? then EarlyExit(lines, i - 1)
    else if Balance(lines, i, '(', ')') < 0 then Some(Stop(i, Paren))
    else if Balance(lines, i, '{', '}') < 0 then Some(Stop(i, Brace))
    else None
  }

  /** What the script prints: the first extra closer, or the three final balances. */
  function Outcome(lines: seq<string>): CounterOutcome {
    match EarlyExit(lines, |lines|)
    case Some(stop) => ExtraClosing(stop.line, stop.kind, Trim(lines[stop.line - 1]))
    case None => FinalBalance(Balance(lines, |lines|, '(', ')'), Balance(lines, |lines|, '{', '}'), Balance(lines, |lines|, '[', ']'))
  }

  /** Both stopping counters are not negative after each of the first `i` lines. */
  predicate NoNegative(lines: seq<string>, i: nat)
    requires i <= |lines|
  {
    forall h | 1 <= h <= i :: Balance(lines, h, '(', ')') >= 0 && Balance(lines, h, '{', '}') >= 0
  }

  /**
   * There is an early exit within the first `i` lines exactly when a stopping counter is
   * negative after one of them; it is at the first such line and names the parenthesis when
   * that counter is negative there.
   */
  lemma {:induction false} EarlyExitSpec(lines: seq<string>, i: nat)
    requires i <= |lines|
    ensures EarlyExit(lines, i).None? <==> NoNegative(lines, i)
    ensures EarlyExit(lines, i).Some? ==>
      var o := EarlyExit(lines, i).value;
      && 1 <= o.line <= i
      && NoNegative(lines, o.line - 1)
      && (o.kind == Paren <==> Balance(lines, o.line, '(', ')') < 0)
      && (o.kind == Brace ==> Balance(lines, o.line, '{', '}') < 0)
  {
    if i > 0 {
      EarlyExitSpec(lines, i - 1);
    }
  }

  /** Once the scan has stopped, later lines do not matter. */
  lemma {:induction false} EarlyExitStable(lines: seq<string>, k: nat, n: nat)
    requires k <= n <= |lines|
    requires EarlyExit(lines, k).Some?
    ensures EarlyExit(lines, n) == EarlyExit(lines, k)
    decreases n - k
  {
    if k < n {
      EarlyExitStable(lines, k, n - 1);
    }
  }

  /**
   * The printed outcome: the first line after which the parenthesis or brace counter is
   * negative, naming the parenthesis exactly when its counter is negative there, or, when
   * there is none, the three balances of the whole file.
   */
  lemma OutcomeSpec(lines: seq<string>)
    ensures Outcome(lines).FinalBalance? <==> NoNegative(lines, |lines|)
    ensures Outcome(lines).FinalBalance? ==>
      Outcome(lines) == FinalBalance(Balance(lines, |lines|, '(', ')'), Balance(lines, |lines|, '{', '}'), Balance(lines, |lines|, '[', ']'))
    ensures Outcome(lines).ExtraClosing? ==>
      var o := Outcome(lines);
      && 1 <= o.line <= |lines|
      && NoNegative(lines, o.line - 1)
      && !NoNegative(lines, o.line)
      && (o.kind == Paren <==> Balance(lines, o.line, '(', ')') < 0)
  {
    EarlyExitSpec(lines, |lines|);
    match EarlyExit(lines, |lines|)
    case None =>
    case Some(stop) =>
      assert Outcome(lines).line == stop.line && Outcome(lines).kind == stop.kind;
      assert Balance(lines, stop.line, '(', ')') < 0 || Balance(lines, stop.line, '{', '}') < 0;
  }

  /** A stop reports the content of its line, trimmed. */
  lemma OutcomeReportsLine(lines: seq<string>)
    requires Outcome(lines).ExtraClosing?
    ensures var o := Outcome(lines);
      && 1 <= o.line <= |lines|
      && o.content == Trim(lines[o.line - 1])
  {
    var stop :| EarlyExit(lines, |lines|) == Some(stop);
    assert Outcome(lines).line == stop.line;
  }

  /** A negative square-bracket counter never stops the scan. */
  lemma SquaresNeverStop()
    ensures Outcome(["]"]) == FinalBalance(0, 0, -1)
  {
    var line := "]";
    assert IsCodeAt(line, 0);
    assert CodeCount(line, 1, {'['}) == 0 && CodeCount(line, 1, {']'}) == 1;
    assert CodeCount(line, 1, {'('}) == 0 && CodeCount(line, 1, {')'}) == 0;
  }

  /** The counters are checked only at line ends, so `)(` on one line does not stop the scan. */
  lemma CheckedAtLineEndOnly()
    ensures Outcome([")("]) == FinalBalance(0, 0, 0)
  {
    var line := ")(";
    assert IsCodeAt(line, 0) && IsCodeAt(line, 1);
    assert CodeCount(line, 2, {'('}) == 1 && CodeCount(line, 2, {')'}) == 1;
    assert CodeCount(line, 2, {'{'}) == 0 && CodeCount(line, 2, {'}'}) == 0;
    assert CodeCount(line, 2, {'['}) == 0 && CodeCount(line, 2, {']'}) == 0;
  }

  /**
   * The inner loop over one line, continuing from the counters of the lines before. After
   * every character each counter is its value before the line plus the openers minus closers
   * of its kind seen so far outside strings on this line.
   */
  method ScanLine(line: string, grade0: int, brace0: int, square0: int) returns (grade: int, brace: int, square: int)
    ensures grade == grade0 + LineDelta(line, '(', ')')
    ensures brace == brace0 + LineDelta(line, '{', '}')
    ensures square == square0 + LineDelta(line, '[', ']')
  {
    grade, brace, square := grade0, brace0, square0;
    var inString := false;
    var quoteChar := ' ';
    for j := 0 to |line|
      invariant ModeAt(line, j) == if inString then InString(quoteChar) else Code
      invariant grade == grade0 + CodeCount(line, j, {'('}) - CodeCount(line, j, {')'})
      invariant brace == brace0 + CodeCount(line, j, {'{'}) - CodeCount(line, j, {'}'})
      invariant square == square0 + CodeCount(line, j, {'['}) - CodeCount(line, j, {']'})
    {
      var ch := line[j];
      if inString {
        if ch == quoteChar && (j == 0 || line[j - 1] != '\\') {
          inString := false;
        }
      } else if IsQuote(ch) {
        inString := true;
        quoteChar := ch;
      } else {
        if ch == '(' { grade := grade + 1; }
        if ch == ')' { grade := grade - 1; }
        if ch == '{' { brace := brace + 1; }
        if ch == '}' { brace := brace - 1; }
        if ch == '[' { square := square + 1; }
        if ch == ']' { square := square - 1; }
      }
    }
  }

  /**
   * The scanning loop over the lines: the first line after which the parenthesis or brace
   * counter is negative, or else the three counters of the whole file.
   */
  method ScanLines(lines: seq<string>) returns (stop: Option<Stop>, grade: int, brace: int, square: int)
    ensures stop == EarlyExit(lines, |lines|)
    ensures stop.None? ==>
      && grade == Balance(lines, |lines|, '(', ')')
      && brace == Balance(lines, |lines|, '{', '}')
      && square == Balance(lines, |lines|, '[', ']')
  {
    grade, brace, square := 0, 0, 0;
    for i := 0 to |lines|
      invariant EarlyExit(lines, i).None?
      invariant grade == Balance(lines, i, '(', ')')
      invariant brace == Balance(lines, i, '{', '}')
      invariant square == Balance(lines, i, '[', ']')
    {
      grade, brace, square := ScanLine(lines[i], grade, brace, square);
      if grade < 0 {
        EarlyExitStable(lines, i + 1, |lines|);
        return Some(Stop(i + 1, Paren)), grade, brace, square;
      }
      if brace < 0 {
        EarlyExitStable(lines, i + 1, |lines|);
        return Some(Stop(i + 1, Brace)), grade, brace, square;
      }
    }
    stop := None;
  }

  /** The whole script: scan, then report the stopping line, trimmed, or the final balances. */
  method CheckBalance(lines: seq<string>) returns (outcome: CounterOutcome)
    ensures outcome == Outcome(lines)
  {
    var stop, grade, brace, square := ScanLines(lines);
    match stop
    case Some(Stop(line, kind)) =>
      outcome := ExtraClosing(line, kind, Trim(lines[line - 1]));
    case None =>
      outcome := FinalBalance(grade, brace, square);
  }
}
