/** The state machine that finds the result of every test in the log of a build. */
module JenkinsLog {
  import opened Decimal
  import opened Text

  // ----- what a line says

  predicate IsLetter(c: char) {
    'a' <= c <= 'z' || 'A' <= c <= 'Z'
  }

  /** Nothing is left of the line when it is stripped. */
  predicate IsBlank(line: string) {
    forall i :: 0 <= i < |line| ==> IsSpace(line[i])
  }

  predicate Contains(line: string, text: string) {
    exists i :: 0 <= i <= |line| && text <= line[i..]
  }

  /** Past the longest run of characters in a class. */
  function SkipWhile(s: string, from: nat, inClass: char -> bool): (n: nat)
    requires from <= |s|
    ensures from <= n <= |s|
    decreases |s| - from
  {
    if from == |s| || !inClass(s[from]) then from else SkipWhile(s, from + 1, inClass)
  }

  const DAEMON_END := "- End of the daemon log -"
  const COMPLETE := "Ran 1 test in "

  /** "Ran 1 test in (\d+\.\d+s)" at the start of the line. */
  predicate IsComplete(line: string) {
    && COMPLETE <= line
    && var from := |COMPLETE|;
       var point := SkipWhile(line, from, c => IsDigit(c));
    && from < point < |line| && line[point] == '.'
    && var unit := SkipWhile(line, point + 1, c => IsDigit(c));
       point + 1 < unit < |line| && line[unit] == 's'
  }

  const TIMED_OUT := "Build timed out (after "
  const ABORTED := "). Marking the build as aborted."

  /** "Build timed out \(after ([0-9]+ [a-zA-Z]+)\)\. Marking the build as aborted." */
  predicate AbortAt(s: string) {
    && TIMED_OUT <= s
    && var from := |TIMED_OUT|;
       var gap := SkipWhile(s, from, c => IsDigit(c));
    && from < gap < |s| && s[gap] == ' '
    && var end := SkipWhile(s, gap + 1, c => IsLetter(c));
       gap + 1 < end && ABORTED <= s[end..]
  }

  predicate IsAbort(line: string) {
    exists i :: 0 <= i <= |line| && AbortAt(line[i..])
  }

  function Repeat(c: char, n: nat): string {
    seq(n, i => c)
  }

  /** Nothing but dashes. */
  predicate OnlyDashes(line: string) {
    forall i :: 0 <= i < |line| ==> line[i] == '-'
  }

  datatype LineKind = Blank | DaemonEnd | Start | Complete | Abort | Delimiter | Dashes70 | Dashes | Other

  /** The tests on a line in the order in which they are made. */
  function Kind(line: string): LineKind {
    if IsBlank(line) then Blank
    else if Contains(line, DAEMON_END) then DaemonEnd
    else if "Test Input params:" <= line then Start
    else if IsComplete(line) then Complete
    else if IsAbort(line) then Abort
    else if line == Repeat('=', 70) then Delimiter
    else if line == Repeat('-', 70) then Dashes70
    else if OnlyDashes(line) then Dashes
    else Other
  }

  // ----- the patterns written out

  predicate Digits(s: string) {
    s != "" && forall i :: 0 <= i < |s| ==> '0' <= s[i] <= '9'
  }

  predicate Letters(s: string) {
    s != "" && forall i :: 0 <= i < |s| ==> 'a' <= s[i] <= 'z' || 'A' <= s[i] <= 'Z'
  }

  lemma {:induction false} SkipWhileIs(s: string, from: nat, to: nat, inClass: char -> bool)
    requires from <= to <= |s| && forall i :: from <= i < to ==> inClass(s[i])
    requires to < |s| ==> !inClass(s[to])
    ensures SkipWhile(s, from, inClass) == to
    decreases |s| - from
  {
    if from < to {
      SkipWhileIs(s, from + 1, to, inClass);
    }
  }

  lemma {:induction false} SkipWhileStops(s: string, from: nat, inClass: char -> bool)
    requires from <= |s|
    ensures var to := SkipWhile(s, from, inClass);
      && (forall i :: from <= i < to ==> inClass(s[i])) && (to < |s| ==> !inClass(s[to]))
    decreases |s| - from
  {
    if from < |s| && inClass(s[from]) {
      SkipWhileStops(s, from + 1, inClass);
    }
  }

  lemma {:induction false} ContainsIff(line: string, text: string)
    ensures Contains(line, text) <==> exists pre, post :: line == pre + text + post
  {
    if Contains(line, text) {
      var i :| 0 <= i <= |line| && text <= line[i..];
      assert line == line[..i] + text + line[i..][|text|..];
    }
    forall pre, post | line == pre + text + post ensures Contains(line, text) {
      assert line[|pre|..] == text + post;
    }
  }

  /** "Ran 1 test in ", a number with a point, and "s", at the start of the line. */
  ghost predicate CompleteText(line: string, a: string, b: string, post: string) {
    Digits(a) && Digits(b) && line == "Ran 1 test in " + a + "." + b + "s" + post
  }

  lemma {:induction false} CutInFive(s: string, i: nat, j: nat, k: nat)
    requires i <= j < k <= |s|
    ensures s == s[..i] + s[i..j] + [s[j]] + s[j + 1..k] + s[k..]
  {
  }

  lemma {:induction false} JoinedFive(x: string, a: string, c: char, w: string, tail: string)
    ensures var s, j := x + a + [c] + w + tail, |x| + |a|;
      && s[..|x|] == x && s[|x|..j] == a && s[j] == c && s[j + 1..j + 1 + |w|] == w && s[j + 1 + |w|..] == tail
  {
  }

  lemma {:induction false} SliceInClass(s: string, part: string, i: nat, j: nat, inClass: char -> bool)
    requires i <= j <= |s| && s[i..j] == part && forall k :: 0 <= k < |part| ==> inClass(part[k])
    ensures forall k :: i <= k < j ==> inClass(s[k])
  {
    forall k | i <= k < j ensures inClass(s[k]) {
      assert s[k] == part[k - i];
    }
  }

  /** What is skipped is in the class. */
  lemma {:induction false} Skipped(s: string, i: nat, j: nat, part: string, inClass: char -> bool)
    requires i <= |s| && j == SkipWhile(s, i, inClass) && part == s[i..j]
    ensures forall k :: 0 <= k < |part| ==> inClass(part[k])
  {
    SkipWhileStops(s, i, inClass);
  }

  lemma {:induction false} DigitsSkipped(s: string, i: nat, j: nat)
    requires i < |s| && j == SkipWhile(s, i, c => IsDigit(c)) && i < j
    ensures Digits(s[i..j])
  {
    Skipped(s, i, j, s[i..j], c => IsDigit(c));
  }

  lemma {:induction false} LettersSkipped(s: string, i: nat, j: nat)
    requires i < |s| && j == SkipWhile(s, i, c => IsLetter(c)) && i < j
    ensures Letters(s[i..j])
  {
    Skipped(s, i, j, s[i..j], c => IsLetter(c));
  }

  lemma {:induction false} CompleteParts(line: string) returns (a: string, b: string, post: string)
    requires IsComplete(line)
    ensures CompleteText(line, a, b, post)
  {
    var from := |COMPLETE|;
    var point := SkipWhile(line, from, c => IsDigit(c));
    var unit := SkipWhile(line, point + 1, c => IsDigit(c));
    DigitsSkipped(line, from, point);
    DigitsSkipped(line, point + 1, unit);
    a, b, post := CompleteCut(line, point, unit);
  }

  lemma {:induction false} CompleteCut(line: string, point: nat, unit: nat) returns (a: string, b: string, post: string)
    requires COMPLETE <= line && |COMPLETE| <= point < unit < |line| && line[point] == '.' && line[unit] == 's'
    requires Digits(line[|COMPLETE|..point]) && Digits(line[point + 1..unit])
    ensures CompleteText(line, a, b, post)
  {
    a, b, post := line[|COMPLETE|..point], line[point + 1..unit], line[unit + 1..];
    CutInFive(line, |COMPLETE|, point, unit);
    assert line[unit..] == "s" + post;
    CompleteJoined(line, a, b, line[unit..], post);
  }

  lemma {:induction false} CompleteJoined(line: string, a: string, b: string, tail: string, post: string)
    requires line == COMPLETE + a + ['.'] + b + tail && tail == "s" + post
    ensures line == "Ran 1 test in " + a + "." + b + "s" + post
  {
    assert COMPLETE + a + "." + b + ("s" + post) == COMPLETE + a + "." + b + "s" + post;
  }

  lemma {:induction false} CompleteFrom(line: string, a: string, b: string, post: string)
    requires CompleteText(line, a, b, post)
    ensures IsComplete(line)
  {
    var tail := "s" + post;
    CompleteSplit(line, a, b, tail, post);
    JoinedFive(COMPLETE, a, '.', b, tail);
    var from := |COMPLETE|;
    var point := from + |a|;
    var unit := point + 1 + |b|;
    assert line[unit] == tail[0] == 's';
    SliceInClass(line, a, from, point, c => IsDigit(c));
    SkipWhileIs(line, from, point, c => IsDigit(c));
    SliceInClass(line, b, point + 1, unit, c => IsDigit(c));
    SkipWhileIs(line, point + 1, unit, c => IsDigit(c));
  }

  lemma {:induction false} CompleteSplit(line: string, a: string, b: string, tail: string, post: string)
    requires line == "Ran 1 test in " + a + "." + b + "s" + post && tail == "s" + post
    ensures line == COMPLETE + a + ['.'] + b + tail
  {
    assert COMPLETE + a + "." + b + "s" + post == COMPLETE + a + "." + b + ("s" + post);
  }

  lemma {:induction false} CompleteIff(line: string)
    ensures IsComplete(line) <==> exists a, b, post :: CompleteText(line, a, b, post)
  {
    if IsComplete(line) {
      var a, b, post := CompleteParts(line);
    }
    forall a, b, post | CompleteText(line, a, b, post) ensures IsComplete(line) {
      CompleteFrom(line, a, b, post);
    }
  }

  /** "Build timed out (after ", a number, a word, and ")...", anywhere in the line. */
  ghost predicate AbortText(s: string, a: string, w: string, post: string) {
    && Digits(a) && Letters(w)
    && s == "Build timed out (after " + a + " " + w + "). Marking the build as aborted." + post
  }

  lemma {:induction false} AbortParts(s: string) returns (a: string, w: string, post: string)
    requires AbortAt(s)
    ensures AbortText(s, a, w, post)
  {
    var from := |TIMED_OUT|;
    var gap := SkipWhile(s, from, c => IsDigit(c));
    var end := SkipWhile(s, gap + 1, c => IsLetter(c));
    DigitsSkipped(s, from, gap);
    LettersSkipped(s, gap + 1, end);
    a, w := s[from..gap], s[gap + 1..end];
    post := AbortCut(s, from, gap, end);
    AbortJoined(s, a, w, post);
  }

  lemma {:induction false} AbortCut(s: string, from: nat, gap: nat, end: nat) returns (post: string)
    requires TIMED_OUT <= s && from == |TIMED_OUT| <= gap < end <= |s| && s[gap] == ' ' && ABORTED <= s[end..]
    ensures s == TIMED_OUT + s[from..gap] + [' '] + s[gap + 1..end] + (ABORTED + post)
  {
    post := PrefixCut(s[end..], ABORTED);
    CutInFive(s, from, gap, end);
  }

  lemma {:induction false} PrefixCut(s: string, p: string) returns (post: string)
    requires p <= s
    ensures s == p + post
  {
    post := s[|p|..];
  }

  lemma {:induction false} AbortJoined(s: string, a: string, w: string, post: string)
    requires s == TIMED_OUT + a + [' '] + w + (ABORTED + post)
    ensures s == "Build timed out (after " + a + " " + w + "). Marking the build as aborted." + post
  {
    assert TIMED_OUT + a + " " + w + (ABORTED + post) == TIMED_OUT + a + " " + w + ABORTED + post;
  }

  lemma {:induction false} AbortSplit(s: string, a: string, w: string, post: string)
    requires s == "Build timed out (after " + a + " " + w + "). Marking the build as aborted." + post
    ensures s == TIMED_OUT + a + [' '] + w + (ABORTED + post)
  {
    assert TIMED_OUT + a + " " + w + (ABORTED + post) == TIMED_OUT + a + " " + w + ABORTED + post;
  }

  lemma {:induction false} AbortFrom(s: string, a: string, w: string, post: string)
    requires AbortText(s, a, w, post)
    ensures AbortAt(s)
  {
    var tail := ABORTED + post;
    AbortSplit(s, a, w, post);
    JoinedFive(TIMED_OUT, a, ' ', w, tail);
    var from := |TIMED_OUT|;
    var gap := from + |a|;
    var end := gap + 1 + |w|;
    assert s[end] == tail[0] == ')';
    SliceInClass(s, a, from, gap, c => IsDigit(c));
    SkipWhileIs(s, from, gap, c => IsDigit(c));
    SliceInClass(s, w, gap + 1, end, c => IsLetter(c));
    SkipWhileIs(s, gap + 1, end, c => IsLetter(c));
  }

  ghost predicate IsAbortText(s: string) {
    exists a, w, post :: AbortText(s, a, w, post)
  }

  lemma {:induction false} AbortTextIff(s: string)
    ensures AbortAt(s) <==> IsAbortText(s)
  {
    if AbortAt(s) {
      var a, w, post := AbortParts(s);
    }
    if IsAbortText(s) {
      var a, w, post :| AbortText(s, a, w, post);
      AbortFrom(s, a, w, post);
    }
  }

  lemma {:induction false} AbortIff(line: string)
    ensures IsAbort(line) <==> exists i :: 0 <= i <= |line| && IsAbortText(line[i..])
  {
    forall i | 0 <= i <= |line| ensures AbortAt(line[i..]) <==> IsAbortText(line[i..]) {
      AbortTextIff(line[i..]);
    }
  }

  /** What a line is, in the order in which it is looked for. */
  lemma {:induction false} KindIs(line: string)
    ensures var blank, ends := (forall i :: 0 <= i < |line| ==> IsSpace(line[i])), Contains(line, "- End of the daemon log -");
      var starts, tells := "Test Input params:" <= line, IsComplete(line) || IsAbort(line);
      && (Kind(line).Blank? <==> blank)
      && (Kind(line).DaemonEnd? <==> !blank && ends)
      && (Kind(line).Start? <==> !blank && !ends && starts)
      && (Kind(line).Complete? <==> !blank && !ends && !starts && IsComplete(line))
      && (Kind(line).Abort? <==> !blank && !ends && !starts && !IsComplete(line) && IsAbort(line))
  {
  }

  /** Lines of one character: 70 equals signs open a report, 70 dashes close a part of it, and other
      numbers of dashes say nothing. */
  lemma {:induction false} RuleIs(line: string, c: char)
    requires line != "" && forall i :: 0 <= i < |line| ==> line[i] == c
    ensures c == '=' ==> Kind(line) == if |line| == 70 then Delimiter else Other
    ensures c == '-' ==> Kind(line) == if |line| == 70 then Dashes70 else Dashes
  {
    if c == '=' || c == '-' {
      assert line[0] == c && !IsSpace(c);
      forall i | 0 <= i <= |line| ensures !(DAEMON_END <= line[i..]) && !AbortAt(line[i..]) {
        if i < |line| && |line[i..]| >= 3 {
          assert line[i + 2] == c && line[i..][2] == c && line[i..][0] == c;
          assert DAEMON_END[2] == 'E' && TIMED_OUT[0] == 'B';
        }
      }
      assert OnlyDashes(line) <==> c == '-';
      SameChars(line, c);
    }
  }

  lemma {:induction false} SameChars(line: string, c: char)
    requires forall i :: 0 <= i < |line| ==> line[i] == c
    ensures forall d :: d == c ==> (line == Repeat(d, 70) <==> |line| == 70)
    ensures forall d :: d != c && line != "" ==> line != Repeat(d, 70)
  {
    forall d | d != c && line != "" ensures line != Repeat(d, 70) {
      assert Repeat(d, 70)[0] == d;
    }
  }

  /** A line with what it says. */
  datatype Line = Line(kind: LineKind, text: string)

  function Read(text: string): Line {
    Line(Kind(text), text)
  }

  function ReadAll(texts: seq<string>): (lines: seq<Line>)
    ensures |lines| == |texts| && forall i :: 0 <= i < |lines| ==> lines[i] == Read(texts[i])
  {
    seq(|texts|, i requires 0 <= i < |texts| => Read(texts[i]))
  }

  // ----- the state machine

  /** An entry of the report: only a failed test has a backtrace. */
  datatype Result = Pass | NotRun | Fail(backtrace: string)

  datatype Verdict = Undecided | Failed | Aborted

  /** `stage` is 1 or 2 inside a failure report; `killed` and `crashed` end the processing. */
  datatype State = State(
    started: bool, stage: nat, verdict: Verdict, testNum: nat, tests: seq<Result>,
    aborted: bool, killed: bool, crashed: bool)

  const START := State(false, 0, Undecided, 0, [], false, false, false)

  const LIMIT: nat := 1000

  function LastPart(text: string): (r: string)
    ensures |r| == (if |text| < 1000 then |text| else 1000) && r == text[|text| - |r|..]
  {
    if |text| > LIMIT then text[|text| - LIMIT..] else text
  }

  predicate HasBacktrace(tests: seq<Result>) {
    tests != [] && tests[|tests| - 1].Fail?
  }

  function WithBacktrace(tests: seq<Result>, text: string): seq<Result>
    requires tests != []
  {
    tests[..|tests| - 1] + [Fail(text)]
  }

  /** A line inside a failure report; asking for a backtrace that is not there raises. */
  function ReportLine(s: State, l: Line): State {
    if !(l.kind.Dashes? || l.kind.Dashes70?) then
      if HasBacktrace(s.tests)
      then s.(tests := WithBacktrace(s.tests, s.tests[|s.tests| - 1].backtrace + l.text + "\n"))
      else s.(crashed := true)
    else if l.kind.Dashes? then s
    else if s.stage == 1 then s.(stage := 2)
    else if s.stage != 2 then s
    else if HasBacktrace(s.tests)
    then s.(stage := 0, tests := WithBacktrace(s.tests, LastPart(s.tests[|s.tests| - 1].backtrace)))
    else s.(stage := 0, crashed := true)
  }

  /** A line that is no event of its own. */
  function StartedLine(s: State, l: Line): State {
    if !s.started then s
    else if s.stage > 0 then ReportLine(s, l)
    else if l.kind.Delimiter? then s.(stage := 1, verdict := Failed, tests := s.tests + [Fail("")])
    else s
  }

  function Step(s: State, l: Line): State {
    if s.killed || s.crashed then s
    else
      match l.kind
      case Blank => s
      case DaemonEnd => s.(killed := true)
      case Start => s.(testNum := s.testNum + 1, started := true)
      case Complete =>
        s.(tests := if s.verdict.Undecided? then s.tests + [Pass] else s.tests, started := false, verdict := Undecided)
      case Abort => s.(aborted := true, started := false, verdict := Aborted, tests := s.tests + [NotRun])
      case _ => StartedLine(s, l)
  }

  function Run(s: State, lines: seq<Line>): State
    decreases |lines|
  {
    if lines == [] then s else Run(Step(s, lines[0]), lines[1..])
  }

  class JobLog {
    var testCaseStarted: bool
    var testReportStage: nat
    var testResult: Verdict
    var testNum: nat
    var tests: seq<Result>
    var buildAborted: bool
    var daemonKilled: bool
    var crashed: bool

    function Value(): State
      reads this
    {
      State(testCaseStarted, testReportStage, testResult, testNum, tests, buildAborted, daemonKilled, crashed)
    }

    constructor ()
      ensures Value() == START
    {
      testCaseStarted, testReportStage, testResult, testNum := false, 0, Undecided, 0;
      tests, buildAborted, daemonKilled, crashed := [], false, false, false;
    }

    method ProcessTestLine(line: string)
      requires !daemonKilled && !crashed
      modifies this
      ensures Value() == Step(old(Value()), Read(line))
    {
      match Kind(line)
      case Blank =>
      case DaemonEnd =>
        daemonKilled := true;
      case Start =>
        testNum := testNum + 1;
        testCaseStarted := true;
      case Complete =>
        if testResult.Undecided? {
          tests := tests + [Pass];
        }
        testCaseStarted := false;
        testResult := Undecided;
      case Abort =>
        buildAborted := true;
        testCaseStarted := false;
        testResult := Aborted;
        tests := tests + [NotRun];
      case _ =>
        ProcessStartedLine(line);
    }

    method ProcessStartedLine(line: string)
      requires var k := Kind(line); k.Delimiter? || k.Dashes70? || k.Dashes? || k.Other?
      modifies this`tests, this`testReportStage, this`testResult, this`crashed
      ensures Value() == StartedLine(old(Value()), Read(line))
    {
      DashKinds(line);
      if testCaseStarted {
        if testReportStage == 0 && line == Repeat('=', 70) {
          testReportStage := 1;
          testResult := Failed;
          tests := tests + [Fail("")];
          return;
        }
        if testReportStage > 0 {
          ProcessReportLine(Read(line), line);
        }
      }
    }

    method ProcessReportLine(ghost l: Line, line: string)
      requires l.text == line && (l.kind.Dashes70? <==> line == Repeat('-', 70))
      requires OnlyDashes(line) <==> l.kind.Dashes? || l.kind.Dashes70?
      modifies this`tests, this`testReportStage, this`crashed
      ensures Value() == ReportLine(old(Value()), l)
    {
      if !OnlyDashes(line) {
        if !HasBacktrace(tests) {
          crashed := true;
          return;
        }
        tests := WithBacktrace(tests, tests[|tests| - 1].backtrace + line + "\n");
      }
      if testReportStage == 1 && line == Repeat('-', 70) {
        testReportStage := 2;
      } else if testReportStage == 2 && line == Repeat('-', 70) {
        testReportStage := 0;
        if !HasBacktrace(tests) {
          crashed := true;
          return;
        }
        tests := WithBacktrace(tests, LastPart(tests[|tests| - 1].backtrace));
      }
    }

    /** The lines of a log, up to the end of the daemon or an exception. */
    method ProcessTestCases(texts: seq<string>)
      modifies this
      ensures Value() == Run(old(Value()), ReadAll(texts))
    {
      var i := 0;
      ghost var lines := ReadAll(texts);
      while i < |texts| && !daemonKilled && !crashed
        invariant i <= |texts|
        invariant Run(Value(), lines[i..]) == Run(old(Value()), lines)
      {
        ProcessTestLine(texts[i]);
        i := i + 1;
      }
      RunStopped(Value(), lines[i..]);
    }
  }

  lemma {:induction false} DashKinds(line: string)
    requires var k := Kind(line); k.Delimiter? || k.Dashes70? || k.Dashes? || k.Other?
    ensures OnlyDashes(line) <==> Kind(line).Dashes? || Kind(line).Dashes70?
    ensures Kind(line).Dashes70? <==> line == Repeat('-', 70)
    ensures Kind(line).Delimiter? <==> line == Repeat('=', 70)
  {
    assert Repeat('=', 70)[0] == '=' && Repeat('-', 70)[0] == '-';
  }

  lemma {:induction false} RunStopped(s: State, lines: seq<Line>)
    requires s.killed || s.crashed || lines == []
    ensures Run(s, lines) == s
    decreases |lines|
  {
    if lines != [] {
      RunStopped(s, lines[1..]);
    }
  }

  lemma {:induction false} RunAppend(s: State, a: seq<Line>, b: seq<Line>)
    ensures Run(s, a + b) == Run(Run(s, a), b)
    decreases |a|
  {
    if a == [] {
      assert a + b == b;
    } else {
      assert (a + b)[1..] == a[1..] + b;
      RunAppend(Step(s, a[0]), a[1..], b);
    }
  }

  lemma {:induction false} RunFirst(s: State, lines: seq<Line>, next: State)
    requires lines != [] && Step(s, lines[0]) == next
    ensures Run(s, lines) == Run(next, lines[1..])
  {
  }

  lemma {:induction false} RunOne(s: State, l: Line)
    ensures Run(s, [l]) == Step(s, l)
  {
    assert [l][1..] == [];
  }

  lemma {:induction false} RunBoth(s: State, a: seq<Line>, b: seq<Line>, middle: State, end: State)
    requires Run(s, a) == middle && Run(middle, b) == end
    ensures Run(s, a + b) == end
  {
    RunAppend(s, a, b);
  }

  function After(lines: seq<Line>, k: nat): State
    requires k <= |lines|
  {
    Run(START, lines[..k])
  }

  lemma {:induction false} AfterStep(lines: seq<Line>, k: nat)
    requires k < |lines|
    ensures After(lines, k + 1) == Step(After(lines, k), lines[k])
  {
    assert lines[..k + 1] == lines[..k] + [lines[k]];
    RunAppend(START, lines[..k], [lines[k]]);
    RunOne(After(lines, k), lines[k]);
  }

  // ----- when the backtrace is there

  /** The backtrace that a line of an open report is added to is there. */
  predicate Backed(s: State) {
    s.stage > 0 ==> HasBacktrace(s.tests)
  }

  /** The line ends a test with an entry of its own while a report is still open. */
  predicate CutsReport(s: State, l: Line) {
    !s.killed && !s.crashed && s.stage > 0 && (l.kind.Abort? || (l.kind.Complete? && s.verdict.Undecided?))
  }

  lemma {:induction false} BackedStep(s: State, l: Line)
    requires Backed(s)
    ensures Backed(Step(s, l)) <==> !CutsReport(s, l)
    ensures !s.crashed ==> !Step(s, l).crashed
  {
  }

  /** For every log: the backtrace is there whenever a report is open if and only if no line adds
      another entry while one is open. */
  lemma {:induction false} BacktraceIff(lines: seq<Line>)
    ensures (forall k :: 0 <= k <= |lines| ==> Backed(After(lines, k))) <==>
            (forall k :: 0 <= k < |lines| ==> !CutsReport(After(lines, k), lines[k]))
  {
    if forall k :: 0 <= k < |lines| ==> !CutsReport(After(lines, k), lines[k]) {
      forall k | 0 <= k <= |lines| ensures Backed(After(lines, k)) {
        BackedUpTo(lines, k);
      }
    } else {
      var k :| 0 <= k < |lines| && CutsReport(After(lines, k), lines[k]);
      AfterStep(lines, k);
      if Backed(After(lines, k)) {
        BackedStep(After(lines, k), lines[k]);
      }
    }
  }

  lemma {:induction false} BackedUpTo(lines: seq<Line>, k: nat)
    requires k <= |lines|
    requires forall i :: 0 <= i < k ==> !CutsReport(After(lines, i), lines[i])
    ensures Backed(After(lines, k)) && !After(lines, k).crashed
  {
    if k > 0 {
      var before := k - 1;
      BackedUpTo(lines, before);
      AfterStep(lines, before);
      BackedStep(After(lines, before), lines[before]);
    }
  }

  // ----- when a line raises

  /** The line is added to the backtrace of the open report, or closes it. */
  predicate NeedsBacktrace(s: State, l: Line) {
    && !s.killed && !s.crashed && s.started && s.stage > 0
    && (l.kind.Other? || l.kind.Delimiter? || (l.kind.Dashes70? && s.stage == 2))
  }

  lemma {:induction false} RaiseStep(s: State, l: Line)
    ensures Step(s, l).crashed <==> s.crashed || (NeedsBacktrace(s, l) && !HasBacktrace(s.tests))
  {
  }

  /** The first line that raises. */
  lemma {:induction false} RaisedAt(lines: seq<Line>, n: nat) returns (k: nat)
    requires n <= |lines| && After(lines, n).crashed
    ensures k < n && NeedsBacktrace(After(lines, k), lines[k]) && !HasBacktrace(After(lines, k).tests)
  {
    assert lines[..0] == [];
    k := n - 1;
    AfterStep(lines, k);
    RaiseStep(After(lines, k), lines[k]);
    if After(lines, k).crashed {
      k := RaisedAt(lines, k);
    }
  }

  lemma {:induction false} StaysRaised(lines: seq<Line>, k: nat, n: nat)
    requires k <= n <= |lines| && After(lines, k).crashed
    ensures After(lines, n).crashed
    decreases n
  {
    if k < n {
      StaysRaised(lines, k, n - 1);
      AfterStep(lines, n - 1);
    }
  }

  /** A report that was cut stays open, without its backtrace, as long as the log is read. */
  lemma {:induction false} StaysCut(lines: seq<Line>, i: nat, k: nat)
    requires i < k <= |lines| && CutsReport(After(lines, i), lines[i])
    ensures var s := After(lines, k);
      s.killed || s.crashed || (s.stage > 0 && !HasBacktrace(s.tests))
    decreases k
  {
    var before := k - 1;
    AfterStep(lines, before);
    if i < before {
      StaysCut(lines, i, before);
    }
  }

  ghost predicate RaisesAt(lines: seq<Line>, k: nat)
    requires k < |lines|
  {
    NeedsBacktrace(After(lines, k), lines[k]) && !HasBacktrace(After(lines, k).tests)
  }

  ghost predicate CutBefore(lines: seq<Line>, i: nat, k: nat)
    requires i < k < |lines|
  {
    CutsReport(After(lines, i), lines[i]) && NeedsBacktrace(After(lines, k), lines[k])
  }

  lemma {:induction false} CutRaises(lines: seq<Line>, i: nat, k: nat)
    requires i < k < |lines| && CutBefore(lines, i, k)
    ensures RaisesAt(lines, k)
  {
    StaysCut(lines, i, k);
  }

  /** For every log: it raises if and only if some line of an open report needs the backtrace while
      the last entry has none, and that is so if and only if some line needs the backtrace after
      another one has ended the test while a report was open. */
  lemma {:induction false} RaisesIff(lines: seq<Line>)
    ensures After(lines, |lines|).crashed <==> exists k :: 0 <= k < |lines| && RaisesAt(lines, k)
    ensures After(lines, |lines|).crashed <==> exists i, k :: 0 <= i < k < |lines| && CutBefore(lines, i, k)
  {
    if After(lines, |lines|).crashed {
      var k := RaisedAt(lines, |lines|);
      assert RaisesAt(lines, k);
      if forall i :: 0 <= i < k ==> !CutsReport(After(lines, i), lines[i]) {
        BackedUpTo(lines, k);
      } else {
        var i :| 0 <= i < k && CutsReport(After(lines, i), lines[i]);
        assert CutBefore(lines, i, k);
      }
    }
    forall k | 0 <= k < |lines| && RaisesAt(lines, k) ensures After(lines, |lines|).crashed {
      AfterStep(lines, k);
      RaiseStep(After(lines, k), lines[k]);
      StaysRaised(lines, k + 1, |lines|);
    }
    forall i, k | 0 <= i < k < |lines| && CutBefore(lines, i, k) ensures RaisesAt(lines, k) {
      CutRaises(lines, i, k);
    }
  }

  // ----- logs of whole tests

  /** A failure report: a line of equals signs, and two parts that each end with a line of dashes. */
  datatype Report = Report(opening: Line, first: seq<Line>, middle: Line, second: seq<Line>, closing: Line)

  datatype Outcome = Passes | Fails(report: Report, between: seq<Line>)

  /** The lines of one test, and those up to the next one. */
  datatype TestCase = TestCase(start: Line, before: seq<Line>, outcome: Outcome, end: Line, after: seq<Line>)

  function ReportLines(r: Report): seq<Line> {
    [r.opening] + ((r.first + [r.middle]) + (r.second + [r.closing]))
  }

  function OutcomeLines(o: Outcome): seq<Line> {
    if o.Passes? then [] else ReportLines(o.report) + o.between
  }

  function Lines(t: TestCase): seq<Line> {
    [t.start] + (t.before + (OutcomeLines(t.outcome) + ([t.end] + t.after)))
  }

  /** Lines that say nothing outside of reports, even in a test. */
  predicate Quiet(lines: seq<Line>) {
    forall i :: 0 <= i < |lines| ==>
      var k := lines[i].kind; k.Blank? || k.Dashes70? || k.Dashes? || k.Other?
  }

  /** Lines that say nothing between two tests. */
  predicate Idle(lines: seq<Line>) {
    forall i :: 0 <= i < |lines| ==>
      var k := lines[i].kind; k.Blank? || k.Delimiter? || k.Dashes70? || k.Dashes? || k.Other?
  }

  /** Lines inside a part of a report. */
  predicate Inner(lines: seq<Line>) {
    forall i :: 0 <= i < |lines| ==>
      var k := lines[i].kind; k.Blank? || k.Delimiter? || k.Dashes? || k.Other?
  }

  predicate ReportOk(r: Report) {
    r.opening.kind.Delimiter? && Inner(r.first) && r.middle.kind.Dashes70? && Inner(r.second) && r.closing.kind.Dashes70?
  }

  predicate WellFormed(t: TestCase) {
    && t.start.kind.Start? && Quiet(t.before) && t.end.kind.Complete? && Idle(t.after)
    && (t.outcome.Fails? ==> ReportOk(t.outcome.report) && Quiet(t.outcome.between))
  }

  /** What a report keeps of a line: nothing if it is blank or made of dashes only. */
  function KeptLine(l: Line): string {
    if l.kind.Blank? || l.kind.Dashes? then "" else l.text + "\n"
  }

  function Kept(lines: seq<Line>): string
    decreases |lines|
  {
    if lines == [] then "" else KeptLine(lines[0]) + Kept(lines[1..])
  }

  /** The entry a test should have. */
  function Expected(t: TestCase): Result {
    if t.outcome.Passes? then Pass
    else Fail(LastPart(Kept(t.outcome.report.first) + Kept(t.outcome.report.second)))
  }

  function LogOf(tests: seq<TestCase>): seq<Line> {
    if tests == [] then [] else Lines(tests[0]) + LogOf(tests[1..])
  }

  function AllExpected(tests: seq<TestCase>): (r: seq<Result>)
    ensures |r| == |tests| && forall i :: 0 <= i < |tests| ==> r[i] == Expected(tests[i])
  {
    if tests == [] then [] else [Expected(tests[0])] + AllExpected(tests[1..])
  }

  /** Between two tests. */
  predicate AtRest(s: State) {
    !s.started && s.stage == 0 && s.verdict.Undecided? && !s.killed && !s.crashed
  }

  lemma {:induction false} IdleLines(s: State, lines: seq<Line>)
    requires AtRest(s) && Idle(lines)
    ensures Run(s, lines) == s
    decreases |lines|
  {
    if lines != [] {
      IdleLines(s, lines[1..]);
    }
  }

  lemma {:induction false} QuietLines(s: State, lines: seq<Line>)
    requires s.stage == 0 && !s.killed && !s.crashed && Quiet(lines)
    ensures Run(s, lines) == s
    decreases |lines|
  {
    if lines != [] {
      QuietLines(s, lines[1..]);
    }
  }

  /** A state with a report at the end of its entries. */
  function Reporting(s: State, tests: seq<Result>, text: string): State {
    s.(tests := tests + [Fail(text)])
  }

  predicate IsOpen(s: State) {
    s.started && 1 <= s.stage <= 2 && !s.killed && !s.crashed
  }

  lemma {:induction false} InnerLine(s: State, tests: seq<Result>, text: string, l: Line)
    requires IsOpen(s) && Inner([l])
    ensures Step(Reporting(s, tests, text), l) == Reporting(s, tests, text + KeptLine(l))
  {
    assert Inner([l]) && [l][0] == l;
    assert (tests + [Fail(text)])[..|tests|] == tests;
    assert text + l.text + "\n" == text + (l.text + "\n");
    assert text + "" == text;
  }

  lemma {:induction false} KeptFirst(text: string, lines: seq<Line>)
    requires lines != []
    ensures text + KeptLine(lines[0]) + Kept(lines[1..]) == text + Kept(lines)
  {
  }

  /** A part of a report is added to the backtrace. */
  lemma {:induction false} InnerLines(s: State, tests: seq<Result>, text: string, lines: seq<Line>)
    requires IsOpen(s) && Inner(lines)
    ensures Run(Reporting(s, tests, text), lines) == Reporting(s, tests, text + Kept(lines))
    decreases |lines|
  {
    if lines == [] {
      assert text + "" == text;
    } else {
      var next := text + KeptLine(lines[0]);
      InnerLine(s, tests, text, lines[0]);
      RunFirst(Reporting(s, tests, text), lines, Reporting(s, tests, next));
      InnerLines(s, tests, next, lines[1..]);
      KeptFirst(text, lines);
    }
  }

  /** A part of a report with the line of dashes after it. */
  lemma {:induction false} PartRun(s: State, tests: seq<Result>, text: string, part: seq<Line>, dashes: Line)
    requires IsOpen(s) && Inner(part) && dashes.kind.Dashes70?
    ensures Run(Reporting(s, tests, text), part + [dashes]) == Closed(s, tests, text + Kept(part))
  {
    InnerLines(s, tests, text, part);
    RunAppend(Reporting(s, tests, text), part, [dashes]);
    RunOne(Reporting(s, tests, text + Kept(part)), dashes);
    ClosingStep(s, tests, text + Kept(part), dashes);
  }

  /** After a line of dashes: the first one leads to the second part, the second one ends the report. */
  function Closed(s: State, tests: seq<Result>, text: string): State {
    if s.stage == 1 then Reporting(s.(stage := 2), tests, text)
    else Reporting(s.(stage := 0), tests, LastPart(text))
  }

  lemma {:induction false} ClosingStep(s: State, tests: seq<Result>, text: string, dashes: Line)
    requires IsOpen(s) && dashes.kind.Dashes70?
    ensures Step(Reporting(s, tests, text), dashes) == Closed(s, tests, text)
  {
    assert (tests + [Fail(text)])[..|tests|] == tests;
  }

  /** A failed test: its report makes one entry, with the last part of what it kept. */
  lemma {:induction false} ReportRun(s: State, r: Report)
    requires s.started && s.stage == 0 && !s.killed && !s.crashed && ReportOk(r)
    ensures Run(s, ReportLines(r)) ==
            Reporting(s.(verdict := Failed), s.tests, LastPart(Kept(r.first) + Kept(r.second)))
  {
    var open := s.(stage := 1, verdict := Failed);
    var first, second := r.first + [r.middle], r.second + [r.closing];
    assert "" + Kept(r.first) == Kept(r.first);
    PartRun(open, s.tests, "", r.first, r.middle);
    PartRun(open.(stage := 2), s.tests, Kept(r.first), r.second, r.closing);
    RunAppend(Reporting(open, s.tests, ""), first, second);
    assert ([r.opening] + (first + second))[1..] == first + second;
    RunFirst(s, [r.opening] + (first + second), Reporting(open, s.tests, ""));
  }

  lemma {:induction false} OutcomeRun(s: State, t: TestCase)
    requires s.started && s.stage == 0 && s.verdict.Undecided? && !s.killed && !s.crashed && WellFormed(t)
    ensures Run(s, OutcomeLines(t.outcome)) ==
            if t.outcome.Passes? then s else s.(verdict := Failed, tests := s.tests + [Expected(t)])
  {
    if t.outcome.Fails? {
      var failed := s.(verdict := Failed, tests := s.tests + [Expected(t)]);
      ReportRun(s, t.outcome.report);
      QuietLines(failed, t.outcome.between);
      RunBoth(s, ReportLines(t.outcome.report), t.outcome.between, failed, failed);
    }
  }

  /** The end of a test, where a passed one gets its entry. */
  lemma {:induction false} EndRun(s: State, t: TestCase, rest: State)
    requires s.started && s.stage == 0 && !s.killed && !s.crashed && WellFormed(t) && !s.verdict.Aborted?
    requires rest == s.(started := false, verdict := Undecided,
                        tests := if s.verdict.Undecided? then s.tests + [Pass] else s.tests)
    ensures Run(s, [t.end] + t.after) == rest
  {
    RunOne(s, t.end);
    IdleLines(rest, t.after);
    RunBoth(s, [t.end], t.after, rest, rest);
  }

  lemma {:induction false} TestRun(s: State, t: TestCase)
    requires AtRest(s) && WellFormed(t)
    ensures Run(s, Lines(t)) == s.(testNum := s.testNum + 1, tests := s.tests + [Expected(t)])
  {
    var open := s.(testNum := s.testNum + 1, started := true);
    var decided := if t.outcome.Passes? then open else open.(verdict := Failed, tests := s.tests + [Expected(t)]);
    var rest := s.(testNum := s.testNum + 1, tests := s.tests + [Expected(t)]);
    var ending := [t.end] + t.after;
    EndRun(decided, t, rest);
    OutcomeRun(open, t);
    RunBoth(open, OutcomeLines(t.outcome), ending, decided, rest);
    QuietLines(open, t.before);
    RunBoth(open, t.before, OutcomeLines(t.outcome) + ending, open, rest);
    RunOne(s, t.start);
    RunBoth(s, [t.start], t.before + (OutcomeLines(t.outcome) + ending), open, rest);
  }

  /** The entries after the tests. */
  function Reported(s: State, tests: seq<TestCase>): State {
    s.(testNum := s.testNum + |tests|, tests := s.tests + AllExpected(tests))
  }

  lemma {:induction false} ReportedFirst(s: State, tests: seq<TestCase>)
    requires tests != []
    ensures Reported(s.(testNum := s.testNum + 1, tests := s.tests + [Expected(tests[0])]), tests[1..]) == Reported(s, tests)
  {
    assert s.tests + [Expected(tests[0])] + AllExpected(tests[1..]) == s.tests + AllExpected(tests);
  }

  /** A log of whole tests has exactly one entry per test, in order: a pass, or a failure with the
      last part of its report. */
  lemma {:induction false} LogRun(s: State, tests: seq<TestCase>)
    requires AtRest(s) && forall i :: 0 <= i < |tests| ==> WellFormed(tests[i])
    ensures Run(s, LogOf(tests)) == Reported(s, tests)
    decreases |tests|
  {
    if tests == [] {
      assert s.tests + [] == s.tests;
    } else {
      var next := s.(testNum := s.testNum + 1, tests := s.tests + [Expected(tests[0])]);
      TestRun(s, tests[0]);
      ReportedFirst(s, tests);
      LogRun(next, tests[1..]);
      RunBoth(s, Lines(tests[0]), LogOf(tests[1..]), next, Reported(s, tests));
    }
  }

  // ----- a report cut short

  const PARAMS := "Test Input params:"
  const RAN := "Ran 1 test in 1.5s"

  /** A line of one character repeated says nothing else. */
  lemma {:induction false} NothingElse(c: char)
    requires c == '=' || c == '-'
    ensures var line := Repeat(c, 70);
      !IsBlank(line) && !Contains(line, DAEMON_END) && !("Test Input params:" <= line)
      && !IsComplete(line) && !IsAbort(line)
  {
    var line := Repeat(c, 70);
    assert line[0] == c && !IsSpace(c);
    forall i | 0 <= i <= |line| ensures !(DAEMON_END <= line[i..]) && !AbortAt(line[i..]) {
      assert |line[i..]| > 1 ==> line[i..][0] == c && line[i..][1] == c;
    }
    assert "Test Input params:"[0] == 'T' && COMPLETE[0] == 'R';
  }

  lemma {:induction false} ExampleKinds()
    ensures Kind(PARAMS).Start? && Kind(RAN).Complete? && Kind("x").Other? && Kind(Repeat('=', 70)).Delimiter?
  {
    assert PARAMS[0] == 'T' && "x"[0] == 'x';
    assert RAN[0] == 'R' && COMPLETE[0] == 'R';
    assert SkipWhile(RAN, 14, c => IsDigit(c)) == 15;
    assert SkipWhile(RAN, 16, c => IsDigit(c)) == 17;
    assert Repeat('=', 70)[0] == '=' && Repeat('-', 70)[0] == '-';
    NothingElse('=');
  }

  /** A passed test while a report is open, and a line in the next test. */
  lemma {:induction false} PassWhileOpen(s: State, start: Line, end: Line, text: Line)
    requires !s.started && s.stage == 1 && s.verdict.Undecided? && !s.killed && !s.crashed
    requires start.kind.Start? && end.kind.Complete? && text.kind.Other?
    ensures Run(s, [start, end, start, text]).crashed
  {
    var first := s.(testNum := s.testNum + 1, started := true);
    var passed := first.(started := false, tests := s.tests + [Pass]);
    var second := passed.(testNum := s.testNum + 2, started := true);
    RunFirst(s, [start, end, start, text], first);
    RunFirst(first, [end, start, text], passed);
    RunFirst(passed, [start, text], second);
    RunOne(second, text);
  }

  // ----- logs that end early

  /** A test that is aborted: its entry says that it was not run, and the build is aborted. */
  lemma {:induction false} AbortRun(s: State, start: Line, before: seq<Line>, abort: Line)
    requires AtRest(s) && start.kind.Start? && Quiet(before) && abort.kind.Abort?
    ensures Run(s, [start] + (before + [abort])) ==
            s.(testNum := s.testNum + 1, aborted := true, verdict := Aborted, tests := s.tests + [NotRun])
  {
    var begun := s.(testNum := s.testNum + 1, started := true);
    QuietLines(begun, before);
    RunAppend(begun, before, [abort]);
    RunOne(begun, abort);
    assert ([start] + (before + [abort]))[1..] == before + [abort];
    RunFirst(s, [start] + (before + [abort]), begun);
  }

  /** After it a test that completes without a report has no entry of its own. */
  lemma {:induction false} CompleteAfterAbort(s: State, start: Line, before: seq<Line>, end: Line)
    requires AtRest(s.(verdict := Undecided)) && s.verdict.Aborted?
    requires start.kind.Start? && Quiet(before) && end.kind.Complete?
    ensures Run(s, [start] + (before + [end])) == s.(testNum := s.testNum + 1, verdict := Undecided)
  {
    var begun := s.(testNum := s.testNum + 1, started := true);
    QuietLines(begun, before);
    RunAppend(begun, before, [end]);
    RunOne(begun, end);
    assert ([start] + (before + [end]))[1..] == before + [end];
    RunFirst(s, [start] + (before + [end]), begun);
  }

  /** Nothing is read after the end of the daemon. */
  lemma {:induction false} DaemonEndRun(s: State, end: Line, more: seq<Line>)
    requires !s.killed && !s.crashed && end.kind.DaemonEnd?
    ensures Run(s, [end] + more) == s.(killed := true)
  {
    assert ([end] + more)[1..] == more;
    RunFirst(s, [end] + more, s.(killed := true));
    RunStopped(s.(killed := true), more);
  }

  /** Two tests after a report that was never closed, a line has no backtrace to go to. */
  lemma {:induction false} OpenReportRaises(start: Line, opening: Line, end: Line, text: Line)
    requires start.kind.Start? && opening.kind.Delimiter? && end.kind.Complete? && text.kind.Other?
    ensures Run(START, [start, opening, end, start, end, start, text]).crashed
  {
    var first := START.(testNum := 1, started := true);
    var open := first.(stage := 1, verdict := Failed, tests := [Fail("")]);
    var ended := open.(started := false, verdict := Undecided);
    RunFirst(START, [start, opening, end, start, end, start, text], first);
    RunFirst(first, [opening, end, start, end, start, text], open);
    RunFirst(open, [end, start, end, start, text], ended);
    PassWhileOpen(ended, start, end, text);
  }

  lemma {:induction false} ReadSeven(a: string, b: string, c: string, d: string)
    ensures ReadAll([a, b, c, a, c, a, d]) == [Read(a), Read(b), Read(c), Read(a), Read(c), Read(a), Read(d)]
  {
  }

  lemma {:induction false} ReportCutShort()
    ensures Run(START, ReadAll([PARAMS, Repeat('=', 70), RAN, PARAMS, RAN, PARAMS, "x"])).crashed
  {
    ExampleKinds();
    var start, opening, end, text := Read(PARAMS), Read(Repeat('=', 70)), Read(RAN), Read("x");
    ReadSeven(PARAMS, Repeat('=', 70), RAN, "x");
    OpenReportRaises(start, opening, end, text);
  }
}
