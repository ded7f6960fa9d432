/** Meaning preservation for scripts in which the first command of a branch or body stands on
    the line of its keyword. */
module NshLayout {
  import opened NshControl
  import opened NshScript
  import opened NshStructured
  import opened NshSteps
  import opened NshWalk
  import opened NshMeaning
  import opened NshTheorems
  import opened NshJoin
  import opened NshSpread

  // ---- Structured scripts are orderly ----

  predicate OrderlyLine(lines: seq<Line>, i: nat)
    requires i < |lines|
  {
    Sound(lines[i]) && (Opens(lines[i]) ==> i + 1 < |lines| && StartsThen(lines[i + 1]))
  }

  predicate OrderlyLines(lines: seq<Line>) {
    forall i | 0 <= i < |lines| :: OrderlyLine(lines, i)
  }

  lemma OrderlyJoin(a: seq<Line>, b: seq<Line>)
    requires OrderlyLines(a) && OrderlyLines(b)
    ensures OrderlyLines(a + b)
  {
    var c := a + b;
    forall i | 0 <= i < |c|
      ensures OrderlyLine(c, i)
    {
      if i < |a| {
        assert OrderlyLine(a, i);
        assert c[i] == a[i] && (i + 1 < |a| ==> c[i + 1] == a[i + 1]);
      } else {
        var j := i - |a|;
        assert OrderlyLine(b, j);
        assert c[i] == b[j] && (i + 1 < |c| ==> c[i + 1] == b[j + 1]);
      }
    }
  }

  lemma {:induction false} CompiledOrderly(b: Block)
    requires Worded(b)
    ensures OrderlyLines(Compile(b))
    decreases b
  {
    hide OrderlyLines, CompileStmt;
    match b
    case Nil =>
      NoLines();
    case Cons(s, rest) =>
      StmtOrderly(s);
      CompiledOrderly(rest);
      OrderlyJoin(CompileStmt(s), Compile(rest));
  }

  lemma NoLines()
    ensures OrderlyLines([])
  {
  }

  lemma OneLine(line: Line)
    requires Sound(line) && !Opens(line)
    ensures OrderlyLines([line])
  {
  }

  lemma {:induction false} StmtOrderly(s: Stmt)
    requires WordedStmt(s)
    ensures OrderlyLines(CompileStmt(s))
    decreases s
  {
    hide OrderlyLines;
    match s
    case Simple(argv) =>
      OneLine(argv);
    case Break =>
      OneLine([KBreak]);
    case If(inverted, test, thn, hasElse, els) =>
      var tail := if hasElse then [[KElse]] + Compile(els) else [];
      IfHead(inverted, test);
      CompiledOrderly(thn);
      CompiledOrderly(els);
      OneLine([KElse]);
      OneLine([KFi]);
      NoLines();
      OrderlyJoin([[KElse]], Compile(els));
      OrderlyJoin([IfLine(inverted, test), [KThen]], Compile(thn));
      OrderlyJoin([IfLine(inverted, test), [KThen]] + Compile(thn), tail);
      OrderlyJoin([IfLine(inverted, test), [KThen]] + Compile(thn) + tail, [[KFi]]);
    case Repeat(until, test, body) =>
      var head := RepeatLine(until, test);
      RepeatHead(until, test);
      CompiledOrderly(body);
      OneLine(head);
      OneLine([KDo]);
      OneLine([KDone]);
      OrderlyJoin([head], [[KDo]]);
      assert [head, [KDo]] == [head] + [[KDo]];
      OrderlyJoin([head, [KDo]], Compile(body));
      OrderlyJoin([head, [KDo]] + Compile(body), [[KDone]]);
  }

  lemma IfHead(inverted: bool, test: Line)
    requires PlainWords(test)
    ensures OrderlyLines([IfLine(inverted, test), [KThen]])
  {
    var line := IfLine(inverted, test);
    assert line[0] == KIf;
    assert inverted ==> line[1] == KBang && line[2] == test[0];
    assert !inverted ==> line[1] == test[0];
  }

  lemma RepeatHead(until: bool, test: Line)
    requires PlainWords(test)
    ensures Sound(RepeatLine(until, test)) && !Opens(RepeatLine(until, test))
  {
    var line := RepeatLine(until, test);
    assert line[1] == test[0];
  }

  // ---- The theorem ----

  /** The script was read to its end and ran what `r` says, at the places of the spread script. */
  predicate JoinedEndedAs(sh: Shell, d: Config, r: Run) {
    && !d.aborted && |sh.script| <= d.p.fpos && TraceOf(sh.script, d.trace) == r.trace && d.p.fail == r.fail
    && d.p.iendx == 0 && d.p.lpndx == 0
  }

  predicate JoinedAbortedAs(sh: Shell, d: Config, r: Run) {
    d.aborted && TraceOf(sh.script, d.trace) == r.trace
  }

  ghost predicate JoinedAsMeant(sh: Shell, depth: nat, out: Outcome)
    requires 1 <= depth
  {
    IdleLive(depth);
    match out
    case Normal(r) => exists n: nat :: JoinedEndedAs(sh, Steps(sh, Start(depth), n), r)
    case Aborted(r) => exists n: nat :: JoinedAbortedAs(sh, Steps(sh, Start(depth), n), r)
    case Broke(r) => false
    case Unfinished => true
  }

  lemma StartInStep(sh: Shell, depth: nat)
    requires 1 <= depth
    ensures InStep(sh, Start(depth), Start(depth))
  {
    IdleLive(depth);
  }

  lemma HoldsOrderly(sh: Shell, b: Block)
    requires Holds(Beside(sh), b) && Worded(b)
    ensures Orderly(Spread(sh.script))
  {
    hide Compile, Worded, Sound, Spread;
    CompiledOrderly(b);
    var s, lines := Spread(sh.script), Compile(b);
    forall i | 0 <= i < |s|
      ensures OrderlyAt(s, i)
    {
      assert OrderlyLine(lines, i);
      assert s[0 + i].words == lines[i];
      assert i + 1 < |s| ==> s[0 + (i + 1)].words == lines[i + 1];
    }
  }

  /** Meaning preservation for every layout: keyword and command on one line or on two, one
      command to a text line or several. */
  lemma {:induction false} JoinedMeaning(sh: Shell, depth: nat, b: Block, fuel: nat)
    requires 1 <= depth && Holds(Beside(sh), b) && LaidOut(Beside(sh)) && Worded(b)
    requires Fits(b, Top, depth - 1, depth - 1)
    ensures StacksOk(Idle(depth))
    ensures JoinedAsMeant(sh, depth, Meaning(b, WorldOf(sh), fuel))
    ensures Meaning(b, WorldOf(sh), fuel).Unfinished? ==>
              forall n: nat | 2 * n <= fuel :: !Halted(sh, Steps(sh, Start(depth), n))
  {
    hide Step, Steps, At, Exec, Compile, Fits, Spread, TraceOf, InStep, Orderly, Holds, LaidOut, Matched;
    IdleLive(depth);
    var c, t := Start(depth), Beside(sh);
    assert WorldOf(t) == WorldOf(sh);
    MeaningPreserved(t, depth, b, fuel);
    StartInStep(sh, depth);
    HoldsOrderly(sh, b);
    var out := Meaning(b, WorldOf(sh), fuel);
    match out
    case Normal(r) =>
      var m: nat :| EndedAs(t, Steps(t, c, m), r);
      var n := EndsToo(sh, c, c, m);
      EndMatches(sh, Steps(sh, c, n), Steps(t, c, m));
      assert JoinedEndedAs(sh, Steps(sh, c, n), r);
    case Aborted(r) =>
      var m: nat :| AbortedAs(Steps(t, c, m), r);
      var n := EndsToo(sh, c, c, m);
      EndMatches(sh, Steps(sh, c, n), Steps(t, c, m));
      assert JoinedAbortedAs(sh, Steps(sh, c, n), r);
    case Unfinished =>
      var m: nat :| fuel <= m && !Halted(t, Steps(t, c, m));
      forall n: nat | 2 * n <= fuel
        ensures !Halted(sh, Steps(sh, c, n))
      {
        var k := Follows(sh, c, c, n);
        StillRunning(sh, c, n, k, m);
      }
    case _ =>
  }

  lemma EndMatches(sh: Shell, c: Config, d: Config)
    requires StacksOk(c.p) && Matched(sh, c, d)
    ensures d.aborted == c.aborted && TraceOf(sh.script, c.trace) == d.trace && d.p.fail == c.p.fail
    ensures d.p.iendx == c.p.iendx && d.p.lpndx == c.p.lpndx
  {
    MatchedStacks(sh, c, d);
  }

  lemma StillRunning(sh: Shell, c: Config, n: nat, k: nat, m: nat)
    requires StacksOk(c.p) && k <= m && !Halted(Beside(sh), Steps(Beside(sh), c, m))
    requires InStep(sh, Steps(sh, c, n), Steps(Beside(sh), c, k))
    ensures !Halted(sh, Steps(sh, c, n))
  {
    hide Steps, Step, Halted;
    InStepStacks(sh, Steps(sh, c, n), Steps(Beside(sh), c, k));
    MatchedStacks(sh, Steps(sh, c, n), Steps(Beside(sh), c, k));
    if Halted(Beside(sh), Steps(Beside(sh), c, k)) {
      HaltedLater(Beside(sh), c, k, m);
    }
  }
}
