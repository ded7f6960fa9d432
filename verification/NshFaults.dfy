/** Where the flat machine goes wrong outside `Fits`, when errors end the script. */
module NshFaults {
  import opened NshControl
  import opened NshScript
  import opened NshStructured
  import opened NshSteps
  import opened NshWalk
  import opened NshSkip

  lemma StacksInRange(p: Parser)
    requires StacksOk(p)
    ensures InRange(p)
  {
  }

  lemma StepIfDeep(sh: Shell, c: Config, inverted: bool, test: Line)
    requires Ready(sh, c, IfLine(inverted, test)) && Settled(c.p) && PlainWords(test) && !sh.ignore
    requires c.p.iendx + 1 == |c.p.iestate|
    ensures Step(sh, c).aborted
  {
    hide Step, ResetItefs, SavedInRange;
    var line := IfLine(inverted, test);
    assert line[0] == KIf;
    assert inverted ==> line[1] == KBang && line[1..][1..] == test;
    assert !inverted ==> line[1..] == test;
    StepItefFault(sh, c, line);
  }

  lemma StepRepeatDeep(sh: Shell, c: Config, until: bool, test: Line)
    requires Ready(sh, c, RepeatLine(until, test)) && Settled(c.p) && PlainWords(test) && !sh.ignore
    requires c.p.lpndx + 1 == |c.p.lpstate|
    ensures Step(sh, c).aborted
  {
    hide Step, SavedInRange;
    var p := c.p.(jump := false);
    var line := RepeatLine(until, test);
    StepIs(sh, c, line);
    assert line[0] == (if until then KUntil else KWhile);
    assert line[1..] == test;
    assert NshLoop(p, line, sh.seekable).p == ResetLoops(p);
  }

  /** An `else` or `fi` that finds no open `if`. */
  lemma StepStray(sh: Shell, c: Config, words: Line)
    requires Ready(sh, c, words) && Settled(c.p) && !sh.ignore
    requires words == [KElse] || words == [KFi]
    requires TopItef(c.p).state == ItefNormal
    ensures Step(sh, c).aborted
  {
    hide Step, ResetItefs, SavedInRange;
    StepItefFault(sh, c, words);
  }

  /** The rooms are exactly what the stacks have left. */
  predicate Exactly(p: Parser, ifRoom: nat, loopRoom: nat) {
    p.iendx + ifRoom + 1 == |p.iestate| && p.lpndx + loopRoom + 1 == |p.lpstate|
  }

  /** Either an error ended the script, or a command was run that had to be skipped. */
  predicate Tripped(sh: Shell, c: Config, k: nat, n: nat, d: Config) {
    && Reach(sh, c, n, d)
    && (d.aborted ||
        (&& Selected(c.p)
         && |d.trace| == |c.trace| + 1 && c.trace <= d.trace
         && c.p.fpos <= d.trace[|c.trace|].pos < c.p.fpos + k))
  }

  predicate Selected(p: Parser) {
    InRange(p) && ItefEnabled(p)
  }

  lemma TripLater(sh: Shell, c: Config, k: nat, m: nat, c1: Config, k1: nat, n: nat, d: Config)
    requires Reach(sh, c, m, c1) && Tripped(sh, c1, k1, n, d) && c1.trace == c.trace
    requires c.p.fpos <= c1.p.fpos && c1.p.fpos + k1 <= c.p.fpos + k
    requires Selected(c1.p) ==> Selected(c.p)
    ensures Tripped(sh, c, k, m + n, d)
  {
    hide Steps, StacksOk;
    ReachTrans(sh, c, m, c1, n, d);
  }

  lemma {:induction false} SkipFails(sh: Shell, c: Config, b: Block, ifRoom: nat, loopRoom: nat)
    returns (n: nat, d: Config)
    requires Front(sh, c, Compile(b), ifRoom, loopRoom) && Exactly(c.p, ifRoom, loopRoom)
    requires Worded(b) && !sh.ignore && !CmdEnabled(c.p)
    requires !Shallow(b, ifRoom, loopRoom) || !Skips(c.p, b)
    ensures Tripped(sh, c, |Compile(b)|, n, d)
    decreases b
  {
    hide Step, Steps, SavedInRange, At, ShallowStmt, CompileStmt;
    StacksInRange(c.p);
    var Cons(s, rest) := b;
    AtSplit(sh.script, c.p.fpos, CompileStmt(s), Compile(rest));
    if !ShallowStmt(s, ifRoom, loopRoom) || !SkipsStmt(c.p, s) {
      n, d := SkipFailsStmt(sh, c, s, ifRoom, loopRoom);
    } else {
      var c1 := SkipStmt(sh, c, s, ifRoom, loopRoom);
      SameKeeps(c.p, c1.p, ifRoom, loopRoom);
      n, d := SkipFails(sh, c1, rest, ifRoom, loopRoom);
      TripLater(sh, c, |Compile(b)|, |CompileStmt(s)|, c1, |Compile(rest)|, n, d);
      n := |CompileStmt(s)| + n;
    }
  }

  lemma {:induction false} SkipFailsStmt(sh: Shell, c: Config, s: Stmt, ifRoom: nat, loopRoom: nat)
    returns (n: nat, d: Config)
    requires Front(sh, c, CompileStmt(s), ifRoom, loopRoom) && Exactly(c.p, ifRoom, loopRoom)
    requires WordedStmt(s) && !sh.ignore && !CmdEnabled(c.p)
    requires !ShallowStmt(s, ifRoom, loopRoom) || !SkipsStmt(c.p, s)
    ensures Tripped(sh, c, |CompileStmt(s)|, n, d)
    decreases s, 1
  {
    hide Step, Steps, At, SavedInRange, Compile, Shallow;
    StacksInRange(c.p);
    match s
    case If(_, _, _, _, _) =>
      n, d := SkipFailsIf(sh, c, s, ifRoom, loopRoom);
    case Repeat(_, _, _) =>
      n, d := SkipFailsRepeat(sh, c, s, ifRoom, loopRoom);
  }

  lemma {:induction false} SkipFailsIf(sh: Shell, c: Config, s: Stmt, ifRoom: nat, loopRoom: nat)
    returns (n: nat, d: Config)
    requires Front(sh, c, CompileStmt(s), ifRoom, loopRoom) && Exactly(c.p, ifRoom, loopRoom)
    requires WordedStmt(s) && !sh.ignore && !CmdEnabled(c.p) && s.If?
    requires !ShallowStmt(s, ifRoom, loopRoom)
    ensures Tripped(sh, c, |CompileStmt(s)|, n, d)
    decreases s, 0
  {
    hide Step, Steps, StacksOk, At, Compile, CompileStmt, Reach, Same, Shallow;
    StacksInRange(c.p);
    AtIf(sh.script, c.p.fpos, s);
    var head := [IfLine(s.inverted, s.test), [KThen]];
    AtHead(sh.script, c.p.fpos, head);
    if ifRoom == 0 {
      StepIfDeep(sh, c, s.inverted, s.test);
      ReachOne(sh, c);
      n, d := 1, Step(sh, c);
    } else {
      var e := Itef(ItefThen, true, false, s.inverted);
      var n1 := |Compile(s.thn)|;
      var c1 := OpenIf(sh, c, s.inverted, s.test);
      InsideSettled(c.p, c1.p, e, ifRoom, loopRoom);
      if !Shallow(s.thn, ifRoom - 1, loopRoom) {
        n, d := SkipFails(sh, c1, s.thn, ifRoom - 1, loopRoom);
        TripLater(sh, c, |CompileStmt(s)|, 2, c1, n1, n, d);
        n := 2 + n;
      } else {
        BranchSkips(c.p, c1.p, e, s.thn);
        var c2 := SkipBlock(sh, c1, s.thn, ifRoom - 1, loopRoom);
        ReachTrans(sh, c, 2, c1, n1, c2);
        InsideSame(c.p, c1.p, c2.p, e);
        AtHead(sh.script, c2.p.fpos, [[KElse]]);
        var c3 := GoElse(sh, c, c2, e);
        ReachTrans(sh, c, 2 + n1, c2, 1, c3);
        InsideSettled(c.p, c3.p, e.(state := ItefElse), ifRoom, loopRoom);
        n, d := SkipFails(sh, c3, s.els, ifRoom - 1, loopRoom);
        TripLater(sh, c, |CompileStmt(s)|, 3 + n1, c3, |Compile(s.els)|, n, d);
        n := 3 + n1 + n;
      }
    }
  }

  lemma {:induction false} SkipFailsRepeat(sh: Shell, c: Config, s: Stmt, ifRoom: nat, loopRoom: nat)
    returns (n: nat, d: Config)
    requires Front(sh, c, CompileStmt(s), ifRoom, loopRoom) && Exactly(c.p, ifRoom, loopRoom)
    requires WordedStmt(s) && !sh.ignore && !CmdEnabled(c.p) && s.Repeat?
    requires !ShallowStmt(s, ifRoom, loopRoom) || !SkipsStmt(c.p, s)
    ensures Tripped(sh, c, |CompileStmt(s)|, n, d)
    decreases s, 0
  {
    hide Step, Steps, StacksOk, At, Compile, CompileStmt, Reach, Same, Shallow;
    StacksInRange(c.p);
    AtRepeat(sh.script, c.p.fpos, s);
    var head := [RepeatLine(s.until, s.test), [KDo]];
    AtHead(sh.script, c.p.fpos, head);
    if loopRoom == 0 {
      StepRepeatDeep(sh, c, s.until, s.test);
      ReachOne(sh, c);
      n, d := 1, Step(sh, c);
    } else if ItefEnabled(c.p) {
      StepRepeat(sh, c, s.until, s.test);
      ReachOne(sh, c);
      n, d := 1, Step(sh, c);
    } else {
      var l := Loop(LoopDo, false, c.p.iendx, c.p.fpos);
      var c1 := OpenLoop(sh, c, s.until, s.test);
      LoopedSettled(c.p, c1.p, l, ifRoom, loopRoom);
      n, d := SkipFails(sh, c1, s.body, ifRoom, loopRoom - 1);
      TripLater(sh, c, |CompileStmt(s)|, 2, c1, |Compile(s.body)|, n, d);
      n := 2 + n;
    }
  }
}
