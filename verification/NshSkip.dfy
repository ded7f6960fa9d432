/** Passing over lines that must not be executed. */
module NshSkip {
  import opened NshControl
  import opened NshScript
  import opened NshStructured
  import opened NshSteps
  import opened NshWalk

  /** Nothing of the block is executed from here: either the current `if` is disabled, or
      only the loop is and no loop stands directly in the block. */
  predicate Skips(p: Parser, b: Block) {
    InRange(p) && (!ItefEnabled(p) || (!LoopEnabled(p) && NoLoopHere(b)))
  }

  predicate SkipsStmt(p: Parser, s: Stmt) {
    InRange(p) && (!ItefEnabled(p) || (!LoopEnabled(p) && !s.Repeat?))
  }

  lemma {:induction false} SkipBlock(sh: Shell, c: Config, b: Block, ifRoom: nat, loopRoom: nat)
    returns (d: Config)
    requires Front(sh, c, Compile(b), ifRoom, loopRoom) && Worded(b) && Shallow(b, ifRoom, loopRoom)
    requires Skips(c.p, b)
    ensures Reach(sh, c, |Compile(b)|, d) && Skipped(c, d, |Compile(b)|)
    decreases b
  {
    hide Step, Steps, SavedInRange, At, ItefEnabled, LoopEnabled;
    match b
    case Nil =>
      ReachZero(sh, c);
      d := c;
    case Cons(s, rest) =>
      AtSplit(sh.script, c.p.fpos, CompileStmt(s), Compile(rest));
      var c1 := SkipStmt(sh, c, s, ifRoom, loopRoom);
      SameKeeps(c.p, c1.p, ifRoom, loopRoom);
      d := SkipBlock(sh, c1, rest, ifRoom, loopRoom);
      ReachTrans(sh, c, |CompileStmt(s)|, c1, |Compile(rest)|, d);
  }

  lemma {:induction false} SkipStmt(sh: Shell, c: Config, s: Stmt, ifRoom: nat, loopRoom: nat)
    returns (d: Config)
    requires Front(sh, c, CompileStmt(s), ifRoom, loopRoom) && WordedStmt(s) && ShallowStmt(s, ifRoom, loopRoom)
    requires SkipsStmt(c.p, s)
    ensures Reach(sh, c, |CompileStmt(s)|, d) && Skipped(c, d, |CompileStmt(s)|)
    decreases s, 1
  {
    hide Step, Steps, At;
    AtHead(sh.script, c.p.fpos, CompileStmt(s));
    match s
    case Simple(argv) =>
      StepSimple(sh, c, argv);
      ReachOne(sh, c);
      d := Step(sh, c);
    case Break =>
      StepDeadBreak(sh, c);
      ReachOne(sh, c);
      d := Step(sh, c);
    case If(inverted, test, thn, hasElse, els) =>
      d := SkipIf(sh, c, s, ifRoom, loopRoom);
    case Repeat(until, test, body) =>
      d := SkipRepeat(sh, c, s, ifRoom, loopRoom);
  }

  lemma StepDeadBreak(sh: Shell, c: Config)
    requires Ready(sh, c, [KBreak]) && Settled(c.p) && !CmdEnabled(c.p)
    ensures Step(sh, c) == Config(c.p.(jump := false, fpos := c.p.fpos + 1), c.trace, false)
  {
    hide NshLoop, NshItef;
    var p := c.p.(jump := false);
    LoopPasses(p, [KBreak], sh.seekable);
    ItefPasses(p, [KBreak]);
    assert CmdEnabled(p) == CmdEnabled(c.p);
  }

  /** A branch that is disabled, or that is not the one its `if` selects. */
  lemma BranchSkips(p: Parser, q: Parser, e: Itef, b: Block)
    requires Inside(p, q, e)
    requires e.disabled || e.state == (if e.ifcond then ItefThen else ItefElse)
    ensures Skips(q, b)
  {
  }

  lemma BodySkips(p: Parser, q: Parser, l: Loop, b: Block)
    requires Looped(p, q, l) && l.state == LoopDo && !l.enable
    requires !ItefEnabled(p) || NoLoopHere(b)
    ensures Skips(q, b)
  {
  }

  lemma {:induction false} SkipIf(sh: Shell, c: Config, s: Stmt, ifRoom: nat, loopRoom: nat)
    returns (d: Config)
    requires Front(sh, c, CompileStmt(s), ifRoom, loopRoom) && WordedStmt(s) && ShallowStmt(s, ifRoom, loopRoom)
    requires SkipsStmt(c.p, s) && s.If?
    ensures Reach(sh, c, |CompileStmt(s)|, d) && Skipped(c, d, |CompileStmt(s)|)
    decreases s, 0
  {
    hide Step, Steps, StacksOk, At, Compile, CompileStmt, Reach, Same, Inside;
    AtIf(sh.script, c.p.fpos, s);
    var e := Itef(ItefThen, true, false, s.inverted);
    var n1 := |Compile(s.thn)|;
    var c1 := OpenIf(sh, c, s.inverted, s.test);
    InsideSettled(c.p, c1.p, e, ifRoom, loopRoom);
    BranchSkips(c.p, c1.p, e, s.thn);
    var c2 := SkipBlock(sh, c1, s.thn, ifRoom - 1, loopRoom);
    ReachTrans(sh, c, 2, c1, n1, c2);
    InsideSame(c.p, c1.p, c2.p, e);
    if s.hasElse {
      var n2, e' := |Compile(s.els)|, e.(state := ItefElse);
      AtHead(sh.script, c2.p.fpos, [[KElse]]);
      var c3 := GoElse(sh, c, c2, e);
      ReachTrans(sh, c, 2 + n1, c2, 1, c3);
      InsideSettled(c.p, c3.p, e', ifRoom, loopRoom);
      BranchSkips(c.p, c3.p, e', s.els);
      var c4 := SkipBlock(sh, c3, s.els, ifRoom - 1, loopRoom);
      ReachTrans(sh, c, 3 + n1, c3, n2, c4);
      InsideSame(c.p, c3.p, c4.p, e');
      AtHead(sh.script, c4.p.fpos, [[KFi]]);
      d := CloseIf(sh, c, c4, e');
      ReachTrans(sh, c, 3 + n1 + n2, c4, 1, d);
    } else {
      AtHead(sh.script, c2.p.fpos, [[KFi]]);
      d := CloseIf(sh, c, c2, e);
      ReachTrans(sh, c, 2 + n1, c2, 1, d);
    }
  }

  lemma {:induction false} SkipRepeat(sh: Shell, c: Config, s: Stmt, ifRoom: nat, loopRoom: nat)
    returns (d: Config)
    requires Front(sh, c, CompileStmt(s), ifRoom, loopRoom) && WordedStmt(s) && ShallowStmt(s, ifRoom, loopRoom)
    requires SkipsStmt(c.p, s) && s.Repeat?
    ensures Reach(sh, c, |CompileStmt(s)|, d) && Skipped(c, d, |CompileStmt(s)|)
    decreases s, 0
  {
    hide Step, Steps, StacksOk, At, Compile, CompileStmt, Reach, Same, Looped;
    AtRepeat(sh.script, c.p.fpos, s);
    var l := Loop(LoopDo, false, c.p.iendx, c.p.fpos);
    var n := |Compile(s.body)|;
    var c1 := OpenLoop(sh, c, s.until, s.test);
    LoopedSettled(c.p, c1.p, l, ifRoom, loopRoom);
    BodySkips(c.p, c1.p, l, s.body);
    var c2 := SkipBlock(sh, c1, s.body, ifRoom, loopRoom - 1);
    ReachTrans(sh, c, 2, c1, n, c2);
    LoopedSame(c.p, c1.p, c2.p, l);
    AtHead(sh.script, c2.p.fpos, [[KDone]]);
    d := CloseLoop(sh, c, c2, l);
    ReachTrans(sh, c, 2 + n, c2, 1, d);
  }
}
