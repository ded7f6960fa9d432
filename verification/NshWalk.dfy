/** Walking over compiled lines: positions, stacks that agree up to their depth, and
    the lines that open and close an if statement or a loop. */
module NshWalk {
  import opened NshControl
  import opened NshScript
  import opened NshStructured
  import opened NshSteps

  /** The compiled lines stand in the script at `pos`. */
  predicate At(script: seq<Command>, pos: nat, lines: seq<Line>) {
    pos + |lines| <= |script| && forall i | 0 <= i < |lines| :: script[pos + i].words == lines[i]
  }

  lemma AtSplit(script: seq<Command>, pos: nat, a: seq<Line>, b: seq<Line>)
    requires At(script, pos, a + b)
    ensures At(script, pos, a) && At(script, pos + |a|, b)
  {
    assert forall i | 0 <= i < |a| :: (a + b)[i] == a[i];
    assert forall i | 0 <= i < |b| :: (a + b)[|a| + i] == b[i];
  }

  lemma AtHead(script: seq<Command>, pos: nat, lines: seq<Line>)
    requires At(script, pos, lines) && lines != []
    ensures pos < |script| && script[pos].words == lines[0]
  {
    assert script[pos + 0].words == lines[0];
  }

  /** Same depth on both stacks and the same entries up to it. */
  predicate Same(p: Parser, q: Parser) {
    && InRange(p) && InRange(q)
    && q.iendx == p.iendx && q.lpndx == p.lpndx && |q.iestate| == |p.iestate|
    && (forall i | 0 <= i <= p.iendx :: q.iestate[i] == p.iestate[i])
    && (forall i | 0 <= i <= p.lpndx :: q.lpstate[i] == p.lpstate[i])
  }

  predicate Room(p: Parser, ifRoom: nat, loopRoom: nat) {
    StacksOk(p) && p.iendx + ifRoom < |p.iestate| && p.lpndx + loopRoom < |p.lpstate|
  }

  /** `n` steps lead from `c` to `d`. */
  predicate Reach(sh: Shell, c: Config, n: nat, d: Config) {
    StacksOk(c.p) && Steps(sh, c, n) == d
  }

  lemma ReachZero(sh: Shell, c: Config)
    requires StacksOk(c.p)
    ensures Reach(sh, c, 0, c)
  {
  }

  lemma ReachOne(sh: Shell, c: Config)
    requires StacksOk(c.p)
    ensures Reach(sh, c, 1, Step(sh, c))
  {
    hide Step;
    assert Steps(sh, Step(sh, c), 0) == Step(sh, c);
  }

  lemma ReachTrans(sh: Shell, c: Config, m: nat, d: Config, n: nat, e: Config)
    requires Reach(sh, c, m, d) && Reach(sh, d, n, e)
    ensures Reach(sh, c, m + n, e)
  {
    StepsCompose(sh, c, m, n);
  }

  /** The machine is between statements, in front of `lines`, with room for them. */
  predicate Front(sh: Shell, c: Config, lines: seq<Line>, ifRoom: nat, loopRoom: nat) {
    && LaidOut(sh) && !c.aborted && Settled(c.p) && Room(c.p, ifRoom, loopRoom)
    && At(sh.script, c.p.fpos, lines)
  }

  /** `d` lies `k` lines behind `c`, with nothing executed and the stacks as before. */
  predicate Skipped(c: Config, d: Config, k: nat) {
    && !d.aborted && d.p.fpos == c.p.fpos + k && Same(c.p, d.p)
    && d.trace == c.trace && d.p.fail == c.p.fail
  }

  lemma SameRefl(p: Parser)
    requires StacksOk(p)
    ensures Same(p, p)
  {
  }

  lemma SameTrans(p: Parser, q: Parser, r: Parser)
    requires Same(p, q) && Same(q, r)
    ensures Same(p, r)
  {
  }

  lemma SameKeeps(p: Parser, q: Parser, ifRoom: nat, loopRoom: nat)
    requires Same(p, q)
    ensures StacksOk(p) ==> StacksOk(q)
    ensures Settled(p) ==> Settled(q)
    ensures Room(p, ifRoom, loopRoom) ==> Room(q, ifRoom, loopRoom)
    ensures CmdEnabled(p) == CmdEnabled(q) && LoopEnabled(p) == LoopEnabled(q) && ItefEnabled(p) == ItefEnabled(q)
    ensures TopLoop(p) == TopLoop(q) && TopItef(p) == TopItef(q)
  {
  }

  /** `q` is `p` with one more if-entry, `e`, on top. */
  predicate Inside(p: Parser, q: Parser, e: Itef) {
    && InRange(p) && InRange(q)
    && q.iendx == p.iendx + 1 && q.lpndx == p.lpndx && |q.iestate| == |p.iestate|
    && (forall i | 0 <= i <= p.iendx :: q.iestate[i] == p.iestate[i])
    && (forall i | 0 <= i <= p.lpndx :: q.lpstate[i] == p.lpstate[i])
    && TopItef(q) == e
  }

  lemma InsideSettled(p: Parser, q: Parser, e: Itef, ifRoom: nat, loopRoom: nat)
    requires Settled(p) && Room(p, ifRoom, loopRoom) && 0 < ifRoom
    requires Inside(p, q, e) && e.state != ItefIf
    ensures Settled(q) && Room(q, ifRoom - 1, loopRoom)
    ensures TopLoop(q) == TopLoop(p)
  {
  }

  lemma InsideSame(p: Parser, q: Parser, q': Parser, e: Itef)
    requires Inside(p, q, e) && Same(q, q')
    ensures Inside(p, q', e)
    ensures StacksOk(q) ==> StacksOk(q')
  {
  }

  /** `q` is `p` with one more loop entry, `l`, on top. */
  predicate Looped(p: Parser, q: Parser, l: Loop) {
    && InRange(p) && InRange(q)
    && q.iendx == p.iendx && q.lpndx == p.lpndx + 1 && |q.iestate| == |p.iestate|
    && (forall i | 0 <= i <= p.iendx :: q.iestate[i] == p.iestate[i])
    && (forall i | 0 <= i <= p.lpndx :: q.lpstate[i] == p.lpstate[i])
    && TopLoop(q) == l
  }

  lemma LoopedSettled(p: Parser, q: Parser, l: Loop, ifRoom: nat, loopRoom: nat)
    requires Settled(p) && Room(p, ifRoom, loopRoom) && 0 < loopRoom
    requires Looped(p, q, l) && l.state == LoopDo && l.iendx == p.iendx
    ensures Settled(q) && Room(q, ifRoom, loopRoom - 1)
    ensures TopItef(q) == TopItef(p)
  {
  }

  lemma LoopedSame(p: Parser, q: Parser, q': Parser, l: Loop)
    requires Looped(p, q, l) && Same(q, q')
    ensures Looped(p, q', l)
    ensures StacksOk(q) ==> StacksOk(q')
  {
  }

  lemma InsideIs(p: Parser, q: Parser, e: Itef)
    requires InRange(p) && p.iendx + 1 < |p.iestate| && q.iestate == p.iestate[p.iendx + 1 := e]
    requires q.iendx == p.iendx + 1 && q.lpndx == p.lpndx && q.lpstate == p.lpstate
    ensures Inside(p, q, e)
  {
  }

  /** The two lines that open an if statement. */
  lemma OpenIf(sh: Shell, c: Config, inverted: bool, test: Line) returns (d: Config)
    requires !c.aborted && Settled(c.p) && c.p.iendx + 1 < |c.p.iestate| && PlainWords(test)
    requires At(sh.script, c.p.fpos, [IfLine(inverted, test), [KThen]])
    ensures Reach(sh, c, 2, d) && !d.aborted && d.p.fpos == c.p.fpos + 2
    ensures CmdEnabled(c.p) ==>
              var failed := sh.status(|c.trace|);
              && Inside(c.p, d.p, Itef(ItefThen, false, inverted != failed, inverted))
              && d.trace == c.trace + [Ran(c.p.fpos, test)] && !d.p.fail
    ensures !CmdEnabled(c.p) ==>
              && Inside(c.p, d.p, Itef(ItefThen, true, false, inverted))
              && d.trace == c.trace && d.p.fail == c.p.fail
  {
    hide Step, Steps, Reach, SavedInRange, IfLine, Inside;
    var lines := [IfLine(inverted, test), [KThen]];
    assert sh.script[c.p.fpos + 0].words == lines[0] && sh.script[c.p.fpos + 1].words == lines[1];
    StepIf(sh, c, inverted, test);
    var c1 := Step(sh, c);
    ReachOne(sh, c);
    StepThen(sh, c1);
    d := Step(sh, c1);
    ReachOne(sh, c1);
    ReachTrans(sh, c, 1, c1, 1, d);
    var ran := CmdEnabled(c.p);
    var e := Itef(ItefThen, !ran, ran && inverted != sh.status(|c.trace|), inverted);
    assert d.p.iestate == c.p.iestate[c.p.iendx + 1 := e];
    InsideIs(c.p, d.p, e);
  }

  lemma GoElse(sh: Shell, c: Config, d: Config, e: Itef) returns (d': Config)
    requires Settled(c.p) && Inside(c.p, d.p, e) && e.state == ItefThen && Ready(sh, d, [KElse])
    ensures Reach(sh, d, 1, d') && !d'.aborted && d'.p.fpos == d.p.fpos + 1
    ensures Inside(c.p, d'.p, e.(state := ItefElse)) && d'.trace == d.trace && d'.p.fail == d.p.fail
  {
    hide Step, Steps;
    StepElse(sh, d);
    d' := Step(sh, d);
    ReachOne(sh, d);
  }

  lemma CloseIf(sh: Shell, c: Config, d: Config, e: Itef) returns (d': Config)
    requires Settled(c.p) && Inside(c.p, d.p, e) && e.state in {ItefThen, ItefElse} && Ready(sh, d, [KFi])
    ensures Reach(sh, d, 1, d') && !d'.aborted && d'.p.fpos == d.p.fpos + 1
    ensures Same(c.p, d'.p) && d'.trace == d.trace && d'.p.fail == d.p.fail
  {
    hide Step, Steps;
    StepFi(sh, d);
    d' := Step(sh, d);
    ReachOne(sh, d);
  }

  /** The two lines that open a loop. */
  lemma OpenLoop(sh: Shell, c: Config, until: bool, test: Line) returns (d: Config)
    requires !c.aborted && Settled(c.p) && c.p.lpndx + 1 < |c.p.lpstate| && PlainWords(test) && sh.seekable
    requires At(sh.script, c.p.fpos, [RepeatLine(until, test), [KDo]])
    ensures Reach(sh, c, 2, d) && !d.aborted && d.p.fpos == c.p.fpos + 2
    ensures ItefEnabled(c.p) ==>
              var failed := sh.status(|c.trace|);
              && Looped(c.p, d.p, Loop(LoopDo, failed == until, c.p.iendx, c.p.fpos))
              && d.trace == c.trace + [Ran(c.p.fpos, test)] && !d.p.fail
    ensures !ItefEnabled(c.p) ==>
              && Looped(c.p, d.p, Loop(LoopDo, false, c.p.iendx, c.p.fpos))
              && d.trace == c.trace && d.p.fail == c.p.fail
  {
    hide Step, Steps, Reach, SavedInRange, IfLine, RepeatLine;
    var lines := [RepeatLine(until, test), [KDo]];
    assert sh.script[c.p.fpos + 0].words == lines[0] && sh.script[c.p.fpos + 1].words == lines[1];
    StepRepeat(sh, c, until, test);
    var c1 := Step(sh, c);
    ReachOne(sh, c);
    StepDo(sh, c1);
    d := Step(sh, c1);
    ReachOne(sh, c1);
    ReachTrans(sh, c, 1, c1, 1, d);
  }

  /** `done` falls through a disabled loop and jumps to the head of an enabled one. */
  lemma CloseLoop(sh: Shell, c: Config, d: Config, l: Loop) returns (d': Config)
    requires Settled(c.p) && Looped(c.p, d.p, l) && l.state == LoopDo && Ready(sh, d, [KDone])
    ensures Reach(sh, d, 1, d') && !d'.aborted
    ensures d'.p.fpos == if l.enable then l.topoffs else d.p.fpos + 1
    ensures Same(c.p, d'.p) && d'.trace == d.trace && d'.p.fail == d.p.fail
  {
    hide Step, Steps;
    StepDone(sh, d);
    d' := Step(sh, d);
    ReachOne(sh, d);
  }

  /** The lines of an if statement behind its then-branch. */
  function IfTail(s: Stmt): seq<Line>
    requires s.If?
  {
    if s.hasElse then [[KElse]] + (Compile(s.els) + [[KFi]]) else [[KFi]]
  }

  lemma CompileIf(s: Stmt)
    requires s.If?
    ensures CompileStmt(s) == [IfLine(s.inverted, s.test), [KThen]] + (Compile(s.thn) + IfTail(s))
  {
    hide Compile;
    var head := [IfLine(s.inverted, s.test), [KThen]];
    var els := if s.hasElse then [[KElse]] + Compile(s.els) else [];
    assert CompileStmt(s) == head + Compile(s.thn) + els + [[KFi]];
    Regroup(head, Compile(s.thn), els, [[KFi]]);
    if s.hasElse {
      Regroup([], [[KElse]], Compile(s.els), [[KFi]]);
    }
    assert els + [[KFi]] == IfTail(s);
  }

  lemma Regroup(a: seq<Line>, b: seq<Line>, c: seq<Line>, d: seq<Line>)
    ensures a + b + c + d == a + (b + (c + d))
  {
  }

  /** Where the parts of an if statement stand. */
  lemma AtIf(script: seq<Command>, pos: nat, s: Stmt)
    requires s.If? && At(script, pos, CompileStmt(s))
    ensures At(script, pos, [IfLine(s.inverted, s.test), [KThen]])
    ensures At(script, pos + 2, Compile(s.thn))
    ensures
      var mid := pos + 2 + |Compile(s.thn)|;
      if s.hasElse then
        && At(script, mid, [[KElse]]) && At(script, mid + 1, Compile(s.els))
        && At(script, mid + 1 + |Compile(s.els)|, [[KFi]])
        && |CompileStmt(s)| == 4 + |Compile(s.thn)| + |Compile(s.els)|
      else At(script, mid, [[KFi]]) && |CompileStmt(s)| == 3 + |Compile(s.thn)|
  {
    hide At, Compile, CompileStmt, IfLine, IfTail;
    var head := [IfLine(s.inverted, s.test), [KThen]];
    CompileIf(s);
    AtSplit(script, pos, head, Compile(s.thn) + IfTail(s));
    AtSplit(script, pos + 2, Compile(s.thn), IfTail(s));
    assert |CompileStmt(s)| == 2 + (|Compile(s.thn)| + |IfTail(s)|);
    AtIfTail(script, pos + 2 + |Compile(s.thn)|, s);
  }

  lemma AtIfTail(script: seq<Command>, mid: nat, s: Stmt)
    requires s.If? && At(script, mid, IfTail(s))
    ensures
      if s.hasElse then
        && At(script, mid, [[KElse]]) && At(script, mid + 1, Compile(s.els))
        && At(script, mid + 1 + |Compile(s.els)|, [[KFi]])
        && |IfTail(s)| == 2 + |Compile(s.els)|
      else At(script, mid, [[KFi]]) && |IfTail(s)| == 1
  {
    hide At, Compile;
    if s.hasElse {
      AtSplit(script, mid, [[KElse]], Compile(s.els) + [[KFi]]);
      AtSplit(script, mid + 1, Compile(s.els), [[KFi]]);
    }
  }

  /** Where the parts of a loop stand. */
  lemma AtRepeat(script: seq<Command>, pos: nat, s: Stmt)
    requires s.Repeat? && At(script, pos, CompileStmt(s))
    ensures At(script, pos, [RepeatLine(s.until, s.test), [KDo]])
    ensures At(script, pos + 2, Compile(s.body)) && At(script, pos + 2 + |Compile(s.body)|, [[KDone]])
    ensures |CompileStmt(s)| == 3 + |Compile(s.body)|
  {
    hide At;
    var head := [RepeatLine(s.until, s.test), [KDo]];
    assert CompileStmt(s) == head + (Compile(s.body) + [[KDone]]);
    AtSplit(script, pos, head, Compile(s.body) + [[KDone]]);
    AtSplit(script, pos + 2, Compile(s.body), [[KDone]]);
  }
}
