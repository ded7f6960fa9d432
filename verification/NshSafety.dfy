/** What every run of the parser keeps, for every command sequence, well formed or not, in
    which a loop comes back to its head (`NshLine` says when it does). */
module NshSafety {
  import opened NshControl
  import opened NshScript

  predicate IsLoopHead(script: seq<Command>, pos: nat) {
    pos < |script| && script[pos].words != [] && script[pos].words[0] in {KWhile, KUntil}
  }

  /** Every loop entry in use belongs to a loop head of the script, waits for `do` or
      `done`, and only the innermost one can still wait for `do`. */
  predicate LoopsOk(script: seq<Command>, p: Parser) {
    && InRange(p)
    && (forall i | 1 <= i <= p.lpndx :: IsLoopHead(script, p.lpstate[i].topoffs) && p.lpstate[i].state != LoopNormal)
    && (forall i | 1 <= i < p.lpndx :: p.lpstate[i].state == LoopDo)
  }

  /** The parser is between two commands of the script. */
  predicate Safe(sh: Shell, depth: nat, c: Config) {
    && StacksOk(c.p) && LoopsOk(sh.script, c.p)
    && |c.p.iestate| == depth && |c.p.lpstate| == depth
  }

  /** The "Shouldn't happen" branches of `done` and `fi` are dead code. */
  lemma NoInternalLoopError(p: Parser, line: Line, seekable: bool)
    requires StacksOk(p)
    ensures NshLoop(p, line, seekable).fault != InternalError
  {
    hide ResetLoops, PushLoop, PopLoop, SetTopLoop, SavedInRange;
    assert TopLoop(p).state == LoopDo ==> 1 <= p.lpndx;
  }

  lemma NoInternalItefError(p: Parser, line: Line)
    requires StacksOk(p)
    ensures NshItef(p, line).fault != InternalError
  {
    hide ResetItefs, PushItef, SetTopItef, SavedInRange;
    assert TopItef(p).state in {ItefThen, ItefElse} ==> 1 <= p.iendx;
  }

  lemma NoInternalError(p: Parser, line: Line, seekable: bool, failed: bool)
    requires StacksOk(p)
    ensures ParseCommand(p, line, seekable, failed).fault != InternalError
  {
    hide NshLoop, NshItef;
    NoInternalLoopError(p, line, seekable);
    LoopKeepsStacks(p, line, seekable);
    var d := NshLoop(p, line, seekable);
    NoInternalItefError(d.p, d.rest);
  }

  /** `q` comes from `p` by a step that can move the position to a loop head only. */
  predicate Moved(script: seq<Command>, p: Parser, q: Parser) {
    && LoopsOk(script, q) && |q.lpstate| == |p.lpstate| && |q.iestate| == |p.iestate|
    && if q.jump then (p.jump && q.fpos == p.fpos) || IsLoopHead(script, q.fpos) else q.fpos == p.fpos
  }

  lemma ResetMoved(script: seq<Command>, p: Parser)
    requires LoopsOk(script, p)
    ensures Moved(script, p, ResetLoops(p)) && Moved(script, p, ResetItefs(p))
  {
  }

  lemma PushMoved(script: seq<Command>, p: Parser, state: LoopState)
    requires LoopsOk(script, p) && IsLoopHead(script, p.fpos) && state != LoopNormal && !p.jump
    requires p.lpndx + 1 < |p.lpstate| && p.lpstate[0].state == LoopNormal && TopLoop(p).state in {LoopNormal, LoopDo}
    ensures Moved(script, p, PushLoop(p, state))
  {
  }

  lemma PopMoved(script: seq<Command>, p: Parser)
    requires LoopsOk(script, p) && 1 <= p.lpndx
    ensures Moved(script, p, PopLoop(p))
  {
  }

  lemma TopMoved(script: seq<Command>, p: Parser, l: Loop)
    requires LoopsOk(script, p)
    requires l.topoffs == TopLoop(p).topoffs && (l.state == LoopNormal ==> p.lpndx == 0)
    ensures Moved(script, p, SetTopLoop(p, l))
  {
  }

  lemma LoopMoved(script: seq<Command>, p: Parser, line: Line, seekable: bool)
    requires StacksOk(p) && LoopsOk(script, p) && !p.jump
    requires p.fpos < |script| && script[p.fpos].words == line
    ensures Moved(script, p, NshLoop(p, line, seekable).p)
  {
    hide ResetLoops, PushLoop, PopLoop, SetTopLoop, SavedInRange, Moved;
    ResetMoved(script, p);
    TopMoved(script, p, TopLoop(p));
    if line != [] {
      match line[0]
      case KWhile | KUntil =>
        if p.lpndx + 1 < |p.lpstate| && !AwaitsLoopTest(p) {
          PushMoved(script, p, if line[0] == KWhile then LoopWhile else LoopUntil);
        }
      case KDo =>
        TopMoved(script, p, TopLoop(p).(state := LoopDo));
      case KDone =>
        if 1 <= p.lpndx {
          PopMoved(script, p);
        }
      case _ =>
    }
    StaysMoved(script, p, p);
  }

  /** Changes of the if-stack and of the last status leave the loops alone. */
  lemma StaysMoved(script: seq<Command>, p: Parser, q: Parser)
    requires LoopsOk(script, p) && InRange(q)
    requires q.lpndx == p.lpndx && q.lpstate == p.lpstate && |q.iestate| == |p.iestate|
    requires q.jump == p.jump && q.fpos == p.fpos
    ensures Moved(script, p, q)
  {
  }

  /** Only the if-stack differs. */
  predicate LoopsLeft(p: Parser, q: Parser) {
    && q.lpndx == p.lpndx && q.lpstate == p.lpstate && q.jump == p.jump && q.fpos == p.fpos
    && |q.iestate| == |p.iestate| && q.iendx < |q.iestate|
  }

  lemma TopLeavesLoops(p: Parser, e: Itef)
    requires InRange(p)
    ensures LoopsLeft(p, p) && LoopsLeft(p, SetTopItef(p, e)) && LoopsLeft(p, ResetItefs(p))
  {
  }

  lemma IfLeavesLoops(p: Parser, rest: Line)
    requires InRange(p)
    ensures LoopsLeft(p, NshIf(p, rest).p)
  {
    hide CmdEnabled;
  }

  lemma FiLeavesLoops(p: Parser, rest: Line)
    requires InRange(p)
    ensures LoopsLeft(p, NshFi(p, rest).p)
  {
  }

  lemma ItefLeavesLoops(p: Parser, line: Line)
    requires InRange(p)
    ensures LoopsLeft(p, NshItef(p, line).p)
  {
    hide NshIf, NshFi, SetTopItef, ResetItefs, LoopsLeft;
    TopLeavesLoops(p, TopItef(p).(state := ItefThen));
    TopLeavesLoops(p, TopItef(p).(state := ItefElse));
    if line != [] {
      IfLeavesLoops(p, line[1..]);
      FiLeavesLoops(p, line[1..]);
    }
  }

  lemma ItefMoved(script: seq<Command>, p: Parser, line: Line)
    requires StacksOk(p) && LoopsOk(script, p)
    ensures Moved(script, p, NshItef(p, line).p)
    ensures NshItef(p, line).p.jump == p.jump && NshItef(p, line).p.fpos == p.fpos
  {
    hide NshItef, SavedInRange, Moved;
    ItefLeavesLoops(p, line);
    StaysMoved(script, p, NshItef(p, line).p);
  }

  lemma SaveMoved(script: seq<Command>, p: Parser, failed: bool)
    requires StacksOk(p) && LoopsOk(script, p)
    ensures Moved(script, p, SaveResult(p, failed).p)
    ensures SaveResult(p, failed).p.jump == p.jump && SaveResult(p, failed).p.fpos == p.fpos
  {
    hide SavedInRange, LoopsOk;
    var l, s := TopLoop(p), SaveResult(p, failed);
    if AwaitsLoopTest(p) {
      var m := l.(enable := if l.state == LoopWhile then !failed else failed);
      TopMoved(script, p, m);
      StaysMoved(script, SetTopLoop(p, m), s.p);
    } else {
      StaysMoved(script, p, s.p);
    }
  }

  lemma BreakMoved(script: seq<Command>, p: Parser)
    requires StacksOk(p) && LoopsOk(script, p)
    ensures Moved(script, p, CmdBreak(p)) && CmdBreak(p).jump == p.jump && CmdBreak(p).fpos == p.fpos
  {
  }

  lemma MovedTrans(script: seq<Command>, p: Parser, q: Parser, r: Parser)
    requires Moved(script, p, q) && Moved(script, q, r) && r.jump == q.jump && r.fpos == q.fpos
    ensures Moved(script, p, r)
  {
  }

  lemma ParseMoved(script: seq<Command>, p: Parser, line: Line, seekable: bool, failed: bool)
    requires StacksOk(p) && LoopsOk(script, p) && !p.jump
    requires p.fpos < |script| && script[p.fpos].words == line
    ensures Moved(script, p, ParseCommand(p, line, seekable, failed).p)
  {
    hide NshLoop, NshItef, SaveResult, CmdBreak, CmdEnabled, LoopsOk, SavedInRange;
    LoopMoved(script, p, line, seekable);
    LoopKeepsStacks(p, line, seekable);
    var d1 := NshLoop(p, line, seekable);
    if d1.fault != NoFault {
      SaveMoved(script, d1.p, true);
      MovedTrans(script, p, d1.p, SaveResult(d1.p, true).p);
    } else {
      ItefMoved(script, d1.p, d1.rest);
      ItefKeepsStacks(d1.p, d1.rest);
      var d2 := NshItef(d1.p, d1.rest);
      MovedTrans(script, p, d1.p, d2.p);
      SaveMoved(script, d2.p, true);
      MovedTrans(script, p, d2.p, SaveResult(d2.p, true).p);
      SaveMoved(script, d2.p, failed);
      MovedTrans(script, p, d2.p, SaveResult(d2.p, failed).p);
      BreakMoved(script, d2.p);
      BreakKeepsStacks(d2.p);
      var b := CmdBreak(d2.p);
      MovedTrans(script, p, d2.p, b);
      SaveMoved(script, b, false);
      MovedTrans(script, p, b, SaveResult(b, false).p);
    }
  }

  lemma {:induction false} StepSafe(sh: Shell, depth: nat, c: Config)
    requires Safe(sh, depth, c)
    ensures Safe(sh, depth, Step(sh, c))
    ensures !Halted(sh, c) && Step(sh, c).p.jump ==> IsLoopHead(sh.script, Step(sh, c).p.fpos)
  {
    hide ParseCommand;
    if !Halted(sh, c) {
      var p := c.p.(jump := false);
      StaysMoved(sh.script, c.p.(jump := false), p);
      ParseMoved(sh.script, p, sh.script[c.p.fpos].words, sh.seekable, sh.status(|c.trace|));
    }
  }

  /** Over every run, from any safe state: both indices stay below the nesting limit,
      entry 0 of each stack is NORMAL, `break` restores an index in range, every jump
      lands on a loop head, and no internal error is reported. */
  lemma {:induction false} RunSafe(sh: Shell, depth: nat, c: Config, n: nat)
    requires Safe(sh, depth, c)
    ensures
      var d := Steps(sh, c, n);
      && Safe(sh, depth, d)
      && d.p.iendx < depth && d.p.lpndx < depth
      && d.p.iestate[0].state == ItefNormal && d.p.lpstate[0].state == LoopNormal
      && (forall i | 1 <= i <= d.p.lpndx :: d.p.lpstate[i].iendx < depth)
      && (!Halted(sh, d) ==>
            var next := ParseCommand(d.p.(jump := false), sh.script[d.p.fpos].words, sh.seekable, sh.status(|d.trace|));
            && next.fault != InternalError
            && (next.p.jump ==> IsLoopHead(sh.script, next.p.fpos)))
    decreases n
  {
    hide Step, ParseCommand;
    if n == 0 {
      if !Halted(sh, c) {
        var p := c.p.(jump := false);
        NoInternalError(p, sh.script[c.p.fpos].words, sh.seekable, sh.status(|c.trace|));
        ParseMoved(sh.script, p, sh.script[c.p.fpos].words, sh.seekable, sh.status(|c.trace|));
      }
    } else {
      StepSafe(sh, depth, c);
      RunSafe(sh, depth, Step(sh, c), n - 1);
    }
  }

  lemma IdleSafe(sh: Shell, depth: nat)
    requires 1 <= depth
    ensures Safe(sh, depth, Config(Idle(depth), [], false))
  {
  }
}
