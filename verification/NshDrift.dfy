/** What the flat machine does once a `break` inside an `if` has made it lose count of the
    open ifs: from there on every `else` and `fi` meets the entry of an outer `if`, until one
    of them finds none.  This is about the default mode, in which an error ends the script. */
module NshDrift {
  import opened NshControl
  import opened NshScript
  import opened NshStructured
  import opened NshSteps
  import opened NshWalk
  import opened NshSkip
  import opened NshMeaning
  import opened NshWitness
  import opened NshFaults

  // ---- Leaving the structured run ----

  /** The trace `t` departs from `good` at index `k`: the command there stands elsewhere
      in the script, or `good` ends there and the command is one of the lines lo..hi. */
  predicate OffAt(t: seq<Ran>, good: seq<Ran>, lo: nat, hi: nat, k: nat) {
    k < |t| && k <= |good| && if k < |good| then good[k].pos != t[k].pos else lo <= t[k].pos < hi
  }

  predicate OffTrack(t: seq<Ran>, good: seq<Ran>, lo: nat, hi: nat) {
    exists k: nat | k < |t| :: OffAt(t, good, lo, hi, k)
  }

  predicate Derails(sh: Shell, c: Config, lo: nat, hi: nat, good: seq<Ran>, n: nat, d: Config) {
    Reach(sh, c, n, d) && (d.aborted || OffTrack(d.trace, good, lo, hi))
  }

  lemma DerailsLater(sh: Shell, c: Config, lo: nat, hi: nat, good: seq<Ran>,
                     m: nat, c1: Config, lo1: nat, hi1: nat, good1: seq<Ran>, n: nat, d: Config)
    requires Reach(sh, c, m, c1) && Derails(sh, c1, lo1, hi1, good1, n, d)
    requires lo <= lo1 && hi1 <= hi && good1 <= good
    requires forall i | |good1| <= i < |good| :: !(lo1 <= good[i].pos < hi1)
    ensures Derails(sh, c, lo, hi, good, m + n, d)
  {
    hide Steps, StacksOk;
    ReachTrans(sh, c, m, c1, n, d);
    if !d.aborted {
      var k: nat :| k < |d.trace| && OffAt(d.trace, good1, lo1, hi1, k);
      assert OffAt(d.trace, good, lo, hi, k);
    }
  }

  /** A run that derails on some lines has derailed on these and the next. */
  lemma DerailsOn(sh: Shell, c: Config, k: nat, k1: nat, r: Run, w: seq<bool>, broke: bool, out: Outcome,
                  n: nat, d: Config)
    requires StacksOk(c.p) && Derails(sh, c, c.p.fpos, c.p.fpos + k1, r.trace, n, d)
    requires k1 <= k && Consumes(r, c.p.fpos + k1, k - k1, w, broke, out)
    ensures Derails(sh, c, c.p.fpos, c.p.fpos + k, out.run.trace, n, d)
  {
    hide Steps, SavedInRange, Derails, Reach;
    ReachZero(sh, c);
    DerailsLater(sh, c, c.p.fpos, c.p.fpos + k, out.run.trace, 0, c, c.p.fpos, c.p.fpos + k1, r.trace, n, d);
  }

  lemma TrippedDerails(sh: Shell, c: Config, k: nat, n: nat, d: Config)
    requires Tripped(sh, c, k, n, d)
    ensures Derails(sh, c, c.p.fpos, c.p.fpos + k, c.trace, n, d)
  {
    if !d.aborted {
      assert OffAt(d.trace, c.trace, c.p.fpos, c.p.fpos + k, |c.trace|);
    }
  }

  // ---- Losing count ----

  /** The branch that is being run is the one its `if` selects. */
  predicate EntryLive(e: Itef) {
    !e.disabled && e.state == if e.ifcond then ItefElse else ItefThen
  }

  /** All ifs that the machine knows to be open select the branch it is in. */
  predicate Upright(p: Parser) {
    StacksOk(p) && !p.iestate[0].disabled && forall j | 1 <= j <= p.iendx :: EntryLive(p.iestate[j])
  }

  lemma UprightTop(p: Parser)
    requires Upright(p)
    ensures InRange(p) && ItefEnabled(p) && TopItef(p).state != ItefIf
    ensures if p.iendx == 0 then TopItef(p).state == ItefNormal else EntryLive(TopItef(p))
  {
  }

  lemma UprightSame(p: Parser, q: Parser)
    requires Upright(p) && Same(p, q)
    ensures Upright(q)
  {
    SameKeeps(p, q, 0, 0);
  }

  lemma UprightInside(p: Parser, q: Parser, e: Itef)
    requires Upright(p) && Inside(p, q, e) && EntryLive(e) && StacksOk(q)
    ensures Upright(q)
  {
  }

  lemma UprightLooped(p: Parser, q: Parser, l: Loop)
    requires Upright(p) && Looped(p, q, l) && StacksOk(q)
    ensures Upright(q)
  {
  }

  /** The loop stack is as before, but for the innermost loop when a `break` left it. */
  predicate LoopsLike(p: Parser, q: Parser, broke: bool) {
    && InRange(p) && InRange(q)
    && q.lpndx == p.lpndx && |q.lpstate| == |p.lpstate|
    && (forall i | 0 <= i < p.lpndx :: q.lpstate[i] == p.lpstate[i])
    && TopLoop(q) == if broke then TopLoop(p).(enable := false) else TopLoop(p)
  }

  lemma SameLoops(p: Parser, q: Parser)
    requires Same(p, q)
    ensures LoopsLike(p, q, false)
  {
  }

  lemma LoopsLikeTrans(p: Parser, q: Parser, r: Parser, a: bool, b: bool)
    requires LoopsLike(p, q, a) && LoopsLike(q, r, b)
    ensures LoopsLike(p, r, a || b)
  {
  }

  /** The machine has run the commands `good` and stands `k` lines further on, but it knows
      of fewer open ifs than the `level` there are. */
  predicate Adrift(sh: Shell, c: Config, k: nat, level: nat, good: seq<Ran>, broke: bool, n: nat, d: Config) {
    && Reach(sh, c, n, d) && !d.aborted && d.p.fpos == c.p.fpos + k && d.trace == good
    && Settled(d.p) && Upright(d.p) && d.p.iendx < level && LoopsLike(c.p, d.p, broke)
  }

  predicate Strays(sh: Shell, c: Config, k: nat, level: nat, good: seq<Ran>, broke: bool, n: nat, d: Config) {
    Derails(sh, c, c.p.fpos, c.p.fpos + k, good, n, d) || Adrift(sh, c, k, level, good, broke, n, d)
  }

  /** The rooms the stacks have. */
  function IfRoom(p: Parser): nat
    requires InRange(p)
  {
    |p.iestate| - 1 - p.iendx
  }

  function LoopRoom(p: Parser): nat
    requires InRange(p)
  {
    |p.lpstate| - 1 - p.lpndx
  }

  /** The machine is in front of `lines`, between statements, in default mode. */
  predicate Facing(sh: Shell, c: Config, lines: seq<Line>) {
    LaidOut(sh) && !sh.ignore && !c.aborted && Settled(c.p) && Upright(c.p) && At(sh.script, c.p.fpos, lines)
  }

  lemma FacingFront(sh: Shell, c: Config, lines: seq<Line>)
    requires LaidOut(sh) && !c.aborted && Settled(c.p) && At(sh.script, c.p.fpos, lines)
    ensures InRange(c.p) && Front(sh, c, lines, IfRoom(c.p), LoopRoom(c.p))
    ensures Exactly(c.p, IfRoom(c.p), LoopRoom(c.p))
  {
  }

  // ---- Closing a branch ----

  lemma StepElseTwice(sh: Shell, c: Config)
    requires Ready(sh, c, [KElse]) && Settled(c.p) && !sh.ignore && TopItef(c.p).state == ItefElse
    ensures Step(sh, c).aborted
  {
    hide Step, ResetItefs, SavedInRange;
    StepItefFault(sh, c, [KElse]);
  }

  /** The stacks after `fi`. */
  predicate OneLess(p: Parser, q: Parser) {
    && InRange(p) && InRange(q) && q.iendx + 1 == p.iendx && |q.iestate| == |p.iestate|
    && (forall i | 0 <= i <= q.iendx :: q.iestate[i] == p.iestate[i])
    && LoopsLike(p, q, false)
  }

  lemma UprightOneLess(p: Parser, q: Parser)
    requires StacksOk(p) && !p.iestate[0].disabled && (forall j | 1 <= j < p.iendx :: EntryLive(p.iestate[j]))
    requires OneLess(p, q) && StacksOk(q) && !AwaitsLoopTest(p)
    ensures Upright(q) && Settled(q)
  {
    UprightTop(q);
  }

  lemma FiStep(sh: Shell, c: Config) returns (d: Config)
    requires Ready(sh, c, [KFi]) && !AwaitsLoopTest(c.p)
    requires TopItef(c.p).state == ItefThen || TopItef(c.p).state == ItefElse
    ensures Reach(sh, c, 1, d) && !d.aborted && d.p.fpos == c.p.fpos + 1 && d.trace == c.trace && OneLess(c.p, d.p)
  {
    hide Step, Steps;
    StepFi(sh, c);
    d := Step(sh, c);
    ReachOne(sh, c);
  }

  /** `fi`: an entry is given up, whichever it is; without one it is an error. */
  lemma CloseFi(sh: Shell, c: Config, level: nat) returns (n: nat, d: Config)
    requires Facing(sh, c, [[KFi]]) && c.p.iendx <= level
    ensures Strays(sh, c, 1, level, c.trace, false, n, d)
  {
    hide Step, Steps, SavedInRange;
    AtHead(sh.script, c.p.fpos, [[KFi]]);
    UprightTop(c.p);
    n := 1;
    if c.p.iendx == 0 {
      StepStray(sh, c, [KFi]);
      ReachOne(sh, c);
      d := Step(sh, c);
    } else {
      d := FiStep(sh, c);
      UprightOneLess(c.p, d.p);
    }
  }

  /** `else`, the branch it opens, which is skipped, and `fi`. */
  lemma CloseElse(sh: Shell, c: Config, els: Block, level: nat) returns (n: nat, d: Config)
    requires Facing(sh, c, [[KElse]] + (Compile(els) + [[KFi]])) && c.p.iendx <= level && Worded(els)
    ensures Strays(sh, c, 2 + |Compile(els)|, level, c.trace, false, n, d)
  {
    hide Step, Steps, SavedInRange, At, Compile, Shallow;
    AtSplit(sh.script, c.p.fpos, [[KElse]], Compile(els) + [[KFi]]);
    AtSplit(sh.script, c.p.fpos + 1, Compile(els), [[KFi]]);
    AtHead(sh.script, c.p.fpos, [[KElse]]);
    UprightTop(c.p);
    if c.p.iendx == 0 || TopItef(c.p).state == ItefElse {
      if c.p.iendx == 0 {
        StepStray(sh, c, [KElse]);
      } else {
        StepElseTwice(sh, c);
      }
      ReachOne(sh, c);
      n, d := 1, Step(sh, c);
    } else {
      n, d := TurnAndClose(sh, c, els, level);
    }
  }

  lemma TurnAndClose(sh: Shell, c: Config, els: Block, level: nat) returns (n: nat, d: Config)
    requires Facing(sh, c, [[KElse]] + (Compile(els) + [[KFi]])) && 1 <= c.p.iendx <= level && Worded(els)
    requires TopItef(c.p).state == ItefThen
    ensures Strays(sh, c, 2 + |Compile(els)|, level, c.trace, false, n, d)
  {
    hide Step, Steps, SavedInRange, At, Compile, Shallow, Same, Upright;
    AtSplit(sh.script, c.p.fpos, [[KElse]], Compile(els) + [[KFi]]);
    AtSplit(sh.script, c.p.fpos + 1, Compile(els), [[KFi]]);
    AtHead(sh.script, c.p.fpos, [[KElse]]);
    var c1 := TurnElse(sh, c);
    FacingFront(sh, c1, Compile(els));
    if !Shallow(els, IfRoom(c1.p), LoopRoom(c1.p)) {
      n, d := SkipFails(sh, c1, els, IfRoom(c1.p), LoopRoom(c1.p));
      ReachTrans(sh, c, 1, c1, n, d);
      n := 1 + n;
    } else {
      var c2 := SkipBlock(sh, c1, els, IfRoom(c1.p), LoopRoom(c1.p));
      ReachTrans(sh, c, 1, c1, |Compile(els)|, c2);
      SameKeeps(c1.p, c2.p, 0, 0);
      AtHead(sh.script, c2.p.fpos, [[KFi]]);
      TurnedSame(c.p, c1.p, c2.p);
      d := FiStep(sh, c2);
      ReachTrans(sh, c, 1 + |Compile(els)|, c2, 1, d);
      n := 2 + |Compile(els)|;
      TurnedClosed(c.p, c1.p, c2.p, d.p);
    }
  }

  lemma TurnedSame(p: Parser, q: Parser, q': Parser)
    requires Turned(p, q) && Same(q, q')
    ensures q'.iendx == p.iendx && TopItef(q').state == ItefElse
  {
  }

  /** The entry on top passes from its first to its second branch, and is disabled there. */
  predicate Turned(p: Parser, q: Parser) {
    && InRange(p) && InRange(q) && q.iendx == p.iendx && 1 <= p.iendx && |q.iestate| == |p.iestate|
    && (forall i | 0 <= i < p.iendx :: q.iestate[i] == p.iestate[i])
    && TopItef(q) == TopItef(p).(state := ItefElse) && LoopsLike(p, q, false)
  }

  lemma TurnElse(sh: Shell, c: Config) returns (d: Config)
    requires Ready(sh, c, [KElse]) && Settled(c.p) && Upright(c.p)
    requires 1 <= c.p.iendx && TopItef(c.p).state == ItefThen
    ensures Reach(sh, c, 1, d) && !d.aborted && d.p.fpos == c.p.fpos + 1 && d.trace == c.trace
    ensures Turned(c.p, d.p) && Settled(d.p) && !ItefEnabled(d.p)
  {
    hide Step, Steps;
    StepElse(sh, c);
    d := Step(sh, c);
    ReachOne(sh, c);
    assert EntryLive(c.p.iestate[c.p.iendx]);
  }

  lemma TurnedClosed(p: Parser, q: Parser, r: Parser, t: Parser)
    requires Upright(p) && Turned(p, q) && Same(q, r) && OneLess(r, t) && StacksOk(t) && !AwaitsLoopTest(r)
    ensures Upright(t) && Settled(t) && t.iendx + 1 == p.iendx && LoopsLike(p, t, false)
  {
    assert forall j | 1 <= j <= t.iendx :: t.iestate[j] == p.iestate[j];
    UprightTop(t);
  }

  /** From the end of the first branch of an `if`, or of the second, to behind its `fi`. */
  lemma CloseBranch(sh: Shell, c: Config, s: Stmt, start: nat, second: bool, level: nat) returns (n: nat, d: Config)
    requires s.If? && WordedStmt(s) && At(sh.script, start, CompileStmt(s)) && (second ==> s.hasElse)
    requires LaidOut(sh) && !sh.ignore && !c.aborted && Settled(c.p) && Upright(c.p) && c.p.iendx <= level
    requires c.p.fpos == start + if second then 3 + |Compile(s.thn)| + |Compile(s.els)| else 2 + |Compile(s.thn)|
    ensures Strays(sh, c, start + |CompileStmt(s)| - c.p.fpos, level, c.trace, false, n, d)
  {
    hide Step, Steps, SavedInRange, At, Compile, CompileStmt, Strays;
    AtIf(sh.script, start, s);
    if second || !s.hasElse {
      n, d := CloseFi(sh, c, level);
    } else {
      AtJoin(sh.script, c.p.fpos + 1, Compile(s.els), [[KFi]]);
      AtJoin(sh.script, c.p.fpos, [[KElse]], Compile(s.els) + [[KFi]]);
      n, d := CloseElse(sh, c, s.els, level);
    }
  }

  lemma AtJoin(script: seq<Command>, pos: nat, a: seq<Line>, b: seq<Line>)
    requires At(script, pos, a) && At(script, pos + |a|, b)
    ensures At(script, pos, a + b)
  {
    forall i | 0 <= i < |a + b|
      ensures script[pos + i].words == (a + b)[i]
    {
      if |a| <= i {
        assert script[pos + |a| + (i - |a|)].words == b[i - |a|];
      }
    }
  }

  // ---- Drifting on ----

  /** Whether a `break` of the enclosing loop stands in the block. */
  predicate Breaks(b: Block) {
    b.Cons? && (BreaksStmt(b.head) || Breaks(b.tail))
  }

  predicate BreaksStmt(s: Stmt) {
    match s
    case Simple(_) => false
    case Break => true
    case If(_, _, thn, hasElse, els) => Breaks(thn) || (hasElse && Breaks(els))
    case Repeat(_, _, _) => false
  }

  /** The machine is adrift in front of the block, and the results to come are quiet. */
  predicate Drifting(sh: Shell, c: Config, lines: seq<Line>, inLoop: bool, level: nat, w: seq<bool>) {
    && Facing(sh, c, lines) && LoopEnabled(c.p) && c.p.iendx < level
    && TopLoop(c.p).state == (if inLoop then LoopDo else LoopNormal)
    && Matches(sh.status, |c.trace|, w)
  }

  /** A run without breaks does not bring the machine back: it stays adrift or an error
      ends the script. */
  lemma {:induction false} DriftBlock(sh: Shell, c: Config, b: Block, inLoop: bool, level: nat, r: Run, fuel: nat)
    returns (n: nat, d: Config)
    requires Drifting(sh, c, Compile(b), inLoop, level, Calm(b, inLoop)) && Worded(b) && (inLoop ==> !Breaks(b))
    requires r.trace == c.trace
    ensures var out := Exec(b, c.p.fpos, inLoop, r, WorldOf(sh), fuel);
            out.Normal? && Strays(sh, c, |Compile(b)|, level, out.run.trace, false, n, d)
    decreases b
  {
    hide Step, Steps, SavedInRange, At, Compile, CompileStmt, Calm, CalmStmt, CalmBreaks, CalmBreaksStmt, Exec;
    hide ExecStmt;
    hide Matches, Consumes, Reach, Derails, Upright, Breaks;
    if b.Nil? {
      StacksInRange(c.p);
      ReachZero(sh, c);
      QuietNil(c.p.fpos, inLoop, r, WorldOf(sh), fuel);
      n, d := 0, c;
    } else {
      var Cons(s, rest) := b;
      var w := WorldOf(sh);
      QuietCons(b, inLoop);
      MatchesSplit(sh.status, |c.trace|, CalmStmt(s, inLoop), Calm(rest, inLoop));
      AtSplit(sh.script, c.p.fpos, CompileStmt(s), Compile(rest));
      CalmRunStmt(s, c.p.fpos, inLoop, r, w, fuel);
      var out := ExecStmt(s, c.p.fpos, inLoop, r, w, fuel);
      ConsumedLength(r, c.p.fpos, |CompileStmt(s)|, CalmStmt(s, inLoop), false, out);
      var pos := c.p.fpos + |CompileStmt(s)|;
      CalmRun(rest, pos, inLoop, out.run, w, fuel);
      var after := Exec(rest, pos, inLoop, out.run, w, fuel);
      ConsumedLength(out.run, pos, |Compile(rest)|, Calm(rest, inLoop), false, after);
      ExecOn(b, c.p.fpos, inLoop, r, w, fuel);
      n, d := DriftStmt(sh, c, s, inLoop, level, r, fuel);
      if Derails(sh, c, c.p.fpos, pos, out.run.trace, n, d) {
        StacksInRange(c.p);
        DerailsOn(sh, c, |Compile(b)|, |CompileStmt(s)|, out.run, Calm(rest, inLoop), false, after, n, d);
      } else {
        var m, c1 := n, d;
        DriftsOn(sh, c, c1, rest, inLoop, level, m, |CompileStmt(s)|);
        n, d := DriftBlock(sh, c1, rest, inLoop, level, out.run, fuel);
        n := StraysLater(sh, c, |Compile(b)|, level, after.run.trace, false, m, c1, |Compile(rest)|, false, n, d);
      }
    }
  }

  lemma QuietNil(pos: nat, inLoop: bool, r: Run, w: World, fuel: nat)
    ensures Exec(Nil, pos, inLoop, r, w, fuel) == Normal(r) && Compile(Nil) == []
  {
  }

  /** The parts of a block whose quick run meets no `break`. */
  lemma QuietCons(b: Block, inLoop: bool)
    requires b.Cons? && Worded(b) && (inLoop ==> !Breaks(b))
    ensures WordedStmt(b.head) && Worded(b.tail) && (inLoop ==> !BreaksStmt(b.head) && !Breaks(b.tail))
    ensures !CalmBreaksStmt(b.head, inLoop) && !CalmBreaks(b.tail, inLoop)
    ensures Calm(b, inLoop) == CalmStmt(b.head, inLoop) + Calm(b.tail, inLoop)
    ensures Compile(b) == CompileStmt(b.head) + Compile(b.tail)
  {
    hide CalmBreaksStmt, CalmStmt, BreaksStmt, CompileStmt;
    QuietStmt(b.head, inLoop);
    QuietBlock(b.tail, inLoop);
  }

  lemma ExecOn(b: Block, pos: nat, inLoop: bool, r: Run, w: World, fuel: nat)
    requires b.Cons? && ExecStmt(b.head, pos, inLoop, r, w, fuel).Normal?
    ensures Exec(b, pos, inLoop, r, w, fuel)
         == Exec(b.tail, pos + |CompileStmt(b.head)|, inLoop, ExecStmt(b.head, pos, inLoop, r, w, fuel).run, w, fuel)
  {
  }

  lemma DriftsOn(sh: Shell, c: Config, c1: Config, rest: Block, inLoop: bool, level: nat, m: nat, k: nat)
    requires LaidOut(sh) && !sh.ignore && InRange(c.p) && LoopEnabled(c.p)
    requires TopLoop(c.p).state == (if inLoop then LoopDo else LoopNormal)
    requires Adrift(sh, c, k, level, c1.trace, false, m, c1)
    requires At(sh.script, c.p.fpos + k, Compile(rest))
    requires Matches(sh.status, |c1.trace|, Calm(rest, inLoop))
    ensures Drifting(sh, c1, Compile(rest), inLoop, level, Calm(rest, inLoop))
  {
    hide Steps, Reach, SavedInRange, Matches, At, Compile, Calm;
  }

  /** What a later part of the run does, seen from before. */
  lemma StraysLater(sh: Shell, c: Config, k: nat, level: nat, good: seq<Ran>, was: bool,
                    m: nat, c1: Config, k1: nat, broke: bool, n: nat, d: Config) returns (n': nat)
    requires Reach(sh, c, m, c1) && Strays(sh, c1, k1, level, good, broke, n, d)
    requires c.p.fpos <= c1.p.fpos && c1.p.fpos + k1 == c.p.fpos + k && LoopsLike(c.p, c1.p, was)
    ensures n' == m + n && Strays(sh, c, k, level, good, was || broke, n', d)
    ensures Adrift(sh, c1, k1, level, good, broke, n, d) ==> Adrift(sh, c, k, level, good, was || broke, n', d)
    ensures Derails(sh, c1, c1.p.fpos, c1.p.fpos + k1, good, n, d) ==>
      Derails(sh, c, c.p.fpos, c.p.fpos + k, good, n', d)
  {
    hide Steps, Reach, SavedInRange, OffTrack, Upright;
    n' := m + n;
    if Adrift(sh, c1, k1, level, good, broke, n, d) {
      ReachTrans(sh, c, m, c1, n, d);
      LoopsLikeTrans(c.p, c1.p, d.p, was, broke);
    }
    if Derails(sh, c1, c1.p.fpos, c1.p.fpos + k1, good, n, d) {
      DerailsLater(sh, c, c.p.fpos, c.p.fpos + k, good, m, c1, c1.p.fpos, c1.p.fpos + k1, good, n, d);
    }
  }

  lemma {:induction false} DriftStmt(sh: Shell, c: Config, s: Stmt, inLoop: bool, level: nat, r: Run, fuel: nat)
    returns (n: nat, d: Config)
    requires Drifting(sh, c, CompileStmt(s), inLoop, level, CalmStmt(s, inLoop))
    requires WordedStmt(s) && (inLoop ==> !BreaksStmt(s)) && r.trace == c.trace
    ensures var out := ExecStmt(s, c.p.fpos, inLoop, r, WorldOf(sh), fuel);
            out.Normal? && Strays(sh, c, |CompileStmt(s)|, level, out.run.trace, false, n, d)
    decreases s, 1
  {
    hide Step, Steps, At, SavedInRange, Matches, Reach, OffTrack, Compile, Calm, Exec;
    AtHead(sh.script, c.p.fpos, CompileStmt(s));
    UprightTop(c.p);
    match s
    case Simple(argv) =>
      MatchesHead(sh.status, |c.trace|, [false]);
      StepSimple(sh, c, argv);
      ReachOne(sh, c);
      n, d := 1, Step(sh, c);
    case Break =>
      StepBreak(sh, c);
      ReachOne(sh, c);
      n, d := 1, Step(sh, c);
    case If(_, _, _, _, _) =>
      n, d := DriftIf(sh, c, s, inLoop, level, r, fuel);
    case Repeat(_, _, _) =>
      n, d := DriftRepeat(sh, c, s, inLoop, level, r, fuel);
  }

  lemma InsideLoops(p: Parser, q: Parser, e: Itef)
    requires Inside(p, q, e)
    ensures LoopsLike(p, q, false)
  {
  }

  lemma {:induction false} DriftIf(sh: Shell, c: Config, s: Stmt, inLoop: bool, level: nat, r: Run, fuel: nat)
    returns (n: nat, d: Config)
    requires Drifting(sh, c, CompileStmt(s), inLoop, level, CalmStmt(s, inLoop)) && s.If?
    requires WordedStmt(s) && (inLoop ==> !BreaksStmt(s)) && r.trace == c.trace
    ensures var out := ExecStmt(s, c.p.fpos, inLoop, r, WorldOf(sh), fuel);
            out.Normal? && Strays(sh, c, |CompileStmt(s)|, level, out.run.trace, false, n, d)
    decreases s, 0
  {
    hide Step, Steps, At, SavedInRange, Matches, Reach, OffTrack, Compile, CompileStmt, Calm, Exec, Inside, Upright;
    hide Worded, Breaks;
    AtIf(sh.script, c.p.fpos, s);
    AtHead(sh.script, c.p.fpos, [IfLine(s.inverted, s.test), [KThen]]);
    StacksInRange(c.p);
    UprightTop(c.p);
    MatchesSplit(sh.status, |c.trace|, [s.inverted], Calm(s.thn, inLoop));
    MatchesHead(sh.status, |c.trace|, [s.inverted]);
    var r1 := Run(r.trace + [Ran(c.p.fpos, s.test)], false);
    QuietBlock(s.thn, inLoop);
    CalmRun(s.thn, c.p.fpos + 2, inLoop, r1, WorldOf(sh), fuel);
    if c.p.iendx + 1 == |c.p.iestate| {
      StepIfDeep(sh, c, s.inverted, s.test);
      ReachOne(sh, c);
      n, d := 1, Step(sh, c);
    } else {
      var e := Itef(ItefThen, false, false, s.inverted);
      var c1 := OpenIf(sh, c, s.inverted, s.test);
      InsideSettled(c.p, c1.p, e, IfRoom(c.p), LoopRoom(c.p));
      UprightInside(c.p, c1.p, e);
      InsideLoops(c.p, c1.p, e);
      InsideDeeper(c.p, c1.p, e);
      var m, c2 := DriftBlock(sh, c1, s.thn, inLoop, level + 1, r1, fuel);
      n, d := CloseDrift(sh, c, s, c1, 2, c.p.fpos + 2, |Compile(s.thn)|, m, c2, level,
                         Exec(s.thn, c.p.fpos + 2, inLoop, r1, WorldOf(sh), fuel).run.trace, false, false);
    }
  }

  lemma InsideDeeper(p: Parser, q: Parser, e: Itef)
    requires Inside(p, q, e)
    ensures q.iendx == p.iendx + 1 && TopLoop(q) == TopLoop(p)
  {
  }

  /** A branch that strays makes its `if` stray. */
  lemma CloseDrift(sh: Shell, c: Config, s: Stmt, c1: Config, m1: nat, start: nat, k: nat, m: nat, c2: Config,
                   level: nat, good: seq<Ran>, second: bool, broke: bool) returns (n: nat, d: Config)
    requires s.If? && WordedStmt(s) && At(sh.script, c.p.fpos, CompileStmt(s)) && (second ==> s.hasElse)
    requires LaidOut(sh) && !sh.ignore && Reach(sh, c, m1, c1) && LoopsLike(c.p, c1.p, false)
    requires c1.p.fpos == start
    requires if second then start == c.p.fpos + 3 + |Compile(s.thn)| && k == |Compile(s.els)|
             else start == c.p.fpos + 2 && k == |Compile(s.thn)|
    requires Strays(sh, c1, k, level + 1, good, broke, m, c2)
    ensures Strays(sh, c, |CompileStmt(s)|, level, good, broke, n, d)
    ensures Derails(sh, c1, start, start + k, good, m, c2) ==>
      Derails(sh, c, c.p.fpos, c.p.fpos + |CompileStmt(s)|, good, n, d)
  {
    hide Step, Steps, At, SavedInRange, Reach, OffTrack, Compile, CompileStmt, Upright, Worded;
    AtIf(sh.script, c.p.fpos, s);
    if !Derails(sh, c1, start, start + k, good, m, c2) {
      ReachTrans(sh, c, m1, c1, m, c2);
      LoopsLikeTrans(c.p, c1.p, c2.p, false, broke);
      n, d := CloseBranch(sh, c2, s, c.p.fpos, second, level);
      var k2 := c.p.fpos + |CompileStmt(s)| - c2.p.fpos;
      n := StraysLater(sh, c, |CompileStmt(s)|, level, good, broke, m1 + m, c2, k2, false, n, d);
    } else {
      DerailsLater(sh, c, c.p.fpos, c.p.fpos + |CompileStmt(s)|, good, m1, c1, start, start + k, good, m, c2);
      n, d := m1 + m, c2;
    }
  }

  lemma {:induction false} DriftRepeat(sh: Shell, c: Config, s: Stmt, inLoop: bool, level: nat, r: Run, fuel: nat)
    returns (n: nat, d: Config)
    requires Drifting(sh, c, CompileStmt(s), inLoop, level, CalmStmt(s, inLoop)) && s.Repeat?
    requires WordedStmt(s) && r.trace == c.trace
    ensures var out := ExecStmt(s, c.p.fpos, inLoop, r, WorldOf(sh), fuel);
            out.Normal? && Strays(sh, c, |CompileStmt(s)|, level, out.run.trace, false, n, d)
  {
    hide Step, Steps, At, SavedInRange, Matches, Reach, OffTrack, Compile, CompileStmt, Exec, Looped, Upright, Worded;
    hide Same;
    MatchesHead(sh.status, |c.trace|, [!s.until]);
    n, d := PassLoop(sh, c, s, level);
  }

  /** A loop whose test ends it at once. */
  lemma PassLoop(sh: Shell, c: Config, s: Stmt, level: nat) returns (n: nat, d: Config)
    requires Facing(sh, c, CompileStmt(s)) && s.Repeat? && WordedStmt(s) && c.p.iendx < level
    requires sh.status(|c.trace|) == !s.until
    ensures Strays(sh, c, |CompileStmt(s)|, level, c.trace + [Ran(c.p.fpos, s.test)], false, n, d)
  {
    hide Step, Steps, At, SavedInRange, Reach, OffTrack, Compile, CompileStmt, Looped, Upright, Worded, Shallow;
    hide NoLoopHere, Same;
    AtRepeat(sh.script, c.p.fpos, s);
    AtHead(sh.script, c.p.fpos, [RepeatLine(s.until, s.test), [KDo]]);
    StacksInRange(c.p);
    UprightTop(c.p);
    if c.p.lpndx + 1 == |c.p.lpstate| {
      StepRepeatDeep(sh, c, s.until, s.test);
      ReachOne(sh, c);
      n, d := 1, Step(sh, c);
    } else {
      var l, k := Loop(LoopDo, false, c.p.iendx, c.p.fpos), |Compile(s.body)|;
      var c1 := OpenLoop(sh, c, s.until, s.test);
      LoopedSettled(c.p, c1.p, l, IfRoom(c.p), LoopRoom(c.p));
      FacingFront(sh, c1, Compile(s.body));
      LoopedSkips(c.p, c1.p, l, s.body);
      if Shallow(s.body, IfRoom(c1.p), LoopRoom(c1.p)) && NoLoopHere(s.body) {
        var c2 := SkipBlock(sh, c1, s.body, IfRoom(c1.p), LoopRoom(c1.p));
        ReachTrans(sh, c, 2, c1, k, c2);
        LoopedSame(c.p, c1.p, c2.p, l);
        AtHead(sh.script, c2.p.fpos, [[KDone]]);
        SameKeeps(c1.p, c2.p, 0, 0);
        d := CloseLoop(sh, c, c2, l);
        ReachTrans(sh, c, 2 + k, c2, 1, d);
        n := 3 + k;
        UprightSame(c.p, d.p);
        SameKeeps(c.p, d.p, 0, 0);
        SameLoops(c.p, d.p);
        SameIfs(c.p, d.p);
      } else {
        n, d := SkipFails(sh, c1, s.body, IfRoom(c1.p), LoopRoom(c1.p));
        TrippedDerails(sh, c1, k, n, d);
        DerailsLater(sh, c, c.p.fpos, c.p.fpos + |CompileStmt(s)|, c1.trace,
                     2, c1, c1.p.fpos, c1.p.fpos + k, c1.trace, n, d);
        n := 2 + n;
      }
    }
  }

  lemma SameIfs(p: Parser, q: Parser)
    requires Same(p, q)
    ensures q.iendx == p.iendx
  {
  }

  lemma LoopedSkips(p: Parser, q: Parser, l: Loop, b: Block)
    requires Looped(p, q, l) && l.state == LoopDo && !l.enable && ItefEnabled(p)
    ensures !CmdEnabled(q) && (Skips(q, b) <==> NoLoopHere(b))
  {
  }

  lemma QuietStmt(s: Stmt, inLoop: bool)
    requires inLoop ==> !BreaksStmt(s)
    ensures !CalmBreaksStmt(s, inLoop)
  {
    if s.If? {
      QuietBlock(s.thn, inLoop);
    }
  }

  lemma {:induction false} QuietBlock(b: Block, inLoop: bool)
    requires inLoop ==> !Breaks(b)
    ensures !CalmBreaks(b, inLoop)
    decreases b
  {
    if b.Cons? {
      if b.head.If? {
        QuietBlock(b.head.thn, inLoop);
      }
      QuietBlock(b.tail, inLoop);
    }
  }
}
