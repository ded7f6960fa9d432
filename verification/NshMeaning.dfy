/** The flat two-stack machine runs a structured script as its meaning prescribes. */
module NshMeaning {
  import opened NshControl
  import opened NshScript
  import opened NshStructured
  import opened NshSteps
  import opened NshWalk
  import opened NshSkip

  /** Commands are executed here. */
  predicate Live(p: Parser, place: Place) {
    && StacksOk(p) && CmdEnabled(p)
    && TopLoop(p).state == (if place == Top then LoopNormal else LoopDo)
    && (place == Body ==> TopLoop(p).iendx == p.iendx)
  }

  function WorldOf(sh: Shell): World {
    World(sh.status, sh.ignore)
  }

  /** The stacks after a `break`: the innermost loop is disabled. */
  function Broken(p: Parser): Parser
    requires InRange(p)
  {
    SetTopLoop(p, TopLoop(p).(enable := false))
  }

  /** The machine, started at `c` in front of `k` lines, does what `out` says.  When the
      structured run is still unfinished after `fuel` loop iterations, so is the machine
      after at least as many steps. */
  predicate Agrees(sh: Shell, c: Config, k: nat, out: Outcome, place: Place, fuel: nat, n: nat, d: Config)
    requires InRange(c.p)
  {
    && Reach(sh, c, n, d)
    && match out
       case Normal(r) => Ended(c, k, r, d) && Same(c.p, d.p)
       case Broke(r) => place == Body && Ended(c, k, r, d) && Same(Broken(c.p), d.p)
       case Aborted(r) => d.aborted && d.trace == r.trace && d.p.fail == r.fail
       case Unfinished => fuel <= n && !Halted(sh, d)
  }

  predicate Ended(c: Config, k: nat, r: Run, d: Config) {
    !d.aborted && d.p.fpos == c.p.fpos + k && d.trace == r.trace && d.p.fail == r.fail
  }

  /** A run that does not come back to the end of the statement stays as it is. */
  lemma PassOut(sh: Shell, c: Config, k: nat, out: Outcome, place: Place, fuel: nat,
                m: nat, c1: Config, k1: nat, place1: Place, fuel1: nat, n: nat, d: Config)
    requires StacksOk(c.p) && StacksOk(c1.p) && Reach(sh, c, m, c1)
    requires Agrees(sh, c1, k1, out, place1, fuel1, n, d)
    requires out.Aborted? || out.Unfinished?
    requires fuel <= fuel1 + m
    ensures Agrees(sh, c, k, out, place, fuel, m + n, d)
  {
    hide Steps;
    ReachTrans(sh, c, m, c1, n, d);
  }

  /** Steps that come back to the same stacks can be put in front. */
  lemma PutInFront(sh: Shell, c: Config, k: nat, out: Outcome, place: Place, fuel: nat,
                   m: nat, c1: Config, k1: nat, fuel1: nat, n: nat, d: Config)
    requires StacksOk(c.p) && StacksOk(c1.p) && Reach(sh, c, m, c1) && Same(c.p, c1.p)
    requires Agrees(sh, c1, k1, out, place, fuel1, n, d)
    requires c1.p.fpos + k1 == c.p.fpos + k && fuel <= fuel1 + m
    ensures Agrees(sh, c, k, out, place, fuel, m + n, d)
  {
    hide Steps;
    ReachTrans(sh, c, m, c1, n, d);
  }

  lemma LiveSame(p: Parser, q: Parser, place: Place)
    requires Live(p, place) && Same(p, q)
    ensures Live(q, place)
  {
  }

  lemma LiveInside(p: Parser, q: Parser, e: Itef, place: Place)
    requires Live(p, place) && Inside(p, q, e) && !e.disabled
    requires e.state == (if e.ifcond then ItefElse else ItefThen)
    ensures Live(q, InsideIf(place))
  {
  }

  lemma LiveLooped(p: Parser, q: Parser, l: Loop, place: Place)
    requires Live(p, place) && Looped(p, q, l) && l.state == LoopDo && l.enable && l.iendx == p.iendx
    ensures Live(q, Body)
  {
  }

  lemma BrokenSkips(p: Parser, q: Parser, b: Block, ifRoom: nat, loopRoom: nat)
    requires Settled(p) && Live(p, Body) && Same(Broken(p), q) && NoLoopHere(b)
    ensures Skips(q, b) && Settled(q)
    ensures Room(p, ifRoom, loopRoom) ==> Room(q, ifRoom, loopRoom)
  {
  }

  /** A statement that fits ends in `break` exactly if it is one, directly in a loop body. */
  lemma {:induction false} BrokeAt(s: Stmt, pos: nat, place: Place, r: Run, w: World, fuel: nat,
                                   ifRoom: nat, loopRoom: nat)
    requires FitsStmt(s, place, ifRoom, loopRoom)
    ensures ExecStmt(s, pos, place != Top, r, w, fuel).Broke? <==> s.Break? && place == Body
    decreases fuel, s
  {
    match s
    case Simple(_) =>
    case Break =>
    case If(_, _, thn, hasElse, els) =>
      var r1 := Run(r.trace + [Ran(pos, s.test)], false);
      NeverBroke(thn, pos + 2, InsideIf(place), r1, w, fuel, ifRoom - 1, loopRoom);
      if hasElse {
        NeverBroke(els, pos + 3 + |Compile(thn)|, InsideIf(place), r1, w, fuel, ifRoom - 1, loopRoom);
      }
    case Repeat(_, _, body) =>
      if fuel != 0 {
        var out := Exec(body, pos + 2, true, Run(r.trace + [Ran(pos, s.test)], false), w, fuel);
        if out.Normal? {
          BrokeAt(s, pos, place, out.run, w, fuel - 1, ifRoom, loopRoom);
        }
      }
  }

  lemma {:induction false} NeverBroke(b: Block, pos: nat, place: Place, r: Run, w: World, fuel: nat,
                                      ifRoom: nat, loopRoom: nat)
    requires Fits(b, place, ifRoom, loopRoom) && place != Body
    ensures !Exec(b, pos, place != Top, r, w, fuel).Broke?
    decreases fuel, b
  {
    if b.Cons? {
      BrokeAt(b.head, pos, place, r, w, fuel, ifRoom, loopRoom);
      var out := ExecStmt(b.head, pos, place != Top, r, w, fuel);
      if out.Normal? {
        NeverBroke(b.tail, pos + |CompileStmt(b.head)|, place, out.run, w, fuel, ifRoom, loopRoom);
      }
    }
  }

  lemma {:induction false} LiveBlock(sh: Shell, c: Config, b: Block, place: Place, ifRoom: nat, loopRoom: nat,
                                     fuel: nat)
    returns (n: nat, d: Config)
    requires Front(sh, c, Compile(b), ifRoom, loopRoom) && Worded(b) && Fits(b, place, ifRoom, loopRoom)
    requires Live(c.p, place)
    ensures Agrees(sh, c, |Compile(b)|, Exec(b, c.p.fpos, place != Top, Run(c.trace, c.p.fail), WorldOf(sh), fuel),
                   place, fuel, n, d)
    decreases fuel, b
  {
    hide Step, Steps, SavedInRange, At, ItefEnabled, LoopEnabled, ExecStmt, FitsStmt, CompileStmt;
    match b
    case Nil =>
      ReachZero(sh, c);
      SameRefl(c.p);
      n, d := 0, c;
    case Cons(s, rest) =>
      AtSplit(sh.script, c.p.fpos, CompileStmt(s), Compile(rest));
      var run := Run(c.trace, c.p.fail);
      var k, k1 := |Compile(b)|, |CompileStmt(s)|;
      var m, c1 := LiveStmt(sh, c, s, place, ifRoom, loopRoom, fuel);
      var out1 := ExecStmt(s, c.p.fpos, place != Top, run, WorldOf(sh), fuel);
      BrokeAt(s, c.p.fpos, place, run, WorldOf(sh), fuel, ifRoom, loopRoom);
      if out1.Normal? {
        LiveSame(c.p, c1.p, place);
        SameKeeps(c.p, c1.p, ifRoom, loopRoom);
        assert out1.run == Run(c1.trace, c1.p.fail);
        n, d := LiveBlock(sh, c1, rest, place, ifRoom, loopRoom, fuel);
        PutInFront(sh, c, k, Exec(rest, c1.p.fpos, place != Top, out1.run, WorldOf(sh), fuel), place, fuel,
                   m, c1, |Compile(rest)|, fuel, n, d);
        n := m + n;
      } else if out1.Broke? {
        BrokenSkips(c.p, c1.p, rest, ifRoom, loopRoom);
        d := SkipBlock(sh, c1, rest, ifRoom, loopRoom);
        n := m + |Compile(rest)|;
        ReachTrans(sh, c, m, c1, |Compile(rest)|, d);
        SameTrans(Broken(c.p), c1.p, d.p);
      } else {
        n, d := m, c1;
      }
  }

  lemma {:induction false} LiveStmt(sh: Shell, c: Config, s: Stmt, place: Place, ifRoom: nat, loopRoom: nat, fuel: nat)
    returns (n: nat, d: Config)
    requires Front(sh, c, CompileStmt(s), ifRoom, loopRoom) && WordedStmt(s) && FitsStmt(s, place, ifRoom, loopRoom)
    requires Live(c.p, place)
    ensures Agrees(sh, c, |CompileStmt(s)|,
                   ExecStmt(s, c.p.fpos, place != Top, Run(c.trace, c.p.fail), WorldOf(sh), fuel),
                   place, fuel, n, d)
    decreases fuel, s, 1
  {
    hide Steps, SavedInRange, At, Step;
    AtHead(sh.script, c.p.fpos, CompileStmt(s));
    match s
    case Simple(argv) =>
      LiveSimple(sh, c, argv, place, fuel);
      n, d := 1, Step(sh, c);
    case Break =>
      LiveBreak(sh, c, place, fuel);
      n, d := 1, Step(sh, c);
    case If(inverted, test, thn, hasElse, els) =>
      n, d := LiveIf(sh, c, s, place, ifRoom, loopRoom, fuel);
    case Repeat(until, test, body) =>
      n, d := LiveRepeat(sh, c, s, place, ifRoom, loopRoom, fuel);
  }

  lemma LiveSimple(sh: Shell, c: Config, argv: Line, place: Place, fuel: nat)
    requires Ready(sh, c, argv) && Settled(c.p) && LaidOut(sh) && PlainWords(argv) && Live(c.p, place)
    ensures Agrees(sh, c, 1, ExecStmt(Simple(argv), c.p.fpos, place != Top, Run(c.trace, c.p.fail), WorldOf(sh), fuel),
                   place, fuel, 1, Step(sh, c))
  {
    hide Step, Steps;
    StepSimple(sh, c, argv);
    ReachOne(sh, c);
  }

  lemma LiveBreak(sh: Shell, c: Config, place: Place, fuel: nat)
    requires Ready(sh, c, [KBreak]) && Settled(c.p) && Live(c.p, place) && place != Under
    ensures Agrees(sh, c, 1, ExecStmt(Break, c.p.fpos, place != Top, Run(c.trace, c.p.fail), WorldOf(sh), fuel),
                   place, fuel, 1, Step(sh, c))
  {
    hide Step, Steps;
    StepBreak(sh, c);
    ReachOne(sh, c);
  }

  /** The lines of an if statement behind the then-branch. */
  lemma {:induction false} SkipElse(sh: Shell, c: Config, s: Stmt, e: Itef, c2: Config,
                                    place: Place, ifRoom: nat, loopRoom: nat)
    returns (n: nat, d: Config)
    requires Front(sh, c, CompileStmt(s), ifRoom, loopRoom) && WordedStmt(s) && FitsStmt(s, place, ifRoom, loopRoom)
    requires s.If?
    requires StacksOk(c2.p) && !c2.aborted && Inside(c.p, c2.p, e)
    requires e.state == ItefThen && !e.ifcond
    requires c2.p.fpos == c.p.fpos + 2 + |Compile(s.thn)|
    ensures Reach(sh, c2, n, d) && !d.aborted && d.p.fpos == c.p.fpos + |CompileStmt(s)|
    ensures Same(c.p, d.p) && d.trace == c2.trace && d.p.fail == c2.p.fail
  {
    hide Step, Steps, StacksOk, At, Compile, CompileStmt, Reach, Same, Inside;
    AtIf(sh.script, c.p.fpos, s);
    if s.hasElse {
      var n2, e' := |Compile(s.els)|, e.(state := ItefElse);
      AtHead(sh.script, c2.p.fpos, [[KElse]]);
      var c3 := GoElse(sh, c, c2, e);
      InsideSettled(c.p, c3.p, e', ifRoom, loopRoom);
      FitsShallow(s.els, InsideIf(place), ifRoom - 1, loopRoom);
      BranchSkips(c.p, c3.p, e', s.els);
      var c4 := SkipBlock(sh, c3, s.els, ifRoom - 1, loopRoom);
      ReachTrans(sh, c2, 1, c3, n2, c4);
      InsideSame(c.p, c3.p, c4.p, e');
      AtHead(sh.script, c4.p.fpos, [[KFi]]);
      d := CloseIf(sh, c, c4, e');
      ReachTrans(sh, c2, 1 + n2, c4, 1, d);
      n := 2 + n2;
    } else {
      AtHead(sh.script, c2.p.fpos, [[KFi]]);
      d := CloseIf(sh, c, c2, e);
      n := 1;
    }
  }

  lemma {:induction false} LiveIf(sh: Shell, c: Config, s: Stmt, place: Place, ifRoom: nat, loopRoom: nat, fuel: nat)
    returns (n: nat, d: Config)
    requires Front(sh, c, CompileStmt(s), ifRoom, loopRoom) && WordedStmt(s) && FitsStmt(s, place, ifRoom, loopRoom)
    requires Live(c.p, place) && s.If?
    ensures Agrees(sh, c, |CompileStmt(s)|,
                   ExecStmt(s, c.p.fpos, place != Top, Run(c.trace, c.p.fail), WorldOf(sh), fuel),
                   place, fuel, n, d)
    decreases fuel, s, 0
  {
    hide Step, Steps, StacksOk, At, Compile, CompileStmt, Reach, Same, Inside, Exec, Fits, Worded;
    AtIf(sh.script, c.p.fpos, s);
    var cond := s.inverted != sh.status(|c.trace|);
    var e := Itef(ItefThen, false, cond, s.inverted);
    var n1 := |Compile(s.thn)|;
    var c1 := OpenIf(sh, c, s.inverted, s.test);
    InsideSettled(c.p, c1.p, e, ifRoom, loopRoom);
    if !cond {
      LiveInside(c.p, c1.p, e, place);
      var m, c2 := LiveBlock(sh, c1, s.thn, InsideIf(place), ifRoom - 1, loopRoom, fuel);
      var out := Exec(s.thn, c1.p.fpos, place != Top, Run(c1.trace, c1.p.fail), WorldOf(sh), fuel);
      if out.Normal? {
        ReachTrans(sh, c, 2, c1, m, c2);
        InsideSame(c.p, c1.p, c2.p, e);
        var m2;
        m2, d := SkipElse(sh, c, s, e, c2, place, ifRoom, loopRoom);
        ReachTrans(sh, c, 2 + m, c2, m2, d);
        n := 2 + m + m2;
      } else {
        PassOut(sh, c, |CompileStmt(s)|, out, place, fuel, 2, c1, n1, InsideIf(place), fuel, m, c2);
        n, d := 2 + m, c2;
      }
    } else {
      n, d := LiveElse(sh, c, s, c1, place, ifRoom, loopRoom, fuel);
    }
  }

  /** The then-branch is not taken. */
  lemma {:induction false} LiveElse(sh: Shell, c: Config, s: Stmt, c1: Config,
                                    place: Place, ifRoom: nat, loopRoom: nat, fuel: nat)
    returns (n: nat, d: Config)
    requires Front(sh, c, CompileStmt(s), ifRoom, loopRoom) && WordedStmt(s) && FitsStmt(s, place, ifRoom, loopRoom)
    requires Live(c.p, place) && s.If? && s.inverted != sh.status(|c.trace|)
    requires Reach(sh, c, 2, c1) && !c1.aborted && c1.p.fpos == c.p.fpos + 2
    requires Inside(c.p, c1.p, Itef(ItefThen, false, true, s.inverted))
    requires c1.trace == c.trace + [Ran(c.p.fpos, s.test)] && !c1.p.fail
    ensures Agrees(sh, c, |CompileStmt(s)|,
                   ExecStmt(s, c.p.fpos, place != Top, Run(c.trace, c.p.fail), WorldOf(sh), fuel),
                   place, fuel, n, d)
    decreases fuel, s, 0, 0
  {
    hide Step, Steps, StacksOk, At, Compile, CompileStmt, Reach, Same, Inside, Exec, Fits, Worded;
    AtIf(sh.script, c.p.fpos, s);
    var e := Itef(ItefThen, false, true, s.inverted);
    var n1 := |Compile(s.thn)|;
    InsideSettled(c.p, c1.p, e, ifRoom, loopRoom);
    FitsShallow(s.thn, InsideIf(place), ifRoom - 1, loopRoom);
    BranchSkips(c.p, c1.p, e, s.thn);
    var c2 := SkipBlock(sh, c1, s.thn, ifRoom - 1, loopRoom);
    ReachTrans(sh, c, 2, c1, n1, c2);
    InsideSame(c.p, c1.p, c2.p, e);
    if s.hasElse {
      AtHead(sh.script, c2.p.fpos, [[KElse]]);
      var c3 := GoElse(sh, c, c2, e);
      ReachTrans(sh, c, 2 + n1, c2, 1, c3);
      n, d := LiveElseBranch(sh, c, s, c3, place, ifRoom, loopRoom, fuel);
    } else {
      AtHead(sh.script, c2.p.fpos, [[KFi]]);
      d := CloseIf(sh, c, c2, e);
      ReachTrans(sh, c, 2 + n1, c2, 1, d);
      n := 3 + n1;
    }
  }

  /** The else-branch is run. */
  lemma {:induction false} LiveElseBranch(sh: Shell, c: Config, s: Stmt, c1: Config,
                                          place: Place, ifRoom: nat, loopRoom: nat, fuel: nat)
    returns (n: nat, d: Config)
    requires Front(sh, c, CompileStmt(s), ifRoom, loopRoom) && WordedStmt(s) && FitsStmt(s, place, ifRoom, loopRoom)
    requires Live(c.p, place) && s.If? && s.hasElse && s.inverted != sh.status(|c.trace|)
    requires Reach(sh, c, 3 + |Compile(s.thn)|, c1) && !c1.aborted && c1.p.fpos == c.p.fpos + 3 + |Compile(s.thn)|
    requires Inside(c.p, c1.p, Itef(ItefElse, false, true, s.inverted))
    requires c1.trace == c.trace + [Ran(c.p.fpos, s.test)] && !c1.p.fail
    ensures Agrees(sh, c, |CompileStmt(s)|,
                   ExecStmt(s, c.p.fpos, place != Top, Run(c.trace, c.p.fail), WorldOf(sh), fuel),
                   place, fuel, n, d)
    decreases fuel, s, 0, 0, 0
  {
    hide Step, Steps, StacksOk, At, Compile, CompileStmt, Reach, Same, Inside, Exec, Fits, Worded;
    AtIf(sh.script, c.p.fpos, s);
    var e := Itef(ItefElse, false, true, s.inverted);
    var n1 := 3 + |Compile(s.thn)|;
    InsideSettled(c.p, c1.p, e, ifRoom, loopRoom);
    LiveInside(c.p, c1.p, e, place);
    var m, c2 := LiveBlock(sh, c1, s.els, InsideIf(place), ifRoom - 1, loopRoom, fuel);
    var out := Exec(s.els, c1.p.fpos, place != Top, Run(c1.trace, c1.p.fail), WorldOf(sh), fuel);
    if out.Normal? {
      ReachTrans(sh, c, n1, c1, m, c2);
      InsideSame(c.p, c1.p, c2.p, e);
      AtHead(sh.script, c2.p.fpos, [[KFi]]);
      d := CloseIf(sh, c, c2, e);
      ReachTrans(sh, c, n1 + m, c2, 1, d);
      n := n1 + m + 1;
    } else {
      PassOut(sh, c, |CompileStmt(s)|, out, place, fuel, n1, c1, |Compile(s.els)|, InsideIf(place), fuel, m, c2);
      n, d := n1 + m, c2;
    }
  }

  lemma {:induction false} LiveRepeat(sh: Shell, c: Config, s: Stmt, place: Place, ifRoom: nat, loopRoom: nat,
                                      fuel: nat)
    returns (n: nat, d: Config)
    requires Front(sh, c, CompileStmt(s), ifRoom, loopRoom) && WordedStmt(s) && FitsStmt(s, place, ifRoom, loopRoom)
    requires Live(c.p, place) && s.Repeat?
    ensures Agrees(sh, c, |CompileStmt(s)|,
                   ExecStmt(s, c.p.fpos, place != Top, Run(c.trace, c.p.fail), WorldOf(sh), fuel),
                   place, fuel, n, d)
    decreases fuel, s, 0
  {
    hide Step, Steps, StacksOk, At, Compile, CompileStmt, Reach, Same, Looped, Exec, Fits, Worded;
    AtRepeat(sh.script, c.p.fpos, s);
    var enable := sh.status(|c.trace|) == s.until;
    var l := Loop(LoopDo, enable, c.p.iendx, c.p.fpos);
    var k := |Compile(s.body)|;
    var c1 := OpenLoop(sh, c, s.until, s.test);
    LoopedSettled(c.p, c1.p, l, ifRoom, loopRoom);
    if !enable {
      FitsShallow(s.body, Body, ifRoom, loopRoom - 1);
      BodySkips(c.p, c1.p, l, s.body);
      var c2 := SkipBlock(sh, c1, s.body, ifRoom, loopRoom - 1);
      ReachTrans(sh, c, 2, c1, k, c2);
      LoopedSame(c.p, c1.p, c2.p, l);
      AtHead(sh.script, c2.p.fpos, [[KDone]]);
      d := CloseLoop(sh, c, c2, l);
      ReachTrans(sh, c, 2 + k, c2, 1, d);
      n := 3 + k;
    } else if fuel == 0 {
      n, d := 2, c1;
      AtHead(sh.script, c.p.fpos + 2 + k, [[KDone]]);
    } else {
      n, d := LiveIterate(sh, c, s, c1, place, ifRoom, loopRoom, fuel);
    }
  }

  /** The loop test told to run the body. */
  lemma {:induction false} LiveIterate(sh: Shell, c: Config, s: Stmt, c1: Config,
                                       place: Place, ifRoom: nat, loopRoom: nat, fuel: nat)
    returns (n: nat, d: Config)
    requires Front(sh, c, CompileStmt(s), ifRoom, loopRoom) && WordedStmt(s) && FitsStmt(s, place, ifRoom, loopRoom)
    requires Live(c.p, place) && s.Repeat? && sh.status(|c.trace|) == s.until && 0 < fuel
    requires Reach(sh, c, 2, c1) && !c1.aborted && c1.p.fpos == c.p.fpos + 2
    requires Looped(c.p, c1.p, Loop(LoopDo, true, c.p.iendx, c.p.fpos))
    requires c1.trace == c.trace + [Ran(c.p.fpos, s.test)] && !c1.p.fail
    ensures Agrees(sh, c, |CompileStmt(s)|,
                   ExecStmt(s, c.p.fpos, place != Top, Run(c.trace, c.p.fail), WorldOf(sh), fuel),
                   place, fuel, n, d)
    decreases fuel, s, 0, 0
  {
    hide Step, Steps, StacksOk, At, Compile, CompileStmt, Reach, Same, Looped, Exec, Fits, Worded;
    AtRepeat(sh.script, c.p.fpos, s);
    var l := Loop(LoopDo, true, c.p.iendx, c.p.fpos);
    LoopedSettled(c.p, c1.p, l, ifRoom, loopRoom);
    LiveLooped(c.p, c1.p, l, place);
    var m, c2 := LiveBlock(sh, c1, s.body, Body, ifRoom, loopRoom - 1, fuel);
    var out := Exec(s.body, c1.p.fpos, true, Run(c1.trace, c1.p.fail), WorldOf(sh), fuel);
    match out
    case Normal(r) =>
      ReachTrans(sh, c, 2, c1, m, c2);
      LoopedSame(c.p, c1.p, c2.p, l);
      n, d := LiveAgain(sh, c, s, c2, 2 + m, place, ifRoom, loopRoom, fuel);
    case Broke(r) =>
      ReachTrans(sh, c, 2, c1, m, c2);
      LoopedBroken(c.p, c1.p, c2.p, l);
      AtHead(sh.script, c2.p.fpos, [[KDone]]);
      d := CloseLoop(sh, c, c2, l.(enable := false));
      ReachTrans(sh, c, 2 + m, c2, 1, d);
      n := 3 + m;
    case _ =>
      PassOut(sh, c, |CompileStmt(s)|, out, place, fuel, 2, c1, |Compile(s.body)|, Body, fuel, m, c2);
      n, d := 2 + m, c2;
  }

  /** The body was run to its end: `done` goes back to the head. */
  lemma {:induction false} LiveAgain(sh: Shell, c: Config, s: Stmt, c2: Config, m: nat,
                                     place: Place, ifRoom: nat, loopRoom: nat, fuel: nat)
    returns (n: nat, d: Config)
    requires Front(sh, c, CompileStmt(s), ifRoom, loopRoom) && WordedStmt(s) && FitsStmt(s, place, ifRoom, loopRoom)
    requires Live(c.p, place) && s.Repeat? && 0 < fuel
    requires Reach(sh, c, m, c2) && StacksOk(c2.p) && !c2.aborted && c2.p.fpos == c.p.fpos + 2 + |Compile(s.body)|
    requires Looped(c.p, c2.p, Loop(LoopDo, true, c.p.iendx, c.p.fpos))
    ensures Agrees(sh, c, |CompileStmt(s)|,
                   ExecStmt(s, c.p.fpos, place != Top, Run(c2.trace, c2.p.fail), WorldOf(sh), fuel - 1),
                   place, fuel, n, d)
    decreases fuel, s, 0, 0, 0
  {
    hide Step, Steps, StacksOk, At, Compile, CompileStmt, Reach, Same, Looped, ExecStmt, FitsStmt, WordedStmt;
    AtRepeat(sh.script, c.p.fpos, s);
    AtHead(sh.script, c2.p.fpos, [[KDone]]);
    var c3 := CloseLoop(sh, c, c2, Loop(LoopDo, true, c.p.iendx, c.p.fpos));
    ReachTrans(sh, c, m, c2, 1, c3);
    SameKeeps(c.p, c3.p, ifRoom, loopRoom);
    LiveSame(c.p, c3.p, place);
    n, d := LiveStmt(sh, c3, s, place, ifRoom, loopRoom, fuel - 1);
    PutInFront(sh, c, |CompileStmt(s)|,
               ExecStmt(s, c3.p.fpos, place != Top, Run(c3.trace, c3.p.fail), WorldOf(sh), fuel - 1),
               place, fuel, m + 1, c3, |CompileStmt(s)|, fuel - 1, n, d);
    n := m + 1 + n;
  }

  lemma LoopedBroken(p: Parser, q: Parser, q': Parser, l: Loop)
    requires Looped(p, q, l) && Same(Broken(q), q')
    ensures Looped(p, q', l.(enable := false))
    ensures StacksOk(q) ==> StacksOk(q')
  {
  }
}
