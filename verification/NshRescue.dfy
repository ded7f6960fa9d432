/** A script that does not fit and is run faithfully all the same: a `break` inside an `if`
    makes the machine lose count, and a `break` of the enclosing loop makes up for it. */
module NshRescue {
  import opened NshControl
  import opened NshScript
  import opened NshStructured
  import opened NshSteps
  import opened NshWalk
  import opened NshSkip
  import opened NshMeaning
  import opened NshFaults
  import opened NshDrift
  import opened NshExact
  import opened NshTheorems

  /** while b; do; if c; then; break; fi; done */
  function Inner(b: Line, c: Line): Stmt {
    Repeat(false, b, Cons(If(false, c, Cons(Break, Nil), false, Nil), Nil))
  }

  /** if a; then; (inner loop); fi */
  function Middle(a: Line, b: Line, c: Line): Stmt {
    If(false, a, Cons(Inner(b, c), Nil), false, Nil)
  }

  /** while x; do; (middle); break; done */
  function Outer(x: Line, a: Line, b: Line, c: Line): Stmt {
    Repeat(false, x, Cons(Middle(a, b, c), Cons(Break, Nil)))
  }

  /** if z; then; (outer loop); fi */
  function Rescued(z: Line, x: Line, a: Line, b: Line, c: Line): Block {
    Cons(If(false, z, Cons(Outer(x, a, b, c), Nil), false, Nil), Nil)
  }

  /** The stacks are as before, except that one open `if` may have been forgotten. */
  predicate Near(p: Parser, q: Parser) {
    && InRange(p) && InRange(q) && (q.iendx == p.iendx || q.iendx + 1 == p.iendx)
    && q.lpndx == p.lpndx && |q.iestate| == |p.iestate|
    && (forall i | 0 <= i <= p.iendx :: q.iestate[i] == p.iestate[i])
    && (forall i | 0 <= i <= p.lpndx :: q.lpstate[i] == p.lpstate[i])
  }

  lemma SameNear(p: Parser, q: Parser)
    requires Same(p, q)
    ensures Near(p, q)
  {
  }

  lemma NearTrans(p: Parser, q: Parser, r: Parser)
    requires Same(p, q) && Near(q, r)
    ensures Near(p, r)
  {
  }

  /** A part of the run that ends as its meaning says. */
  predicate Runs(sh: Shell, c: Config, k: nat, r: Run, n: nat, d: Config) {
    Reach(sh, c, n, d) && StacksOk(d.p) && Ended(c, k, r, d)
  }

  // ---- The inner loop ----

  lemma InnerShape(b: Line, c: Line)
    ensures Shallow(Inner(b, c).body, 1, 0) && NoLoopHere(Inner(b, c).body)
    ensures PlainWords(b) && PlainWords(c) ==> WordedStmt(Inner(b, c)) && Worded(Inner(b, c).body)
  {
    var body := Inner(b, c).body;
    assert Shallow(body.head.thn, 0, 0) && ShallowStmt(body.head, 1, 0);
    assert Worded(body.head.thn);
  }

  lemma {:induction false} InnerRuns(sh: Shell, c: Config, b: Line, t: Line, fuel: nat) returns (n: nat, d: Config)
    requires Front(sh, c, CompileStmt(Inner(b, t)), 1, 1) && Live(c.p, Under) && Upright(c.p) && 1 <= c.p.iendx
    requires PlainWords(b) && PlainWords(t)
    ensures
      var s := Inner(b, t);
      var out := ExecStmt(s, c.p.fpos, true, Run(c.trace, c.p.fail), WorldOf(sh), fuel);
      out.Unfinished? || (out.Normal? && Runs(sh, c, |CompileStmt(s)|, out.run, n, d) && Near(c.p, d.p))
    decreases fuel
  {
    hide Step, Steps, At, StacksOk, Compile, CompileStmt, Reach, Looped, Same, Near, Upright;
    StacksInRange(c.p);
    var s := Inner(b, t);
    var k := |Compile(s.body)|;
    InnerShape(b, t);
    AtRepeat(sh.script, c.p.fpos, s);
    var enable := !sh.status(|c.trace|);
    var l := Loop(LoopDo, enable, c.p.iendx, c.p.fpos);
    var c1 := OpenLoop(sh, c, false, b);
    LoopedSettled(c.p, c1.p, l, 1, 1);
    if !enable {
      BodySkips(c.p, c1.p, l, s.body);
      var c2 := SkipBlock(sh, c1, s.body, 1, 0);
      ReachTrans(sh, c, 2, c1, k, c2);
      LoopedSame(c.p, c1.p, c2.p, l);
      AtHead(sh.script, c2.p.fpos, [[KDone]]);
      d := CloseLoop(sh, c, c2, l);
      ReachTrans(sh, c, 2 + k, c2, 1, d);
      n := 3 + k;
      SameKeeps(c.p, d.p, 0, 0);
      SameNear(c.p, d.p);
    } else if fuel == 0 {
      n, d := 0, c;
    } else {
      n, d := InnerBody(sh, c, b, t, c1, fuel);
    }
  }

  /** One turn of the inner loop. */
  lemma {:induction false} InnerBody(sh: Shell, c: Config, b: Line, t: Line, c1: Config, fuel: nat)
    returns (n: nat, d: Config)
    requires Front(sh, c, CompileStmt(Inner(b, t)), 1, 1) && Live(c.p, Under) && Upright(c.p) && 1 <= c.p.iendx
    requires PlainWords(b) && PlainWords(t) && !sh.status(|c.trace|) && 0 < fuel
    requires Reach(sh, c, 2, c1) && !c1.aborted && c1.p.fpos == c.p.fpos + 2
    requires Looped(c.p, c1.p, Loop(LoopDo, true, c.p.iendx, c.p.fpos))
    requires c1.trace == c.trace + [Ran(c.p.fpos, b)] && !c1.p.fail
    ensures
      var s := Inner(b, t);
      var out := ExecStmt(s, c.p.fpos, true, Run(c.trace, c.p.fail), WorldOf(sh), fuel);
      out.Unfinished? || (out.Normal? && Runs(sh, c, |CompileStmt(s)|, out.run, n, d) && Near(c.p, d.p))
    decreases fuel, 0
  {
    hide Step, Steps, At, StacksOk, Compile, CompileStmt, Reach, Looped, Same, Near, Upright, Inside;
    StacksInRange(c.p);
    var s, i := Inner(b, t), Inner(b, t).body.head;
    var l := Loop(LoopDo, true, c.p.iendx, c.p.fpos);
    AtRepeat(sh.script, c.p.fpos, s);
    CompileOne(i);
    AtIf(sh.script, c1.p.fpos, i);
    LoopedSettled(c.p, c1.p, l, 1, 1);
    LiveLooped(c.p, c1.p, l, Under);
    var e := Itef(ItefThen, false, sh.status(|c1.trace|), false);
    var c2 := OpenIf(sh, c1, false, t);
    ReachTrans(sh, c, 2, c1, 2, c2);
    InsideSettled(c1.p, c2.p, e, 1, 0);
    if !sh.status(|c1.trace|) {
      n, d := InnerLeaves(sh, c, b, t, c1, c2);
      InnerMeant(b, t, c.p.fpos, Run(c.trace, c.p.fail), WorldOf(sh), fuel);
    } else {
      var m, c3 := InnerStays(sh, c, b, t, c1, c2);
      SameKeeps(c.p, c3.p, 1, 1);
      LiveSame(c.p, c3.p, Under);
      UprightSame(c.p, c3.p);
      SameIfs(c.p, c3.p);
      InnerMeant(b, t, c.p.fpos, Run(c.trace, c.p.fail), WorldOf(sh), fuel);
      n, d := InnerRuns(sh, c3, b, t, fuel - 1);
      var out := ExecStmt(s, c.p.fpos, true, Run(c3.trace, c3.p.fail), WorldOf(sh), fuel - 1);
      if out.Normal? {
        ReachTrans(sh, c, m, c3, n, d);
        n := m + n;
        NearTrans(c.p, c3.p, d.p);
      }
    }
  }

  lemma CompileOne(s: Stmt)
    ensures Compile(Cons(s, Nil)) == CompileStmt(s)
  {
    assert Compile(Nil) == [];
  }

  /** What one turn of the inner loop means. */
  lemma InnerMeant(b: Line, t: Line, pos: nat, r: Run, w: World, fuel: nat)
    requires !w.status(|r.trace|) && 0 < fuel
    ensures var r2 := Run(r.trace + [Ran(pos, b)] + [Ran(pos + 2, t)], false);
            ExecStmt(Inner(b, t), pos, true, r, w, fuel) ==
              if !w.status(|r.trace| + 1) then Normal(r2) else ExecStmt(Inner(b, t), pos, true, r2, w, fuel - 1)
  {
    var s := Inner(b, t);
    var i := s.body.head;
    var r1 := Run(r.trace + [Ran(pos, b)], false);
    var r2 := Run(r1.trace + [Ran(pos + 2, t)], false);
    assert Exec(i.thn, pos + 4, true, r2, w, fuel) == Broke(r2);
    assert ExecStmt(i, pos + 2, true, r1, w, fuel) == if !w.status(|r1.trace|) then Broke(r2) else Normal(r2);
    assert Exec(s.body, pos + 2, true, r1, w, fuel) == if !w.status(|r1.trace|) then Broke(r2) else Normal(r2) by {
      assert Exec(s.body.tail, pos + 2 + |CompileStmt(i)|, true, r2, w, fuel) == Normal(r2);
    }
  }

  /** The `break` is met: it leaves the loop, and `fi` then takes the entry of the `if` around
      the loop. */
  lemma InnerLeaves(sh: Shell, c: Config, b: Line, t: Line, c1: Config, c2: Config) returns (n: nat, d: Config)
    requires LaidOut(sh) && At(sh.script, c.p.fpos, CompileStmt(Inner(b, t)))
    requires Settled(c.p) && Live(c.p, Under) && Upright(c.p) && 1 <= c.p.iendx
    requires Looped(c.p, c1.p, Loop(LoopDo, true, c.p.iendx, c.p.fpos)) && Settled(c1.p)
    requires Inside(c1.p, c2.p, Itef(ItefThen, false, false, false)) && Settled(c2.p)
    requires Reach(sh, c, 4, c2) && !c2.aborted && c2.p.fpos == c.p.fpos + 4 && !c2.p.fail
    ensures Runs(sh, c, |CompileStmt(Inner(b, t))|, Run(c2.trace, false), n, d) && Near(c.p, d.p)
  {
    hide Step, Steps, At, SavedInRange, Compile, CompileStmt, Reach;
    var s, i := Inner(b, t), Inner(b, t).body.head;
    AtRepeat(sh.script, c.p.fpos, s);
    CompileOne(i);
    AtIf(sh.script, c.p.fpos + 2, i);
    CompileOne(Break);
    BreakLine(sh.script, c.p.fpos + 4);
    AtHead(sh.script, c.p.fpos + 5, [[KFi]]);
    AtHead(sh.script, c.p.fpos + 6, [[KDone]]);
    BreakOut(c.p, c1.p, c2.p);
    StepBreakLive(sh, c2);
    ReachOne(sh, c2);
    var c3 := Step(sh, c2);
    ReachTrans(sh, c, 4, c2, 1, c3);
    StepFi(sh, c3);
    ReachOne(sh, c3);
    var c4 := Step(sh, c3);
    ReachTrans(sh, c, 5, c3, 1, c4);
    StepDone(sh, c4);
    ReachOne(sh, c4);
    d := Step(sh, c4);
    ReachTrans(sh, c, 6, c4, 1, d);
    n := 7;
  }

  lemma BreakLine(script: seq<Command>, pos: nat)
    requires At(script, pos, Compile(Cons(Break, Nil)))
    ensures pos < |script| && script[pos].words == [KBreak] && |Compile(Cons(Break, Nil))| == 1
  {
    CompileOne(Break);
    AtHead(script, pos, [[KBreak]]);
  }

  /** The stacks around the `break` of the inner loop. */
  lemma BreakOut(p: Parser, q: Parser, r: Parser)
    requires Settled(p) && Live(p, Under) && Upright(p) && 1 <= p.iendx
    requires Looped(p, q, Loop(LoopDo, true, p.iendx, p.fpos)) && Settled(q)
    requires Inside(q, r, Itef(ItefThen, false, false, false)) && Settled(r)
    ensures Live(r, Under) && Settled(CmdBreak(r)) && CmdBreak(r).iendx == p.iendx
    ensures TopItef(CmdBreak(r)).state in {ItefThen, ItefElse}
  {
    hide SavedInRange;
    BreakKeepsStacks(r);
    UprightTop(p);
    assert r.iestate[p.iendx] == p.iestate[p.iendx];
  }

  /** The `break` is not met and the loop goes on. */
  lemma InnerStays(sh: Shell, c: Config, b: Line, t: Line, c1: Config, c2: Config) returns (n: nat, d: Config)
    requires LaidOut(sh) && At(sh.script, c.p.fpos, CompileStmt(Inner(b, t)))
    requires Settled(c.p) && Room(c1.p, 1, 0) && Settled(c1.p)
    requires Looped(c.p, c1.p, Loop(LoopDo, true, c.p.iendx, c.p.fpos))
    requires Inside(c1.p, c2.p, Itef(ItefThen, false, true, false)) && Settled(c2.p) && Room(c2.p, 0, 0)
    requires Reach(sh, c, 4, c2) && !c2.aborted && c1.p.fpos == c.p.fpos + 2 && c2.p.fpos == c.p.fpos + 4
    ensures Reach(sh, c, n, d) && !d.aborted && d.p.fpos == c.p.fpos && Same(c.p, d.p)
    ensures d.trace == c2.trace && d.p.fail == c2.p.fail
  {
    hide Step, Steps, At, SavedInRange, Compile, CompileStmt, Reach, Looped, Same, Inside;
    var s, i := Inner(b, t), Inner(b, t).body.head;
    var l, e := Loop(LoopDo, true, c.p.iendx, c.p.fpos), Itef(ItefThen, false, true, false);
    AtRepeat(sh.script, c.p.fpos, s);
    CompileOne(i);
    AtIf(sh.script, c.p.fpos + 2, i);
    BreakLine(sh.script, c.p.fpos + 4);
    BranchSkips(c1.p, c2.p, e, i.thn);
    assert Shallow(i.thn, 0, 0) && Worded(i.thn);
    var c3 := SkipBlock(sh, c2, i.thn, 0, 0);
    ReachTrans(sh, c, 4, c2, 1, c3);
    InsideSame(c1.p, c2.p, c3.p, e);
    AtHead(sh.script, c3.p.fpos, [[KFi]]);
    var c4 := CloseIf(sh, c1, c3, e);
    ReachTrans(sh, c, 5, c3, 1, c4);
    LoopedSame(c.p, c1.p, c4.p, l);
    AtHead(sh.script, c4.p.fpos, [[KDone]]);
    d := CloseLoop(sh, c, c4, l);
    ReachTrans(sh, c, 6, c4, 1, d);
    n := 7;
  }

  // ---- Around it ----

  lemma MiddleShape(a: Line, b: Line, t: Line)
    requires PlainWords(a) && PlainWords(b) && PlainWords(t)
    ensures WordedStmt(Middle(a, b, t)) && Worded(Middle(a, b, t).thn)
    ensures Shallow(Middle(a, b, t).thn, 1, 1) && Shallow(Cons(Middle(a, b, t), Cons(Break, Nil)), 2, 1)
    ensures Worded(Cons(Middle(a, b, t), Cons(Break, Nil))) && NoLoopHere(Cons(Middle(a, b, t), Cons(Break, Nil)))
  {
    hide Inner;
    InnerShape(b, t);
    InnerRooms(b, t);
    var thn := Middle(a, b, t).thn;
    assert Shallow(thn, 1, 1) && Worded(thn);
    assert ShallowStmt(Middle(a, b, t), 2, 1);
    assert Shallow(Cons(Break, Nil), 2, 1) && Worded(Cons(Break, Nil)) && NoLoopHere(Cons(Break, Nil));
  }

  lemma InnerRooms(b: Line, t: Line)
    ensures ShallowStmt(Inner(b, t), 1, 1)
  {
    InnerShape(b, t);
  }

  /** The middle `if`: one more `fi`, which may take one more entry. */
  lemma MiddleRuns(sh: Shell, c: Config, a: Line, b: Line, t: Line, fuel: nat) returns (n: nat, d: Config)
    requires Front(sh, c, CompileStmt(Middle(a, b, t)), 2, 1) && Live(c.p, Body) && Upright(c.p) && 1 <= c.p.iendx
    requires PlainWords(a) && PlainWords(b) && PlainWords(t)
    ensures
      var s := Middle(a, b, t);
      var out := ExecStmt(s, c.p.fpos, true, Run(c.trace, c.p.fail), WorldOf(sh), fuel);
      out.Unfinished? || (out.Normal? && Runs(sh, c, |CompileStmt(s)|, out.run, n, d) && Near(c.p, d.p))
  {
    hide Step, Steps, At, StacksOk, Compile, CompileStmt, Reach, Inside, Same, Near, Upright, Inner;
    StacksInRange(c.p);
    var s, i := Middle(a, b, t), Inner(b, t);
    var k := |Compile(s.thn)|;
    MiddleShape(a, b, t);
    AtIf(sh.script, c.p.fpos, s);
    var cond := sh.status(|c.trace|);
    var e := Itef(ItefThen, false, cond, false);
    var c1 := OpenIf(sh, c, false, a);
    InsideSettled(c.p, c1.p, e, 2, 1);
    if cond {
      BranchSkips(c.p, c1.p, e, s.thn);
      var c2 := SkipBlock(sh, c1, s.thn, 1, 1);
      ReachTrans(sh, c, 2, c1, k, c2);
      InsideSame(c.p, c1.p, c2.p, e);
      AtHead(sh.script, c2.p.fpos, [[KFi]]);
      d := CloseIf(sh, c, c2, e);
      ReachTrans(sh, c, 2 + k, c2, 1, d);
      n := 3 + k;
      SameKeeps(c.p, d.p, 0, 0);
      SameNear(c.p, d.p);
    } else {
      CompileOne(i);
      LiveInside(c.p, c1.p, e, Body);
      UprightInside(c.p, c1.p, e);
      InsideDeeper(c.p, c1.p, e);
      var m, c2 := InnerRuns(sh, c1, b, t, fuel);
      var out := ExecStmt(i, c1.p.fpos, true, Run(c1.trace, c1.p.fail), WorldOf(sh), fuel);
      BlockOfOne(i, c1.p.fpos, true, Run(c1.trace, c1.p.fail), WorldOf(sh), fuel);
      if out.Unfinished? {
        n, d := 0, c;
      } else {
        ReachTrans(sh, c, 2, c1, m, c2);
        AtHead(sh.script, c2.p.fpos, [[KFi]]);
        d := MiddleCloses(sh, c, c1, c2, e);
        ReachTrans(sh, c, 2 + m, c2, 1, d);
        n := 3 + m;
      }
    }
  }

  lemma BlockOfOne(s: Stmt, pos: nat, within: bool, r: Run, w: World, fuel: nat)
    ensures Exec(Cons(s, Nil), pos, within, r, w, fuel) == ExecStmt(s, pos, within, r, w, fuel)
  {
    hide ExecStmt;
    var out := ExecStmt(s, pos, within, r, w, fuel);
    if out.Normal? {
      assert Exec(Nil, pos + |CompileStmt(s)|, within, out.run, w, fuel) == Normal(out.run);
    }
  }

  lemma MiddleCloses(sh: Shell, c: Config, c1: Config, c2: Config, e: Itef) returns (d: Config)
    requires Settled(c.p) && Upright(c.p) && 1 <= c.p.iendx && Inside(c.p, c1.p, e) && e.state == ItefThen
    requires Near(c1.p, c2.p) && Ready(sh, c2, [KFi])
    ensures Reach(sh, c2, 1, d) && StacksOk(d.p) && !d.aborted && d.p.fpos == c2.p.fpos + 1
    ensures d.trace == c2.trace && d.p.fail == c2.p.fail && Near(c.p, d.p)
  {
    hide Step, Steps, SavedInRange;
    assert EntryLive(c.p.iestate[c.p.iendx]);
    assert c2.p.iestate[c.p.iendx] == c.p.iestate[c.p.iendx];
    StepFi(sh, c2);
    ReachOne(sh, c2);
    d := Step(sh, c2);
  }

  /** The `break` of the outer loop makes up for what was forgotten. */
  lemma BreakRestores(sh: Shell, c: Config, c1: Config)
    requires Settled(c.p) && Live(c.p, Body) && Upright(c.p) && 1 <= c.p.iendx
    requires Near(c.p, c1.p) && Ready(sh, c1, [KBreak])
    ensures var d := Step(sh, c1);
            && !d.aborted && d.p.fpos == c1.p.fpos + 1 && d.trace == c1.trace && !d.p.fail
            && StacksOk(d.p) && Same(Broken(c.p), d.p)
  {
    hide Step, SavedInRange;
    NearLive(c.p, c1.p);
    BreakKeepsStacks(c1.p);
    StepBreakLive(sh, c1);
  }

  lemma NearLive(p: Parser, q: Parser)
    requires Settled(p) && Live(p, Body) && Upright(p) && 1 <= p.iendx && Near(p, q) && StacksOk(q)
    ensures Settled(q) && Live(q, Under) && Settled(CmdBreak(q))
  {
    hide SavedInRange;
    UprightTop(p);
    assert forall j | 1 <= j <= q.iendx :: q.iestate[j] == p.iestate[j];
    UprightTop(q);
    BreakKeepsStacks(q);
  }

  lemma {:induction false} BodyRuns(sh: Shell, c: Config, a: Line, b: Line, t: Line, fuel: nat)
    returns (n: nat, d: Config)
    requires Front(sh, c, Compile(Cons(Middle(a, b, t), Cons(Break, Nil))), 2, 1)
    requires Live(c.p, Body) && Upright(c.p) && 1 <= c.p.iendx && PlainWords(a) && PlainWords(b) && PlainWords(t)
    ensures
      var body := Cons(Middle(a, b, t), Cons(Break, Nil));
      var out := Exec(body, c.p.fpos, true, Run(c.trace, c.p.fail), WorldOf(sh), fuel);
      out.Unfinished? || (out.Broke? && Runs(sh, c, |Compile(body)|, out.run, n, d) && Same(Broken(c.p), d.p))
  {
    hide Step, Steps, At, SavedInRange, CompileStmt, Reach, Same, Near, Upright, Middle, ExecStmt;
    var s, rest := Middle(a, b, t), Cons(Break, Nil);
    CompileOne(Break);
    CompileBreakStmt();
    assert Compile(Cons(s, rest)) == CompileStmt(s) + Compile(rest);
    AtSplit(sh.script, c.p.fpos, CompileStmt(s), Compile(rest));
    BreakLine(sh.script, c.p.fpos + |CompileStmt(s)|);
    var m, c1 := MiddleRuns(sh, c, a, b, t, fuel);
    var out := ExecStmt(s, c.p.fpos, true, Run(c.trace, c.p.fail), WorldOf(sh), fuel);
    if out.Unfinished? {
      n, d := 0, c;
    } else {
      BreakRestores(sh, c, c1);
      ReachOne(sh, c1);
      d := Step(sh, c1);
      ReachTrans(sh, c, m, c1, 1, d);
      n := m + 1;
      BreakMeant(c1.p.fpos, out.run, WorldOf(sh), fuel);
    }
  }

  lemma CompileBreakStmt()
    ensures CompileStmt(Break) == [[KBreak]]
  {
  }

  lemma BreakMeant(pos: nat, r: Run, w: World, fuel: nat)
    ensures Exec(Cons(Break, Nil), pos, true, r, w, fuel) == Broke(r.(fail := false))
  {
  }

  /** The outer loop is run as it is meant. */
  lemma OuterRuns(sh: Shell, c: Config, x: Line, a: Line, b: Line, t: Line, fuel: nat) returns (n: nat, d: Config)
    requires Front(sh, c, CompileStmt(Outer(x, a, b, t)), 2, 2) && Live(c.p, Top) && Upright(c.p) && 1 <= c.p.iendx
    requires PlainWords(x) && PlainWords(a) && PlainWords(b) && PlainWords(t)
    ensures
      var s := Outer(x, a, b, t);
      var out := ExecStmt(s, c.p.fpos, false, Run(c.trace, c.p.fail), WorldOf(sh), fuel);
      out.Unfinished? || (out.Normal? && Runs(sh, c, |CompileStmt(s)|, out.run, n, d) && Same(c.p, d.p))
  {
    hide Step, Steps, At, StacksOk, Compile, CompileStmt, Reach, Looped, Same, Upright, Middle, Exec;
    StacksInRange(c.p);
    var s := Outer(x, a, b, t);
    var k := |Compile(s.body)|;
    MiddleShape(a, b, t);
    AtRepeat(sh.script, c.p.fpos, s);
    var enable := !sh.status(|c.trace|);
    var l := Loop(LoopDo, enable, c.p.iendx, c.p.fpos);
    var c1 := OpenLoop(sh, c, false, x);
    LoopedSettled(c.p, c1.p, l, 2, 2);
    if !enable {
      BodySkips(c.p, c1.p, l, s.body);
      var c2 := SkipBlock(sh, c1, s.body, 2, 1);
      ReachTrans(sh, c, 2, c1, k, c2);
      LoopedSame(c.p, c1.p, c2.p, l);
      AtHead(sh.script, c2.p.fpos, [[KDone]]);
      d := CloseLoop(sh, c, c2, l);
      ReachTrans(sh, c, 2 + k, c2, 1, d);
      n := 3 + k;
      SameKeeps(c.p, d.p, 0, 0);
    } else if fuel == 0 {
      n, d := 0, c;
    } else {
      LiveLooped(c.p, c1.p, l, Top);
      UprightLooped(c.p, c1.p, l);
      LoopedIfs(c.p, c1.p, l);
      var m, c2 := BodyRuns(sh, c1, a, b, t, fuel);
      var out := Exec(s.body, c1.p.fpos, true, Run(c1.trace, c1.p.fail), WorldOf(sh), fuel);
      if out.Unfinished? {
        n, d := 0, c;
      } else {
        ReachTrans(sh, c, 2, c1, m, c2);
        LoopedBroken(c.p, c1.p, c2.p, l);
        AtHead(sh.script, c2.p.fpos, [[KDone]]);
        d := CloseLoop(sh, c, c2, l.(enable := false));
        ReachTrans(sh, c, 2 + m, c2, 1, d);
        n := 3 + m;
        SameKeeps(c.p, d.p, 0, 0);
      }
    }
  }

  lemma LoopedIfs(p: Parser, q: Parser, l: Loop)
    requires Looped(p, q, l)
    ensures q.iendx == p.iendx
  {
  }

  // ---- The whole script ----

  lemma OuterShape(x: Line, a: Line, b: Line, t: Line)
    requires PlainWords(x) && PlainWords(a) && PlainWords(b) && PlainWords(t)
    ensures WordedStmt(Outer(x, a, b, t)) && ShallowStmt(Outer(x, a, b, t), 2, 2)
  {
    hide Middle;
    MiddleShape(a, b, t);
  }

  lemma OneStatement(s: Stmt, ifs: nat, loops: nat)
    requires WordedStmt(s) && ShallowStmt(s, ifs, loops)
    ensures Worded(Cons(s, Nil)) && Shallow(Cons(s, Nil), ifs, loops)
  {
  }

  lemma {:induction false} WholeRuns(sh: Shell, c: Config, z: Line, x: Line, a: Line, b: Line, t: Line, fuel: nat)
    returns (n: nat, d: Config)
    requires Front(sh, c, Compile(Rescued(z, x, a, b, t)), 3, 2) && Live(c.p, Top) && Upright(c.p)
    requires PlainWords(z) && PlainWords(x) && PlainWords(a) && PlainWords(b) && PlainWords(t)
    ensures
      var body := Rescued(z, x, a, b, t);
      var out := Exec(body, c.p.fpos, false, Run(c.trace, c.p.fail), WorldOf(sh), fuel);
      out.Unfinished? || (out.Normal? && Runs(sh, c, |Compile(body)|, out.run, n, d) && Same(c.p, d.p))
  {
    hide Step, Steps, At, StacksOk, Compile, CompileStmt, Reach, Inside, Same, Upright, Outer;
    StacksInRange(c.p);
    var o := Outer(x, a, b, t);
    var s := Rescued(z, x, a, b, t).head;
    var k := |Compile(s.thn)|;
    OuterShape(x, a, b, t);
    OneStatement(o, 2, 2);
    CompileOne(s);
    CompileOne(o);
    AtIf(sh.script, c.p.fpos, s);
    BlockOfOne(s, c.p.fpos, false, Run(c.trace, c.p.fail), WorldOf(sh), fuel);
    var cond := sh.status(|c.trace|);
    var e := Itef(ItefThen, false, cond, false);
    var c1 := OpenIf(sh, c, false, z);
    InsideSettled(c.p, c1.p, e, 3, 2);
    if cond {
      BranchSkips(c.p, c1.p, e, s.thn);
      var c2 := SkipBlock(sh, c1, s.thn, 2, 2);
      ReachTrans(sh, c, 2, c1, k, c2);
      InsideSame(c.p, c1.p, c2.p, e);
      AtHead(sh.script, c2.p.fpos, [[KFi]]);
      d := CloseIf(sh, c, c2, e);
      ReachTrans(sh, c, 2 + k, c2, 1, d);
      n := 3 + k;
      SameKeeps(c.p, d.p, 0, 0);
    } else {
      LiveInside(c.p, c1.p, e, Top);
      UprightInside(c.p, c1.p, e);
      InsideDeeper(c.p, c1.p, e);
      BlockOfOne(o, c1.p.fpos, false, Run(c1.trace, c1.p.fail), WorldOf(sh), fuel);
      var m, c2 := OuterRuns(sh, c1, x, a, b, t, fuel);
      var out := ExecStmt(o, c1.p.fpos, false, Run(c1.trace, c1.p.fail), WorldOf(sh), fuel);
      if out.Unfinished? {
        n, d := 0, c;
      } else {
        ReachTrans(sh, c, 2, c1, m, c2);
        InsideSame(c.p, c1.p, c2.p, e);
        AtHead(sh.script, c2.p.fpos, [[KFi]]);
        d := CloseIf(sh, c, c2, e);
        ReachTrans(sh, c, 2 + m, c2, 1, d);
        n := 3 + m;
        SameKeeps(c.p, d.p, 0, 0);
      }
    }
  }

  /** Run faithfully at every nesting limit that leaves room for it. */
  lemma RescuedFaithful(depth: nat, z: Line, x: Line, a: Line, b: Line, t: Line)
    requires 4 <= depth
    requires PlainWords(z) && PlainWords(x) && PlainWords(a) && PlainWords(b) && PlainWords(t)
    ensures Faithful(depth, Rescued(z, x, a, b, t))
  {
    hide Step, Steps, Exec, Compile, At, Rescued, Upright;
    var body := Rescued(z, x, a, b, t);
    forall sh: Shell, fuel: nat | Holds(sh, body) && !sh.ignore
      ensures DoesAsMeant(sh, depth, Meaning(body, WorldOf(sh), fuel))
    {
      IdleLive(depth);
      var c := Start(depth);
      IdleUpright(depth);
      var n, d := WholeRuns(sh, c, z, x, a, b, t, fuel);
      var out := Meaning(body, WorldOf(sh), fuel);
      if out.Normal? {
        assert Steps(sh, c, n) == d;
        assert EndedAs(sh, Steps(sh, c, n), out.run);
      }
    }
  }

  lemma IdleUpright(depth: nat)
    requires 1 <= depth
    ensures Upright(Idle(depth))
  {
  }

  /** It does not fit, whatever the room: once `NoRescue` fails, fitting is more than is needed. */
  lemma RescuedDoesNotFit(z: Line, x: Line, a: Line, b: Line, t: Line, ifRoom: nat, loopRoom: nat)
    ensures !Fits(Rescued(z, x, a, b, t), Top, ifRoom, loopRoom)
    ensures !NoRescue(Rescued(z, x, a, b, t), Top)
  {
    hide Outer;
    var top := Rescued(z, x, a, b, t).head;
    OuterRescues(x, a, b, t);
    assert !NoRescue(top.thn, Top) && !NoRescueStmt(top, Top);
    if 0 < ifRoom {
      OuterDoesNotFit(x, a, b, t, ifRoom - 1, loopRoom);
      assert !Fits(top.thn, Top, ifRoom - 1, loopRoom);
    }
    assert !FitsStmt(top, Top, ifRoom, loopRoom);
  }

  lemma OuterDoesNotFit(x: Line, a: Line, b: Line, t: Line, ifRoom: nat, loopRoom: nat)
    ensures !FitsStmt(Outer(x, a, b, t), Top, ifRoom, loopRoom)
  {
    hide Inner;
    var m := Middle(a, b, t);
    if 0 < loopRoom {
      if 0 < ifRoom {
        InnerDoesNotFit(b, t, ifRoom - 1, loopRoom - 1);
        assert !Fits(m.thn, Under, ifRoom - 1, loopRoom - 1);
      }
      assert !FitsStmt(m, Body, ifRoom, loopRoom - 1);
      assert !Fits(Cons(m, Cons(Break, Nil)), Body, ifRoom, loopRoom - 1);
    }
  }

  lemma OuterRescues(x: Line, a: Line, b: Line, t: Line)
    ensures !NoRescueStmt(Outer(x, a, b, t), Top)
  {
    hide Inner, NoRescue;
    var m, i, rest := Middle(a, b, t), Inner(b, t), Cons(Break, Nil);
    InnerSinks(b, t);
    assert Sinks(m.thn) && SinksStmt(m);
    assert Breaks(rest) && NoLoopHere(rest);
    LaterBreakRescues(Cons(m, rest));
    assert NoLoopHere(Cons(m, rest));
  }

  lemma InnerSinks(b: Line, t: Line)
    ensures SinksStmt(Inner(b, t))
  {
    var i := Inner(b, t);
    assert Breaks(i.body.head.thn) && BreaksStmt(i.body.head);
    assert UnderBreaks(i.body);
  }

  lemma LaterBreakRescues(b: Block)
    requires b.Cons? && !b.head.Break? && SinksStmt(b.head) && Breaks(b.tail)
    ensures !NoRescue(b, Body)
  {
    hide SinksStmt, Breaks, NoRescueStmt;
  }

  lemma InnerDoesNotFit(b: Line, t: Line, ifRoom: nat, loopRoom: nat)
    ensures !FitsStmt(Inner(b, t), Under, ifRoom, loopRoom)
  {
    var i := Inner(b, t).body.head;
    if 0 < loopRoom && 0 < ifRoom {
      assert !FitsStmt(Break, Under, ifRoom - 1, loopRoom - 1);
      assert !Fits(i.thn, Under, ifRoom - 1, loopRoom - 1);
      assert !FitsStmt(i, Body, ifRoom, loopRoom - 1);
    }
  }
}
