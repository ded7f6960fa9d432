/** `Fits` is exact: outside it there are command results under which the flat machine
    departs from the structured meaning.  This is about the default mode, in which an
    error ends the script. */
module NshExact {
  import opened NshControl
  import opened NshScript
  import opened NshStructured
  import opened NshSteps
  import opened NshWalk
  import opened NshSkip
  import opened NshMeaning
  import opened NshWitness
  import opened NshFaults
  import opened NshDrift

  // ---- Which scripts ----

  /** Whether an `if` of the loop body holds a `break` of that loop. */
  predicate UnderBreaks(b: Block) {
    b.Cons? && ((b.head.If? && BreaksStmt(b.head)) || UnderBreaks(b.tail))
  }

  /** Whether some loop in the block can be left by a `break` inside an `if`. */
  predicate Sinks(b: Block) {
    b.Cons? && (SinksStmt(b.head) || Sinks(b.tail))
  }

  predicate SinksStmt(s: Stmt) {
    match s
    case Simple(_) => false
    case Break => false
    case If(_, _, thn, hasElse, els) => Sinks(thn) || (hasElse && Sinks(els))
    case Repeat(_, _, body) => UnderBreaks(body) || Sinks(body)
  }

  /** Behind a loop that can be left by a `break` inside an `if`, no `break` of an enclosing
      loop follows in that loop's body.  Such a `break` would restore the count of open ifs. */
  predicate NoRescue(b: Block, place: Place) {
    b.Cons? ==>
      && NoRescueStmt(b.head, place)
      && ((b.head.Break? && place == Body) ||
          (&& (place != Top && SinksStmt(b.head) ==> !Breaks(b.tail))
           && NoRescue(b.tail, place)))
  }

  predicate NoRescueStmt(s: Stmt, place: Place) {
    match s
    case Simple(_) => true
    case Break => true
    case If(_, _, thn, hasElse, els) =>
      NoRescue(thn, InsideIf(place)) && (hasElse ==> NoRescue(els, InsideIf(place)))
    case Repeat(_, _, body) => NoLoopHere(body) ==> NoRescue(body, Body)
  }

  /** What a block must hold to leave the machine adrift at its end. */
  predicate CanSink(b: Block, place: Place, broke: bool) {
    if !broke then Sinks(b) else if place == Body then UnderBreaks(b) else Breaks(b)
  }

  predicate CanSinkStmt(s: Stmt, broke: bool) {
    if broke then s.If? && BreaksStmt(s) else SinksStmt(s)
  }

  // ---- The trap ----

  /** Everything the machine needs to be led astray; `level` ifs are open. */
  predicate Trap(sh: Shell, c: Config, lines: seq<Line>, place: Place, ifRoom: nat, loopRoom: nat,
                 level: nat, w: seq<bool>) {
    && Front(sh, c, lines, ifRoom, loopRoom) && Exactly(c.p, ifRoom, loopRoom) && !sh.ignore
    && Live(c.p, place) && Level(c.p, place, level) && Matches(sh.status, |c.trace|, w)
  }

  predicate Level(p: Parser, place: Place, level: nat) {
    Upright(p) && p.iendx == level && (place == Under ==> TopLoop(p).iendx < level)
  }

  function Meant(b: Block, sh: Shell, c: Config, place: Place): Outcome {
    Exec(b, c.p.fpos, place != Top, Run(c.trace, c.p.fail), WorldOf(sh), 1)
  }

  function MeantStmt(s: Stmt, sh: Shell, c: Config, place: Place): Outcome {
    ExecStmt(s, c.p.fpos, place != Top, Run(c.trace, c.p.fail), WorldOf(sh), 1)
  }

  /** The machine derails, or it is adrift behind the block and the block can do that. */
  predicate Fails(sh: Shell, c: Config, b: Block, place: Place, level: nat, n: nat, d: Config) {
    var out, k := Meant(b, sh, c, place), |Compile(b)|;
    && !out.Unfinished?
    && (|| Derails(sh, c, c.p.fpos, c.p.fpos + k, out.run.trace, n, d)
        || (Adrift(sh, c, k, level, out.run.trace, out.Broke?, n, d) && CanSink(b, place, out.Broke?)))
  }

  predicate FailsStmt(sh: Shell, c: Config, s: Stmt, place: Place, level: nat, n: nat, d: Config) {
    var out, k := MeantStmt(s, sh, c, place), |CompileStmt(s)|;
    && !out.Unfinished?
    && (|| Derails(sh, c, c.p.fpos, c.p.fpos + k, out.run.trace, n, d)
        || (Adrift(sh, c, k, level, out.run.trace, out.Broke?, n, d) && CanSinkStmt(s, out.Broke?)))
  }

  lemma SameLevel(p: Parser, q: Parser, place: Place, level: nat)
    requires Same(p, q) && Level(p, place, level)
    ensures Level(q, place, level)
  {
    UprightSame(p, q);
  }

  // ---- A break inside an if ----

  /** A `break` inside an `if` goes back to the count of open ifs at the loop's head. */
  lemma StepBreakUnder(sh: Shell, c: Config, level: nat)
    requires Ready(sh, c, [KBreak]) && Settled(c.p) && Live(c.p, Under) && Level(c.p, Under, level)
    ensures
      var d := Step(sh, c);
      && !d.aborted && d.p.fpos == c.p.fpos + 1 && d.trace == c.trace
      && Settled(d.p) && Upright(d.p) && d.p.iendx < level && LoopsLike(c.p, d.p, true) && !LoopEnabled(d.p)
  {
    hide Step, SavedInRange;
    SunkenState(c.p, CmdBreak(c.p), level);
    StepBreakLive(sh, c);
    SunkenState(c.p, Step(sh, c).p, level);
  }

  lemma StepBreakLive(sh: Shell, c: Config)
    requires Ready(sh, c, [KBreak]) && Settled(c.p) && Live(c.p, Under) && Settled(CmdBreak(c.p))
    ensures Step(sh, c) == Config(CmdBreak(c.p).(jump := false, fail := false, fpos := c.p.fpos + 1), c.trace, false)
  {
    hide Step, ParseCommand, SavedInRange;
    StepIs(sh, c, [KBreak]);
    ParseBreak(c.p.(jump := false), sh.seekable, sh.status(|c.trace|));
  }

  lemma SunkenState(p: Parser, q: Parser, level: nat)
    requires Settled(p) && Live(p, Under) && Level(p, Under, level)
    requires q.iendx == TopLoop(p).iendx && q.iestate == p.iestate && q.lpndx == p.lpndx
    requires q.lpstate == Broken(p).lpstate
    ensures Settled(q) && Upright(q) && q.iendx < level && LoopsLike(p, q, true) && !LoopEnabled(q)
  {
    BreakKeepsStacks(p);
    UprightTop(q);
  }

  /** The rest of a block behind a `break` is skipped, or the machine trips over it. */
  lemma BrokenTail(sh: Shell, c: Config, rest: Block, level: nat) returns (n: nat, d: Config)
    requires Facing(sh, c, Compile(rest)) && !LoopEnabled(c.p) && c.p.iendx < level && Worded(rest)
    ensures Strays(sh, c, |Compile(rest)|, level, c.trace, false, n, d)
  {
    hide Step, Steps, At, SavedInRange, Compile, Upright, Shallow, NoLoopHere;
    UprightTop(c.p);
    FacingFront(sh, c, Compile(rest));
    if Shallow(rest, IfRoom(c.p), LoopRoom(c.p)) && NoLoopHere(rest) {
      d := SkipBlock(sh, c, rest, IfRoom(c.p), LoopRoom(c.p));
      n := |Compile(rest)|;
      UprightSame(c.p, d.p);
      SameKeeps(c.p, d.p, 0, 0);
      SameLoops(c.p, d.p);
    } else {
      n, d := SkipFails(sh, c, rest, IfRoom(c.p), LoopRoom(c.p));
      TrippedDerails(sh, c, |Compile(rest)|, n, d);
    }
  }

  lemma BreakSinks(sh: Shell, c: Config, b: Block, ifRoom: nat, loopRoom: nat, level: nat) returns (n: nat, d: Config)
    requires b.Cons? && b.head.Break? && Worded(b)
    requires Trap(sh, c, Compile(b), Under, ifRoom, loopRoom, level, [])
    ensures Fails(sh, c, b, Under, level, n, d)
  {
    hide Step, Steps, At, SavedInRange, Compile, Upright, OffTrack, Reach;
    var rest := b.tail;
    CompileBreak(b);
    AtSplit(sh.script, c.p.fpos, [[KBreak]], Compile(rest));
    AtHead(sh.script, c.p.fpos, [[KBreak]]);
    StepBreakUnder(sh, c, level);
    LureBreak(c.p.fpos, Run(c.trace, c.p.fail), WorldOf(sh), 1);
    assert Meant(b, sh, c, Under) == Broke(Run(c.trace, false));
    StacksInRange(c.p);
    ReachOne(sh, c);
    var c1 := Step(sh, c);
    n, d := BrokenTail(sh, c1, rest, level);
    n := StraysLater(sh, c, |Compile(b)|, level, c.trace, true, 1, c1, |Compile(rest)|, false, n, d);
    assert b.head == Break && BreaksStmt(Break);
  }

  lemma CompileBreak(b: Block)
    requires b.Cons? && b.head.Break?
    ensures Compile(b) == [[KBreak]] + Compile(b.tail)
  {
  }


  // ---- Blocks ----

  /** A block that does not fit leads the machine astray. */
  lemma {:induction false} LiveFails(sh: Shell, c: Config, b: Block, place: Place, ifRoom: nat, loopRoom: nat,
                                     level: nat)
    returns (n: nat, d: Config)
    requires Trap(sh, c, Compile(b), place, ifRoom, loopRoom, level, Lure(b, place, ifRoom, loopRoom))
    requires Worded(b) && !Fits(b, place, ifRoom, loopRoom) && (place == Body ==> NoLoopHere(b)) && NoRescue(b, place)
    ensures Fails(sh, c, b, place, level, n, d)
    decreases b
  {
    hide Step, Steps, At, SavedInRange, FitsStmt, LureStmt, LureBreaksStmt, ExecStmt, Matches, Reach, OffTrack;
    hide CompileStmt, Upright, Breaks;
    var Cons(s, rest) := b;
    AtSplit(sh.script, c.p.fpos, CompileStmt(s), Compile(rest));
    if !FitsStmt(s, place, ifRoom, loopRoom) {
      if s.Break? {
        BreakDoesNotFit(place, ifRoom, loopRoom);
        NothingMatches(sh.status, |c.trace|);
        n, d := BreakSinks(sh, c, b, ifRoom, loopRoom, level);
      } else {
        n, d := FailsHere(sh, c, b, place, ifRoom, loopRoom, level);
      }
    } else if s.Break? && place == Body {
      n, d := FailsBehindBreak(sh, c, b, ifRoom, loopRoom, level);
    } else {
      n, d := FailsLater(sh, c, b, place, ifRoom, loopRoom, level);
    }
  }

  lemma NothingMatches(status: Oracle, off: nat)
    ensures Matches(status, off, [])
  {
  }

  lemma BreakDoesNotFit(place: Place, ifRoom: nat, loopRoom: nat)
    ensures FitsStmt(Break, place, ifRoom, loopRoom) <==> place != Under
  {
  }

  /** The first statement does not fit. */
  lemma {:induction false} FailsHere(sh: Shell, c: Config, b: Block, place: Place, ifRoom: nat, loopRoom: nat,
                                     level: nat)
    returns (n: nat, d: Config)
    requires b.Cons? && !b.head.Break? && !FitsStmt(b.head, place, ifRoom, loopRoom)
    requires Trap(sh, c, Compile(b), place, ifRoom, loopRoom, level, Lure(b, place, ifRoom, loopRoom))
    requires Worded(b) && (place == Body ==> NoLoopHere(b)) && NoRescue(b, place)
    ensures Fails(sh, c, b, place, level, n, d)
    decreases b, 0
  {
    hide Step, Steps, At, SavedInRange, FitsStmt, LureStmt, LureBreaksStmt, ExecStmt, Matches, Reach, OffTrack;
    hide CompileStmt, Upright, Breaks, BreaksStmt, SinksStmt, Derails, Adrift;
    var Cons(s, rest) := b;
    var w1 := LureStmt(s, place, ifRoom, loopRoom);
    var breaks := LureBreaksStmt(s, place, ifRoom, loopRoom);
    MatchesSplit(sh.status, |c.trace|, w1, if breaks then [] else Calm(rest, place != Top));
    AtSplit(sh.script, c.p.fpos, CompileStmt(s), Compile(rest));
    LureRunStmt(s, c.p.fpos, place, ifRoom, loopRoom, Run(c.trace, c.p.fail), WorldOf(sh), 1);
    var m, c1 := LiveFailsStmt(sh, c, s, place, ifRoom, loopRoom, level);
    if breaks {
      if place == Top {
        NeverAtTop(s, ifRoom, loopRoom);
      }
      n, d := BehindBroken(sh, c, b, place, level, m, c1);
    } else {
      n, d := BehindNormal(sh, c, b, place, level, m, c1);
    }
  }

  /** Outside loops a `break` has no effect. */
  lemma {:induction false} NeverAtTop(s: Stmt, ifRoom: nat, loopRoom: nat)
    ensures !LureBreaksStmt(s, Top, ifRoom, loopRoom) && !CalmBreaksStmt(s, false)
    decreases s
  {
    if s.If? {
      NeverAtTopBlock(s.thn, if ifRoom == 0 then 0 else ifRoom - 1, loopRoom);
      NeverAtTopBlock(s.els, if ifRoom == 0 then 0 else ifRoom - 1, loopRoom);
    }
  }

  lemma {:induction false} NeverAtTopBlock(b: Block, ifRoom: nat, loopRoom: nat)
    ensures !LureBreaks(b, Top, ifRoom, loopRoom) && !CalmBreaks(b, false)
    decreases b
  {
    if b.Cons? {
      NeverAtTop(b.head, ifRoom, loopRoom);
      NeverAtTopBlock(b.tail, ifRoom, loopRoom);
    }
  }

  /** The first statement strayed and left the loop. */
  lemma BehindBroken(sh: Shell, c: Config, b: Block, place: Place, level: nat, m: nat, c1: Config)
    returns (n: nat, d: Config)
    requires b.Cons? && Worded(b) && LaidOut(sh) && !sh.ignore
    requires At(sh.script, c.p.fpos + |CompileStmt(b.head)|, Compile(b.tail))
    requires StacksOk(c.p) && TopLoop(c.p).state == LoopDo
    requires FailsStmt(sh, c, b.head, place, level, m, c1) && MeantStmt(b.head, sh, c, place).Broke?
    ensures Fails(sh, c, b, place, level, n, d)
  {
    hide Step, Steps, At, SavedInRange, ExecStmt, Reach, OffTrack, CompileStmt, Upright, Breaks, SinksStmt, WordedStmt;
    var Cons(s, rest) := b;
    var good := MeantStmt(s, sh, c, place).run.trace;
    if Derails(sh, c, c.p.fpos, c.p.fpos + |CompileStmt(s)|, good, m, c1) {
      StacksInRange(c.p);
      ReachZero(sh, c);
      DerailsLater(sh, c, c.p.fpos, c.p.fpos + |Compile(b)|, good,
                   0, c, c.p.fpos, c.p.fpos + |CompileStmt(s)|, good, m, c1);
      n, d := m, c1;
    } else {
      n, d := BrokenTail(sh, c1, rest, level);
      n := StraysLater(sh, c, |Compile(b)|, level, good, true, m, c1, |Compile(rest)|, false, n, d);
      HeadBreaks(b);
    }
  }

  lemma HeadBreaks(b: Block)
    requires b.Cons? && b.head.If? && BreaksStmt(b.head)
    ensures Breaks(b) && UnderBreaks(b)
  {
  }

  /** The first statement strayed and the block goes on. */
  lemma BehindNormal(sh: Shell, c: Config, b: Block, place: Place, level: nat, m: nat, c1: Config)
    returns (n: nat, d: Config)
    requires b.Cons? && Worded(b) && LaidOut(sh) && !sh.ignore
    requires At(sh.script, c.p.fpos + |CompileStmt(b.head)|, Compile(b.tail))
    requires Live(c.p, place) && !(b.head.Break? && place == Body) && NoRescue(b, place)
    requires FailsStmt(sh, c, b.head, place, level, m, c1) && MeantStmt(b.head, sh, c, place).Normal?
    requires Matches(sh.status, |MeantStmt(b.head, sh, c, place).run.trace|, Calm(b.tail, place != Top))
    ensures Fails(sh, c, b, place, level, n, d)
  {
    hide Step, Steps, At, SavedInRange, ExecStmt, Reach, OffTrack, CompileStmt, Upright, Breaks, SinksStmt, WordedStmt;
    hide Matches, Derails, Consumes, Calm, CalmBreaks;
    var Cons(s, rest) := b;
    var out := MeantStmt(s, sh, c, place);
    var pos := c.p.fpos + |CompileStmt(s)|;
    CalmRun(rest, pos, place != Top, out.run, WorldOf(sh), 1);
    var after := Exec(rest, pos, place != Top, out.run, WorldOf(sh), 1);
    var w, broke := Calm(rest, place != Top), CalmBreaks(rest, place != Top);
    ConsumedLength(out.run, pos, |Compile(rest)|, w, broke, after);
    var good := after.run.trace;
    StacksInRange(c.p);
    if Derails(sh, c, c.p.fpos, pos, out.run.trace, m, c1) {
      DerailsOn(sh, c, |Compile(b)|, |CompileStmt(s)|, out.run, w, broke, after, m, c1);
      n, d := m, c1;
    } else {
      DriftsOn(sh, c, c1, rest, place != Top, level, m, |CompileStmt(s)|);
      n, d := DriftBlock(sh, c1, rest, place != Top, level, out.run, 1);
      n := StraysLater(sh, c, |Compile(b)|, level, good, false, m, c1, |Compile(rest)|, false, n, d);
    }
  }

  /** A `break` directly in a loop body is followed by lines that cannot be skipped. */
  lemma {:induction false} FailsBehindBreak(sh: Shell, c: Config, b: Block, ifRoom: nat, loopRoom: nat, level: nat)
    returns (n: nat, d: Config)
    requires b.Cons? && b.head.Break? && Worded(b)
    requires Front(sh, c, Compile(b), ifRoom, loopRoom) && Exactly(c.p, ifRoom, loopRoom)
    requires Live(c.p, Body) && !sh.ignore && (!Shallow(b.tail, ifRoom, loopRoom) || !NoLoopHere(b.tail))
    ensures Fails(sh, c, b, Body, level, n, d)
  {
    hide Step, Steps, At, SavedInRange, Compile, Shallow, NoLoopHere, OffTrack;
    var rest := b.tail;
    CompileBreak(b);
    LureBreak(c.p.fpos, Run(c.trace, c.p.fail), WorldOf(sh), 1);
    StacksInRange(c.p);
    AtSplit(sh.script, c.p.fpos, [[KBreak]], Compile(rest));
    AtHead(sh.script, c.p.fpos, [[KBreak]]);
    StepBreak(sh, c);
    ReachOne(sh, c);
    var c1 := Step(sh, c);
    AfterBreak(c.p, c1.p, ifRoom, loopRoom);
    n, d := SkipFails(sh, c1, rest, ifRoom, loopRoom);
    TrippedDerails(sh, c1, |Compile(rest)|, n, d);
    DerailsLater(sh, c, c.p.fpos, c.p.fpos + |Compile(b)|, c.trace,
                 1, c1, c1.p.fpos, c1.p.fpos + |Compile(rest)|, c1.trace, n, d);
    n := 1 + n;
  }

  lemma AfterBreak(p: Parser, q: Parser, ifRoom: nat, loopRoom: nat)
    requires Settled(p) && Room(p, ifRoom, loopRoom) && Live(p, Body)
    requires q.iendx == p.iendx && q.iestate == p.iestate && q.lpndx == p.lpndx
    requires q.lpstate == Broken(p).lpstate
    ensures Settled(q) && Room(q, ifRoom, loopRoom) && ItefEnabled(q) && !LoopEnabled(q)
  {
  }

  /** The first statement fits and is passed; the trap lies behind it. */
  lemma {:induction false} FailsLater(sh: Shell, c: Config, b: Block, place: Place, ifRoom: nat, loopRoom: nat,
                                      level: nat)
    returns (n: nat, d: Config)
    requires b.Cons? && FitsStmt(b.head, place, ifRoom, loopRoom) && !(b.head.Break? && place == Body)
    requires Trap(sh, c, Compile(b), place, ifRoom, loopRoom, level, Lure(b, place, ifRoom, loopRoom))
    requires Worded(b) && !Fits(b, place, ifRoom, loopRoom) && (place == Body ==> NoLoopHere(b)) && NoRescue(b, place)
    ensures Fails(sh, c, b, place, level, n, d)
    decreases b, 0
  {
    hide Step, Steps, At, SavedInRange, FitsStmt, CalmStmt, CalmBreaksStmt, ExecStmt, Matches, Reach, OffTrack;
    hide CompileStmt, Same, Upright, BreaksStmt, SinksStmt;
    var Cons(s, rest) := b;
    var run := Run(c.trace, c.p.fail);
    MatchesSplit(sh.status, |c.trace|, CalmStmt(s, place != Top), Lure(rest, place, ifRoom, loopRoom));
    AtSplit(sh.script, c.p.fpos, CompileStmt(s), Compile(rest));
    CalmBreaksFits(s, place, ifRoom, loopRoom);
    CalmRunStmt(s, c.p.fpos, place != Top, run, WorldOf(sh), 1);
    var out := MeantStmt(s, sh, c, place);
    var m, c1 := LiveStmt(sh, c, s, place, ifRoom, loopRoom, 1);
    LiveSame(c.p, c1.p, place);
    SameKeeps(c.p, c1.p, ifRoom, loopRoom);
    SameExactly(c.p, c1.p, ifRoom, loopRoom);
    SameLevel(c.p, c1.p, place, level);
    SameLoops(c.p, c1.p);
    assert out.run == Run(c1.trace, c1.p.fail);
    n, d := LiveFails(sh, c1, rest, place, ifRoom, loopRoom, level);
    n := FailsBefore(sh, c, b, place, level, m, c1, n, d);
  }

  lemma FailsBefore(sh: Shell, c: Config, b: Block, place: Place, level: nat, m: nat, c1: Config, n: nat, d: Config)
    returns (n': nat)
    requires b.Cons? && Reach(sh, c, m, c1) && LoopsLike(c.p, c1.p, false)
    requires c1.p.fpos == c.p.fpos + |CompileStmt(b.head)|
    requires MeantStmt(b.head, sh, c, place) == Normal(Run(c1.trace, c1.p.fail))
    requires Fails(sh, c1, b.tail, place, level, n, d)
    ensures Fails(sh, c, b, place, level, n', d)
  {
    hide Step, Steps, SavedInRange, ExecStmt, Reach, OffTrack, CompileStmt, Upright, BreaksStmt, SinksStmt, Adrift;
    hide Derails;
    var out := Meant(b.tail, sh, c1, place);
    assert Meant(b, sh, c, place) == out;
    n' := StraysLater(sh, c, |Compile(b)|, level, out.run.trace, false, m, c1, |Compile(b.tail)|, out.Broke?, n, d);
  }

  lemma SameExactly(p: Parser, q: Parser, ifRoom: nat, loopRoom: nat)
    requires Same(p, q) && Exactly(p, ifRoom, loopRoom)
    ensures Exactly(q, ifRoom, loopRoom)
  {
  }

  // ---- Statements ----

  lemma {:induction false} LiveFailsStmt(sh: Shell, c: Config, s: Stmt, place: Place, ifRoom: nat,
                                         loopRoom: nat, level: nat)
    returns (n: nat, d: Config)
    requires Trap(sh, c, CompileStmt(s), place, ifRoom, loopRoom, level, LureStmt(s, place, ifRoom, loopRoom))
    requires WordedStmt(s) && !FitsStmt(s, place, ifRoom, loopRoom) && !s.Break? && !(place == Body && s.Repeat?)
    requires NoRescueStmt(s, place)
    ensures FailsStmt(sh, c, s, place, level, n, d)
    decreases s, 1
  {
    hide Step, Steps, At, SavedInRange, Exec, Matches, Reach, OffTrack, Compile, Fits, Lure, Upright;
    match s
    case If(_, _, _, _, _) =>
      n, d := IfFails(sh, c, s, place, ifRoom, loopRoom, level);
    case Repeat(_, _, _) =>
      n, d := RepeatFails(sh, c, s, place, ifRoom, loopRoom, level);
  }

  lemma InsideLevel(p: Parser, q: Parser, e: Itef, place: Place, ifRoom: nat, loopRoom: nat, level: nat)
    requires Inside(p, q, e) && Level(p, place, level) && Live(p, place) && Exactly(p, ifRoom, loopRoom) && 0 < ifRoom
    requires EntryLive(e) && StacksOk(q)
    ensures Level(q, InsideIf(place), level + 1) && Exactly(q, ifRoom - 1, loopRoom)
  {
    UprightInside(p, q, e);
  }

  lemma {:induction false} IfFails(sh: Shell, c: Config, s: Stmt, place: Place, ifRoom: nat, loopRoom: nat, level: nat)
    returns (n: nat, d: Config)
    requires Trap(sh, c, CompileStmt(s), place, ifRoom, loopRoom, level, LureStmt(s, place, ifRoom, loopRoom))
    requires WordedStmt(s) && !FitsStmt(s, place, ifRoom, loopRoom) && s.If? && NoRescueStmt(s, place)
    ensures FailsStmt(sh, c, s, place, level, n, d)
    decreases s, 0
  {
    hide Step, Steps, At, StacksOk, Exec, Matches, Reach, OffTrack, Compile, CompileStmt, Fits, Lure, Inside, Worded;
    hide NoRescue, Upright;
    LureRunStmt(s, c.p.fpos, place, ifRoom, loopRoom, Run(c.trace, c.p.fail), WorldOf(sh), 1);
    AtIf(sh.script, c.p.fpos, s);
    AtHead(sh.script, c.p.fpos, [IfLine(s.inverted, s.test), [KThen]]);
    StacksInRange(c.p);
    if ifRoom == 0 {
      StepIfDeep(sh, c, s.inverted, s.test);
      ReachOne(sh, c);
      n, d := 1, Step(sh, c);
    } else if !Fits(s.thn, InsideIf(place), ifRoom - 1, loopRoom) {
      n, d := ThenFails(sh, c, s, place, ifRoom, loopRoom, level);
    } else {
      n, d := ElseFails(sh, c, s, place, ifRoom, loopRoom, level);
    }
  }

  /** The branch that does not fit is the first one. */
  lemma {:induction false} ThenFails(sh: Shell, c: Config, s: Stmt, place: Place, ifRoom: nat, loopRoom: nat,
                                     level: nat)
    returns (n: nat, d: Config)
    requires Trap(sh, c, CompileStmt(s), place, ifRoom, loopRoom, level, LureStmt(s, place, ifRoom, loopRoom))
    requires WordedStmt(s) && s.If? && 0 < ifRoom && !Fits(s.thn, InsideIf(place), ifRoom - 1, loopRoom)
    requires NoRescueStmt(s, place)
    ensures FailsStmt(sh, c, s, place, level, n, d)
    decreases s, 0, 0
  {
    hide Step, Steps, At, StacksOk, Exec, Matches, Reach, OffTrack, Compile, CompileStmt, Fits, Lure, Inside, Worded;
    hide NoRescue, Upright, Derails;
    AtIf(sh.script, c.p.fpos, s);
    StacksInRange(c.p);
    var lure := Lure(s.thn, InsideIf(place), ifRoom - 1, loopRoom);
    MatchesSplit(sh.status, |c.trace|, [s.inverted], lure);
    MatchesHead(sh.status, |c.trace|, [s.inverted]);
    var e := Itef(ItefThen, false, false, s.inverted);
    var c1 := OpenIf(sh, c, s.inverted, s.test);
    InsideSettled(c.p, c1.p, e, ifRoom, loopRoom);
    InsideLevel(c.p, c1.p, e, place, ifRoom, loopRoom, level);
    InsideLoops(c.p, c1.p, e);
    LiveInside(c.p, c1.p, e, place);
    var m, c2 := LiveFails(sh, c1, s.thn, InsideIf(place), ifRoom - 1, loopRoom, level + 1);
    var out := Meant(s.thn, sh, c1, InsideIf(place));
    assert MeantStmt(s, sh, c, place) == out;
    n, d := CloseDrift(sh, c, s, c1, 2, c1.p.fpos, |Compile(s.thn)|, m, c2, level, out.run.trace, false, out.Broke?);
    BranchSinks(s, place, s.thn, out.Broke?);
  }

  lemma BranchSinks(s: Stmt, place: Place, branch: Block, broke: bool)
    requires s.If? && (branch == s.thn || (s.hasElse && branch == s.els))
    ensures CanSink(branch, InsideIf(place), broke) ==> CanSinkStmt(s, broke)
  {
  }

  /** The branch that does not fit is the second one. */
  lemma {:induction false} ElseFails(sh: Shell, c: Config, s: Stmt, place: Place, ifRoom: nat, loopRoom: nat,
                                     level: nat)
    returns (n: nat, d: Config)
    requires Trap(sh, c, CompileStmt(s), place, ifRoom, loopRoom, level, LureStmt(s, place, ifRoom, loopRoom))
    requires WordedStmt(s) && s.If? && 0 < ifRoom && !FitsStmt(s, place, ifRoom, loopRoom)
    requires Fits(s.thn, InsideIf(place), ifRoom - 1, loopRoom) && NoRescueStmt(s, place)
    ensures FailsStmt(sh, c, s, place, level, n, d)
    decreases s, 0, 0
  {
    hide Step, Steps, At, StacksOk, Exec, Matches, Reach, OffTrack, Compile, CompileStmt, Fits, Lure, Inside, Worded;
    hide NoRescue, Upright, Derails;
    AtIf(sh.script, c.p.fpos, s);
    StacksInRange(c.p);
    var lure := Lure(s.els, InsideIf(place), ifRoom - 1, loopRoom);
    MatchesSplit(sh.status, |c.trace|, [!s.inverted], lure);
    MatchesHead(sh.status, |c.trace|, [!s.inverted]);
    var e := Itef(ItefElse, false, true, s.inverted);
    var c3 := ToElse(sh, c, s, place, ifRoom, loopRoom);
    InsideSettled(c.p, c3.p, e, ifRoom, loopRoom);
    InsideLevel(c.p, c3.p, e, place, ifRoom, loopRoom, level);
    InsideLoops(c.p, c3.p, e);
    LiveInside(c.p, c3.p, e, place);
    var m, c4 := LiveFails(sh, c3, s.els, InsideIf(place), ifRoom - 1, loopRoom, level + 1);
    var out := Meant(s.els, sh, c3, InsideIf(place));
    assert MeantStmt(s, sh, c, place) == out;
    n, d := CloseDrift(sh, c, s, c3, 3 + |Compile(s.thn)|, c3.p.fpos, |Compile(s.els)|, m, c4,
                       level, out.run.trace, true, out.Broke?);
    BranchSinks(s, place, s.els, out.Broke?);
  }

  /** Over the first branch, which is not taken, to the second. */
  lemma ToElse(sh: Shell, c: Config, s: Stmt, place: Place, ifRoom: nat, loopRoom: nat) returns (d: Config)
    requires Front(sh, c, CompileStmt(s), ifRoom, loopRoom) && CmdEnabled(c.p)
    requires WordedStmt(s) && s.If? && s.hasElse && 0 < ifRoom && Fits(s.thn, InsideIf(place), ifRoom - 1, loopRoom)
    requires sh.status(|c.trace|) == !s.inverted
    ensures Reach(sh, c, 3 + |Compile(s.thn)|, d) && !d.aborted && d.p.fpos == c.p.fpos + 3 + |Compile(s.thn)|
    ensures Inside(c.p, d.p, Itef(ItefElse, false, true, s.inverted)) && StacksOk(d.p)
    ensures d.trace == c.trace + [Ran(c.p.fpos, s.test)] && !d.p.fail
  {
    hide Step, Steps, At, Compile, CompileStmt, Fits, Worded, Inside, Reach, SavedInRange;
    AtIf(sh.script, c.p.fpos, s);
    var e, n1 := Itef(ItefThen, false, true, s.inverted), |Compile(s.thn)|;
    var c1 := OpenIf(sh, c, s.inverted, s.test);
    InsideSettled(c.p, c1.p, e, ifRoom, loopRoom);
    FitsShallow(s.thn, InsideIf(place), ifRoom - 1, loopRoom);
    BranchSkips(c.p, c1.p, e, s.thn);
    var c2 := SkipBlock(sh, c1, s.thn, ifRoom - 1, loopRoom);
    ReachTrans(sh, c, 2, c1, n1, c2);
    InsideSame(c.p, c1.p, c2.p, e);
    AtHead(sh.script, c2.p.fpos, [[KElse]]);
    d := GoElse(sh, c, c2, e);
    ReachTrans(sh, c, 2 + n1, c2, 1, d);
    InsideSettled(c.p, d.p, e.(state := ItefElse), ifRoom, loopRoom);
  }

  lemma LoopedLevel(p: Parser, q: Parser, l: Loop, place: Place, ifRoom: nat, loopRoom: nat, level: nat)
    requires Looped(p, q, l) && Level(p, place, level) && Exactly(p, ifRoom, loopRoom) && 0 < loopRoom && StacksOk(q)
    ensures Level(q, Body, level) && Exactly(q, ifRoom, loopRoom - 1)
  {
    UprightLooped(p, q, l);
  }

  lemma {:induction false} RepeatFails(sh: Shell, c: Config, s: Stmt, place: Place, ifRoom: nat, loopRoom: nat,
                                       level: nat)
    returns (n: nat, d: Config)
    requires Trap(sh, c, CompileStmt(s), place, ifRoom, loopRoom, level, LureStmt(s, place, ifRoom, loopRoom))
    requires WordedStmt(s) && !FitsStmt(s, place, ifRoom, loopRoom) && s.Repeat? && place != Body
    requires NoRescueStmt(s, place)
    ensures FailsStmt(sh, c, s, place, level, n, d)
    decreases s, 0
  {
    hide Step, Steps, At, StacksOk, Exec, Matches, Reach, OffTrack, Compile, CompileStmt, Fits, Lure, LureBreaks;
    hide Looped, Worded, NoRescue, Upright;
    LureRunStmt(s, c.p.fpos, place, ifRoom, loopRoom, Run(c.trace, c.p.fail), WorldOf(sh), 1);
    AtRepeat(sh.script, c.p.fpos, s);
    AtHead(sh.script, c.p.fpos, [RepeatLine(s.until, s.test), [KDo]]);
    StacksInRange(c.p);
    if loopRoom == 0 {
      StepRepeatDeep(sh, c, s.until, s.test);
      ReachOne(sh, c);
      n, d := 1, Step(sh, c);
    } else if !NoLoopHere(s.body) {
      MatchesHead(sh.status, |c.trace|, [!s.until]);
      var l := Loop(LoopDo, false, c.p.iendx, c.p.fpos);
      var c1 := OpenLoop(sh, c, s.until, s.test);
      LoopedSettled(c.p, c1.p, l, ifRoom, loopRoom);
      LoopedLevel(c.p, c1.p, l, place, ifRoom, loopRoom, level);
      LoopedSkips(c.p, c1.p, l, s.body);
      n, d := SkipFails(sh, c1, s.body, ifRoom, loopRoom - 1);
      TrippedDerails(sh, c1, |Compile(s.body)|, n, d);
      DerailsLater(sh, c, c.p.fpos, c.p.fpos + |CompileStmt(s)|, c1.trace,
                   2, c1, c1.p.fpos, c1.p.fpos + |Compile(s.body)|, c1.trace, n, d);
      n := 2 + n;
    } else {
      n, d := BodyFails(sh, c, s, place, ifRoom, loopRoom, level);
    }
  }

  /** The loop is entered and its body does not fit. */
  lemma {:induction false} BodyFails(sh: Shell, c: Config, s: Stmt, place: Place, ifRoom: nat, loopRoom: nat,
                                     level: nat)
    returns (n: nat, d: Config)
    requires Trap(sh, c, CompileStmt(s), place, ifRoom, loopRoom, level, LureStmt(s, place, ifRoom, loopRoom))
    requires WordedStmt(s) && !FitsStmt(s, place, ifRoom, loopRoom) && s.Repeat? && place != Body
    requires NoRescueStmt(s, place)
    requires 0 < loopRoom && NoLoopHere(s.body)
    ensures FailsStmt(sh, c, s, place, level, n, d)
    decreases s, 0, 0
  {
    hide Step, Steps, At, StacksOk, Exec, Matches, Reach, OffTrack, Compile, CompileStmt, Fits, Lure, LureBreaks;
    hide Looped, Worded, NoRescue, Upright, Derails;
    var w1 := Lure(s.body, Body, ifRoom, loopRoom - 1);
    var w2 := if LureBreaks(s.body, Body, ifRoom, loopRoom - 1) then [] else [!s.until];
    assert LureStmt(s, place, ifRoom, loopRoom) == [s.until] + (w1 + w2);
    MatchesSplit(sh.status, |c.trace|, [s.until], w1 + w2);
    MatchesHead(sh.status, |c.trace|, [s.until]);
    AtRepeat(sh.script, c.p.fpos, s);
    StacksInRange(c.p);
    var l := Loop(LoopDo, true, c.p.iendx, c.p.fpos);
    var c1 := OpenLoop(sh, c, s.until, s.test);
    MatchesSplit(sh.status, |c1.trace|, w1, w2);
    LoopedSettled(c.p, c1.p, l, ifRoom, loopRoom);
    LoopedLevel(c.p, c1.p, l, place, ifRoom, loopRoom, level);
    LiveLooped(c.p, c1.p, l, place);
    LureRun(s.body, c1.p.fpos, Body, ifRoom, loopRoom - 1, Run(c1.trace, c1.p.fail), WorldOf(sh), 1);
    var out := Meant(s.body, sh, c1, Body);
    if w2 != [] {
      MatchesHead(sh.status, |out.run.trace|, w2);
    }
    var m, c2 := LiveFails(sh, c1, s.body, Body, ifRoom, loopRoom - 1, level);
    n, d := CloseBody(sh, c, s, place, c1, l, level, m, c2);
  }

  /** `done` behind a body that strayed: the loop is given up or begun again. */
  lemma DoneDrift(sh: Shell, c: Config, c1: Config, l: Loop, c2: Config, broke: bool) returns (d: Config)
    requires Settled(c.p) && Looped(c.p, c1.p, l) && l.state == LoopDo && l.enable && LoopsLike(c1.p, c2.p, broke)
    requires Settled(c2.p) && Upright(c2.p) && Ready(sh, c2, [KDone])
    ensures Reach(sh, c2, 1, d) && !d.aborted && d.p.fpos == (if broke then c2.p.fpos + 1 else l.topoffs)
    ensures d.trace == c2.trace && Upright(d.p) && Settled(d.p) && d.p.iendx == c2.p.iendx && LoopsLike(c.p, d.p, false)
  {
    hide Step, Steps, SavedInRange;
    StepDone(sh, c2);
    d := Step(sh, c2);
    ReachOne(sh, c2);
    UprightTop(d.p);
  }

  /** Behind the `done` the loop was left, or its head is read again. */
  lemma AfterDone(sh: Shell, c: Config, s: Stmt, level: nat, broke: bool, m: nat, c1: Config)
    returns (n: nat, d: Config)
    requires Facing(sh, c, CompileStmt(s)) && s.Repeat? && WordedStmt(s)
    requires Reach(sh, c, m, c1) && !c1.aborted && c1.p.fpos == c.p.fpos + (if broke then |CompileStmt(s)| else 0)
    requires Settled(c1.p) && Upright(c1.p) && c1.p.iendx < level && LoopsLike(c.p, c1.p, false)
    requires !broke ==> sh.status(|c1.trace|) == !s.until
    ensures Strays(sh, c, |CompileStmt(s)|, level,
                   c1.trace + (if broke then [] else [Ran(c.p.fpos, s.test)]), false, n, d)
  {
    hide Step, Steps, At, SavedInRange, Reach, Derails, CompileStmt, WordedStmt, Upright;
    if broke {
      assert c1.trace + [] == c1.trace;
      n, d := m, c1;
    } else {
      n, d := PassLoop(sh, c1, s, level);
      n := StraysLater(sh, c, |CompileStmt(s)|, level, c1.trace + [Ran(c.p.fpos, s.test)], false,
                       m, c1, |CompileStmt(s)|, false, n, d);
    }
  }

  lemma CloseBody(sh: Shell, c: Config, s: Stmt, place: Place, c1: Config, l: Loop, level: nat, m: nat, c2: Config)
    returns (n: nat, d: Config)
    requires Facing(sh, c, CompileStmt(s)) && s.Repeat? && WordedStmt(s)
    requires sh.status(|c.trace|) == s.until && Reach(sh, c, 2, c1) && c1.p.fpos == c.p.fpos + 2
    requires c1.trace == c.trace + [Ran(c.p.fpos, s.test)] && !c1.p.fail
    requires Looped(c.p, c1.p, l) && l == Loop(LoopDo, true, c.p.iendx, c.p.fpos)
    requires Fails(sh, c1, s.body, Body, level, m, c2)
    requires var out := Meant(s.body, sh, c1, Body);
             out.Broke? || (out.Normal? && sh.status(|out.run.trace|) == !s.until)
    ensures FailsStmt(sh, c, s, place, level, n, d)
  {
    hide Step, Steps, At, SavedInRange, Exec, ExecStmt, Reach, OffTrack, Compile, CompileStmt, Looped, Worded;
    hide Upright, Derails;
    var out, k := Meant(s.body, sh, c1, Body), |Compile(s.body)|;
    var good := out.run.trace + if out.Broke? then [] else [Ran(c.p.fpos, s.test)];
    LoopTurn(s, c.p.fpos, place != Top, Run(c.trace, c.p.fail), WorldOf(sh), 1, !out.Broke?);
    assert good == MeantStmt(s, sh, c, place).run.trace;
    AtRepeat(sh.script, c.p.fpos, s);
    if Derails(sh, c1, c1.p.fpos, c1.p.fpos + k, out.run.trace, m, c2) {
      DerailsLater(sh, c, c.p.fpos, c.p.fpos + |CompileStmt(s)|, good,
                   2, c1, c1.p.fpos, c1.p.fpos + k, out.run.trace, m, c2);
      n, d := 2 + m, c2;
    } else {
      AtHead(sh.script, c2.p.fpos, [[KDone]]);
      var c3 := DoneDrift(sh, c, c1, l, c2, out.Broke?);
      ReachTrans(sh, c, 2, c1, m, c2);
      ReachTrans(sh, c, 2 + m, c2, 1, c3);
      n, d := AfterDone(sh, c, s, level, out.Broke?, 3 + m, c3);
    }
  }
}
