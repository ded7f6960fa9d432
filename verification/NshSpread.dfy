/** Scripts whose lines join a keyword with the command behind it, run beside the scripts in
    which the two are apart. */
module NshSpread {
  import opened Common
  import opened NshControl
  import opened NshScript
  import opened NshStructured
  import opened NshSteps
  import opened NshJoin

  // ---- Taking the lines apart ----

  function Apart(c: Command): (r: seq<Command>)
    ensures |r| == if Joined(c.words) then 2 else 1
  {
    if Joined(c.words) then [Command([c.words[0]], false), Command(c.words[1..], c.eol)] else [c]
  }

  function Spread(script: seq<Command>): seq<Command> {
    if script == [] then [] else Spread(script[..|script| - 1]) + Apart(script[|script| - 1])
  }

  /** Where the command at `i` starts in the spread script. */
  function Place(script: seq<Command>, i: nat): (x: nat)
    ensures i <= x && (i == 0 ==> x == 0)
  {
    if i == 0 then 0
    else Place(script, i - 1) + if i <= |script| && Joined(script[i - 1].words) then 2 else 1
  }

  lemma {:induction false} PlacePrefix(script: seq<Command>, n: nat, i: nat)
    requires i <= n <= |script|
    ensures Place(script[..n], i) == Place(script, i)
    decreases i
  {
    if i > 0 {
      PlacePrefix(script, n, i - 1);
      assert script[..n][i - 1] == script[i - 1];
    }
  }

  lemma {:induction false} SpreadSize(script: seq<Command>)
    ensures |Spread(script)| == Place(script, |script|)
    decreases |script|
  {
    if script != [] {
      var n := |script| - 1;
      SpreadSize(script[..n]);
      PlacePrefix(script, n, n);
    }
  }

  /** The parts of the command at `i` stand at its place. */
  lemma {:induction false} SpreadAt(script: seq<Command>, i: nat)
    requires i < |script|
    ensures Place(script, i) + |Apart(script[i])| == Place(script, i + 1) <= |Spread(script)|
    ensures Spread(script)[Place(script, i)..Place(script, i + 1)] == Apart(script[i])
    decreases |script|
  {
    hide Apart;
    var n := |script| - 1;
    var front := script[..n];
    SpreadSize(script);
    SpreadSize(front);
    PlacePrefix(script, n, n);
    if i < n {
      SpreadAt(front, i);
      PlacePrefix(script, n, i);
      PlacePrefix(script, n, i + 1);
      var x, y := Place(script, i), Place(script, i + 1);
      assert Spread(script)[x..y] == Spread(front)[x..y];
    }
  }

  lemma FirstPart(script: seq<Command>, i: nat)
    requires i < |script|
    ensures Place(script, i) < Place(script, i + 1) <= |Spread(script)|
    ensures Spread(script)[Place(script, i)] == Apart(script[i])[0]
    ensures Joined(script[i].words) ==>
              && Place(script, i) + 2 == Place(script, i + 1)
              && Spread(script)[Place(script, i) + 1] == Apart(script[i])[1]
    ensures !Joined(script[i].words) ==> Place(script, i) + 1 == Place(script, i + 1)
  {
    SpreadAt(script, i);
    var x, y := Place(script, i), Place(script, i + 1);
    var part := Spread(script)[x..y];
    assert part[0] == Spread(script)[x];
    assert Joined(script[i].words) ==> part[1] == Spread(script)[x + 1];
  }

  /** Dropping the rest of a text line comes to the same place. */
  lemma {:induction false} SameNextLine(script: seq<Command>, i: nat)
    requires i < |script|
    ensures
      var x, s := Place(script, i), Spread(script);
      && x < |s| && NextLine(s, x) == Place(script, NextLine(script, i))
      && (Joined(script[i].words) ==> x + 1 < |s| && NextLine(s, x + 1) == NextLine(s, x))
    decreases |script| - i
  {
    hide Spread, Place, NextLine;
    FirstPart(script, i);
    SpreadSize(script);
    NextOfLine(script, i);
    var x, s := Place(script, i), Spread(script);
    if script[i].eol || i + 1 == |script| {
      LastOfLine(script, i);
    } else {
      FirstPart(script, i + 1);
      SameNextLine(script, i + 1);
      var y := Place(script, i + 1);
      GoesOn(s, y - 1);
      if Joined(script[i].words) {
        GoesOn(s, x);
      }
    }
  }

  lemma GoesOn(s: seq<Command>, x: nat)
    requires x + 1 < |s| && !s[x].eol
    ensures NextLine(s, x) == NextLine(s, x + 1)
  {
  }

  lemma NextOfLine(script: seq<Command>, i: nat)
    requires i < |script|
    ensures NextLine(script, i) == if script[i].eol || i + 1 == |script| then i + 1 else NextLine(script, i + 1)
  {
  }

  lemma LastOfLine(script: seq<Command>, i: nat)
    requires i < |script| && (script[i].eol || i + 1 == |script|)
    ensures
      var x, s := Place(script, i), Spread(script);
      && x < |s| && NextLine(s, x) == Place(script, i + 1)
      && (Joined(script[i].words) ==> x + 1 < |s| && NextLine(s, x + 1) == NextLine(s, x))
  {
    hide Spread, Place;
    FirstPart(script, i);
    SpreadSize(script);
  }

  // ---- Where an `if` can still await its `then` ----

  /** The command opens an `if`. */
  predicate Opens(line: Line) {
    line != [] && (line[0] == KIf || (line[0] == KDo && |line| > 1 && line[1] == KIf))
  }

  predicate StartsThen(line: Line) {
    line != [] && line[0] == KThen
  }

  /** The words behind an `if` test a `break`. */
  predicate TestsBreak(rest: Line) {
    |rest| > 0 && (rest[0] == KBreak || (rest[0] == KBang && |rest| > 1 && rest[1] == KBreak))
  }

  /** The command is no loop that tests an `if`, and no `if` that tests a `break`. */
  predicate Sound(line: Line) {
    && (|line| > 1 && line[0] in {KWhile, KUntil} ==> line[1] != KIf)
    && (Opens(line) ==> !TestsBreak(if line[0] == KIf then line[1..] else line[2..]))
  }

  /** The command at `i` is sound, and followed by its `then` if it is an `if`. */
  predicate OrderlyAt(script: seq<Command>, i: nat)
    requires i < |script|
  {
    Sound(script[i].words) && (Opens(script[i].words) ==> i + 1 < |script| && StartsThen(script[i + 1].words))
  }

  /** Every `if` is followed by its `then`, and tests are commands. */
  predicate Orderly(script: seq<Command>) {
    forall i | 0 <= i < |script| :: OrderlyAt(script, i)
  }

  predicate NoneAwaits(p: Parser) {
    forall j | 0 <= j < |p.iestate| :: p.iestate[j].state != ItefIf
  }

  predicate OnlyTopAwaits(p: Parser) {
    && InRange(p) && TopItef(p).state == ItefIf && !AwaitsLoopTest(p)
    && forall j | 0 <= j < |p.iestate| && j != p.iendx :: p.iestate[j].state != ItefIf
  }

  /** Only the innermost `if` can await its `then`, and then that comes next. */
  predicate Clear(script: seq<Command>, p: Parser) {
    NoneAwaits(p) || (OnlyTopAwaits(p) && p.fpos < |script| && StartsThen(script[p.fpos].words))
  }

  lemma LoopKeepsIfs(p: Parser, line: Line, seekable: bool)
    requires InRange(p)
    ensures var d := NshLoop(p, line, seekable); d.p.iestate == p.iestate && d.p.iendx == p.iendx
  {
    hide NshWhile, NshDone;
    if line != [] {
      WhileKeepsIfs(p, LoopWhile, line[1..], seekable);
      WhileKeepsIfs(p, LoopUntil, line[1..], seekable);
      DoneKeepsIfs(p, line[1..]);
    }
  }

  lemma WhileKeepsIfs(p: Parser, state: LoopState, rest: Line, seekable: bool)
    requires InRange(p)
    ensures var d := NshWhile(p, state, rest, seekable);
            d.p.iestate == p.iestate && d.p.iendx == p.iendx && d.rest == rest
  {
    hide CmdEnabled;
  }

  lemma DoneKeepsIfs(p: Parser, rest: Line)
    requires InRange(p)
    ensures var d := NshDone(p, rest); d.p.iestate == p.iestate && d.p.iendx == p.iendx && d.rest == rest
    ensures NshDone(p, rest).fault == NoFault ==> rest == []
  {
  }

  lemma SaveAwaits(p: Parser, failed: bool)
    requires InRange(p)
    ensures NoneAwaits(p) ==> NoneAwaits(SaveResult(p, failed).p)
    ensures OnlyTopAwaits(p) ==> OnlyTopAwaits(SaveResult(p, failed).p) && !SaveResult(p, failed).err
    ensures SaveResult(p, failed).p.jump == p.jump
  {
    var s := SaveResult(p, failed);
    if TopLoop(p).state in {LoopWhile, LoopUntil} || TopItef(p).state != ItefIf {
      assert s.p.iestate == p.iestate;
    } else {
      assert forall j | 0 <= j < |p.iestate| :: s.p.iestate[j].state == p.iestate[j].state;
    }
  }

  lemma BreakAwaits(p: Parser)
    requires InRange(p) && NoneAwaits(p)
    ensures NoneAwaits(CmdBreak(p))
  {
  }

  lemma ExecuteAwaits(p: Parser, line: Line, failed: bool)
    requires StacksOk(p)
    ensures var r := Execute(p, line, failed);
            && (NoneAwaits(p) ==> NoneAwaits(r.p))
            && (OnlyTopAwaits(p) && (line == [] || line[0] != KBreak) ==> OnlyTopAwaits(r.p) && !r.err)
            && r.p.jump == p.jump
  {
    hide NoneAwaits, OnlyTopAwaits, SaveResult, SavedInRange;
    SaveAwaits(p, failed);
    BreakKeepsStacks(p);
    if NoneAwaits(p) {
      BreakAwaits(p);
    }
    SaveAwaits(CmdBreak(p), false);
    BreakJumps(p);
  }

  lemma BreakJumps(p: Parser)
    requires InRange(p)
    ensures CmdBreak(p).jump == p.jump
  {
  }

  /** A command that opens no `if`, where none awaits its `then`. */
  lemma ItefAwaits(p: Parser, line: Line)
    requires InRange(p) && NoneAwaits(p) && (line == [] || line[0] != KIf)
    ensures NoneAwaits(NshItef(p, line).p)
  {
    hide NshIf;
  }

  lemma ThenAwaits(p: Parser, line: Line)
    requires OnlyTopAwaits(p) && StartsThen(line)
    ensures NoneAwaits(NshItef(p, line).p)
  {
    hide NshIf, NshFi;
  }

  /** A command that opens an `if`: it is the only one that awaits its `then`, or a fault was
      found.  The words that remain do not start with `break` as long as they are a test. */
  lemma IfAwaits(p: Parser, line: Line)
    requires InRange(p) && NoneAwaits(p) && !AwaitsLoopTest(p) && line != [] && line[0] == KIf
    ensures var d := NshItef(p, line);
            if d.fault == NoFault then OnlyTopAwaits(d.p) else NoneAwaits(d.p)
  {
    hide CmdEnabled;
  }

  /** What the loop keywords leave to be dispatched. */
  lemma LoopRest(p: Parser, line: Line, seekable: bool)
    requires InRange(p) && Sound(line) && NshLoop(p, line, seekable).fault == NoFault
    ensures var d := NshLoop(p, line, seekable);
            && (d.rest != [] && d.rest[0] == KIf <==> Opens(line))
            && (Opens(line) ==> !TestsBreak(d.rest[1..]) && !AwaitsLoopTest(d.p) && d.p.jump == p.jump)
  {
    hide NshWhile, NshDone;
    if line != [] {
      WhileKeepsIfs(p, LoopWhile, line[1..], seekable);
      WhileKeepsIfs(p, LoopUntil, line[1..], seekable);
      DoneKeepsIfs(p, line[1..]);
    }
  }

  /** The words left of an `if` that was opened do not start with `break`. */
  lemma IfRest(p: Parser, line: Line)
    requires InRange(p) && line != [] && line[0] == KIf && !TestsBreak(line[1..]) && NshItef(p, line).fault == NoFault
    ensures var d := NshItef(p, line); d.rest != [] && d.rest[0] != KBreak && d.p.jump == p.jump
  {
    hide ResetItefs;
  }

  lemma ParseAwaits(p: Parser, line: Line, seekable: bool, failed: bool)
    requires StacksOk(p) && !p.jump && NoneAwaits(p) && Sound(line)
    ensures var r := ParseCommand(p, line, seekable, failed);
            NoneAwaits(r.p) || (Opens(line) && OnlyTopAwaits(r.p) && !r.err && !r.p.jump)
  {
    hide NshLoop, NshItef, SaveResult, Execute, OnlyTopAwaits, SavedInRange;
    LoopKeepsStacks(p, line, seekable);
    LoopKeepsIfs(p, line, seekable);
    var d := NshLoop(p, line, seekable);
    SaveAwaits(d.p, true);
    if d.fault == NoFault {
      LoopRest(p, line, seekable);
      ItefKeepsStacks(d.p, d.rest);
      var e := NshItef(d.p, d.rest);
      SaveAwaits(e.p, true);
      ExecuteAwaits(e.p, e.rest, failed);
      if Opens(line) {
        IfAwaits(d.p, d.rest);
        if e.fault == NoFault {
          IfRest(d.p, d.rest);
        }
      } else {
        ItefAwaits(d.p, d.rest);
      }
    }
  }

  lemma ParseThenAwaits(p: Parser, line: Line, seekable: bool, failed: bool)
    requires StacksOk(p) && OnlyTopAwaits(p) && StartsThen(line)
    ensures NoneAwaits(ParseCommand(p, line, seekable, failed).p)
  {
    hide NshItef, SaveResult, Execute, SavedInRange, NoneAwaits;
    LoopPasses(p, line, seekable);
    ItefKeepsStacks(p, line);
    ThenAwaits(p, line);
    var d := NshItef(p, line);
    SaveAwaits(d.p, true);
    ExecuteAwaits(d.p, d.rest, failed);
  }

  /** Over a run of an orderly script it stays clear. */
  lemma StepClear(sh: Shell, c: Config)
    requires StacksOk(c.p) && !c.aborted && Orderly(sh.script) && Clear(sh.script, c.p)
    ensures Step(sh, c).aborted || Clear(sh.script, Step(sh, c).p)
  {
    hide ParseCommand, SavedInRange;
    if c.p.fpos < |sh.script| {
      assert OrderlyAt(sh.script, c.p.fpos);
      var words, failed := sh.script[c.p.fpos].words, sh.status(|c.trace|);
      var p := c.p.(jump := false);
      StepIs(sh, c, words);
      FlagsKeepStacks(c.p, c.p.fail, false, c.p.fpos);
      var r := ParseCommand(p, words, sh.seekable, failed);
      if NoneAwaits(c.p) {
        assert NoneAwaits(p);
        ParseAwaits(p, words, sh.seekable, failed);
      } else {
        assert OnlyTopAwaits(p);
        ParseThenAwaits(p, words, sh.seekable, failed);
      }
      AfterClear(sh, c, r);
    }
  }

  lemma AfterClear(sh: Shell, c: Config, r: Parsed)
    requires StacksOk(r.p) && c.p.fpos < |sh.script| && Orderly(sh.script)
    requires NoneAwaits(r.p) || (Opens(sh.script[c.p.fpos].words) && OnlyTopAwaits(r.p) && !r.err && !r.p.jump)
    ensures After(sh, c, r).aborted || Clear(sh.script, After(sh, c, r).p)
  {
    hide SavedInRange;
    assert OrderlyAt(sh.script, c.p.fpos);
    var q := After(sh, c, r).p;
    assert q.iestate == r.p.iestate && q.iendx == r.p.iendx && q.lpstate == r.p.lpstate && q.lpndx == r.p.lpndx;
    if !NoneAwaits(r.p) {
      assert OnlyTopAwaits(q);
    }
  }

  // ---- The two runs side by side ----

  function PlaceOf(script: seq<Command>): (g: nat -> nat)
    ensures forall i: nat :: g(i) == Place(script, i)
  {
    (i: nat) => Place(script, i)
  }

  /** A command that was run, at its own place in the spread script. */
  function RanAt(script: seq<Command>, r: Ran): Ran {
    r.(pos := Place(script, r.pos) + if r.pos < |script| && Joined(script[r.pos].words) then 1 else 0)
  }

  function TraceOf(script: seq<Command>, t: seq<Ran>): seq<Ran> {
    seq(|t|, i requires 0 <= i < |t| => RanAt(script, t[i]))
  }

  function Beside(sh: Shell): Shell {
    sh.(script := Spread(sh.script))
  }

  /** The same stacks, status and commands run, at the places of the spread script. */
  predicate Matched(sh: Shell, c: Config, d: Config) {
    && d.aborted == c.aborted && d.trace == TraceOf(sh.script, c.trace)
    && d.p == Placed(PlaceOf(sh.script), if c.aborted then d.p.fpos else Place(sh.script, c.p.fpos), c.p)
  }

  lemma MatchedStacks(sh: Shell, c: Config, d: Config)
    requires StacksOk(c.p) && Matched(sh, c, d)
    ensures StacksOk(d.p) && d.p.jump == c.p.jump && d.p.fail == c.p.fail
    ensures d.p.iendx == c.p.iendx && d.p.lpndx == c.p.lpndx
    ensures !c.aborted ==> d.p.fpos == Place(sh.script, c.p.fpos)
    ensures Halted(sh, c) <==> Halted(Beside(sh), d)
  {
    PlacedSame(PlaceOf(sh.script), d.p.fpos, c.p);
    SpreadSize(sh.script);
    if !c.aborted {
      if c.p.fpos < |sh.script| {
        FirstPart(sh.script, c.p.fpos);
      } else {
        PlaceGrows(sh.script, |sh.script|, c.p.fpos);
      }
    }
  }

  lemma {:induction false} PlaceGrows(script: seq<Command>, i: nat, j: nat)
    requires i <= j
    ensures Place(script, i) <= Place(script, j)
    decreases j
  {
    if i < j {
      PlaceGrows(script, i, j - 1);
    }
  }

  lemma JumpPlaced(g: nat -> nat, x: nat, p: Parser)
    ensures Placed(g, x, p).(jump := false) == Placed(g, x, p.(jump := false))
  {
  }

  lemma PlacedTwice(g: nat -> nat, y: nat, i: nat, x: nat, p: Parser)
    ensures Placed(g, y, p).(fpos := x) == Placed(g, x, p.(fpos := i))
  {
  }

  /** The move to the next command, beside the same outcome. */
  lemma AfterMatched(sh: Shell, c: Config, d: Config, r: Parsed, x: nat, y: nat)
    requires Matched(sh, c, d) && !c.aborted && c.p.fpos < |sh.script| && StacksOk(r.p)
    requires
      var s := Spread(sh.script);
      && x < |s| && x + 1 == Place(sh.script, c.p.fpos + 1)
      && NextLine(s, x) == Place(sh.script, NextLine(sh.script, c.p.fpos))
      && x == Place(sh.script, c.p.fpos) + if Joined(sh.script[c.p.fpos].words) then 1 else 0
    requires r.p.jump ==> y == Place(sh.script, r.p.fpos)
    ensures
      var g := PlaceOf(sh.script);
      var q := Placed(g, y, r.p);
      && StacksOk(q)
      && Matched(sh, After(sh, c, r), After(Beside(sh), d.(p := d.p.(fpos := x)), r.(p := q)))
  {
    hide Place, Spread, SavedInRange, NextLine, Joined, TraceOf, Placed;
    var g, i := PlaceOf(sh.script), c.p.fpos;
    PlacedSame(g, y, r.p);
    PlacedTwice(g, y, i + 1, Place(sh.script, i + 1), r.p);
    PlacedTwice(g, y, NextLine(sh.script, i), Place(sh.script, NextLine(sh.script, i)), r.p);
    if r.ran.Some? {
      TraceAdds(sh.script, c.trace, Ran(i, r.ran.value));
    }
  }

  lemma TraceAdds(script: seq<Command>, t: seq<Ran>, r: Ran)
    ensures TraceOf(script, t + [r]) == TraceOf(script, t) + [RanAt(script, r)]
  {
  }

  lemma StepApart(sh: Shell, c: Config, d: Config)
    requires StacksOk(c.p) && Matched(sh, c, d) && !c.aborted && c.p.fpos < |sh.script|
    requires !Joined(sh.script[c.p.fpos].words)
    ensures StacksOk(d.p) && Matched(sh, Step(sh, c), Step(Beside(sh), d))
  {
    hide Step, ParseCommand, After, Place, Spread, Placed, SavedInRange;
    var i := c.p.fpos;
    var g, words, failed := PlaceOf(sh.script), sh.script[i].words, sh.status(|c.trace|);
    MatchedStacks(sh, c, d);
    FirstPart(sh.script, i);
    SameNextLine(sh.script, i);
    StepIs(sh, c, words);
    StepIs(Beside(sh), d, words);
    var p := c.p.(jump := false);
    JumpPlaced(g, g(i), c.p);
    MovedParse(g, p, words, sh.seekable, failed);
    var r := ParseCommand(p, words, sh.seekable, failed);
    AfterMatched(sh, c, d, r, g(i), g(r.p.fpos));
    assert d.(p := d.p.(fpos := g(i))) == d;
  }

  /** A command without a loop keyword makes no jump. */
  lemma NoJump(p: Parser, line: Line, seekable: bool, failed: bool)
    requires StacksOk(p) && !p.jump && line != [] && !LoopWord(line[0])
    ensures !ParseCommand(p, line, seekable, failed).p.jump
  {
    hide NshItef, SaveResult, Execute, SavedInRange;
    LoopKeepsStacks(p, line, seekable);
    var d := NshLoop(p, line, seekable);
    SaveAwaits(d.p, true);
    ItefKeepsStacks(d.p, d.rest);
    ItefJumps(d.p, d.rest);
    var e := NshItef(d.p, d.rest);
    SaveAwaits(e.p, true);
    ExecuteAwaits(e.p, e.rest, failed);
  }

  lemma ItefJumps(p: Parser, line: Line)
    requires InRange(p)
    ensures NshItef(p, line).p.jump == p.jump
  {
    hide NshIf, NshFi;
    if line != [] {
      IfJumps(p, line[1..]);
    }
  }

  lemma IfJumps(p: Parser, rest: Line)
    requires InRange(p)
    ensures NshIf(p, rest).p.jump == p.jump && NshFi(p, rest).p.jump == p.jump
  {
    hide CmdEnabled;
  }

  lemma AfterSame(sh: Shell, c: Config, c': Config, r: Parsed)
    requires StacksOk(r.p) && c.p.fpos < |sh.script| && c'.trace == c.trace && c'.p.fpos == c.p.fpos
    ensures After(sh, c', r) == After(sh, c, r)
  {
  }

  lemma TraceSize(sh: Shell, c: Config, d: Config)
    requires Matched(sh, c, d)
    ensures |d.trace| == |c.trace|
  {
  }

  /** Where the line joins a keyword that the state is ready to refuse, an error says so. */
  lemma NotMuddled(sh: Shell, c: Config, d: Config)
    requires StacksOk(c.p) && Matched(sh, c, d) && !c.aborted && c.p.fpos < |sh.script|
    requires Joined(sh.script[c.p.fpos].words) && Clear(Spread(sh.script), d.p)
    ensures !Muddled(c.p.(jump := false), sh.script[c.p.fpos].words[0])
  {
    hide Place, Spread, SavedInRange;
    FirstPart(sh.script, c.p.fpos);
    PlacedSame(PlaceOf(sh.script), d.p.fpos, c.p);
    assert TopItef(d.p) == TopItef(c.p) && AwaitsLoopTest(d.p) == AwaitsLoopTest(c.p);
  }

  /** The keyword is refused: both scripts drop the rest of the line, or end. */
  lemma KeywordFails(sh: Shell, c: Config, d: Config, a: Parsed)
    requires Matched(sh, c, d) && !c.aborted && c.p.fpos < |sh.script| && StacksOk(a.p)
    requires a.ran.None? && a.err && !a.p.jump && a.p.fpos == c.p.fpos
    ensures
      var x := Place(sh.script, c.p.fpos);
      var q := Placed(PlaceOf(sh.script), x, a.p);
      && x < |Spread(sh.script)| && StacksOk(q)
      && Matched(sh, After(sh, c, a), After(Beside(sh), d, a.(p := q)))
  {
    hide Place, Spread, SavedInRange;
    FirstPart(sh.script, c.p.fpos);
    SameNextLine(sh.script, c.p.fpos);
    PlacedSame(PlaceOf(sh.script), Place(sh.script, c.p.fpos), a.p);
    assert Beside(sh).script == Spread(sh.script);
  }

  /** The keyword passes: the spread script has come to the command behind it. */
  lemma KeywordPasses(sh: Shell, c: Config, d: Config, a: Parsed)
    requires Matched(sh, c, d) && !c.aborted && c.p.fpos < |sh.script| && StacksOk(a.p)
    requires a.ran.None? && !a.err && !a.p.jump && a.p.fpos == c.p.fpos
    ensures
      var x := Place(sh.script, c.p.fpos);
      var q := Placed(PlaceOf(sh.script), x, a.p);
      && x < |Spread(sh.script)| && StacksOk(q)
      && After(Beside(sh), d, a.(p := q)) == Config(Placed(PlaceOf(sh.script), x + 1, a.p), d.trace, false)
  {
    hide Place, Spread, SavedInRange;
    FirstPart(sh.script, c.p.fpos);
    PlacedSame(PlaceOf(sh.script), Place(sh.script, c.p.fpos), a.p);
  }

  lemma SecondHalf(sh: Shell, c: Config, d: Config, a: Parsed)
    requires StacksOk(a.p) && !a.p.jump && a.p.fpos == c.p.fpos
    requires Matched(sh, c, d) && !c.aborted && c.p.fpos < |sh.script| && Joined(sh.script[c.p.fpos].words)
    ensures
      var words, failed := sh.script[c.p.fpos].words[1..], sh.status(|c.trace|);
      var r := ParseCommand(a.p, words, sh.seekable, failed);
      var d1 := Config(Placed(PlaceOf(sh.script), Place(sh.script, c.p.fpos) + 1, a.p), d.trace, false);
      && StacksOk(r.p) && StacksOk(d1.p) && !Halted(Beside(sh), d1)
      && Matched(sh, After(sh, c, r), Step(Beside(sh), d1))
  {
    hide Step, ParseCommand, After, Place, Spread, Placed, SavedInRange, Matched, NextLine;
    TraceSize(sh, c, d);
    var i := c.p.fpos;
    var g, words, failed := PlaceOf(sh.script), sh.script[i].words[1..], sh.status(|c.trace|);
    var x := Place(sh.script, i) + 1;
    var d1 := Config(Placed(g, x, a.p), d.trace, false);
    FirstPart(sh.script, i);
    SameNextLine(sh.script, i);
    PlacedSame(g, x, a.p);
    StepIs(Beside(sh), d1, words);
    assert Placed(g, x, a.p).(jump := false) == Placed(g, x, a.p);
    PlacedParse(g, x, a.p, words, sh.seekable, failed);
    NoJump(a.p, words, sh.seekable, failed);
    ParseKeepsStacks(a.p, words, sh.seekable, failed);
    var r := ParseCommand(a.p, words, sh.seekable, failed);
    AfterMatched(sh, c, d, r, x, x);
    AfterSame(Beside(sh), d.(p := d.p.(fpos := x)), d1, r.(p := Placed(g, x, r.p)));
  }

  /** A line with a keyword and a command, beside one or two steps. */
  lemma StepJoined(sh: Shell, c: Config, d: Config) returns (k: nat)
    requires StacksOk(c.p) && Matched(sh, c, d) && !c.aborted && c.p.fpos < |sh.script|
    requires Joined(sh.script[c.p.fpos].words) && Clear(Spread(sh.script), d.p)
    ensures StacksOk(d.p) && 1 <= k <= 2 && Matched(sh, Step(sh, c), Steps(Beside(sh), d, k))
    ensures k == 2 ==> !Halted(Beside(sh), Step(Beside(sh), d))
  {
    hide Step, ParseCommand, After, Place, Spread, SavedInRange, Clear;
    var i := c.p.fpos;
    var g, words, failed := PlaceOf(sh.script), sh.script[i].words, sh.status(|c.trace|);
    MatchedStacks(sh, c, d);
    FirstPart(sh.script, i);
    StepIs(sh, c, words);
    StepIs(Beside(sh), d, [words[0]]);
    NotMuddled(sh, c, d);
    var p := c.p.(jump := false);
    ParseJoined(p, words, sh.seekable, failed);
    MovedParse(g, p, [words[0]], sh.seekable, failed);
    JumpPlaced(g, g(i), c.p);
    var a := ParseCommand(p, [words[0]], sh.seekable, failed);
    TwoSteps(Beside(sh), d);
    if a.fault != NoFault {
      k := 1;
      KeywordFails(sh, c, d, a);
    } else {
      k := 2;
      KeywordPasses(sh, c, d, a);
      SecondHalf(sh, c, d, a);
    }
  }

  lemma TwoSteps(sh: Shell, c: Config)
    requires StacksOk(c.p)
    ensures Steps(sh, c, 0) == c && Steps(sh, c, 1) == Step(sh, c) && Steps(sh, c, 2) == Step(sh, Step(sh, c))
  {
    hide Step;
    assert Steps(sh, Step(sh, c), 0) == Step(sh, c);
    assert Steps(sh, Step(sh, c), 1) == Steps(sh, Step(sh, Step(sh, c)), 0);
  }

  // ---- Whole runs ----

  /** Both scripts at matching points, and the spread one clear. */
  predicate InStep(sh: Shell, c: Config, d: Config) {
    StacksOk(c.p) && StacksOk(d.p) && Matched(sh, c, d) && (d.aborted || Clear(Spread(sh.script), d.p))
  }

  lemma {:induction false} StaysClear(sh: Shell, c: Config, n: nat)
    requires StacksOk(c.p) && Orderly(sh.script) && (c.aborted || Clear(sh.script, c.p))
    ensures Steps(sh, c, n).aborted || Clear(sh.script, Steps(sh, c, n).p)
    decreases n
  {
    hide Step, Clear, Orderly;
    if n > 0 {
      if c.aborted {
        HaltedStays(sh, c, n);
      } else {
        StepClear(sh, c);
        StaysClear(sh, Step(sh, c), n - 1);
      }
    }
  }

  /** One step of the script beside one or two of the spread one. */
  lemma StepInStep(sh: Shell, c: Config, d: Config) returns (k: nat)
    requires InStep(sh, c, d) && Orderly(Spread(sh.script)) && !Halted(sh, c)
    ensures 1 <= k <= 2 && InStep(sh, Step(sh, c), Steps(Beside(sh), d, k))
    ensures !Halted(Beside(sh), d) && (k == 2 ==> !Halted(Beside(sh), Step(Beside(sh), d)))
  {
    hide Step, Clear, Matched, Orderly, Spread, SavedInRange;
    MatchedStacks(sh, c, d);
    if Joined(sh.script[c.p.fpos].words) {
      k := StepJoined(sh, c, d);
    } else {
      k := 1;
      StepApart(sh, c, d);
      TwoSteps(Beside(sh), d);
    }
    StaysClear(Beside(sh), d, k);
  }

  /** Every point of the run has a matching one in the run of the spread script, after at least
      as many steps as long as it goes on, and at most twice as many. */
  lemma {:induction false} Follows(sh: Shell, c: Config, d: Config, n: nat) returns (m: nat)
    requires InStep(sh, c, d) && Orderly(Spread(sh.script))
    ensures m <= 2 * n && InStep(sh, Steps(sh, c, n), Steps(Beside(sh), d, m))
    decreases n
  {
    hide Step, InStep, Orderly, Spread;
    InStepStacks(sh, c, d);
    if n == 0 {
      m := 0;
    } else if Halted(sh, c) {
      HaltedStays(sh, c, n);
      m := 0;
    } else {
      var k := StepInStep(sh, c, d);
      var rest := Follows(sh, Step(sh, c), Steps(Beside(sh), d, k), n - 1);
      StepsCompose(Beside(sh), d, k, rest);
      m := k + rest;
    }
  }

  lemma InStepStacks(sh: Shell, c: Config, d: Config)
    requires InStep(sh, c, d)
    ensures StacksOk(c.p) && StacksOk(d.p) && Matched(sh, c, d)
  {
  }

  /** When the spread script has ended, so has the script, at a matching point. */
  lemma {:induction false} EndsToo(sh: Shell, c: Config, d: Config, m: nat) returns (n: nat)
    requires InStep(sh, c, d) && Orderly(Spread(sh.script))
    requires StacksOk(d.p) && Halted(Beside(sh), Steps(Beside(sh), d, m))
    ensures StacksOk(c.p) && Halted(sh, Steps(sh, c, n)) && Matched(sh, Steps(sh, c, n), Steps(Beside(sh), d, m))
    decreases m
  {
    hide Step, InStep, Orderly, Spread, Matched, Halted;
    InStepStacks(sh, c, d);
    MatchedStacks(sh, c, d);
    if Halted(sh, c) {
      HaltedStays(Beside(sh), d, m);
      n := 0;
    } else {
      var k := StepInStep(sh, c, d);
      NotYet(Beside(sh), d, k, m);
      StepsCompose(Beside(sh), d, k, m - k);
      InStepStacks(sh, Step(sh, c), Steps(Beside(sh), d, k));
      n := EndsToo(sh, Step(sh, c), Steps(Beside(sh), d, k), m - k);
      n := n + 1;
    }
  }

  lemma NotYet(sh: Shell, c: Config, k: nat, m: nat)
    requires StacksOk(c.p) && 1 <= k <= 2 && !Halted(sh, c) && (k == 2 ==> !Halted(sh, Step(sh, c)))
    requires Halted(sh, Steps(sh, c, m))
    ensures k <= m
  {
    hide Step, Halted;
    TwoSteps(sh, c);
  }
}
