/** Lines that nsh_loop or nsh_itef refuse: exactly which they are, in every state, and what
    they leave of the two stacks when the script goes on. */
module NshRefusal {
  import opened Common
  import opened NshControl
  import opened NshScript

  /** A test needs a first word, and one that did not expand to nothing. */
  predicate HasTest(words: Line) {
    words != [] && words[0] != Blank
  }

  /** The words of an if behind its `!`, if it has one. */
  function TestOf(words: Line): Line {
    if words != [] && words[0] == KBang then words[1..] else words
  }

  lemma LoopRefusedIff(p: Parser, line: Line, seekable: bool)
    requires StacksOk(p) && line != []
    ensures NshLoop(p, line, seekable).fault != NoFault <==>
      if line[0] == KDo then !AwaitsLoopTest(p)
      else if line[0] == KDone then |line| > 1 || TopLoop(p).state != LoopDo
      else
        || AwaitsLoopTest(p)
        || (line[0] in {KWhile, KUntil} &&
            (!HasTest(line[1..]) || TopItef(p).state == ItefIf || !seekable || p.lpndx + 1 == |p.lpstate|))
  {
  }

  lemma ItefRefusedIff(p: Parser, line: Line)
    requires StacksOk(p) && line != []
    ensures NshItef(p, line).fault != NoFault <==>
      if line[0] == KThen then TopItef(p).state != ItefIf
      else if line[0] == KElse then TopItef(p).state != ItefThen
      else if line[0] == KFi then |line| > 1 || TopItef(p).state !in {ItefThen, ItefElse}
      else
        || TopItef(p).state == ItefIf
        || (line[0] == KIf && (!HasTest(TestOf(line[1..])) || p.iendx + 1 == |p.iestate|))
  {
  }

  /** A refused loop line closes every loop and no if.  It is an error, unless an `if` still
      waits for its `then`: that if takes it for a failed test. */
  lemma RefusedLoop(p: Parser, line: Line, seekable: bool, failed: bool)
    requires StacksOk(p) && NshLoop(p, line, seekable).fault != NoFault
    ensures var r, waiting := ParseCommand(p, line, seekable, failed), TopItef(p).state == ItefIf;
            && r.ran.None? && r.fault != NoFault && r.err == r.p.fail == !waiting
            && InRange(r.p) && r.p.lpndx == 0 && TopLoop(r.p).state == LoopNormal && TopLoop(r.p).enable
            && TopLoop(r.p).topoffs == 0
            && !r.p.jump && r.p.fpos == p.fpos && r.p.iendx == p.iendx
            && r.p.iestate ==
               (if waiting then p.iestate[p.iendx := TopItef(p).(ifcond := !TopItef(p).inverted)] else p.iestate)
  {
    hide NshWhile, NshDone, ParseItef, SavedInRange;
    LoopResets(p, line, seekable);
  }

  lemma LoopResets(p: Parser, line: Line, seekable: bool)
    requires StacksOk(p) && NshLoop(p, line, seekable).fault != NoFault
    ensures NshLoop(p, line, seekable).p == ResetLoops(p)
  {
    hide ResetLoops, SavedInRange;
  }

  /** A refused if line closes every if and no loop.  It is an error, unless it is the test of
      a loop: that loop takes it for a failed test. */
  lemma RefusedItef(p: Parser, line: Line, seekable: bool, failed: bool)
    requires StacksOk(p) && NshLoop(p, line, seekable).fault == NoFault
    requires var d := NshLoop(p, line, seekable); InRange(d.p) && NshItef(d.p, d.rest).fault != NoFault
    ensures var d, r := NshLoop(p, line, seekable), ParseCommand(p, line, seekable, failed);
            && r.ran.None? && r.fault != NoFault && r.err == r.p.fail == !AwaitsLoopTest(d.p)
            && InRange(r.p) && r.p.iendx == 0 && TopItef(r.p) == Itef(ItefNormal, false, false, false)
            && r.p.jump == d.p.jump && r.p.fpos == d.p.fpos && r.p.lpndx == d.p.lpndx
            && r.p.lpstate ==
               (if AwaitsLoopTest(d.p)
                then d.p.lpstate[d.p.lpndx := TopLoop(d.p).(enable := TopLoop(d.p).state == LoopUntil)]
                else d.p.lpstate)
  {
    hide NshLoop, NshIf, NshFi, Execute, SavedInRange;
    LoopKeepsStacks(p, line, seekable);
    var d := NshLoop(p, line, seekable);
    ItefResets(d.p, d.rest);
  }

  lemma ItefResets(p: Parser, line: Line)
    requires StacksOk(p) && NshItef(p, line).fault != NoFault
    ensures NshItef(p, line).p == ResetItefs(p)
  {
    hide ResetItefs, SavedInRange;
  }

  /** A refused line in a script: an error ends the script, or, when errors are ignored, drops
      the rest of its text line; what is no error only moves on. */
  lemma RefusedStep(sh: Shell, c: Config)
    requires StacksOk(c.p) && !Halted(sh, c)
    requires NshLoop(c.p.(jump := false), sh.script[c.p.fpos].words, sh.seekable).fault != NoFault
    ensures var waiting := TopItef(c.p).state == ItefIf;
            var c' := Step(sh, c);
            && c'.trace == c.trace && c'.p.lpndx == 0 && c'.p.iendx == c.p.iendx
            && c'.aborted == (!waiting && !sh.ignore)
            && (!c'.aborted ==>
                  c'.p.fpos == if waiting then c.p.fpos + 1 else NextLine(sh.script, c.p.fpos))
  {
    hide NshLoop, ParseCommand, SavedInRange;
    var start, words := c.p.(jump := false), sh.script[c.p.fpos].words;
    FlagsKeepStacks(c.p, c.p.fail, false, c.p.fpos);
    RefusedLoop(start, words, sh.seekable, sh.status(|c.trace|));
  }

  /** A command that fails, outside every test: it has been run, and its error ends the script
      or, when errors are ignored, drops the rest of its text line. */
  lemma FailedStep(sh: Shell, c: Config)
    requires StacksOk(c.p) && !Halted(sh, c) && CmdEnabled(c.p) && sh.status(|c.trace|)
    requires sh.script[c.p.fpos].words != [] && sh.script[c.p.fpos].words[0].Name?
    requires !AwaitsLoopTest(c.p) && TopItef(c.p).state != ItefIf
    ensures var c' := Step(sh, c);
            && c'.trace == c.trace + [Ran(c.p.fpos, sh.script[c.p.fpos].words)]
            && c'.p.fail && c'.aborted == !sh.ignore
            && c'.p.lpndx == c.p.lpndx && c'.p.iendx == c.p.iendx
            && (sh.ignore ==> c'.p.fpos == NextLine(sh.script, c.p.fpos))
  {
    hide ParseCommand, SavedInRange;
    FlagsKeepStacks(c.p, c.p.fail, false, c.p.fpos);
    FailedParse(c.p.(jump := false), sh.script[c.p.fpos].words, sh.seekable);
  }

  lemma FailedParse(p: Parser, words: Line, seekable: bool)
    requires StacksOk(p) && CmdEnabled(p) && words != [] && words[0].Name?
    requires !AwaitsLoopTest(p) && TopItef(p).state != ItefIf
    ensures ParseCommand(p, words, seekable, true) == Parsed(p.(fail := true), Some(words), true, NoFault)
  {
    hide NshWhile, NshDone, NshIf, NshFi, SavedInRange;
  }

  /** Whether the script can be read again matters to loop heads alone, which are refused
      where it cannot. */
  lemma SeekableForLoops(p: Parser, line: Line, failed: bool)
    requires StacksOk(p)
    ensures line != [] && line[0] in {KWhile, KUntil} ==> NshLoop(p, line, false).fault != NoFault
    ensures line == [] || line[0] !in {KWhile, KUntil} ==>
              ParseCommand(p, line, false, failed) == ParseCommand(p, line, true, failed)
  {
    hide NshDone, ParseItef, SavedInRange, ResetLoops;
  }

  /** A script without loop heads runs the same whether or not it can be read again. */
  lemma {:induction false} SeekableUnneeded(sh: Shell, c: Config, n: nat)
    requires StacksOk(c.p)
    requires forall i | 0 <= i < |sh.script| ::
      sh.script[i].words == [] || sh.script[i].words[0] !in {KWhile, KUntil}
    ensures Steps(sh.(seekable := false), c, n) == Steps(sh.(seekable := true), c, n)
    decreases n
  {
    hide Step, SavedInRange;
    if n > 0 {
      SeekableStep(sh, c);
      SeekableUnneeded(sh, Step(sh.(seekable := true), c), n - 1);
    }
  }

  lemma SeekableStep(sh: Shell, c: Config)
    requires StacksOk(c.p)
    requires Halted(sh, c) || sh.script[c.p.fpos].words == [] || sh.script[c.p.fpos].words[0] !in {KWhile, KUntil}
    ensures Step(sh.(seekable := false), c) == Step(sh.(seekable := true), c)
  {
    hide ParseCommand, SavedInRange;
    if !Halted(sh, c) {
      FlagsKeepStacks(c.p, c.p.fail, false, c.p.fpos);
      SeekableForLoops(c.p.(jump := false), sh.script[c.p.fpos].words, sh.status(|c.trace|));
    }
  }
}
