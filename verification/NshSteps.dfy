/** What one step of the flat machine does on each kind of command line. */
module NshSteps {
  import opened Common
  import opened NshControl
  import opened NshScript
  import opened NshStructured

  /** The machine is about to read the command `words`. */
  predicate Ready(sh: Shell, c: Config, words: Line) {
    StacksOk(c.p) && !c.aborted && c.p.fpos < |sh.script| && sh.script[c.p.fpos].words == words
  }

  /** Between two statements: no test is awaited on either stack. */
  predicate Settled(p: Parser) {
    StacksOk(p) && TopItef(p).state != ItefIf && !AwaitsLoopTest(p)
  }

  /** In error-ignore mode a failing command drops the rest of its line, so there nothing
      may follow a command on its line. */
  predicate LaidOut(sh: Shell) {
    sh.seekable && (sh.ignore ==> forall i | 0 <= i < |sh.script| && PlainWords(sh.script[i].words) :: sh.script[i].eol)
  }

  lemma LoopPasses(p: Parser, line: Line, seekable: bool)
    requires InRange(p) && line != [] && !AwaitsLoopTest(p)
    requires !(line[0] in {KWhile, KUntil, KDo, KDone})
    ensures NshLoop(p, line, seekable) == Dispatch(p, line, NoFault)
  {
  }

  lemma ItefPasses(p: Parser, line: Line)
    requires InRange(p) && line != [] && TopItef(p).state != ItefIf
    requires !(line[0] in {KIf, KThen, KElse, KFi})
    ensures NshItef(p, line) == Dispatch(p, line, NoFault)
  {
  }

  lemma ItefOpens(p: Parser, inverted: bool, test: Line)
    requires Settled(p) && PlainWords(test) && p.iendx + 1 < |p.iestate|
    ensures NshItef(p, IfLine(inverted, test)) == Dispatch(PushItef(p, inverted), test, NoFault)
  {
    var line := IfLine(inverted, test);
    assert line[0] == KIf;
    assert inverted ==> line[1] == KBang && line[1..][1..] == test;
    assert !inverted ==> line[1..] == test;
  }

  lemma LoopOpens(p: Parser, until: bool, test: Line)
    requires Settled(p) && PlainWords(test) && p.lpndx + 1 < |p.lpstate|
    ensures NshLoop(p, RepeatLine(until, test), true)
         == Dispatch(PushLoop(p, if until then LoopUntil else LoopWhile), test, NoFault)
  {
    var line := RepeatLine(until, test);
    assert line[0] == (if until then KUntil else KWhile);
    assert line[1..] == test;
  }

  /** A step is one command, and then the move to the next one. */
  lemma StepIs(sh: Shell, c: Config, words: Line)
    requires Ready(sh, c, words)
    ensures
      var p := c.p.(jump := false);
      && StacksOk(p)
      && var r := ParseCommand(p, words, sh.seekable, sh.status(|c.trace|));
         StacksOk(r.p) && Step(sh, c) == After(sh, c, r)
  {
    hide ParseCommand, After, SavedInRange;
    var p := c.p.(jump := false);
    FlagsKeepStacks(c.p, c.p.fail, false, c.p.fpos);
    ParseKeepsStacks(p, words, sh.seekable, sh.status(|c.trace|));
  }

  lemma ParseSimple(p: Parser, words: Line, seekable: bool, failed: bool)
    requires Settled(p) && PlainWords(words)
    ensures ParseCommand(p, words, seekable, failed) ==
            if !CmdEnabled(p) then Parsed(p, None, false, NoFault)
            else Parsed(p.(fail := failed), Some(words), failed, NoFault)
  {
    hide NshLoop, NshItef, SavedInRange;
    LoopPasses(p, words, seekable);
    ItefPasses(p, words);
  }

  lemma StepSimple(sh: Shell, c: Config, words: Line)
    requires Ready(sh, c, words) && Settled(c.p) && LaidOut(sh) && PlainWords(words)
    ensures
      var failed := sh.status(|c.trace|);
      var p := c.p.(jump := false);
      Step(sh, c) ==
        if !CmdEnabled(c.p) then Config(p.(fpos := c.p.fpos + 1), c.trace, false)
        else if failed && !sh.ignore then Config(p.(fail := true), c.trace + [Ran(c.p.fpos, words)], true)
        else Config(p.(fail := failed, fpos := c.p.fpos + 1), c.trace + [Ran(c.p.fpos, words)], false)
  {
    hide Step, ParseCommand, SavedInRange;
    StepIs(sh, c, words);
    ParseSimple(c.p.(jump := false), words, sh.seekable, sh.status(|c.trace|));
  }

  lemma ParseBreak(p: Parser, seekable: bool, failed: bool)
    requires Settled(p)
    ensures ParseCommand(p, [KBreak], seekable, failed) ==
            if !CmdEnabled(p) then Parsed(p, None, false, NoFault)
            else var s := SaveResult(CmdBreak(p), false); Parsed(s.p, None, s.err, NoFault)
  {
    hide NshLoop, NshItef, SavedInRange;
    LoopPasses(p, [KBreak], seekable);
    ItefPasses(p, [KBreak]);
  }

  lemma StepBreak(sh: Shell, c: Config)
    requires Ready(sh, c, [KBreak]) && Settled(c.p)
    requires TopLoop(c.p).state == LoopDo ==> TopLoop(c.p).iendx == c.p.iendx
    ensures
      var p := c.p.(jump := false, fpos := c.p.fpos + 1);
      Step(sh, c) ==
        Config(if !CmdEnabled(c.p) then p
               else if TopLoop(c.p).state == LoopDo then
                 SetTopLoop(p, TopLoop(c.p).(enable := false)).(fail := false)
               else p.(fail := false), c.trace, false)
  {
    hide Step, ParseCommand, SavedInRange;
    StepIs(sh, c, [KBreak]);
    ParseBreak(c.p.(jump := false), sh.seekable, sh.status(|c.trace|));
  }

  function IfLine(inverted: bool, test: Line): Line {
    [KIf] + (if inverted then [KBang] else []) + test
  }

  lemma ParseIf(p: Parser, inverted: bool, test: Line, seekable: bool, failed: bool)
    requires Settled(p) && PlainWords(test) && p.iendx + 1 < |p.iestate|
    ensures
      var q := PushItef(p, inverted);
      ParseCommand(p, IfLine(inverted, test), seekable, failed) ==
        if !CmdEnabled(p) then Parsed(q, None, false, NoFault)
        else Parsed(SetTopItef(q, Itef(ItefIf, false, inverted != failed, inverted)).(fail := false),
                    Some(test), false, NoFault)
  {
    hide NshLoop, NshItef, SavedInRange;
    LoopPasses(p, IfLine(inverted, test), seekable);
    ItefOpens(p, inverted, test);
    var q := PushItef(p, inverted);
    assert CmdEnabled(q) == CmdEnabled(p);
  }

  lemma StepIf(sh: Shell, c: Config, inverted: bool, test: Line)
    requires Ready(sh, c, IfLine(inverted, test)) && Settled(c.p) && PlainWords(test)
    requires c.p.iendx + 1 < |c.p.iestate|
    ensures
      var failed := sh.status(|c.trace|);
      var p := PushItef(c.p.(jump := false), inverted);
      Step(sh, c) ==
        if !CmdEnabled(c.p) then Config(p.(fpos := c.p.fpos + 1), c.trace, false)
        else Config(SetTopItef(p, Itef(ItefIf, false, inverted != failed, inverted))
                    .(fail := false, fpos := c.p.fpos + 1),
                    c.trace + [Ran(c.p.fpos, test)], false)
  {
    hide Step, ParseCommand, IfLine, SavedInRange;
    StepIs(sh, c, IfLine(inverted, test));
    ParseIf(c.p.(jump := false), inverted, test, sh.seekable, sh.status(|c.trace|));
  }

  lemma ParseThen(p: Parser, seekable: bool, failed: bool)
    requires StacksOk(p) && TopItef(p).state == ItefIf && !AwaitsLoopTest(p)
    ensures ParseCommand(p, [KThen], seekable, failed) ==
            Parsed(SetTopItef(p, TopItef(p).(state := ItefThen)), None, false, NoFault)
  {
    hide NshLoop, SavedInRange;
    LoopPasses(p, [KThen], seekable);
  }

  lemma StepThen(sh: Shell, c: Config)
    requires Ready(sh, c, [KThen]) && TopItef(c.p).state == ItefIf && !AwaitsLoopTest(c.p)
    ensures Step(sh, c) ==
            Config(SetTopItef(c.p, TopItef(c.p).(state := ItefThen)).(jump := false, fpos := c.p.fpos + 1),
                   c.trace, false)
  {
    hide Step, ParseCommand, SavedInRange;
    StepIs(sh, c, [KThen]);
    ParseThen(c.p.(jump := false), sh.seekable, sh.status(|c.trace|));
  }

  lemma ParseElse(p: Parser, seekable: bool, failed: bool)
    requires StacksOk(p) && TopItef(p).state == ItefThen && !AwaitsLoopTest(p)
    ensures ParseCommand(p, [KElse], seekable, failed) ==
            Parsed(SetTopItef(p, TopItef(p).(state := ItefElse)), None, false, NoFault)
  {
    hide NshLoop, SavedInRange;
    LoopPasses(p, [KElse], seekable);
  }

  lemma StepElse(sh: Shell, c: Config)
    requires Ready(sh, c, [KElse]) && TopItef(c.p).state == ItefThen && !AwaitsLoopTest(c.p)
    ensures Step(sh, c) ==
            Config(SetTopItef(c.p, TopItef(c.p).(state := ItefElse)).(jump := false, fpos := c.p.fpos + 1),
                   c.trace, false)
  {
    hide Step, ParseCommand, SavedInRange;
    StepIs(sh, c, [KElse]);
    ParseElse(c.p.(jump := false), sh.seekable, sh.status(|c.trace|));
  }

  lemma ParseFi(p: Parser, seekable: bool, failed: bool)
    requires StacksOk(p) && !AwaitsLoopTest(p) && TopItef(p).state in {ItefThen, ItefElse}
    ensures 1 <= p.iendx
    ensures ParseCommand(p, [KFi], seekable, failed) == Parsed(p.(iendx := p.iendx - 1), None, false, NoFault)
  {
    hide NshLoop, SavedInRange;
    LoopPasses(p, [KFi], seekable);
  }

  lemma StepFi(sh: Shell, c: Config)
    requires Ready(sh, c, [KFi]) && !AwaitsLoopTest(c.p)
    requires TopItef(c.p).state == ItefThen || TopItef(c.p).state == ItefElse
    ensures 1 <= c.p.iendx
    ensures Step(sh, c) ==
            Config(c.p.(iendx := c.p.iendx - 1, jump := false, fpos := c.p.fpos + 1), c.trace, false)
  {
    hide Step, ParseCommand, SavedInRange;
    StepIs(sh, c, [KFi]);
    ParseFi(c.p.(jump := false), sh.seekable, sh.status(|c.trace|));
  }

  function RepeatLine(until: bool, test: Line): Line {
    [if until then KUntil else KWhile] + test
  }

  lemma ParseRepeat(p: Parser, until: bool, test: Line, failed: bool)
    requires Settled(p) && PlainWords(test) && p.lpndx + 1 < |p.lpstate|
    ensures
      var state := if until then LoopUntil else LoopWhile;
      var q := PushLoop(p, state);
      ParseCommand(p, RepeatLine(until, test), true, failed) ==
        if !ItefEnabled(p) then Parsed(q, None, false, NoFault)
        else Parsed(SetTopLoop(q, Loop(state, failed == until, p.iendx, p.fpos)).(fail := false),
                    Some(test), false, NoFault)
  {
    hide NshLoop, NshItef, SavedInRange;
    LoopOpens(p, until, test);
    var q := PushLoop(p, if until then LoopUntil else LoopWhile);
    ItefPasses(q, test);
    assert CmdEnabled(q) == ItefEnabled(p);
  }

  /** The loop head looks only at the if-stack: the test also runs when the enclosing
      loop body is being skipped. */
  lemma StepRepeat(sh: Shell, c: Config, until: bool, test: Line)
    requires Ready(sh, c, RepeatLine(until, test)) && Settled(c.p) && PlainWords(test)
    requires sh.seekable && c.p.lpndx + 1 < |c.p.lpstate|
    ensures
      var failed := sh.status(|c.trace|);
      var state := if until then LoopUntil else LoopWhile;
      var p := PushLoop(c.p, state).(fpos := c.p.fpos + 1);
      Step(sh, c) ==
        if !ItefEnabled(c.p) then Config(p, c.trace, false)
        else Config(SetTopLoop(p, Loop(state, failed == until, c.p.iendx, c.p.fpos)).(fail := false),
                    c.trace + [Ran(c.p.fpos, test)], false)
  {
    hide Step, ParseCommand, RepeatLine, SavedInRange;
    StepIs(sh, c, RepeatLine(until, test));
    ParseRepeat(c.p.(jump := false), until, test, sh.status(|c.trace|));
  }

  lemma ParseDo(p: Parser, seekable: bool, failed: bool)
    requires StacksOk(p) && AwaitsLoopTest(p) && TopItef(p).state != ItefIf
    ensures ParseCommand(p, [KDo], seekable, failed) ==
            Parsed(SetTopLoop(p, TopLoop(p).(state := LoopDo)), None, false, NoFault)
  {
    hide SavedInRange;
  }

  lemma StepDo(sh: Shell, c: Config)
    requires Ready(sh, c, [KDo]) && AwaitsLoopTest(c.p)
    requires TopItef(c.p).state != ItefIf
    ensures Step(sh, c) ==
            Config(SetTopLoop(c.p, TopLoop(c.p).(state := LoopDo)).(jump := false, fpos := c.p.fpos + 1),
                   c.trace, false)
  {
    hide Step, ParseCommand, SavedInRange;
    StepIs(sh, c, [KDo]);
    ParseDo(c.p.(jump := false), sh.seekable, sh.status(|c.trace|));
  }

  lemma ParseDone(p: Parser, seekable: bool, failed: bool)
    requires StacksOk(p) && TopLoop(p).state == LoopDo
    ensures 1 <= p.lpndx
    ensures ParseCommand(p, [KDone], seekable, failed) == Parsed(PopLoop(p), None, false, NoFault)
  {
    hide PopLoop, SavedInRange;
  }

  lemma StepDone(sh: Shell, c: Config)
    requires Ready(sh, c, [KDone]) && TopLoop(c.p).state == LoopDo
    ensures 1 <= c.p.lpndx
    ensures
      var top := TopLoop(c.p);
      Step(sh, c) ==
      Config(SetTopLoop(c.p, top.(state := LoopNormal, enable := true))
             .(lpndx := c.p.lpndx - 1, jump := top.enable,
               fpos := if top.enable then top.topoffs else c.p.fpos + 1),
             c.trace, false)
  {
    hide Step, ParseCommand, SavedInRange;
    StepIs(sh, c, [KDone]);
    ParseDone(c.p.(jump := false), sh.seekable, sh.status(|c.trace|));
  }

  /** A fault in an if keyword ends the script unless errors are ignored. */
  lemma StepItefFault(sh: Shell, c: Config, words: Line)
    requires Ready(sh, c, words) && Settled(c.p) && !sh.ignore
    requires words != [] && words[0] in {KIf, KThen, KElse, KFi}
    requires var d := NshItef(c.p.(jump := false), words); d.fault != NoFault && d.p == ResetItefs(c.p.(jump := false))
    ensures Step(sh, c).aborted
  {
    hide Step, NshLoop, NshItef, SavedInRange;
    StepIs(sh, c, words);
    LoopPasses(c.p.(jump := false), words, sh.seekable);
  }
}
