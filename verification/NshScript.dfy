/** Running a script: the read/parse/seek loop of apps/nshlib/nsh_script.c and the
    semicolon loop of nsh_parse, one command at a time. */
module NshScript {
  import opened NshControl

  /** A command of a script; `eol` is false when a semicolon follows it on its line. */
  datatype Command = Command(words: Line, eol: bool)

  /** Does the k-th executed command fail? */
  type Oracle = nat -> bool

  /** `ignore` is the error-ignore option (NSH_PFLAG_IGNORE); the default is false.
      `seekable` says that the script has a descriptor whose position is known. */
  datatype Shell = Shell(script: seq<Command>, status: Oracle, ignore: bool, seekable: bool)

  /** An executed command: its offset in the script and its words. */
  datatype Ran = Ran(pos: nat, argv: Line)

  /** `trace` holds the executed commands; `aborted` is set when an error ended the script. */
  datatype Config = Config(p: Parser, trace: seq<Ran>, aborted: bool)

  function Idle(depth: nat): Parser {
    Parser(0, seq(depth, _ => Itef(ItefNormal, false, false, false)),
           0, seq(depth, _ => Loop(LoopNormal, false, 0, 0)), false, false, 0)
  }

  predicate Halted(sh: Shell, c: Config) {
    c.aborted || |sh.script| <= c.p.fpos
  }

  /** The offset of the line after the command at `pos`. */
  function NextLine(script: seq<Command>, pos: nat): (r: nat)
    requires pos < |script|
    ensures pos < r <= |script|
    ensures forall i | pos <= i < r - 1 :: !script[i].eol
    ensures r < |script| ==> script[r - 1].eol
    decreases |script| - pos
  {
    if script[pos].eol || pos + 1 == |script| then pos + 1 else NextLine(script, pos + 1)
  }

  /** Neither stack depends on the flags and the offset. */
  lemma FlagsKeepStacks(p: Parser, fail: bool, jump: bool, fpos: nat)
    requires StacksOk(p)
    ensures StacksOk(p.(fail := fail, jump := jump, fpos := fpos))
  {
  }

  lemma SetLoopKeepsStacks(p: Parser, l: Loop)
    requires StacksOk(p) && l.iendx == TopLoop(p).iendx && (p.lpndx == 0 ==> l.state == LoopNormal)
    ensures StacksOk(SetTopLoop(p, l))
  {
  }

  lemma SetItefKeepsStacks(p: Parser, e: Itef)
    requires StacksOk(p) && (p.iendx == 0 ==> e.state == ItefNormal)
    ensures StacksOk(SetTopItef(p, e))
  {
  }

  lemma SaveKeepsStacks(p: Parser, failed: bool)
    requires StacksOk(p)
    ensures StacksOk(SaveResult(p, failed).p)
  {
    hide SetTopLoop, SetTopItef, SavedInRange;
    var l, e := TopLoop(p), TopItef(p);
    var q := if AwaitsLoopTest(p) then SetTopLoop(p, l.(enable := if l.state == LoopWhile then !failed else failed))
             else if e.state == ItefIf then SetTopItef(p, e.(ifcond := e.inverted != failed))
             else p;
    if AwaitsLoopTest(p) {
      SetLoopKeepsStacks(p, l.(enable := if l.state == LoopWhile then !failed else failed));
    } else if e.state == ItefIf {
      SetItefKeepsStacks(p, e.(ifcond := e.inverted != failed));
    }
    var s := SaveResult(p, failed);
    assert s.p == q.(fail := s.err);
    FlagsKeepStacks(q, s.err, q.jump, q.fpos);
  }

  lemma BreakKeepsStacks(p: Parser)
    requires StacksOk(p)
    ensures StacksOk(CmdBreak(p))
  {
  }

  lemma ExecuteKeepsStacks(p: Parser, line: Line, failed: bool)
    requires StacksOk(p)
    ensures StacksOk(Execute(p, line, failed).p)
  {
    hide SavedInRange, SaveResult;
    SaveKeepsStacks(p, failed);
    BreakKeepsStacks(p);
    SaveKeepsStacks(CmdBreak(p), false);
  }

  lemma ParseItefKeepsStacks(p: Parser, line: Line, failed: bool)
    requires StacksOk(p)
    ensures StacksOk(ParseItef(p, line, failed).p)
  {
    hide NshItef, Execute, SaveResult, SavedInRange;
    ItefKeepsStacks(p, line);
    var d := NshItef(p, line);
    SaveKeepsStacks(d.p, true);
    ExecuteKeepsStacks(d.p, d.rest, failed);
  }

  lemma {:induction false} ParseKeepsStacks(p: Parser, line: Line, seekable: bool, failed: bool)
    requires StacksOk(p)
    ensures StacksOk(ParseCommand(p, line, seekable, failed).p)
  {
    hide NshLoop, ParseItef, SaveResult, SavedInRange;
    LoopKeepsStacks(p, line, seekable);
    var d := NshLoop(p, line, seekable);
    SaveKeepsStacks(d.p, true);
    ParseItefKeepsStacks(d.p, d.rest, failed);
  }

  /** Where the script goes on after a command with the given outcome. */
  function After(sh: Shell, c: Config, r: Parsed): (c': Config)
    requires StacksOk(r.p) && c.p.fpos < |sh.script|
    ensures StacksOk(c'.p)
  {
    var trace := if r.ran.Some? then c.trace + [Ran(c.p.fpos, r.ran.value)] else c.trace;
    FlagsKeepStacks(r.p, r.p.fail, r.p.jump, c.p.fpos + 1);
    FlagsKeepStacks(r.p, r.p.fail, r.p.jump, NextLine(sh.script, c.p.fpos));
    if r.p.jump then Config(r.p, trace, false)
    else if !r.err then Config(r.p.(fpos := c.p.fpos + 1), trace, false)
    else if sh.ignore then Config(r.p.(fpos := NextLine(sh.script, c.p.fpos)), trace, false)
    else Config(r.p, trace, true)
  }

  function Step(sh: Shell, c: Config): (c': Config)
    requires StacksOk(c.p)
    ensures StacksOk(c'.p)
  {
    if Halted(sh, c) then c
    else
      var start, words, failed := c.p.(jump := false), sh.script[c.p.fpos].words, sh.status(|c.trace|);
      ParseKeepsStacks(start, words, sh.seekable, failed);
      After(sh, c, ParseCommand(start, words, sh.seekable, failed))
  }

  function Steps(sh: Shell, c: Config, n: nat): (c': Config)
    requires StacksOk(c.p)
    ensures StacksOk(c'.p)
    decreases n
  {
    if n == 0 then c else Steps(sh, Step(sh, c), n - 1)
  }

  lemma {:induction false} StepsCompose(sh: Shell, c: Config, m: nat, n: nat)
    requires StacksOk(c.p)
    ensures Steps(sh, c, m + n) == Steps(sh, Steps(sh, c, m), n)
    decreases m
  {
    hide Step;
    if m != 0 {
      StepsCompose(sh, Step(sh, c), m - 1, n);
    }
  }

  lemma {:induction false} HaltedStays(sh: Shell, c: Config, n: nat)
    requires StacksOk(c.p) && Halted(sh, c)
    ensures Steps(sh, c, n) == c
    decreases n
  {
    if n != 0 {
      HaltedStays(sh, c, n - 1);
    }
  }
}
