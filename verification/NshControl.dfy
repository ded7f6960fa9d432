/** The control-flow core of the NSH command parser (apps/nshlib/nsh_parse.c).

    NSH has no syntax tree.  Every command of a script is dispatched against two
    bounded stacks: `iestate` for if/then/else/fi and `lpstate` for
    while/until/do/done.  A command arrives already split into words.

    The functions on the value type `Parser` state what one command does to the
    stacks.  The class `ParserState` holds the same state in fixed-size arrays, as
    the C structure does, and its methods are proved against those functions.
 */
module NshControl {
  import opened Common

  /** One word of a command.  `Blank` is a word that expanded to the empty string. */
  datatype Word =
    | KWhile | KUntil | KDo | KDone
    | KIf | KBang | KThen | KElse | KFi
    | KBreak | Blank | Name(text: string)

  type Line = seq<Word>

  datatype ItefState = ItefNormal | ItefIf | ItefThen | ItefElse

  datatype Itef = Itef(state: ItefState, disabled: bool, ifcond: bool, inverted: bool)

  datatype LoopState = LoopNormal | LoopWhile | LoopUntil | LoopDo

  datatype Loop = Loop(state: LoopState, enable: bool, iendx: nat, topoffs: nat)

  /** What made `nsh_loop` or `nsh_itef` give up.  `InternalError` is the branch that
      the source comments call "Shouldn't happen". */
  datatype Fault = NoFault | ArgInvalid | BadContext | DeepNesting | InternalError

  /** `fpos` is the offset of the command being processed; `jump` is set when
      `done` has moved it back to the top of a loop. */
  datatype Parser = Parser(
    iendx: nat, iestate: seq<Itef>,
    lpndx: nat, lpstate: seq<Loop>,
    fail: bool, jump: bool, fpos: nat)

  /** Both stacks have the same depth limit and both indices are below it. */
  predicate InRange(p: Parser) {
    p.iendx < |p.iestate| == |p.lpstate| && p.lpndx < |p.lpstate|
  }

  /** The saved if-index of every loop entry in use can be restored by `break`. */
  predicate SavedInRange(p: Parser) {
    InRange(p) && forall i | 1 <= i <= p.lpndx :: p.lpstate[i].iendx < |p.iestate|
  }

  /** The invariant of the two stacks; `NshSafety` proves what follows from it over every run. */
  predicate StacksOk(p: Parser) {
    && InRange(p)
    && SavedInRange(p)
    && p.iestate[0].state == ItefNormal
    && p.lpstate[0].state == LoopNormal
  }

  function TopItef(p: Parser): Itef
    requires InRange(p)
  {
    p.iestate[p.iendx]
  }

  function TopLoop(p: Parser): Loop
    requires InRange(p)
  {
    p.lpstate[p.lpndx]
  }

  predicate AwaitsLoopTest(p: Parser)
    requires InRange(p)
  {
    TopLoop(p).state == LoopWhile || TopLoop(p).state == LoopUntil
  }

  predicate LoopEnabled(p: Parser)
    requires InRange(p)
  {
    TopLoop(p).state == LoopDo ==> TopLoop(p).enable
  }

  predicate ItefEnabled(p: Parser)
    requires InRange(p)
  {
    var top := TopItef(p);
    && !top.disabled
    && (top.state == ItefThen ==> !top.ifcond)
    && (top.state == ItefElse ==> top.ifcond)
  }

  predicate CmdEnabled(p: Parser)
    requires InRange(p)
  {
    LoopEnabled(p) && ItefEnabled(p)
  }

  function SetTopLoop(p: Parser, l: Loop): Parser
    requires InRange(p)
  {
    p.(lpstate := p.lpstate[p.lpndx := l])
  }

  function SetTopItef(p: Parser, e: Itef): Parser
    requires InRange(p)
  {
    p.(iestate := p.iestate[p.iendx := e])
  }

  /** The new stacks and the words that are still to be processed. */
  datatype Dispatch = Dispatch(p: Parser, rest: Line, fault: Fault)

  function ResetLoops(p: Parser): (q: Parser)
    requires InRange(p)
    ensures StacksOk(p) ==> StacksOk(q)
  {
    p.(jump := false, lpndx := 0,
       lpstate := p.lpstate[0 := p.lpstate[0].(state := LoopNormal, enable := true, topoffs := 0)])
  }

  function ResetItefs(p: Parser): (q: Parser)
    requires InRange(p)
    ensures StacksOk(p) ==> StacksOk(q)
  {
    p.(iendx := 0, iestate := p.iestate[0 := Itef(ItefNormal, false, false, false)])
  }

  function PushLoop(p: Parser, state: LoopState): (q: Parser)
    requires InRange(p) && p.lpndx + 1 < |p.lpstate|
    ensures StacksOk(p) ==> StacksOk(q)
  {
    p.(jump := false, lpndx := p.lpndx + 1,
       lpstate := p.lpstate[p.lpndx + 1 := Loop(state, CmdEnabled(p), p.iendx, p.fpos)])
  }

  /** `done`: go back to the top of an enabled loop, otherwise fall through; either
      way the entry is popped. */
  function PopLoop(p: Parser): (q: Parser)
    requires InRange(p) && 1 <= p.lpndx
    ensures StacksOk(p) ==> StacksOk(q)
  {
    var top := TopLoop(p);
    var popped := SetTopLoop(p, top.(state := LoopNormal, enable := true)).(lpndx := p.lpndx - 1);
    if top.enable then popped.(fpos := top.topoffs, jump := true) else popped
  }

  /** `while` and `until`: open a loop entry, if the context and the nesting limit allow it. */
  function NshWhile(p: Parser, state: LoopState, rest: Line, seekable: bool): (d: Dispatch)
    requires InRange(p)
    ensures d.fault != NoFault ==> d.p == ResetLoops(p)
    ensures StacksOk(p) ==> StacksOk(d.p)
  {
    if rest == [] || rest[0] == Blank then Dispatch(ResetLoops(p), rest, ArgInvalid)
    else if TopItef(p).state == ItefIf || AwaitsLoopTest(p) || !seekable then
      Dispatch(ResetLoops(p), rest, BadContext)
    else if |p.lpstate| - 1 <= p.lpndx then Dispatch(ResetLoops(p), rest, DeepNesting)
    else Dispatch(PushLoop(p, state), rest, NoFault)
  }

  /** `done`, which takes no arguments. */
  function NshDone(p: Parser, rest: Line): (d: Dispatch)
    requires InRange(p)
    ensures d.fault != NoFault ==> d.p == ResetLoops(p)
    ensures StacksOk(p) ==> StacksOk(d.p)
  {
    if rest != [] then Dispatch(ResetLoops(p), rest, ArgInvalid)
    else if TopLoop(p).state != LoopDo then Dispatch(ResetLoops(p), rest, BadContext)
    else if p.lpndx < 1 then Dispatch(ResetLoops(p), rest, InternalError)
    else Dispatch(PopLoop(p), rest, NoFault)
  }

  function NshLoop(p: Parser, line: Line, seekable: bool): (d: Dispatch)
    requires InRange(p)
  {
    if line == [] then Dispatch(p, line, NoFault)
    else
      var rest := line[1..];
      match line[0]
      case KWhile => NshWhile(p, LoopWhile, rest, seekable)
      case KUntil => NshWhile(p, LoopUntil, rest, seekable)
      case KDo =>
        if !AwaitsLoopTest(p) then Dispatch(ResetLoops(p), rest, BadContext)
        else Dispatch(SetTopLoop(p, TopLoop(p).(state := LoopDo)), rest, NoFault)
      case KDone => NshDone(p, rest)
      case _ =>
        if AwaitsLoopTest(p) then Dispatch(ResetLoops(p), line, BadContext)
        else Dispatch(p, line, NoFault)
  }

  function PushItef(p: Parser, inverted: bool): (q: Parser)
    requires InRange(p) && p.iendx + 1 < |p.iestate|
    ensures StacksOk(p) ==> StacksOk(q)
  {
    p.(iendx := p.iendx + 1,
       iestate := p.iestate[p.iendx + 1 := Itef(ItefIf, !CmdEnabled(p), false, inverted)])
  }

  /** `if`, with an optional `!`: open an if entry, if the context and the limit allow it. */
  function NshIf(p: Parser, rest: Line): (d: Dispatch)
    requires InRange(p)
    ensures d.fault != NoFault ==> d.p == ResetItefs(p)
    ensures StacksOk(p) ==> StacksOk(d.p)
  {
    if rest == [] || rest[0] == Blank then Dispatch(ResetItefs(p), rest, ArgInvalid)
    else
      var inverted := rest[0] == KBang;
      var test := if inverted then rest[1..] else rest;
      if test == [] || test[0] == Blank then Dispatch(ResetItefs(p), test, ArgInvalid)
      else if TopItef(p).state == ItefIf then Dispatch(ResetItefs(p), test, BadContext)
      else if |p.iestate| - 1 <= p.iendx then Dispatch(ResetItefs(p), test, DeepNesting)
      else Dispatch(PushItef(p, inverted), test, NoFault)
  }

  /** `fi`, which takes no arguments: close the innermost if entry. */
  function NshFi(p: Parser, rest: Line): (d: Dispatch)
    requires InRange(p)
    ensures d.fault != NoFault ==> d.p == ResetItefs(p)
    ensures StacksOk(p) ==> StacksOk(d.p)
  {
    if rest != [] then Dispatch(ResetItefs(p), rest, ArgInvalid)
    else if TopItef(p).state != ItefThen && TopItef(p).state != ItefElse then
      Dispatch(ResetItefs(p), rest, BadContext)
    else if p.iendx < 1 then Dispatch(ResetItefs(p), rest, InternalError)
    else Dispatch(p.(iendx := p.iendx - 1), rest, NoFault)
  }

  function NshItef(p: Parser, line: Line): (d: Dispatch)
    requires InRange(p)
  {
    if line == [] then Dispatch(p, line, NoFault)
    else
      var rest := line[1..];
      match line[0]
      case KIf => NshIf(p, rest)
      case KThen =>
        if TopItef(p).state != ItefIf then Dispatch(ResetItefs(p), rest, BadContext)
        else Dispatch(SetTopItef(p, TopItef(p).(state := ItefThen)), rest, NoFault)
      case KElse =>
        if TopItef(p).state != ItefThen then Dispatch(ResetItefs(p), rest, BadContext)
        else Dispatch(SetTopItef(p, TopItef(p).(state := ItefElse)), rest, NoFault)
      case KFi => NshFi(p, rest)
      case _ =>
        if TopItef(p).state == ItefIf then Dispatch(ResetItefs(p), line, BadContext)
        else Dispatch(p, line, NoFault)
  }

  /** A result is stored as a loop test, an if test or the last command status. */
  datatype Saved = Saved(p: Parser, err: bool)

  function SaveResult(p: Parser, failed: bool): Saved
    requires InRange(p)
  {
    match TopLoop(p).state
    case LoopWhile => Saved(SetTopLoop(p, TopLoop(p).(enable := !failed)).(fail := false), false)
    case LoopUntil => Saved(SetTopLoop(p, TopLoop(p).(enable := failed)).(fail := false), false)
    case _ =>
      if TopItef(p).state == ItefIf then
        Saved(SetTopItef(p, TopItef(p).(ifcond := TopItef(p).inverted != failed)).(fail := false), false)
      else Saved(p.(fail := failed), failed)
  }

  function CmdBreak(p: Parser): Parser
    requires InRange(p)
  {
    if TopLoop(p).state == LoopDo then
      SetTopLoop(p, TopLoop(p).(enable := false)).(iendx := TopLoop(p).iendx)
    else p
  }

  /** The outcome of one command: new stacks, the command that was executed if any,
      whether the status is an error, and the fault that was reported if any. */
  datatype Parsed = Parsed(p: Parser, ran: Option<Line>, err: bool, fault: Fault)

  lemma LoopKeepsStacks(p: Parser, line: Line, seekable: bool)
    requires StacksOk(p)
    ensures StacksOk(NshLoop(p, line, seekable).p)
  {
    hide NshWhile, NshDone, ResetLoops;
  }

  lemma ItefKeepsStacks(p: Parser, line: Line)
    requires StacksOk(p)
    ensures StacksOk(NshItef(p, line).p)
  {
    hide NshIf, NshFi, ResetItefs;
  }

  /** The words left over by both dispatchers: `break`, or a command that is executed. */
  function Execute(p: Parser, line: Line, failed: bool): (r: Parsed)
    requires StacksOk(p)
  {
    if line == [] || !CmdEnabled(p) then
      Parsed(p, None, false, NoFault)
    else if line[0] == KBreak then
      var s := SaveResult(CmdBreak(p), false);
      Parsed(s.p, None, s.err, NoFault)
    else
      var s := SaveResult(p, failed);
      Parsed(s.p, Some(line), s.err, NoFault)
  }

  /** The words left over by the loop dispatcher. */
  function ParseItef(p: Parser, line: Line, failed: bool): (r: Parsed)
    requires StacksOk(p)
  {
    ItefKeepsStacks(p, line);
    var d := NshItef(p, line);
    if d.fault != NoFault then
      var s := SaveResult(d.p, true);
      Parsed(s.p, None, s.err, d.fault)
    else Execute(d.p, d.rest, failed)
  }

  /** One command, from its words to the saved result.  `failed` is the status the
      command itself ends with, should it be executed. */
  function ParseCommand(p: Parser, line: Line, seekable: bool, failed: bool): (r: Parsed)
    requires StacksOk(p)
  {
    LoopKeepsStacks(p, line, seekable);
    var d := NshLoop(p, line, seekable);
    if d.fault != NoFault then
      var s := SaveResult(d.p, true);
      Parsed(s.p, None, s.err, d.fault)
    else ParseItef(d.p, d.rest, failed)
  }
}
