/** The parser state as the C code keeps it: two fixed-size arrays, two indices and
    a few flags, updated in place (struct nsh_parser_s, apps/nshlib/nsh.h).  Every
    method is tied to the function of `NshControl` or `NshScript` that states it. */
module NshParser {
  import opened Common
  import opened NshControl
  import opened NshScript

  class ParserState {
    const iestate: array<Itef>
    const lpstate: array<Loop>
    var iendx: nat
    var lpndx: nat
    var fail: bool
    var jump: bool
    var fpos: nat

    ghost predicate Valid()
      reads this, iestate, lpstate
    {
      StacksOk(Abs())
    }

    ghost function Abs(): Parser
      reads this, iestate, lpstate
    {
      Parser(iendx, iestate[..], lpndx, lpstate[..], fail, jump, fpos)
    }

    /** All entries NORMAL, as left by the zeroed console structure. */
    constructor (depth: nat)
      requires 1 <= depth
      ensures Valid() && Abs() == Idle(depth)
      ensures fresh(iestate) && fresh(lpstate)
    {
      iestate := new Itef[depth](_ => Itef(ItefNormal, false, false, false));
      lpstate := new Loop[depth](_ => Loop(LoopNormal, false, 0, 0));
      iendx, lpndx, fail, jump, fpos := 0, 0, false, false, 0;
    }

    method LoopEnabledNow() returns (r: bool)
      requires Valid()
      ensures r == LoopEnabled(Abs())
    {
      if lpstate[lpndx].state == LoopDo {
        return lpstate[lpndx].enable;
      }
      return true;
    }

    method ItefEnabledNow() returns (r: bool)
      requires Valid()
      ensures r == ItefEnabled(Abs())
    {
      r := !iestate[iendx].disabled;
      if r {
        match iestate[iendx].state
        case ItefThen => r := !iestate[iendx].ifcond;
        case ItefElse => r := iestate[iendx].ifcond;
        case _ =>
      }
    }

    method CmdEnabledNow() returns (r: bool)
      requires Valid()
      ensures r == CmdEnabled(Abs())
    {
      r := LoopEnabledNow();
      if r {
        r := ItefEnabledNow();
      }
    }

    method LoopErrout()
      requires Valid()
      modifies this`jump, this`lpndx, lpstate
      ensures Abs() == ResetLoops(old(Abs())) && Valid()
    {
      jump := false;
      lpndx := 0;
      lpstate[0] := lpstate[0].(state := LoopNormal);
      lpstate[0] := lpstate[0].(enable := true);
      lpstate[0] := lpstate[0].(topoffs := 0);
      assert Abs() == ResetLoops(old(Abs()));
    }

    /** nsh_loop */
    method LoopKeywords(line: Line, seekable: bool) returns (rest: Line, fault: Fault)
      requires Valid()
      modifies this`jump, this`lpndx, this`fpos, lpstate
      ensures Valid()
      ensures Dispatch(Abs(), rest, fault) == NshLoop(old(Abs()), line, seekable)
    {
      hide NshWhile, NshDone, SavedInRange;
      LoopKeepsStacks(Abs(), line, seekable);
      rest, fault := line, NoFault;
      if line == [] {
        return;
      }
      if line[0] == KWhile || line[0] == KUntil {
        rest := line[1..];
        fault := While(if line[0] == KWhile then LoopWhile else LoopUntil, rest, seekable);
      } else if line[0] == KDo {
        rest := line[1..];
        if lpstate[lpndx].state != LoopWhile && lpstate[lpndx].state != LoopUntil {
          fault := BadContext;
        } else {
          lpstate[lpndx] := lpstate[lpndx].(state := LoopDo);
        }
      } else if line[0] == KDone {
        rest := line[1..];
        fault := Done(rest);
      } else if lpstate[lpndx].state == LoopWhile || lpstate[lpndx].state == LoopUntil {
        fault := BadContext;
      }
      if fault != NoFault {
        LoopErrout();
      }
    }

    /** The branch of nsh_loop for "while" and "until"; on a fault nothing is changed yet. */
    method While(state: LoopState, rest: Line, seekable: bool) returns (fault: Fault)
      requires Valid()
      modifies this`jump, this`lpndx, lpstate
      ensures var d := NshWhile(old(Abs()), state, rest, seekable);
              d.rest == rest && d.fault == fault && Abs() == if fault == NoFault then d.p else old(Abs())
    {
      hide SavedInRange;
      if rest == [] || rest[0] == Blank {
        return ArgInvalid;
      }
      if iestate[iendx].state == ItefIf
         || lpstate[lpndx].state == LoopWhile || lpstate[lpndx].state == LoopUntil
         || !seekable {
        return BadContext;
      }
      if lpndx >= lpstate.Length - 1 {
        return DeepNesting;
      }
      var enable := CmdEnabledNow();
      jump := false;
      lpndx := lpndx + 1;
      lpstate[lpndx] := Loop(state, enable, iendx, fpos);
      return NoFault;
    }

    /** The branch of nsh_loop for "done"; on a fault nothing is changed yet. */
    method Done(rest: Line) returns (fault: Fault)
      requires Valid()
      modifies this`jump, this`lpndx, this`fpos, lpstate
      ensures var d := NshDone(old(Abs()), rest);
              d.rest == rest && d.fault == fault && Abs() == if fault == NoFault then d.p else old(Abs())
    {
      hide SavedInRange;
      if rest != [] {
        return ArgInvalid;
      }
      if lpstate[lpndx].state != LoopDo {
        return BadContext;
      }
      if lpndx < 1 {
        return InternalError;
      }
      if lpstate[lpndx].enable {
        fpos := lpstate[lpndx].topoffs;
        jump := true;
      } else {
        lpstate[lpndx] := lpstate[lpndx].(enable := true);
      }
      lpstate[lpndx] := lpstate[lpndx].(state := LoopNormal);
      lpndx := lpndx - 1;
      assert lpstate[..] == PopLoop(old(Abs())).lpstate;
      return NoFault;
    }

    method ItefErrout()
      requires Valid()
      modifies this`iendx, iestate
      ensures Abs() == ResetItefs(old(Abs())) && Valid()
    {
      iendx := 0;
      iestate[0] := Itef(ItefNormal, false, false, false);
    }

    /** nsh_itef */
    method ItefKeywords(line: Line) returns (rest: Line, fault: Fault)
      requires Valid()
      modifies this`iendx, iestate
      ensures Valid()
      ensures Dispatch(Abs(), rest, fault) == NshItef(old(Abs()), line)
    {
      hide NshIf, NshFi, SavedInRange;
      ItefKeepsStacks(Abs(), line);
      rest, fault := line, NoFault;
      if line == [] {
        return;
      }
      if line[0] == KIf {
        rest, fault := If(line[1..]);
      } else if line[0] == KThen {
        rest := line[1..];
        if iestate[iendx].state != ItefIf {
          fault := BadContext;
        } else {
          iestate[iendx] := iestate[iendx].(state := ItefThen);
        }
      } else if line[0] == KElse {
        rest := line[1..];
        if iestate[iendx].state != ItefThen {
          fault := BadContext;
        } else {
          iestate[iendx] := iestate[iendx].(state := ItefElse);
        }
      } else if line[0] == KFi {
        rest := line[1..];
        fault := Fi(rest);
      } else if iestate[iendx].state == ItefIf {
        fault := BadContext;
      }
      if fault != NoFault {
        ItefErrout();
      }
    }

    /** The branch of nsh_itef for "if"; on a fault nothing is changed yet. */
    method If(words: Line) returns (rest: Line, fault: Fault)
      requires Valid()
      modifies this`iendx, iestate
      ensures var d := NshIf(old(Abs()), words);
              d.rest == rest && d.fault == fault && Abs() == if fault == NoFault then d.p else old(Abs())
    {
      hide SavedInRange;
      rest := words;
      var inverted := false;
      if rest == [] || rest[0] == Blank {
        return rest, ArgInvalid;
      }
      if rest[0] == KBang {
        inverted := true;
        rest := rest[1..];
      }
      if rest == [] || rest[0] == Blank {
        return rest, ArgInvalid;
      }
      if iestate[iendx].state == ItefIf {
        return rest, BadContext;
      }
      if iendx >= iestate.Length - 1 {
        return rest, DeepNesting;
      }
      var enabled := CmdEnabledNow();
      iendx := iendx + 1;
      iestate[iendx] := Itef(ItefIf, !enabled, false, inverted);
      return rest, NoFault;
    }

    /** The branch of nsh_itef for "fi"; on a fault nothing is changed yet. */
    method Fi(rest: Line) returns (fault: Fault)
      requires Valid()
      modifies this`iendx
      ensures var d := NshFi(old(Abs()), rest);
              d.rest == rest && d.fault == fault && Abs() == if fault == NoFault then d.p else old(Abs())
    {
      hide SavedInRange;
      if rest != [] {
        return ArgInvalid;
      }
      if iestate[iendx].state != ItefThen && iestate[iendx].state != ItefElse {
        return BadContext;
      }
      if iendx < 1 {
        return InternalError;
      }
      iendx := iendx - 1;
      return NoFault;
    }

    /** nsh_saveresult */
    method Save(failed: bool) returns (err: bool)
      requires Valid()
      modifies this`fail, iestate, lpstate
      ensures Valid() && Saved(Abs(), err) == SaveResult(old(Abs()), failed)
    {
      if lpstate[lpndx].state == LoopWhile {
        fail := false;
        lpstate[lpndx] := lpstate[lpndx].(enable := !failed);
        err := false;
      } else if lpstate[lpndx].state == LoopUntil {
        fail := false;
        lpstate[lpndx] := lpstate[lpndx].(enable := failed);
        err := false;
      } else if iestate[iendx].state == ItefIf {
        fail := false;
        iestate[iendx] := iestate[iendx].(ifcond := iestate[iendx].inverted != failed);
        err := false;
      } else {
        fail := failed;
        err := failed;
      }
    }

    /** cmd_break */
    method Break()
      requires Valid()
      modifies this`iendx, lpstate
      ensures Valid() && Abs() == CmdBreak(old(Abs()))
    {
      if lpstate[lpndx].state == LoopDo {
        iendx := lpstate[lpndx].iendx;
        lpstate[lpndx] := lpstate[lpndx].(enable := false);
      }
    }

    /** nsh_parse_command; `failed` is the status of the command, should it run. */
    method Parse(line: Line, seekable: bool, failed: bool)
      returns (ran: Option<Line>, err: bool, fault: Fault)
      requires Valid()
      modifies this, iestate, lpstate
      ensures Valid()
      ensures Parsed(Abs(), ran, err, fault) == ParseCommand(old(Abs()), line, seekable, failed)
    {
      var cmd;
      cmd, fault := LoopKeywords(line, seekable);
      ran := None;
      if fault != NoFault {
        err := Save(true);
        return;
      }
      cmd, fault := ItefKeywords(cmd);
      if fault != NoFault {
        err := Save(true);
        return;
      }
      var enabled := CmdEnabledNow();
      if cmd == [] || !enabled {
        err := false;
      } else if cmd[0] == KBreak {
        Break();
        err := Save(false);
      } else {
        ran := Some(cmd);
        err := Save(failed);
      }
    }

    /** One command of the script: the body of the loops of nsh_script and nsh_parse. */
    method Advance(sh: Shell, trace: seq<Ran>) returns (trace': seq<Ran>, aborted: bool)
      requires Valid() && fpos < |sh.script|
      modifies this, iestate, lpstate
      ensures Valid()
      ensures Config(Abs(), trace', aborted) == Step(sh, Config(old(Abs()), trace, false))
    {
      hide ParseCommand, SavedInRange;
      ghost var c := Config(Abs(), trace, false);
      FlagsKeepStacks(c.p, c.p.fail, false, c.p.fpos);
      var start := fpos;
      jump := false;
      assert Abs() == c.p.(jump := false);
      var ran, err, fault := Parse(sh.script[start].words, sh.seekable, sh.status(|trace|));
      ghost var r := Parsed(Abs(), ran, err, fault);
      trace', aborted := if ran.Some? then trace + [Ran(start, ran.value)] else trace, false;
      if !jump {
        if !err {
          fpos := start + 1;
        } else if sh.ignore {
          fpos := NextLine(sh.script, start);
        } else {
          aborted := true;
        }
      }
      assert Abs() == r.p.(fpos := fpos);
      assert Config(Abs(), trace', aborted) == After(sh, c, r);
    }

    /** The loop of nsh_script and nsh_parse, for the next `limit` commands of the script. */
    method Script(sh: Shell, limit: nat) returns (trace: seq<Ran>, aborted: bool)
      requires Valid()
      modifies this, iestate, lpstate
      ensures Valid()
      ensures Config(Abs(), trace, aborted) == Steps(sh, Config(old(Abs()), [], false), limit)
    {
      hide Step, SavedInRange;
      trace, aborted := [], false;
      var i := 0;
      while i < limit && !aborted && fpos < |sh.script|
        invariant i <= limit && Valid()
        invariant Steps(sh, Config(Abs(), trace, aborted), limit - i) == Steps(sh, Config(old(Abs()), [], false), limit)
      {
        trace, aborted := Advance(sh, trace);
        i := i + 1;
      }
      if i < limit {
        HaltedStays(sh, Config(Abs(), trace, aborted), limit - i);
      }
    }
  }
}
