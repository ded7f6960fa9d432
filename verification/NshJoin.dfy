/** A command on the line of the keyword before it: `then command`, `else command` and
    `do command`, also `do if test`.  Such a script runs as the one in which keyword and
    command are two commands of the same text line. */
module NshJoin {
  import opened Common
  import opened NshControl
  import opened NshScript
  import opened NshStructured
  import opened NshSteps

  predicate LoopWord(w: Word) {
    w in {KWhile, KUntil, KDo, KDone}
  }

  predicate ItefWord(w: Word) {
    w in {KIf, KThen, KElse, KFi}
  }

  /** A keyword followed by a command that is dispatched as if it stood alone: behind `do`
      the if keywords are looked for, behind `then` and `else` none. */
  predicate Joined(line: Line) {
    && |line| > 1
    && match line[0]
       case KThen => !LoopWord(line[1]) && !ItefWord(line[1])
       case KElse => !LoopWord(line[1]) && !ItefWord(line[1])
       case KDo => !LoopWord(line[1])
       case _ => false
  }

  // ---- One command ----

  /** The one state in which a misplaced keyword is reported without an error status: an `if`
      still awaits its `then`. */
  predicate Muddled(p: Parser, word: Word)
    requires InRange(p)
  {
    TopItef(p).state == ItefIf && (word == KDo || AwaitsLoopTest(p))
  }

  /** The keyword alone, and then the command, is the two on one line. */
  lemma ParseJoined(p: Parser, line: Line, seekable: bool, failed: bool)
    requires StacksOk(p) && !p.jump && Joined(line) && !Muddled(p, line[0])
    ensures
      var a := ParseCommand(p, [line[0]], seekable, failed);
      && StacksOk(a.p) && a.ran.None? && !a.p.jump && a.p.fpos == p.fpos && (a.err <==> a.fault != NoFault)
      && ParseCommand(p, line, seekable, failed) ==
         if a.fault != NoFault then a else ParseCommand(a.p, line[1..], seekable, failed)
  {
    hide SavedInRange;
    ParseKeepsStacks(p, [line[0]], seekable, failed);
    if line[0] == KDo {
      DoJoined(p, line, seekable, failed);
    } else {
      BranchJoined(p, line, seekable, failed);
    }
  }

  lemma DoJoined(p: Parser, line: Line, seekable: bool, failed: bool)
    requires StacksOk(p) && !p.jump && Joined(line) && line[0] == KDo && TopItef(p).state != ItefIf
    ensures
      var a := ParseCommand(p, [KDo], seekable, failed);
      && StacksOk(a.p) && a.ran.None? && !a.p.jump && a.p.fpos == p.fpos && (a.err <==> a.fault != NoFault)
      && ParseCommand(p, line, seekable, failed) ==
         if a.fault != NoFault then a else ParseCommand(a.p, line[1..], seekable, failed)
  {
    hide SavedInRange, ParseItef;
    ParseKeepsStacks(p, [KDo], seekable, failed);
    if AwaitsLoopTest(p) {
      var q := SetTopLoop(p, TopLoop(p).(state := LoopDo));
      ParseDo(p, seekable, failed);
      LoopPasses(q, line[1..], seekable);
    }
  }

  lemma BranchJoined(p: Parser, line: Line, seekable: bool, failed: bool)
    requires StacksOk(p) && !p.jump && Joined(line) && line[0] in {KThen, KElse}
    requires TopItef(p).state == ItefIf ==> !AwaitsLoopTest(p)
    ensures
      var a := ParseCommand(p, [line[0]], seekable, failed);
      && StacksOk(a.p) && a.ran.None? && !a.p.jump && a.p.fpos == p.fpos && (a.err <==> a.fault != NoFault)
      && ParseCommand(p, line, seekable, failed) ==
         if a.fault != NoFault then a else ParseCommand(a.p, line[1..], seekable, failed)
  {
    hide SavedInRange, Execute;
    ParseKeepsStacks(p, [line[0]], seekable, failed);
    if !AwaitsLoopTest(p) {
      LoopPasses(p, line, seekable);
      LoopPasses(p, [line[0]], seekable);
      assert [line[0]][1..] == [];
      var wanted := if line[0] == KThen then ItefIf else ItefThen;
      var next := if line[0] == KThen then ItefThen else ItefElse;
      if TopItef(p).state == wanted {
        var e := TopItef(p).(state := next);
        var q := SetTopItef(p, e);
        SetItefKeepsStacks(p, e);
        NothingLeft(q, failed);
        assert ParseCommand(p, [line[0]], seekable, failed) == Parsed(q, None, false, NoFault);
        LoopPasses(q, line[1..], seekable);
        ItefPasses(q, line[1..]);
      }
    }
  }

  lemma NothingLeft(p: Parser, failed: bool)
    requires StacksOk(p)
    ensures Execute(p, [], failed) == Parsed(p, None, false, NoFault)
  {
  }

  /** A command behind `then`, where one is awaited, is run exactly if the loop at hand is
      enabled, the `if` is not skipped and its test succeeded. */
  lemma ThenRuns(p: Parser, words: Line, seekable: bool, failed: bool)
    requires StacksOk(p) && TopItef(p).state == ItefIf && !AwaitsLoopTest(p) && PlainWords(words)
    ensures ParseCommand(p, [KThen] + words, seekable, failed).ran ==
            if (TopLoop(p).state == LoopDo ==> TopLoop(p).enable) && !TopItef(p).disabled && !TopItef(p).ifcond
            then Some(words) else None
  {
    hide SavedInRange;
    var line := [KThen] + words;
    var q := SetTopItef(p, TopItef(p).(state := ItefThen));
    assert line[1..] == words;
    LoopPasses(p, line, seekable);
  }

  /** A command behind `else` is run exactly if the loop at hand is enabled, the `if` is not
      skipped and its test failed. */
  lemma ElseRuns(p: Parser, words: Line, seekable: bool, failed: bool)
    requires StacksOk(p) && TopItef(p).state == ItefThen && !AwaitsLoopTest(p) && PlainWords(words)
    ensures ParseCommand(p, [KElse] + words, seekable, failed).ran ==
            if (TopLoop(p).state == LoopDo ==> TopLoop(p).enable) && !TopItef(p).disabled && TopItef(p).ifcond
            then Some(words) else None
  {
    hide SavedInRange;
    var line := [KElse] + words;
    assert line[1..] == words;
    LoopPasses(p, line, seekable);
  }

  /** A command behind `do` is run exactly if the loop test said so and the if-stack allows it. */
  lemma DoRuns(p: Parser, words: Line, seekable: bool, failed: bool)
    requires StacksOk(p) && AwaitsLoopTest(p) && TopItef(p).state != ItefIf && PlainWords(words)
    ensures ParseCommand(p, [KDo] + words, seekable, failed).ran ==
            if TopLoop(p).enable && ItefEnabled(p) then Some(words) else None
  {
    hide SavedInRange;
    var line := [KDo] + words;
    assert line[1..] == words;
    ItefPasses(SetTopLoop(p, TopLoop(p).(state := LoopDo)), words);
  }

  // ---- Moved places ----

  function MovedLoops(g: nat -> nat, ls: seq<Loop>): (r: seq<Loop>)
    ensures |r| == |ls| && forall i | 0 <= i < |ls| :: r[i] == ls[i].(topoffs := g(ls[i].topoffs))
  {
    seq(|ls|, i requires 0 <= i < |ls| => ls[i].(topoffs := g(ls[i].topoffs)))
  }

  /** The parser with the places its loops go back to moved, itself at `x`. */
  function Placed(g: nat -> nat, x: nat, p: Parser): Parser {
    p.(fpos := x, lpstate := MovedLoops(g, p.lpstate))
  }

  lemma MovedUpdate(g: nat -> nat, ls: seq<Loop>, k: nat, l: Loop)
    requires k < |ls|
    ensures MovedLoops(g, ls[k := l]) == MovedLoops(g, ls)[k := l.(topoffs := g(l.topoffs))]
  {
  }

  /** Nothing that the parser asks about its state depends on the places. */
  lemma PlacedSame(g: nat -> nat, x: nat, p: Parser)
    requires InRange(p)
    ensures var q := Placed(g, x, p);
            && InRange(q) && q.lpndx == p.lpndx && |q.lpstate| == |p.lpstate| && q.iendx == p.iendx
            && q.iestate == p.iestate && q.jump == p.jump && q.fail == p.fail && q.fpos == x
            && TopItef(q) == TopItef(p) && TopLoop(q) == TopLoop(p).(topoffs := g(TopLoop(p).topoffs))
            && AwaitsLoopTest(q) == AwaitsLoopTest(p) && CmdEnabled(q) == CmdEnabled(p)
            && (StacksOk(p) ==> StacksOk(q))
  {
  }

  lemma PlacedTop(g: nat -> nat, x: nat, p: Parser, l: Loop)
    requires InRange(p)
    ensures Placed(g, x, SetTopLoop(p, l)) == SetTopLoop(Placed(g, x, p), l.(topoffs := g(l.topoffs)))
  {
    MovedUpdate(g, p.lpstate, p.lpndx, l);
  }

  lemma PlacedReset(g: nat -> nat, x: nat, p: Parser)
    requires InRange(p) && g(0) == 0
    ensures Placed(g, x, ResetLoops(p)) == ResetLoops(Placed(g, x, p)) && ResetLoops(p).fpos == p.fpos
  {
    MovedUpdate(g, p.lpstate, 0, p.lpstate[0].(state := LoopNormal, enable := true, topoffs := 0));
  }

  lemma PlacedPush(g: nat -> nat, p: Parser, state: LoopState)
    requires InRange(p) && p.lpndx + 1 < |p.lpstate|
    ensures InRange(Placed(g, g(p.fpos), p))
    ensures Placed(g, g(p.fpos), PushLoop(p, state)) == PushLoop(Placed(g, g(p.fpos), p), state)
    ensures PushLoop(p, state).fpos == p.fpos
  {
    PlacedSame(g, g(p.fpos), p);
    MovedUpdate(g, p.lpstate, p.lpndx + 1, Loop(state, CmdEnabled(p), p.iendx, p.fpos));
  }

  lemma PlacedPop(g: nat -> nat, p: Parser)
    requires InRange(p) && 1 <= p.lpndx
    ensures InRange(Placed(g, g(p.fpos), p))
    ensures Placed(g, g(PopLoop(p).fpos), PopLoop(p)) == PopLoop(Placed(g, g(p.fpos), p))
  {
    PlacedTop(g, g(p.fpos), p, TopLoop(p).(state := LoopNormal, enable := true));
  }

  /** The loop keywords at the moved places. */
  lemma PlacedLoop(g: nat -> nat, p: Parser, line: Line, seekable: bool)
    requires InRange(p) && g(0) == 0
    ensures InRange(Placed(g, g(p.fpos), p))
    ensures var d := NshLoop(p, line, seekable);
            NshLoop(Placed(g, g(p.fpos), p), line, seekable) == d.(p := Placed(g, g(d.p.fpos), d.p))
  {
    hide NshWhile, NshDone, ResetLoops, SetTopLoop, Placed, CmdEnabled;
    var x := g(p.fpos);
    PlacedSame(g, x, p);
    PlacedReset(g, x, p);
    PlacedTop(g, x, p, TopLoop(p).(state := LoopDo));
    TopPlace(p, TopLoop(p).(state := LoopDo));
    if line != [] {
      PlacedWhile(g, p, LoopWhile, line[1..], seekable);
      PlacedWhile(g, p, LoopUntil, line[1..], seekable);
      PlacedDone(g, p, line[1..]);
    }
  }

  lemma TopPlace(p: Parser, l: Loop)
    requires InRange(p)
    ensures SetTopLoop(p, l).fpos == p.fpos
  {
  }

  lemma PlacedWhile(g: nat -> nat, p: Parser, state: LoopState, rest: Line, seekable: bool)
    requires InRange(p) && g(0) == 0 && InRange(Placed(g, g(p.fpos), p))
    ensures var d := NshWhile(p, state, rest, seekable);
            NshWhile(Placed(g, g(p.fpos), p), state, rest, seekable) == d.(p := Placed(g, g(d.p.fpos), d.p))
  {
    hide ResetLoops, PushLoop, Placed, CmdEnabled;
    PlacedSame(g, g(p.fpos), p);
    PlacedReset(g, g(p.fpos), p);
    if p.lpndx + 1 < |p.lpstate| {
      PlacedPush(g, p, state);
    }
  }

  lemma PlacedDone(g: nat -> nat, p: Parser, rest: Line)
    requires InRange(p) && g(0) == 0 && InRange(Placed(g, g(p.fpos), p))
    ensures var d := NshDone(p, rest);
            NshDone(Placed(g, g(p.fpos), p), rest) == d.(p := Placed(g, g(d.p.fpos), d.p))
  {
    hide ResetLoops, PopLoop, Placed, CmdEnabled;
    PlacedSame(g, g(p.fpos), p);
    PlacedReset(g, g(p.fpos), p);
    if 1 <= p.lpndx {
      PlacedPop(g, p);
    }
  }

  /** A command that does not start with a loop keyword does not look at its own place. */
  lemma PlacedWord(g: nat -> nat, x: nat, p: Parser, line: Line, seekable: bool)
    requires InRange(p) && g(0) == 0 && line != [] && !LoopWord(line[0])
    ensures InRange(Placed(g, x, p))
    ensures var d := NshLoop(p, line, seekable);
            NshLoop(Placed(g, x, p), line, seekable) == d.(p := Placed(g, x, d.p)) && d.p.fpos == p.fpos
  {
    hide ResetLoops, Placed, CmdEnabled;
    PlacedSame(g, x, p);
    PlacedReset(g, x, p);
  }

  lemma PlacedItefs(g: nat -> nat, x: nat, p: Parser, e: Itef)
    requires InRange(p) && InRange(Placed(g, x, p))
    ensures Placed(g, x, ResetItefs(p)) == ResetItefs(Placed(g, x, p)) && ResetItefs(p).fpos == p.fpos
    ensures Placed(g, x, SetTopItef(p, e)) == SetTopItef(Placed(g, x, p), e) && SetTopItef(p, e).fpos == p.fpos
  {
  }

  lemma PlacedItef(g: nat -> nat, x: nat, p: Parser, line: Line)
    requires InRange(p)
    ensures InRange(Placed(g, x, p))
    ensures var d := NshItef(p, line);
            NshItef(Placed(g, x, p), line) == d.(p := Placed(g, x, d.p)) && d.p.fpos == p.fpos
  {
    hide NshIf, NshFi, ResetItefs, SetTopItef, Placed, CmdEnabled;
    PlacedSame(g, x, p);
    PlacedItefs(g, x, p, TopItef(p).(state := ItefThen));
    PlacedItefs(g, x, p, TopItef(p).(state := ItefElse));
    if line != [] {
      PlacedIf(g, x, p, line[1..]);
      PlacedFi(g, x, p, line[1..]);
    }
  }

  lemma PlacedIf(g: nat -> nat, x: nat, p: Parser, rest: Line)
    requires InRange(p) && InRange(Placed(g, x, p))
    ensures var d := NshIf(p, rest); NshIf(Placed(g, x, p), rest) == d.(p := Placed(g, x, d.p)) && d.p.fpos == p.fpos
  {
    hide ResetItefs, PushItef, Placed, CmdEnabled;
    PlacedSame(g, x, p);
    PlacedItefs(g, x, p, TopItef(p));
    if p.iendx + 1 < |p.iestate| {
      PlacedPushItef(g, x, p, true);
      PlacedPushItef(g, x, p, false);
    }
  }

  lemma PlacedPushItef(g: nat -> nat, x: nat, p: Parser, inverted: bool)
    requires InRange(p) && InRange(Placed(g, x, p)) && p.iendx + 1 < |p.iestate|
    ensures Placed(g, x, p).iendx + 1 < |Placed(g, x, p).iestate|
    ensures Placed(g, x, PushItef(p, inverted)) == PushItef(Placed(g, x, p), inverted)
    ensures PushItef(p, inverted).fpos == p.fpos
  {
    PlacedSame(g, x, p);
  }

  lemma PlacedFi(g: nat -> nat, x: nat, p: Parser, rest: Line)
    requires InRange(p) && InRange(Placed(g, x, p))
    ensures var d := NshFi(p, rest); NshFi(Placed(g, x, p), rest) == d.(p := Placed(g, x, d.p)) && d.p.fpos == p.fpos
  {
  }

  lemma PlacedSave(g: nat -> nat, x: nat, p: Parser, failed: bool)
    requires InRange(p)
    ensures InRange(Placed(g, x, p))
    ensures var s := SaveResult(p, failed);
            SaveResult(Placed(g, x, p), failed) == s.(p := Placed(g, x, s.p)) && s.p.fpos == p.fpos
  {
    PlacedSame(g, x, p);
    PlacedTop(g, x, p, TopLoop(p).(enable := failed));
    PlacedTop(g, x, p, TopLoop(p).(enable := !failed));
  }

  lemma PlacedBreak(g: nat -> nat, x: nat, p: Parser)
    requires InRange(p)
    ensures InRange(Placed(g, x, p))
    ensures CmdBreak(Placed(g, x, p)) == Placed(g, x, CmdBreak(p)) && CmdBreak(p).fpos == p.fpos
  {
    PlacedSame(g, x, p);
    PlacedTop(g, x, p, TopLoop(p).(enable := false));
  }

  lemma PlacedExecute(g: nat -> nat, x: nat, p: Parser, line: Line, failed: bool)
    requires StacksOk(p)
    ensures StacksOk(Placed(g, x, p))
    ensures var r := Execute(p, line, failed);
            Execute(Placed(g, x, p), line, failed) == r.(p := Placed(g, x, r.p)) && r.p.fpos == p.fpos
  {
    hide Placed, SaveResult, CmdBreak, CmdEnabled, SavedInRange;
    PlacedSame(g, x, p);
    BreakKeepsStacks(p);
    PlacedBreak(g, x, p);
    PlacedSave(g, x, p, failed);
    PlacedSave(g, x, CmdBreak(p), false);
  }

  lemma PlacedParseItef(g: nat -> nat, x: nat, p: Parser, line: Line, failed: bool)
    requires StacksOk(p)
    ensures StacksOk(Placed(g, x, p))
    ensures var r := ParseItef(p, line, failed);
            ParseItef(Placed(g, x, p), line, failed) == r.(p := Placed(g, x, r.p)) && r.p.fpos == p.fpos
  {
    hide Placed, NshItef, SaveResult, Execute, SavedInRange;
    PlacedSame(g, x, p);
    PlacedItef(g, x, p, line);
    ItefKeepsStacks(p, line);
    var d := NshItef(p, line);
    PlacedSave(g, x, d.p, true);
    PlacedExecute(g, x, d.p, d.rest, failed);
  }

  /** A parser whose places are moved does the same at the moved places. */
  lemma MovedParse(g: nat -> nat, p: Parser, line: Line, seekable: bool, failed: bool)
    requires StacksOk(p) && g(0) == 0
    ensures StacksOk(Placed(g, g(p.fpos), p))
    ensures var r := ParseCommand(p, line, seekable, failed);
            ParseCommand(Placed(g, g(p.fpos), p), line, seekable, failed) == r.(p := Placed(g, g(r.p.fpos), r.p))
  {
    hide Placed, NshLoop, ParseItef, SaveResult, SavedInRange;
    PlacedSame(g, g(p.fpos), p);
    PlacedLoop(g, p, line, seekable);
    LoopKeepsStacks(p, line, seekable);
    var d := NshLoop(p, line, seekable);
    PlacedSave(g, g(d.p.fpos), d.p, true);
    PlacedParseItef(g, g(d.p.fpos), d.p, d.rest, failed);
  }

  /** The same for a command that does not start with a loop keyword, wherever it is read. */
  lemma PlacedParse(g: nat -> nat, x: nat, p: Parser, line: Line, seekable: bool, failed: bool)
    requires StacksOk(p) && g(0) == 0 && line != [] && !LoopWord(line[0])
    ensures StacksOk(Placed(g, x, p))
    ensures var r := ParseCommand(p, line, seekable, failed);
            ParseCommand(Placed(g, x, p), line, seekable, failed) == r.(p := Placed(g, x, r.p)) && r.p.fpos == p.fpos
  {
    hide Placed, NshLoop, ParseItef, SaveResult, SavedInRange;
    PlacedSame(g, x, p);
    PlacedWord(g, x, p, line, seekable);
    LoopKeepsStacks(p, line, seekable);
    var d := NshLoop(p, line, seekable);
    PlacedSave(g, x, d.p, true);
    PlacedParseItef(g, x, d.p, d.rest, failed);
  }
}
