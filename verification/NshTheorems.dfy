/** The main results about script control flow. */
module NshTheorems {
  import opened NshControl
  import opened NshScript
  import opened NshStructured
  import opened NshSteps
  import opened NshWalk
  import opened NshSkip
  import opened NshMeaning
  import opened NshWitness
  import opened NshFaults
  import opened NshDrift
  import opened NshExact

  function Start(depth: nat): Config {
    Config(Idle(depth), [], false)
  }

  /** The script consists of the lines of `b`, however they share text lines. */
  predicate Holds(sh: Shell, b: Block) {
    sh.seekable && |sh.script| == |Compile(b)| && At(sh.script, 0, Compile(b))
  }

  function Meaning(b: Block, w: World, fuel: nat): Outcome {
    Exec(b, 0, false, Run([], false), w, fuel)
  }

  /** The script was read to its end, with the given commands run and empty stacks. */
  predicate EndedAs(sh: Shell, d: Config, r: Run) {
    && !d.aborted && d.p.fpos == |sh.script| && d.trace == r.trace && d.p.fail == r.fail
    && d.p.iendx == 0 && d.p.lpndx == 0
  }

  predicate AbortedAs(d: Config, r: Run) {
    d.aborted && d.trace == r.trace
  }

  lemma IdleLive(depth: nat)
    requires 1 <= depth
    ensures StacksOk(Idle(depth)) && Settled(Idle(depth)) && Live(Idle(depth), Top)
    ensures Room(Idle(depth), depth - 1, depth - 1) && Exactly(Idle(depth), depth - 1, depth - 1)
    ensures Level(Idle(depth), Top, 0)
  {
  }

  /** The machine comes to the outcome that the structured meaning gives. */
  ghost predicate DoesAsMeant(sh: Shell, depth: nat, out: Outcome)
    requires 1 <= depth
  {
    IdleLive(depth);
    match out
    case Normal(r) => exists n: nat :: EndedAs(sh, Steps(sh, Start(depth), n), r)
    case Aborted(r) => exists n: nat :: AbortedAs(Steps(sh, Start(depth), n), r)
    case Broke(r) => false
    case Unfinished => true
  }

  /** Meaning preservation: same commands, same places, same order, stacks empty again.
      As long as the structured run is unfinished the machine keeps running. */
  lemma {:induction false} MeaningPreserved(sh: Shell, depth: nat, b: Block, fuel: nat)
    requires 1 <= depth && Holds(sh, b) && LaidOut(sh) && Worded(b)
    requires Fits(b, Top, depth - 1, depth - 1)
    ensures StacksOk(Idle(depth))
    ensures DoesAsMeant(sh, depth, Meaning(b, WorldOf(sh), fuel))
    ensures Meaning(b, WorldOf(sh), fuel).Unfinished? ==>
              exists n: nat :: fuel <= n && !Halted(sh, Steps(sh, Start(depth), n))
  {
    hide Step, Steps, At, Exec, Compile, Fits;
    IdleLive(depth);
    var c := Start(depth);
    var n, d := LiveBlock(sh, c, b, Top, depth - 1, depth - 1, fuel);
    var out := Meaning(b, WorldOf(sh), fuel);
    assert Steps(sh, c, n) == d;
    match out
    case Normal(r) =>
      assert EndedAs(sh, Steps(sh, c, n), r);
    case Aborted(r) =>
      assert AbortedAs(Steps(sh, c, n), r);
    case _ =>
  }

  lemma {:induction false} TraceGrows(sh: Shell, c: Config, n: nat)
    requires StacksOk(c.p)
    ensures c.trace <= Steps(sh, c, n).trace
    decreases n
  {
    hide ParseCommand;
    if n != 0 {
      TraceGrows(sh, Step(sh, c), n - 1);
    }
  }

  /** Two points of one run: the earlier leads to the later. */
  lemma Later(sh: Shell, c: Config, m: nat, n: nat)
    requires StacksOk(c.p) && m <= n
    ensures Steps(sh, c, n) == Steps(sh, Steps(sh, c, m), n - m)
  {
    hide Step, Steps;
    StepsCompose(sh, c, m, n - m);
  }

  /** Once halted, every later point of the run is the same. */
  lemma HaltedLater(sh: Shell, c: Config, m: nat, n: nat)
    requires StacksOk(c.p) && m <= n && Halted(sh, Steps(sh, c, m))
    ensures Steps(sh, c, n) == Steps(sh, c, m)
  {
    hide Step, Steps;
    Later(sh, c, m, n);
    HaltedStays(sh, Steps(sh, c, m), n - m);
  }

  /** The converse: when the machine halts, the structured meaning is defined, and it is
      what the machine did. */
  lemma {:induction false} HaltsOnlyAsMeant(sh: Shell, depth: nat, b: Block, n: nat)
    requires 1 <= depth && Holds(sh, b) && LaidOut(sh) && Worded(b)
    requires Fits(b, Top, depth - 1, depth - 1)
    ensures StacksOk(Idle(depth))
    ensures
      var d := Steps(sh, Start(depth), n);
      var out := Meaning(b, WorldOf(sh), n + 1);
      Halted(sh, d) ==> (out.Normal? && EndedAs(sh, d, out.run)) || (out.Aborted? && AbortedAs(d, out.run))
  {
    hide Step, Steps, At, Exec, Compile, Fits;
    IdleLive(depth);
    var c := Start(depth);
    var d := Steps(sh, c, n);
    if Halted(sh, d) {
      MeaningPreserved(sh, depth, b, n + 1);
      var out := Meaning(b, WorldOf(sh), n + 1);
      match out
      case Unfinished =>
        var m: nat :| n + 1 <= m && !Halted(sh, Steps(sh, c, m));
        HaltedLater(sh, c, n, m);
      case Normal(r) =>
        var m: nat :| EndedAs(sh, Steps(sh, c, m), r);
        SameEnd(sh, c, n, m);
      case Aborted(r) =>
        var m: nat :| AbortedAs(Steps(sh, c, m), r);
        SameEnd(sh, c, n, m);
    }
  }

  lemma SameEnd(sh: Shell, c: Config, m: nat, n: nat)
    requires StacksOk(c.p) && Halted(sh, Steps(sh, c, m)) && Halted(sh, Steps(sh, c, n))
    ensures Steps(sh, c, m) == Steps(sh, c, n)
  {
    hide Step, Steps;
    if m <= n {
      HaltedLater(sh, c, m, n);
    } else {
      HaltedLater(sh, c, n, m);
    }
  }

  lemma OffTrackIsNoPrefix(t: seq<Ran>, good: seq<Ran>, lo: nat, hi: nat)
    requires OffTrack(t, good, lo, hi)
    ensures !(t <= good)
  {
    var k: nat :| k < |t| && OffAt(t, good, lo, hi, k);
    assert k < |good| ==> t[k] != good[k];
  }

  /** A run that derails cannot end as the structured meaning does. */
  lemma DerailedIsWrong(sh: Shell, c: Config, r: Run, n: nat, d: Config, m: nat)
    requires Derails(sh, c, 0, |sh.script|, r.trace, n, d)
    ensures !EndedAs(sh, Steps(sh, c, m), r)
  {
    hide Step, Steps, OffTrack;
    if !d.aborted {
      OffTrackIsNoPrefix(d.trace, r.trace, 0, |sh.script|);
    }
    if n <= m {
      Later(sh, c, n, m);
      TraceGrows(sh, d, m - n);
      if d.aborted {
        HaltedStays(sh, d, m - n);
      }
    } else if Halted(sh, Steps(sh, c, m)) {
      HaltedLater(sh, c, m, n);
    }
  }

  /** In the default mode: the machine does as meant under all command results and on
      every layout. */
  ghost predicate Faithful(depth: nat, b: Block)
    requires 1 <= depth
  {
    forall sh: Shell, fuel: nat | Holds(sh, b) && !sh.ignore :: DoesAsMeant(sh, depth, Meaning(b, WorldOf(sh), fuel))
  }

  /** A script of the lines of `b`, one to a text line. */
  function ShellFor(b: Block, status: Oracle): Shell {
    Shell(seq(|Compile(b)|, i requires 0 <= i < |Compile(b)| => Command(Compile(b)[i], true)), status, false, true)
  }

  lemma {:induction false} Unfaithful(depth: nat, b: Block)
    requires 1 <= depth && Worded(b) && NoRescue(b, Top)
    requires !Fits(b, Top, depth - 1, depth - 1)
    ensures !Faithful(depth, b)
  {
    hide Step, Steps, Exec, Compile, Fits, OffTrack, Lure, NoRescue, Reach, Upright;
    IdleLive(depth);
    var lure := Lure(b, Top, depth - 1, depth - 1);
    var status: Oracle := (i: nat) => if i < |lure| then lure[i] else false;
    var sh := ShellFor(b, status);
    assert Matches(sh.status, 0, lure);
    var c := Start(depth);
    var n, d := LiveFails(sh, c, b, Top, depth - 1, depth - 1, 0);
    LureRun(b, 0, Top, depth - 1, depth - 1, Run([], false), WorldOf(sh), 1);
    var out := Meaning(b, WorldOf(sh), 1);
    if DoesAsMeant(sh, depth, out) {
      var m: nat :| EndedAs(sh, Steps(sh, c, m), out.run);
      DerailedIsWrong(sh, c, out.run, n, d, m);
    }
    assert Holds(sh, b) && !sh.ignore;
  }

  /** The exact condition: a script in which no `break` of an enclosing loop follows a loop
      that can be left from inside an `if` is run faithfully if and only if it fits. */
  lemma {:induction false} FaithfulIffFits(depth: nat, b: Block)
    requires 1 <= depth && Worded(b) && NoRescue(b, Top)
    ensures Faithful(depth, b) <==> Fits(b, Top, depth - 1, depth - 1)
  {
    hide Step, Steps, Exec, Compile, Fits, NoRescue, Worded;
    if Fits(b, Top, depth - 1, depth - 1) {
      forall sh: Shell, fuel: nat | Holds(sh, b) && !sh.ignore
        ensures DoesAsMeant(sh, depth, Meaning(b, WorldOf(sh), fuel))
      {
        MeaningPreserved(sh, depth, b, fuel);
      }
    } else {
      Unfaithful(depth, b);
    }
  }

  /** while a; do; while b; do; done; done */
  function NestedLoops(): Block {
    Cons(Repeat(false, [Name("a")], Cons(Repeat(false, [Name("b")], Nil), Nil)), Nil)
  }

  /** while a; do; if b; then; break; fi; done */
  function BreakInIf(): Block {
    Cons(Repeat(false, [Name("a")], Cons(If(false, [Name("b")], Cons(Break, Nil), false, Nil), Nil)), Nil)
  }

  /** while a; do; if b; then; while c; do; done; fi; break; done */
  function LoopInIfInLoop(): Block {
    var inner := Cons(Repeat(false, [Name("c")], Nil), Nil);
    Cons(Repeat(false, [Name("a")], Cons(If(false, [Name("b")], inner, false, Nil), Cons(Break, Nil))), Nil)
  }

  /** if c; then; while a; do; if b; then; break; fi; done; fi */
  function BreakInIfInIf(): Block {
    Cons(If(false, [Name("c")], BreakInIf(), false, Nil), Nil)
  }

  lemma NestedLoopsDoNotFit(ifRoom: nat, loopRoom: nat)
    ensures !Fits(NestedLoops(), Top, ifRoom, loopRoom)
    ensures Worded(NestedLoops()) && NoRescue(NestedLoops(), Top)
  {
    var body := NestedLoops().head.body;
    if 0 < loopRoom {
      assert !FitsStmt(body.head, Body, ifRoom, loopRoom - 1);
      assert !Fits(body, Body, ifRoom, loopRoom - 1);
    }
    assert !FitsStmt(NestedLoops().head, Top, ifRoom, loopRoom);
    assert !NoLoopHere(body);
    assert Worded(body);
  }

  lemma BreakInIfDoesNotFit(ifRoom: nat, loopRoom: nat)
    ensures !Fits(BreakInIf(), Top, ifRoom, loopRoom)
    ensures Worded(BreakInIf()) && NoRescue(BreakInIf(), Top)
  {
    var body := BreakInIf().head.body;
    var branch := body.head.thn;
    if 0 < loopRoom {
      if 0 < ifRoom {
        assert !FitsStmt(branch.head, Under, ifRoom - 1, loopRoom - 1);
        assert !Fits(branch, Under, ifRoom - 1, loopRoom - 1);
      }
      assert !FitsStmt(body.head, Body, ifRoom, loopRoom - 1);
      assert !Fits(body, Body, ifRoom, loopRoom - 1);
    }
    assert !FitsStmt(BreakInIf().head, Top, ifRoom, loopRoom);
    assert NoRescue(branch, Under);
    assert NoRescueStmt(body.head, Body) && NoRescue(body, Body);
    assert Worded(branch) && Worded(body);
  }

  lemma BreakDeeperDoesNotFit(ifRoom: nat, loopRoom: nat)
    ensures !Fits(BreakInIfInIf(), Top, ifRoom, loopRoom)
    ensures Worded(BreakInIfInIf()) && NoRescue(BreakInIfInIf(), Top)
  {
    hide BreakInIf;
    if 0 < ifRoom {
      BreakInIfDoesNotFit(ifRoom - 1, loopRoom);
    }
    BreakInIfDoesNotFit(0, 0);
    assert !FitsStmt(BreakInIfInIf().head, Top, ifRoom, loopRoom);
    assert WordedStmt(BreakInIfInIf().head) && NoRescueStmt(BreakInIfInIf().head, Top);
  }

  lemma LoopInIfFits(ifRoom: nat, loopRoom: nat)
    ensures Fits(LoopInIfInLoop(), Top, ifRoom, loopRoom) <==> 1 <= ifRoom && 2 <= loopRoom
    ensures Worded(LoopInIfInLoop()) && NoRescue(LoopInIfInLoop(), Top)
  {
    var body := LoopInIfInLoop().head.body;
    var branch := body.head.thn;
    if 0 < loopRoom {
      if 0 < ifRoom {
        assert FitsStmt(branch.head, Under, ifRoom - 1, loopRoom - 1) == (1 < loopRoom);
        assert Fits(branch, Under, ifRoom - 1, loopRoom - 1) == (1 < loopRoom);
      }
      assert FitsStmt(body.head, Body, ifRoom, loopRoom - 1) == (0 < ifRoom && 1 < loopRoom);
      assert Fits(body.tail, Body, ifRoom, loopRoom - 1);
      assert Fits(body, Body, ifRoom, loopRoom - 1) == (0 < ifRoom && 1 < loopRoom);
    }
    assert FitsStmt(LoopInIfInLoop().head, Top, ifRoom, loopRoom) == (0 < ifRoom && 1 < loopRoom);
    assert NoRescueStmt(branch.head, Under) && !SinksStmt(branch.head);
    assert NoRescue(branch, Under) && !Sinks(branch) && !SinksStmt(body.head);
    assert NoRescueStmt(body.head, Body) && NoRescue(body.tail, Body) && NoRescue(body, Body);
    assert Worded(branch) && Worded(body.tail) && Worded(body);
  }

  /** Three scripts that go wrong at every nesting limit, and one with the same parts that
      is run faithfully exactly when the limit is at least 3. */
  lemma Samples(depth: nat)
    requires 1 <= depth
    ensures !Faithful(depth, NestedLoops())
    ensures !Faithful(depth, BreakInIf()) && !Faithful(depth, BreakInIfInIf())
    ensures Faithful(depth, LoopInIfInLoop()) <==> 3 <= depth
  {
    hide Faithful, Fits, NoRescue, NestedLoops, BreakInIf, BreakInIfInIf, LoopInIfInLoop;
    NestedLoopsDoNotFit(depth - 1, depth - 1);
    FaithfulIffFits(depth, NestedLoops());
    BreakInIfDoesNotFit(depth - 1, depth - 1);
    FaithfulIffFits(depth, BreakInIf());
    BreakDeeperDoesNotFit(depth - 1, depth - 1);
    FaithfulIffFits(depth, BreakInIfInIf());
    LoopInIfFits(depth - 1, depth - 1);
    FaithfulIffFits(depth, LoopInIfInLoop());
  }
}
