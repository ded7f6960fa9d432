/** Choosing command results: for every structured script, results that drive it
    quickly to its end, and for every script outside `Fits`, results that drive it to
    the place where the flat machine goes wrong. */
module NshWitness {
  import opened NshControl
  import opened NshScript
  import opened NshStructured

  /** The results from the `off`-th command on begin with `w`. */
  predicate Matches(status: Oracle, off: nat, w: seq<bool>) {
    forall i | 0 <= i < |w| :: status(off + i) == w[i]
  }

  lemma MatchesSplit(status: Oracle, off: nat, a: seq<bool>, b: seq<bool>)
    requires Matches(status, off, a + b)
    ensures Matches(status, off, a) && Matches(status, off + |a|, b)
  {
    assert forall i | 0 <= i < |a| :: (a + b)[i] == a[i];
    forall i | 0 <= i < |b|
      ensures status(off + |a| + i) == b[i]
    {
      assert status(off + (|a| + i)) == (a + b)[|a| + i];
    }
  }

  lemma MatchesHead(status: Oracle, off: nat, w: seq<bool>)
    requires Matches(status, off, w) && w != []
    ensures status(off) == w[0]
  {
    assert status(off + 0) == w[0];
  }

  /** The quick run: commands succeed, then-branches are taken, loops end at their first
      test.  `CalmBreaks` says whether it meets a `break`. */
  function CalmBreaks(b: Block, inLoop: bool): bool {
    b.Cons? && (CalmBreaksStmt(b.head, inLoop) || CalmBreaks(b.tail, inLoop))
  }

  function CalmBreaksStmt(s: Stmt, inLoop: bool): bool {
    match s
    case Break => inLoop
    case If(_, _, thn, _, _) => CalmBreaks(thn, inLoop)
    case _ => false
  }

  function Calm(b: Block, inLoop: bool): seq<bool> {
    if b.Nil? then []
    else CalmStmt(b.head, inLoop) + (if CalmBreaksStmt(b.head, inLoop) then [] else Calm(b.tail, inLoop))
  }

  function CalmStmt(s: Stmt, inLoop: bool): seq<bool> {
    match s
    case Simple(_) => [false]
    case Break => []
    case If(inverted, _, thn, _, _) => [inverted] + Calm(thn, inLoop)
    case Repeat(until, _, _) => [!until]
  }

  /** `out` is a regular end of a run of `k` lines at `pos` that consumed `w`. */
  predicate Consumes(r: Run, pos: nat, k: nat, w: seq<bool>, broke: bool, out: Outcome) {
    && (if broke then out.Broke? else out.Normal?)
    && r.trace <= out.run.trace
    && |out.run.trace| == |r.trace| + |w|
    && forall i | |r.trace| <= i < |out.run.trace| :: pos <= out.run.trace[i].pos < pos + k
  }

  lemma ConsumedLength(r: Run, pos: nat, k: nat, w: seq<bool>, broke: bool, out: Outcome)
    requires Consumes(r, pos, k, w, broke, out)
    ensures if broke then out.Broke? else out.Normal?
    ensures |out.run.trace| == |r.trace| + |w|
  {
  }

  lemma ConsumesNothing(r: Run, pos: nat)
    ensures Consumes(r, pos, 0, [], false, Normal(r))
  {
  }

  /** One test, then the rest of a statement. */
  lemma TestThen(r: Run, pos: nat, k: nat, test: Line, x: bool, pos1: nat, k1: nat, w: seq<bool>, broke: bool,
                 out: Outcome)
    requires Consumes(Run(r.trace + [Ran(pos, test)], false), pos1, k1, w, broke, out)
    requires pos <= pos1 && pos1 + k1 <= pos + k && 0 < k
    ensures Consumes(r, pos, k, [x] + w, broke, out)
  {
  }

  /** One part of a run, then the next. */
  lemma ConsumesMore(r: Run, pos: nat, k1: nat, w1: seq<bool>, out1: Outcome,
                     k2: nat, w2: seq<bool>, broke: bool, out2: Outcome)
    requires Consumes(r, pos, k1, w1, false, out1) && Consumes(out1.run, pos + k1, k2, w2, broke, out2)
    ensures Consumes(r, pos, k1 + k2, w1 + w2, broke, out2)
  {
  }

  /** The lines behind the place where a run breaks off. */
  lemma ConsumesLess(r: Run, pos: nat, k1: nat, w: seq<bool>, out: Outcome, k2: nat)
    requires Consumes(r, pos, k1, w, true, out)
    ensures Consumes(r, pos, k1 + k2, w + [], true, out)
  {
  }

  lemma {:induction false} CalmRun(b: Block, pos: nat, inLoop: bool, r: Run, w: World, fuel: nat)
    requires Matches(w.status, |r.trace|, Calm(b, inLoop))
    ensures Consumes(r, pos, |Compile(b)|, Calm(b, inLoop), CalmBreaks(b, inLoop), Exec(b, pos, inLoop, r, w, fuel))
    decreases b
  {
    hide CalmStmt, CalmBreaksStmt, CompileStmt, ExecStmt, Matches, Consumes;
    match b
    case Nil =>
      ConsumesNothing(r, pos);
    case Cons(s, rest) =>
      var k1, k2, w1 := |CompileStmt(s)|, |Compile(rest)|, CalmStmt(s, inLoop);
      var breaks := CalmBreaksStmt(s, inLoop);
      MatchesSplit(w.status, |r.trace|, w1, if breaks then [] else Calm(rest, inLoop));
      CalmRunStmt(s, pos, inLoop, r, w, fuel);
      var out := ExecStmt(s, pos, inLoop, r, w, fuel);
      ConsumedLength(r, pos, k1, w1, breaks, out);
      if breaks {
        ConsumesLess(r, pos, k1, w1, out, k2);
      } else {
        CalmRun(rest, pos + k1, inLoop, out.run, w, fuel);
        ConsumesMore(r, pos, k1, w1, out, k2, Calm(rest, inLoop), CalmBreaks(rest, inLoop),
                     Exec(rest, pos + k1, inLoop, out.run, w, fuel));
      }
  }

  lemma {:induction false} CalmRunStmt(s: Stmt, pos: nat, inLoop: bool, r: Run, w: World, fuel: nat)
    requires Matches(w.status, |r.trace|, CalmStmt(s, inLoop))
    ensures Consumes(r, pos, |CompileStmt(s)|, CalmStmt(s, inLoop), CalmBreaksStmt(s, inLoop),
                     ExecStmt(s, pos, inLoop, r, w, fuel))
    decreases s
  {
    hide Calm, CalmBreaks, Compile, Exec, Matches;
    match s
    case Simple(_) =>
      MatchesHead(w.status, |r.trace|, CalmStmt(s, inLoop));
    case Break =>
    case If(inverted, test, thn, _, _) =>
      var r1 := Run(r.trace + [Ran(pos, test)], false);
      MatchesSplit(w.status, |r.trace|, [inverted], Calm(thn, inLoop));
      MatchesHead(w.status, |r.trace|, [inverted]);
      CalmRun(thn, pos + 2, inLoop, r1, w, fuel);
      TestThen(r, pos, |CompileStmt(s)|, test, inverted, pos + 2, |Compile(thn)|, Calm(thn, inLoop),
               CalmBreaks(thn, inLoop), Exec(thn, pos + 2, inLoop, r1, w, fuel));
    case Repeat(until, _, _) =>
      MatchesHead(w.status, |r.trace|, CalmStmt(s, inLoop));
  }

  /** The run into the first construct that does not fit. */
  function Lure(b: Block, place: Place, ifRoom: nat, loopRoom: nat): seq<bool> {
    if b.Nil? then []
    else if !FitsStmt(b.head, place, ifRoom, loopRoom) then
      LureStmt(b.head, place, ifRoom, loopRoom)
      + (if LureBreaksStmt(b.head, place, ifRoom, loopRoom) then [] else Calm(b.tail, place != Top))
    else if b.head.Break? && place == Body then []
    else CalmStmt(b.head, place != Top) + Lure(b.tail, place, ifRoom, loopRoom)
  }

  function LureStmt(s: Stmt, place: Place, ifRoom: nat, loopRoom: nat): seq<bool> {
    match s
    case Simple(_) => []
    case Break => []
    case If(inverted, _, thn, _, els) =>
      if ifRoom == 0 then CalmStmt(s, place != Top)
      else if !Fits(thn, InsideIf(place), ifRoom - 1, loopRoom) then
        [inverted] + Lure(thn, InsideIf(place), ifRoom - 1, loopRoom)
      else [!inverted] + Lure(els, InsideIf(place), ifRoom - 1, loopRoom)
    case Repeat(until, _, body) =>
      if loopRoom == 0 || !NoLoopHere(body) then [!until]
      else
        [until] + Lure(body, Body, ifRoom, loopRoom - 1)
        + (if LureBreaks(body, Body, ifRoom, loopRoom - 1) then [] else [!until])
  }

  function LureBreaks(b: Block, place: Place, ifRoom: nat, loopRoom: nat): bool {
    if b.Nil? then false
    else if !FitsStmt(b.head, place, ifRoom, loopRoom) then
      LureBreaksStmt(b.head, place, ifRoom, loopRoom) || CalmBreaks(b.tail, place != Top)
    else if b.head.Break? && place == Body then true
    else LureBreaks(b.tail, place, ifRoom, loopRoom)
  }

  function LureBreaksStmt(s: Stmt, place: Place, ifRoom: nat, loopRoom: nat): bool {
    match s
    case Break => place != Top
    case If(inverted, _, thn, _, els) =>
      if ifRoom == 0 then CalmBreaks(thn, place != Top)
      else if !Fits(thn, InsideIf(place), ifRoom - 1, loopRoom) then
        LureBreaks(thn, InsideIf(place), ifRoom - 1, loopRoom)
      else LureBreaks(els, InsideIf(place), ifRoom - 1, loopRoom)
    case _ => false
  }

  /** What fits ends in `break` on the quick run only if it is one, directly in a body. */
  lemma {:induction false} CalmBreaksFits(s: Stmt, place: Place, ifRoom: nat, loopRoom: nat)
    requires FitsStmt(s, place, ifRoom, loopRoom)
    ensures CalmBreaksStmt(s, place != Top) <==> s.Break? && place == Body
    decreases s
  {
    if s.If? {
      CalmNeverBreaks(s.thn, InsideIf(place), ifRoom - 1, loopRoom);
    }
  }

  lemma {:induction false} CalmNeverBreaks(b: Block, place: Place, ifRoom: nat, loopRoom: nat)
    requires Fits(b, place, ifRoom, loopRoom) && place != Body
    ensures !CalmBreaks(b, place != Top)
    decreases b
  {
    if b.Cons? {
      CalmBreaksFits(b.head, place, ifRoom, loopRoom);
      CalmNeverBreaks(b.tail, place, ifRoom, loopRoom);
    }
  }

  lemma {:induction false} LureRun(b: Block, pos: nat, place: Place, ifRoom: nat, loopRoom: nat,
                                   r: Run, w: World, fuel: nat)
    requires !Fits(b, place, ifRoom, loopRoom) && (place == Body ==> NoLoopHere(b)) && 0 < fuel
    requires Matches(w.status, |r.trace|, Lure(b, place, ifRoom, loopRoom))
    ensures Consumes(r, pos, |Compile(b)|, Lure(b, place, ifRoom, loopRoom), LureBreaks(b, place, ifRoom, loopRoom),
                     Exec(b, pos, place != Top, r, w, fuel))
    decreases b
  {
    hide LureStmt, LureBreaksStmt, CompileStmt, ExecStmt, FitsStmt, Matches, Consumes, Calm, CalmBreaks, CalmStmt;
    var Cons(s, rest) := b;
    var k1, k2 := |CompileStmt(s)|, |Compile(rest)|;
    var out := ExecStmt(s, pos, place != Top, r, w, fuel);
    if !FitsStmt(s, place, ifRoom, loopRoom) {
      var w1 := LureStmt(s, place, ifRoom, loopRoom);
      var breaks := LureBreaksStmt(s, place, ifRoom, loopRoom);
      MatchesSplit(w.status, |r.trace|, w1, if breaks then [] else Calm(rest, place != Top));
      LureRunStmt(s, pos, place, ifRoom, loopRoom, r, w, fuel);
      ConsumedLength(r, pos, k1, w1, breaks, out);
      if breaks {
        ConsumesLess(r, pos, k1, w1, out, k2);
      } else {
        CalmRun(rest, pos + k1, place != Top, out.run, w, fuel);
        ConsumesMore(r, pos, k1, w1, out, k2, Calm(rest, place != Top), CalmBreaks(rest, place != Top),
                     Exec(rest, pos + k1, place != Top, out.run, w, fuel));
      }
    } else if s.Break? && place == Body {
      LureBreak(pos, r, w, fuel);
      ConsumesBreak(r, pos, |Compile(b)|);
    } else {
      var w1 := CalmStmt(s, place != Top);
      MatchesSplit(w.status, |r.trace|, w1, Lure(rest, place, ifRoom, loopRoom));
      CalmBreaksFits(s, place, ifRoom, loopRoom);
      CalmRunStmt(s, pos, place != Top, r, w, fuel);
      ConsumedLength(r, pos, k1, w1, false, out);
      LureRun(rest, pos + k1, place, ifRoom, loopRoom, out.run, w, fuel);
      ConsumesMore(r, pos, k1, w1, out, k2, Lure(rest, place, ifRoom, loopRoom),
                   LureBreaks(rest, place, ifRoom, loopRoom), Exec(rest, pos + k1, place != Top, out.run, w, fuel));
    }
  }

  lemma LureBreak(pos: nat, r: Run, w: World, fuel: nat)
    ensures ExecStmt(Break, pos, true, r, w, fuel) == Broke(r.(fail := false))
  {
  }

  lemma ConsumesBreak(r: Run, pos: nat, k: nat)
    ensures Consumes(r, pos, k, [], true, Broke(r.(fail := false)))
  {
  }

  lemma {:induction false} LureRunStmt(s: Stmt, pos: nat, place: Place, ifRoom: nat, loopRoom: nat,
                                       r: Run, w: World, fuel: nat)
    requires !FitsStmt(s, place, ifRoom, loopRoom) && !(place == Body && s.Repeat?) && 0 < fuel
    requires Matches(w.status, |r.trace|, LureStmt(s, place, ifRoom, loopRoom))
    ensures Consumes(r, pos, |CompileStmt(s)|, LureStmt(s, place, ifRoom, loopRoom),
                     LureBreaksStmt(s, place, ifRoom, loopRoom), ExecStmt(s, pos, place != Top, r, w, fuel))
    decreases s, 1
  {
    match s
    case Break =>
    case If(_, _, _, _, _) =>
      LureRunIf(s, pos, place, ifRoom, loopRoom, r, w, fuel);
    case Repeat(until, _, body) =>
      if loopRoom == 0 || !NoLoopHere(body) {
        MatchesHead(w.status, |r.trace|, [!until]);
      } else {
        LureRunRepeat(s, pos, place, ifRoom, loopRoom, r, w, fuel);
      }
  }

  lemma {:induction false} LureRunIf(s: Stmt, pos: nat, place: Place, ifRoom: nat, loopRoom: nat,
                                     r: Run, w: World, fuel: nat)
    requires !FitsStmt(s, place, ifRoom, loopRoom) && s.If? && 0 < fuel
    requires Matches(w.status, |r.trace|, LureStmt(s, place, ifRoom, loopRoom))
    ensures Consumes(r, pos, |CompileStmt(s)|, LureStmt(s, place, ifRoom, loopRoom),
                     LureBreaksStmt(s, place, ifRoom, loopRoom), ExecStmt(s, pos, place != Top, r, w, fuel))
    decreases s, 0
  {
    hide Lure, LureBreaks, Compile, Exec, Fits, Matches, Consumes, Calm, CalmBreaks;
    var If(inverted, test, thn, _, els) := s;
    var k := |CompileStmt(s)|;
    var inside, inLoop := InsideIf(place), place != Top;
    var r1 := Run(r.trace + [Ran(pos, test)], false);
    if ifRoom == 0 {
      CalmRunStmt(s, pos, inLoop, r, w, fuel);
    } else if !Fits(thn, inside, ifRoom - 1, loopRoom) {
      var w1 := Lure(thn, inside, ifRoom - 1, loopRoom);
      MatchesSplit(w.status, |r.trace|, [inverted], w1);
      MatchesHead(w.status, |r.trace|, [inverted]);
      LureRun(thn, pos + 2, inside, ifRoom - 1, loopRoom, r1, w, fuel);
      TestThen(r, pos, k, test, inverted, pos + 2, |Compile(thn)|, w1,
               LureBreaks(thn, inside, ifRoom - 1, loopRoom), Exec(thn, pos + 2, inLoop, r1, w, fuel));
    } else {
      var w1 := Lure(els, inside, ifRoom - 1, loopRoom);
      var pos1 := pos + 3 + |Compile(thn)|;
      MatchesSplit(w.status, |r.trace|, [!inverted], w1);
      MatchesHead(w.status, |r.trace|, [!inverted]);
      LureRun(els, pos1, inside, ifRoom - 1, loopRoom, r1, w, fuel);
      TestThen(r, pos, k, test, !inverted, pos1, |Compile(els)|, w1,
               LureBreaks(els, inside, ifRoom - 1, loopRoom), Exec(els, pos1, inLoop, r1, w, fuel));
    }
  }

  lemma {:induction false} LureRunRepeat(s: Stmt, pos: nat, place: Place, ifRoom: nat, loopRoom: nat,
                                         r: Run, w: World, fuel: nat)
    requires !FitsStmt(s, place, ifRoom, loopRoom) && place != Body && s.Repeat? && 0 < fuel
    requires 0 < loopRoom && NoLoopHere(s.body)
    requires Matches(w.status, |r.trace|, LureStmt(s, place, ifRoom, loopRoom))
    ensures Consumes(r, pos, |CompileStmt(s)|, LureStmt(s, place, ifRoom, loopRoom), false,
                     ExecStmt(s, pos, place != Top, r, w, fuel))
    decreases s, 0
  {
    hide Lure, LureBreaks, Exec, Matches, Compile, Fits;
    var Repeat(until, test, body) := s;
    var r1 := Run(r.trace + [Ran(pos, test)], false);
    var w1 := Lure(body, Body, ifRoom, loopRoom - 1);
    var w2 := if LureBreaks(body, Body, ifRoom, loopRoom - 1) then [] else [!until];
    assert [until] + w1 + w2 == [until] + (w1 + w2);
    MatchesSplit(w.status, |r.trace|, [until], w1 + w2);
    MatchesSplit(w.status, |r1.trace|, w1, w2);
    MatchesHead(w.status, |r.trace|, [until]);
    LureRun(body, pos + 2, Body, ifRoom, loopRoom - 1, r1, w, fuel);
    var out := Exec(body, pos + 2, true, r1, w, fuel);
    if w2 != [] {
      MatchesHead(w.status, |out.run.trace|, w2);
    }
    LoopTurn(s, pos, place != Top, r, w, fuel, w2 != []);
  }

  /** A loop whose body is run once, and then left by `break` or by its test. */
  lemma LoopTurn(s: Stmt, pos: nat, inLoop: bool, r: Run, w: World, fuel: nat, again: bool)
    requires s.Repeat? && 0 < fuel && w.status(|r.trace|) == s.until
    requires var out := Exec(s.body, pos + 2, true, Run(r.trace + [Ran(pos, s.test)], false), w, fuel);
             if again then out.Normal? && w.status(|out.run.trace|) != s.until else out.Broke?
    ensures var out := Exec(s.body, pos + 2, true, Run(r.trace + [Ran(pos, s.test)], false), w, fuel);
            ExecStmt(s, pos, inLoop, r, w, fuel) ==
              Normal(if again then Run(out.run.trace + [Ran(pos, s.test)], false) else out.run)
  {
    hide Exec;
    var out := Exec(s.body, pos + 2, true, Run(r.trace + [Ran(pos, s.test)], false), w, fuel);
    if again {
      assert ExecStmt(s, pos, inLoop, r, w, fuel) == ExecStmt(s, pos, inLoop, out.run, w, fuel - 1);
    }
  }
}
