/** Structured scripts and what they mean: the compound commands of section 2.9.4 of
    the POSIX.1 Shell Command Language that NSH supports, with the status rules of
    nsh_saveresult.  `Compile` lays a structured script out as the flat command list
    that the parser reads. */
module NshStructured {
  import opened NshControl
  import opened NshScript

  datatype Stmt =
    | Simple(argv: Line)
    | Break
    | If(inverted: bool, test: Line, thn: Block, hasElse: bool, els: Block)
    | Repeat(until: bool, test: Line, body: Block)

  datatype Block = Nil | Cons(head: Stmt, tail: Block)

  function Compile(b: Block): seq<Line> {
    match b
    case Nil => []
    case Cons(s, rest) => CompileStmt(s) + Compile(rest)
  }

  function CompileStmt(s: Stmt): (lines: seq<Line>)
    ensures lines != []
  {
    match s
    case Simple(argv) => [argv]
    case Break => [[KBreak]]
    case If(inverted, test, thn, hasElse, els) =>
      [[KIf] + (if inverted then [KBang] else []) + test, [KThen]]
      + Compile(thn) + (if hasElse then [[KElse]] + Compile(els) else []) + [[KFi]]
    case Repeat(until, test, body) =>
      [[if until then KUntil else KWhile] + test, [KDo]] + Compile(body) + [[KDone]]
  }

  /** The commands run so far and the status of the last one. */
  datatype Run = Run(trace: seq<Ran>, fail: bool)

  /** `Unfinished` means that the given number of loop iterations did not suffice. */
  datatype Outcome = Unfinished | Normal(run: Run) | Broke(run: Run) | Aborted(run: Run)

  /** The results of the commands, and whether a failing command ends the script. */
  datatype World = World(status: Oracle, ignore: bool)

  /** The meaning of a block whose lines start at `pos`. */
  function Exec(b: Block, pos: nat, inLoop: bool, r: Run, w: World, fuel: nat): Outcome
    decreases fuel, b
  {
    match b
    case Nil => Normal(r)
    case Cons(s, rest) =>
      match ExecStmt(s, pos, inLoop, r, w, fuel)
      case Normal(r1) => Exec(rest, pos + |CompileStmt(s)|, inLoop, r1, w, fuel)
      case other => other
  }

  function ExecStmt(s: Stmt, pos: nat, inLoop: bool, r: Run, w: World, fuel: nat): Outcome
    decreases fuel, s
  {
    match s
    case Simple(argv) =>
      var failed := w.status(|r.trace|);
      var r1 := Run(r.trace + [Ran(pos, argv)], failed);
      if failed && !w.ignore then Aborted(r1) else Normal(r1)
    case Break =>
      var r1 := r.(fail := false);
      if inLoop then Broke(r1) else Normal(r1)
    case If(inverted, test, thn, hasElse, els) =>
      var failed := w.status(|r.trace|);
      var r1 := Run(r.trace + [Ran(pos, test)], false);
      if failed == inverted then Exec(thn, pos + 2, inLoop, r1, w, fuel)
      else if hasElse then Exec(els, pos + 3 + |Compile(thn)|, inLoop, r1, w, fuel)
      else Normal(r1)
    case Repeat(until, test, body) =>
      var failed := w.status(|r.trace|);
      var r1 := Run(r.trace + [Ran(pos, test)], false);
      if failed != until then Normal(r1)
      else if fuel == 0 then Unfinished
      else
        match Exec(body, pos + 2, true, r1, w, fuel)
        case Normal(r2) => ExecStmt(s, pos, inLoop, r2, w, fuel - 1)
        case Broke(r2) => Normal(r2)
        case other => other
  }

  /** Where a statement stands: outside every loop, directly in a loop body, or in an
      `if` that is inside a loop body. */
  datatype Place = Top | Body | Under

  function InsideIf(place: Place): Place {
    if place == Body then Under else place
  }

  predicate PlainWords(words: Line) {
    words != [] && words[0].Name?
  }

  /** Commands and tests start with a name, not with a keyword. */
  predicate Worded(b: Block) {
    b.Cons? ==> WordedStmt(b.head) && Worded(b.tail)
  }

  predicate WordedStmt(s: Stmt) {
    match s
    case Simple(argv) => PlainWords(argv)
    case Break => true
    case If(_, test, thn, hasElse, els) => PlainWords(test) && Worded(thn) && Worded(els)
    case Repeat(_, test, body) => PlainWords(test) && Worded(body)
  }

  /** The nesting leaves room on both stacks. */
  predicate Shallow(b: Block, ifRoom: nat, loopRoom: nat) {
    b.Cons? ==> ShallowStmt(b.head, ifRoom, loopRoom) && Shallow(b.tail, ifRoom, loopRoom)
  }

  predicate ShallowStmt(s: Stmt, ifRoom: nat, loopRoom: nat) {
    match s
    case Simple(_) => true
    case Break => true
    case If(_, _, thn, hasElse, els) =>
      && 0 < ifRoom
      && Shallow(thn, ifRoom - 1, loopRoom)
      && (hasElse ==> Shallow(els, ifRoom - 1, loopRoom))
    case Repeat(_, _, body) => 0 < loopRoom && Shallow(body, ifRoom, loopRoom - 1)
  }

  /** No loop stands directly in the block. */
  predicate NoLoopHere(b: Block) {
    b.Cons? ==> !b.head.Repeat? && NoLoopHere(b.tail)
  }

  /** The scripts on which the flat machine is faithful: the nesting leaves room on both
      stacks, no loop stands directly in a loop body, and `break` is not inside an `if`
      of a loop.  Behind a `break` only the first two conditions matter. */
  predicate Fits(b: Block, place: Place, ifRoom: nat, loopRoom: nat) {
    b.Cons? ==>
      && FitsStmt(b.head, place, ifRoom, loopRoom)
      && if b.head.Break? && place == Body then Shallow(b.tail, ifRoom, loopRoom) && NoLoopHere(b.tail)
         else Fits(b.tail, place, ifRoom, loopRoom)
  }

  predicate FitsStmt(s: Stmt, place: Place, ifRoom: nat, loopRoom: nat) {
    match s
    case Simple(_) => true
    case Break => place != Under
    case If(_, _, thn, hasElse, els) =>
      && 0 < ifRoom
      && Fits(thn, InsideIf(place), ifRoom - 1, loopRoom)
      && (hasElse ==> Fits(els, InsideIf(place), ifRoom - 1, loopRoom))
    case Repeat(_, _, body) =>
      && place != Body
      && 0 < loopRoom
      && Fits(body, Body, ifRoom, loopRoom - 1)
  }

  lemma {:induction false} FitsShallow(b: Block, place: Place, ifRoom: nat, loopRoom: nat)
    requires Fits(b, place, ifRoom, loopRoom)
    ensures Shallow(b, ifRoom, loopRoom)
    ensures place == Body ==> NoLoopHere(b)
  {
    match b
    case Nil =>
    case Cons(s, rest) =>
      match s {
        case Simple(_) =>
        case Break =>
        case If(_, _, thn, hasElse, els) =>
          FitsShallow(thn, InsideIf(place), ifRoom - 1, loopRoom);
          if hasElse {
            FitsShallow(els, InsideIf(place), ifRoom - 1, loopRoom);
          }
        case Repeat(_, _, body) =>
          FitsShallow(body, Body, ifRoom, loopRoom - 1);
      }
      if !(s.Break? && place == Body) {
        FitsShallow(rest, place, ifRoom, loopRoom);
      }
  }
}
