/** Copying a list of spawn file actions into one block
    (nuttx/binfmt/binfmt_copyactions.c): a pass that adds up sizes, an allocation, and a
    pass that packs the entries and links the copies. */
module BinfmtActions {
  import opened Common

  datatype Action =
    | Close(fd: int)
    | Dup2(fd1: int, fd2: int)
    | Open(openFd: int, oflags: int, mode: int, path: CString)
    | Unknown(action: int)

  /** The fixed part of an entry, without its link. */
  datatype Fixed = FixedClose(fd: int) | FixedDup2(fd1: int, fd2: int) | FixedOpen(fd: int, oflags: int, mode: int)

  /** A byte of the block.  A structure's link and fields stand in its first byte; a path
      character has a byte of its own. */
  datatype Cell = Pad | Head(flink: Option<nat>, fixed: Fixed) | Char(c: char)

  /** The structure sizes of the target: `path` is where the path starts in an open action. */
  datatype Layout = Layout(word: nat, close: nat, dup2: nat, open: nat, path: nat) {
    ghost predicate Valid() {
      word > 0 && close > 0 && dup2 > 0 && 0 < path < open
    }
  }

  /** An entry of the caller's list, at an address that is not zero. */
  datatype Source = Source(flink: nat, action: Action)

  datatype Code = OK | EINVAL | ENOMEM

  /** The list that starts at an address is exactly these actions. */
  ghost predicate Chain(mem: map<nat, Source>, at: nat, acts: seq<Action>)
    decreases |acts|
  {
    if acts == [] then at == 0
    else at != 0 && at in mem && mem[at].action == acts[0] && Chain(mem, mem[at].flink, acts[1..])
  }

  function AlignUp(n: nat, word: nat): (r: nat)
    requires word > 0
    ensures n <= r < n + word && r % word == 0
  {
    var q := (n + word - 1) / word;
    assert n + word - 1 == word * q + (n + word - 1) % word;
    MultipleOf(q, word);
    q * word
  }

  lemma MultipleOf(q: nat, word: nat)
    requires word > 0
    ensures (q * word) % word == 0
  {
    var n := q * word;
    var a, b := n / word, n % word;
    assert n == word * a + b && word * (q - a) == b;
    NotBetween(word, q - a, b);
  }

  /** No multiple of the word lies strictly between zero and the word. */
  lemma NotBetween(word: nat, d: int, b: nat)
    requires word * d == b < word
    ensures b == 0
  {
    if d >= 1 {
      assert word * d == word + word * (d - 1);
    }
  }

  function Size(l: Layout, a: Action): (r: nat)
    requires l.Valid() && !a.Unknown?
    ensures r > 0
  {
    match a
    case Close(_) => l.close
    case Dup2(_, _) => l.dup2
    case Open(_, _, _, path) => AlignUp(l.open + |path|, l.word)
  }

  ghost predicate Known(acts: seq<Action>) {
    forall i | 0 <= i < |acts| :: !acts[i].Unknown?
  }

  /** The bytes taken by the first `n` entries: the offset of entry `n`. */
  ghost function Offset(l: Layout, acts: seq<Action>, n: nat): nat
    requires l.Valid() && n <= |acts| && Known(acts[..n])
  {
    if n == 0 then 0
    else
      assert acts[..n][n - 1] == acts[n - 1];
      assert acts[..n][..n - 1] == acts[..n - 1];
      Offset(l, acts, n - 1) + Size(l, acts[n - 1])
  }

  function FixedOf(a: Action): Fixed
    requires !a.Unknown?
  {
    match a
    case Close(fd) => FixedClose(fd)
    case Dup2(fd1, fd2) => FixedDup2(fd1, fd2)
    case Open(fd, oflags, mode, _) => FixedOpen(fd, oflags, mode)
  }

  /** Whether the block holds this action at this offset, with this link. */
  ghost predicate EntryAt(l: Layout, cells: seq<Cell>, at: nat, a: Action, flink: Option<nat>)
    requires l.Valid() && !a.Unknown?
  {
    && at + Size(l, a) <= |cells|
    && at < |cells|
    && cells[at] == Head(flink, FixedOf(a))
    && (a.Open? ==>
          && at + l.path + |a.path| < |cells|
          && (forall j | 0 <= j < |a.path| :: cells[at + l.path + j] == Char(a.path[j]))
          && cells[at + l.path + |a.path|] == Char(NUL))
  }

  /** Following the links from `at` meets exactly these actions. */
  ghost predicate Visits(l: Layout, cells: seq<Cell>, at: Option<nat>, acts: seq<Action>)
    requires l.Valid() && Known(acts)
    decreases |acts|
  {
    if acts == [] then at == None
    else
      assert forall i | 0 <= i < |acts[1..]| :: acts[1..][i] == acts[i + 1];
      && at.Some? && at.value < |cells| && cells[at.value].Head?
      && EntryAt(l, cells, at.value, acts[0], cells[at.value].flink)
      && Visits(l, cells, cells[at.value].flink, acts[1..])
  }

  // ---- The two passes ----

  lemma KnownPrefix(acts: seq<Action>, n: nat)
    requires n <= |acts| && Known(acts)
    ensures Known(acts[..n])
  {
    assert forall i | 0 <= i < n :: acts[..n][i] == acts[i];
  }

  /** Entries follow one another: none reaches into a later one. */
  lemma {:induction false} OffsetsApart(l: Layout, acts: seq<Action>, i: nat, n: nat)
    requires l.Valid() && i < n <= |acts| && Known(acts)
    ensures Known(acts[..i]) && Known(acts[..n]) && Known(acts[..i + 1])
    ensures Offset(l, acts, i) + Size(l, acts[i]) == Offset(l, acts, i + 1) <= Offset(l, acts, n)
    decreases n
  {
    KnownPrefix(acts, i);
    KnownPrefix(acts, n);
    KnownPrefix(acts, i + 1);
    if i + 1 < n {
      OffsetsApart(l, acts, i, n - 1);
    }
  }

  /** Whether the first `n` entries are packed and linked to one another. */
  ghost predicate Packed(l: Layout, cells: seq<Cell>, acts: seq<Action>, n: nat)
    requires l.Valid() && Known(acts) && n <= |acts|
  {
    forall i | 0 <= i < n :: PackedAt(l, cells, acts, i, n)
  }

  ghost predicate PackedAt(l: Layout, cells: seq<Cell>, acts: seq<Action>, i: nat, n: nat)
    requires l.Valid() && Known(acts) && i < n <= |acts|
  {
    KnownPrefix(acts, i);
    KnownPrefix(acts, i + 1);
    EntryAt(l, cells, Offset(l, acts, i), acts[i], if i + 1 < n then Some(Offset(l, acts, i + 1)) else None)
  }

  /** A packed block read through its links gives the actions back in order. */
  lemma {:induction false} PackedVisits(l: Layout, cells: seq<Cell>, acts: seq<Action>, k: nat)
    requires l.Valid() && Known(acts) && k <= |acts| && Packed(l, cells, acts, |acts|)
    ensures Known(acts[k..]) && Known(acts[..k])
    ensures Visits(l, cells, if k == |acts| then None else Some(Offset(l, acts, k)), acts[k..])
    decreases |acts| - k
  {
    KnownPrefix(acts, k);
    assert forall i | 0 <= i < |acts[k..]| :: acts[k..][i] == acts[k + i];
    if k < |acts| {
      PackedVisits(l, cells, acts, k + 1);
      assert acts[k..][1..] == acts[k + 1..];
      assert PackedAt(l, cells, acts, k, |acts|);
    }
  }

  // ---- Reading a block back ----

  /** The C string at `i`. */
  function ReadPath(cells: seq<Cell>, i: nat): Option<string>
    decreases |cells| - i
  {
    if |cells| <= i || !cells[i].Char? then None
    else if cells[i].c == NUL then Some("")
    else
      var rest := ReadPath(cells, i + 1);
      if rest.None? then None else Some([cells[i].c] + rest.value)
  }

  /** The action whose structure stands at `at`, field by field. */
  function ReadAction(l: Layout, cells: seq<Cell>, at: nat): Option<Action> {
    if |cells| <= at || !cells[at].Head? then None
    else
      match cells[at].fixed
      case FixedClose(fd) => Some(Close(fd))
      case FixedDup2(fd1, fd2) => Some(Dup2(fd1, fd2))
      case FixedOpen(fd, oflags, mode) =>
        var path := ReadPath(cells, at + l.path);
        if path.None? || NUL in path.value then None else Some(Open(fd, oflags, mode, path.value))
  }

  /** The list of `n` actions that starts at `at` and ends there. */
  function ReadList(l: Layout, cells: seq<Cell>, at: Option<nat>, n: nat): Option<seq<Action>>
    decreases n
  {
    if n == 0 then (if at.None? then Some([]) else None)
    else if at.None? || |cells| <= at.value || !cells[at.value].Head? then None
    else
      var first := ReadAction(l, cells, at.value);
      var rest := ReadList(l, cells, cells[at.value].flink, n - 1);
      if first.None? || rest.None? then None else Some([first.value] + rest.value)
  }

  lemma {:induction false} PathReads(cells: seq<Cell>, i: nat, path: string)
    requires NUL !in path && i + |path| < |cells| && cells[i + |path|] == Char(NUL)
    requires forall j | 0 <= j < |path| :: cells[i + j] == Char(path[j])
    ensures ReadPath(cells, i) == Some(path)
    decreases path
  {
    if path != [] {
      assert cells[i + 0] == Char(path[0]);
      forall j | 0 <= j < |path[1..]|
        ensures cells[i + 1 + j] == Char(path[1..][j])
      {
        assert cells[i + (j + 1)] == Char(path[j + 1]);
      }
      PathReads(cells, i + 1, path[1..]);
      assert [path[0]] + path[1..] == path;
    }
  }

  lemma EntryReads(l: Layout, cells: seq<Cell>, at: nat, a: Action, flink: Option<nat>)
    requires l.Valid() && !a.Unknown? && EntryAt(l, cells, at, a, flink)
    ensures ReadAction(l, cells, at) == Some(a)
  {
    if a.Open? {
      PathReads(cells, at + l.path, a.path);
    }
  }

  /** What the links visit is what is read: the very actions, with all their fields. */
  lemma {:induction false} VisitsReads(l: Layout, cells: seq<Cell>, at: Option<nat>, acts: seq<Action>)
    requires l.Valid() && Known(acts) && Visits(l, cells, at, acts)
    ensures ReadList(l, cells, at, |acts|) == Some(acts)
    decreases |acts|
  {
    hide EntryAt, ReadAction;
    if acts != [] {
      assert forall i | 0 <= i < |acts[1..]| :: acts[1..][i] == acts[i + 1];
      EntryReads(l, cells, at.value, acts[0], cells[at.value].flink);
      VisitsReads(l, cells, cells[at.value].flink, acts[1..]);
      assert [acts[0]] + acts[1..] == acts;
    }
  }

  // ---- The size of a block ----

  ghost function Closes(acts: seq<Action>): nat {
    if acts == [] then 0 else Closes(acts[..|acts| - 1]) + if acts[|acts| - 1].Close? then 1 else 0
  }

  ghost function Dups(acts: seq<Action>): nat {
    if acts == [] then 0 else Dups(acts[..|acts| - 1]) + if acts[|acts| - 1].Dup2? then 1 else 0
  }

  /** The bytes of the open actions: each is its structure with the path, up to the next word. */
  ghost function OpenBytes(l: Layout, acts: seq<Action>): nat
    requires l.word > 0
  {
    if acts == [] then 0
    else
      var last := acts[|acts| - 1];
      OpenBytes(l, acts[..|acts| - 1]) + if last.Open? then AlignUp(l.open + |last.path|, l.word) else 0
  }

  /** The packed size is the sizes of the structures, each taken as often as it occurs, and
      the rounded sizes of the open actions. */
  lemma {:induction false} SizeAddsUp(l: Layout, acts: seq<Action>)
    requires l.Valid() && Known(acts) && Known(acts[..|acts|])
    ensures Offset(l, acts, |acts|) == l.close * Closes(acts) + l.dup2 * Dups(acts) + OpenBytes(l, acts)
    decreases |acts|
  {
    hide AlignUp;
    if acts != [] {
      var n := |acts| - 1;
      var front := acts[..n];
      KnownPrefix(acts, n);
      KnownPrefix(front, n);
      SizeAddsUp(l, front);
      OffsetPrefix(l, acts, front, n);
      Once(l.close, Closes(front));
      Once(l.dup2, Dups(front));
    }
  }

  lemma Once(x: nat, k: nat)
    ensures x * (k + 1) == x * k + x
  {
  }

  lemma {:induction false} OffsetPrefix(l: Layout, acts: seq<Action>, front: seq<Action>, n: nat)
    requires l.Valid() && Known(acts) && n <= |front| <= |acts| && front == acts[..|front|]
    requires Known(acts[..n]) && Known(front[..n])
    ensures Offset(l, acts, n) == Offset(l, front, n)
    decreases n
  {
    if n > 0 {
      assert acts[..n][..n - 1] == acts[..n - 1] && front[..n][..n - 1] == front[..n - 1];
      OffsetPrefix(l, acts, front, n - 1);
      assert front[n - 1] == acts[n - 1];
    }
  }

  /** binfmt_copyactions.  The copy is refused for an unknown action and for lack of memory;
      otherwise one block of exactly the packed size holds every action, in order, each
      linked to the next. */
  method CopyActions(l: Layout, mem: map<nat, Source>, first: nat, ghost acts: seq<Action>, memory: bool)
    returns (code: Code, copy: array?<Cell>)
    requires l.Valid() && Chain(mem, first, acts)
    ensures code == EINVAL <==> !Known(acts)
    ensures code == ENOMEM <==> Known(acts) && acts != [] && !memory
    ensures copy != null <==> code == OK && acts != []
    ensures copy != null ==> fresh(copy)
    ensures copy != null ==> Known(acts[..|acts|]) && copy.Length == Offset(l, acts, |acts|)
    ensures copy != null ==> Packed(l, copy[..], acts, |acts|) && Visits(l, copy[..], Some(0), acts)
    ensures copy != null ==> ReadList(l, copy[..], Some(0), |acts|) == Some(acts)
  {
    if first == 0 {
      return OK, null;
    }
    var size;
    code, size := AddSizes(l, mem, first, acts);
    if code != OK {
      return code, null;
    }
    if !memory {
      return ENOMEM, null;
    }
    copy := new Cell[size](i => Pad);
    Pack(l, mem, first, acts, copy);
    PackedVisits(l, copy[..], acts, 0);
    assert acts[0..] == acts;
    VisitsReads(l, copy[..], Some(0), acts);
  }

  method AddSizes(l: Layout, mem: map<nat, Source>, first: nat, ghost acts: seq<Action>) returns (code: Code, size: nat)
    requires l.Valid() && Chain(mem, first, acts)
    ensures code == OK || code == EINVAL
    ensures code == OK <==> Known(acts)
    ensures code == OK ==> Known(acts[..|acts|]) && size == Offset(l, acts, |acts|)
  {
    size := 0;
    var entry := first;
    ghost var k := 0;
    while entry != 0
      invariant k <= |acts| && Chain(mem, entry, acts[k..]) && Known(acts[..k]) && size == Offset(l, acts, k)
      decreases |acts| - k
    {
      assert acts[k..][0] == acts[k] && acts[k..][1..] == acts[k + 1..];
      assert acts[..k + 1][..k] == acts[..k];
      match mem[entry].action {
        case Close(_) => size := size + l.close;
        case Dup2(_, _) => size := size + l.dup2;
        case Open(_, _, _, path) => size := size + AlignUp(l.open + |path|, l.word);
        case Unknown(_) => return EINVAL, 0;
      }
      entry := mem[entry].flink;
      k := k + 1;
    }
    assert acts[..k] == acts;
    code := OK;
  }

  /** The copy of one entry: its structure with a cleared link, and for an open action the
      path with its terminator. */
  method PutEntry(l: Layout, block: array<Cell>, at: nat, a: Action)
    requires l.Valid() && !a.Unknown? && at + Size(l, a) <= block.Length
    modifies block
    ensures EntryAt(l, block[..], at, a, None)
    ensures forall j | 0 <= j < block.Length && !(at <= j < at + Size(l, a)) :: block[j] == old(block[j])
  {
    var fixed := match a case Close(_) => l.close case Dup2(_, _) => l.dup2 case _ => l.open;
    forall j | at < j < at + fixed {
      block[j] := Pad;
    }
    block[at] := Head(None, FixedOf(a));
    if a.Open? {
      var i := 0;
      while i < |a.path|
        invariant i <= |a.path| && block[at] == Head(None, FixedOf(a))
        invariant forall j | 0 <= j < i :: block[at + l.path + j] == Char(a.path[j])
        invariant forall j | 0 <= j < block.Length && !(at <= j < at + Size(l, a)) :: block[j] == old(block[j])
      {
        block[at + l.path + i] := Char(a.path[i]);
        i := i + 1;
      }
      block[at + l.path + i] := Char(NUL);
    }
  }

  /** The link of the entry at `prev` is set to the new entry. */
  method Relink(block: array<Cell>, prev: nat, at: nat)
    requires prev < block.Length && block[prev].Head?
    modifies block
    ensures block[..] == old(block[..])[prev := Head(Some(at), old(block[prev]).fixed)]
  {
    block[prev] := block[prev].(flink := Some(at));
  }

  lemma EntryMoves(l: Layout, cells: seq<Cell>, after: seq<Cell>, at: nat, a: Action, flink: Option<nat>,
                   flink': Option<nat>)
    requires l.Valid() && !a.Unknown? && |cells| == |after| && EntryAt(l, cells, at, a, flink)
    requires after[at] == Head(flink', FixedOf(a))
    requires forall j | at < j < at + Size(l, a) :: after[j] == cells[j]
    ensures EntryAt(l, after, at, a, flink')
  {
  }

  lemma LastHead(l: Layout, acts: seq<Action>, k: nat, before: seq<Cell>, middle: seq<Cell>)
    requires l.Valid() && Known(acts) && 0 < k < |acts| && Packed(l, before, acts, k) && |before| == |middle|
    requires Known(acts[..k]) && Known(acts[..k - 1])
    requires forall j | 0 <= j < |before| && !(Offset(l, acts, k) <= j < Offset(l, acts, k) + Size(l, acts[k])) ::
      middle[j] == before[j]
    ensures Offset(l, acts, k - 1) < |middle| && middle[Offset(l, acts, k - 1)].Head?
  {
    OffsetsApart(l, acts, k - 1, k);
    assert PackedAt(l, before, acts, k - 1, k);
  }

  /** Packing entry `k` and linking its predecessor to it extends the packed prefix. */
  lemma PackOne(l: Layout, acts: seq<Action>, k: nat, before: seq<Cell>, middle: seq<Cell>, after: seq<Cell>)
    requires l.Valid() && Known(acts) && k < |acts| && Known(acts[..k]) && Packed(l, before, acts, k)
    requires |before| == |middle| == |after|
    requires forall j | 0 <= j < |before| && !(Offset(l, acts, k) <= j < Offset(l, acts, k) + Size(l, acts[k])) ::
      middle[j] == before[j]
    requires EntryAt(l, middle, Offset(l, acts, k), acts[k], None)
    requires k == 0 ==> after == middle
    requires k > 0 ==> Known(acts[..k - 1]) && Offset(l, acts, k - 1) < |middle| && middle[Offset(l, acts, k - 1)].Head?
    requires k > 0 ==> after == middle[Offset(l, acts, k - 1) :=
      Head(Some(Offset(l, acts, k)), middle[Offset(l, acts, k - 1)].fixed)]
    ensures Packed(l, after, acts, k + 1)
  {
    var n := k + 1;
    forall i | 0 <= i < n
      ensures PackedAt(l, after, acts, i, n)
    {
      PackOneAt(l, acts, k, before, middle, after, i);
    }
  }

  lemma PackOneAt(l: Layout, acts: seq<Action>, k: nat, before: seq<Cell>, middle: seq<Cell>, after: seq<Cell>, i: nat)
    requires l.Valid() && Known(acts) && i <= k < |acts| && Known(acts[..k]) && Packed(l, before, acts, k)
    requires |before| == |middle| == |after|
    requires forall j | 0 <= j < |before| && !(Offset(l, acts, k) <= j < Offset(l, acts, k) + Size(l, acts[k])) ::
      middle[j] == before[j]
    requires EntryAt(l, middle, Offset(l, acts, k), acts[k], None)
    requires k == 0 ==> after == middle
    requires k > 0 ==> Known(acts[..k - 1]) && Offset(l, acts, k - 1) < |middle| && middle[Offset(l, acts, k - 1)].Head?
    requires k > 0 ==> after == middle[Offset(l, acts, k - 1) :=
      Head(Some(Offset(l, acts, k)), middle[Offset(l, acts, k - 1)].fixed)]
    ensures PackedAt(l, after, acts, i, k + 1)
  {
    hide Offset, Size, FixedOf;
    KnownPrefix(acts, i);
    KnownPrefix(acts, i + 1);
    var at := Offset(l, acts, i);
    if k > 0 {
      OffsetsApart(l, acts, k - 1, k);
    }
    if i < k {
      OffsetsApart(l, acts, i, k);
      assert PackedAt(l, before, acts, i, k);
      if i < k - 1 {
        OffsetsApart(l, acts, i, k - 1);
      }
      EntryMoves(l, before, after, at, acts[i], before[at].flink, Some(Offset(l, acts, i + 1)));
    } else {
      EntryMoves(l, middle, after, at, acts[i], None, None);
    }
  }

  /** The second loop, over a block of the counted size. */
  method Pack(l: Layout, mem: map<nat, Source>, first: nat, ghost acts: seq<Action>, block: array<Cell>)
    requires l.Valid() && Chain(mem, first, acts) && Known(acts) && Known(acts[..|acts|])
    requires block.Length == Offset(l, acts, |acts|)
    modifies block
    ensures Packed(l, block[..], acts, |acts|)
  {
    var entry := first;
    var prev: Option<nat> := None;
    var buffer: nat := 0;
    ghost var k := 0;
    KnownPrefix(acts, 0);
    while entry != 0
      invariant k <= |acts| && Chain(mem, entry, acts[k..]) && Known(acts[..k])
      invariant buffer == Offset(l, acts, k) && Packed(l, block[..], acts, k)
      invariant prev.None? <==> k == 0
      invariant k > 0 ==> Known(acts[..k - 1]) && prev == Some(Offset(l, acts, k - 1))
      decreases |acts| - k
    {
      assert acts[k..][0] == acts[k] && acts[k..][1..] == acts[k + 1..];
      KnownPrefix(acts, k + 1);
      OffsetsApart(l, acts, k, |acts|);
      ghost var before := block[..];
      PutEntry(l, block, buffer, mem[entry].action);
      ghost var middle := block[..];
      if prev.Some? {
        LastHead(l, acts, k, before, middle);
        Relink(block, prev.value, buffer);
      }
      PackOne(l, acts, k, before, middle, block[..]);
      prev := Some(buffer);
      buffer := buffer + Size(l, mem[entry].action);
      entry := mem[entry].flink;
      k := k + 1;
    }
  }
}
