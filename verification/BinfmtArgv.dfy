/** Copying an argument list into one block (nuttx/binfmt/binfmt_copyargv.c): a table of
    pointers, closed by a null pointer, followed by the strings. */
module BinfmtArgv {
  import opened Common

  /** A byte of the block: the first byte of a pointer, one of its other bytes, or a character. */
  datatype Cell = Pad | Ptr(to: Option<nat>) | Char(c: char)

  datatype Code = OK | E2BIG | ENOMEM

  const MAX_EXEC_ARGS := 256

  /** The bytes of the first `n` strings with their terminators. */
  function Bytes(args: seq<CString>, n: nat): nat
    requires n <= |args|
  {
    if n == 0 then 0 else Bytes(args, n - 1) + |args[n - 1]| + 1
  }

  /** Where string `i` of a copy with a pointer size of `word` starts. */
  function Start(word: nat, args: seq<CString>, i: nat): nat
    requires i <= |args|
  {
    (|args| + 1) * word + Bytes(args, i)
  }

  /** Whether a terminated string stands at this place. */
  ghost predicate StringAt(cells: seq<Cell>, at: nat, s: CString) {
    && at + |s| < |cells|
    && (forall j | 0 <= j < |s| :: cells[at + j] == Char(s[j]))
    && cells[at + |s|] == Char(NUL)
  }

  ghost predicate PointerAt(word: nat, cells: seq<Cell>, i: nat, to: Option<nat>) {
    i * word < |cells| && cells[i * word] == Ptr(to)
  }

  /** The string a reader finds at this place, up to its terminator. */
  function ReadText(cells: seq<Cell>, at: nat): Option<CString>
    decreases |cells| - at
  {
    if at >= |cells| || !cells[at].Char? then None
    else if cells[at].c == NUL then
      var text: CString := "";
      Some(text)
    else
      var rest := ReadText(cells, at + 1);
      if rest.None? then None
      else
        var text: CString := [cells[at].c] + rest.value;
        Some(text)
  }

  /** The list a reader finds behind the pointer at `at` and those that follow it, up to the
      null pointer. */
  function ReadTable(word: nat, cells: seq<Cell>, at: nat): Option<seq<CString>>
    requires word > 0
    decreases |cells| - at
  {
    if at >= |cells| || !cells[at].Ptr? then None
    else if cells[at].to.None? then Some([])
    else
      var first := ReadText(cells, cells[at].to.value);
      var rest := ReadTable(word, cells, at + word);
      if first.None? || rest.None? then None else Some([first.value] + rest.value)
  }

  lemma {:induction false} StringReads(cells: seq<Cell>, at: nat, s: CString)
    requires StringAt(cells, at, s)
    ensures ReadText(cells, at) == Some(s)
    decreases |s|
  {
    if s != [] {
      var t: CString := s[1..];
      assert cells[at + 0] == Char(s[0]);
      forall j | 0 <= j < |t|
        ensures cells[at + 1 + j] == Char(t[j])
      {
        assert cells[at + (j + 1)] == Char(s[j + 1]);
      }
      StringReads(cells, at + 1, t);
      assert [s[0]] + t == s;
    } else {
      assert cells[at] == Char(NUL);
    }
  }

  /** The first `n` arguments are in place: pointer and string each where they belong. */
  ghost predicate Placed(word: nat, cells: seq<Cell>, args: seq<CString>, n: nat)
    requires n <= |args|
  {
    forall i | 0 <= i < n :: PlacedAt(word, cells, args, i)
  }

  ghost predicate PlacedAt(word: nat, cells: seq<Cell>, args: seq<CString>, i: nat)
    requires i < |args|
  {
    PointerAt(word, cells, i, Some(Start(word, args, i))) && StringAt(cells, Start(word, args, i), args[i])
  }

  lemma {:induction false} BytesApart(args: seq<CString>, i: nat, n: nat)
    requires i < n <= |args|
    ensures Bytes(args, i) + |args[i]| + 1 == Bytes(args, i + 1) <= Bytes(args, n)
    decreases n
  {
    if i + 1 < n {
      BytesApart(args, i, n - 1);
    }
  }

  /** Pointer `i` lies in the table and before every later pointer. */
  lemma {:induction false} TableApart(word: nat, i: nat, n: nat)
    requires i < n && word > 0
    ensures i * word + word <= n * word
    decreases n
  {
    assert n * word == (n - 1) * word + word;
    if i + 1 < n {
      TableApart(word, i, n - 1);
    }
  }

  lemma {:induction false} PlacedReads(word: nat, cells: seq<Cell>, args: seq<CString>, k: nat)
    requires word > 0 && k <= |args|
    requires Placed(word, cells, args, |args|) && PointerAt(word, cells, |args|, None)
    ensures ReadTable(word, cells, k * word) == Some(args[k..])
    decreases |args| - k
  {
    if k < |args| {
      PlacedReads(word, cells, args, k + 1);
      assert (k + 1) * word == k * word + word;
      assert [args[k]] + args[k + 1..] == args[k..];
      assert PlacedAt(word, cells, args, k);
      StringReads(cells, Start(word, args, k), args[k]);
    }
  }

  /** binfmt_copyargv.  Lists of more than 256 strings are refused before any allocation; a
      missing or empty list has no copy; otherwise one block, filled exactly, reads back as
      the same list. */
  method CopyArgv(word: nat, argv: Option<seq<CString>>, memory: bool) returns (code: Code, copy: array?<Cell>)
    requires word > 0
    ensures code == E2BIG <==> argv.Some? && |argv.value| > MAX_EXEC_ARGS
    ensures code == ENOMEM <==> argv.Some? && 0 < |argv.value| <= MAX_EXEC_ARGS && !memory
    ensures copy != null <==> argv.Some? && 0 < |argv.value| <= MAX_EXEC_ARGS && memory
    ensures copy != null ==> fresh(copy) && copy.Length == (|argv.value| + 1) * word + |Texts(argv.value)|
    ensures copy != null ==> ReadTable(word, copy[..], 0) == Some(argv.value)
  {
    copy := null;
    code := OK;
    if argv.Some? {
      var args := argv.value;
      var argsize, nargs, i := 0, 0, 0;
      while i < |args|
        invariant nargs == i <= |args| && i <= MAX_EXEC_ARGS && argsize == Bytes(args, i)
      {
        argsize := argsize + |args[i]| + 1;
        nargs := nargs + 1;
        if nargs > MAX_EXEC_ARGS {
          return E2BIG, null;
        }
        i := i + 1;
      }
      BytesPositive(args, |args|);
      if argsize > 0 {
        if !memory {
          return ENOMEM, null;
        }
        copy := new Cell[(nargs + 1) * word + argsize](j => Pad);
        Fill(word, args, copy);
        PlacedReads(word, copy[..], args, 0);
        BytesAre(args, |args|);
        assert args[0..] == args == args[..|args|];
      }
    }
  }

  /** The strings with their terminators, one behind the other. */
  function Texts(args: seq<CString>): string {
    if args == [] then [] else Texts(args[..|args| - 1]) + args[|args| - 1] + [NUL]
  }

  lemma {:induction false} BytesAre(args: seq<CString>, n: nat)
    requires n <= |args|
    ensures Bytes(args, n) == |Texts(args[..n])|
    decreases n
  {
    if n > 0 {
      BytesAre(args, n - 1);
      assert args[..n][..n - 1] == args[..n - 1];
    }
  }

  lemma BytesPositive(args: seq<CString>, n: nat)
    requires n <= |args|
    ensures Bytes(args, n) > 0 <==> n > 0
  {
  }

  method Fill(word: nat, args: seq<CString>, block: array<Cell>)
    requires word > 0 && block.Length == Start(word, args, |args|)
    modifies block
    ensures Placed(word, block[..], args, |args|) && PointerAt(word, block[..], |args|, None)
  {
    var ptr: nat := (|args| + 1) * word;
    var i := 0;
    while i < |args|
      invariant i <= |args| && ptr == Start(word, args, i) && Placed(word, block[..], args, i)
    {
      ghost var before := block[..];
      TableApart(word, i, |args| + 1);
      BytesApart(args, i, |args|);
      block[i * word] := Ptr(Some(ptr));
      PutString(block, ptr, args[i]);
      PlaceOne(word, args, i, before, block[..]);
      ptr := ptr + |args[i]| + 1;
      i := i + 1;
    }
    ghost var before := block[..];
    TableApart(word, i, |args| + 1);
    block[i * word] := Ptr(None);
    CloseTable(word, args, before, block[..]);
  }

  /** The copy of one string with its terminator. */
  method PutString(block: array<Cell>, at: nat, s: CString)
    requires at + |s| < block.Length
    modifies block
    ensures StringAt(block[..], at, s)
    ensures forall j | 0 <= j < block.Length && !(at <= j <= at + |s|) :: block[j] == old(block[j])
  {
    var i := 0;
    while i < |s|
      invariant i <= |s| && forall j | 0 <= j < i :: block[at + j] == Char(s[j])
      invariant forall j | 0 <= j < block.Length && !(at <= j <= at + |s|) :: block[j] == old(block[j])
    {
      block[at + i] := Char(s[i]);
      i := i + 1;
    }
    block[at + i] := Char(NUL);
  }

  /** Placing argument `k` disturbs no argument placed before. */
  lemma PlaceOne(word: nat, args: seq<CString>, k: nat, before: seq<Cell>, after: seq<Cell>)
    requires word > 0 && k < |args| && |before| == |after| == Start(word, args, |args|)
    requires Placed(word, before, args, k)
    requires PointerAt(word, after, k, Some(Start(word, args, k))) && StringAt(after, Start(word, args, k), args[k])
    requires var at := Start(word, args, k);
             forall j | 0 <= j < |before| && j != k * word && !(at <= j <= at + |args[k]|) :: after[j] == before[j]
    ensures forall i | 0 <= i <= k :: PlacedAt(word, after, args, i)
  {
    TableApart(word, k, |args| + 1);
    forall i | 0 <= i < k
      ensures PlacedAt(word, after, args, i)
    {
      assert PlacedAt(word, before, args, i);
      TableApart(word, i, k);
      BytesApart(args, i, k);
    }
  }

  lemma CloseTable(word: nat, args: seq<CString>, before: seq<Cell>, after: seq<Cell>)
    requires word > 0 && Placed(word, before, args, |args|) && |args| * word < |before|
    requires after == before[|args| * word := Ptr(None)]
    ensures Placed(word, after, args, |args|)
  {
    TableApart(word, |args|, |args| + 1);
    forall i | 0 <= i < |args|
      ensures PlacedAt(word, after, args, i)
    {
      assert PlacedAt(word, before, args, i);
      TableApart(word, i, |args|);
    }
  }
}
