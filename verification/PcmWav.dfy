/** The WAV header and the walk over its chunks (pcm_parsewav and pcm_validwav in
    nuttx/audio/pcm_decode.c, the layout in nuttx/include/nuttx/audio/pcm.h). */
module PcmWav {
  import opened Common
  import opened Sequences

  const WAV_HDR_CHUNKID := 0x46464952
  const WAV_HDR_FORMAT := 0x45564157
  const WAV_FMT_CHUNKID := 0x20746d66
  const WAV_FMT_CHUNKLEN := 16
  const WAV_FMT_FORMAT := 1
  const WAV_DATA_CHUNKID := 0x61746164
  const HEADER_SIZE := 44
  const TWO32 := 0x1_0000_0000

  function Le16(s: seq<Byte>, i: nat): nat
    requires i + 2 <= |s|
  {
    s[i] as nat + 256 * s[i + 1] as nat
  }

  function Le32(s: seq<Byte>, i: nat): nat
    requires i + 4 <= |s|
  {
    s[i] as nat + 256 * s[i + 1] as nat + 65536 * s[i + 2] as nat + 16777216 * s[i + 3] as nat
  }

  // ---- The walk ----

  /** How the walk ends: behind the header of a data chunk, at a chunk that reaches the end
      of the buffer, or at a header that would lie before the buffer. */
  datatype Found = Found(size: nat) | NotFound | Outside

  predicate IsData(s: seq<Byte>, ret: nat)
    requires 8 <= ret <= |s|
  {
    Le32(s, ret - 8) == WAV_DATA_CHUNKID
  }

  /** The next value of `ret`, which is one past a chunk header, in 32-bit arithmetic. */
  function Advance(s: seq<Byte>, ret: nat): nat
    requires 8 <= ret <= |s|
  {
    (ret + Le32(s, ret - 4) + 8) % TWO32
  }

  /** The loop of pcm_parsewav, for at most `fuel` more turns. */
  function Walk(s: seq<Byte>, ret: nat, fuel: nat): Option<Found>
    requires 8 <= ret <= |s|
    decreases fuel
  {
    if IsData(s, ret) then Some(Found(ret))
    else
      var next := Advance(s, ret);
      if |s| <= next then Some(NotFound)
      else if next < 8 then Some(Outside)
      else if fuel == 0 then None
      else Walk(s, next, fuel - 1)
  }

  /** What the walk comes to, if it ends. */
  function FindData(s: seq<Byte>): Option<Found>
    requires HEADER_SIZE <= |s|
  {
    Walk(s, HEADER_SIZE, |s|)
  }

  /** The value of `ret` after `n` turns, as long as the loop goes on. */
  function Position(s: seq<Byte>, n: nat): (r: Option<nat>)
    requires HEADER_SIZE <= |s|
    ensures r.Some? ==> 8 <= r.value <= |s|
  {
    if n == 0 then Some(HEADER_SIZE)
    else
      var before := Position(s, n - 1);
      if before.None? then None
      else NextPosition(s, before.value)
  }

  function NextPosition(s: seq<Byte>, ret: nat): (r: Option<nat>)
    requires 8 <= ret <= |s|
    ensures r.Some? ==> 8 <= r.value < |s|
  {
    if !IsData(s, ret) && 8 <= Advance(s, ret) < |s| then Some(Advance(s, ret)) else None
  }

  /** The loop is still going after `n` turns exactly if it has a position then. */
  lemma {:induction false} WalkRuns(s: seq<Byte>, k: nat, ret: nat, n: nat)
    requires HEADER_SIZE <= |s| && Position(s, k) == Some(ret)
    ensures Walk(s, ret, n).None? <==> Position(s, k + n + 1).Some?
    decreases n
  {
    hide IsData, Advance;
    var next := NextPosition(s, ret);
    assert Position(s, k + 1) == next;
    if n > 0 && next.Some? {
      WalkRuns(s, k + 1, next.value, n - 1);
    } else {
      PositionStops(s, k + 1, k + n + 1);
    }
  }

  lemma {:induction false} PositionStops(s: seq<Byte>, k: nat, n: nat)
    requires HEADER_SIZE <= |s| && k <= n
    ensures Position(s, k).None? ==> Position(s, n).None?
    decreases n
  {
    if k < n {
      PositionStops(s, k, n - 1);
    }
  }

  lemma {:induction false} WalkStays(s: seq<Byte>, ret: nat, n: nat, m: nat)
    requires 8 <= ret <= |s| && n <= m && Walk(s, ret, n).Some?
    ensures Walk(s, ret, m) == Walk(s, ret, n)
    decreases n
  {
    hide IsData, Advance;
    if n > 0 && !IsData(s, ret) && 8 <= Advance(s, ret) < |s| {
      WalkStays(s, Advance(s, ret), n - 1, m - 1);
    }
  }

  /** What comes after a position depends on the position alone. */
  lemma {:induction false} PositionRepeats(s: seq<Byte>, i: nat, j: nat, m: nat)
    requires HEADER_SIZE <= |s| && Position(s, i) == Position(s, j)
    ensures Position(s, i + m) == Position(s, j + m)
    decreases m
  {
    hide NextPosition;
    if m > 0 {
      PositionRepeats(s, i, j, m - 1);
      assert Position(s, i + m - 1) == Position(s, j + m - 1);
    }
  }

  /** The walk comes to the same place after `i` and after `j` turns. */
  predicate Twice(s: seq<Byte>, i: nat, j: nat)
    requires HEADER_SIZE <= |s|
  {
    i < j && Position(s, i) == Position(s, j) && Position(s, j).Some?
  }

  lemma {:induction false} CycleForever(s: seq<Byte>, i: nat, j: nat, n: nat)
    requires HEADER_SIZE <= |s| && Twice(s, i, j)
    ensures Position(s, n).Some?
    decreases n
  {
    hide NextPosition;
    if n <= j {
      PositionStops(s, n, j);
    } else {
      PositionRepeats(s, i, j, n - j);
      CycleForever(s, i, j, n - (j - i));
    }
  }

  /** The first positions, counted from the least that can be read. */
  ghost function Trail(s: seq<Byte>, n: nat): seq<nat>
    requires HEADER_SIZE <= |s| && Position(s, n).Some?
  {
    seq(n + 1, i requires 0 <= i <= n => TrailAt(s, n, i))
  }

  ghost function TrailAt(s: seq<Byte>, n: nat, i: nat): nat
    requires HEADER_SIZE <= |s| && Position(s, n).Some? && i <= n
  {
    PositionStops(s, i, n);
    Position(s, i).value - 8
  }

  /** The walk ends if and only if it ends within as many turns as the buffer has bytes. */
  lemma EndsIff(s: seq<Byte>, n: nat)
    requires HEADER_SIZE <= |s|
    ensures Walk(s, HEADER_SIZE, n).Some? ==> FindData(s) == Walk(s, HEADER_SIZE, n)
  {
    hide Walk, Position;
    WalkRuns(s, 0, HEADER_SIZE, n) by { Begins(s); }
    WalkRuns(s, 0, HEADER_SIZE, |s|) by { Begins(s); }
    if Walk(s, HEADER_SIZE, n).Some? {
      if n <= |s| {
        WalkStays(s, HEADER_SIZE, n, |s|);
      } else if FindData(s).Some? {
        WalkStays(s, HEADER_SIZE, |s|, n);
      } else {
        SomeTwice(s);
        var i: nat, j: nat :| Twice(s, i, j);
        CycleForever(s, i, j, n + 1);
      }
    }
  }

  lemma Begins(s: seq<Byte>)
    requires HEADER_SIZE <= |s|
    ensures Position(s, 0) == Some(HEADER_SIZE)
  {
  }

  /** A walk of more turns than the buffer has bytes comes to some place twice. */
  lemma SomeTwice(s: seq<Byte>)
    requires HEADER_SIZE <= |s| && Position(s, |s| + 1).Some?
    ensures exists i: nat, j: nat :: Twice(s, i, j)
  {
    hide Position, Advance, IsData;
    var n := |s| + 1;
    var t := Trail(s, n);
    forall i | 0 <= i <= n
      ensures Position(s, i).Some? && t[i] == Position(s, i).value - 8
    {
      PositionStops(s, i, n);
    }
    if NoDup(t) {
      Pigeonhole(t, |s|);
    }
    var i, j :| 0 <= i < j < |t| && t[i] == t[j];
    assert Twice(s, i, j);
  }

  /** Whether the walk is still going after `n` turns. */
  predicate GoesOn(s: seq<Byte>, n: nat)
    requires HEADER_SIZE <= |s|
  {
    Walk(s, HEADER_SIZE, n).None?
  }

  /** The cause of an endless walk: it goes on forever if and only if it comes to some place
      twice. */
  lemma EndlessIff(s: seq<Byte>)
    requires HEADER_SIZE <= |s|
    ensures (forall n: nat :: GoesOn(s, n)) <==> exists i: nat, j: nat :: Twice(s, i, j)
  {
    hide Walk, Position;
    Begins(s);
    if i: nat, j: nat :| Twice(s, i, j) {
      forall n: nat
        ensures GoesOn(s, n)
      {
        CycleForever(s, i, j, n + 1);
        WalkRuns(s, 0, HEADER_SIZE, n);
      }
    } else if GoesOn(s, |s|) {
      WalkRuns(s, 0, HEADER_SIZE, |s|);
      SomeTwice(s);
    }
  }

  /** A chunk whose length is 2^32 - 8 is followed by itself: the walk never ends. */
  lemma EndlessChunk(s: seq<Byte>, k: nat, ret: nat, n: nat)
    requires HEADER_SIZE <= |s| < TWO32 && Position(s, k) == Some(ret) && ret < |s|
    requires !IsData(s, ret) && Le32(s, ret - 4) == TWO32 - 8
    ensures Walk(s, HEADER_SIZE, n).None?
  {
    hide Walk, Position;
    assert NextPosition(s, ret) == Some(ret);
    PositionNext(s, k);
    CycleForever(s, k, k + 1, n + 1);
    Begins(s);
    WalkRuns(s, 0, HEADER_SIZE, n);
  }

  lemma PositionNext(s: seq<Byte>, k: nat)
    requires HEADER_SIZE <= |s| && Position(s, k).Some?
    ensures Position(s, k + 1) == NextPosition(s, Position(s, k).value)
  {
  }

  /** Whether 32-bit arithmetic wraps nowhere on the walk. */
  ghost predicate NeverWraps(s: seq<Byte>)
    requires HEADER_SIZE <= |s|
  {
    forall k: nat | Position(s, k).Some? :: Position(s, k).value + Le32(s, Position(s, k).value - 4) + 8 < TWO32
  }

  /** Without wrapping, the walk ends, and it never leaves the buffer. */
  lemma EndsUnwrapped(s: seq<Byte>)
    requires HEADER_SIZE <= |s| && NeverWraps(s)
    ensures FindData(s).Some? && FindData(s) != Some(Outside)
  {
    hide Walk, Position;
    Begins(s);
    if Position(s, |s| + 1).Some? {
      Climbs(s, |s| + 1);
      assert false;
    }
    WalkRuns(s, 0, HEADER_SIZE, |s|);
    NeverOutside(s, 0, HEADER_SIZE, |s|);
  }

  lemma {:induction false} Climbs(s: seq<Byte>, n: nat)
    requires HEADER_SIZE <= |s| && NeverWraps(s) && Position(s, n).Some?
    ensures Position(s, n).value >= n
    decreases n
  {
    hide IsData, Le32;
    if n > 0 {
      Climbs(s, n - 1);
    }
  }

  lemma {:induction false} NeverOutside(s: seq<Byte>, k: nat, ret: nat, fuel: nat)
    requires HEADER_SIZE <= |s| && NeverWraps(s) && Position(s, k) == Some(ret)
    ensures Walk(s, ret, fuel) != Some(Outside)
    decreases fuel
  {
    hide IsData, Le32;
    var next := NextPosition(s, ret);
    PositionNext(s, k);
    if fuel > 0 && next.Some? {
      NeverOutside(s, k + 1, next.value, fuel - 1);
    }
  }

  // ---- Chunk lists ----

  /** `ret` is one past the header of a chunk without data, and `next` one past the header
      of the chunk behind it, inside the buffer. */
  predicate Link(s: seq<Byte>, ret: nat, next: nat)
    requires 8 <= ret <= |s|
  {
    !IsData(s, ret) && next == Advance(s, ret) && 8 <= next < |s|
  }

  /** A path over chunk headers: it starts behind the first header, and each chunk but the
      last has no data and leads to the next. */
  predicate Path(s: seq<Byte>, path: seq<nat>) {
    && |path| > 0 && path[0] == HEADER_SIZE
    && (forall i | 0 <= i < |path| :: 8 <= path[i] <= |s|)
    && (forall i | 0 <= i < |path| - 1 :: Link(s, path[i], path[i + 1]))
  }

  /** The path ends at a data chunk. */
  predicate DataPath(s: seq<Byte>, path: seq<nat>) {
    Path(s, path) && IsData(s, path[|path| - 1])
  }

  lemma {:induction false} PathIsTrail(s: seq<Byte>, path: seq<nat>, k: nat)
    requires HEADER_SIZE <= |s| && Path(s, path) && k < |path|
    ensures Position(s, k) == Some(path[k])
    decreases k
  {
    hide IsData, Advance;
    if k > 0 {
      PathIsTrail(s, path, k - 1);
      assert Link(s, path[k - 1], path[k - 1 + 1]);
    }
  }

  /** A data chunk at some position is what the walk finds. */
  lemma {:induction false} FoundAt(s: seq<Byte>, k: nat, ret: nat, n: nat, at: nat)
    requires HEADER_SIZE <= |s| && Position(s, k) == Some(ret)
    requires Position(s, k + n) == Some(at) && IsData(s, at)
    ensures Walk(s, ret, n) == Some(Found(at))
    decreases n
  {
    hide IsData, Advance;
    if n > 0 {
      PositionStops(s, k + 1, k + n);
      PositionNext(s, k);
      FoundAt(s, k + 1, NextPosition(s, ret).value, n - 1, at);
    }
  }

  lemma {:induction false} FoundPath(s: seq<Byte>, path: seq<nat>, fuel: nat)
    requires HEADER_SIZE <= |s| && Path(s, path)
    requires var f := Walk(s, path[|path| - 1], fuel); f.Some? && f.value.Found?
    ensures exists p: seq<nat> :: DataPath(s, p)
    decreases fuel
  {
    hide IsData, Advance;
    var last := path[|path| - 1];
    if IsData(s, last) {
      assert DataPath(s, path);
    } else {
      var longer := path + [Advance(s, last)];
      Longer(s, path);
      FoundPath(s, longer, fuel - 1);
    }
  }

  lemma Longer(s: seq<Byte>, path: seq<nat>)
    requires Path(s, path) && Link(s, path[|path| - 1], Advance(s, path[|path| - 1]))
    ensures Path(s, path + [Advance(s, path[|path| - 1])])
  {
    hide IsData, Advance;
    var path' := path + [Advance(s, path[|path| - 1])];
    forall i | 0 <= i < |path'| - 1
      ensures Link(s, path'[i], path'[i + 1])
    {
      if i < |path| - 1 {
        assert path'[i] == path[i] && path'[i + 1] == path[i + 1];
      }
    }
  }

  /** The walk finds a data chunk exactly if the chunk list of the buffer reaches one, and
      then it returns the offset just past that chunk's header. */
  lemma WalkIff(s: seq<Byte>)
    requires HEADER_SIZE <= |s|
    ensures FindData(s).Some? && FindData(s).value.Found? <==> exists p: seq<nat> :: DataPath(s, p)
    ensures forall p: seq<nat> | DataPath(s, p) :: FindData(s) == Some(Found(p[|p| - 1]))
  {
    hide Walk, IsData, Advance;
    assert Path(s, [HEADER_SIZE]);
    if FindData(s).Some? && FindData(s).value.Found? {
      FoundPath(s, [HEADER_SIZE], |s|);
    }
    forall p: seq<nat> | DataPath(s, p)
      ensures FindData(s) == Some(Found(p[|p| - 1]))
    {
      var n := |p| - 1;
      PathIsTrail(s, p, n);
      Begins(s);
      FoundAt(s, 0, HEADER_SIZE, n, p[n]);
      EndsIff(s, n);
    }
  }

  datatype Format = Format(samprate: nat, byterate: nat, align: nat, bpsamp: nat, nchannels: nat)

  function FormatOf(s: seq<Byte>): Format
    requires HEADER_SIZE <= |s|
  {
    Format(Le32(s, 24), Le32(s, 28), Le16(s, 32), Le16(s, 34), Le16(s, 22))
  }

  predicate ValidWav(s: seq<Byte>)
    requires HEADER_SIZE <= |s|
  {
    && Le32(s, 0) == WAV_HDR_CHUNKID && Le32(s, 8) == WAV_HDR_FORMAT
    && Le32(s, 12) == WAV_FMT_CHUNKID && Le32(s, 16) == WAV_FMT_CHUNKLEN && Le16(s, 20) == WAV_FMT_FORMAT
    && Le16(s, 22) < 256 && Le16(s, 32) < 256 && Le16(s, 34) < 256
  }

  predicate Supported(f: Format) {
    f.bpsamp in {8, 16} && f.nchannels in {1, 2}
  }

  /** The size of an accepted header, 0 if there is none. */
  function HeaderSize(s: seq<Byte>): (size: nat)
    ensures size <= |s|
  {
    if HEADER_SIZE <= |s| && FoundData(s) && ValidWav(s) && Supported(FormatOf(s)) then
      FindInside(s, HEADER_SIZE, |s|);
      FindData(s).value.size
    else 0
  }

  predicate FoundData(s: seq<Byte>)
    requires HEADER_SIZE <= |s|
  {
    FindData(s).Some? && FindData(s).value.Found?
  }

  lemma {:induction false} FindInside(s: seq<Byte>, ret: nat, fuel: nat)
    requires 8 <= ret <= |s|
    ensures var f := Walk(s, ret, fuel); f.Some? && f.value.Found? ==> 8 <= f.value.size <= |s|
    decreases fuel
  {
    hide IsData, Advance;
    if !IsData(s, ret) && 8 <= Advance(s, ret) < |s| && fuel > 0 {
      FindInside(s, Advance(s, ret), fuel - 1);
    }
  }

  /** A header is accepted exactly if it is a supported PCM header whose chunk list
      reaches a data chunk, and its size is the offset behind that chunk's header. */
  lemma HeaderSizeIff(s: seq<Byte>)
    ensures 0 < HeaderSize(s) <==>
              HEADER_SIZE <= |s| && ValidWav(s) && Supported(FormatOf(s)) && exists p: seq<nat> :: DataPath(s, p)
    ensures forall p: seq<nat> | 0 < HeaderSize(s) && DataPath(s, p) :: HeaderSize(s) == p[|p| - 1]
  {
    hide Le32, Le16, Walk, IsData, ValidWav, Supported;
    if HEADER_SIZE <= |s| {
      WalkIff(s);
      FindInside(s, HEADER_SIZE, |s|);
    }
  }

  /** pcm_parsewav, on a buffer whose walk ends inside it.  A size of 0 stands for the error
      return.  The format is stored as soon as the header is valid, also when it turns out
      to be unsupported. */
  method ParseWav(s: seq<Byte>) returns (size: nat, stored: bool, f: Format)
    requires HEADER_SIZE <= |s| ==> FindData(s).Some? && FindData(s) != Some(Outside)
    ensures size == HeaderSize(s)
    ensures stored <==> HEADER_SIZE <= |s| && FoundData(s) && ValidWav(s)
    ensures stored ==> f == FormatOf(s)
  {
    hide Le32, Le16, ValidWav, Supported;
    size, stored, f := 0, false, Format(0, 0, 0, 0, 0);
    if |s| < HEADER_SIZE {
      return;
    }
    var ret := HEADER_SIZE;
    ghost var fuel: nat := |s|;
    while Le32(s, ret - 8) != WAV_DATA_CHUNKID
      invariant 8 <= ret <= |s| && Walk(s, ret, fuel) == FindData(s)
      decreases fuel
    {
      ret := (ret + Le32(s, ret - 4) + 8) % TWO32;
      if ret >= |s| {
        return;
      }
      fuel := fuel - 1;
    }
    if ValidWav(s) {
      stored, f := true, FormatOf(s);
      if Supported(f) {
        size := ret;
      }
    }
  }
}
