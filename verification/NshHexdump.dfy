/** The skip and count window of the hexdump command (apps/nshlib/nsh_dbgcmds.c). */
module NshHexdump {
  import opened Common

  /** One call of the dumper: the offset it prints and the bytes. */
  datatype Dump = Dump(at: nat, bytes: seq<Byte>)

  function Dumped(dumps: seq<Dump>): seq<Byte> {
    if dumps == [] then [] else Dumped(dumps[..|dumps| - 1]) + dumps[|dumps| - 1].bytes
  }

  function Min(a: int, b: int): int {
    if a < b then a else b
  }

  /** A negative option counts as zero. */
  function Clamp(n: int): nat {
    if n < 0 then 0 else n
  }

  /** The bytes a user asks for. */
  function Window(file: seq<Byte>, skip: nat, count: nat): (w: seq<Byte>)
    ensures |w| == if skip >= |file| then 0 else Min(count, |file| - skip)
  {
    if skip >= |file| then [] else file[skip..skip + Min(count, |file| - skip)]
  }

  /** Whether every dump shows the bytes that stand at the offset it prints. */
  ghost predicate Labelled(dumps: seq<Dump>, file: seq<Byte>) {
    forall i | 0 <= i < |dumps| :: LabelOk(dumps[i], file)
  }

  ghost predicate LabelOk(d: Dump, file: seq<Byte>) {
    d.at + |d.bytes| <= |file| && file[d.at..d.at + |d.bytes|] == d.bytes
  }

  // ---- Slices of a file that grows ----

  lemma SliceWithin(a: seq<Byte>, b: seq<Byte>, i: nat, j: nat)
    requires i <= j <= |a|
    ensures (a + b)[i..j] == a[i..j]
  {
  }

  lemma SliceAcross(a: seq<Byte>, b: seq<Byte>, i: nat, j: nat)
    requires i <= |a| && j <= |b|
    ensures (a + b)[i..|a| + j] == a[i..] + b[..j]
  {
  }

  lemma SliceBeyond(a: seq<Byte>, b: seq<Byte>, i: nat, j: nat)
    requires i <= j <= |b|
    ensures (a + b)[|a| + i..|a| + j] == b[i..j]
  {
  }

  /** A chunk behind the skip point goes on with the window. */
  lemma WindowGoesOn(seen: seq<Byte>, chunk: seq<Byte>, skip: nat, count: nat)
    requires skip <= |seen|
    ensures Window(seen + chunk, skip, count) ==
      Window(seen, skip, count) + chunk[..Min(count - |Window(seen, skip, count)|, |chunk|)]
  {
    hide Window;
    var have := |seen| - skip;
    WindowFrom(seen, skip, count);
    WindowFrom(seen + chunk, skip, count);
    if count <= have {
      SliceWithin(seen, chunk, skip, skip + count);
      assert seen[skip..skip + count] + chunk[..0] == seen[skip..skip + count];
    } else {
      SliceAcross(seen, chunk, skip, Min(count - have, |chunk|));
      assert seen[skip..|seen|] == seen[skip..];
    }
  }

  lemma WindowFrom(file: seq<Byte>, skip: nat, count: nat)
    requires skip <= |file|
    ensures Window(file, skip, count) == file[skip..skip + Min(count, |file| - skip)]
  {
  }

  /** The chunk that holds the skip point begins the window. */
  lemma WindowBegins(seen: seq<Byte>, chunk: seq<Byte>, skip: nat, count: nat)
    requires |seen| < skip < |seen| + |chunk|
    ensures Window(seen, skip, count) == []
    ensures var at := skip - |seen|;
            Window(seen + chunk, skip, count) == chunk[at..at + Min(count, |chunk| - at)]
  {
    var at := skip - |seen|;
    SliceBeyond(seen, chunk, at, at + Min(count, |chunk| - at));
  }

  /** Once the window is full, the rest of the file does not matter. */
  lemma WindowFull(seen: seq<Byte>, rest: seq<Byte>, skip: nat, count: nat)
    requires skip <= |seen| && |Window(seen, skip, count)| == count
    ensures Window(seen + rest, skip, count) == Window(seen, skip, count)
  {
    hide Window;
    WindowGoesOn(seen, rest, skip, count);
  }

  // ---- Chunks and dumps ----

  lemma {:induction false} ConcatSplit(chunks: seq<seq<Byte>>, k: nat)
    requires k <= |chunks|
    ensures Concat(chunks) == Concat(chunks[..k]) + Concat(chunks[k..])
    decreases |chunks|
  {
    if k == 0 {
      assert chunks[..0] == [] && chunks[0..] == chunks;
    } else {
      var tail := chunks[1..];
      ConcatSplit(tail, k - 1);
      assert chunks[..k][1..] == tail[..k - 1] && tail[k - 1..] == chunks[k..];
    }
  }

  lemma ConcatNext(chunks: seq<seq<Byte>>, k: nat)
    requires k < |chunks|
    ensures Concat(chunks[..k + 1]) == Concat(chunks[..k]) + chunks[k]
  {
    hide Concat;
    ConcatSplit(chunks[..k + 1], k);
    assert chunks[..k + 1][..k] == chunks[..k] && chunks[..k + 1][k..] == [chunks[k]];
    ConcatOne(chunks[k]);
  }

  lemma ConcatOne(chunk: seq<Byte>)
    ensures Concat([chunk]) == chunk && Concat([]) == []
  {
    assert [chunk][1..] == [];
  }

  lemma DumpedAppend(dumps: seq<Dump>, d: Dump)
    ensures Dumped(dumps + [d]) == Dumped(dumps) + d.bytes
  {
    assert (dumps + [d])[..|dumps|] == dumps;
  }

  lemma Relabel(dumps: seq<Dump>, seen: seq<Byte>, rest: seq<Byte>)
    requires Labelled(dumps, seen)
    ensures Labelled(dumps, seen + rest)
  {
    forall i | 0 <= i < |dumps|
      ensures LabelOk(dumps[i], seen + rest)
    {
      var d := dumps[i];
      assert LabelOk(d, seen);
      SliceWithin(seen, rest, d.at, d.at + |d.bytes|);
    }
  }

  /** Whether the dumps are the window of the bytes seen. */
  ghost predicate Shown(dumps: seq<Dump>, seen: seq<Byte>, skip: nat, count: nat) {
    Dumped(dumps) == Window(seen, skip, count) && Labelled(dumps, seen)
  }

  lemma ShownNothing(skip: nat, count: nat)
    ensures Shown([], [], skip, count) && Dumped([]) == []
  {
  }

  lemma ShownAppend(dumps: seq<Dump>, seen: seq<Byte>, chunk: seq<Byte>, d: Dump, skip: nat, count: nat)
    requires Shown(dumps, seen, skip, count) && LabelOk(d, seen + chunk)
    requires Window(seen + chunk, skip, count) == Window(seen, skip, count) + d.bytes
    ensures Shown(dumps + [d], seen + chunk, skip, count)
  {
    hide Dumped, Window, LabelOk;
    DumpedAppend(dumps, d);
    Relabel(dumps, seen, chunk);
  }

  lemma ShownAlways(dumps: seq<Dump>, seen: seq<Byte>, rest: seq<Byte>, skip: nat, count: nat)
    requires Shown(dumps, seen, skip, count) && Window(seen + rest, skip, count) == Window(seen, skip, count)
    ensures Shown(dumps, seen + rest, skip, count)
  {
    hide Dumped, Window, LabelOk, Labelled;
    Relabel(dumps, seen, rest);
  }

  // ---- The branches of the loop ----

  /** The chunk lies before the skip point. */
  lemma NoDump(dumps: seq<Dump>, seen: seq<Byte>, chunk: seq<Byte>, skip: nat, count: nat)
    requires Shown(dumps, seen, skip, count) && |seen| + |chunk| <= skip
    ensures Shown(dumps, seen + chunk, skip, count) && |Dumped(dumps)| == 0
  {
    hide Dumped, LabelOk, Labelled;
    assert Window(seen + chunk, skip, count) == Window(seen, skip, count) == [];
    ShownAlways(dumps, seen, chunk, skip, count);
  }

  /** The chunk holds the skip point. */
  lemma FirstDump(dumps: seq<Dump>, seen: seq<Byte>, chunk: seq<Byte>, skip: nat, count: nat)
    requires Shown(dumps, seen, skip, count) && |seen| < skip < |seen| + |chunk|
    ensures |Dumped(dumps)| == 0
    ensures var at := skip - |seen|;
            var n := Min(count, |chunk| - at);
            && |Window(seen + chunk, skip, count)| == n
            && Shown(dumps + [Dump(skip, chunk[at..at + n])], seen + chunk, skip, count)
  {
    hide Dumped, Labelled, Window;
    var at := skip - |seen|;
    var n := Min(count, |chunk| - at);
    WindowBegins(seen, chunk, skip, count);
    SliceBeyond(seen, chunk, at, at + n);
    var d := Dump(skip, chunk[at..at + n]);
    assert LabelOk(d, seen + chunk);
    assert [] + d.bytes == d.bytes;
    ShownAppend(dumps, seen, chunk, d, skip, count);
  }

  /** The chunk lies behind the skip point. */
  lemma NextDump(dumps: seq<Dump>, seen: seq<Byte>, chunk: seq<Byte>, skip: nat, count: nat)
    requires Shown(dumps, seen, skip, count) && skip <= |seen|
    ensures |Dumped(dumps)| <= count
    ensures var n := Min(count - |Dumped(dumps)|, |chunk|);
            && |Window(seen + chunk, skip, count)| == |Dumped(dumps)| + n
            && Shown(dumps + [Dump(|seen|, chunk[..n])], seen + chunk, skip, count)
  {
    hide Dumped, Labelled, Window;
    var n := Min(count - |Dumped(dumps)|, |chunk|);
    WindowGoesOn(seen, chunk, skip, count);
    SliceBeyond(seen, chunk, 0, n);
    var d := Dump(|seen|, chunk[..n]);
    assert LabelOk(d, seen + chunk);
    ShownAppend(dumps, seen, chunk, d, skip, count);
  }

  /** The loop stops with a full window. */
  lemma Full(dumps: seq<Dump>, chunks: seq<seq<Byte>>, k: nat, skip: nat, count: nat)
    requires k <= |chunks| && skip < |Concat(chunks[..k])| && Shown(dumps, Concat(chunks[..k]), skip, count)
    requires |Window(Concat(chunks[..k]), skip, count)| == count
    ensures Shown(dumps, Concat(chunks), skip, count) && skip < |Concat(chunks)|
    ensures |Window(Concat(chunks), skip, count)| == count
  {
    hide Dumped, Labelled, Window, Concat, Shown;
    var seen, rest := Concat(chunks[..k]), Concat(chunks[k..]);
    ConcatSplit(chunks, k);
    WindowFull(seen, rest, skip, count);
    ShownAlways(dumps, seen, rest, skip, count);
  }

  /** The loop of cmd_hexdump over whatever pieces the reads deliver; `fails` says that the
      read after the last piece reports an error instead of the end of the file.  However
      the reads split the file, the dumps are the window, each at the offset it prints, and
      the command fails exactly if it still wanted bytes when the read failed. */
  method Hexdump(chunks: seq<seq<Byte>>, fails: bool, skip: int, limit: int) returns (ok: bool, dumps: seq<Dump>)
    requires forall i | 0 <= i < |chunks| :: chunks[i] != []
    ensures Dumped(dumps) == Window(Concat(chunks), Clamp(skip), Clamp(limit))
    ensures Labelled(dumps, Concat(chunks))
    ensures ok <==>
      !fails || (Clamp(skip) < |Concat(chunks)| && |Window(Concat(chunks), Clamp(skip), Clamp(limit))| == Clamp(limit))
  {
    hide Concat, Dumped, Labelled, Window;
    ghost var first, total := Clamp(skip), Clamp(limit);
    dumps := [];
    ShownNothing(first, total);
    ConcatOne([]);
    var position, count, k := 0, limit, 0;
    ghost var seen: seq<Byte> := [];
    assert chunks[..0] == [];
    while k < |chunks|
      invariant k <= |chunks| && seen == Concat(chunks[..k]) && position == |seen|
      invariant Shown(dumps, seen, first, total)
      invariant count == limit - |Dumped(dumps)|
      invariant first < |seen| ==> count > 0
    {
      var buffer := chunks[k];
      var nbytesread := |buffer|;
      ghost var before := seen;
      ConcatNext(chunks, k);
      seen := seen + buffer;
      k := k + 1;
      if position < skip {
        position := position + nbytesread;
        if position > skip {
          var dumpbytes := position - skip;
          if dumpbytes > count {
            dumpbytes := count;
          }
          var at := nbytesread - (position - skip);
          FirstDump(dumps, before, buffer, first, total);
          dumps := dumps + [Dump(skip, buffer[at..at + Clamp(dumpbytes)])];
          if count > dumpbytes {
            count := count - dumpbytes;
          } else {
            Full(dumps, chunks, k, first, total);
            return true, dumps;
          }
        } else {
          NoDump(dumps, before, buffer, first, total);
        }
        continue;
      }
      if nbytesread > count {
        nbytesread := count;
      }
      NextDump(dumps, before, buffer, first, total);
      dumps := dumps + [Dump(position, buffer[..Clamp(nbytesread)])];
      position := position + nbytesread;
      if count > nbytesread {
        count := count - nbytesread;
      } else {
        Full(dumps, chunks, k, first, total);
        return true, dumps;
      }
    }
    assert chunks[..k] == chunks;
    ok := !fails;
  }
}
