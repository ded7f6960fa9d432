/** Fast-forward subsampling of the PCM decoder (nuttx/audio/pcm_decode.c).

    `Kept` and `After` describe a byte-at-a-time automaton: it keeps one sample of
    `align` bytes and then skips `gap` bytes.  The in-place, buffer-at-a-time method of
    the decoder is proved against it. */
module PcmSubsample {
  import opened Common

  /** How many bytes are still to be skipped, and how much of a sample has been kept. */
  datatype Phase = Phase(skip: nat, npartial: nat)

  predicate PhaseOk(ph: Phase, align: nat) {
    ph.npartial < align && (ph.npartial > 0 ==> ph.skip == 0)
  }

  /** The skip counter is an 8-bit field, so the gap is stored modulo 256. */
  function Gap(align: nat, subsample: nat): nat
    requires 1 <= subsample
  {
    align * (subsample - 1) % 256
  }

  function Tick(ph: Phase, align: nat, gap: nat): Phase {
    if ph.skip > 0 then ph.(skip := ph.skip - 1)
    else if ph.npartial + 1 == align then Phase(gap, 0)
    else ph.(npartial := ph.npartial + 1)
  }

  function Kept(ph: Phase, align: nat, gap: nat, s: seq<Byte>): (r: seq<Byte>)
    ensures |r| <= |s|
    decreases s
  {
    if s == [] then []
    else (if ph.skip == 0 then [s[0]] else []) + Kept(Tick(ph, align, gap), align, gap, s[1..])
  }

  function After(ph: Phase, align: nat, gap: nat, s: seq<Byte>): Phase
    decreases s
  {
    if s == [] then ph else After(Tick(ph, align, gap), align, gap, s[1..])
  }

  lemma {:induction false} AfterOk(ph: Phase, align: nat, gap: nat, s: seq<Byte>)
    requires PhaseOk(ph, align)
    ensures PhaseOk(After(ph, align, gap, s), align)
    decreases s
  {
    if s != [] {
      AfterOk(Tick(ph, align, gap), align, gap, s[1..]);
    }
  }

  /** The automaton does not see where the stream is cut. */
  lemma {:induction false} Cut(ph: Phase, align: nat, gap: nat, a: seq<Byte>, b: seq<Byte>)
    ensures Kept(ph, align, gap, a + b)
         == Kept(ph, align, gap, a) + Kept(After(ph, align, gap, a), align, gap, b)
    ensures After(ph, align, gap, a + b) == After(After(ph, align, gap, a), align, gap, b)
    decreases a
  {
    if a == [] {
      assert a + b == b;
    } else {
      assert (a + b)[1..] == a[1..] + b;
      Cut(Tick(ph, align, gap), align, gap, a[1..], b);
    }
  }

  lemma {:induction false} SkipRun(k: nat, align: nat, gap: nat, s: seq<Byte>)
    requires |s| <= k
    ensures Kept(Phase(k, 0), align, gap, s) == []
    ensures After(Phase(k, 0), align, gap, s) == Phase(k - |s|, 0)
    decreases s
  {
    if s != [] {
      SkipRun(k - 1, align, gap, s[1..]);
    }
  }

  lemma {:induction false} KeepRun(np: nat, align: nat, gap: nat, s: seq<Byte>)
    requires np + |s| <= align && np < align
    ensures Kept(Phase(0, np), align, gap, s) == s
    ensures After(Phase(0, np), align, gap, s)
         == if np + |s| == align then Phase(gap, 0) else Phase(0, np + |s|)
    decreases s
  {
    if |s| > 1 {
      KeepRun(np + 1, align, gap, s[1..]);
    } else if |s| == 1 {
      assert s[1..] == [];
      assert Kept(Tick(Phase(0, np), align, gap), align, gap, s[1..]) == [];
    }
  }

  /** An audio pipeline buffer; `samp` holds nmaxbytes bytes. */
  class ApBuffer {
    const samp: array<Byte>
    var nbytes: nat
    var curbyte: nat
    var final: bool

    constructor (samp: array<Byte>, curbyte: nat, nbytes: nat, final: bool)
      requires curbyte <= nbytes <= samp.Length
      ensures this.samp == samp && this.curbyte == curbyte && this.nbytes == nbytes && this.final == final
    {
      this.samp, this.curbyte, this.nbytes, this.final := samp, curbyte, nbytes, final;
    }

    ghost predicate Valid()
      reads this
    {
      curbyte <= nbytes <= samp.Length
    }

    /** The bytes that are to be played. */
    ghost function Region(): seq<Byte>
      reads this, samp
      requires Valid()
    {
      samp[curbyte..nbytes]
    }
  }

  /** Copies towards the front, byte by byte. */
  method CopyDown(a: array<Byte>, dest: nat, src: nat, n: nat)
    requires dest <= src && src + n <= a.Length
    modifies a
    ensures a[..dest] == old(a[..dest])
    ensures a[dest..dest + n] == old(a[src..src + n])
    ensures a[src + n..] == old(a[src + n..])
  {
    ghost var was := a[..];
    for i := 0 to n
      invariant a[..dest] == was[..dest]
      invariant a[dest..dest + i] == was[src..src + i]
      invariant forall j | src + i <= j < a.Length :: a[j] == was[j]
    {
      a[dest + i] := a[src + i];
    }
    assert a[src + n..] == was[src + n..];
  }

  lemma Join(ph: Phase, align: nat, gap: nat, was: seq<Byte>, start: nat, src: nat, n: nat)
    requires start <= src && src + n <= |was|
    ensures
      var mid := After(ph, align, gap, was[start..src]);
      && Kept(ph, align, gap, was[start..src + n])
         == Kept(ph, align, gap, was[start..src]) + Kept(mid, align, gap, was[src..src + n])
      && After(ph, align, gap, was[start..src + n]) == After(mid, align, gap, was[src..src + n])
  {
    assert was[start..src + n] == was[start..src] + was[src..src + n];
    Cut(ph, align, gap, was[start..src], was[src..src + n]);
  }

  lemma NothingYet(ph: Phase, align: nat, gap: nat)
    ensures Kept(ph, align, gap, []) == [] && After(ph, align, gap, []) == ph
  {
  }

  /** One pass of the copying loop: skip, or keep the rest of a sample. */
  method OnePass(a: array<Byte>, ghost was: seq<Byte>, dest: nat, from: nat, left: nat, align: nat, gap: nat, skip: nat)
    returns (n: nat, dest': nat, skip': nat, npartial: nat)
    requires dest <= from && from + left <= a.Length == |was| && Copes(left, skip, align) && 0 < left
    requires forall j | from <= j < a.Length :: a[j] == was[j]
    modifies a
    ensures 0 < n <= left && dest <= dest' <= from + n && (n < left ==> npartial == 0)
    ensures (left - n, skip') == Turn(left, skip, align, gap)
    ensures a[..dest'] == old(a[..dest]) + Kept(Phase(skip, 0), align, gap, was[from..from + n])
    ensures Phase(skip', npartial) == After(Phase(skip, 0), align, gap, was[from..from + n])
    ensures forall j | from + n <= j < a.Length :: a[j] == was[j]
  {
    hide Kept, After, Tick;
    dest', skip', npartial := dest, skip, 0;
    if skip > 0 {
      n := if skip < left then skip else left;
      SkipRun(skip, align, gap, was[from..from + n]);
      skip' := skip - n;
    } else {
      if left < align {
        n := left;
        npartial := left;
      } else {
        n := align;
        skip' := gap;
      }
      KeepRun(0, align, gap, was[from..from + n]);
      CopyStep(a, was, dest, from, n);
      dest' := dest + n;
    }
  }

  /** The bytes left and the skip counter after one turn of the copying loop. */
  function Turn(left: nat, skip: nat, align: nat, gap: nat): (nat, nat) {
    if skip > 0 then (if skip < left then (left - skip, 0) else (0, skip - left))
    else if left < align then (0, 0)
    else (left - align, gap)
  }

  /** The same after `n` turns, or fewer if nothing is left. */
  function Turns(left: nat, skip: nat, align: nat, gap: nat, n: nat): (nat, nat)
    decreases n
  {
    if n == 0 || left == 0 then (left, skip)
    else
      var (left', skip') := Turn(left, skip, align, gap);
      Turns(left', skip', align, gap, n - 1)
  }

  /** The copying loop ends if and only if a sample has a size, or the buffer holds nothing
      but bytes to be skipped. */
  lemma LoopEndsIff(left: nat, skip: nat, align: nat, subsample: nat)
    requires 1 <= subsample
    ensures (exists n: nat :: Turns(left, skip, align, Gap(align, subsample), n).0 == 0) <==> Copes(left, skip, align)
  {
    var gap := Gap(align, subsample);
    if Copes(left, skip, align) {
      EndsSoon(left, skip, align, gap);
    } else {
      forall n: nat
        ensures Turns(left, skip, align, gap, n).0 != 0
      {
        NeverEnds(left, skip, n);
      }
    }
  }

  predicate Copes(left: nat, skip: nat, align: nat) {
    0 < align || left <= skip
  }

  lemma {:induction false} EndsSoon(left: nat, skip: nat, align: nat, gap: nat)
    requires Copes(left, skip, align)
    ensures Turns(left, skip, align, gap, left).0 == 0
    decreases left
  {
    if left > 0 {
      var (left', skip') := Turn(left, skip, align, gap);
      EndsSoon(left', skip', align, gap);
      TurnsStay(left', skip', align, gap, left', left - 1);
    }
  }

  lemma {:induction false} TurnsStay(left: nat, skip: nat, align: nat, gap: nat, m: nat, n: nat)
    requires m <= n && Turns(left, skip, align, gap, m).0 == 0
    ensures Turns(left, skip, align, gap, n).0 == 0
    decreases m
  {
    if left > 0 {
      var (left', skip') := Turn(left, skip, align, gap);
      TurnsStay(left', skip', align, gap, m - 1, n - 1);
    }
  }

  lemma {:induction false} NeverEnds(left: nat, skip: nat, n: nat)
    requires skip < left
    ensures Turns(left, skip, 0, 0, n).0 == left - (if n == 0 then 0 else skip)
    decreases n
  {
    if n > 0 {
      var (left', skip') := Turn(left, skip, 0, 0);
      NeverEnds(left', skip', n - 1);
    }
  }

  lemma Regroup(front: seq<Byte>, kept: seq<Byte>, chunk: seq<Byte>)
    ensures (front + kept) + chunk == front + (kept + chunk)
  {
  }

  /** The copying loop of pcm_subsample: reads a[src..end] and writes from `dest` on.  No
      byte is overwritten before it is read. */
  method Shrink(a: array<Byte>, dest: nat, src: nat, end: nat, align: nat, gap: nat, skip: nat)
    returns (dest': nat, skip': nat, npartial: nat)
    requires dest <= src <= end <= a.Length && Copes(end - src, skip, align)
    modifies a
    ensures dest <= dest' <= end
    ensures a[..dest'] == old(a[..dest]) + Kept(Phase(skip, 0), align, gap, old(a[src..end]))
    ensures Phase(skip', npartial) == After(Phase(skip, 0), align, gap, old(a[src..end]))
  {
    hide Kept, After, Tick;
    ghost var was, front := a[..], a[..dest];
    ghost var ph := Phase(skip, 0);
    NothingYet(ph, align, gap);
    var from: nat, left: nat := src, end - src;
    dest', skip', npartial := dest, skip, 0;
    assert was[src..from] == [];
    ghost var kept: seq<Byte> := [];
    while left > 0
      invariant src <= from && from + left == end && dest <= dest' <= from
      invariant forall j | from <= j < a.Length :: a[j] == was[j]
      invariant a[..dest'] == front + kept && kept == Kept(ph, align, gap, was[src..from])
      invariant Phase(skip', npartial) == After(ph, align, gap, was[src..from])
      invariant (left > 0 ==> npartial == 0) && Copes(left, skip', align)
    {
      ghost var mid := Phase(skip', 0);
      var n;
      n, dest', skip', npartial := OnePass(a, was, dest', from, left, align, gap, skip');
      Join(ph, align, gap, was, src, from, n);
      ghost var chunk := Kept(mid, align, gap, was[from..from + n]);
      Regroup(front, kept, chunk);
      kept := kept + chunk;
      from, left := from + n, left - n;
    }
  }

  method CopyStep(a: array<Byte>, ghost was: seq<Byte>, dest: nat, src: nat, n: nat)
    requires dest <= src && src + n <= a.Length == |was|
    requires forall j | src <= j < a.Length :: a[j] == was[j]
    modifies a
    ensures a[..dest + n] == old(a[..dest]) + was[src..src + n]
    ensures forall j | src + n <= j < a.Length :: a[j] == was[j]
  {
    CopyDown(a, dest, src, n);
    assert a[..dest + n] == a[..dest] + a[dest..dest + n];
    assert forall j | src + n <= j < a.Length :: a[src + n..][j - (src + n)] == a[j];
    assert old(a[src + n..]) == was[src + n..];
  }

  /** Completes a sample that was begun in the previous buffer. */
  method FinishSample(apb: ApBuffer, align: nat, npartial: nat, gap: nat) returns (src: nat, dest: nat)
    requires apb.Valid() && 0 < npartial < align && align - npartial <= apb.nbytes - apb.curbyte
    modifies apb.samp
    ensures src == apb.curbyte + dest && dest == align - npartial
    ensures apb.samp[..dest] == Kept(Phase(0, npartial), align, gap, old(apb.Region())[..dest])
    ensures After(Phase(0, npartial), align, gap, old(apb.Region())[..dest]) == Phase(gap, 0)
    ensures apb.samp[src..apb.nbytes] == old(apb.Region())[dest..]
  {
    hide Kept, After, Tick;
    ghost var region, was := apb.Region(), apb.samp[..];
    dest := align - npartial;
    src := apb.curbyte + dest;
    KeepRun(npartial, align, gap, region[..dest]);
    RegionParts(was, apb.curbyte, apb.nbytes, dest);
    if apb.curbyte > 0 {
      CopyDown(apb.samp, 0, apb.curbyte, dest);
      assert apb.samp[0..0 + dest] == apb.samp[..dest];
      SameEnd(apb.samp[..], was, src, apb.nbytes);
    }
  }

  lemma RegionParts(s: seq<Byte>, lo: nat, hi: nat, n: nat)
    requires lo + n <= hi <= |s|
    ensures s[lo..hi][..n] == s[lo..lo + n] && s[lo..hi][n..] == s[lo + n..hi]
    ensures lo == 0 ==> s[..n] == s[lo..lo + n]
  {
  }

  lemma SameEnd(s: seq<Byte>, t: seq<Byte>, from: nat, hi: nat)
    requires |s| == |t| && from <= hi <= |s| && s[from..] == t[from..]
    ensures s[from..hi] == t[from..hi]
  {
    assert s[from..][..hi - from] == s[from..hi] && t[from..][..hi - from] == t[from..hi];
  }

  /** The states from which pcm_subsample returns: a partial sample, if any, is shorter than a
      sample, and the copying loop ends. */
  predicate Returns(ph: Phase, align: nat, left: nat) {
    PhaseOk(ph, align) || (ph.npartial == 0 && left <= ph.skip)
  }

  lemma GapIs(align: nat, subsample: nat)
    requires 1 <= subsample
    ensures Gap(align, subsample) == align * (subsample - 1) % 256
  {
  }

  /** pcm_subsample: subsampling is done in the buffer itself.  The bytes left in the
      buffer are those that the automaton keeps, and its phase is carried over. */
  method Subsample(apb: ApBuffer, align: nat, subsample: nat, ph: Phase) returns (ph': Phase)
    requires apb.Valid() && (subsample != 0 ==> Returns(ph, align, apb.nbytes - apb.curbyte))
    modifies apb, apb.samp
    ensures apb.Valid() && apb.final == old(apb.final)
    ensures subsample == 0 ==> ph' == ph && apb.Region() == old(apb.Region())
    ensures subsample != 0 ==>
              && apb.Region() == Kept(ph, align, Gap(align, subsample), old(apb.Region()))
              && ph' == After(ph, align, Gap(align, subsample), old(apb.Region()))
  {
    hide Kept, After, Tick, Gap;
    if subsample == 0 {
      return ph;
    }
    ghost var region := apb.Region();
    var src: nat, dest: nat, skip := apb.curbyte, 0, ph.skip;
    var skipsize := align * (subsample - 1);
    var gap: nat := skipsize % 256;
    GapIs(align, subsample);
    NothingYet(ph, align, gap);
    assert region[..0] == [] && region[0..] == region;
    if ph.npartial > 0 {
      if ph.npartial + (apb.nbytes - apb.curbyte) < align {
        KeepRun(ph.npartial, align, gap, region);
        return Phase(skip, ph.npartial + (apb.nbytes - apb.curbyte));
      }
      src, dest := FinishSample(apb, align, ph.npartial, gap);
      skip := gap;
    }
    assert region == region[..dest] + region[dest..];
    Cut(ph, align, gap, region[..dest], region[dest..]);
    var npartial;
    dest, skip, npartial := Shrink(apb.samp, dest, src, apb.nbytes, align, gap, skip);
    apb.curbyte := 0;
    apb.nbytes := dest;
    return Phase(skip, npartial);
  }
}
