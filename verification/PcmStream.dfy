/** Chunk invariance of subsampling, also across rate changes (pcm_subsample_configure),
    and the closed form at a constant rate. */
module PcmStream {
  import opened Common
  import opened PcmSubsample

  /** `subsample` is 0 in normal play (AUDIO_SUBSAMPLE_NONE). */
  datatype Decoder = Decoder(align: nat, subsample: nat, ph: Phase)

  predicate DecoderOk(d: Decoder) {
    PhaseOk(d.ph, d.align)
  }

  /** What reaches the decoder: a rate request, or the bytes of a buffer. */
  datatype Event = Rate(subsample: nat) | Data(bytes: seq<Byte>)

  function Configure(d: Decoder, rate: nat): Decoder {
    if d.subsample == 0 then
      if rate != 0 then d.(subsample := rate, ph := Phase(0, 0)) else d
    else if rate == 0 then d.(subsample := 0, ph := Phase(0, 0))
    else d.(subsample := rate)
  }

  datatype Played = Played(d: Decoder, out: seq<Byte>)

  function Play(d: Decoder, e: Event): (r: Played)
    ensures DecoderOk(d) ==> DecoderOk(r.d)
  {
    match e
    case Rate(rate) => Played(Configure(d, rate), [])
    case Data(s) =>
      if d.subsample == 0 then Played(d, s)
      else
        var gap := Gap(d.align, d.subsample);
        var ph := After(d.ph, d.align, gap, s);
        assert PhaseOk(d.ph, d.align) ==> PhaseOk(ph, d.align) by {
          if PhaseOk(d.ph, d.align) {
            AfterOk(d.ph, d.align, gap, s);
          }
        }
        Played(d.(ph := ph), Kept(d.ph, d.align, gap, s))
  }

  function PlayAll(d: Decoder, es: seq<Event>): Played
    decreases |es|
  {
    if es == [] then Played(d, [])
    else
      var first := Play(d, es[0]);
      var rest := PlayAll(first.d, es[1..]);
      Played(rest.d, first.out + rest.out)
  }

  lemma {:induction false} PlayTwo(d: Decoder, a: seq<Event>, b: seq<Event>)
    ensures
      var pa := PlayAll(d, a);
      var pb := PlayAll(pa.d, b);
      PlayAll(d, a + b) == Played(pb.d, pa.out + pb.out)
    decreases |a|
  {
    hide Play;
    if a == [] {
      assert a + b == b;
    } else {
      assert (a + b)[1..] == a[1..] + b;
      PlayTwo(Play(d, a[0]).d, a[1..], b);
      assert (a + b)[0] == a[0];
    }
  }

  /** One event for every byte. */
  function Bytes(s: seq<Byte>): seq<Event> {
    if s == [] then [] else [Data([s[0]])] + Bytes(s[1..])
  }

  function Bytewise(es: seq<Event>): seq<Event>
    decreases |es|
  {
    if es == [] then []
    else (if es[0].Data? then Bytes(es[0].bytes) else [es[0]]) + Bytewise(es[1..])
  }

  lemma {:induction false} PlayBytes(d: Decoder, s: seq<Byte>)
    ensures PlayAll(d, Bytes(s)) == Play(d, Data(s))
    decreases s
  {
    if s != [] {
      var one := Play(d, Data([s[0]]));
      PlayBytes(one.d, s[1..]);
      assert Bytes(s)[0] == Data([s[0]]) && Bytes(s)[1..] == Bytes(s[1..]);
      if d.subsample != 0 {
        assert s == [s[0]] + s[1..];
        Cut(d.ph, d.align, Gap(d.align, d.subsample), [s[0]], s[1..]);
      }
    }
  }

  /** Buffer-at-a-time play refines byte-at-a-time play. */
  lemma {:induction false} PlayBytewise(d: Decoder, es: seq<Event>)
    ensures PlayAll(d, es) == PlayAll(d, Bytewise(es))
    decreases |es|
  {
    hide Play, Bytes;
    if es != [] {
      var head := if es[0].Data? then Bytes(es[0].bytes) else [es[0]];
      var first := Play(d, es[0]);
      PlayBytewise(first.d, es[1..]);
      PlayTwo(d, head, Bytewise(es[1..]));
      if es[0].Data? {
        PlayBytes(d, es[0].bytes);
      } else {
        assert [es[0]][1..] == [];
        assert PlayAll(first.d, []) == Played(first.d, []);
        assert first.out + [] == first.out;
      }
    }
  }

  /** Chunk invariance: only the bytes and the places of the rate requests among them
      matter, not where the buffers end. */
  lemma ChunkInvariance(d: Decoder, es: seq<Event>, es': seq<Event>)
    requires Bytewise(es) == Bytewise(es')
    ensures PlayAll(d, es) == PlayAll(d, es')
  {
    PlayBytewise(d, es);
    PlayBytewise(d, es');
  }

  /** The bytes of `s` whose position, counted from `p`, has a remainder below `k`. */
  function Select(s: seq<Byte>, k: nat, period: nat, p: nat): seq<Byte>
    requires 0 < period
    decreases s
  {
    if s == [] then []
    else (if Early(p, k, period) then [s[0]] else []) + Select(s[1..], k, period, p + 1)
  }

  predicate Early(p: nat, k: nat, period: nat)
    requires 0 < period
  {
    p % period < k
  }

  function PhaseAt(align: nat, gap: nat, p: nat): Phase
    requires 0 < align
  {
    var m := p % (align + gap);
    if m < align then Phase(0, m) else Phase(align + gap - m, 0)
  }

  lemma Distribute(x: nat, y: nat, z: nat)
    ensures x * (y + z) == x * y + x * z
  {
  }

  lemma FurtherIsLarger(period: nat, q: nat, q': nat)
    requires q < q'
    ensures period * q + period <= period * q'
  {
    var t := q' - q - 1;
    Distribute(period, q, 1 + t);
    Distribute(period, 1, t);
    assert q' == q + (1 + t);
  }

  lemma DivisionIsUnique(period: nat, q: nat, m: nat, q': nat, m': nat)
    requires m < period && m' < period && period * q + m == period * q' + m'
    ensures m == m'
  {
    if q < q' {
      FurtherIsLarger(period, q, q');
    } else if q' < q {
      FurtherIsLarger(period, q', q);
    }
  }

  lemma RemainderIs(n: nat, period: nat, q: nat, m: nat)
    requires m < period && n == period * q + m
    ensures n % period == m
  {
    DivisionIsUnique(period, q, m, n / period, n % period);
  }

  lemma NextRemainder(p: nat, period: nat)
    requires 0 < period
    ensures (p + 1) % period == if p % period + 1 == period then 0 else p % period + 1
  {
    var q, m := p / period, p % period;
    if m + 1 == period {
      assert period * (q + 1) == period * q + period;
      RemainderIs(p + 1, period, q + 1, 0);
    } else {
      RemainderIs(p + 1, period, q, m + 1);
    }
  }

  lemma TickAt(align: nat, gap: nat, p: nat)
    requires 0 < align
    ensures Tick(PhaseAt(align, gap, p), align, gap) == PhaseAt(align, gap, p + 1)
  {
    NextRemainder(p, align + gap);
  }

  lemma {:induction false} KeptSelects(align: nat, gap: nat, s: seq<Byte>, p: nat)
    requires 0 < align
    ensures Kept(PhaseAt(align, gap, p), align, gap, s) == Select(s, align, align + gap, p)
    decreases s
  {
    hide PhaseAt, Early;
    if s != [] {
      TickAt(align, gap, p);
      SkipAt(align, gap, p);
      KeptSelects(align, gap, s[1..], p + 1);
    }
  }

  lemma SkipAt(align: nat, gap: nat, p: nat)
    requires 0 < align
    ensures PhaseAt(align, gap, p).skip == 0 <==> Early(p, align, align + gap)
  {
  }

  function AsData(chunks: seq<seq<Byte>>): seq<Event> {
    seq(|chunks|, i requires 0 <= i < |chunks| => Data(chunks[i]))
  }

  lemma {:induction false} BytesConcat(a: seq<Byte>, b: seq<Byte>)
    ensures Bytes(a + b) == Bytes(a) + Bytes(b)
    decreases a
  {
    if a == [] {
      assert a + b == b;
    } else {
      assert (a + b)[1..] == a[1..] + b;
      BytesConcat(a[1..], b);
    }
  }

  lemma {:induction false} BytewiseConcat(chunks: seq<seq<Byte>>)
    ensures Bytewise(AsData(chunks)) == Bytes(Concat(chunks))
    decreases |chunks|
  {
    if chunks != [] {
      assert AsData(chunks)[1..] == AsData(chunks[1..]);
      BytewiseConcat(chunks[1..]);
      BytesConcat(chunks[0], Concat(chunks[1..]));
    }
  }

  /** The stream in any chunks plays as the whole stream does. */
  lemma PlayChunks(d: Decoder, chunks: seq<seq<Byte>>)
    ensures PlayAll(d, AsData(chunks)) == Play(d, Data(Concat(chunks)))
  {
    PlayBytewise(d, AsData(chunks));
    BytewiseConcat(chunks);
    PlayBytes(d, Concat(chunks));
  }

  lemma GapFits(align: nat, rate: nat)
    requires 1 <= rate
    ensures align + Gap(align, rate) <= align * rate
    ensures align + Gap(align, rate) == align * rate <==> align * (rate - 1) < 256
  {
    assert align * rate == align + align * (rate - 1);
  }

  /** At a constant rate from a fresh start, however the stream is cut, exactly the bytes
      at positions p with p mod (align * rate) < align are kept. */
  lemma ConstantRate(align: nat, rate: nat, chunks: seq<seq<Byte>>)
    requires 0 < align && 1 <= rate && align * (rate - 1) < 256
    ensures 0 < align * rate
    ensures PlayAll(Decoder(align, rate, Phase(0, 0)), AsData(chunks)).out
         == Select(Concat(chunks), align, align * rate, 0)
  {
    var d := Decoder(align, rate, Phase(0, 0));
    PlayChunks(d, chunks);
    GapFits(align, rate);
    KeptSelects(align, Gap(align, rate), Concat(chunks), 0);
  }

  // ---- Rate requests ----

  /** A request for normal play takes effect at once, whatever the decoder was doing. */
  lemma NormalPlay(d: Decoder, chunks: seq<seq<Byte>>)
    ensures PlayAll(d, [Rate(0)] + AsData(chunks)).out == Concat(chunks)
  {
    AfterRequest(d, 0, chunks);
  }

  /** A request for fast forward in normal play: from here on exactly every rate-th sample is
      passed down, counted from the first byte behind the request. */
  lemma FastForward(d: Decoder, rate: nat, chunks: seq<seq<Byte>>)
    requires d.subsample == 0 && 0 < d.align && 1 <= rate && d.align * (rate - 1) < 256
    ensures 0 < d.align * rate
    ensures PlayAll(d, [Rate(rate)] + AsData(chunks)).out == Select(Concat(chunks), d.align, d.align * rate, 0)
  {
    AfterRequest(d, rate, chunks);
    GapFits(d.align, rate);
    KeptSelects(d.align, Gap(d.align, rate), Concat(chunks), 0);
  }

  /** A new rate during fast forward: the gap or sample at hand is finished first, and the
      gaps behind it have the new length. */
  lemma ChangeOfRate(d: Decoder, rate: nat, chunks: seq<seq<Byte>>)
    requires d.subsample != 0 && 1 <= rate
    ensures PlayAll(d, [Rate(rate)] + AsData(chunks)).out == Kept(d.ph, d.align, Gap(d.align, rate), Concat(chunks))
  {
    AfterRequest(d, rate, chunks);
  }

  /** In normal play no gap and no partial sample are pending. */
  predicate ClearInNormal(d: Decoder) {
    d.subsample == 0 ==> d.ph == Phase(0, 0)
  }

  /** So it is after every run of buffers and requests, if it was so before. */
  lemma {:induction false} StaysClear(d: Decoder, es: seq<Event>)
    requires ClearInNormal(d)
    ensures ClearInNormal(PlayAll(d, es).d)
    decreases |es|
  {
    if es != [] {
      assert ClearInNormal(Play(d, es[0]).d) by { hide Kept, After; }
      StaysClear(Play(d, es[0]).d, es[1..]);
    }
  }

  lemma AfterRequest(d: Decoder, rate: nat, chunks: seq<seq<Byte>>)
    ensures PlayAll(d, [Rate(rate)] + AsData(chunks)).out == Play(Configure(d, rate), Data(Concat(chunks))).out
  {
    hide Play, Configure;
    var es := [Rate(rate)] + AsData(chunks);
    assert es[0] == Rate(rate) && es[1..] == AsData(chunks);
    assert Play(d, es[0]) == Played(Configure(d, rate), []) by { RateIs(d, rate); }
    PlayChunks(Configure(d, rate), chunks);
  }

  lemma RateIs(d: Decoder, rate: nat)
    ensures Play(d, Rate(rate)) == Played(Configure(d, rate), [])
  {
  }

  /** What is skipped and kept right behind a change of rate: the rest of the gap at hand goes,
      then whole samples are kept as from a fresh start. */
  lemma GapFinished(skip: nat, align: nat, gap: nat, s: seq<Byte>)
    requires 0 < align
    ensures Kept(Phase(skip, 0), align, gap, s) ==
            if |s| <= skip then [] else Select(s[skip..], align, align + gap, 0)
  {
    hide Kept, Select;
    if |s| <= skip {
      SkipRun(skip, align, gap, s);
    } else {
      assert s == s[..skip] + s[skip..];
      Cut(Phase(skip, 0), align, gap, s[..skip], s[skip..]);
      SkipRun(skip, align, gap, s[..skip]);
      KeptSelects(align, gap, s[skip..], 0);
    }
  }

  lemma {:induction false} SelectLength(s: seq<Byte>, k: nat, period: nat, p: nat)
    requires 0 < k <= period && p + |s| <= period
    ensures |Select(s, k, period, p)| == if k <= p then 0 else if k <= p + |s| then k - p else |s|
    decreases s
  {
    if s != [] {
      assert p % period == p;
      SelectLength(s[1..], k, period, p + 1);
    }
  }

  lemma {:induction false} SelectSplit(a: seq<Byte>, b: seq<Byte>, k: nat, period: nat, p: nat)
    requires 0 < period
    ensures Select(a + b, k, period, p) == Select(a, k, period, p) + Select(b, k, period, p + |a|)
    decreases a
  {
    hide Early;
    if a == [] {
      assert a + b == b;
    } else {
      assert (a + b)[1..] == a[1..] + b;
      SelectSplit(a[1..], b, k, period, p + 1);
    }
  }

  /** The 8-bit skip counter makes the closed form exact: it holds for every stream if and
      only if the gap fits in the counter. */
  lemma ClosedFormIff(align: nat, rate: nat)
    requires 0 < align && 1 <= rate
    ensures 0 < align * rate
    ensures (forall s :: Kept(Phase(0, 0), align, Gap(align, rate), s) == Select(s, align, align * rate, 0))
       <==> align * (rate - 1) < 256
  {
    GapFits(align, rate);
    var gap := Gap(align, rate);
    if align * (rate - 1) < 256 {
      forall s
        ensures Kept(Phase(0, 0), align, gap, s) == Select(s, align, align * rate, 0)
      {
        KeptSelects(align, gap, s, 0);
      }
    } else {
      var s := ClosedFormBreaks(align, rate);
    }
  }

  /** A gap beyond the counter is cut short: one more byte is kept than every rate-th sample. */
  lemma ClosedFormBreaks(align: nat, rate: nat) returns (s: seq<Byte>)
    requires 0 < align && 1 <= rate && 0 < align * rate && 256 <= align * (rate - 1)
    ensures Kept(Phase(0, 0), align, Gap(align, rate), s) != Select(s, align, align * rate, 0)
  {
    hide Kept, Select;
    GapFits(align, rate);
    var gap := Gap(align, rate);
    var a, b: seq<Byte> := seq(align + gap, _ => 0), [0];
    s := a + b;
    KeptSelects(align, gap, s, 0);
    SelectSplit(a, b, align, align + gap, 0);
    SelectLength(a, align, align + gap, 0);
    SelectFirst(align, align + gap);
    SelectLength(s, align, align * rate, 0);
    assert |Kept(Phase(0, 0), align, gap, s)| != |Select(s, align, align * rate, 0)|;
  }

  lemma SelectFirst(align: nat, period: nat)
    requires 0 < align <= period
    ensures |Select([0], align, period, period)| == 1
  {
    assert period % period == 0;
  }

  /** Stopping does not clear the phase.  A later stream is decoded as from a fresh start
      if and only if no skip and no partial sample are left over. */
  lemma FreshStartIff(ph: Phase, align: nat, gap: nat)
    requires PhaseOk(ph, align) && 0 < gap
    ensures (forall s :: Kept(ph, align, gap, s) == Kept(Phase(0, 0), align, gap, s)) <==> ph == Phase(0, 0)
  {
    if ph != Phase(0, 0) {
      var s: seq<Byte> := seq(align, _ => 0);
      KeepRun(0, align, gap, s);
      if ph.skip > 0 {
        assert |Kept(ph, align, gap, s)| < |s|;
      } else {
        var a, b := s[..align - ph.npartial], s[align - ph.npartial..];
        assert s == a + b;
        Cut(ph, align, gap, a, b);
        KeepRun(ph.npartial, align, gap, a);
        assert |Kept(Phase(gap, 0), align, gap, b)| < |b|;
      }
    }
  }
}
