/** The decoder in front of a lower driver: header first, then subsampled data
    (pcm_enqueuebuffer and pcm_subsample_configure in nuttx/audio/pcm_decode.c). */
module PcmDecoder {
  import opened Common
  import opened PcmSubsample
  import opened PcmStream
  import opened PcmWav

  /** The decoder as a value. */
  datatype Pcm = Pcm(streaming: bool, dec: Decoder)

  /** A buffer on its way to the lower driver, or a rate request. */
  datatype Input = Buffer(bytes: seq<Byte>, final: bool) | Request(subsample: nat)

  datatype Passed = Passed(pcm: Pcm, out: seq<Byte>)

  /** A first buffer the source can cope with: the walk over its chunks ends inside it, and a
      sample left over from before is shorter than the samples of the new stream, which is not
      so if its header says that samples have no bytes. */
  predicate HeaderOk(bytes: seq<Byte>, ph: Phase) {
    && (HEADER_SIZE <= |bytes| ==> FindData(bytes).Some? && FindData(bytes) != Some(Outside))
    && (Stored(bytes) ==> PhaseOk(ph, FormatOf(bytes).align))
  }

  /** What the decoder does with an input that it and the lower driver accept. */
  function Accept(p: Pcm, e: Input): Passed {
    match e
    case Request(rate) => Passed(p.(dec := Configure(p.dec, rate)), [])
    case Buffer(bytes, final) =>
      if p.streaming then
        var r := Play(p.dec, Data(bytes));
        Passed(Pcm(!final, r.d), r.out)
      else if HeaderSize(bytes) == 0 then Passed(p, [])
      else
        var r := Play(p.dec.(align := FormatOf(bytes).align), Data(bytes[HeaderSize(bytes)..]));
        Passed(Pcm(!final, r.d), r.out)
  }

  /** The header is valid, so its format is stored in the decoder. */
  predicate Stored(bytes: seq<Byte>) {
    HEADER_SIZE <= |bytes| && FoundData(bytes) && ValidWav(bytes)
  }

  /** The decoder after a buffer, whatever the lower driver answered.  Even a buffer that
      is refused moves the phase on and can end the stream. */
  function AfterBuffer(p: Pcm, bytes: seq<Byte>, final: bool, configured: bool, accepted: bool): Pcm {
    if p.streaming then Pcm(!final, Play(p.dec, Data(bytes)).d)
    else
      var dec := if Stored(bytes) then p.dec.(align := FormatOf(bytes).align) else p.dec;
      if HeaderSize(bytes) == 0 || !configured then Pcm(false, dec)
      else Pcm(accepted && !final, Play(dec, Data(bytes[HeaderSize(bytes)..])).d)
  }

  class PcmDecoder {
    var streaming: bool
    var align: nat
    var subsample: nat
    var skip: nat
    var npartial: nat
    /** All bytes that the lower driver has accepted so far. */
    var sent: seq<Byte>

    ghost function Abs(): Pcm
      reads this
    {
      Pcm(streaming, Decoder(align, subsample, Phase(skip, npartial)))
    }

    ghost predicate Valid()
      reads this
    {
      DecoderOk(Abs().dec)
    }

    /** pcm_subsample_configure */
    method Configure(rate: nat)
      requires Valid()
      modifies this
      ensures Valid() && Abs() == old(Accept(Abs(), Request(rate))).pcm && sent == old(sent)
    {
      if subsample == 0 {
        if rate != 0 {
          npartial := 0;
          skip := 0;
          subsample := rate;
        }
      } else if rate == 0 {
        npartial := 0;
        skip := 0;
        subsample := 0;
      } else if subsample != rate {
        subsample := rate;
      }
    }

    /** Subsamples the buffer and hands it to the lower driver. */
    method PassDown(apb: ApBuffer, accepted: bool)
      requires Valid() && apb.Valid()
      modifies this`skip, this`npartial, this`sent, apb, apb.samp
      ensures Valid() && apb.final == old(apb.final)
      ensures Abs().dec == Play(old(Abs().dec), Data(old(apb.Region()))).d
      ensures sent == old(sent) + if accepted then Play(old(Abs().dec), Data(old(apb.Region()))).out else []
    {
      hide Kept, After;
      ghost var before, region := Abs(), apb.Region();
      var ph := Subsample(apb, align, subsample, Phase(skip, npartial));
      skip, npartial := ph.skip, ph.npartial;
      assert Abs().dec == Play(before.dec, Data(region)).d;
      if accepted {
        sent := sent + apb.samp[apb.curbyte..apb.nbytes];
      }
    }

    /** pcm_enqueuebuffer.  `configured` and `accepted` are the answers of the lower
        driver, should it be asked to configure itself and to take the buffer. */
    method Enqueue(apb: ApBuffer, configured: bool, accepted: bool) returns (ok: bool)
      requires Valid() && apb.Valid()
      requires !streaming ==> HeaderOk(apb.Region(), Phase(skip, npartial))
      modifies this, apb, apb.samp
      ensures Valid()
      ensures ok <==> accepted && (old(streaming) || (0 < HeaderSize(old(apb.Region())) && configured))
      ensures Abs() == AfterBuffer(old(Abs()), old(apb.Region()), old(apb.final), configured, accepted)
      ensures ok ==>
                var r := Accept(old(Abs()), Buffer(old(apb.Region()), old(apb.final)));
                Abs() == r.pcm && sent == old(sent) + r.out
      ensures !ok ==> sent == old(sent)
    {
      hide Kept, After, Play, FindData, ValidWav, Supported, HeaderSize;
      ghost var region := apb.Region();
      if streaming {
        if apb.final {
          streaming := false;
        }
        PassDown(apb, accepted);
        return accepted;
      }
      var size, stored, f := ParseWav(apb.samp[apb.curbyte..apb.nbytes]);
      if stored {
        align := f.align;
      }
      if size == 0 || !configured {
        return false;
      }
      StoredFirst(region);
      apb.curbyte := apb.curbyte + size;
      assert apb.Region() == region[size..];
      PassDown(apb, accepted);
      if accepted {
        streaming := !apb.final;
      }
      return accepted;
    }
  }

  lemma StoredFirst(bytes: seq<Byte>)
    requires 0 < HeaderSize(bytes)
    ensures HEADER_SIZE <= |bytes| && Stored(bytes)
  {
  }

  /** The walk over the chunks of an accepted header has ended inside the buffer. */
  lemma AcceptedEnds(bytes: seq<Byte>)
    requires 0 < HeaderSize(bytes)
    ensures HEADER_SIZE <= |bytes| && FindData(bytes).Some? && FindData(bytes) != Some(Outside)
  {
  }

  /** A run of inputs that are all accepted. */
  function AcceptAll(p: Pcm, es: seq<Input>): Passed
    decreases |es|
  {
    if es == [] then Passed(p, [])
    else
      var first := Accept(p, es[0]);
      var rest := AcceptAll(first.pcm, es[1..]);
      Passed(rest.pcm, first.out + rest.out)
  }

  function AsEvent(e: Input): Event {
    match e
    case Buffer(bytes, _) => Data(bytes)
    case Request(rate) => Rate(rate)
  }

  function AsEvents(es: seq<Input>): seq<Event> {
    seq(|es|, i requires 0 <= i < |es| => AsEvent(es[i]))
  }

  /** Only the last input may be a final buffer. */
  predicate FinalLast(es: seq<Input>) {
    forall i | 0 <= i < |es| - 1 :: es[i].Buffer? ==> !es[i].final
  }

  lemma {:induction false} StreamOn(p: Pcm, es: seq<Input>)
    requires p.streaming && FinalLast(es)
    ensures AcceptAll(p, es).out == PlayAll(p.dec, AsEvents(es)).out
    decreases |es|
  {
    hide Play, Configure;
    if es != [] {
      var first := Accept(p, es[0]);
      assert AsEvents(es)[1..] == AsEvents(es[1..]);
      AcceptStep(p, es[0]);
      if |es| == 1 {
        assert es[1..] == [];
        assert AcceptAll(first.pcm, es[1..]).out == [] == PlayAll(first.pcm.dec, AsEvents(es[1..])).out;
      } else {
        StreamOn(first.pcm, es[1..]);
      }
    }
  }

  lemma AcceptStep(p: Pcm, e: Input)
    requires p.streaming
    ensures Accept(p, e).pcm.dec == Play(p.dec, AsEvent(e)).d && Accept(p, e).out == Play(p.dec, AsEvent(e)).out
    ensures (e.Buffer? ==> !e.final) ==> Accept(p, e).pcm.streaming
  {
  }

  /** A stream ends with its final buffer and with nothing else. */
  lemma {:induction false} FinalEnds(p: Pcm, es: seq<Input>)
    requires p.streaming && FinalLast(es)
    ensures AcceptAll(p, es).pcm.streaming <==> es == [] || es[|es| - 1].Request? || !es[|es| - 1].final
    decreases |es|
  {
    hide Play, Configure;
    if es != [] {
      var first := Accept(p, es[0]);
      AcceptStep(p, es[0]);
      if |es| == 1 {
        assert AcceptAll(first.pcm, es[1..]).pcm == first.pcm;
      } else {
        FinalEnds(first.pcm, es[1..]);
      }
    }
  }

  // ---- Refusals ----

  /** An input with the answers of the lower driver. */
  datatype Fed = Fed(input: Input, configured: bool, accepted: bool)

  predicate Ok(p: Pcm, e: Fed) {
    e.input.Buffer? ==> e.accepted && (p.streaming || (0 < HeaderSize(e.input.bytes) && e.configured))
  }

  /** What an input does to the decoder and to the lower driver, accepted or not. */
  function Feed(p: Pcm, e: Fed): Passed {
    if Ok(p, e) then Accept(p, e.input)
    else Passed(AfterBuffer(p, e.input.bytes, e.input.final, e.configured, e.accepted), [])
  }

  function FeedAll(p: Pcm, es: seq<Fed>): Passed
    decreases |es|
  {
    if es == [] then Passed(p, [])
    else
      var first := Feed(p, es[0]);
      var rest := FeedAll(first.pcm, es[1..]);
      Passed(rest.pcm, first.out + rest.out)
  }

  /** What each input of a stream gives when all are accepted, and the part of it that is
      left when some are refused. */
  function Pieces(d: Decoder, es: seq<Fed>, all: bool): seq<Byte>
    decreases |es|
  {
    if es == [] then []
    else
      var r := Play(d, AsEvent(es[0].input));
      (if all || es[0].input.Request? || es[0].accepted then r.out else []) + Pieces(r.d, es[1..], all)
  }

  function Inputs(es: seq<Fed>): seq<Input> {
    seq(|es|, i requires 0 <= i < |es| => es[i].input)
  }

  lemma FeedStep(p: Pcm, e: Fed)
    requires p.streaming
    ensures Feed(p, e).pcm == Accept(p, e.input).pcm
    ensures Feed(p, e).out == if e.input.Request? || e.accepted then Play(p.dec, AsEvent(e.input)).out else []
  {
  }

  /** A refused buffer is lost and nothing else: the decoder goes on as if it had been
      accepted, so the lower driver receives the other buffers' parts of the same output. */
  lemma {:induction false} RefusedAlone(p: Pcm, es: seq<Fed>)
    requires p.streaming && FinalLast(Inputs(es))
    ensures FeedAll(p, es).pcm == AcceptAll(p, Inputs(es)).pcm
    ensures FeedAll(p, es).out == Pieces(p.dec, es, false)
    ensures AcceptAll(p, Inputs(es)).out == Pieces(p.dec, es, true)
    decreases |es|
  {
    hide Play, Configure, Feed;
    if es != [] {
      var first := Accept(p, es[0].input);
      assert Inputs(es)[1..] == Inputs(es[1..]);
      FeedStep(p, es[0]);
      AcceptStep(p, es[0].input);
      if |es| == 1 {
        assert FeedAll(first.pcm, es[1..]) == Passed(first.pcm, []) == AcceptAll(first.pcm, Inputs(es[1..]));
        assert Pieces(first.pcm.dec, es[1..], true) == [] == Pieces(first.pcm.dec, es[1..], false);
      } else {
        forall i | 0 <= i < |es| - 2
          ensures Inputs(es[1..])[i].Buffer? ==> !Inputs(es[1..])[i].final
        {
          assert Inputs(es)[i + 1] == Inputs(es[1..])[i];
        }
        assert Inputs(es)[0] == es[0].input;
        RefusedAlone(first.pcm, es[1..]);
      }
    }
  }

  /** A first buffer the lower driver refuses: the stream does not begin, yet the format of a
      valid header stays, and a driver that was configured leaves the phase moved on. */
  lemma RefusedHeader(p: Pcm, bytes: seq<Byte>, final: bool, configured: bool, accepted: bool)
    requires !p.streaming && !Ok(p, Fed(Buffer(bytes, final), configured, accepted))
    ensures var r := AfterBuffer(p, bytes, final, configured, accepted);
            && !r.streaming
            && r.dec.subsample == p.dec.subsample
            && r.dec.align == (if Stored(bytes) then FormatOf(bytes).align else p.dec.align)
            && (HeaderSize(bytes) == 0 || !configured ==> r.dec.ph == p.dec.ph)
            && (0 < HeaderSize(bytes) && configured ==>
                  r == AfterBuffer(p, bytes, true, true, true))
  {
    hide FindData, ValidWav, Supported, Kept, After;
    if 0 < HeaderSize(bytes) {
      StoredFirst(bytes);
    }
  }

  /** End to end: with the whole header in the first buffer, the lower driver receives the
      subsampled bytes behind the header, across buffers and rate requests. */
  lemma {:induction false} EndToEnd(p: Pcm, first: seq<Byte>, final: bool, rest: seq<Input>)
    requires !p.streaming && 0 < HeaderSize(first) && HeaderOk(first, p.dec.ph)
    requires FinalLast([Buffer(first, final)] + rest)
    ensures HEADER_SIZE <= |first| && 0 < FormatOf(first).align
    ensures AcceptAll(p, [Buffer(first, final)] + rest).out
         == PlayAll(p.dec.(align := FormatOf(first).align), [Data(first[HeaderSize(first)..])] + AsEvents(rest)).out
  {
    hide Play, Configure, FindData, ValidWav, Supported, HeaderSize;
    StoredFirst(first);
    var es := [Buffer(first, final)] + rest;
    var one := Accept(p, es[0]);
    var dec := p.dec.(align := FormatOf(first).align);
    var events := [Data(first[HeaderSize(first)..])] + AsEvents(rest);
    assert es[1..] == rest && events[1..] == AsEvents(rest);
    assert one.out == Play(dec, events[0]).out && one.pcm.dec == Play(dec, events[0]).d;
    if rest == [] {
      assert AcceptAll(one.pcm, rest).out == [] == PlayAll(one.pcm.dec, AsEvents(rest)).out;
    } else {
      assert !es[0].final;
      forall i | 0 <= i < |rest| - 1
        ensures rest[i].Buffer? ==> !rest[i].final
      {
        assert es[i + 1] == rest[i];
      }
      StreamOn(one.pcm, rest);
    }
  }

  /** The whole file at one rate: however the bytes behind the header are cut into
      buffers, the lower driver gets exactly every `rate`-th sample of them. */
  lemma {:induction false} FileAtConstantRate(p: Pcm, first: seq<Byte>, chunks: seq<seq<Byte>>)
    requires !p.streaming && p.dec.ph == Phase(0, 0) && 1 <= p.dec.subsample
    requires 0 < HeaderSize(first)
    ensures HEADER_SIZE <= |first|
    ensures
      var align := FormatOf(first).align;
      0 < align && align * (p.dec.subsample - 1) < 256 ==>
        && 0 < align * p.dec.subsample
        && AcceptAll(p, [Buffer(first, false)] + AsBuffers(chunks)).out
           == Select(first[HeaderSize(first)..] + Concat(chunks), align, align * p.dec.subsample, 0)
  {
    hide Play, Configure, FindData, ValidWav, Supported, HeaderSize;
    StoredFirst(first);
    var align := FormatOf(first).align;
    if 0 < align && align * (p.dec.subsample - 1) < 256 {
      assert HeaderOk(first, p.dec.ph) by { AcceptedEnds(first); }
      EndToEnd(p, first, false, AsBuffers(chunks));
      var all := [first[HeaderSize(first)..]] + chunks;
      assert AsData(all) == [Data(first[HeaderSize(first)..])] + AsEvents(AsBuffers(chunks));
      assert Concat(all) == first[HeaderSize(first)..] + Concat(chunks) by {
        assert all[1..] == chunks;
      }
      ConstantRate(align, p.dec.subsample, all);
    }
  }

  function AsBuffers(chunks: seq<seq<Byte>>): seq<Input> {
    seq(|chunks|, i requires 0 <= i < |chunks| => Buffer(chunks[i], false))
  }
}
