/** WAV files written out byte by byte, and what the decoder makes of them: which files it
    accepts, and that it reads back the format and plays exactly the data. */
module PcmFile {
  import opened Common
  import opened PcmSubsample
  import opened PcmStream
  import opened PcmWav
  import opened PcmDecoder

  function Bytes16(n: nat): (b: seq<Byte>)
    requires n < 0x1_0000
    ensures |b| == 2
  {
    [n % 256, n / 256]
  }

  function Bytes32(n: nat): (b: seq<Byte>)
    requires n < TWO32
    ensures |b| == 4
  {
    [n % 256, n / 256 % 256, n / 65536 % 256, n / 16777216]
  }

  lemma Reads16(pre: seq<Byte>, n: nat, post: seq<Byte>)
    requires n < 0x1_0000
    ensures Le16(pre + Bytes16(n) + post, |pre|) == n
  {
    var s := pre + Bytes16(n) + post;
    assert s[|pre|] == Bytes16(n)[0] && s[|pre| + 1] == Bytes16(n)[1];
  }

  lemma Reads32(pre: seq<Byte>, n: nat, post: seq<Byte>)
    requires n < TWO32
    ensures Le32(pre + Bytes32(n) + post, |pre|) == n
  {
    var s := pre + Bytes32(n) + post;
    var t := s[|pre|..|pre| + 4];
    assert t == Bytes32(n);
    Digits(n);
    assert t[0] == s[|pre|] && t[1] == s[|pre| + 1] && t[2] == s[|pre| + 2] && t[3] == s[|pre| + 3];
  }

  lemma Digits(n: nat)
    requires n < TWO32
    ensures Le32(Bytes32(n), 0) == n
  {
    var q := n / 256;
    assert n / 65536 == q / 256 && n / 16777216 == q / 256 / 256;
  }

  datatype Chunk = Chunk(id: nat, body: seq<Byte>)

  predicate ChunkOk(c: Chunk) {
    c.id < TWO32 && c.id != 0x61746164 && |c.body| < TWO32
  }

  predicate ChunksOk(chunks: seq<Chunk>) {
    forall i | 0 <= i < |chunks| :: ChunkOk(chunks[i])
  }

  function Encoded(c: Chunk): (b: seq<Byte>)
    requires c.id < TWO32 && |c.body| < TWO32
    ensures |b| == 8 + |c.body|
  {
    Bytes32(c.id) + Bytes32(|c.body|) + c.body
  }

  /** The chunks behind the format: others, then the data. */
  function Tail(chunks: seq<Chunk>, data: seq<Byte>): (b: seq<Byte>)
    requires ChunksOk(chunks) && |data| < TWO32
    ensures |b| >= 8 * |chunks| + 8 + |data|
  {
    if chunks == [] then Encoded(Chunk(0x61746164, data)) else Encoded(chunks[0]) + Tail(chunks[1..], data)
  }

  predicate FormatFits(f: Format) {
    f.samprate < TWO32 && f.byterate < TWO32 && f.align < 256 && f.bpsamp < 256 && f.nchannels < 256
  }

  /** "RIFF", a length, "WAVE", then the chunk "fmt " of 16 bytes for PCM. */
  function Front(f: Format, length: nat): (b: seq<Byte>)
    requires FormatFits(f) && length < TWO32
    ensures |b| == 36
  {
    [0x52, 0x49, 0x46, 0x46] + Bytes32(length) + [0x57, 0x41, 0x56, 0x45]
    + [0x66, 0x6d, 0x74, 0x20] + Bytes32(16) + Bytes16(1) + Bytes16(f.nchannels)
    + Bytes32(f.samprate) + Bytes32(f.byterate) + Bytes16(f.align) + Bytes16(f.bpsamp)
  }

  function File(f: Format, length: nat, chunks: seq<Chunk>, data: seq<Byte>): seq<Byte>
    requires FormatFits(f) && length < TWO32 && ChunksOk(chunks) && |data| < TWO32
  {
    Front(f, length) + Tail(chunks, data)
  }

  /** The front of a file is a valid PCM header and carries its format. */
  lemma FrontReads(f: Format, length: nat, s: seq<Byte>)
    requires FormatFits(f) && length < TWO32 && HEADER_SIZE <= |s| && Front(f, length) <= s
    ensures ValidWav(s) && FormatOf(s) == f
  {
    var b := Front(f, length);
    assert forall i | 0 <= i < 36 :: s[i] == b[i];
    FrontIds(f, length);
    FrontFormat(f, length);
  }

  lemma FrontIds(f: Format, length: nat)
    requires FormatFits(f) && length < TWO32
    ensures var b := Front(f, length);
            && Le32(b, 0) == WAV_HDR_CHUNKID && Le32(b, 8) == WAV_HDR_FORMAT && Le32(b, 12) == WAV_FMT_CHUNKID
            && Le32(b, 16) == WAV_FMT_CHUNKLEN && Le16(b, 20) == WAV_FMT_FORMAT
  {
  }

  lemma FrontFormat(f: Format, length: nat)
    requires FormatFits(f) && length < TWO32
    ensures var b := Front(f, length);
            && Le16(b, 22) == f.nchannels && Le32(b, 24) == f.samprate && Le32(b, 28) == f.byterate
            && Le16(b, 32) == f.align && Le16(b, 34) == f.bpsamp
  {
    var b := Front(f, length);
    assert b[22..24] == Bytes16(f.nchannels) && b[24..28] == Bytes32(f.samprate);
    assert b[28..32] == Bytes32(f.byterate) && b[32..34] == Bytes16(f.align) && b[34..36] == Bytes16(f.bpsamp);
    Reads16(b[..22], f.nchannels, b[24..]);
    Reads32(b[..24], f.samprate, b[28..]);
    Reads32(b[..28], f.byterate, b[32..]);
    Reads16(b[..32], f.align, b[34..]);
    Reads16(b[..34], f.bpsamp, b[36..]);
    assert b == b[..22] + b[22..24] + b[24..] == b[..24] + b[24..28] + b[28..] == b[..28] + b[28..32] + b[32..];
    assert b == b[..32] + b[32..34] + b[34..] == b[..34] + b[34..36] + b[36..];
  }

  lemma Writes16(s: seq<Byte>, i: nat)
    requires i + 2 <= |s|
    ensures Le16(s, i) < 0x1_0000 && Bytes16(Le16(s, i)) == s[i..i + 2]
  {
  }

  lemma Writes32(s: seq<Byte>, i: nat)
    requires i + 4 <= |s|
    ensures Le32(s, i) < TWO32 && Bytes32(Le32(s, i)) == s[i..i + 4]
  {
    var a: nat, b: nat, c: nat, d: nat := s[i], s[i + 1], s[i + 2], s[i + 3];
    var r := c + 256 * d;
    var q := b + 256 * r;
    var n := Le32(s, i);
    assert n == a + 256 * q && n / 256 == q && q / 256 == r && r / 256 == d;
    assert n / 65536 == r && n / 16777216 == d;
  }

  /** A header is valid exactly if it is the front of a PCM file with its format. */
  lemma FrontIff(s: seq<Byte>)
    requires HEADER_SIZE <= |s|
    ensures ValidWav(s) <==> exists f: Format, length: nat ::
      FormatFits(f) && length < TWO32 && s[..36] == Front(f, length)
    ensures ValidWav(s) ==> s[..36] == FrontOf(s)
  {
    hide ValidWav, Le32, Le16;
    if ValidWav(s) {
      FrontWritten(s);
    } else if f: Format, length: nat :| FormatFits(f) && length < TWO32 && s[..36] == Front(f, length) {
      FrontReads(f, length, s);
    }
  }

  function FrontOf(s: seq<Byte>): seq<Byte>
    requires HEADER_SIZE <= |s| && ValidWav(s)
  {
    Writes32(s, 4);
    Writes32(s, 24);
    Writes32(s, 28);
    Front(FormatOf(s), Le32(s, 4))
  }

  lemma FrontWritten(s: seq<Byte>)
    requires HEADER_SIZE <= |s| && ValidWav(s)
    ensures FormatFits(FormatOf(s)) && Le32(s, 4) < TWO32 && s[..36] == FrontOf(s)
  {
    hide Le32, Le16, Bytes32, Bytes16;
    ValidIds(s);
    Writes32(s, 4);
    Writes16(s, 22);
    Writes32(s, 24);
    Writes32(s, 28);
    Writes16(s, 32);
    Writes16(s, 34);
    var parts := s[0..4] + s[4..8] + s[8..12] + s[12..16] + s[16..20] + s[20..22] + s[22..24]
      + s[24..28] + s[28..32] + s[32..34] + s[34..36];
    assert s[..36] == parts;
  }

  lemma ValidIds(s: seq<Byte>)
    requires HEADER_SIZE <= |s| && ValidWav(s)
    ensures s[0..4] == [0x52, 0x49, 0x46, 0x46] && s[8..12] == [0x57, 0x41, 0x56, 0x45]
    ensures s[12..16] == [0x66, 0x6d, 0x74, 0x20] && s[16..20] == Bytes32(16) && s[20..22] == Bytes16(1)
  {
    hide Le32, Le16, Bytes32, Bytes16;
    Writes32(s, 0);
    Writes32(s, 8);
    Writes32(s, 12);
    Writes32(s, 16);
    Writes16(s, 20);
    IdBytes();
  }

  lemma IdBytes()
    ensures Bytes32(WAV_HDR_CHUNKID) == [0x52, 0x49, 0x46, 0x46]
    ensures Bytes32(WAV_HDR_FORMAT) == [0x57, 0x41, 0x56, 0x45]
    ensures Bytes32(WAV_FMT_CHUNKID) == [0x66, 0x6d, 0x74, 0x20]
  {
  }

  /** What stands at the head of an encoded chunk. */
  lemma ChunkReads(pre: seq<Byte>, c: Chunk, post: seq<Byte>)
    requires c.id < TWO32 && |c.body| < TWO32
    ensures var s := pre + Encoded(c) + post;
            Le32(s, |pre|) == c.id && Le32(s, |pre| + 4) == |c.body|
  {
    var s := pre + Encoded(c) + post;
    Reads32(pre, c.id, Bytes32(|c.body|) + c.body + post);
    assert s == pre + Bytes32(c.id) + (Bytes32(|c.body|) + c.body + post);
    Reads32(pre + Bytes32(c.id), |c.body|, c.body + post);
    assert s == (pre + Bytes32(c.id)) + Bytes32(|c.body|) + (c.body + post);
  }

  /** The walk passes over every other chunk and comes to the data, unless the file ends with
      the header of an empty data chunk that is not the first chunk. */
  lemma {:induction false} WalksTail(pre: seq<Byte>, chunks: seq<Chunk>, data: seq<Byte>, fuel: nat)
    requires ChunksOk(chunks) && |data| < TWO32 && |chunks| <= fuel
    requires |pre| + |Tail(chunks, data)| + 8 < TWO32
    ensures var s := pre + Tail(chunks, data);
            Walk(s, |pre| + 8, fuel) ==
              if chunks == [] || data != [] then Some(Found(|s| - |data|)) else Some(NotFound)
    decreases |chunks|
  {
    hide Le32, Encoded;
    var s := pre + Tail(chunks, data);
    if chunks == [] {
      ChunkReads(pre, Chunk(0x61746164, data), []);
      assert s == pre + Encoded(Chunk(0x61746164, data)) + [];
    } else {
      var c, rest := chunks[0], Tail(chunks[1..], data);
      ChunkReads(pre, c, rest);
      assert s == pre + Encoded(c) + rest;
      var next := |pre| + 8 + |c.body| + 8;
      assert Advance(s, |pre| + 8) == next;
      if next < |s| {
        WalksTail(pre + Encoded(c), chunks[1..], data, fuel - 1);
        assert Walk(s, |pre| + 8, fuel) == Walk(s, next, fuel - 1);
      } else {
        assert |rest| <= 8;
      }
    }
  }

  /** Which files are accepted, and that what is played of them is their data: other chunks
      may stand before the data, but then the data must not be empty. */
  lemma FileReadsBack(f: Format, length: nat, chunks: seq<Chunk>, data: seq<Byte>)
    requires FormatFits(f) && length < TWO32 && ChunksOk(chunks) && |data| < TWO32
    requires |File(f, length, chunks, data)| + 8 < TWO32
    ensures var s := File(f, length, chunks, data);
            && (0 < HeaderSize(s) <==>
                  && (f.bpsamp == 8 || f.bpsamp == 16) && (f.nchannels == 1 || f.nchannels == 2)
                  && (chunks == [] || data != []))
            && (0 < HeaderSize(s) ==> FormatOf(s) == f && s[HeaderSize(s)..] == data)
  {
    hide Walk, ValidWav, FormatOf, Front;
    var s := File(f, length, chunks, data);
    FrontReads(f, length, s);
    WalksTail(Front(f, length), chunks, data, |s|);
    TailEnds(chunks, data);
    assert s[|s| - |data|..] == Tail(chunks, data)[|Tail(chunks, data)| - |data|..];
  }

  lemma {:induction false} TailEnds(chunks: seq<Chunk>, data: seq<Byte>)
    requires ChunksOk(chunks) && |data| < TWO32
    ensures Tail(chunks, data)[|Tail(chunks, data)| - |data|..] == data
    decreases |chunks|
  {
    if chunks != [] {
      TailEnds(chunks[1..], data);
    }
  }

  /** A file played whole at one rate: the lower driver gets every rate-th sample of its data. */
  lemma FilePlayed(p: Pcm, f: Format, length: nat, chunks: seq<Chunk>, data: seq<Byte>)
    requires FormatFits(f) && length < TWO32 && ChunksOk(chunks) && |data| < TWO32
    requires |File(f, length, chunks, data)| + 8 < TWO32
    requires f.bpsamp in {8, 16} && f.nchannels in {1, 2} && data != []
    requires !p.streaming && p.dec.ph == Phase(0, 0) && 1 <= p.dec.subsample
    requires 0 < f.align && f.align * (p.dec.subsample - 1) < 256
    ensures 0 < f.align * p.dec.subsample
    ensures AcceptAll(p, [Buffer(File(f, length, chunks, data), false)]).out
         == Select(data, f.align, f.align * p.dec.subsample, 0)
  {
    hide AcceptAll, HeaderSize, FormatOf, Select;
    var s := File(f, length, chunks, data);
    FileReadsBack(f, length, chunks, data);
    FileAtConstantRate(p, s, []);
    assert [Buffer(s, false)] + AsBuffers([]) == [Buffer(s, false)];
    assert data + Concat([]) == data;
  }
}
