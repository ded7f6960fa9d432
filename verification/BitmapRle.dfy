/** The run-length encoder for NxWidgets bitmaps (apps/tools/bitmap_converter.py). */
module BitmapRle {
  import opened Common

  datatype Color = Color(r: int, g: int, b: int)

  /** A run: how often the palette index repeats. */
  datatype Entry = Entry(repeats: nat, color: nat)

  const MAX_REPEATS := 255

  // ---- Palette search ----

  function Square(x: int): nat {
    x * x
  }

  function Distance(a: Color, b: Color): nat {
    Square(a.r - b.r) + Square(a.g - b.g) + Square(a.b - b.b)
  }

  lemma DistanceZero(a: Color, b: Color)
    ensures Distance(a, b) == 0 <==> a == b
  {
  }

  function IndexOf(palette: seq<Color>, color: Color): (k: nat)
    ensures k <= |palette|
    ensures k < |palette| ==> palette[k] == color
    ensures forall j | 0 <= j < k :: palette[j] != color
  {
    if palette == [] || palette[0] == color then 0 else 1 + IndexOf(palette[1..], color)
  }

  /** The first of the palette's colours at the least distance. */
  function Closest(palette: seq<Color>, color: Color): (c: Color)
    requires palette != []
    ensures c in palette
    ensures forall d | d in palette :: Distance(color, c) <= Distance(color, d)
  {
    if |palette| == 1 then palette[0]
    else
      var c := Closest(palette[1..], color);
      assert forall d | d in palette :: d == palette[0] || d in palette[1..];
      if Distance(color, palette[0]) <= Distance(color, c) then palette[0] else c
  }

  /** quantize; searching an empty palette raises an error. */
  function Quantize(color: Color, palette: seq<Color>): Option<nat> {
    var k := IndexOf(palette, color);
    if k < |palette| then Some(k)
    else if palette == [] then None
    else Some(IndexOf(palette, Closest(palette, color)))
  }

  /** Whether `k` is the first palette index at the least distance from the colour. */
  ghost predicate Nearest(color: Color, palette: seq<Color>, k: nat) {
    && k < |palette|
    && (forall j | 0 <= j < |palette| :: Distance(color, palette[k]) <= Distance(color, palette[j]))
    && (forall j | 0 <= j < k :: Distance(color, palette[k]) < Distance(color, palette[j]))
  }

  lemma {:induction false} ClosestFirst(palette: seq<Color>, color: Color)
    requires palette != []
    ensures Nearest(color, palette, IndexOf(palette, Closest(palette, color)))
  {
    hide Distance;
    var c := Closest(palette, color);
    var k := IndexOf(palette, c);
    assert k < |palette|;
    assert forall j | 0 <= j < |palette| :: palette[j] in palette;
    if |palette| > 1 && c != palette[0] {
      ClosestFirst(palette[1..], color);
      assert forall j | 0 < j < |palette| :: palette[j] == palette[1..][j - 1];
    }
  }

  /** The exact match and the fallback are one rule: the first nearest colour. */
  lemma QuantizeNearest(color: Color, palette: seq<Color>)
    ensures palette == [] <==> Quantize(color, palette).None?
    ensures forall k: nat :: Quantize(color, palette) == Some(k) <==> Nearest(color, palette, k)
  {
    var k := IndexOf(palette, color);
    if k < |palette| {
      forall j | 0 <= j < |palette| ensures Distance(color, palette[j]) == 0 <==> color == palette[j] {
        DistanceZero(color, palette[j]);
      }
    } else if palette != [] {
      ClosestFirst(palette, color);
    }
  }

  // ---- Runs ----

  function Repeat(c: nat, n: nat): seq<nat> {
    seq(n, i => c)
  }

  function Decode(entries: seq<Entry>): seq<nat> {
    if entries == [] then [] else Repeat(entries[0].color, entries[0].repeats) + Decode(entries[1..])
  }

  ghost predicate Encodes(entries: seq<Entry>, row: seq<nat>) {
    && Decode(entries) == row
    && forall i | 0 <= i < |entries| :: 1 <= entries[i].repeats <= MAX_REPEATS
  }

  /** What the loop still appends when it holds a run of `n` and meets `rest`. */
  function Continue(n: nat, c: nat, rest: seq<nat>): seq<Entry>
    decreases |rest|
  {
    if rest == [] then [Entry(n, c)]
    else if rest[0] == c && n < MAX_REPEATS then Continue(n + 1, c, rest[1..])
    else [Entry(n, c)] + Continue(1, rest[0], rest[1..])
  }

  function Encode(row: seq<nat>): seq<Entry> {
    if row == [] then [] else Continue(1, row[0], row[1..])
  }

  lemma {:induction false} ContinueEncodes(n: nat, c: nat, rest: seq<nat>)
    requires 1 <= n <= MAX_REPEATS
    ensures Encodes(Continue(n, c, rest), Repeat(c, n) + rest)
    decreases |rest|
  {
    if rest == [] {
      assert Decode([Entry(n, c)]) == Repeat(c, n) + [];
    } else if rest[0] == c && n < MAX_REPEATS {
      ContinueEncodes(n + 1, c, rest[1..]);
      assert Repeat(c, n + 1) + rest[1..] == Repeat(c, n) + rest;
    } else {
      ContinueEncodes(1, rest[0], rest[1..]);
      var more := Continue(1, rest[0], rest[1..]);
      assert Repeat(rest[0], 1) + rest[1..] == rest;
      assert ([Entry(n, c)] + more)[1..] == more;
    }
  }

  /** Decoding gives back every row, and each count fits its byte and is not zero. */
  lemma RoundTrip(row: seq<nat>)
    ensures Encodes(Encode(row), row)
  {
    if row != [] {
      ContinueEncodes(1, row[0], row[1..]);
      assert Repeat(row[0], 1) + row[1..] == row;
    }
  }

  // ---- Optimality ----

  /** The lengths the greedy loop reaches: holding a longer run is never better by more
      than the entry it closes, nor worse. */
  lemma {:induction false} Greedy(n: nat, n': nat, c: nat, rest: seq<nat>)
    requires 1 <= n <= n' <= MAX_REPEATS
    ensures |Continue(n, c, rest)| <= |Continue(n', c, rest)|
    ensures |Continue(n, c, rest)| <= 1 + |Encode(rest)|
    ensures |Encode(rest)| <= |Continue(n, c, rest)|
    decreases |rest|
  {
    if rest != [] {
      var tail := rest[1..];
      if rest[0] == c && n < MAX_REPEATS {
        Greedy(n + 1, if n' < MAX_REPEATS then n' + 1 else n', c, tail);
        Greedy(1, n + 1, c, tail);
      }
    }
  }

  lemma {:induction false} Absorb(n: nat, k: nat, c: nat, rest: seq<nat>)
    requires 1 <= n && n + k <= MAX_REPEATS
    ensures Continue(n, c, Repeat(c, k) + rest) == Continue(n + k, c, rest)
    decreases k
  {
    var row := Repeat(c, k) + rest;
    if k == 0 {
      assert row == rest;
    } else {
      assert row[0] == c && row[1..] == Repeat(c, k - 1) + rest;
      Absorb(n + 1, k - 1, c, rest);
    }
  }

  /** No list of runs of 1 to 255 that decodes to the row has fewer entries. */
  lemma {:induction false} Optimal(row: seq<nat>, entries: seq<Entry>)
    requires Encodes(entries, row)
    ensures |Encode(row)| <= |entries|
    decreases |entries|
  {
    if entries != [] {
      var n, c, rest := entries[0].repeats, entries[0].color, entries[1..];
      var tail := Decode(rest);
      assert forall i | 0 <= i < |rest| :: rest[i] == entries[i + 1];
      Optimal(tail, rest);
      assert row[0] == c && row[1..] == Repeat(c, n - 1) + tail;
      Absorb(1, n - 1, c, tail);
      Greedy(n, n, c, tail);
    }
  }

  // ---- Which of the shortest ----

  /** A run stops short of 255 only where the colour changes. */
  ghost predicate Full(entries: seq<Entry>) {
    forall i | 0 <= i < |entries| - 1 ::
      entries[i].color == entries[i + 1].color ==> entries[i].repeats == MAX_REPEATS
  }

  lemma {:induction false} ContinueFull(n: nat, c: nat, rest: seq<nat>)
    requires 1 <= n <= MAX_REPEATS
    ensures Full(Continue(n, c, rest)) && Continue(n, c, rest) != [] && Continue(n, c, rest)[0].color == c
    decreases |rest|
  {
    if rest != [] {
      ContinueFull(if rest[0] == c && n < MAX_REPEATS then n + 1 else 1, rest[0], rest[1..]);
    }
  }

  /** The encoding is the only one whose runs are full. */
  lemma {:induction false} OnlyFull(row: seq<nat>, entries: seq<Entry>)
    requires Encodes(entries, row)
    ensures Full(entries) <==> entries == Encode(row)
    decreases |entries|
  {
    if row != [] {
      ContinueFull(1, row[0], row[1..]);
    }
    if entries != [] {
      var n, c, rest := entries[0].repeats, entries[0].color, entries[1..];
      var tail := Decode(rest);
      assert forall i | 0 <= i < |rest| :: rest[i] == entries[i + 1];
      assert row[0] == c && row[1..] == Repeat(c, n - 1) + tail;
      if Full(entries) {
        OnlyFull(tail, rest);
        Absorb(1, n - 1, c, tail);
        assert entries == [entries[0]] + rest;
        if rest != [] {
          assert tail[0] == rest[0].color == entries[0 + 1].color;
        }
      }
    }
  }

  // ---- The encoder ----

  /** The palette indices of a row of pixels. */
  ghost predicate Indices(pixels: seq<Color>, palette: seq<Color>, row: seq<nat>) {
    |row| == |pixels| && forall x | 0 <= x < |row| :: Quantize(pixels[x], palette) == Some(row[x])
  }

  /** Whether the entries written and the run held account for the row so far. */
  ghost predicate Holds(row: seq<nat>, out: seq<Entry>, n: nat, c: nat) {
    forall rest :: Encode(row + rest) == out + Continue(n, c, rest)
  }

  lemma Start(c: nat)
    ensures Holds([c], [], 1, c)
  {
    forall rest ensures Encode([c] + rest) == [] + Continue(1, c, rest) {
      assert ([c] + rest)[1..] == rest;
    }
  }

  lemma Extend(row: seq<nat>, out: seq<Entry>, n: nat, c: nat, next: nat)
    requires Holds(row, out, n, c)
    ensures next == c && n < MAX_REPEATS ==> Holds(row + [next], out, n + 1, c)
    ensures !(next == c && n < MAX_REPEATS) ==> Holds(row + [next], out + [Entry(n, c)], 1, next)
  {
    forall rest
      ensures next == c && n < MAX_REPEATS ==> Encode(row + [next] + rest) == out + Continue(n + 1, c, rest)
      ensures !(next == c && n < MAX_REPEATS) ==>
        Encode(row + [next] + rest) == out + [Entry(n, c)] + Continue(1, next, rest)
    {
      var line := [next] + rest;
      assert row + [next] + rest == row + line;
      assert line[1..] == rest;
      assert Encode(row + line) == out + Continue(n, c, line);
    }
  }

  /** encode_row: the loop encodes the quantized row in full runs, fails exactly where
      quantizing a pixel fails, and no other encoding of that row is shorter. */
  method EncodeRow(pixels: seq<Color>, palette: seq<Color>) returns (entries: Option<seq<Entry>>, ghost row: seq<nat>)
    ensures entries.None? <==> palette == [] && pixels != []
    ensures entries.Some? ==> Indices(pixels, palette, row) && Encodes(entries.value, row) && Full(entries.value)
    ensures entries.Some? ==> forall other | Encodes(other, row) :: |entries.value| <= |other|
  {
    hide Quantize, Nearest, Full, Decode;
    var out: seq<Entry> := [];
    var color: Option<nat> := None;
    var repeats := 0;
    row := [];
    for x := 0 to |pixels|
      invariant Indices(pixels[..x], palette, row)
      invariant color.None? <==> x == 0
      invariant color.None? ==> out == [] && repeats == 0
      invariant palette == [] ==> x == 0
      invariant color.Some? ==> 1 <= repeats <= MAX_REPEATS
      invariant color.Some? ==> Holds(row, out, repeats, color.value)
    {
      QuantizeNearest(pixels[x], palette);
      var c := Quantize(pixels[x], palette);
      if c.None? {
        return None, row;
      }
      ghost var before := row;
      row := row + [c.value];
      if c == color && repeats < MAX_REPEATS {
        Extend(before, out, repeats, color.value, c.value);
        repeats := repeats + 1;
      } else {
        if color.Some? {
          Extend(before, out, repeats, color.value, c.value);
          out := out + [Entry(repeats, color.value)];
        }
        repeats := 1;
        color := c;
        assert x == 0 ==> row == [c.value];
        Start(c.value);
      }
    }
    if color.Some? {
      assert row + [] == row;
      assert Encode(row) == out + Continue(repeats, color.value, []);
      out := out + [Entry(repeats, color.value)];
    }
    assert pixels[..|pixels|] == pixels;
    assert out == Encode(row);
    RoundTrip(row);
    OnlyFull(row, out);
    forall other | Encodes(other, row) ensures |out| <= |other| {
      Optimal(row, other);
    }
    entries := Some(out);
  }
}
