/** How nsh_parse cuts a line into commands at semicolons, and the offset it records for the
    command at hand (apps/nshlib/nsh_parse.c).  A loop saves that offset, and its `done`
    reads on from there. */
module NshLine {
  import opened Common
  import opened NshQuote

  predicate Quote(c: char) {
    c == '"' || c == '\''
  }

  /** The characters that end a command. */
  predicate Ends(c: char) {
    c == ';' || c == '#' || c == '\n'
  }

  predicate Separator(c: char) {
    Quote(c) || Ends(c)
  }

  // ---- One command ----

  /** nsh_strchr for a closing quotation mark, from `i` on. */
  function Closing(line: string, i: nat, quote: char, escaped: bool): (r: Option<nat>)
    requires i <= |line|
    ensures r.Some? ==> i <= r.value < |line|
    decreases |line| - i
  {
    if i == |line| then None
    else if line[i] == BACKSLASH && !escaped then Closing(line, i + 1, quote, true)
    else if line[i] == quote && !escaped then Some(i)
    else Closing(line, i + 1, quote, false)
  }

  /** Where a command ends and how far the scan had come when it last went on behind a quote. */
  datatype Scanned = Scanned(end: nat, mark: nat)

  /** The scan of a command, character by character: a quote that follows a backslash is
      passed over, any other is passed over up to its closing one. */
  function Scan(line: string, start: nat, i: nat, mark: nat): (r: Option<Scanned>)
    requires start <= i <= |line| && mark <= i
    ensures r.Some? ==> i <= r.value.end <= |line| && mark <= r.value.mark <= r.value.end
    ensures r.Some? && r.value.end < |line| ==> Ends(line[r.value.end])
    decreases |line| - i
  {
    if i == |line| || Ends(line[i]) then Some(Scanned(i, mark))
    else if !Quote(line[i]) then Scan(line, start, i + 1, mark)
    else if Escaped(line, start, i) then Scan(line, start, i + 1, i + 1)
    else
      var c := Closing(line, i + 1, line[i], false);
      if c.None? then None else Scan(line, start, c.value + 1, c.value + 1)
  }

  predicate Escaped(line: string, start: nat, i: nat)
    requires i <= |line|
  {
    start < i && line[i - 1] == BACKSLASH
  }

  function ScanFrom(line: string, start: nat): Option<Scanned>
    requires start <= |line|
  {
    Scan(line, start, start, start)
  }

  predicate QuoteFree(line: string, lo: nat, hi: nat)
    requires hi <= |line|
  {
    forall i | lo <= i < hi :: !Quote(line[i])
  }

  lemma ScanPlain(line: string, start: nat, i: nat, mark: nat)
    requires start <= i < |line| && mark <= i && !Separator(line[i])
    ensures Scan(line, start, i, mark) == Scan(line, start, i + 1, mark)
  {
  }

  lemma ScanStops(line: string, start: nat, i: nat, mark: nat)
    requires start <= i <= |line| && mark <= i && (i < |line| ==> Ends(line[i]))
    ensures Scan(line, start, i, mark) == Some(Scanned(i, mark))
  {
  }

  lemma ScanEscaped(line: string, start: nat, i: nat, mark: nat)
    requires start <= i < |line| && mark <= i && Quote(line[i]) && Escaped(line, start, i)
    ensures Scan(line, start, i, mark) == Scan(line, start, i + 1, i + 1)
  {
  }

  lemma ScanQuoted(line: string, start: nat, i: nat, mark: nat)
    requires start <= i < |line| && mark <= i && Quote(line[i]) && !Escaped(line, start, i)
    ensures
      var c := Closing(line, i + 1, line[i], false);
      Scan(line, start, i, mark) == if c.None? then None else Scan(line, start, c.value + 1, c.value + 1)
  {
  }

  /** The mark stays where it was exactly if no quote was met. */
  lemma {:induction false} MarkMoves(line: string, start: nat, i: nat, mark: nat)
    requires start <= i <= |line| && mark <= i && QuoteFree(line, mark, i)
    requires forall k | mark <= k < i :: !Ends(line[k])
    requires Scan(line, start, i, mark).Some?
    ensures
      var r := Scan(line, start, i, mark).value;
      && (r.mark == mark <==> QuoteFree(line, mark, r.end))
      && forall k | r.mark <= k < r.end :: !Separator(line[k])
    decreases |line| - i
  {
    hide Scan, Closing;
    if i == |line| || Ends(line[i]) {
      ScanStops(line, start, i, mark);
    } else if !Quote(line[i]) {
      ScanPlain(line, start, i, mark);
      MarkMoves(line, start, i + 1, mark);
    } else if Escaped(line, start, i) {
      ScanEscaped(line, start, i, mark);
      MarkMoves(line, start, i + 1, i + 1);
    } else {
      ScanQuoted(line, start, i, mark);
      var c := Closing(line, i + 1, line[i], false).value;
      MarkMoves(line, start, c + 1, c + 1);
    }
  }

  // ---- A line ----

  /** A command of a line, with the offset that is recorded when it is parsed. */
  datatype Piece = Piece(start: nat, end: nat, loffs: nat)

  /** The commands of the line from `start` on; not `ok` if a closing quote is missing. */
  datatype Pieces = Pieces(pieces: seq<Piece>, ok: bool)

  function Commands(line: string, start: nat): Pieces
    requires start <= |line|
    decreases |line| - start
  {
    var r := ScanFrom(line, start);
    if r.None? then Pieces([], false)
    else
      var p := Piece(start, r.value.end, r.value.mark);
      if p.end < |line| && line[p.end] == ';' then
        var rest := Commands(line, p.end + 1);
        Pieces([p] + rest.pieces, rest.ok)
      else Pieces([p], true)
  }

  /** strcspn for the separators. */
  method Span(line: string, from: nat) returns (ptr: nat)
    requires from <= |line|
    ensures from <= ptr <= |line| && (ptr < |line| ==> Separator(line[ptr]))
    ensures forall k | from <= k < ptr :: !Separator(line[k])
  {
    ptr := from;
    while ptr < |line| && !Separator(line[ptr])
      invariant from <= ptr <= |line|
      invariant forall k | from <= k < ptr :: !Separator(line[k])
    {
      ptr := ptr + 1;
    }
  }

  /** nsh_strchr for the closing quotation mark. */
  method FindClosing(line: string, from: nat, quote: char) returns (r: Option<nat>)
    requires from <= |line|
    ensures r == Closing(line, from, quote, false)
  {
    var i, escaped := from, false;
    while i < |line|
      invariant from <= i <= |line|
      invariant Closing(line, i, quote, escaped) == Closing(line, from, quote, false)
    {
      if line[i] == BACKSLASH && !escaped {
        escaped := true;
      } else if line[i] == quote && !escaped {
        return Some(i);
      } else {
        escaped := false;
      }
      i := i + 1;
    }
    return None;
  }

  lemma {:induction false} ScanSkips(line: string, start: nat, i: nat, j: nat, mark: nat)
    requires start <= i <= j <= |line| && mark <= i && forall k | i <= k < j :: !Separator(line[k])
    ensures Scan(line, start, i, mark) == Scan(line, start, j, mark)
    decreases j - i
  {
    if i < j {
      ScanSkips(line, start, i + 1, j, mark);
    }
  }

  function Behind(pieces: seq<Piece>, rest: Pieces): Pieces {
    Pieces(pieces + rest.pieces, rest.ok)
  }

  lemma BehindOne(pieces: seq<Piece>, p: Piece, rest: Pieces)
    ensures Behind(pieces, Behind([p], rest)) == Behind(pieces + [p], rest)
  {
  }

  lemma LastCommand(line: string, start: nat, end: nat, mark: nat)
    requires start <= end <= |line| && mark <= end && ScanFrom(line, start) == Some(Scanned(end, mark))
    requires end < |line| ==> line[end] != ';'
    ensures Commands(line, start) == Pieces([Piece(start, end, mark)], true)
  {
  }

  lemma NextCommand(line: string, start: nat, end: nat, mark: nat)
    requires start <= end < |line| && mark <= end && ScanFrom(line, start) == Some(Scanned(end, mark))
    requires line[end] == ';'
    ensures Commands(line, start) == Behind([Piece(start, end, mark)], Commands(line, end + 1))
  {
  }

  lemma BadCommand(line: string, start: nat)
    requires start <= |line| && ScanFrom(line, start) == None
    ensures Commands(line, start) == Pieces([], false)
  {
  }

  /** The loop of nsh_parse, hopping from separator to separator, finds the commands and
      offsets of the character-by-character scan. */
  method ParseLine(line: string) returns (pieces: seq<Piece>, ok: bool)
    ensures Pieces(pieces, ok) == Commands(line, 0)
  {
    hide Scan, Commands, Closing;
    var start: nat, working: nat := 0, 0;
    pieces := [];
    while true
      invariant start <= working <= |line|
      invariant Scan(line, start, working, working) == ScanFrom(line, start)
      invariant Commands(line, 0) == Behind(pieces, Commands(line, start))
      decreases |line| - working, |line| - start
    {
      var loffs := working;
      var ptr := Span(line, working);
      ScanSkips(line, start, working, ptr, working);
      if ptr == |line| || line[ptr] == '\n' || line[ptr] == '#' {
        ScanStops(line, start, ptr, working);
        LastCommand(line, start, ptr, working);
        return pieces + [Piece(start, ptr, loffs)], true;
      } else if line[ptr] == ';' {
        ScanStops(line, start, ptr, working);
        NextCommand(line, start, ptr, working);
        BehindOne(pieces, Piece(start, ptr, loffs), Commands(line, ptr + 1));
        pieces := pieces + [Piece(start, ptr, loffs)];
        start, working := ptr + 1, ptr + 1;
      } else if start < ptr && line[ptr - 1] == BACKSLASH {
        ScanEscaped(line, start, ptr, working);
        working := working + 1;
        if working <= ptr {
          ScanSkips(line, start, working, ptr, working);
          ScanEscaped(line, start, ptr, working);
        }
      } else {
        var tmp := FindClosing(line, ptr + 1, line[ptr]);
        ScanQuoted(line, start, ptr, working);
        if tmp.None? {
          BadCommand(line, start);
          return pieces, false;
        }
        working := tmp.value + 1;
      }
    }
  }

  // ---- Going back ----

  /** `t` is the line from `k` on. */
  predicate Tail(line: string, k: nat, t: string) {
    |line| == k + |t| && forall i | 0 <= i < |t| :: t[i] == line[k + i]
  }

  lemma {:induction false} ClosingShifts(line: string, k: nat, t: string, i: nat, quote: char, escaped: bool)
    requires Tail(line, k, t) && i <= |t|
    ensures
      var r, r' := Closing(t, i, quote, escaped), Closing(line, k + i, quote, escaped);
      (r.None? <==> r'.None?) && (r.Some? ==> r'.value == k + r.value)
    decreases |t| - i
  {
    if i < |t| {
      assert t[i] == line[k + i];
      if t[i] == BACKSLASH && !escaped {
        ClosingShifts(line, k, t, i + 1, quote, true);
      } else if !(t[i] == quote && !escaped) {
        ClosingShifts(line, k, t, i + 1, quote, false);
      }
    }
  }

  lemma {:induction false} ClosingFinds(s: string, i: nat, quote: char)
    requires i <= |s| && quote != BACKSLASH && forall j | 0 <= j < i :: s[j] == quote ==> Flag(s, j)
    ensures
      var r := Closing(s, i, quote, Flag(s, i));
      (r.Some? ==> FirstUnescaped(s, quote, r.value)) && (r.None? ==> NoneUnescaped(s, quote))
    decreases |s| - i
  {
    if i < |s| && !(s[i] == quote && !Flag(s, i)) {
      assert Flag(s, i + 1) == (s[i] == BACKSLASH && !Flag(s, i));
      ClosingFinds(s, i + 1, quote);
    }
  }

  /** The closing quotation mark is the first that is not escaped. */
  lemma ClosingIsFirst(line: string, from: nat, quote: char)
    requires from <= |line| && Quote(quote)
    ensures
      var r := Closing(line, from, quote, false);
      && (r.Some? ==> FirstUnescaped(line[from..], quote, r.value - from))
      && (r.None? ==> NoneUnescaped(line[from..], quote))
  {
    hide Closing, FirstUnescaped, NoneUnescaped;
    ClosingShifts(line, from, line[from..], 0, quote, false);
    ClosingFinds(line[from..], 0, quote);
  }

  /** The same result, `k` characters further on. */
  predicate Further(r: Option<Scanned>, r': Option<Scanned>, k: nat) {
    && (r.None? <==> r'.None?)
    && (r.Some? ==> r'.value.end == k + r.value.end && r'.value.mark == k + r.value.mark)
  }

  /** A scan does not look at what stands before its command. */
  lemma {:induction false} ScanShifts(line: string, k: nat, t: string, start: nat, i: nat, mark: nat)
    requires Tail(line, k, t) && start <= i <= |t| && mark <= i
    ensures Further(Scan(t, start, i, mark), Scan(line, k + start, k + i, k + mark), k)
    decreases |t| - i
  {
    hide Scan, Closing;
    if i == |t| || Ends(t[i]) {
      assert i < |t| ==> t[i] == line[k + i];
      ScanStops(t, start, i, mark);
      ScanStops(line, k + start, k + i, k + mark);
    } else {
      assert t[i] == line[k + i];
      if !Quote(t[i]) {
        ScanPlain(t, start, i, mark);
        ScanPlain(line, k + start, k + i, k + mark);
        ScanShifts(line, k, t, start, i + 1, mark);
      } else {
        assert start < i ==> t[i - 1] == line[k + (i - 1)];
        QuoteShifts(line, k, t, start, i, mark);
      }
    }
  }

  lemma {:induction false} QuoteShifts(line: string, k: nat, t: string, start: nat, i: nat, mark: nat)
    requires Tail(line, k, t) && start <= i < |t| && mark <= i && |line| == k + |t|
    requires Quote(t[i]) && t[i] == line[k + i] && (Escaped(t, start, i) <==> Escaped(line, k + start, k + i))
    ensures Further(Scan(t, start, i, mark), Scan(line, k + start, k + i, k + mark), k)
    decreases |t| - i, 0
  {
    hide Scan, Closing, Tail, Escaped, Further;
    if Escaped(t, start, i) {
      ScanEscaped(t, start, i, mark);
      ScanEscaped(line, k + start, k + i, k + mark);
      ScanShifts(line, k, t, start, i + 1, i + 1);
    } else {
      ScanQuoted(t, start, i, mark);
      ScanQuoted(line, k + start, k + i, k + mark);
      ClosingShifts(line, k, t, i + 1, t[i], false);
      var c := Closing(t, i + 1, t[i], false);
      if c.Some? {
        ScanShifts(line, k, t, start, c.value + 1, c.value + 1);
      } else {
        NeitherEnds(k);
      }
    }
  }

  lemma NeitherEnds(k: nat)
    ensures Further(None, None, k)
  {
  }

  /** The same commands, `k` characters further on. */
  predicate Moved(a: Pieces, b: Pieces, k: nat) {
    && a.ok == b.ok && |a.pieces| == |b.pieces|
    && forall i | 0 <= i < |a.pieces| :: PieceMoved(a.pieces[i], b.pieces[i], k)
  }

  predicate PieceMoved(p: Piece, q: Piece, k: nat) {
    q.start == p.start + k && q.end == p.end + k && q.loffs == p.loffs + k
  }

  lemma MovedBehind(p: Piece, q: Piece, a: Pieces, b: Pieces, k: nat)
    requires PieceMoved(p, q, k) && Moved(a, b, k)
    ensures Moved(Behind([p], a), Behind([q], b), k)
  {
  }

  /** A line that is read again from one of its commands on is cut into the same commands. */
  lemma {:induction false} Rereads(line: string, k: nat, t: string, start: nat)
    requires Tail(line, k, t) && start <= |t|
    ensures Moved(Commands(t, start), Commands(line, k + start), k)
    decreases |t| - start
  {
    hide Scan, Commands, Moved;
    ScanShifts(line, k, t, start, start, start);
    var r := ScanFrom(t, start);
    if r.None? {
      BadCommand(t, start);
      BadCommand(line, k + start);
      NoneMoved(k);
    } else {
      var Scanned(end, mark) := r.value;
      var p, q := Piece(start, end, mark), Piece(k + start, k + end, k + mark);
      assert end < |t| ==> t[end] == line[k + end];
      if end < |t| && t[end] == ';' {
        NextCommand(t, start, end, mark);
        NextCommand(line, k + start, k + end, k + mark);
        Rereads(line, k, t, end + 1);
        MovedBehind(p, q, Commands(t, end + 1), Commands(line, k + end + 1), k);
      } else {
        LastCommand(t, start, end, mark);
        LastCommand(line, k + start, k + end, k + mark);
        OneMoved(p, q, k);
      }
    }
  }

  lemma NoneMoved(k: nat)
    ensures Moved(Pieces([], false), Pieces([], false), k)
  {
  }

  lemma OneMoved(p: Piece, q: Piece, k: nat)
    requires PieceMoved(p, q, k)
    ensures Moved(Pieces([p], true), Pieces([q], true), k)
  {
  }

  /** The text of the first command of a line. */
  function FirstCommand(line: string): Option<string> {
    var r := ScanFrom(line, 0);
    if r.None? then None else Some(line[..r.value.end])
  }

  /** Where a loop goes back to: the command at its saved offset is the loop's head if and
      only if the head holds no quote; otherwise it is what stands behind the last one. */
  lemma HeadReturnsIff(line: string, start: nat)
    requires start <= |line| && ScanFrom(line, start).Some?
    ensures
      var Scanned(end, loffs) := ScanFrom(line, start).value;
      && FirstCommand(line[loffs..]) == Some(line[loffs..end])
      && (FirstCommand(line[loffs..]) == Some(line[start..end]) <==> QuoteFree(line, start, end))
  {
    hide Scan;
    var Scanned(end, loffs) := ScanFrom(line, start).value;
    MarkMoves(line, start, start, start);
    ScanSkips(line, loffs, loffs, end, loffs);
    ScanStops(line, loffs, end, loffs);
    ScanShifts(line, loffs, line[loffs..], 0, 0, 0);
    assert line[loffs..][..end - loffs] == line[loffs..end];
  }
}
