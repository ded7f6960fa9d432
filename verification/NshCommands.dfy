/** What a line means: commands built from plain text, quoted parts and escaped quotation
    marks, joined by semicolons, and the proof that nsh_parse cuts the line into exactly them. */
module NshCommands {
  import opened Common
  import opened NshQuote
  import opened NshLine

  /** Plain text, an escaped quotation mark, or a part in quotation marks. */
  datatype Part = Plain(text: string) | Mark(quote: char) | Quoted(quote: char, text: string)

  predicate PartFits(p: Part) {
    match p
    case Plain(text) => (forall i | 0 <= i < |text| :: !Separator(text[i])) && !EndsEscaping(text)
    case Mark(quote) => Quote(quote)
    case Quoted(quote, text) => Quote(quote) && ClosedBy(text, quote)
  }

  predicate EndsEscaping(s: string) {
    s != "" && s[|s| - 1] == BACKSLASH
  }

  predicate PartsFit(ps: seq<Part>) {
    forall i | 0 <= i < |ps| :: PartFits(ps[i])
  }

  function WriteOne(p: Part): string {
    match p
    case Plain(text) => text
    case Mark(quote) => [BACKSLASH, quote]
    case Quoted(quote, text) => [quote] + text + [quote]
  }

  function Write(ps: seq<Part>): string {
    if ps == [] then "" else WriteOne(ps[0]) + Write(ps[1..])
  }

  /** The offset a loop would go back to: just behind the last part that is not plain. */
  function BackTo(ps: seq<Part>): nat {
    if ps == [] then 0
    else
      var last := ps[|ps| - 1];
      if last.Plain? then BackTo(ps[..|ps| - 1]) else |Write(ps)|
  }

  function Line(cmds: seq<seq<Part>>, rest: string): string
    requires cmds != []
  {
    Write(cmds[0]) + if |cmds| == 1 then rest else ";" + Line(cmds[1..], rest)
  }

  /** What may follow the last command: nothing, a comment or the next line. */
  predicate Over(rest: string) {
    rest == "" || rest[0] == '#' || rest[0] == '\n'
  }

  /** The text stands at `i`, and nothing before it escapes its first character. */
  predicate StandsAt(line: string, start: nat, i: nat, text: string) {
    start <= i <= |line| && text <= line[i..] && !Escaped(line, start, i)
  }

  lemma StandsNext(line: string, start: nat, i: nat, a: string, b: string)
    requires StandsAt(line, start, i, a + b) && !EndsEscaping(a)
    ensures StandsAt(line, start, i + |a|, b)
  {
    assert line[i..][..|a| + |b|] == a + b;
    assert line[i + |a|..] == line[i..][|a|..];
    assert a != "" ==> line[i + |a| - 1] == line[i..][|a| - 1] == (a + b)[|a| - 1] == a[|a| - 1];
  }

  lemma CharsAt(line: string, start: nat, i: nat, text: string, k: nat)
    requires StandsAt(line, start, i, text) && k < |text|
    ensures i + k < |line| && line[i + k] == text[k]
  {
    assert line[i..][k] == text[k];
  }

  /** The scan passes over one part; it moves its mark behind it unless the part is plain. */
  lemma PartScans(line: string, start: nat, i: nat, mark: nat, p: Part)
    requires PartFits(p) && StandsAt(line, start, i, WriteOne(p)) && mark <= i
    ensures var j := i + |WriteOne(p)|;
            j <= |line| && Scan(line, start, i, mark) == Scan(line, start, j, if p.Plain? then mark else j)
  {
    hide Scan, StandsAt, ClosedBy;
    match p
    case Plain(text) =>
      forall k | i <= k < i + |text|
        ensures k < |line| && !Separator(line[k])
      {
        CharsAt(line, start, i, text, k - i);
      }
      StandsInside(line, start, i, text);
      ScanSkips(line, start, i, i + |text|, mark);
    case Mark(quote) =>
      MarkScans(line, start, i, mark, quote);
    case Quoted(quote, text) =>
      QuotedScans(line, start, i, mark, quote, text);
  }

  lemma StandsInside(line: string, start: nat, i: nat, text: string)
    requires StandsAt(line, start, i, text)
    ensures start <= i && i + |text| <= |line|
  {
  }

  lemma MarkScans(line: string, start: nat, i: nat, mark: nat, quote: char)
    requires Quote(quote) && StandsAt(line, start, i, [BACKSLASH, quote]) && mark <= i
    ensures i + 2 <= |line| && Scan(line, start, i, mark) == Scan(line, start, i + 2, i + 2)
  {
    hide Scan;
    var text := [BACKSLASH, quote];
    CharsAt(line, start, i, text, 0);
    CharsAt(line, start, i, text, 1);
    ScanPlain(line, start, i, mark);
    ScanEscaped(line, start, i + 1, mark);
  }

  lemma QuotedScans(line: string, start: nat, i: nat, mark: nat, quote: char, text: string)
    requires Quote(quote) && ClosedBy(text, quote) && StandsAt(line, start, i, [quote] + text + [quote]) && mark <= i
    ensures var j := i + |text| + 2;
            j <= |line| && Scan(line, start, i, mark) == Scan(line, start, j, j)
  {
    hide Scan, Closing, Flag, FirstUnescaped, NoneUnescaped, ClosedBy;
    var all := [quote] + text + [quote];
    CharsAt(line, start, i, all, 0);
    CharsAt(line, start, i, all, |all| - 1);
    ScanQuoted(line, start, i, mark);
    var body := line[i + 1..];
    BodyIs(line, start, i, quote, text);
    ClosesInside(text, quote, body[|text| + 1..]);
    ClosingIsFirst(line, i + 1, quote);
    OnlyFirst(body, quote, |text|);
  }

  lemma BodyIs(line: string, start: nat, i: nat, quote: char, text: string)
    requires StandsAt(line, start, i, [quote] + text + [quote])
    ensures i + |text| + 2 <= |line|
    ensures var body := line[i + 1..]; body == text + [quote] + body[|text| + 1..]
  {
    var all, body := [quote] + text + [quote], line[i + 1..];
    assert body == line[i..][1..] && line[i..][..|all|] == all;
    assert body[..|text| + 1] == all[1..] == text + [quote];
  }

  lemma OnlyFirst(s: string, quote: char, k: nat)
    requires FirstUnescaped(s, quote, k)
    ensures !NoneUnescaped(s, quote) && forall j | FirstUnescaped(s, quote, j) :: j == k
  {
    hide Flag;
  }

  lemma PartEnds(p: Part)
    requires PartFits(p)
    ensures !EndsEscaping(WriteOne(p))
  {
  }

  lemma {:induction false} WriteLast(ps: seq<Part>)
    requires ps != []
    ensures Write(ps) == Write(ps[..|ps| - 1]) + WriteOne(ps[|ps| - 1])
    decreases |ps|
  {
    hide WriteOne;
    var front, last := ps[..|ps| - 1], WriteOne(ps[|ps| - 1]);
    if |ps| == 1 {
      assert Write(ps) == last + Write([]) by { assert ps[1..] == []; }
      assert front == [];
    } else {
      WriteLast(ps[1..]);
      assert ps[1..][..|ps| - 2] == front[1..];
      Regroup(WriteOne(ps[0]), Write(front[1..]), last);
    }
  }

  lemma Regroup(a: string, b: string, c: string)
    ensures a + (b + c) == (a + b) + c
  {
  }

  /** The scan passes over a whole command. */
  lemma {:induction false} PartsScan(line: string, start: nat, ps: seq<Part>)
    requires PartsFit(ps) && StandsAt(line, start, start, Write(ps))
    ensures start + |Write(ps)| <= |line| && BackTo(ps) <= |Write(ps)|
    ensures ScanFrom(line, start) == Scan(line, start, start + |Write(ps)|, start + BackTo(ps))
    ensures !Escaped(line, start, start + |Write(ps)|)
    decreases |ps|
  {
    hide Scan, Write, BackTo, WriteOne, PartFits, Escaped, StandsAt;
    if ps != [] {
      var front, last := ps[..|ps| - 1], ps[|ps| - 1];
      WriteLast(ps);
      BackToLast(ps);
      StandsFront(line, start, start, Write(front), WriteOne(last));
      PartsScan(line, start, front);
      StandsBehind(line, start, start, Write(front), WriteOne(last));
      PartEnds(last);
      LastScans(line, start, start + |Write(front)|, start + BackTo(front), last);
    } else {
      NoParts();
      NotEscaped(line, start, start);
    }
  }

  lemma NoParts()
    ensures Write([]) == "" && BackTo([]) == 0
  {
  }

  lemma BackToLast(ps: seq<Part>)
    requires ps != []
    ensures BackTo(ps) == if ps[|ps| - 1].Plain? then BackTo(ps[..|ps| - 1]) else |Write(ps)|
  {
    hide Write;
  }

  lemma LastScans(line: string, start: nat, i: nat, mark: nat, p: Part)
    requires PartFits(p) && mark <= i && !EndsEscaping(WriteOne(p))
    requires StandsAt(line, start, i, WriteOne(p)) && StandsAt(line, start, i, WriteOne(p) + "")
    ensures var j := i + |WriteOne(p)|;
            && j <= |line| && !Escaped(line, start, j)
            && Scan(line, start, i, mark) == Scan(line, start, j, if p.Plain? then mark else j)
  {
    hide Scan, WriteOne, PartFits, Escaped, StandsAt;
    StandsNext(line, start, i, WriteOne(p), "");
    PartScans(line, start, i, mark, p);
    NotEscaped(line, start, i + |WriteOne(p)|);
  }

  lemma NotEscaped(line: string, start: nat, i: nat)
    requires StandsAt(line, start, i, "")
    ensures i <= |line| && !Escaped(line, start, i)
  {
  }

  lemma StandsFront(line: string, start: nat, i: nat, a: string, b: string)
    requires StandsAt(line, start, i, a + b)
    ensures StandsAt(line, start, i, a)
  {
  }

  lemma StandsBehind(line: string, start: nat, i: nat, a: string, b: string)
    requires StandsAt(line, start, i, a + b) && !Escaped(line, start, i + |a|)
    ensures StandsAt(line, start, i + |a|, b) && StandsAt(line, start, i + |a|, b + "")
  {
    assert line[i..][..|a| + |b|] == a + b;
    assert line[i + |a|..] == line[i..][|a|..];
    assert b + "" == b;
  }

  /** The piece cut out for a command written at `start`. */
  function PieceOf(ps: seq<Part>, start: nat): Piece {
    Piece(start, start + |Write(ps)|, start + BackTo(ps))
  }

  function PiecesOf(cmds: seq<seq<Part>>, start: nat): seq<Piece> {
    if cmds == [] then [] else [PieceOf(cmds[0], start)] + PiecesOf(cmds[1..], start + |Write(cmds[0])| + 1)
  }

  /** A line of commands joined by semicolons, with or without a comment or a further line
      behind them, is cut into exactly these commands, and for each the offset is recorded
      that stands behind its last quotation mark. */
  lemma {:induction false} LineIsCut(line: string, start: nat, cmds: seq<seq<Part>>, rest: string)
    requires start <= |line| && cmds != [] && (forall i | 0 <= i < |cmds| :: PartsFit(cmds[i])) && Over(rest)
    requires line[start..] == Line(cmds, rest)
    ensures Commands(line, start) == Pieces(PiecesOf(cmds, start), true)
    decreases |cmds|
  {
    hide Scan, Commands, Write, BackTo, PartsFit;
    var ps := cmds[0];
    var tail := if |cmds| == 1 then rest else ";" + Line(cmds[1..], rest);
    assert line[start..] == Write(ps) + tail;
    StandsFront(line, start, start, Write(ps), tail);
    PartsScan(line, start, ps);
    var p := PieceOf(ps, start);
    assert line[p.end..] == line[start..][|Write(ps)|..] == tail;
    assert p.end < |line| <==> tail != "";
    assert p.end < |line| ==> line[p.end] == tail[0];
    ScanStops(line, start, p.end, p.loffs);
    if |cmds| == 1 {
      LastCommand(line, start, p.end, p.loffs);
      assert PiecesOf(cmds, start) == [p] by { assert cmds[1..] == []; }
    } else {
      NextCommand(line, start, p.end, p.loffs);
      assert line[p.end + 1..] == tail[1..] == Line(cmds[1..], rest);
      LineIsCut(line, p.end + 1, cmds[1..], rest);
    }
  }

  /** Each piece holds the text of its command. */
  lemma {:induction false} PiecesHold(line: string, start: nat, cmds: seq<seq<Part>>, rest: string, k: nat)
    requires start <= |line| && cmds != [] && k < |cmds| && line[start..] == Line(cmds, rest)
    ensures |PiecesOf(cmds, start)| == |cmds|
    ensures var p := PiecesOf(cmds, start)[k];
            p.start <= p.end <= |line| && line[p.start..p.end] == Write(cmds[k])
    decreases |cmds|
  {
    hide Write, BackTo;
    var n := |Write(cmds[0])|;
    assert line[start..][..n] == Write(cmds[0]) == line[start..start + n];
    if |cmds| > 1 {
      assert line[start..][n + 1..] == Line(cmds[1..], rest) == line[start + n + 1..];
      PiecesHold(line, start + n + 1, cmds[1..], rest, if k == 0 then 0 else k - 1);
    } else {
      assert cmds[1..] == [];
    }
  }

  /** A quotation mark that nothing closes spoils its own command and those behind it; the
      commands before it are still cut. */
  lemma {:induction false} MissingQuote(line: string, start: nat, cmds: seq<seq<Part>>, ps: seq<Part>, quote: char,
                                        text: string)
    requires start <= |line| && (forall i | 0 <= i < |cmds| :: PartsFit(cmds[i])) && PartsFit(ps)
    requires Quote(quote) && NoneUnescaped(text, quote)
    requires line[start..] == Before(cmds) + Write(ps) + [quote] + text
    ensures Commands(line, start) == Pieces(PiecesOf(cmds, start), false)
    decreases |cmds|
  {
    hide Scan, Commands, Write, BackTo, PartsFit, NoneUnescaped;
    if cmds == [] {
      assert line[start..] == Write(ps) + ([quote] + text);
      QuoteMissed(line, start, ps, quote, text);
      BadCommand(line, start);
    } else {
      var head := cmds[0];
      var tail := Before(cmds[1..]) + Write(ps) + [quote] + text;
      assert line[start..] == Write(head) + (";" + tail);
      SemicolonBehind(line, start, head, tail);
      var p := PieceOf(head, start);
      NextCommand(line, start, p.end, p.loffs);
      MissingQuote(line, p.end + 1, cmds[1..], ps, quote, text);
    }
  }

  lemma QuoteMissed(line: string, start: nat, ps: seq<Part>, quote: char, text: string)
    requires start <= |line| && PartsFit(ps) && Quote(quote) && NoneUnescaped(text, quote)
    requires line[start..] == Write(ps) + ([quote] + text)
    ensures ScanFrom(line, start) == None
  {
    hide Scan, Write, BackTo, PartsFit, NoneUnescaped;
    StandsFront(line, start, start, Write(ps), [quote] + text);
    PartsScan(line, start, ps);
    var i := start + |Write(ps)|;
    assert line[i..] == line[start..][|Write(ps)|..] == [quote] + text;
    assert line[i] == line[i..][0] == quote && line[i + 1..] == line[i..][1..] == text;
    ScanQuoted(line, start, i, start + BackTo(ps));
    ClosingIsFirst(line, i + 1, quote);
    NotFirst(text, quote);
  }

  lemma SemicolonBehind(line: string, start: nat, ps: seq<Part>, tail: string)
    requires start <= |line| && PartsFit(ps) && line[start..] == Write(ps) + (";" + tail)
    ensures var p := PieceOf(ps, start);
            && p.loffs <= p.end < |line| && line[p.end] == ';' && line[p.end + 1..] == tail
            && ScanFrom(line, start) == Some(Scanned(p.end, p.loffs))
  {
    hide Scan, Write, BackTo, PartsFit;
    StandsFront(line, start, start, Write(ps), ";" + tail);
    PartsScan(line, start, ps);
    var p := PieceOf(ps, start);
    assert line[p.end..] == line[start..][|Write(ps)|..] == ";" + tail;
    assert line[p.end] == line[p.end..][0] == ';' && line[p.end + 1..] == line[p.end..][1..] == tail;
    ScanStops(line, start, p.end, p.loffs);
  }

  lemma NotFirst(s: string, quote: char)
    requires NoneUnescaped(s, quote)
    ensures forall j :: !FirstUnescaped(s, quote, j)
  {
    hide Flag;
  }

  /** Commands, each with the semicolon behind it. */
  function Before(cmds: seq<seq<Part>>): string {
    if cmds == [] then "" else Write(cmds[0]) + ";" + Before(cmds[1..])
  }
}
