/** What an argument means: literal text, commands and variables side by side, rendered as a
    user writes them, and the proof that argument expansion evaluates them from left to right. */
module NshArgument {
  import opened Common
  import opened NshQuote
  import opened NshExpand

  const SPECIAL: set<char> := {'`', '$', BACKSLASH}

  datatype Piece = Text(text: string) | Command(line: string) | Variable(name: string)

  predicate PieceFits(p: Piece) {
    match p
    case Text(_) => true
    case Command(line) => ClosedBy(line, '`')
    case Variable(name) => ClosedBy(name, '}')
  }

  predicate PiecesFit(ps: seq<Piece>) {
    forall i | 0 <= i < |ps| :: PieceFits(ps[i])
  }

  function RenderOne(p: Piece): string {
    match p
    case Text(text) => Escape(text, SPECIAL)
    case Command(line) => "`" + line + "`"
    case Variable(name) => "${" + name + "}"
  }

  function Render(ps: seq<Piece>): string {
    if ps == [] then "" else RenderOne(ps[0]) + Render(ps[1..])
  }

  /** What a piece stands for, and the world behind it: only commands change the world. */
  function EvaluateOne<W>(o: Outside<W>, w: W, p: Piece): (W, string) {
    match p
    case Text(text) => (w, Escape(text, SPECIAL))
    case Command(line) => o.command(w, line)
    case Variable(name) => (w, o.variable(w, name))
  }

  function Evaluate<W>(o: Outside<W>, w: W, ps: seq<Piece>): (W, string)
    decreases |ps|
  {
    if ps == [] then (w, "")
    else
      var (w', first) := EvaluateOne(o, w, ps[0]);
      var (w'', rest) := Evaluate(o, w', ps[1..]);
      (w'', first + rest)
  }

  // ---- Literal text in front ----

  /** Nothing in the text is special, and it does not escape what follows. */
  predicate Quiet(e: string) {
    !Flag(e, |e|) && forall j | 0 <= j < |e| :: IsSeparator(e[j]) ==> Flag(e, j)
  }

  lemma {:induction false} FlagBehind(e: string, t: string, i: nat)
    requires !Flag(e, |e|) && i <= |t|
    ensures Flag(e + t, |e| + i) == Flag(t, i)
    decreases i
  {
    if i == 0 {
      FlagPrefix(e + t, e, |e|);
    } else {
      FlagBehind(e, t, i - 1);
      assert (e + t)[|e| + i - 1] == t[i - 1];
    }
  }

  lemma SpecialBehind(e: string, t: string)
    requires Quiet(e)
    ensures Special(e + t, 0) == |e| + Special(t, 0)
  {
    hide Flag, Run;
    var s, k := e + t, Special(t, 0);
    forall j | 0 <= j < |e| && IsSeparator(s[j])
      ensures Run(s, j) % 2 == 1
    {
      FlagPrefix(s, e, j);
      EscapeAgreement(s, j);
    }
    forall i | 0 <= i <= |t|
      ensures Run(s, |e| + i) % 2 == Run(t, i) % 2
    {
      FlagBehind(e, t, i);
      EscapeAgreement(s, |e| + i);
      EscapeAgreement(t, i);
    }
    forall j | |e| <= j < |e| + k && IsSeparator(s[j])
      ensures Run(s, j) % 2 == 1
    {
      assert s[j] == t[j - |e|] && Run(s, |e| + (j - |e|)) % 2 == Run(t, j - |e|) % 2;
    }
    SpecialIs(s, 0, |e| + k);
  }

  /** The expansion up to the first special character is the text itself. */
  lemma ExpandsFrom<W>(o: Outside<W>, w: W, s: string, k: nat)
    requires k == Special(s, 0) < |s|
    ensures Expand(o, w, s) == Prepend(s[..k], Expand(o, w, s[k..]))
  {
    hide Expand, Special, Prepend;
    SpecialIsSeparator(s);
    AtOnce(s, k);
    if s[k] == '`' {
      CommandFrom(o, w, s, k);
    } else if k + 1 < |s| && s[k + 1] == '{' {
      BracedFrom(o, w, s, k);
    } else {
      BareFrom(o, w, s, k);
    }
  }

  lemma CommandFrom<W>(o: Outside<W>, w: W, s: string, k: nat)
    requires k == Special(s, 0) < |s| && Special(s[k..], 0) == 0 && s[k] == '`'
    ensures Expand(o, w, s) == Prepend(s[..k], Expand(o, w, s[k..]))
  {
    hide FindUnescaped, Special, Prepend, Expand;
    var body := s[k + 1..];
    assert s[k..][0] == s[k] && s[k..][1..] == body && s[k..][..0] == "";
    CommandIs(o, w, s, k);
    CommandIs(o, w, s[k..], 0);
    var end := FindUnescaped(body, '`', 0);
    if end.Some? {
      var out := o.command(w, body[..end.value]);
      FrontTwice(s[..k], out.1, Expand(o, out.0, body[end.value + 1..]));
    } else {
      NothingInFront(s[..k], w);
    }
  }

  lemma CommandIs<W>(o: Outside<W>, w: W, s: string, k: nat)
    requires k == Special(s, 0) < |s| && s[k] == '`'
    ensures var body := s[k + 1..];
            var end := FindUnescaped(body, '`', 0);
            Expand(o, w, s) ==
              if end.None? then Expanded(w, None)
              else
                var out := o.command(w, body[..end.value]);
                Prepend(s[..k] + out.1, Expand(o, out.0, body[end.value + 1..]))
  {
    hide FindUnescaped, Special, Prepend;
  }

  lemma BracedFrom<W>(o: Outside<W>, w: W, s: string, k: nat)
    requires k == Special(s, 0) && Special(s[k..], 0) == 0 && k + 1 < |s| && s[k] == '$' && s[k + 1] == '{'
    ensures Expand(o, w, s) == Prepend(s[..k], Expand(o, w, s[k..]))
  {
    hide FindUnescaped, Special, Prepend, Expand;
    var body := s[k + 2..];
    assert s[k..][0] == s[k] && s[k..][1] == s[k + 1] && s[k..][2..] == body && s[k..][..0] == "";
    BracedIs(o, w, s, k);
    BracedIs(o, w, s[k..], 0);
    var end := FindUnescaped(body, '}', 0);
    if end.Some? {
      FrontTwice(s[..k], o.variable(w, body[..end.value]), Expand(o, w, body[end.value + 1..]));
    } else {
      NothingInFront(s[..k], w);
    }
  }

  lemma BracedIs<W>(o: Outside<W>, w: W, s: string, k: nat)
    requires k == Special(s, 0) && k + 1 < |s| && s[k] == '$' && s[k + 1] == '{'
    ensures var body := s[k + 2..];
            var end := FindUnescaped(body, '}', 0);
            Expand(o, w, s) ==
              if end.None? then Expanded(w, None)
              else Prepend(s[..k] + o.variable(w, body[..end.value]), Expand(o, w, body[end.value + 1..]))
  {
    hide FindUnescaped, Special, Prepend;
  }

  lemma BareFrom<W>(o: Outside<W>, w: W, s: string, k: nat)
    requires k == Special(s, 0) < |s| && Special(s[k..], 0) == 0 && s[k] == '$'
    requires !(k + 1 < |s| && s[k + 1] == '{')
    ensures Expand(o, w, s) == Prepend(s[..k], Expand(o, w, s[k..]))
  {
    hide FindUnescaped, Special, Prepend;
    var t := s[k..];
    assert t[0] == s[k] && t[1..] == s[k + 1..] && t[..0] == "" && (|t| > 1 ==> t[1] == s[k + 1]);
    BareInFront(s[..k], w, o.variable(w, s[k + 1..]));
  }

  lemma AtOnce(s: string, k: nat)
    requires k == Special(s, 0) < |s|
    ensures Special(s[k..], 0) == 0
  {
    SpecialIs(s[k..], 0, 0);
  }

  lemma FrontTwice<W>(front: string, add: string, e: Expanded<W>)
    ensures Prepend(front + add, e) == Prepend(front, Prepend("" + add, e))
  {
    assert "" + add == add;
    PrependTwice(front, add, e);
  }

  lemma NothingInFront<W>(front: string, w: W)
    ensures Prepend(front, Expanded(w, None)) == Expanded(w, None)
  {
  }

  lemma BareInFront<W>(front: string, w: W, value: string)
    ensures Prepend(front, Expanded(w, Some("" + value))) == Expanded(w, Some(front + value))
  {
    assert "" + value == value;
  }

  lemma TextInFront<W>(o: Outside<W>, w: W, e: string, t: string)
    requires Quiet(e)
    ensures Expand(o, w, e + t) == Prepend(e, Expand(o, w, t))
  {
    hide Flag, Run, Special, Expand;
    var s, k := e + t, Special(t, 0);
    SpecialBehind(e, t);
    if k < |t| {
      ExpandsFrom(o, w, t, k);
      ExpandsFrom(o, w, s, |e| + k);
      assert s[..|e| + k] == e + t[..k] && s[|e| + k..] == t[k..];
      PrependTwice(e, t[..k], Expand(o, w, t[k..]));
    } else {
      PlainExpands(o, w, t);
      PlainExpands(o, w, s);
    }
  }

  // ---- Pieces ----

  /** A piece at the front is replaced by what it stands for. */
  lemma PieceExpands<W>(o: Outside<W>, w: W, p: Piece, t: string)
    requires PieceFits(p)
    ensures var (w', add) := EvaluateOne(o, w, p);
            Expand(o, w, RenderOne(p) + t) == Prepend(add, Expand(o, w', t))
  {
    hide Expand, Prepend, Escape, ClosedBy;
    match p
    case Text(text) =>
      EscapedIsQuiet(text, SPECIAL);
      TextInFront(o, w, Escape(text, SPECIAL), t);
    case Command(line) =>
      CommandInFront(o, w, line, t);
    case Variable(name) =>
      VariableInFront(o, w, name, t);
  }

  lemma CommandInFront<W>(o: Outside<W>, w: W, line: string, t: string)
    requires ClosedBy(line, '`')
    ensures Expand(o, w, "`" + line + "`" + t) == Prepend(o.command(w, line).1, Expand(o, o.command(w, line).0, t))
  {
    hide Special, Expand, FirstUnescaped, Prepend;
    var s := "`" + line + "`" + t;
    SpecialFirst(s);
    assert s[1..] == line + "`" + t;
    ClosesInside(line, '`', t);
    CommandExpands(o, w, s, 0, |line|);
    assert s[1..][..|line|] == line && s[1..][|line| + 1..] == t;
    assert s[..0] + o.command(w, line).1 == o.command(w, line).1;
  }

  lemma VariableInFront<W>(o: Outside<W>, w: W, name: string, t: string)
    requires ClosedBy(name, '}')
    ensures Expand(o, w, "${" + name + "}" + t) == Prepend(o.variable(w, name), Expand(o, w, t))
  {
    hide Special, Expand, FirstUnescaped, Prepend;
    var s := "${" + name + "}" + t;
    SpecialFirst(s);
    assert s[2..] == name + "}" + t && s[1] == '{';
    ClosesInside(name, '}', t);
    VariableExpands(o, w, s, 0, |name|);
    assert s[2..][..|name|] == name && s[2..][|name| + 1..] == t;
    assert s[..0] + o.variable(w, name) == o.variable(w, name);
  }

  lemma SpecialFirst(s: string)
    requires s != "" && IsSeparator(s[0])
    ensures Special(s, 0) == 0
  {
  }

  /** Any pieces in front of any text: they are evaluated from left to right, each in the
      world the commands before it left, and the text behind them is expanded in the last. */
  lemma {:induction false} PiecesExpand<W>(o: Outside<W>, w: W, ps: seq<Piece>, t: string)
    requires PiecesFit(ps)
    ensures var (w', text) := Evaluate(o, w, ps);
            Expand(o, w, Render(ps) + t) == Prepend(text, Expand(o, w', t))
    decreases |ps|
  {
    hide Expand, Prepend, RenderOne, EvaluateOne, PieceFits;
    if ps == [] {
      assert "" + t == t;
      EmptyPrepend(Expand(o, w, t));
    } else {
      var (w', first) := EvaluateOne(o, w, ps[0]);
      var (w'', rest) := Evaluate(o, w', ps[1..]);
      PieceExpands(o, w, ps[0], Render(ps[1..]) + t);
      assert RenderOne(ps[0]) + Render(ps[1..]) + t == RenderOne(ps[0]) + (Render(ps[1..]) + t);
      PiecesExpand(o, w', ps[1..], t);
      PrependTwice(first, rest, Expand(o, w'', t));
    }
  }

  /** An argument of pieces that ends with them, or with a variable without braces, whose
      name reaches to the end. */
  lemma ArgumentMeans<W>(o: Outside<W>, w: W, ps: seq<Piece>, name: string)
    requires PiecesFit(ps)
    ensures var (w', text) := Evaluate(o, w, ps);
            && Expand(o, w, Render(ps)) == Expanded(w', Some(text))
            && (!("{" <= name) ==>
                  Expand(o, w, Render(ps) + "$" + name) == Expanded(w', Some(text + o.variable(w', name))))
  {
    hide Expand, Evaluate, Render, PiecesFit;
    var (w', text) := Evaluate(o, w, ps);
    PiecesExpand(o, w, ps, "");
    EmptyExpands(o, w');
    assert Render(ps) + "" == Render(ps) && text + "" == text;
    if !("{" <= name) {
      PiecesExpand(o, w, ps, "$" + name);
      assert Render(ps) + "$" + name == Render(ps) + ("$" + name);
      BareAlone(o, w', name);
    }
  }

  lemma BareAlone<W>(o: Outside<W>, w: W, name: string)
    requires !("{" <= name)
    ensures Expand(o, w, "$" + name) == Expanded(w, Some(o.variable(w, name)))
  {
    hide Expand, Special;
    var t := "$" + name;
    SpecialFirst(t);
    assert t[1..] == name && t[..0] == "" && (name != "" ==> t[1] == name[0] && name[0] != '{');
    BareVariableExpands(o, w, t, 0);
    EmptyExpands(o, w);
    var value := o.variable(w, name);
    assert "" + value == value && value + "" == value;
  }

  /** A delimiter that is not matched gives the argument up, but the commands before it have
      been run. */
  lemma UnmatchedGivesUp<W>(o: Outside<W>, w: W, ps: seq<Piece>, rest: string)
    requires PiecesFit(ps)
    ensures NoneUnescaped(rest, '`') ==>
              Expand(o, w, Render(ps) + ("`" + rest)) == Expanded(Evaluate(o, w, ps).0, None)
    ensures NoneUnescaped(rest, '}') ==>
              Expand(o, w, Render(ps) + ("${" + rest)) == Expanded(Evaluate(o, w, ps).0, None)
  {
    hide Expand, NoneUnescaped;
    var w' := Evaluate(o, w, ps).0;
    var a, b := "`" + rest, "${" + rest;
    PiecesExpand(o, w, ps, a);
    PiecesExpand(o, w, ps, b);
    SpecialFirst(a);
    SpecialFirst(b);
    assert a[1..] == rest && b[2..] == rest && b[1] == '{';
    if NoneUnescaped(rest, '`') {
      UnmatchedExpands(o, w', a, 0);
    }
    if NoneUnescaped(rest, '}') {
      UnmatchedExpands(o, w', b, 0);
    }
  }

  // ---- Without backslashes ----

  /** What a user means by the pieces: texts as they are. */
  function Plain<W>(o: Outside<W>, w: W, ps: seq<Piece>): string
    decreases |ps|
  {
    if ps == [] then ""
    else
      var (w', first) := EvaluateOne(o, w, ps[0]);
      (if ps[0].Text? then ps[0].text else first) + Plain(o, w', ps[1..])
  }

  /** No command output and no value brings in a backslash. */
  predicate NoBackslash<W>(o: Outside<W>, w: W, ps: seq<Piece>)
    decreases |ps|
  {
    ps != [] ==>
      var (w', first) := EvaluateOne(o, w, ps[0]);
      (ps[0].Text? || BACKSLASH !in first) && NoBackslash(o, w', ps[1..])
  }

  lemma UnescapeFirst(c: char, t: string)
    ensures Unescape([BACKSLASH, c] + t) == [c] + Unescape(t)
    ensures c != BACKSLASH ==> Unescape([c] + t) == [c] + Unescape(t)
  {
    assert ([BACKSLASH, c] + t)[2..] == t && ([c] + t)[1..] == t;
  }

  lemma {:induction false} UnescapeEscaped(text: string, t: string)
    ensures Unescape(Escape(text, SPECIAL) + t) == text + Unescape(t)
    decreases |text|
  {
    hide Unescape;
    if text == "" {
      assert Escape(text, SPECIAL) + t == t;
    } else {
      UnescapeEscaped(text[1..], t);
      var e := Escape(text[1..], SPECIAL) + t;
      UnescapeFirst(text[0], e);
      assert Escape(text, SPECIAL) + t == (if text[0] in SPECIAL then [BACKSLASH, text[0]] else [text[0]]) + e;
      assert [text[0]] + (text[1..] + Unescape(t)) == text + Unescape(t);
    }
  }

  lemma {:induction false} UnescapeLiteral(text: string, t: string)
    requires BACKSLASH !in text
    ensures Unescape(text + t) == text + Unescape(t)
    decreases |text|
  {
    hide Unescape;
    if text == "" {
      assert text + t == t;
    } else {
      UnescapeLiteral(text[1..], t);
      UnescapeFirst(text[0], text[1..] + t);
      assert text + t == [text[0]] + (text[1..] + t);
      assert [text[0]] + (text[1..] + Unescape(t)) == text + Unescape(t);
    }
  }

  lemma {:induction false} UnescapePieces<W>(o: Outside<W>, w: W, ps: seq<Piece>)
    requires NoBackslash(o, w, ps)
    ensures Unescape(Evaluate(o, w, ps).1) == Plain(o, w, ps)
    decreases |ps|
  {
    hide Unescape, Escape;
    if ps != [] {
      var (w', first) := EvaluateOne(o, w, ps[0]);
      var rest := Evaluate(o, w', ps[1..]).1;
      UnescapePieces(o, w', ps[1..]);
      if ps[0].Text? {
        UnescapeEscaped(ps[0].text, rest);
      } else {
        UnescapeLiteral(first, rest);
      }
    } else {
      UnescapeFixed("");
    }
  }

  /** Where no value brings in a backslash, the argument a command receives is exactly what
      the pieces mean. */
  lemma ArgumentIsMeaning<W>(o: Outside<W>, w: W, ps: seq<Piece>)
    requires PiecesFit(ps) && NoBackslash(o, w, ps)
    ensures Argument(Expand(o, w, Render(ps))) == Plain(o, w, ps)
  {
    hide Expand, Evaluate, NoBackslash;
    ArgumentMeans(o, w, ps, "");
    UnescapePieces(o, w, ps);
  }
}
