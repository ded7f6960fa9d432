/** Argument expansion: nsh_argexpand of apps/nshlib/nsh_parse.c, with the ARGCAT, QUOTE,
    CMDPARMS and variable options on, against a recursive definition. */
module NshExpand {
  import opened Common
  import opened NshQuote

  /** What lies outside: the output of a back-quoted command, which may change the world,
      and the value of a variable.  Both are C strings. */
  datatype Outside<!W> = Outside(command: (W, string) -> (W, string), variable: (W, string) -> string)

  ghost predicate OutsideOk<W(!new)>(o: Outside<W>) {
    forall w: W, s: string :: NUL !in o.command(w, s).1 && NUL !in o.variable(w, s)
  }

  predicate IsSeparator(c: char) {
    c == '`' || c == '$'
  }

  /** The first place from `i` on where a back-quote or dollar stands unescaped. */
  function Special(s: string, i: nat): (k: nat)
    requires i <= |s|
    ensures i <= k <= |s|
    ensures k < |s| ==> IsSeparator(s[k]) && Run(s, k) % 2 == 0
    ensures forall j | i <= j < k :: IsSeparator(s[j]) ==> Run(s, j) % 2 == 1
    decreases |s| - i
  {
    if i == |s| || (IsSeparator(s[i]) && Run(s, i) % 2 == 0) then i else Special(s, i + 1)
  }

  function FindUnescaped(s: string, ch: char, i: nat): (r: Option<nat>)
    requires i <= |s|
    ensures r.Some? ==> i <= r.value < |s|
    decreases |s| - i
  {
    if i == |s| then None
    else if s[i] == ch && !Flag(s, i) then Some(i)
    else FindUnescaped(s, ch, i + 1)
  }

  /** The expanded text, or nothing when a delimiter is unmatched, and the world after. */
  datatype Expanded<W> = Expanded(world: W, text: Option<string>)

  function Prepend<W>(front: string, e: Expanded<W>): Expanded<W> {
    if e.text.Some? then e.(text := Some(front + e.text.value)) else e
  }

  function Expand<W>(o: Outside<W>, w: W, s: string): Expanded<W>
    decreases |s|
  {
    var k := Special(s, 0);
    if k == |s| then Expanded(w, Some(s))
    else if s[k] == '`' then
      var body := s[k + 1..];
      var end := FindUnescaped(body, '`', 0);
      if end.None? then Expanded(w, None)
      else
        var out := o.command(w, body[..end.value]);
        Prepend(s[..k] + out.1, Expand(o, out.0, body[end.value + 1..]))
    else if k + 1 < |s| && s[k + 1] == '{' then
      var body := s[k + 2..];
      var end := FindUnescaped(body, '}', 0);
      if end.None? then Expanded(w, None)
      else Prepend(s[..k] + o.variable(w, body[..end.value]), Expand(o, w, body[end.value + 1..]))
    else Expanded(w, Some(s[..k] + o.variable(w, s[k + 1..])))
  }

  /** The argument: the expansion with escapes removed, or the empty string. */
  function Argument<W>(e: Expanded<W>): string {
    if e.text.Some? then Unescape(e.text.value) else ""
  }

  lemma {:induction false} FindIsFirst(s: string, ch: char, i: nat, k: nat)
    requires i <= k < |s| && FirstUnescaped(s, ch, k)
    ensures FindUnescaped(s, ch, i) == Some(k)
    decreases |s| - i
  {
    if i < k {
      FindIsFirst(s, ch, i + 1, k);
    }
  }

  lemma {:induction false} FindIsNone(s: string, ch: char, i: nat)
    requires i <= |s| && NoneUnescaped(s, ch)
    ensures FindUnescaped(s, ch, i) == None
    decreases |s| - i
  {
    if i < |s| {
      FindIsNone(s, ch, i + 1);
    }
  }

  lemma {:induction false} SpecialIs(s: string, i: nat, k: nat)
    requires i <= k <= |s|
    requires k < |s| ==> IsSeparator(s[k]) && Run(s, k) % 2 == 0
    requires forall j | i <= j < k :: IsSeparator(s[j]) ==> Run(s, j) % 2 == 1
    ensures Special(s, i) == k
    decreases |s| - i
  {
    if i < k {
      SpecialIs(s, i + 1, k);
    }
  }

  /** strcspn for the separators: the next one at or behind `i`, or the end. */
  method NextSeparator(a: array<char>, from: nat, i: nat, ghost s: string) returns (k: nat)
    requires CStr(a[..], from, s) && i <= |s|
    ensures i <= k <= |s| && (k < |s| ==> IsSeparator(s[k]))
    ensures forall j | i <= j < k :: !IsSeparator(s[j])
  {
    k := i;
    CStrAt(a[..], from, s, k);
    while a[from + k] != NUL && !IsSeparator(a[from + k])
      invariant i <= k <= |s|
      invariant a[from + k] == (if k < |s| then s[k] else NUL) && (a[from + k] == NUL <==> k == |s|)
      invariant forall j | i <= j < k :: !IsSeparator(s[j])
      decreases |s| - k
    {
      k := k + 1;
      CStrAt(a[..], from, s, k);
    }
  }

  /** Counts the backslashes before `len` and tells whether their number is odd. */
  method CountBack(a: array<char>, from: nat, len: nat, ghost s: string) returns (quoted: bool)
    requires CStr(a[..], from, s) && len <= |s|
    ensures quoted <==> Run(s, len) % 2 == 1
  {
    var bcount := 0;
    quoted := false;
    while bcount < len && a[from + (len - bcount) - 1] == BACKSLASH
      invariant bcount <= len
      invariant Run(s, len) == bcount + Run(s, len - bcount)
      invariant quoted <==> bcount % 2 == 1
      decreases len - bcount
    {
      CStrAt(a[..], from, s, len - bcount - 1);
      quoted := !quoted;
      bcount := bcount + 1;
    }
    if bcount < len {
      CStrAt(a[..], from, s, len - bcount - 1);
    }
  }

  /** The search of nsh_argexpand for something interesting that is not quoted. */
  method FindSpecial(a: array<char>, from: nat, ghost s: string) returns (len: nat)
    requires CStr(a[..], from, s)
    ensures len == Special(s, 0)
  {
    len := NextSeparator(a, from, 0, s);
    CStrAt(a[..], from, s, len);
    while len > 0 && a[from + len] != NUL
      invariant len <= |s| && (len < |s| ==> IsSeparator(s[len])) && (a[from + len] == NUL <==> len == |s|)
      invariant forall j | 0 <= j < len :: IsSeparator(s[j]) ==> Run(s, j) % 2 == 1
      decreases |s| - len
    {
      var quoted := CountBack(a, from, len, s);
      if !quoted {
        break;
      }
      len := NextSeparator(a, from, len + 1, s);
      CStrAt(a[..], from, s, len);
    }
    SpecialIs(s, 0, len);
  }

  lemma PrependTwice<W>(a: string, b: string, e: Expanded<W>)
    ensures Prepend(a, Prepend(b, e)) == Prepend(a + b, e)
  {
    if e.text.Some? {
      assert a + (b + e.text.value) == (a + b) + e.text.value;
    }
  }

  /** Writing a NUL in front of a string leaves the string alone. */
  lemma CutBefore(a: seq<char>, b: seq<char>, i: nat, k: nat, s: string)
    requires CStr(a, i, s) && k < i && |b| == |a| && b == a[k := NUL]
    ensures CStr(b, i, s)
  {
    assert b[i..i + |s|] == a[i..i + |s|];
  }

  /** The text between two places of a string in the buffer. */
  lemma Between(a: seq<char>, i: nat, s: string, k: nat)
    requires CStr(a, i, s) && k <= |s|
    ensures a[i..i + k] == s[..k]
  {
    assert a[i..i + k] == a[i..i + |s|][..k];
  }

  /** The body of a reference: behind the back-quote, or behind the opening brace. */
  function BodyStart(s: string, len: nat): (k: nat)
    requires len < |s|
    ensures len < k <= |s|
  {
    if s[len] == '$' && len + 1 < |s| && s[len + 1] == '{' then len + 2 else len + 1
  }

  predicate Delimited(s: string, len: nat)
    requires len < |s|
  {
    s[len] == '`' || (s[len] == '$' && BodyStart(s, len) == len + 2)
  }

  function Closer(s: string, len: nat): char
    requires len < |s|
  {
    if s[len] == '`' then '`' else '}'
  }

  lemma UnmatchedExpands<W>(o: Outside<W>, w: W, s: string, len: nat)
    requires len == Special(s, 0) < |s| && Delimited(s, len)
    requires NoneUnescaped(s[BodyStart(s, len)..], Closer(s, len))
    ensures Expand(o, w, s) == Expanded(w, None)
  {
    hide Special, Run, Flag;
    FindIsNone(s[BodyStart(s, len)..], Closer(s, len), 0);
  }

  lemma CommandExpands<W>(o: Outside<W>, w: W, s: string, len: nat, j: nat)
    requires len == Special(s, 0) < |s| && s[len] == '`' && FirstUnescaped(s[len + 1..], '`', j)
    ensures
      var body := s[len + 1..];
      var out := o.command(w, body[..j]);
      Expand(o, w, s) == Prepend(s[..len] + out.1, Expand(o, out.0, body[j + 1..]))
  {
    hide Special, Run, Flag;
    FindIsFirst(s[len + 1..], '`', 0, j);
  }

  lemma VariableExpands<W>(o: Outside<W>, w: W, s: string, len: nat, j: nat)
    requires len == Special(s, 0) < |s| && s[len] == '$' && BodyStart(s, len) == len + 2
    requires FirstUnescaped(s[len + 2..], '}', j)
    ensures
      var body := s[len + 2..];
      Expand(o, w, s) == Prepend(s[..len] + o.variable(w, body[..j]), Expand(o, w, body[j + 1..]))
  {
    hide Special, Run, Flag;
    FindIsFirst(s[len + 2..], '}', 0, j);
  }

  lemma BareVariableExpands<W>(o: Outside<W>, w: W, s: string, len: nat)
    requires len == Special(s, 0) < |s| && s[len] == '$' && BodyStart(s, len) == len + 1
    ensures Expand(o, w, s) == Prepend(s[..len] + o.variable(w, s[len + 1..]), Expand(o, w, []))
  {
    hide Special, Run, Flag;
    EmptyExpands(o, w);
    var text := s[..len] + o.variable(w, s[len + 1..]);
    assert text + [] == text;
  }

  lemma PieceOk(s: string, add: string, k: nat)
    requires NUL !in s && NUL !in add && k <= |s|
    ensures NUL !in s[..k] + add && NUL !in s[k..]
  {
  }

  /** Finds the closing delimiter of the string at `ptr` and ends the string there. */
  method CutAtClosing(line: array<char>, ptr: nat, close: char, ghost body: string)
    returns (end: Option<nat>, piece: string)
    requires CStr(line[..], ptr, body) && close != BACKSLASH && close != NUL
    modifies line
    ensures end.None? ==> NoneUnescaped(body, close)
    ensures end.Some? ==>
              && FirstUnescaped(body, close, end.value) && end.value < |body| && piece == body[..end.value]
              && CStr(line[..], ptr + end.value + 1, body[end.value + 1..])
  {
    hide Flag, CStr, FirstUnescaped, NoneUnescaped;
    CStrEnds(line[..], ptr, body);
    piece := "";
    end := StrChr(line, ptr, close, body);
    if end.Some? {
      var j := end.value;
      FirstIsInside(body, close, j);
      CStrTail(line[..], ptr, body, j + 1);
      Between(line[..], ptr, body, j);
      piece := line[ptr..ptr + j];
      ghost var was := line[..];
      line[ptr + j] := NUL;
      CutBefore(was, line[..], ptr + j + 1, ptr + j, body[j + 1..]);
    }
  }

  /** A back-quoted command at `len`: `add` is its output with the text before it. */
  method BackQuote<W(!new)>(line: array<char>, working: nat, len: nat, ghost s: string, o: Outside<W>, w: W)
    returns (matched: bool, next: nat, add: string, w': W, ghost left: string)
    requires CStr(line[..], working, s) && OutsideOk(o)
    requires len == Special(s, 0) < |s| && s[len] == '`'
    modifies line
    ensures !matched ==> Expand(o, w, s) == Expanded(w, None) && w' == w
    ensures matched ==> CStr(line[..], next, left) && |left| < |s| && NUL !in add
    ensures matched ==> Expand(o, w, s) == Prepend(add, Expand(o, w', left))
  {
    hide Special, Run, Flag, Expand, FirstUnescaped, NoneUnescaped, CStr;
    CStrEnds(line[..], working, s);
    ghost var body := s[len + 1..];
    var ptr := working + len + 1;
    CStrTail(line[..], working, s, len + 1);
    Between(line[..], working, s, len);
    add := line[working..working + len];
    ghost var was := line[..];
    line[working + len] := NUL;
    CutBefore(was, line[..], ptr, working + len, body);
    next, w', left := ptr, w, body;
    var end, command := CutAtClosing(line, ptr, '`', body);
    matched := end.Some?;
    if end.None? {
      UnmatchedExpands(o, w, s, len);
      return;
    }
    var j := end.value;
    CommandExpands(o, w, s, len, j);
    var out := o.command(w, command);
    PieceOk(s, out.1, len);
    left := body[j + 1..];
    next, add, w' := ptr + j + 1, add + out.1, out.0;
  }

  /** A variable reference in braces at `len`. */
  method Braces<W(!new)>(line: array<char>, working: nat, len: nat, ghost s: string, o: Outside<W>, w: W)
    returns (matched: bool, next: nat, add: string, ghost left: string)
    requires CStr(line[..], working, s) && OutsideOk(o)
    requires len == Special(s, 0) < |s| && s[len] == '$' && BodyStart(s, len) == len + 2
    modifies line
    ensures !matched ==> Expand(o, w, s) == Expanded(w, None)
    ensures matched ==> CStr(line[..], next, left) && |left| < |s| && NUL !in add
    ensures matched ==> Expand(o, w, s) == Prepend(add, Expand(o, w, left))
  {
    hide Special, Run, Flag, Expand, FirstUnescaped, NoneUnescaped, CStr;
    CStrEnds(line[..], working, s);
    ghost var body := s[len + 2..];
    var ptr := working + len + 2;
    CStrTail(line[..], working, s, len + 2);
    Between(line[..], working, s, len);
    add := line[working..working + len];
    ghost var was := line[..];
    line[working + len] := NUL;
    CutBefore(was, line[..], ptr, working + len, body);
    next, left := ptr, body;
    var end, name := CutAtClosing(line, ptr, '}', body);
    matched := end.Some?;
    if end.None? {
      UnmatchedExpands(o, w, s, len);
      return;
    }
    var j := end.value;
    VariableExpands(o, w, s, len, j);
    var value := o.variable(w, name);
    PieceOk(s, value, len);
    left := body[j + 1..];
    next, add := ptr + j + 1, add + value;
  }

  /** A variable reference without braces: the name goes to the end of the argument. */
  method Bare<W(!new)>(line: array<char>, working: nat, len: nat, ghost s: string, o: Outside<W>, w: W)
    returns (next: nat, add: string)
    requires CStr(line[..], working, s) && OutsideOk(o)
    requires len == Special(s, 0) < |s| && s[len] == '$' && BodyStart(s, len) == len + 1
    modifies line
    ensures CStr(line[..], next, []) && NUL !in add
    ensures Expand(o, w, s) == Prepend(add, Expand(o, w, []))
  {
    hide Special, Run, Flag, Expand, CStr;
    CStrEnds(line[..], working, s);
    ghost var name := s[len + 1..];
    var ptr := working + len + 1;
    CStrTail(line[..], working, s, len + 1);
    Between(line[..], working, s, len);
    add := line[working..working + len];
    ghost var was := line[..];
    line[working + len] := NUL;
    CutBefore(was, line[..], ptr, working + len, name);
    var n := StrLen(line, ptr, name);
    Between(line[..], ptr, name, n);
    CStrTail(line[..], ptr, name, n);
    assert name[..n] == name && name[n..] == [];
    var value := o.variable(w, line[ptr..ptr + n]);
    PieceOk(s, value, len);
    BareVariableExpands(o, w, s, len);
    next, add := ptr + n, add + value;
  }

  /** A variable reference at `len`, with or without braces. */
  method Dollar<W(!new)>(line: array<char>, working: nat, len: nat, ghost s: string, o: Outside<W>, w: W)
    returns (matched: bool, next: nat, add: string, ghost left: string)
    requires CStr(line[..], working, s) && OutsideOk(o)
    requires len == Special(s, 0) < |s| && s[len] == '$'
    modifies line
    ensures !matched ==> Expand(o, w, s) == Expanded(w, None)
    ensures matched ==> CStr(line[..], next, left) && |left| < |s| && NUL !in add
    ensures matched ==> Expand(o, w, s) == Prepend(add, Expand(o, w, left))
  {
    hide Special, Run, Flag, Expand;
    CStrAt(line[..], working, s, len + 1);
    if line[working + len + 1] == '{' {
      matched, next, add, left := Braces(line, working, len, s, o, w);
    } else {
      matched, left := true, [];
      next, add := Bare(line, working, len, s, o, w);
    }
  }

  lemma FirstIsInside(s: string, ch: char, k: nat)
    requires FirstUnescaped(s, ch, k)
    ensures k < |s|
  {
  }

  lemma EmptyExpands<W>(o: Outside<W>, w: W)
    ensures Expand(o, w, []) == Expanded(w, Some([]))
  {
  }

  method StrLen(a: array<char>, i: nat, ghost s: string) returns (n: nat)
    requires CStr(a[..], i, s)
    ensures n == |s|
  {
    n := 0;
    CStrAt(a[..], i, s, 0);
    while a[i + n] != NUL
      invariant n <= |s| && (a[i + n] == NUL <==> n == |s|)
      decreases |s| - n
    {
      n := n + 1;
      CStrAt(a[..], i, s, n);
    }
  }

  /** nsh_argexpand.  The command line is cut up in place.  When nothing is expanded the
      result is the command line itself, otherwise it is a new string. */
  method ArgExpand<W(!new)>(line: array<char>, ghost s: string, o: Outside<W>, w: W) returns (r: string, w': W)
    requires CStr(line[..], 0, s) && OutsideOk(o)
    modifies line
    ensures r == Argument(Expand(o, w, s)) && w' == Expand(o, w, s).world
    ensures Special(s, 0) == |s| ==> CStr(line[..], 0, r)
  {
    hide Special, Run, Flag, Expand;
    w' := w;
    var working: nat := 0;
    var argument: Option<string> := None;
    ghost var goal := Expand(o, w, s);
    ghost var left := s;
    EmptyPrepend(goal);
    while true
      invariant CStr(line[..], working, left)
      invariant argument.Some? ==> NUL !in argument.value && Special(s, 0) < |s|
      invariant argument.None? ==> working == 0 && left == s
      invariant Prepend(if argument.Some? then argument.value else "", Expand(o, w', left)) == goal
      decreases |left|
    {
      var len := FindSpecial(line, working, left);
      CStrAt(line[..], working, left, len);
      if line[working + len] == NUL {
        PlainExpands(o, w', left);
        EmptyPrepend(Expand(o, w', left));
        if argument.None? {
          Dequote(line, s);
          r := ReadString(line, 0, Unescape(s));
        } else {
          Between(line[..], working, left, len);
          assert left[..len] == left;
          r := Finish(argument.value + line[working..working + len]);
        }
        return;
      }
      SpecialIsSeparator(left);
      var matched, add;
      if line[working + len] == '`' {
        matched, working, add, w', left := BackQuote(line, working, len, left, o, w');
      } else {
        matched, working, add, left := Dollar(line, working, len, left, o, w');
      }
      if !matched {
        return "", w';
      }
      PrependTwice(if argument.Some? then argument.value else "", add, Expand(o, w', left));
      argument := Some((if argument.Some? then argument.value else "") + add);
    }
  }

  lemma EmptyPrepend<W>(e: Expanded<W>)
    ensures Prepend("", e) == e
  {
    if e.text.Some? {
      assert "" + e.text.value == e.text.value;
    }
  }

  lemma PlainExpands<W>(o: Outside<W>, w: W, s: string)
    requires Special(s, 0) == |s|
    ensures Expand(o, w, s) == Expanded(w, Some(s))
  {
  }

  lemma SpecialIsSeparator(s: string)
    ensures Special(s, 0) < |s| ==> s[Special(s, 0)] == '`' || s[Special(s, 0)] == '$'
  {
  }

  method ReadString(a: array<char>, i: nat, ghost s: string) returns (r: string)
    requires CStr(a[..], i, s)
    ensures r == s
  {
    var n := StrLen(a, i, s);
    r := a[i..i + n];
    Between(a[..], i, s, n);
    assert s[..n] == s;
  }

  /** De-quotes the concatenated argument. */
  method Finish(argument: string) returns (r: string)
    requires NUL !in argument
    ensures r == Unescape(argument)
  {
    var n := |argument|;
    var buffer := new char[n + 1](i requires 0 <= i <= n => if i < n then argument[i] else NUL);
    assert buffer[..][0..|argument|] == argument;
    Dequote(buffer, argument);
    r := ReadString(buffer, 0, Unescape(argument));
  }

  lemma {:induction false} EscapeLast(a: string, c: char, special: set<char>)
    ensures Escape(a + [c], special) == Escape(a, special) + (if c in special then [BACKSLASH, c] else [c])
    decreases a
  {
    if a == [] {
      assert a + [c] == [c] && [c][1..] == [];
      assert Escape([c], special) == (if c in special then [BACKSLASH, c] else [c]) + Escape([], special);
    } else {
      assert (a + [c])[1..] == a[1..] + [c];
      EscapeLast(a[1..], c, special);
    }
  }

  /** In an escaped string every special character is escaped, and the end is not. */
  lemma {:induction false} EscapedIsQuiet(s: string, special: set<char>)
    requires {'`', '$', BACKSLASH} <= special
    ensures
      var e := Escape(s, special);
      !Flag(e, |e|) && forall j | 0 <= j < |e| :: IsSeparator(e[j]) ==> Flag(e, j)
    decreases |s|
  {
    if s != [] {
      var a, c := s[..|s| - 1], s[|s| - 1];
      assert s == a + [c];
      EscapedIsQuiet(a, special);
      EscapeLast(a, c, special);
      var e, f := Escape(s, special), Escape(a, special);
      forall j | 0 <= j <= |f|
        ensures Flag(e, j) == Flag(f, j)
      {
        FlagPrefix(e, f, j);
      }
      assert forall j | 0 <= j < |f| :: e[j] == f[j];
      if c in special {
        assert e[|f|] == BACKSLASH && e[|f| + 1] == c;
        assert Flag(e, |f| + 1) && !Flag(e, |f| + 2);
      } else {
        assert e[|f|] == c;
      }
    }
  }

  /** Escaping protects: an escaped argument comes back unchanged, whatever the variables
      and commands are, and nothing is run. */
  lemma EscapingProtects<W>(o: Outside<W>, w: W, s: string, special: set<char>)
    requires {'`', '$', BACKSLASH} <= special
    ensures Argument(Expand(o, w, Escape(s, special))) == s
    ensures Expand(o, w, Escape(s, special)).world == w
  {
    var e := Escape(s, special);
    EscapedIsQuiet(s, special);
    forall j | 0 <= j < |e| && IsSeparator(e[j])
      ensures Run(e, j) % 2 == 1
    {
      EscapeAgreement(e, j);
    }
    SpecialIs(e, 0, |e|);
    PlainExpands(o, w, e);
    DequoteUndoesEscape(s, special);
  }

  lemma {:induction false} UnescapeFixed(s: string)
    ensures BACKSLASH !in s ==> Unescape(s) == s
    ensures |Unescape(s)| <= |s|
    ensures BACKSLASH in s ==> |Unescape(s)| < |s|
    decreases |s|
  {
    if s != [] {
      if s[0] != BACKSLASH {
        UnescapeFixed(s[1..]);
        assert s == [s[0]] + s[1..];
      } else if |s| > 1 {
        UnescapeFixed(s[2..]);
      }
    }
  }

  /** Dequoting comes last, also over the text that was put in: the value of a variable
      arrives unchanged if and only if it contains no backslash. */
  lemma ValueArrivesIff<W>(o: Outside<W>, w: W, name: string)
    requires '}' !in name && BACKSLASH !in name
    ensures Argument(Expand(o, w, "${" + name + "}")) == o.variable(w, name) <==> BACKSLASH !in o.variable(w, name)
  {
    var s := "${" + name + "}";
    SpecialIs(s, 0, 0);
    var body := name + "}";
    assert s[2..] == body;
    assert BodyStart(s, 0) == 2;
    assert FirstUnescaped(body, '}', |name|) by {
      assert forall i | 0 <= i < |name| :: body[i] == name[i];
    }
    VariableExpands(o, w, s, 0, |name|);
    assert body[..|name|] == name && body[|name| + 1..] == [];
    EmptyExpands(o, w);
    var v := o.variable(w, name);
    assert s[..0] + v == v && v + [] == v;
    UnescapeFixed(v);
  }
}
