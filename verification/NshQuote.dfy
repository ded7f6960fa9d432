/** Backslash escapes in NSH strings: nsh_strchr and nsh_dequote of
    apps/nshlib/nsh_parse.c, against recursive definitions. */
module NshQuote {
  import opened Common

  const BACKSLASH: char := '\\'

  /** `a` holds the C string `s` at `i`. */
  predicate CStr(a: seq<char>, i: nat, s: string) {
    i + |s| < |a| && a[i..i + |s|] == s && a[i + |s|] == NUL && NUL !in s
  }

  lemma CStrAt(a: seq<char>, i: nat, s: string, k: nat)
    requires CStr(a, i, s) && k <= |s|
    ensures a[i + k] == if k < |s| then s[k] else NUL
    ensures a[i + k] == NUL <==> k == |s|
  {
    assert k < |s| ==> a[i..i + |s|][k] == a[i + k];
  }

  lemma CStrTail(a: seq<char>, i: nat, s: string, k: nat)
    requires CStr(a, i, s) && k <= |s|
    ensures CStr(a, i + k, s[k..])
  {
    assert a[i + k..i + |s|] == a[i..i + |s|][k..];
  }

  lemma CStrIs(a: seq<char>, i: nat, s: string)
    requires i + |s| < |a| && (forall k | 0 <= k < |s| :: a[i + k] == s[k]) && a[i + |s|] == NUL && NUL !in s
    ensures CStr(a, i, s)
  {
    assert a[i..i + |s|] == s;
  }

  lemma CStrEnds(a: seq<char>, i: nat, s: string)
    requires CStr(a, i, s)
    ensures i + |s| < |a| && NUL !in s
  {
  }

  /** The forward flag: is the character at `i` escaped? */
  function Flag(s: string, i: nat): bool
    requires i <= |s|
  {
    i > 0 && s[i - 1] == BACKSLASH && !Flag(s, i - 1)
  }

  /** The length of the run of backslashes that ends just before `i`. */
  function Run(s: string, i: nat): (n: nat)
    requires i <= |s|
    ensures n <= i
  {
    if i > 0 && s[i - 1] == BACKSLASH then 1 + Run(s, i - 1) else 0
  }

  /** The flag carried forward and the run counted backward agree. */
  lemma {:induction false} EscapeAgreement(s: string, i: nat)
    requires i <= |s|
    ensures Flag(s, i) <==> Run(s, i) % 2 == 1
    decreases i
  {
    if i > 0 && s[i - 1] == BACKSLASH {
      EscapeAgreement(s, i - 1);
    }
  }

  lemma {:induction false} FlagPrefix(s: string, t: string, i: nat)
    requires i <= |s| && i <= |t| && s[..i] == t[..i]
    ensures Flag(s, i) == Flag(t, i)
    decreases i
  {
    if i > 0 {
      assert s[i - 1] == s[..i][i - 1] && t[i - 1] == t[..i][i - 1];
      assert s[..i - 1] == s[..i][..i - 1] && t[..i - 1] == t[..i][..i - 1];
      FlagPrefix(s, t, i - 1);
    }
  }

  /** `k` is the first place where `ch` stands unescaped. */
  predicate FirstUnescaped(s: string, ch: char, k: nat) {
    && k < |s| && s[k] == ch && !Flag(s, k)
    && forall i | 0 <= i < k :: s[i] == ch ==> Flag(s, i)
  }

  predicate NoneUnescaped(s: string, ch: char) {
    forall i | 0 <= i < |s| :: s[i] == ch ==> Flag(s, i)
  }

  /** The text ends at the first closing character behind it. */
  predicate ClosedBy(s: string, close: char) {
    FirstUnescaped(s + [close], close, |s|)
  }

  lemma ClosesInside(s: string, close: char, t: string)
    requires ClosedBy(s, close)
    ensures FirstUnescaped(s + [close] + t, close, |s|)
  {
    hide Flag;
    var a, b := s + [close], s + [close] + t;
    forall i | 0 <= i <= |s|
      ensures b[i] == a[i] && Flag(b, i) == Flag(a, i)
    {
      FlagPrefix(b, a, i);
    }
  }

  /** nsh_strchr on the string `s` at `from`: the offset of the first unescaped match.  A
      backslash is never found, and the terminator only if it is not escaped. */
  method StrChr(a: array<char>, from: nat, ch: char, ghost s: string) returns (r: Option<nat>)
    requires CStr(a[..], from, s)
    ensures ch == BACKSLASH ==> r.None?
    ensures ch == NUL ==> r == if Flag(s, |s|) then None else Some(|s|)
    ensures ch != BACKSLASH && ch != NUL && r.None? ==> NoneUnescaped(s, ch)
    ensures ch != BACKSLASH && ch != NUL && r.Some? ==> FirstUnescaped(s, ch, r.value)
  {
    var i, quoted := 0, false;
    while true
      invariant i <= |s| && quoted == Flag(s, i)
      invariant ch != BACKSLASH ==> forall j | 0 <= j < i :: s[j] == ch ==> Flag(s, j)
      decreases |s| - i
    {
      CStrAt(a[..], from, s, i);
      if a[from + i] == BACKSLASH && !quoted {
        quoted := true;
      } else if a[from + i] == ch && !quoted {
        return Some(i);
      } else if a[from + i] == NUL {
        return None;
      } else {
        quoted := false;
      }
      i := i + 1;
    }
  }

  /** Removing escapes: a backslash makes the next character literal; one at the very end
      is dropped. */
  function Unescape(s: string): string {
    if s == [] then []
    else if s[0] != BACKSLASH then [s[0]] + Unescape(s[1..])
    else if |s| == 1 then []
    else [s[1]] + Unescape(s[2..])
  }

  /** The same, when the first character is already known to be literal. */
  function UnescapeFrom(s: string, quoted: bool): string {
    if quoted && s != [] then [s[0]] + Unescape(s[1..]) else Unescape(s)
  }

  /** Moves the string behind `ptr` one place to the front. */
  method ShiftLeft(a: array<char>, ptr: nat, ghost s: string)
    requires CStr(a[..], ptr, s) && s != []
    modifies a
    ensures a[..ptr] == old(a[..ptr])
    ensures CStr(a[..], ptr, s[1..])
  {
    hide CStr;
    ghost var was := a[..];
    var dest, src := ptr, ptr + 1;
    var ch := NUL;
    CStrTail(a[..], ptr, s, 1);
    ghost var t := s[1..];
    CStrEnds(was, ptr + 1, t);
    ghost var n := 0;
    while true
      invariant n <= |t| && dest == ptr + n && src == dest + 1
      invariant a[..ptr] == was[..ptr]
      invariant forall i | 0 <= i < n :: a[ptr + i] == t[i]
      invariant forall i | src <= i < a.Length :: a[i] == was[i]
      decreases |t| - n
    {
      CStrAt(was, ptr + 1, t, n);
      ch := a[src];
      a[dest] := ch;
      src, dest := src + 1, dest + 1;
      if ch == NUL {
        break;
      }
      n := n + 1;
    }
    CStrIs(a[..], ptr, t);
  }

  lemma UnescapeStart(s: string)
    ensures UnescapeFrom(s, false) == Unescape(s)
    ensures forall quoted :: UnescapeFrom([], quoted) == []
  {
  }

  /** One character of nsh_dequote. */
  lemma UnescapeNext(s: string, quoted: bool)
    requires s != []
    ensures UnescapeFrom(s, quoted) ==
      if s[0] == BACKSLASH && !quoted then UnescapeFrom(s[1..], true)
      else [s[0]] + UnescapeFrom(s[1..], false)
  {
    if s[0] == BACKSLASH && !quoted && |s| > 1 {
      assert s[1..][1..] == s[2..];
    }
  }

  /** nsh_dequote, in place. */
  method Dequote(a: array<char>, ghost s: string)
    requires CStr(a[..], 0, s)
    modifies a
    ensures CStr(a[..], 0, Unescape(s))
  {
    hide Unescape, UnescapeFrom;
    var ptr, quoted := 0, false;
    ghost var left := s;
    UnescapeStart(s);
    while a[ptr] != NUL
      invariant CStr(a[..], ptr, left)
      invariant a[..ptr] + UnescapeFrom(left, quoted) == Unescape(s)
      invariant NUL !in a[..ptr]
      decreases |left|
    {
      CStrAt(a[..], ptr, left, 0);
      UnescapeNext(left, quoted);
      ghost var done, more := a[..ptr], UnescapeFrom(left[1..], false);
      if a[ptr] == BACKSLASH && !quoted {
        ShiftLeft(a, ptr, left);
        left := left[1..];
        quoted := true;
      } else {
        CStrTail(a[..], ptr, left, 1);
        assert done + ([left[0]] + more) == (done + [left[0]]) + more;
        assert a[..ptr + 1] == done + [left[0]];
        left := left[1..];
        quoted := false;
        ptr := ptr + 1;
      }
    }
    CStrAt(a[..], ptr, left, 0);
    assert left == [] && UnescapeFrom(left, quoted) == [];
    a[ptr] := NUL;
    assert a[0..ptr] == a[..ptr] == Unescape(s);
  }

  /** Puts a backslash before every character of `special`. */
  function Escape(s: string, special: set<char>): string {
    if s == [] then []
    else (if s[0] in special then [BACKSLASH, s[0]] else [s[0]]) + Escape(s[1..], special)
  }

  /** Dequoting undoes escaping, as soon as backslashes are escaped too. */
  lemma {:induction false} DequoteUndoesEscape(s: string, special: set<char>)
    requires BACKSLASH in special
    ensures Unescape(Escape(s, special)) == s
    decreases s
  {
    if s != [] {
      DequoteUndoesEscape(s[1..], special);
      var rest := Escape(s[1..], special);
      if s[0] in special {
        assert ([BACKSLASH, s[0]] + rest)[2..] == rest;
      } else {
        assert ([s[0]] + rest)[1..] == rest;
      }
    }
  }

  /** Unescaping drops exactly the characters that act as escapes: at every place it keeps
      the character unless it is an unescaped backslash. */
  function KeepLiteral(s: string, i: nat): string
    requires i <= |s|
    decreases |s| - i
  {
    if i == |s| then []
    else (if s[i] == BACKSLASH && !Flag(s, i) then [] else [s[i]]) + KeepLiteral(s, i + 1)
  }

  lemma {:induction false} UnescapeByFlag(s: string, i: nat)
    requires i <= |s|
    ensures UnescapeFrom(s[i..], Flag(s, i)) == KeepLiteral(s, i)
    decreases |s| - i
  {
    if i < |s| {
      UnescapeByFlag(s, i + 1);
      assert s[i..][1..] == s[i + 1..];
      if s[i] == BACKSLASH && !Flag(s, i) && i + 1 < |s| {
        assert s[i..][2..] == s[i + 1..][1..];
      }
    }
  }
}
