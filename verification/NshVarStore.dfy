/** The variable buffer of an NSH session (apps/nshlib/nsh_vars.c): the stored texts one
    after the other, each closed by a NUL, searched and shifted in place. */
module NshVarStore {
  import opened Common
  import opened NshVars

  /** How a text is stored. */
  function Stored(t: string): (u: string)
    ensures |u| == |t| + 1
  {
    t + [NUL]
  }

  function Flat(ts: seq<string>): string
    decreases |ts|
  {
    if ts == [] then [] else Stored(ts[0]) + Flat(ts[1..])
  }

  lemma {:induction false} FlatConcat(a: seq<string>, b: seq<string>)
    ensures Flat(a + b) == Flat(a) + Flat(b)
    decreases |a|
  {
    if a == [] {
      assert a + b == b;
    } else {
      assert (a + b)[1..] == a[1..] + b;
      FlatConcat(a[1..], b);
    }
  }

  /** The offset of the k-th text. */
  function Offset(ts: seq<string>, k: nat): nat
    requires k <= |ts|
  {
    |Flat(ts[..k])|
  }

  lemma Slices(a: string, t: string, b: string)
    ensures (a + t + b)[|a|..|a| + |t|] == t && (a + t + b)[|a| + |t|..] == b && (a + t + b)[..|a|] == a
  {
  }

  lemma FlatParts(ts: seq<string>, k: nat)
    requires k < |ts|
    ensures Flat(ts) == Flat(ts[..k]) + Stored(ts[k]) + Flat(ts[k + 1..])
  {
    hide Stored, Flat;
    var a, t, b := Flat(ts[..k]), Stored(ts[k]), Flat(ts[k + 1..]);
    FlatConcat(ts[..k], ts[k..]);
    FlatFrom(ts, k);
    assert ts[..k] + ts[k..] == ts;
    assert a + (t + b) == a + t + b;
  }

  /** Each text stands at its offset, between the texts before and after it. */
  lemma FlatAt(ts: seq<string>, k: nat)
    requires k < |ts|
    ensures Offset(ts, k + 1) == Offset(ts, k) + |Stored(ts[k])| <= |Flat(ts)|
    ensures Flat(ts)[Offset(ts, k)..Offset(ts, k + 1)] == Stored(ts[k])
    ensures Flat(ts)[Offset(ts, k + 1)..] == Flat(ts[k + 1..])
    ensures Flat(ts)[..Offset(ts, k)] == Flat(ts[..k])
  {
    hide Stored, Flat;
    FlatParts(ts, k);
    FlatUpTo(ts, k);
    Slices(Flat(ts[..k]), Stored(ts[k]), Flat(ts[k + 1..]));
  }

  lemma FlatFrom(ts: seq<string>, k: nat)
    requires k < |ts|
    ensures Flat(ts[k..]) == Stored(ts[k]) + Flat(ts[k + 1..])
  {
    assert ts[k..][1..] == ts[k + 1..];
  }

  lemma FlatUpTo(ts: seq<string>, k: nat)
    requires k < |ts|
    ensures Flat(ts[..k + 1]) == Flat(ts[..k]) + Stored(ts[k])
  {
    assert ts[..k + 1] == ts[..k] + [ts[k]];
    FlatConcat(ts[..k], [ts[k]]);
    FlatOne(ts[k]);
  }

  lemma FlatOne(t: string)
    ensures Flat([t]) == Stored(t)
  {
    assert [t][1..] == [];
    assert Flat([]) == [];
  }

  lemma OffsetEnd(ts: seq<string>)
    ensures Offset(ts, 0) == 0 && Offset(ts, |ts|) == |Flat(ts)|
  {
    assert ts[..|ts|] == ts && ts[..0] == [];
  }

  lemma OffsetInside(ts: seq<string>, k: nat)
    requires k <= |ts|
    ensures Offset(ts, k) < |Flat(ts)| <==> k < |ts|
  {
    hide Flat, Stored;
    OffsetEnd(ts);
    if k < |ts| {
      FlatAt(ts, k);
    }
  }

  lemma EmptyFlat(ts: seq<string>)
    ensures |Flat(ts)| == 0 <==> ts == []
  {
  }

  /** The character at `i` of a C string. */
  function CharAt(s: string, i: nat): char
    requires i <= |s|
  {
    if i < |s| then s[i] else NUL
  }

  lemma CharIn(s: string, i: nat)
    requires i <= |s| && NUL !in s
    ensures CharAt(s, i) == NUL <==> i == |s|
  {
    assert i < |s| ==> s[i] in s;
  }

  class VarStore {
    var varp: array?<char>
    var varsz: nat
    ghost var texts: seq<string>

    ghost predicate Valid()
      reads this, varp
    {
      && TextsOk(texts)
      && if varp == null then varsz == 0 && texts == []
         else varsz <= varp.Length && varp[..varsz] == Flat(texts)
    }

    constructor ()
      ensures Valid() && texts == []
    {
      varp, varsz, texts := null, 0, [];
    }

    /** The k-th text as the bytes of the buffer. */
    lemma TextInBuffer(k: nat)
      requires Valid() && varp != null && k < |texts|
      ensures Offset(texts, k) + |texts[k]| < varsz && TextOk(texts[k])
      ensures forall i | 0 <= i <= |texts[k]| :: varp[Offset(texts, k) + i] == CharAt(texts[k], i)
    {
      hide Flat, TextOk;
      FlatAt(texts, k);
      var o, t := Offset(texts, k), texts[k];
      forall i | 0 <= i <= |t|
        ensures varp[o + i] == CharAt(t, i)
      {
        assert Stored(t)[i] == Flat(texts)[o..o + |t| + 1][i] == Flat(texts)[o + i] == varp[..varsz][o + i];
      }
    }

    /** nsh_cmpname, against the k-th text. */
    method CmpName(name: string, off: nat, ghost k: nat) returns (same: bool)
      requires Valid() && varp != null && NUL !in name
      requires k < |texts| && off == Offset(texts, k) && texts[k] != name
      ensures same <==> Matches(texts[k], name)
    {
      hide Flat, Offset;
      TextInBuffer(k);
      ghost var t := texts[k];
      var i := 0;
      while CharAt(name, i) == varp[off + i]
        invariant i <= |name| && i <= |t|
        invariant name[..i] == t[..i]
        decreases |name| - i
      {
        CharIn(name, i);
        CharIn(t, i);
        BothEnd(name, t, i);
        i := i + 1;
      }
      CharIn(name, i);
      CharIn(t, i);
      MatchesAt(t, name, i);
      same := CharAt(name, i) == NUL && varp[off + i] == '=';
    }

    /** strlen of the k-th text. */
    method StrLen(off: nat, ghost k: nat) returns (n: nat)
      requires Valid() && varp != null && k < |texts| && off == Offset(texts, k)
      ensures n == |texts[k]|
    {
      hide Flat, Offset;
      TextInBuffer(k);
      ghost var t := texts[k];
      CharIn(t, 0);
      n := 0;
      while varp[off + n] != NUL
        invariant n <= |t|
        decreases |t| - n
      {
        CharIn(t, n);
        n := n + 1;
      }
      CharIn(t, n);
    }

    /** nsh_findvar: the offset of the text, or nothing. */
    method FindVar(name: string) returns (ptr: Option<nat>)
      requires Valid() && NUL !in name && Walkable(texts, name)
      ensures ptr.None? <==> Find(texts, name) == |texts|
      ensures ptr.Some? ==> varp != null && ptr.value == Offset(texts, Find(texts, name))
    {
      hide Flat, Find, Matches, TextsOk;
      if varp == null {
        return None;
      }
      var off := 0;
      ghost var k := 0;
      OffsetEnd(texts);
      while off < varsz
        invariant k <= |texts| && k <= Find(texts, name) && off == Offset(texts, k)
        decreases varsz - off
      {
        OffsetInside(texts, k);
        FlatAt(texts, k);
        WalkAt(texts, name, k);
        var same := CmpName(name, off, k);
        FindNext(texts, name, k);
        if same {
          return Some(off);
        }
        var n := StrLen(off, k);
        off := off + (n + 1);
        k := k + 1;
      }
      OffsetInside(texts, k);
      return None;
    }

    /** nsh_removevar, for the k-th text: all later bytes are moved down. */
    method RemoveVar(off: nat, ghost k: nat)
      requires Valid() && varp != null && k < |texts| && off == Offset(texts, k)
      modifies this`varsz, this`texts, varp
      ensures Valid() && texts == old(texts[..k] + texts[k + 1..])
    {
      hide Flat, Stored, TextsOk;
      ghost var ts, was := texts, varp[..];
      FlatAt(ts, k);
      var n := StrLen(off, k);
      MoveDown(varp, off, off + (n + 1), varsz - (off + (n + 1)));
      MovedOver(was, varp[..], varsz, ts, k);
      varsz := varsz - (n + 1);
      texts := ts[..k] + ts[k + 1..];
      CutKeepsOk(ts, k);
    }

    /** nsh_getvar: the text between the first '=' and the NUL. */
    method GetVar(name: string) returns (value: Option<string>)
      requires Valid() && NUL !in name && Walkable(texts, name)
      ensures value == Get(texts, name)
    {
      hide Flat, Find, Offset, Walkable;
      var ptr := FindVar(name);
      if ptr.None? {
        return None;
      }
      ghost var k := Find(texts, name);
      var eq := FindEq(ptr.value, k);
      var n := StrLen(ptr.value, k);
      TextInBuffer(k);
      value := Some(varp[eq + 1..ptr.value + n]);
      SliceIs(varp[..], ptr.value, texts[k], FirstEq(texts[k]) + 1);
      assert varp[..][eq + 1..ptr.value + n] == varp[eq + 1..ptr.value + n];
    }

    /** strchr for the first '=' of the k-th text. */
    method FindEq(off: nat, ghost k: nat) returns (eq: nat)
      requires Valid() && varp != null && k < |texts| && off == Offset(texts, k)
      ensures TextOk(texts[k]) && eq == off + FirstEq(texts[k]) < varp.Length
    {
      hide Flat, Offset;
      TextInBuffer(k);
      ghost var t := texts[k];
      ghost var f := FirstEq(t);
      eq := off;
      assert varp[off + 0] == CharAt(t, 0);
      while varp[eq] != '='
        invariant off <= eq <= off + f
        invariant varp[eq] == t[eq - off]
        decreases off + f - eq
      {
        eq := eq + 1;
        assert varp[off + (eq - off)] == CharAt(t, eq - off);
      }
    }

    /** nsh_setvar; `memory` says whether the (re)allocation succeeds. */
    method SetVar(name: string, value: string, memory: bool) returns (ok: bool)
      requires Valid() && NUL !in name && NUL !in value && Walkable(texts, name)
      modifies this, varp
      ensures Valid() && ok == memory && texts == Put(old(texts), name, value, memory)
    {
      hide Stored, Flat, Find, TextsOk, Walkable, Offset;
      PutKeepsOk(texts, name, value, true);
      if varp != null {
        var ptr := FindVar(name);
        if ptr.Some? {
          RemoveVar(ptr.value, Find(texts, name));
        }
      }
      assert texts == Drop(old(texts), name);
      if !memory {
        return false;
      }
      ghost var t := TextOf(name, value);
      var newvarp := Grow(name + "=" + value + [NUL]);
      StoredIs(name, value);
      ghost var ts := texts;
      varsz := newvarp.Length;
      varp := newvarp;
      texts := ts + [t];
      FlatConcat(ts, [t]);
      FlatOne(t);
      assert varp[..varsz] == varp[..];
      return true;
    }

    /** A larger buffer that holds the old bytes and then `text`. */
    method Grow(text: string) returns (newvarp: array<char>)
      requires Valid()
      ensures fresh(newvarp) && newvarp[..] == Flat(texts) + text
    {
      var all := (if varp == null then [] else varp[..varsz]) + text;
      newvarp := new char[|all|](i requires 0 <= i < |all| => all[i]);
      assert newvarp[..] == all;
    }

    /** nsh_unsetvar; `memory` says whether the shrinking reallocation succeeds. */
    method UnsetVar(name: string, memory: bool) returns (ok: bool)
      requires Valid() && NUL !in name && Walkable(texts, name)
      modifies this, varp
      ensures Valid() && texts == Drop(old(texts), name)
      ensures ok <==> memory || Drop(old(texts), name) == [] || Find(old(texts), name) == |old(texts)|
    {
      hide Stored, Flat, Find, TextsOk, Walkable, Offset;
      var ptr := FindVar(name);
      ok := true;
      if ptr.Some? {
        RemoveVar(ptr.value, Find(texts, name));
        EmptyFlat(texts);
        if varsz == 0 {
          varp := null;
        } else if memory {
          var newvarp := new char[varsz];
          forall i | 0 <= i < varsz {
            newvarp[i] := varp[i];
          }
          assert newvarp[..varsz] == varp[..varsz];
          varp := newvarp;
        } else {
          ok := false;
        }
      }
    }
  }

  /** Two C strings that agree and end together are the same. */
  lemma BothEnd(name: string, t: string, i: nat)
    requires i <= |name| && i <= |t| && NUL !in name && NUL !in t && name[..i] == t[..i] && name != t
    requires CharAt(name, i) == CharAt(t, i)
    ensures i < |name| && i < |t| && name[..i + 1] == t[..i + 1]
  {
    CharIn(name, i);
    CharIn(t, i);
    assert name[..|name|] == name && t[..|t|] == t;
  }

  /** Where a name and a text part decides whether they match. */
  lemma MatchesAt(t: string, name: string, i: nat)
    requires i <= |name| && i <= |t| && name[..i] == t[..i] && NUL !in name && NUL !in t
    requires CharAt(name, i) != CharAt(t, i)
    ensures Matches(t, name) <==> i == |name| && CharAt(t, i) == '='
  {
    if i < |name| {
      if i < |t| {
        Differs(t, name, i);
      }
    } else {
      assert name == name[..i];
    }
  }

  lemma WalkAt(ts: seq<string>, name: string, k: nat)
    requires Walkable(ts, name) && k < |ts| && k <= Find(ts, name)
    ensures ts[k] != name
  {
    assert Matches(ts[k], name) ==> |ts[k]| > |name|;
  }

  lemma FindNext(ts: seq<string>, name: string, k: nat)
    requires k < |ts| && k <= Find(ts, name)
    ensures Matches(ts[k], name) <==> Find(ts, name) == k
  {
  }

  lemma CutKeepsOk(ts: seq<string>, k: nat)
    requires TextsOk(ts) && k < |ts|
    ensures TextsOk(ts[..k] + ts[k + 1..])
  {
    hide TextOk;
    var us := ts[..k] + ts[k + 1..];
    assert forall i | 0 <= i < |us| :: us[i] == ts[if i < k then i else i + 1];
  }

  /** The rest of a text from `from` on, read from a buffer that holds the text at `off`. */
  lemma SliceIs(buffer: string, off: nat, t: string, from: nat)
    requires off + |t| < |buffer| && from <= |t|
    requires forall i | 0 <= i <= |t| :: buffer[off + i] == CharAt(t, i)
    ensures buffer[off + from..off + |t|] == t[from..]
  {
    var a, b := buffer[off + from..off + |t|], t[from..];
    forall i | 0 <= i < |b|
      ensures a[i] == b[i]
    {
      assert buffer[off + (from + i)] == CharAt(t, from + i);
    }
  }

  /** The buffer after the bytes behind the k-th text were moved down over it. */
  lemma MovedOver(was: string, now: string, size: nat, ts: seq<string>, k: nat)
    requires k < |ts| && size <= |was| == |now| && was[..size] == Flat(ts)
    requires var lo, gap := Offset(ts, k), |ts[k]| + 1;
             && lo + gap <= size && now[..lo] == was[..lo] && now[lo..size - gap] == was[lo + gap..size]
    ensures now[..size - (|ts[k]| + 1)] == Flat(ts[..k] + ts[k + 1..])
  {
    hide Flat, Stored;
    var lo, gap := Offset(ts, k), |ts[k]| + 1;
    FlatAt(ts, k);
    Halves(was, size, lo, lo + gap);
    Halves(now, size - gap, lo, lo);
    FlatConcat(ts[..k], ts[k + 1..]);
  }

  /** The parts of the bytes in use before and behind a gap. */
  lemma Halves(a: string, size: nat, lo: nat, hi: nat)
    requires lo <= hi <= size <= |a|
    ensures a[..size][..lo] == a[..lo] && a[..size][hi..] == a[hi..size]
    ensures lo == hi ==> a[..size] == a[..lo] + a[hi..size]
  {
  }

  lemma StoredIs(name: string, value: string)
    ensures name + "=" + value + [NUL] == Stored(TextOf(name, value))
  {
  }

  /** Copies `n` bytes towards the front of the buffer. */
  method MoveDown(a: array<char>, dest: nat, src: nat, n: nat)
    requires dest <= src && src + n <= a.Length
    modifies a
    ensures a[..dest] == old(a[..dest])
    ensures a[dest..dest + n] == old(a[src..src + n])
  {
    ghost var was := a[..];
    var count := n;
    while count > 0
      invariant 0 <= count <= n
      invariant a[..dest] == was[..dest]
      invariant a[dest..dest + (n - count)] == was[src..src + (n - count)]
      invariant forall j | src + (n - count) <= j < a.Length :: a[j] == was[j]
    {
      a[dest + (n - count)] := a[src + (n - count)];
      count := count - 1;
    }
  }
}
