/** NSH variables (apps/nshlib/nsh_vars.c): a list of stored texts `name=value`, searched,
    extended and cut as the packed buffer is.  Names are not checked when they are set, so a
    name can itself hold an equals sign. */
module NshVars {
  import opened Common

  /** A stored text: a C string with an equals sign. */
  predicate TextOk(t: string) {
    NUL !in t && '=' in t
  }

  predicate TextsOk(ts: seq<string>) {
    forall i | 0 <= i < |ts| :: TextOk(ts[i])
  }

  function TextOf(name: string, value: string): (t: string)
    ensures |t| == |name| + 1 + |value|
  {
    name + "=" + value
  }

  lemma TextOfAt(name: string, value: string)
    ensures name + "=" <= TextOf(name, value)
    ensures TextOf(name, value)[..|name|] == name && TextOf(name, value)[|name|] == '='
    ensures TextOf(name, value)[|name| + 1..] == value
    ensures NUL !in name && NUL !in value ==> TextOk(TextOf(name, value))
  {
    var t := TextOf(name, value);
    assert t[|name|] == '=';
    assert t == (name + "=") + value;
  }

  // ---- The search ----

  /** The test of nsh_cmpname: the text goes on with an equals sign where the name ends. */
  predicate Matches(t: string, name: string) {
    |name| < |t| && t[..|name|] == name && t[|name|] == '='
  }

  /** nsh_findvar: the first text that matches, or their number. */
  function Find(ts: seq<string>, name: string): (k: nat)
    ensures k <= |ts|
    ensures k < |ts| ==> Matches(ts[k], name)
    ensures forall i | 0 <= i < k :: !Matches(ts[i], name)
    decreases |ts|
  {
    if ts == [] || Matches(ts[0], name) then 0 else 1 + Find(ts[1..], name)
  }

  lemma {:induction false} FindIs(ts: seq<string>, name: string, k: nat)
    requires k <= |ts| && forall i | 0 <= i < k :: !Matches(ts[i], name)
    requires k < |ts| ==> Matches(ts[k], name)
    ensures Find(ts, name) == k
  {
    var f := Find(ts, name);
    assert k <= f;
    assert f <= k;
  }

  /** Whether the walk meets no text that is the name itself: there nsh_cmpname would read
      on behind both terminators. */
  predicate Walkable(ts: seq<string>, name: string) {
    forall i | 0 <= i < Find(ts, name) :: ts[i] != name
  }

  /** The first equals sign of a text. */
  function FirstEq(t: string): (k: nat)
    requires '=' in t
    ensures k < |t| && t[k] == '=' && forall i | 0 <= i < k :: t[i] != '='
  {
    if t[0] == '=' then 0 else 1 + FirstEq(t[1..])
  }

  lemma FirstEqIs(t: string, k: nat)
    requires k < |t| && t[k] == '=' && forall i | 0 <= i < k :: t[i] != '='
    ensures '=' in t && FirstEq(t) == k
  {
    var f := FirstEq(t);
    assert k <= f;
    assert f <= k;
  }

  // ---- The operations on the texts ----

  /** nsh_getvar: what follows the first equals sign of the text that is found. */
  function Get(ts: seq<string>, name: string): Option<string>
    requires TextsOk(ts)
  {
    var k := Find(ts, name);
    if k < |ts| then Some(ts[k][FirstEq(ts[k]) + 1..]) else None
  }

  /** nsh_unsetvar: without the text that is found. */
  function Drop(ts: seq<string>, name: string): seq<string> {
    var k := Find(ts, name);
    if k < |ts| then ts[..k] + ts[k + 1..] else ts
  }

  /** nsh_setvar: the old text is removed and the new one appended; when memory runs out
      only the removal has happened. */
  function Put(ts: seq<string>, name: string, value: string, memory: bool): seq<string> {
    if memory then Drop(ts, name) + [TextOf(name, value)] else Drop(ts, name)
  }

  lemma DropAt(ts: seq<string>, name: string, i: nat)
    requires i < |Drop(ts, name)|
    ensures |Drop(ts, name)| == (if Find(ts, name) < |ts| then |ts| - 1 else |ts|)
    ensures Drop(ts, name)[i] == if i < Find(ts, name) then ts[i] else ts[i + 1]
  {
    hide Find, Matches;
  }

  lemma DropKeepsOk(ts: seq<string>, name: string)
    requires TextsOk(ts)
    ensures TextsOk(Drop(ts, name))
  {
    hide Drop;
    forall i | 0 <= i < |Drop(ts, name)|
      ensures TextOk(Drop(ts, name)[i])
    {
      DropAt(ts, name, i);
    }
  }

  lemma PutKeepsOk(ts: seq<string>, name: string, value: string, memory: bool)
    requires TextsOk(ts) && NUL !in name && NUL !in value
    ensures TextsOk(Put(ts, name, value, memory))
  {
    hide Drop, TextOk;
    DropKeepsOk(ts, name);
    TextOfAt(name, value);
  }

  // ---- Names and values ----

  datatype Pair = Pair(name: string, value: string)

  predicate NameOk(name: string) {
    '=' !in name && NUL !in name
  }

  predicate PairOk(p: Pair) {
    NameOk(p.name) && NUL !in p.value
  }

  function PairOf(t: string): (p: Pair)
    requires TextOk(t)
    ensures PairOk(p) && TextOf(p.name, p.value) == t
  {
    var k := FirstEq(t);
    assert t == t[..k] + "=" + t[k + 1..];
    Pair(t[..k], t[k + 1..])
  }

  /** The store as names and values: every text splits at its first equals sign. */
  function Pairs(ts: seq<string>): (ps: seq<Pair>)
    requires TextsOk(ts)
    ensures |ps| == |ts| && forall i | 0 <= i < |ts| :: ps[i] == PairOf(ts[i])
  {
    seq(|ts|, i requires 0 <= i < |ts| => PairOf(ts[i]))
  }

  /** No two pairs have the same name. */
  predicate Distinct(ps: seq<Pair>) {
    forall i, j | 0 <= i < j < |ps| :: ps[i].name != ps[j].name
  }

  /** For a name without an equals sign, the test is equality of names. */
  lemma MatchesName(t: string, name: string)
    requires TextOk(t) && '=' !in name
    ensures Matches(t, name) <==> PairOf(t).name == name
  {
    var p := PairOf(t);
    TextOfAt(p.name, p.value);
    if Matches(t, name) {
      assert forall i | 0 <= i < |name| :: t[i] == t[..|name|][i] == name[i];
      FirstEqIs(t, |name|);
    }
  }

  /** A name that holds an equals sign matches only texts whose name is its first part. */
  lemma MatchesFirstPart(t: string, name: string)
    requires TextOk(t) && Matches(t, name) && '=' in name
    ensures PairOf(t).name == name[..FirstEq(name)]
  {
    var k := FirstEq(name);
    assert forall i | 0 <= i < |name| :: t[i] == t[..|name|][i] == name[i];
    FirstEqIs(t, k);
    assert t[..k] == name[..k];
  }

  function Index(ps: seq<Pair>, name: string): (k: nat)
    ensures k <= |ps| && (k < |ps| ==> ps[k].name == name)
    ensures forall i | 0 <= i < k :: ps[i].name != name
    decreases |ps|
  {
    if ps == [] || ps[0].name == name then 0 else 1 + Index(ps[1..], name)
  }

  lemma {:induction false} IndexIs(ps: seq<Pair>, name: string, k: nat)
    requires k <= |ps| && (k < |ps| ==> ps[k].name == name)
    requires forall i | 0 <= i < k :: ps[i].name != name
    ensures Index(ps, name) == k
  {
    var f := Index(ps, name);
    assert k <= f;
    assert f <= k;
  }

  function Lookup(ps: seq<Pair>, name: string): Option<string> {
    var k := Index(ps, name);
    if k < |ps| then Some(ps[k].value) else None
  }

  function Without(ps: seq<Pair>, name: string): seq<Pair> {
    var k := Index(ps, name);
    if k < |ps| then ps[..k] + ps[k + 1..] else ps
  }

  function AfterSet(ps: seq<Pair>, name: string, value: string, memory: bool): seq<Pair> {
    if memory then Without(ps, name) + [Pair(name, value)] else Without(ps, name)
  }

  lemma WithoutAt(ps: seq<Pair>, name: string, i: nat)
    requires i < |Without(ps, name)|
    ensures |Without(ps, name)| == (if Index(ps, name) < |ps| then |ps| - 1 else |ps|)
    ensures Without(ps, name)[i] == if i < Index(ps, name) then ps[i] else ps[i + 1]
  {
    hide Index;
  }

  lemma PairOfText(name: string, value: string)
    requires NameOk(name) && NUL !in value
    ensures TextOk(TextOf(name, value)) && PairOf(TextOf(name, value)) == Pair(name, value)
  {
    var t := TextOf(name, value);
    TextOfAt(name, value);
    assert forall i | 0 <= i < |name| :: t[i] == t[..|name|][i] == name[i];
    FirstEqIs(t, |name|);
  }

  /** For names without an equals sign, the texts are searched, cut and extended as the
      list of names and values is, and every text can be walked over. */
  lemma TextsArePairs(ts: seq<string>, name: string, value: string, memory: bool)
    requires TextsOk(ts) && NameOk(name) && NUL !in value
    ensures Walkable(ts, name)
    ensures Find(ts, name) == Index(Pairs(ts), name)
    ensures Get(ts, name) == Lookup(Pairs(ts), name)
    ensures TextsOk(Drop(ts, name)) && Pairs(Drop(ts, name)) == Without(Pairs(ts), name)
    ensures TextsOk(Put(ts, name, value, memory))
    ensures Pairs(Put(ts, name, value, memory)) == AfterSet(Pairs(ts), name, value, memory)
  {
    hide PairOf, Matches, TextOf, TextOk, Drop, Without, Find, Index;
    FindIsIndex(ts, name);
    GetIsLookup(ts, name);
    DropKeepsOk(ts, name);
    PutKeepsOk(ts, name, value, memory);
    PairOfText(name, value);
    DropIsWithout(ts, name);
    assert Pairs(Put(ts, name, value, memory)) == AfterSet(Pairs(ts), name, value, memory);
  }

  lemma DropIsWithout(ts: seq<string>, name: string)
    requires TextsOk(ts) && NameOk(name) && TextsOk(Drop(ts, name))
    ensures Pairs(Drop(ts, name)) == Without(Pairs(ts), name)
  {
    hide PairOf, Matches, TextOk, Find, Index, NameOk;
    FindIsIndex(ts, name);
    assert Pairs(Drop(ts, name)) == Without(Pairs(ts), name);
  }

  lemma FindIsIndex(ts: seq<string>, name: string)
    requires TextsOk(ts) && NameOk(name)
    ensures Find(ts, name) == Index(Pairs(ts), name) && Walkable(ts, name)
  {
    hide Matches, PairOf;
    var k := Find(ts, name);
    forall i | 0 <= i < |ts|
      ensures Matches(ts[i], name) <==> Pairs(ts)[i].name == name
      ensures ts[i] != name
    {
      assert TextOk(ts[i]);
      MatchesName(ts[i], name);
    }
    IndexIs(Pairs(ts), name, k);
  }

  lemma GetIsLookup(ts: seq<string>, name: string)
    requires TextsOk(ts) && NameOk(name)
    ensures Get(ts, name) == Lookup(Pairs(ts), name)
  {
    FindIsIndex(ts, name);
    var k := Find(ts, name);
    if k < |ts| {
      assert Pairs(ts)[k] == PairOf(ts[k]);
    }
  }

  // ---- The map laws ----

  /** Removing a name forgets it and leaves every other name as it was. */
  lemma LookupWithout(ps: seq<Pair>, name: string, other: string)
    requires Distinct(ps)
    ensures Distinct(Without(ps, name))
    ensures Lookup(Without(ps, name), other) == if other == name then None else Lookup(ps, other)
  {
    hide Without, Index;
    var k, qs := Index(ps, name), Without(ps, name);
    WithoutSize(ps, name);
    forall i | 0 <= i < |qs|
      ensures qs[i] == ps[if i < k then i else i + 1]
    {
      WithoutAt(ps, name, i);
    }
    var j := Index(ps, other);
    IndexIs(qs, other, if other == name || j == |ps| then |qs| else if j < k then j else j - 1);
  }

  lemma WithoutSize(ps: seq<Pair>, name: string)
    ensures |Without(ps, name)| == if Index(ps, name) < |ps| then |ps| - 1 else |ps|
  {
  }

  lemma LookupSet(ps: seq<Pair>, name: string, value: string, other: string)
    requires Distinct(ps)
    ensures Distinct(AfterSet(ps, name, value, true))
    ensures Lookup(AfterSet(ps, name, value, true), other) == if other == name then Some(value) else Lookup(ps, other)
  {
    hide Lookup, Without;
    LookupWithout(ps, name, name);
    LookupWithout(ps, name, other);
    LookupAppend(Without(ps, name), Pair(name, value), other);
  }

  lemma LookupAppend(ps: seq<Pair>, p: Pair, other: string)
    requires Distinct(ps) && Lookup(ps, p.name).None?
    ensures Distinct(ps + [p])
    ensures Lookup(ps + [p], other) == if other == p.name then Some(p.value) else Lookup(ps, other)
  {
    hide Index;
    assert forall i | 0 <= i < |ps| :: ps[i].name != p.name;
    var qs, j := ps + [p], Index(ps, other);
    IndexIs(qs, other, if other == p.name then |ps| else if j < |ps| then j else |qs|);
  }

  /** An operation on the store; `memory` says whether its allocation succeeds. */
  datatype Op = Set(name: string, value: string, memory: bool) | Unset(name: string)

  predicate OpOk(op: Op) {
    NameOk(op.name) && (op.Set? ==> NUL !in op.value)
  }

  function Apply(ts: seq<string>, op: Op): seq<string> {
    match op
    case Set(name, value, memory) => Put(ts, name, value, memory)
    case Unset(name) => Drop(ts, name)
  }

  function ApplyAll(ts: seq<string>, ops: seq<Op>): seq<string>
    decreases |ops|
  {
    if ops == [] then ts else Apply(ApplyAll(ts, ops[..|ops| - 1]), ops[|ops| - 1])
  }

  /** The value that the last operation on `name` left behind. */
  function LastValue(ops: seq<Op>, name: string): Option<string>
    decreases |ops|
  {
    if ops == [] then None
    else
      var last := ops[|ops| - 1];
      if last.name != name then LastValue(ops[..|ops| - 1], name)
      else if last.Set? && last.memory then Some(last.value)
      else None
  }

  /** Over every run of set and unset on names without an equals sign: the stored names stay
      distinct, and a name reads as what was most recently set, unless it was unset or its
      last set ran out of memory. */
  lemma {:induction false} RunIsMap(ops: seq<Op>, name: string)
    requires NameOk(name) && forall i | 0 <= i < |ops| :: OpOk(ops[i])
    ensures var ts := ApplyAll([], ops);
            TextsOk(ts) && Distinct(Pairs(ts)) && Walkable(ts, name) && Get(ts, name) == LastValue(ops, name)
    decreases |ops|
  {
    hide Put, Drop, Get, Lookup, Pairs, Walkable, Without, TextsOk;
    if ops == [] {
      EmptyStore(name);
    } else {
      var front, last := ops[..|ops| - 1], ops[|ops| - 1];
      assert OpOk(last);
      RunIsMap(front, name);
      var before, after := ApplyAll([], front), ApplyAll([], ops);
      StepIsMap(before, last, name);
      assert after == Apply(before, last);
    }
  }

  lemma EmptyStore(name: string)
    ensures TextsOk([]) && Distinct(Pairs([])) && Walkable([], name) && Get([], name) == None
  {
  }

  lemma StepIsMap(ts: seq<string>, op: Op, name: string)
    requires TextsOk(ts) && Distinct(Pairs(ts)) && OpOk(op) && NameOk(name)
    ensures var after := Apply(ts, op);
            && TextsOk(after) && Distinct(Pairs(after)) && Walkable(after, name)
            && Get(after, name) ==
                 if op.name != name then Get(ts, name)
                 else if op.Set? && op.memory then Some(op.value)
                 else None
  {
    hide Put, Drop, Get, Lookup, Pairs, Walkable, Without;
    var ps := Pairs(ts);
    TextsArePairs(ts, op.name, if op.Set? then op.value else "", op.Set? && op.memory);
    TextsArePairs(ts, name, "", true);
    LookupWithout(ps, op.name, name);
    if op.Set? && op.memory {
      LookupSet(ps, op.name, op.value, name);
    }
    TextsArePairs(Apply(ts, op), name, "", true);
  }

  // ---- Names that hold an equals sign ----

  /** On every store, with every name, as long as both searches have a defined answer: what was
      just set reads back exactly if the first other text that matches the name, should there
      be one, has that very value, or there is none and the name has no equals sign. */
  lemma ReadsBackIffAnywhere(ts: seq<string>, name: string, value: string)
    requires TextsOk(ts) && NUL !in name && NUL !in value
    requires Walkable(ts, name) && Walkable(Put(ts, name, value, true), name)
    ensures TextsOk(Put(ts, name, value, true)) && TextsOk(Drop(ts, name))
    ensures Get(Put(ts, name, value, true), name) == Some(value) <==>
      if Find(Drop(ts, name), name) < |Drop(ts, name)| then Get(Drop(ts, name), name) == Some(value)
      else '=' !in name
  {
    hide Drop, Matches, Walkable;
    PutKeepsOk(ts, name, value, true);
    DropKeepsOk(ts, name);
    var rest, t := Drop(ts, name), TextOf(name, value);
    var k, all := Find(rest, name), rest + [t];
    assert Matches(t, name) by { MatchesOwn(name, value); }
    FindIs(all, name, k);
    if k == |rest| {
      OwnValueIff(name, value);
    }
  }

  lemma MatchesOwn(name: string, value: string)
    ensures Matches(TextOf(name, value), name)
  {
    TextOfAt(name, value);
  }

  /** What a text reads as is the value it was made of exactly if the name has no equals sign. */
  lemma OwnValueIff(name: string, value: string)
    requires NUL !in name && NUL !in value
    ensures TextOk(TextOf(name, value))
    ensures TextOf(name, value)[FirstEq(TextOf(name, value)) + 1..] == value <==> '=' !in name
  {
    var t := TextOf(name, value);
    TextOfAt(name, value);
    assert forall i | 0 <= i < |name| :: t[i] == t[..|name|][i] == name[i];
    if '=' in name {
      FirstEqIs(t, FirstEq(name));
    } else {
      FirstEqIs(t, |name|);
    }
  }

  /** Among distinct names at most one text matches. */
  lemma OneMatch(ts: seq<string>, name: string)
    requires TextsOk(ts) && Distinct(Pairs(ts)) && NUL !in name
    ensures Find(Drop(ts, name), name) == |Drop(ts, name)|
  {
    hide Drop, Matches, Find, PairOf;
    var k, rest := Find(ts, name), Drop(ts, name);
    forall i | 0 <= i < |rest|
      ensures !Matches(rest[i], name)
    {
      DropAt(ts, name, i);
      if k <= i {
        assert Pairs(ts)[k].name != Pairs(ts)[i + 1].name;
        if Matches(ts[i + 1], name) {
          SameName(ts[k], ts[i + 1], name);
        }
      }
    }
    FindIs(rest, name, |rest|);
  }

  lemma SameName(t: string, u: string, name: string)
    requires TextOk(t) && TextOk(u) && Matches(t, name) && Matches(u, name)
    ensures PairOf(t).name == PairOf(u).name
  {
    if '=' in name {
      MatchesFirstPart(t, name);
      MatchesFirstPart(u, name);
    } else {
      MatchesName(t, name);
      MatchesName(u, name);
    }
  }

  /** A name with an equals sign is stored under its first part. */
  function FirstPart(name: string): string {
    if '=' in name then name[..FirstEq(name)] else name
  }

  lemma StoredUnder(name: string, value: string)
    requires NUL !in name && NUL !in value
    ensures TextOk(TextOf(name, value)) && PairOf(TextOf(name, value)).name == FirstPart(name)
  {
    TextOfAt(name, value);
    MatchesOwn(name, value);
    if '=' in name {
      MatchesFirstPart(TextOf(name, value), name);
    } else {
      MatchesName(TextOf(name, value), name);
    }
  }

  /** The stored names stay distinct exactly if the name has no equals sign, or no other
      text is stored under its first part. */
  lemma StaysDistinctIff(ts: seq<string>, name: string, value: string)
    requires TextsOk(ts) && Distinct(Pairs(ts)) && NUL !in name && NUL !in value && Walkable(ts, name)
    ensures TextsOk(Put(ts, name, value, true)) && TextsOk(Drop(ts, name))
    ensures Distinct(Pairs(Put(ts, name, value, true))) <==>
      '=' !in name || forall i | 0 <= i < |Drop(ts, name)| :: Pairs(Drop(ts, name))[i].name != FirstPart(name)
  {
    hide Drop, PairOf, TextOf, Matches, Find;
    PutKeepsOk(ts, name, value, true);
    DropKeepsOk(ts, name);
    StoredUnder(name, value);
    var rest, all := Pairs(Drop(ts, name)), Pairs(Put(ts, name, value, true));
    assert forall i | 0 <= i < |rest| :: all[i] == rest[i];
    assert all[|rest|].name == FirstPart(name);
    DropStaysDistinct(ts, name);
    if '=' !in name {
      forall i | 0 <= i < |rest|
        ensures rest[i].name != name
      {
        OneMatch(ts, name);
        MatchesName(Drop(ts, name)[i], name);
      }
    }
  }

  lemma DropStaysDistinct(ts: seq<string>, name: string)
    requires TextsOk(ts) && Distinct(Pairs(ts)) && TextsOk(Drop(ts, name))
    ensures Distinct(Pairs(Drop(ts, name)))
  {
    hide PairOf, Drop, Find;
    var rest, ps, k := Drop(ts, name), Pairs(ts), Find(ts, name);
    forall i, j | 0 <= i < j < |rest|
      ensures Pairs(rest)[i].name != Pairs(rest)[j].name
    {
      DropAt(ts, name, i);
      DropAt(ts, name, j);
      assert ps[if i < k then i else i + 1].name != ps[if j < k then j else j + 1].name;
    }
  }

  lemma PutNew(ts: seq<string>, name: string, value: string)
    requires forall i | 0 <= i < |ts| :: !Matches(ts[i], name)
    ensures Put(ts, name, value, true) == ts + [TextOf(name, value)]
  {
    hide Matches;
    FindIs(ts, name, |ts|);
  }

  lemma PutOverFirst(ts: seq<string>, name: string, value: string)
    requires ts != [] && Matches(ts[0], name)
    ensures Put(ts, name, value, true) == ts[1..] + [TextOf(name, value)]
  {
    hide Matches;
    FindIs(ts, name, 0);
  }

  lemma Differs(t: string, name: string, i: nat)
    requires i < |t| && i < |name| && t[i] != name[i]
    ensures !Matches(t, name)
  {
    assert |name| < |t| ==> t[..|name|][i] == t[i];
  }

  /** After `set a b` the name a=b is a stored text itself, and a search for it runs on behind
      the end of both. */
  lemma NameIsText()
    ensures ApplyAll([], [Set("a", "b", true)]) == ["a=b"]
    ensures !Walkable(["a=b"], "a=b")
  {
    hide Put, Matches, TextOf;
    var op := Set("a", "b", true);
    assert [op][..0] == [];
    assert ApplyAll([], [op]) == Apply(ApplyAll([], []), op);
    PutNew([], "a", "b");
    Texts();
    assert [] + ["a=b"] == ["a=b"];
    if Matches("a=b", "a=b") {
      MatchesLonger("a=b", "a=b");
    }
    FindIs(["a=b"], "a=b", 1);
  }

  lemma MatchesLonger(t: string, name: string)
    requires Matches(t, name)
    ensures |name| < |t|
  {
  }

  /** Setting a=b and a=c hides what is set for a afterwards, although a is an ordinary name. */
  lemma PlainNameHidden()
    ensures var ts := ApplyAll([], [Set("a=b", "v", true), Set("a=c", "w", true), Set("a", "1", true)]);
            ts == ["a=c=w", "a=1"] && TextsOk(ts) && Get(ts, "a") == Some("c=w")
  {
    hide Put, Matches, TextOf;
    Texts();
    RunThree(Set("a=b", "v", true), Set("a=c", "w", true), Set("a", "1", true));
    PutNew([], "a=b", "v");
    assert [] + ["a=b=v"] == ["a=b=v"];
    Differs("a=b=v", "a=c", 2);
    PutNew(["a=b=v"], "a=c", "w");
    assert ["a=b=v"] + ["a=c=w"] == ["a=b=v", "a=c=w"];
    MatchesOwn("a", "b=v");
    PutOverFirst(["a=b=v", "a=c=w"], "a", "1");
    assert ["a=b=v", "a=c=w"][1..] + ["a=1"] == ["a=c=w", "a=1"];
    MatchesOwn("a", "c=w");
    FindIs(["a=c=w", "a=1"], "a", 0);
    FirstEqIs("a=c=w", 1);
    assert "a=c=w"[2..] == "c=w";
    assert "a=1"[1] == '=';
  }

  lemma Texts()
    ensures TextOf("a=b", "v") == "a=b=v" == TextOf("a", "b=v") && TextOf("a=c", "w") == "a=c=w" == TextOf("a", "c=w")
    ensures TextOf("a", "1") == "a=1" && TextOf("a", "b") == "a=b" && TextOf("a", "c") == "a=c"
    ensures TextOf("a", "b=q") == "a=b=q" == TextOf("a=b", "q") && TextOf("a=b", "b=q") == "a=b=b=q"
  {
    assert "a=b" + "=" + "v" == "a=b=v" == "a" + "=" + "b=v";
    assert "a=c" + "=" + "w" == "a=c=w" == "a" + "=" + "c=w";
    assert "a" + "=" + "1" == "a=1" && "a" + "=" + "b" == "a=b" && "a" + "=" + "c" == "a=c";
    assert "a" + "=" + "b=q" == "a=b=q" == "a=b" + "=" + "q" && "a=b" + "=" + "b=q" == "a=b=b=q";
  }

  lemma RunThree(a: Op, b: Op, c: Op)
    ensures ApplyAll([], [a, b, c]) == Apply(Apply(Apply([], a), b), c)
  {
    hide Apply;
    assert [a, b, c][..2] == [a, b] && [a, b][..1] == [a] && [a][..0] == [];
    assert ApplyAll([], [a]) == Apply([], a);
    assert ApplyAll([], [a, b]) == Apply(Apply([], a), b);
  }

  lemma OddNameStored()
    ensures ApplyAll([], [Set("a", "c", true), Set("a=b", "v", true), Set("a", "b=q", true)]) == ["a=b=v", "a=b=q"]
  {
    hide Put, Matches, TextOf;
    Texts();
    RunThree(Set("a", "c", true), Set("a=b", "v", true), Set("a", "b=q", true));
    PutNew([], "a", "c");
    assert [] + ["a=c"] == ["a=c"];
    Differs("a=c", "a=b", 2);
    PutNew(["a=c"], "a=b", "v");
    assert ["a=c"] + ["a=b=v"] == ["a=c", "a=b=v"];
    MatchesOwn("a", "c");
    PutOverFirst(["a=c", "a=b=v"], "a", "b=q");
    assert ["a=c", "a=b=v"][1..] + ["a=b=q"] == ["a=b=v", "a=b=q"];
  }

  /** A name with an equals sign can read back, through the text of another name. */
  lemma OddNameReadsBack()
    ensures var ts := ApplyAll([], [Set("a", "c", true), Set("a=b", "v", true), Set("a", "b=q", true)]);
            var us := Put(ts, "a=b", "b=q", true);
            us == ["a=b=q", "a=b=b=q"] && TextsOk(us) && Get(us, "a=b") == Some("b=q")
  {
    hide Put, Matches, TextOf, ApplyAll;
    OddNameStored();
    Texts();
    MatchesOwn("a=b", "v");
    PutOverFirst(["a=b=v", "a=b=q"], "a=b", "b=q");
    assert ["a=b=v", "a=b=q"][1..] + ["a=b=b=q"] == ["a=b=q", "a=b=b=q"];
    MatchesOwn("a=b", "q");
    FindIs(["a=b=q", "a=b=b=q"], "a=b", 0);
    FirstEqIs("a=b=q", 1);
    assert "a=b=q"[2..] == "b=q";
    assert "a=b=b=q"[1] == '=';
  }
}
