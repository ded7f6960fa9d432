/** Stores in which no two texts have the same name, seen as sets of texts.  Both the NSH
    variables and the environment are such lists, searched by the same test and differing
    only in the order that a removal leaves. */
module NshTexts {
  import opened Common
  import opened NshVars

  /** The name a text is stored under. */
  function Part(t: string): string
    requires TextOk(t)
  {
    PairOf(t).name
  }

  /** What a text reads as. */
  function Value(t: string): string
    requires TextOk(t)
  {
    PairOf(t).value
  }

  /** What a name and a value read as, once they are stored. */
  function ReadAs(name: string, value: string): (r: string)
    requires NUL !in name && NUL !in value
    ensures r == value <==> '=' !in name
  {
    OwnValueIff(name, value);
    Value(TextOf(name, value))
  }

  /** No two texts are stored under one name. */
  predicate Tidy(ts: seq<string>) {
    TextsOk(ts) && Distinct(Pairs(ts))
  }

  lemma TidyTexts(ts: seq<string>, t: string)
    requires Tidy(ts) && t in ts
    ensures TextOk(t)
  {
  }

  lemma OnlyOne(ts: seq<string>, t: string, u: string)
    requires Tidy(ts) && t in ts && u in ts && Part(t) == Part(u)
    ensures t == u
  {
    hide PairOf;
    var i :| 0 <= i < |ts| && ts[i] == t;
    var j :| 0 <= j < |ts| && ts[j] == u;
    var ps := Pairs(ts);
    assert ps[i].name == ps[j].name;
  }

  /** A name finds only texts stored under its first part; an ordinary name finds all of them. */
  lemma MatchPart(t: string, name: string)
    requires TextOk(t)
    ensures Matches(t, name) ==> Part(t) == FirstPart(name)
    ensures '=' !in name && Part(t) == name ==> Matches(t, name)
  {
    hide PairOf, Matches;
    if '=' !in name {
      MatchesName(t, name);
    } else if Matches(t, name) {
      MatchesFirstPart(t, name);
    }
  }

  lemma FirstPartOk(name: string)
    requires NUL !in name
    ensures NameOk(FirstPart(name))
  {
  }

  /** What is found, for every name. */
  lemma FoundIff(ts: seq<string>, name: string)
    requires TextsOk(ts)
    ensures Get(ts, name).Some? <==> exists t | t in ts :: Matches(t, name)
  {
    hide Matches;
    var k := Find(ts, name);
    if k < |ts| {
      assert ts[k] in ts;
    }
  }

  lemma FoundIs(ts: seq<string>, name: string, t: string)
    requires Tidy(ts) && t in ts && Matches(t, name)
    ensures TextOk(t) && Get(ts, name) == Some(Value(t))
  {
    hide Matches, Find;
    FoundIff(ts, name);
    var u := ts[Find(ts, name)];
    TidyTexts(ts, t);
    MatchPart(t, name);
    MatchPart(u, name);
    OnlyOne(ts, t, u);
  }

  lemma NotFound(ts: seq<string>, name: string)
    requires TextsOk(ts) && forall t | t in ts :: !Matches(t, name)
    ensures Get(ts, name) == None
  {
    FoundIff(ts, name);
  }

  /** For an ordinary name: it is found exactly if something is stored under it. */
  lemma HeldIff(ts: seq<string>, name: string)
    requires TextsOk(ts) && NameOk(name)
    ensures Get(ts, name).Some? <==> exists t | t in ts :: TextOk(t) && Part(t) == name
  {
    hide Matches, PairOf, Get;
    FoundIff(ts, name);
    forall t | t in ts
      ensures TextOk(t) && (Matches(t, name) <==> Part(t) == name)
    {
      MatchPart(t, name);
    }
  }

  /** Without repeated names, the walk is defined exactly if no text is the name itself. */
  lemma WalkableIff(ts: seq<string>, name: string)
    requires Tidy(ts) && NUL !in name
    ensures Walkable(ts, name) <==> name !in ts
  {
    hide Matches;
    var k := Find(ts, name);
    if name in ts {
      var i :| 0 <= i < |ts| && ts[i] == name;
      if k < |ts| && k <= i {
        TidyTexts(ts, name);
        MatchPart(ts[k], name);
        assert Part(name) == FirstPart(name);
        OnlyOne(ts, ts[k], name);
        MatchesLonger(ts[k], name);
      }
    }
  }

  // ---- Removing and adding ----

  /** `us` holds the texts of `ts` that the name does not find. */
  ghost predicate Cuts(ts: seq<string>, us: seq<string>, name: string) {
    Tidy(us) && forall t :: t in us <==> t in ts && !Matches(t, name)
  }

  lemma DropCuts(ts: seq<string>, name: string)
    requires Tidy(ts) && NUL !in name
    ensures Cuts(ts, Drop(ts, name), name)
  {
    hide Drop, Matches, PairOf, Find;
    var us, k := Drop(ts, name), Find(ts, name);
    DropKeepsOk(ts, name);
    DropStaysDistinct(ts, name);
    OneMatch(ts, name);
    forall t
      ensures t in us <==> t in ts && !Matches(t, name)
    {
      if t in us {
        var i :| 0 <= i < |us| && us[i] == t;
        DropAt(ts, name, i);
      } else if t in ts && !Matches(t, name) {
        DropHolds(ts, name, t);
      }
    }
  }

  lemma DropHolds(ts: seq<string>, name: string, t: string)
    requires t in ts && !Matches(t, name)
    ensures t in Drop(ts, name)
  {
    hide Matches, Find;
    var i :| 0 <= i < |ts| && ts[i] == t;
    var k := Find(ts, name);
    if k < |ts| {
      assert ts[..k] + ts[k + 1..] == Drop(ts, name);
      assert i < k ==> ts[..k][i] == t;
      assert k < i ==> ts[k + 1..][i - k - 1] == t;
    }
  }

  lemma AddTidyIff(us: seq<string>, t: string)
    requires Tidy(us) && TextOk(t)
    ensures TextsOk(us + [t])
    ensures Tidy(us + [t]) <==> forall u | u in us :: TextOk(u) && Part(u) != Part(t)
  {
    hide PairOf, TextOk;
    var all := us + [t];
    var ps := Pairs(all);
    assert forall i | 0 <= i < |us| :: all[i] == us[i] && ps[i] == Pairs(us)[i];
    assert ps[|us|] == PairOf(t);
    if Tidy(all) {
      forall u | u in us
        ensures TextOk(u) && Part(u) != Part(t)
      {
        var i :| 0 <= i < |us| && us[i] == u;
        assert ps[i].name != ps[|us|].name;
      }
    } else {
      var i, j :| 0 <= i < j < |ps| && ps[i].name == ps[j].name;
      assert j == |us|;
      assert us[i] in us;
    }
  }

  /** What was cut is gone, for every name. */
  lemma CutGone(ts: seq<string>, us: seq<string>, name: string)
    requires Cuts(ts, us, name)
    ensures TextsOk(us) && Get(us, name) == None
  {
    hide Matches;
    NotFound(us, name);
  }

  /** What was added where nothing is found reads as it was stored. */
  lemma AddFound(us: seq<string>, name: string, value: string)
    requires TextsOk(us) && Get(us, name) == None && NUL !in name && NUL !in value
    ensures TextsOk(us + [TextOf(name, value)])
    ensures Get(us + [TextOf(name, value)], name) == Some(ReadAs(name, value))
  {
    hide Matches, TextOf;
    var t := TextOf(name, value);
    MatchesOwn(name, value);
    OwnValueIff(name, value);
    FindIs(us + [t], name, |us|);
  }

  /** From a store of distinct names, as every run of names without an equals sign leaves
      it: if the name can be searched for, it still can behind a set, and what was set reads
      back if and only if the name has no equals sign. */
  lemma ReadsBackIff(ts: seq<string>, name: string, value: string)
    requires Tidy(ts) && NUL !in name && NUL !in value && Walkable(ts, name)
    ensures TextsOk(Put(ts, name, value, true)) && Walkable(Put(ts, name, value, true), name)
    ensures Get(Put(ts, name, value, true), name) == Some(value) <==> '=' !in name
  {
    hide Get, Drop, Matches, TextOf, Tidy, Find;
    WalkableIff(ts, name);
    DropCuts(ts, name);
    CutGone(ts, Drop(ts, name), name);
    AddFound(Drop(ts, name), name, value);
    var us := Put(ts, name, value, true);
    forall t | t in us
      ensures t != name
    {
    }
  }

  /** Ordinary names other than the one cut keep what they have. */
  lemma CutOthers(ts: seq<string>, us: seq<string>, name: string, other: string)
    requires Tidy(ts) && Cuts(ts, us, name) && NameOk(name) && NameOk(other) && other != name
    ensures Get(us, other) == Get(ts, other)
  {
    hide Matches, Get, PairOf;
    FoundIff(us, other);
    FoundIff(ts, other);
    if Get(ts, other).Some? {
      var t :| t in ts && Matches(t, other);
      FoundIs(ts, other, t);
      MatchPart(t, other);
      MatchPart(t, name);
      FoundIs(us, other, t);
    }
  }

  lemma AddOthers(us: seq<string>, name: string, value: string, other: string)
    requires TextsOk(us) && NameOk(name) && NameOk(other) && other != name && NUL !in value
    ensures TextsOk(us + [TextOf(name, value)])
    ensures Get(us + [TextOf(name, value)], other) == Get(us, other)
  {
    hide Matches, TextOf, PairOf;
    var t := TextOf(name, value);
    PairOfText(name, value);
    MatchPart(t, other);
    var k := Find(us, other);
    FindIs(us + [t], other, if k < |us| then k else |us| + 1);
  }
}
