/** NSH variables and the environment together: the variable parts of set, unset and
    export (apps/nshlib/nsh_envcmds.c), the library calls behind them
    (nuttx/sched/environ) and the lookup of `$name` (nsh_envexpand). */
module NshEnv {
  import opened Common
  import opened NshVars
  import opened NshVarStore
  import opened NshTexts
  import opened Environ

  predicate IsSpace(c: char) {
    c in {' ', '\t', '\n', '\r', '\U{0B}', '\U{0C}'}
  }

  function TrimLeft(s: string): (r: string)
    ensures |r| <= |s| && r == s[|s| - |r|..]
    ensures r == [] || !IsSpace(r[0])
    ensures forall i | 0 <= i < |s| - |r| :: IsSpace(s[i])
  {
    if s == [] || !IsSpace(s[0]) then s else TrimLeft(s[1..])
  }

  function TrimRight(s: string): (r: string)
    ensures r <= s
    ensures r == [] || !IsSpace(r[|r| - 1])
    ensures forall i | |r| <= i < |s| :: IsSpace(s[i])
  {
    if s == [] || !IsSpace(s[|s| - 1]) then s else TrimRight(s[..|s| - 1])
  }

  /** The part of the text from `i` to `j`, with nothing but space around it. */
  predicate Trims(s: string, i: nat, j: nat, r: string) {
    && i <= j <= |s| && r == s[i..j]
    && (forall k | 0 <= k < i :: IsSpace(s[k])) && (forall k | j <= k < |s| :: IsSpace(s[k]))
    && (r == [] || (!IsSpace(r[0]) && !IsSpace(r[|r| - 1])))
  }

  /** nsh_trimspaces: the space on both sides goes, and nothing else. */
  function Trim(s: string): (r: string)
    ensures forall c | c in r :: c in s
    ensures exists i: nat, j: nat :: Trims(s, i, j, r)
  {
    TrimBoth(s);
    TrimRight(TrimLeft(s))
  }

  lemma TrimBoth(s: string)
    ensures forall c | c in TrimRight(TrimLeft(s)) :: c in s
    ensures exists i: nat, j: nat :: Trims(s, i, j, TrimRight(TrimLeft(s)))
  {
    hide IsSpace, TrimLeft, TrimRight;
    var t := TrimLeft(s);
    var r := TrimRight(t);
    var i := |s| - |t|;
    assert forall k | 0 <= k < |t| :: t[k] == s[i + k];
    forall k | i + |r| <= k < |s|
      ensures IsSpace(s[k])
    {
      assert t[k - i] == s[k];
    }
    assert Trims(s, i, i + |r|, r);
  }

  /** The text between the space is the only one of its kind. */
  lemma TrimIs(s: string, i: nat, j: nat, r: string)
    requires Trims(s, i, j, r)
    ensures Trim(s) == r
  {
    hide IsSpace, Trim;
    var i': nat, j': nat :| Trims(s, i', j', Trim(s));
    if r != [] {
      TrimsInside(s, i, j, r, i', j', Trim(s));
    }
    if Trim(s) != [] {
      TrimsInside(s, i', j', Trim(s), i, j, r);
    }
  }

  lemma TrimsInside(s: string, i: nat, j: nat, r: string, i': nat, j': nat, r': string)
    requires Trims(s, i, j, r) && Trims(s, i', j', r') && r != []
    ensures i' <= i && j <= j' && r' != []
  {
    hide IsSpace;
    assert r[0] == s[i] && r[|r| - 1] == s[j - 1];
    assert !IsSpace(s[i]) && !IsSpace(s[j - 1]);
  }

  /** The texts of the NSH variables and those of the environment. */
  datatype Session = Session(local: seq<string>, env: seq<string>)

  predicate StoresOk(s: Session) {
    TextsOk(s.local) && TextsOk(s.env)
  }

  /** Whether a search for the name has a defined answer in both stores. */
  predicate Searchable(s: Session, name: string) {
    Walkable(s.local, name) && Walkable(s.env, name)
  }

  /** No two texts, in whichever store, are stored under one name. */
  ghost predicate OneOwner(s: Session) {
    && Tidy(s.local) && Tidy(s.env)
    && forall t, u | t in s.local && u in s.env :: TextOk(t) && TextOk(u) && Part(t) != Part(u)
  }

  /** What one owner means to a reader: no name at all is found in both stores. */
  lemma OneOwnerIff(s: Session)
    requires Tidy(s.local) && Tidy(s.env)
    ensures OneOwner(s) <==> forall name | NUL !in name :: Get(s.local, name).None? || Get(s.env, name).None?
  {
    hide Get, PairOf, Matches, Tidy;
    TidyOk(s);
    if OneOwner(s) {
      forall name | NUL !in name
        ensures Get(s.local, name).None? || Get(s.env, name).None?
      {
        NotBoth(s, name);
      }
    } else {
      var t, u :| t in s.local && u in s.env && Part(t) == Part(u);
      HeldIff(s.local, Part(t));
      HeldIff(s.env, Part(t));
    }
  }

  lemma TidyOk(s: Session)
    requires Tidy(s.local) && Tidy(s.env)
    ensures StoresOk(s) && forall t, u | t in s.local && u in s.env :: TextOk(t) && TextOk(u)
  {
  }

  lemma NotBoth(s: Session, name: string)
    requires OneOwner(s)
    ensures Get(s.local, name).None? || Get(s.env, name).None?
  {
    hide Get, PairOf, Matches;
    FoundIff(s.local, name);
    FoundIff(s.env, name);
    if Get(s.local, name).Some? && Get(s.env, name).Some? {
      var t :| t in s.local && Matches(t, name);
      var u :| u in s.env && Matches(u, name);
      MatchPart(t, name);
      MatchPart(u, name);
    }
  }

  // ---- The commands ----

  /** A command; `ok` says whether the allocation it needs succeeds. */
  datatype Cmd =
    | Set(name: string, value: string, ok: bool)
    | Unset(name: string)
    | Export(name: string, given: Option<string>, ok: bool)

  /** The words of a command are C strings; the name is not checked further. */
  predicate CmdFree(c: Cmd) {
    && NUL !in c.name
    && (c.Set? ==> NUL !in c.value)
    && (c.Export? && c.given.Some? ==> NUL !in c.given.value)
  }

  /** A command whose name has no equals sign. */
  predicate CmdOk(c: Cmd) {
    CmdFree(c) && '=' !in c.name
  }

  /** `set` changes the environment if the name is found there, else the NSH variables. */
  function CmdSet(s: Session, name: string, value: string, ok: bool): (r: Session)
    requires StoresOk(s) && NUL !in name && NUL !in value
    ensures StoresOk(r)
  {
    PutKeepsOk(s.local, name, Trim(value), ok);
    SetEnvKeepsOk(s.env, name, Trim(value), ok);
    if Get(s.env, name).Some? then s.(env := SetEnv(s.env, name, Trim(value), ok))
    else s.(local := Put(s.local, name, Trim(value), ok))
  }

  function CmdUnset(s: Session, name: string): (r: Session)
    requires StoresOk(s)
    ensures StoresOk(r)
  {
    DropKeepsOk(s.local, name);
    RemovedKeepsOk(s.env, name);
    Session(Drop(s.local, name), UnsetEnv(s.env, name))
  }

  function ExportedValue(s: Session, name: string, given: Option<string>): (v: string)
    requires StoresOk(s) && (given.Some? ==> NUL !in given.value)
    ensures NUL !in v
  {
    if given.Some? then given.value
    else if Get(s.local, name).Some? then Get(s.local, name).value
    else ""
  }

  function CmdExport(s: Session, name: string, given: Option<string>, ok: bool): (r: Session)
    requires StoresOk(s) && NUL !in name && (given.Some? ==> NUL !in given.value)
    ensures StoresOk(r)
  {
    var value := ExportedValue(s, name, given);
    DropKeepsOk(s.local, name);
    SetEnvKeepsOk(s.env, name, value, ok);
    var env := SetEnv(s.env, name, value, ok);
    if SetWorks(name, value, ok) then Session(Drop(s.local, name), env) else s.(env := env)
  }

  function Do(s: Session, c: Cmd): (r: Session)
    requires StoresOk(s) && CmdFree(c)
    ensures StoresOk(r)
  {
    match c
    case Set(name, value, ok) => CmdSet(s, name, value, ok)
    case Unset(name) => CmdUnset(s, name)
    case Export(name, given, ok) => CmdExport(s, name, given, ok)
  }

  predicate RunFree(cs: seq<Cmd>) {
    forall i | 0 <= i < |cs| :: CmdFree(cs[i])
  }

  /** A run on names without an equals sign. */
  predicate RunOk(cs: seq<Cmd>) {
    RunFree(cs) && forall i | 0 <= i < |cs| :: CmdOk(cs[i])
  }

  function DoAll(s: Session, cs: seq<Cmd>): (r: Session)
    requires StoresOk(s) && RunFree(cs)
    ensures StoresOk(r)
    decreases |cs|
  {
    if cs == [] then s else Do(DoAll(s, cs[..|cs| - 1]), cs[|cs| - 1])
  }

  lemma RemovedKeepsOk(ts: seq<string>, name: string)
    requires TextsOk(ts)
    ensures TextsOk(Removed(ts, name))
  {
  }

  lemma SetEnvKeepsOk(ts: seq<string>, name: string, value: string, ok: bool)
    requires TextsOk(ts) && NUL !in name && NUL !in value
    ensures TextsOk(SetEnv(ts, name, value, ok))
  {
    hide Removed, TextOk, TextOf;
    RemovedKeepsOk(ts, name);
    TextOfAt(name, value);
  }

  /** `$name`, for a name that is not built in: the NSH variable, then the environment. */
  function Expand(s: Session, name: string): string
    requires StoresOk(s)
  {
    if Get(s.local, name).Some? then Get(s.local, name).value
    else if Get(s.env, name).Some? then Get(s.env, name).value
    else ""
  }

  predicate BuiltIn(name: string) {
    name == "?" || name == "!"
  }

  /** nsh_envexpand: `$?` is the status of the last command and `$!` the last process
      number, as text; every other name is looked up. */
  function EnvValue(s: Session, name: string, failed: bool, pid: string): string
    requires StoresOk(s)
  {
    if name == "?" then (if failed then "1" else "0")
    else if name == "!" then pid
    else Expand(s, name)
  }

  // ---- When one owner is kept ----

  predicate Found(s: Session, name: string)
    requires StoresOk(s)
  {
    Get(s.local, name).Some? || Get(s.env, name).Some?
  }

  /** Whether the command puts a new text into one of the stores. */
  predicate Stores(s: Session, c: Cmd)
    requires StoresOk(s) && CmdFree(c)
  {
    match c
    case Set(_, _, ok) => ok
    case Unset(_) => false
    case Export(name, given, ok) => ok && ExportedValue(s, name, given) != ""
  }

  /** The name has no equals sign, or nothing is stored, or the first part of the name is
      not taken, or what takes it is the very text that the name finds. */
  predicate Safe(s: Session, c: Cmd)
    requires StoresOk(s) && CmdFree(c)
  {
    '=' !in c.name || !Stores(s, c) || !Found(s, FirstPart(c.name)) || Found(s, c.name)
  }

  /** Texts that the name does not find, but that stand under its first part. */
  ghost predicate Clashes(s: Session, name: string)
    requires StoresOk(s)
  {
    exists u | u in s.local + s.env :: TextOk(u) && Part(u) == FirstPart(name) && !Matches(u, name)
  }

  lemma ClashesIff(s: Session, name: string)
    requires OneOwner(s) && NUL !in name
    ensures Clashes(s, name) <==> '=' in name && Found(s, FirstPart(name)) && !Found(s, name)
  {
    hide Get, PairOf, Matches, Tidy;
    TidyOk(s);
    FirstPartOk(name);
    var part := FirstPart(name);
    HeldIff(s.local, part);
    HeldIff(s.env, part);
    FoundIff(s.local, name);
    FoundIff(s.env, name);
    if Clashes(s, name) {
      var u :| u in s.local + s.env && TextOk(u) && Part(u) == part && !Matches(u, name);
      MatchPart(u, name);
      forall t | t in s.local + s.env && Matches(t, name)
        ensures false
      {
        MatchIsOnly(s, name, t, u);
      }
    } else if Found(s, part) {
      var u :| u in s.local + s.env && TextOk(u) && Part(u) == part;
      assert Matches(u, name);
    }
  }

  lemma MatchIsOnly(s: Session, name: string, t: string, u: string)
    requires OneOwner(s) && t in s.local + s.env && u in s.local + s.env && Matches(t, name)
    requires TextOk(u) && Part(u) == FirstPart(name)
    ensures t == u
  {
    hide PairOf, Matches;
    assert t in s.local || t in s.env;
    MatchPart(t, name);
    if t in s.local && u in s.local {
      OnlyOne(s.local, t, u);
    } else if t in s.env && u in s.env {
      OnlyOne(s.env, t, u);
    }
  }

  /** Adding a text to one of two stores that hold what the name does not find. */
  lemma AddKeepsIff(s: Session, a: seq<string>, b: seq<string>, name: string, value: string)
    requires OneOwner(s) && NUL !in name && NUL !in value
    requires Tidy(a) && Tidy(b) && (forall t, u | t in a && u in b :: TextOk(t) && TextOk(u) && Part(t) != Part(u))
    requires forall t :: t in a || t in b <==> t in s.local + s.env && !Matches(t, name)
    ensures var r := a + [TextOf(name, value)];
            (Tidy(r) && forall t, u | t in r && u in b :: TextOk(t) && TextOk(u) && Part(t) != Part(u))
            <==> !Clashes(s, name)
  {
    hide PairOf, Matches, TextOf, Tidy;
    TidyOk(s);
    var t0 := TextOf(name, value);
    var r := a + [t0];
    StoredUnder(name, value);
    AddTidyIff(a, t0);
    AllOk(a);
    AllOk(b);
    assert t0 in r;
    if Clashes(s, name) {
      var u :| u in s.local + s.env && TextOk(u) && Part(u) == FirstPart(name) && !Matches(u, name);
      assert u in a || u in b;
    } else {
      forall u | u in a || u in b
        ensures Part(u) != Part(t0)
      {
        assert u in s.local + s.env && !Matches(u, name);
      }
    }
  }

  lemma AllOk(ts: seq<string>)
    requires Tidy(ts)
    ensures forall t | t in ts :: TextOk(t)
  {
  }

  /** Every command on every name: from a session without shared names, the next session has
      none if and only if the command is safe. */
  lemma KeepsOneOwnerIff(s: Session, c: Cmd)
    requires OneOwner(s) && CmdFree(c) && Searchable(s, c.name)
    ensures OneOwner(Do(s, c)) <==> Safe(s, c)
  {
    hide Get, PairOf, Matches, Tidy, Drop, Removed, TextOf, Trim, Found;
    TidyOk(s);
    DropCuts(s.local, c.name);
    RemovedCuts(s.env, c.name);
    ClashesIff(s, c.name);
    match c
    case Set(name, value, ok) =>
      SetKeepsIff(s, name, value, ok);
    case Unset(name) =>
    case Export(name, given, ok) =>
      if Stores(s, c) {
        AddKeepsIff(s, Removed(s.env, name), Drop(s.local, name), name, ExportedValue(s, name, given));
      }
  }

  lemma SetKeepsIff(s: Session, name: string, value: string, ok: bool)
    requires OneOwner(s) && NUL !in name && NUL !in value
    ensures OneOwner(CmdSet(s, name, value, ok)) <==> !ok || !Clashes(s, name)
  {
    hide PairOf, Matches, Tidy, Drop, Removed, TextOf, Trim, Get;
    TidyOk(s);
    var v := Trim(value);
    DropCuts(s.local, name);
    RemovedCuts(s.env, name);
    FoundIff(s.local, name);
    FoundIff(s.env, name);
    NotBoth(s, name);
    if Get(s.env, name).Some? {
      MatchNoClash(s, name);
      if v != "" && ok {
        AddKeepsIff(s, Removed(s.env, name), s.local, name, v);
      }
    } else if ok {
      AddKeepsIff(s, Drop(s.local, name), s.env, name, v);
    }
  }

  lemma MatchNoClash(s: Session, name: string)
    requires OneOwner(s) && NUL !in name && Found(s, name)
    ensures !Clashes(s, name)
  {
    ClashesIff(s, name);
  }

  /** With an exported name, a set of a name that continues it makes a second owner. */
  lemma SharedRun()
    ensures
      var cs := [Export("a", Some("1"), true), Cmd.Set("a=b", "v", true)];
      && CmdFree(cs[0]) && CmdFree(cs[1])
      && var s := DoAll(Session([], []), cs);
         s == Session(["a=b=v"], ["a=1"]) && !OneOwner(s) && Expand(s, "a") == "b=v"
  {
    hide Get, PairOf, Matches, TextOf, Tidy, Trim, OneOwner;
    var e, c := Export("a", Some("1"), true), Cmd.Set("a=b", "v", true);
    var s0, s1 := Session([], []), Session([], ["a=1"]);
    assert [e, c][..1] == [e] && [e][..0] == [];
    assert DoAll(s0, [e]) == Do(s0, e);
    assert DoAll(s0, [e, c]) == Do(Do(s0, e), c);
    Texts();
    assert Do(s0, e) == s1;
    SharedSecond();
  }

  lemma TrimWord()
    ensures Trim("v") == "v"
  {
    assert !IsSpace("v"[0]);
  }

  lemma SharedSecond()
    ensures StoresOk(Session([], ["a=1"]))
    ensures
      var s := Do(Session([], ["a=1"]), Cmd.Set("a=b", "v", true));
      s == Session(["a=b=v"], ["a=1"]) && !OneOwner(s) && Expand(s, "a") == "b=v"
  {
    hide PairOf, Matches, TextOf, Tidy, Trim, TextOk, Find, Put, Get;
    Texts();
    TrimWord();
    PairOfText("a", "1");
    PairOfText("a", "b=v");
    MatchesOwn("a", "b=v");
    Differs("a=1", "a=b", 2);
    var s := Session(["a=b=v"], ["a=1"]);
    assert "a=b=v" in s.local && "a=1" in s.env;
    NotFound(s.env, "a=b");
    PutNew([], "a=b", "v");
    assert [] + ["a=b=v"] == ["a=b=v"];
    OneTidy("a=b=v");
    FoundIs(s.local, "a", "a=b=v");
  }

  lemma OneTidy(t: string)
    requires TextOk(t)
    ensures Tidy([t])
  {
  }

  // ---- What a name reads as ----

  /** Whether the library call that stores or removes the value succeeds. */
  predicate Works(s: Session, c: Cmd)
    requires StoresOk(s) && CmdFree(c)
  {
    match c
    case Set(name, value, ok) => if Get(s.env, name).Some? then SetWorks(name, Trim(value), ok) else ok
    case Unset(name) => UnsetWorks(name)
    case Export(name, given, ok) => SetWorks(name, ExportedValue(s, name, given), ok)
  }

  /** Reading a name after a set of it. */
  lemma ReadAfterSet(s: Session, name: string, value: string, ok: bool)
    requires OneOwner(s) && NUL !in name && NUL !in value
    ensures var v, exported := Trim(value), Get(s.env, name).Some?;
            Expand(CmdSet(s, name, value, ok), name) ==
              if exported && v == "" then (if UnsetWorks(name) then "" else Expand(s, name))
              else if ok then ReadAs(name, v)
              else ""
  {
    hide Get, PairOf, Matches, Tidy, Drop, Removed, TextOf, Trim, ReadAs, OneOwner;
    NotBoth(s, name);
    OwnerTidy(s);
    DropCuts(s.local, name);
    CutGone(s.local, Drop(s.local, name), name);
    RemovedCuts(s.env, name);
    CutGone(s.env, Removed(s.env, name), name);
    AddFound(Drop(s.local, name), name, Trim(value));
    AddFound(Removed(s.env, name), name, Trim(value));
  }

  lemma OwnerTidy(s: Session)
    requires OneOwner(s)
    ensures Tidy(s.local) && Tidy(s.env) && StoresOk(s)
  {
  }

  lemma ReadAfterUnset(s: Session, name: string)
    requires OneOwner(s) && NUL !in name
    ensures Expand(CmdUnset(s, name), name) ==
            if !UnsetWorks(name) && Get(s.env, name).Some? then Expand(s, name) else ""
  {
    hide Get, PairOf, Matches, Tidy, Drop, Removed, OneOwner;
    NotBoth(s, name);
    OwnerTidy(s);
    DropCuts(s.local, name);
    CutGone(s.local, Drop(s.local, name), name);
    RemovedCuts(s.env, name);
    CutGone(s.env, Removed(s.env, name), name);
  }

  lemma ReadAfterExport(s: Session, name: string, given: Option<string>, ok: bool)
    requires OneOwner(s) && NUL !in name && (given.Some? ==> NUL !in given.value)
    ensures var x := ExportedValue(s, name, given);
            Expand(CmdExport(s, name, given, ok), name) ==
              if x == "" then (if UnsetWorks(name) then "" else Expand(s, name))
              else if ok then ReadAs(name, x)
              else if Get(s.local, name).Some? then Get(s.local, name).value
              else ""
  {
    hide Get, PairOf, Matches, Tidy, Drop, Removed, TextOf, ReadAs, OneOwner, ExportedValue;
    NotBoth(s, name);
    OwnerTidy(s);
    DropCuts(s.local, name);
    CutGone(s.local, Drop(s.local, name), name);
    RemovedCuts(s.env, name);
    CutGone(s.env, Removed(s.env, name), name);
    AddFound(Removed(s.env, name), name, ExportedValue(s, name, given));
  }

  // ---- One name on its own ----

  /** Who owns a name, and its value. */
  datatype Slot = Absent | Local(value: string) | Exported(value: string)

  function SlotOf(s: Session, name: string): Slot
    requires StoresOk(s)
  {
    if Get(s.local, name).Some? then Local(Get(s.local, name).value)
    else if Get(s.env, name).Some? then Exported(Get(s.env, name).value)
    else Absent
  }

  function SlotValue(t: Slot): string {
    if t.Absent? then "" else t.value
  }

  /** What a command makes of its own name, if that has no equals sign.  The environment holds no empty values
      that were set, gives up the old value when a new one cannot be stored, and does not
      unset the empty name. */
  function SlotDo(t: Slot, c: Cmd): Slot {
    match c
    case Set(name, value, ok) =>
      var v := Trim(value);
      if !t.Exported? then (if ok then Local(v) else Absent)
      else if v == "" then (if name == "" then t else Absent)
      else if ok then Exported(v)
      else Absent
    case Unset(name) => if name == "" && t.Exported? then t else Absent
    case Export(name, given, ok) =>
      var v := if given.Some? then given.value else if t.Local? then t.value else "";
      if v == "" then (if name == "" then t else Absent)
      else if ok then Exported(v)
      else if t.Local? then t
      else Absent
  }

  /** The history of one name: commands on other names do not touch it. */
  function SlotAll(t: Slot, cs: seq<Cmd>, name: string): Slot
    decreases |cs|
  {
    if cs == [] then t
    else
      var before := SlotAll(t, cs[..|cs| - 1], name);
      var c := cs[|cs| - 1];
      if c.name == name then SlotDo(before, c) else before
  }

  /** A store from which an ordinary name was cut. */
  lemma SlotCut(ts: seq<string>, us: seq<string>, name: string, other: string)
    requires Tidy(ts) && Cuts(ts, us, name) && NameOk(name) && NameOk(other)
    ensures TextsOk(us) && Get(us, other) == if other == name then None else Get(ts, other)
  {
    hide Get, Matches;
    CutGone(ts, us, name);
    if other != name {
      CutOthers(ts, us, name, other);
    }
  }

  /** A store to which an ordinary name was added. */
  lemma SlotAdd(us: seq<string>, name: string, value: string, other: string)
    requires TextsOk(us) && Get(us, name) == None && NameOk(name) && NameOk(other) && NUL !in value
    ensures TextsOk(us + [TextOf(name, value)])
    ensures Get(us + [TextOf(name, value)], other) == if other == name then Some(value) else Get(us, other)
  {
    hide Get, Matches, TextOf;
    AddFound(us, name, value);
    if other != name {
      AddOthers(us, name, value, other);
    }
  }

  lemma OneStep(s: Session, c: Cmd, name: string)
    requires OneOwner(s) && CmdOk(c) && NameOk(name)
    ensures OneOwner(Do(s, c))
    ensures SlotOf(Do(s, c), name) == if c.name == name then SlotDo(SlotOf(s, name), c) else SlotOf(s, name)
  {
    hide Get, Drop, Removed, TextOf, Trim, OneOwner, Tidy;
    OwnerTidy(s);
    SafeStep(s, c);
    NotBoth(s, c.name);
    DropCuts(s.local, c.name);
    RemovedCuts(s.env, c.name);
    var local, env := Drop(s.local, c.name), Removed(s.env, c.name);
    SlotCut(s.local, local, c.name, name);
    SlotCut(s.env, env, c.name, name);
    SlotCut(s.local, local, c.name, c.name);
    SlotCut(s.env, env, c.name, c.name);
    if c.Set? {
      SlotAdd(local, c.name, Trim(c.value), name);
      SlotAdd(env, c.name, Trim(c.value), name);
    } else if c.Export? {
      SlotAdd(env, c.name, ExportedValue(s, c.name, c.given), name);
    }
  }

  /** Commands on names without an equals sign always keep one owner. */
  lemma SafeStep(s: Session, c: Cmd)
    requires OneOwner(s) && CmdOk(c)
    ensures OneOwner(Do(s, c))
  {
    hide Get, Drop, Removed, Tidy, Do;
    OwnerTidy(s);
    TidyOk(s);
    FindIsIndex(s.local, c.name);
    FindIsIndex(s.env, c.name);
    KeepsOneOwnerIff(s, c);
  }

  /** Single owner: over every run on names without an equals sign, from a session without
      shared names, no name is ever in both stores, and every name follows its own history. */
  lemma {:induction false} SingleOwner(s: Session, cs: seq<Cmd>, name: string)
    requires OneOwner(s) && NameOk(name) && RunOk(cs)
    ensures OneOwner(DoAll(s, cs))
    ensures SlotOf(DoAll(s, cs), name) == SlotAll(SlotOf(s, name), cs, name)
    ensures Expand(DoAll(s, cs), name) == SlotValue(SlotAll(SlotOf(s, name), cs, name))
    decreases |cs|
  {
    hide Get, Do, OneOwner;
    OwnerTidy(s);
    if cs != [] {
      SingleOwner(s, cs[..|cs| - 1], name);
      OneStep(DoAll(s, cs[..|cs| - 1]), cs[|cs| - 1], name);
    }
  }

  /** Of any run: one owner is kept as long as every command is safe where it is run. */
  lemma {:induction false} SafeRun(s: Session, cs: seq<Cmd>)
    requires OneOwner(s) && RunFree(cs)
    requires forall i | 0 <= i < |cs| ::
               Searchable(DoAll(s, cs[..i]), cs[i].name) && Safe(DoAll(s, cs[..i]), cs[i])
    ensures OneOwner(DoAll(s, cs))
    decreases |cs|
  {
    hide Do, OneOwner, Searchable, Safe;
    OwnerTidy(s);
    if cs != [] {
      var n := |cs| - 1;
      forall i | 0 <= i < n
        ensures cs[..n][..i] == cs[..i] && cs[..n][i] == cs[i]
      {
      }
      SafeRun(s, cs[..n]);
      KeepsOneOwnerIff(DoAll(s, cs[..n]), cs[n]);
    }
  }

  /** After a command its name can still be searched for. */
  lemma StaysSearchable(s: Session, c: Cmd)
    requires OneOwner(s) && CmdFree(c) && Searchable(s, c.name)
    ensures Searchable(Do(s, c), c.name)
  {
    hide Get, Drop, Removed, TextOf, Trim, Tidy, Find, OneOwner, Matches;
    OwnerTidy(s);
    WalkableIff(s.local, c.name);
    WalkableIff(s.env, c.name);
    DropCuts(s.local, c.name);
    RemovedCuts(s.env, c.name);
    var r := Do(s, c);
    forall t | t in r.local || t in r.env
      ensures t != c.name
    {
      if t !in s.local && t !in s.env {
        var v := if c.Set? then Trim(c.value) else ExportedValue(s, c.name, c.given);
        assert t == TextOf(c.name, v);
      }
    }
  }

  /** The value a command is to give to its name, as it reads once it is stored: a set gives
      the trimmed value, an export the one given or that of the NSH variable. */
  function Intended(s: Session, c: Cmd): string
    requires StoresOk(s) && CmdFree(c)
  {
    match c
    case Set(name, value, _) => ReadAs(name, Trim(value))
    case Unset(_) => ""
    case Export(name, given, _) =>
      var x := ExportedValue(s, name, given);
      if x == "" then "" else ReadAs(name, x)
  }

  /** After a command that worked: `$name` is the value given to it, by a set (trimmed) or by
      an export, whichever store holds it; with an equals sign in the name it reads as the
      rest of the name and the value, and `ReadAs` says that this is never the value alone. */
  lemma LatestWins(s: Session, cs: seq<Cmd>, c: Cmd, failed: bool, pid: string)
    requires OneOwner(s) && RunOk(cs) && CmdFree(c) && !BuiltIn(c.name)
    requires Searchable(DoAll(s, cs), c.name) && Works(DoAll(s, cs), c)
    ensures Searchable(DoAll(s, cs + [c]), c.name)
    ensures EnvValue(DoAll(s, cs + [c]), c.name, failed, pid) == Intended(DoAll(s, cs), c)
    ensures c.Set? && '=' !in c.name ==>
              exists i: nat, j: nat :: Trims(c.value, i, j, EnvValue(DoAll(s, cs + [c]), c.name, failed, pid))
  {
    hide Get, Do, Trim, Expand, OneOwner, Searchable, Intended;
    OwnerTidy(s);
    SingleOwner(s, cs, "");
    var before := DoAll(s, cs);
    assert (cs + [c])[..|cs|] == cs;
    StaysSearchable(before, c);
    ReadAfter(before, c);
    assert c.Set? && '=' !in c.name ==> Intended(before, c) == Trim(c.value) by {
      if c.Set? && '=' !in c.name {
        SetIntends(before, c);
      }
    }
  }

  lemma SetIntends(s: Session, c: Cmd)
    requires StoresOk(s) && CmdFree(c) && c.Set? && '=' !in c.name
    ensures Intended(s, c) == Trim(c.value)
  {
  }

  /** The built-in names: no run of commands, not even a `set` of these names, changes what
      `$?` and `$!` read as. */
  lemma BuiltInsStay(s: Session, cs: seq<Cmd>, failed: bool, pid: string)
    requires StoresOk(s) && RunFree(cs)
    ensures EnvValue(DoAll(s, cs), "?", failed, pid) == (if failed then "1" else "0")
    ensures EnvValue(DoAll(s, cs), "!", failed, pid) == pid
  {
  }

  /** What the name of a command reads as behind it. */
  lemma ReadAfter(s: Session, c: Cmd)
    requires OneOwner(s) && CmdFree(c)
    ensures Works(s, c) ==> Expand(Do(s, c), c.name) == Intended(s, c)
    ensures !Works(s, c) ==>
              Expand(Do(s, c), c.name) ==
                if Refused(s, c) || (c.Export? && Get(s.env, c.name).None?) then Expand(s, c.name) else ""
  {
    hide Get, Drop, Removed, TextOf, Trim, OneOwner;
    match c
    case Set(name, value, ok) =>
      ReadAfterSet(s, name, value, ok);
    case Unset(name) =>
      ReadAfterUnset(s, name);
    case Export(name, given, ok) =>
      NotBoth(s, name);
      ReadAfterExport(s, name, given, ok);
  }

  /** Whether the command found the name in the environment, or was to put it there, and the
      library refused the name outright. */
  predicate Refused(s: Session, c: Cmd)
    requires StoresOk(s) && CmdFree(c)
  {
    && !UnsetWorks(c.name)
    && match c
       case Set(name, value, _) => Get(s.env, name).Some? && Trim(value) == ""
       case Unset(name) => Get(s.env, name).Some?
       case Export(name, given, _) => ExportedValue(s, name, given) == ""
  }

  /** A command that did not work: a set, or an export of an exported name, leaves the name
      without a value; an export of an NSH variable keeps it; and where the library refuses
      the name nothing has changed. */
  lemma FailureLoses(s: Session, cs: seq<Cmd>, c: Cmd, failed: bool, pid: string)
    requires OneOwner(s) && RunOk(cs) && CmdFree(c) && !BuiltIn(c.name)
    requires Searchable(DoAll(s, cs), c.name) && !Works(DoAll(s, cs), c)
    ensures Searchable(DoAll(s, cs + [c]), c.name)
    ensures
      var before := DoAll(s, cs);
      EnvValue(DoAll(s, cs + [c]), c.name, failed, pid) ==
        if Refused(before, c) || (c.Export? && Get(before.env, c.name).None?)
        then EnvValue(before, c.name, failed, pid) else ""
  {
    hide Get, Do, Trim, Expand, OneOwner, Searchable, Refused;
    OwnerTidy(s);
    SingleOwner(s, cs, "");
    var before := DoAll(s, cs);
    assert (cs + [c])[..|cs|] == cs;
    StaysSearchable(before, c);
    ReadAfter(before, c);
  }

  /** Exporting a name without a value clears one that is exported already.  `$name` survives
      if and only if the name is not in the environment, is empty there, or is the empty name,
      which cannot be unset; with an equals sign in the name, if and only if it is no NSH
      variable. */
  lemma ExportKeepsIff(s: Session, name: string, failed: bool, pid: string)
    requires OneOwner(s) && NUL !in name && !BuiltIn(name) && Searchable(s, name)
    ensures EnvValue(CmdExport(s, name, None, true), name, failed, pid) == EnvValue(s, name, failed, pid) <==>
      if '=' in name then Get(s.local, name).None?
      else name == "" || Get(s.env, name) in {None, Some("")}
  {
    hide Get, OneOwner, Tidy, CmdExport;
    OwnerTidy(s);
    NotBoth(s, name);
    ReadAfterExport(s, name, None, true);
    if '=' in name && Get(s.local, name).Some? {
      OddValue(s.local, name);
    }
  }

  /** What a name with an equals sign finds is never empty. */
  lemma OddValue(ts: seq<string>, name: string)
    requires Tidy(ts) && NUL !in name && '=' in name && Get(ts, name).Some?
    ensures Get(ts, name).value != ""
  {
    hide Find;
    var t, k := ts[Find(ts, name)], FirstEq(name);
    assert forall i | 0 <= i < |name| :: t[i] == t[..|name|][i] == name[i];
    FirstEqIs(t, k);
  }

  /** export name; set name value; export name */
  function ExportTwice(name: string, value: string): (cs: seq<Cmd>)
    requires NameOk(name) && NUL !in value
    ensures RunOk(cs)
  {
    [Export(name, None, true), Cmd.Set(name, value, true), Export(name, None, true)]
  }

  /** Exporting a name that has no value leaves it absent: a later set makes an NSH variable,
      which the next export keeps. */
  lemma EmptyExportForgotten(s: Session, name: string, value: string)
    requires OneOwner(s) && StoresOk(s) && NameOk(name) && SlotOf(s, name) == Absent && name != ""
    requires NUL !in value && Trim(value) != ""
    ensures SlotOf(DoAll(s, ExportTwice(name, value)), name) == Exported(Trim(value))
  {
    hide Get, Do, Trim, OneOwner;
    var e, f := Export(name, None, true), Cmd.Set(name, value, true);
    SingleOwner(s, [e, f, e], name);
    assert [e, f, e][..2] == [e, f] && [e, f][..1] == [e] && [e][..0] == [];
    assert SlotAll(Absent, [e], name) == Absent;
    assert SlotAll(Absent, [e, f], name) == Local(Trim(value));
  }

  /** The two stores of an NSH session as objects. */
  class SessionState {
    const store: VarStore
    const group: TaskGroup

    constructor (environment: seq<string>)
      requires TextsOk(environment)
      ensures Valid() && Abs() == Session([], environment) && fresh(store) && fresh(group)
    {
      store := new VarStore();
      group := new TaskGroup(environment);
    }

    ghost predicate Valid()
      reads this, store, store.varp, group
    {
      store.Valid() && group.Valid()
    }

    ghost function Abs(): Session
      reads this, store, group
    {
      Session(store.texts, group.envp)
    }

    /** cmd_set, for `set name value`. */
    method SetCommand(name: string, value: string, ok: bool)
      requires Valid() && NUL !in name && NUL !in value && Searchable(Abs(), name)
      modifies store, store.varp, group
      ensures Valid() && Abs() == CmdSet(old(Abs()), name, value, ok)
    {
      hide Trim, Walkable, TextsOk, Put, Get;
      var trimmed := Trim(value);
      var oldvalue := group.GetEnvironment(name);
      if oldvalue.None? {
        var r := store.SetVar(name, trimmed, ok);
      } else {
        var r := group.SetEnvironment(name, trimmed, ok);
      }
    }

    /** cmd_unset */
    method UnsetCommand(name: string, memory: bool)
      requires Valid() && NUL !in name && Searchable(Abs(), name)
      modifies store, store.varp, group
      ensures Valid() && Abs() == CmdUnset(old(Abs()), name)
    {
      hide Walkable, TextsOk, Drop;
      var r := store.UnsetVar(name, memory);
      var works := group.UnsetEnvironment(name);
    }

    /** cmd_export */
    method ExportCommand(name: string, given: Option<string>, memory: bool, ok: bool)
      requires Valid() && NUL !in name && (given.Some? ==> NUL !in given.value) && Searchable(Abs(), name)
      modifies store, store.varp, group
      ensures Valid() && Abs() == CmdExport(old(Abs()), name, given, ok)
    {
      hide Walkable, TextsOk, Drop, Get;
      var value := "";
      if given.Some? {
        value := given.value;
      } else {
        var tmp := store.GetVar(name);
        if tmp.Some? {
          value := tmp.value;
        }
      }
      assert value == ExportedValue(Abs(), name, given);
      var works := group.SetEnvironment(name, value, ok);
      if works {
        var r := store.UnsetVar(name, memory);
      }
    }

    /** nsh_envexpand */
    method EnvExpand(name: string, failed: bool, pid: string) returns (value: string)
      requires Valid() && NUL !in name && Searchable(Abs(), name)
      ensures value == EnvValue(Abs(), name, failed, pid)
    {
      hide Walkable, TextsOk, Get;
      if name == "?" {
        return if failed then "1" else "0";
      } else if name == "!" {
        return pid;
      }
      var v := store.GetVar(name);
      if v.Some? {
        return v.value;
      }
      v := group.GetEnvironment(name);
      if v.Some? {
        return v.value;
      }
      return "";
    }
  }
}
