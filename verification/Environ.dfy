/** The environment of a task group (nuttx/sched/environ): a list of texts `name=value`,
    searched by the same test as the NSH variables, in which a removal puts the last text
    in the place of the one removed. */
module Environ {
  import opened Common
  import opened NshVars
  import opened NshVarStore
  import opened NshTexts

  /** env_removevar: the last text takes the place of the k-th. */
  function Exchange(ts: seq<string>, k: nat): seq<string>
    requires k < |ts|
  {
    ts[k := ts[|ts| - 1]][..|ts| - 1]
  }

  /** Without the text that is found. */
  function Removed(ts: seq<string>, name: string): seq<string> {
    var k := Find(ts, name);
    if k < |ts| then Exchange(ts, k) else ts
  }

  /** unsetenv refuses an empty name and one with an equals sign. */
  predicate UnsetWorks(name: string) {
    name != "" && '=' !in name
  }

  function UnsetEnv(ts: seq<string>, name: string): seq<string> {
    if UnsetWorks(name) then Removed(ts, name) else ts
  }

  /** setenv with overwriting: an empty value is a request to unset the name, and the old
      text is removed before the new one is allocated. */
  function SetEnv(ts: seq<string>, name: string, value: string, ok: bool): seq<string> {
    if value == "" then UnsetEnv(ts, name)
    else if ok then Removed(ts, name) + [TextOf(name, value)]
    else Removed(ts, name)
  }

  /** Whether setenv reports success. */
  predicate SetWorks(name: string, value: string, ok: bool) {
    if value == "" then UnsetWorks(name) else ok
  }

  lemma ExchangeAt(ts: seq<string>, k: nat, i: nat)
    requires k < |ts| && i < |ts| - 1
    ensures Exchange(ts, k)[i] == ts[if i == k then |ts| - 1 else i]
  {
  }

  lemma ExchangeHolds(ts: seq<string>, k: nat, t: string)
    requires k < |ts| && t in ts && t != ts[k]
    ensures t in Exchange(ts, k)
  {
    hide Exchange;
    var i :| 0 <= i < |ts| && ts[i] == t;
    ExchangeSize(ts, k);
    ExchangeAt(ts, k, if i == |ts| - 1 then k else i);
  }

  lemma ExchangeSize(ts: seq<string>, k: nat)
    requires k < |ts|
    ensures |Exchange(ts, k)| == |ts| - 1
  {
  }

  lemma ExchangeTidy(ts: seq<string>, k: nat)
    requires Tidy(ts) && k < |ts|
    ensures Tidy(Exchange(ts, k)) && ts[k] !in Exchange(ts, k)
    ensures forall t | t in Exchange(ts, k) :: t in ts
  {
    hide Exchange, PairOf;
    var us, ps := Exchange(ts, k), Pairs(ts);
    ExchangeSize(ts, k);
    forall i | 0 <= i < |us|
      ensures us[i] == ts[if i == k then |ts| - 1 else i]
    {
      ExchangeAt(ts, k, i);
    }
    forall i, j | 0 <= i < j < |us|
      ensures Pairs(us)[i].name != Pairs(us)[j].name
    {
      var i', j' := if i == k then |ts| - 1 else i, if j == k then |ts| - 1 else j;
      assert ps[i'].name != ps[j'].name;
    }
    forall i | 0 <= i < |us|
      ensures us[i] != ts[k]
    {
      var i' := if i == k then |ts| - 1 else i;
      assert ps[i'].name != ps[k].name;
    }
  }

  /** What setenv and unsetenv remove is what the name finds. */
  lemma RemovedCuts(ts: seq<string>, name: string)
    requires Tidy(ts) && NUL !in name
    ensures Cuts(ts, Removed(ts, name), name)
  {
    hide Matches, PairOf, Exchange, Find;
    var k, us := Find(ts, name), Removed(ts, name);
    if k < |ts| {
      ExchangeTidy(ts, k);
      forall t | t in ts && t != ts[k]
        ensures t in us && !Matches(t, name)
      {
        ExchangeHolds(ts, k, t);
        if Matches(t, name) {
          MatchPart(t, name);
          MatchPart(ts[k], name);
          OnlyOne(ts, t, ts[k]);
        }
      }
    } else {
      NoneMatches(ts, name);
    }
  }

  lemma NoneMatches(ts: seq<string>, name: string)
    requires Find(ts, name) == |ts|
    ensures forall t | t in ts :: !Matches(t, name)
  {
  }

  /** The environment as the C structure keeps it. */
  class TaskGroup {
    var envp: seq<string>

    ghost predicate Valid()
      reads this
    {
      TextsOk(envp)
    }

    constructor (environment: seq<string>)
      requires TextsOk(environment)
      ensures Valid() && envp == environment
    {
      envp := environment;
    }

    /** env_cmpname */
    static method CmpName(name: string, text: string) returns (same: bool)
      requires NUL !in name && NUL !in text && text != name
      ensures same <==> Matches(text, name)
    {
      var i := 0;
      while CharAt(name, i) == CharAt(text, i)
        invariant i <= |name| && i <= |text| && name[..i] == text[..i]
        decreases |name| - i
      {
        BothEnd(name, text, i);
        i := i + 1;
      }
      CharIn(name, i);
      MatchesAt(text, name, i);
      same := CharAt(name, i) == NUL && CharAt(text, i) == '=';
    }

    /** env_findvar: the index of the text, or nothing. */
    method FindVar(name: string) returns (index: Option<nat>)
      requires Valid() && NUL !in name && Walkable(envp, name)
      ensures index == if Find(envp, name) < |envp| then Some(Find(envp, name)) else None
    {
      hide Find, Matches;
      var i := 0;
      while i < |envp|
        invariant i <= |envp| && i <= Find(envp, name)
      {
        WalkAt(envp, name, i);
        var same := CmpName(name, envp[i]);
        FindNext(envp, name, i);
        if same {
          return Some(i);
        }
        i := i + 1;
      }
      return None;
    }

    /** env_removevar */
    method RemoveVar(index: nat)
      requires Valid() && index < |envp|
      modifies this
      ensures Valid() && envp == Exchange(old(envp), index)
    {
      var last := |envp| - 1;
      if index == last {
        envp := envp[..last];
      } else {
        envp := envp[index := envp[last]][..last];
      }
    }

    method GetEnvironment(name: string) returns (value: Option<string>)
      requires Valid() && NUL !in name && Walkable(envp, name)
      ensures value == Get(envp, name)
    {
      hide Find, Walkable;
      var index := FindVar(name);
      if index.None? {
        return None;
      }
      var text := envp[index.value];
      var eq := 0;
      while text[eq] != '='
        invariant eq <= FirstEq(text)
        decreases FirstEq(text) - eq
      {
        eq := eq + 1;
      }
      return Some(text[eq + 1..]);
    }

    /** setenv with overwriting; `ok` says whether its allocations succeed. */
    method SetEnvironment(name: string, value: string, ok: bool) returns (works: bool)
      requires Valid() && NUL !in name && NUL !in value && Walkable(envp, name)
      modifies this
      ensures Valid() && envp == SetEnv(old(envp), name, value, ok) && works == SetWorks(name, value, ok)
    {
      hide Find, Walkable, TextOk, Exchange;
      if value == "" {
        works := UnsetEnvironment(name);
        return;
      }
      TextOfAt(name, value);
      var index := FindVar(name);
      if index.Some? {
        RemoveVar(index.value);
      }
      if !ok {
        return false;
      }
      envp := envp + [name + "=" + value];
      return true;
    }

    /** unsetenv */
    method UnsetEnvironment(name: string) returns (works: bool)
      requires Valid() && NUL !in name && Walkable(envp, name)
      modifies this
      ensures Valid() && envp == UnsetEnv(old(envp), name) && works == UnsetWorks(name)
    {
      hide Find, Walkable, Exchange;
      if name == "" || '=' in name {
        return false;
      }
      var index := FindVar(name);
      if index.Some? {
        RemoveVar(index.value);
      }
      return true;
    }
  }
}
