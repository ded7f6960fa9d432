/** NSH aliases (apps/nshlib/nsh_alias.c and the alias lists of nsh_parse.c): a fixed pool
    of slots on two queues.  A slot that a running command has expanded is only marked for
    removal; it is freed when that command ends. */
module NshAlias {
  import opened Common
  import opened Sequences

  datatype Slot = Slot(name: Option<string>, value: Option<string>, exp: bool, rem: bool)

  const EMPTY := Slot(None, None, false, false)

  /** The slots, the queue of live aliases and the queue of free slots. */
  datatype Pool = Pool(slots: seq<Slot>, live: seq<nat>, free: seq<nat>)

  /** The two queues partition the slots. */
  ghost predicate Partition(p: Pool) {
    && NoDup(p.live) && NoDup(p.free)
    && (forall i | i in p.live :: i < |p.slots|)
    && (forall i | i in p.free :: i < |p.slots|)
    && (forall i: nat | i < |p.slots| :: i in p.live <==> i !in p.free)
  }

  /** Live slots are named, by distinct names; free slots are empty. */
  ghost predicate Fields(p: Pool)
    requires Partition(p)
  {
    && (forall i | i in p.free :: p.slots[i] == EMPTY)
    && (forall i | i in p.live :: p.slots[i].name.Some? && (p.slots[i].value.None? ==> p.slots[i].rem))
    && (forall i, j | i in p.live && j in p.live && p.slots[i].name == p.slots[j].name :: i == j)
  }

  /** Exactly the slots held by running commands are marked as expanded, each is held
      once, and only expanded slots can wait for removal. */
  ghost predicate Marks(p: Pool, held: seq<nat>) {
    && NoDup(held)
    && (forall i | i in held :: i < |p.slots|)
    && (forall i: nat | i < |p.slots| :: p.slots[i].exp <==> i in held)
    && (forall i: nat | i < |p.slots| :: p.slots[i].rem ==> p.slots[i].exp)
  }

  ghost predicate Inv(p: Pool, held: seq<nat>) {
    Partition(p) && Fields(p) && Marks(p, held)
  }

  /** The queue without one entry (sq_rem). */
  function Remove(s: seq<nat>, x: nat): (r: seq<nat>)
    ensures NoDup(s) ==> NoDup(r) && forall y :: y in r <==> y in s && y != x
    ensures forall y | y in r :: y in s
  {
    if s == [] then []
    else if s[0] == x then s[1..]
    else
      var rest := Remove(s[1..], x);
      assert NoDup(s) ==> s[0] !in s[1..];
      [s[0]] + rest
  }

  /** The queue position of the alias with this name, or the length of the queue. */
  function Find(slots: seq<Slot>, live: seq<nat>, name: string): (k: nat)
    requires Within(live, |slots|)
    ensures k <= |live|
    ensures k < |live| ==> slots[live[k]].name == Some(name)
    ensures forall j | 0 <= j < k :: slots[live[j]].name != Some(name)
    decreases |live|
  {
    if live == [] || slots[live[0]].name == Some(name) then 0
    else 1 + Find(slots, live[1..], name)
  }

  /** alias_delete */
  function Delete(p: Pool, i: nat): (q: Pool)
    requires i < |p.slots|
    ensures |q.slots| == |p.slots|
  {
    if p.slots[i].exp then p.(slots := p.slots[i := p.slots[i].(rem := true)])
    else Pool(p.slots[i := EMPTY], Remove(p.live, i), [i] + p.free)
  }

  /** nsh_alist_add */
  function Mark(p: Pool, i: nat): (q: Pool)
    requires i < |p.slots|
    ensures |q.slots| == |p.slots|
  {
    p.(slots := p.slots[i := p.slots[i].(exp := true)])
  }

  /** One step of nsh_alist_free. */
  function Unmark(p: Pool, i: nat): (q: Pool)
    requires i < |p.slots|
    ensures |q.slots| == |p.slots|
  {
    var q := p.(slots := p.slots[i := p.slots[i].(exp := false)]);
    if p.slots[i].rem then Delete(q, i) else q
  }

  function Release(p: Pool, list: seq<nat>): (q: Pool)
    requires Within(list, |p.slots|)
    ensures |q.slots| == |p.slots|
    decreases |list|
  {
    if list == [] then p else Release(Unmark(p, list[0]), list[1..])
  }

  lemma DeleteInv(p: Pool, held: seq<nat>, i: nat)
    requires Inv(p, held) && i in p.live
    ensures Inv(Delete(p, i), held)
  {
    var q := Delete(p, i);
    if p.slots[i].exp {
      assert forall j: nat | j < |p.slots| && j != i :: q.slots[j] == p.slots[j];
    } else {
      assert forall j: nat | j < |p.slots| && j != i :: q.slots[j] == p.slots[j];
      assert i !in p.free;
      assert NoDup(q.free);
      assert forall j :: j in q.free <==> j == i || j in p.free;
    }
  }

  lemma MarkInv(p: Pool, held: seq<nat>, held': seq<nat>, i: nat)
    requires Inv(p, held) && i in p.live && !p.slots[i].exp
    requires NoDup(held') && forall j :: j in held' <==> j == i || j in held
    ensures Inv(Mark(p, i), held')
  {
    var q := Mark(p, i);
    assert forall j: nat | j < |p.slots| && j != i :: q.slots[j] == p.slots[j];
  }

  lemma UnmarkInv(p: Pool, held: seq<nat>, i: nat)
    requires Inv(p, [i] + held)
    ensures i in p.live && Inv(Unmark(p, i), held)
    ensures Unmark(p, i).live == (if p.slots[i].rem then Remove(p.live, i) else p.live)
  {
    assert ([i] + held)[0] == i;
    assert i in [i] + held;
    NoDupTail(i, held);
    if p.slots[i].rem {
      FreeMarked(p, held, i);
      var q := p.(slots := p.slots[i := p.slots[i].(exp := false)]);
      assert q.slots[i := EMPTY] == p.slots[i := EMPTY];
    } else {
      ClearMark(p, held, i);
    }
  }

  /** A mark is given up and the alias stays. */
  lemma ClearMark(p: Pool, held: seq<nat>, i: nat)
    requires Inv(p, [i] + held) && i in p.live && !p.slots[i].rem && NoDup(held) && i !in held
    requires forall j :: j in [i] + held <==> j == i || j in held
    ensures Inv(p.(slots := p.slots[i := p.slots[i].(exp := false)]), held)
  {
    hide NoDup;
    var q := p.(slots := p.slots[i := p.slots[i].(exp := false)]);
    assert forall j: nat | j < |p.slots| && j != i :: q.slots[j] == p.slots[j];
  }

  /** A mark is given up and the alias goes. */
  lemma FreeMarked(p: Pool, held: seq<nat>, i: nat)
    requires Inv(p, [i] + held) && i in p.live && NoDup(held) && i !in held
    requires forall j :: j in [i] + held <==> j == i || j in held
    ensures Inv(Pool(p.slots[i := EMPTY], Remove(p.live, i), [i] + p.free), held)
  {
    var q := Pool(p.slots[i := EMPTY], Remove(p.live, i), [i] + p.free);
    assert forall j: nat | j < |p.slots| && j != i :: q.slots[j] == p.slots[j];
    assert NoDup(q.free);
    assert forall j :: j in q.free <==> j == i || j in p.free;
  }

  lemma {:induction false} RemoveAppended(s: seq<nat>, x: nat)
    ensures x !in s ==> Remove(s, x) == s
    ensures Remove(s + [x], x) == (if x in s then Remove(s, x) + [x] else s)
  {
    if s == [] {
      assert s + [x] == [x];
    } else {
      RemoveAppended(s[1..], x);
      assert s == [s[0]] + s[1..];
      assert (s + [x])[1..] == s[1..] + [x];
    }
  }

  // ---- The session: the pool and the alias lists of the running commands ----

  /** The pool with the alias lists of the commands being run, innermost first. */
  datatype Session = Session(pool: Pool, running: seq<seq<nat>>)

  function Flat(lists: seq<seq<nat>>): seq<nat> {
    if lists == [] then [] else lists[0] + Flat(lists[1..])
  }

  ghost predicate Safe(s: Session) {
    Inv(s.pool, Flat(s.running))
  }

  /** alias_init on an unused session. */
  function Fresh(n: nat): Session {
    Session(Pool(seq(n, i => EMPTY), [], seq(n, i => i)), [])
  }

  function Lookup(p: Pool, name: string): (k: Option<nat>)
    requires Within(p.live, |p.slots|)
    ensures k.Some? ==> k.value < |p.slots| && k.value in p.live && p.slots[k.value].name == Some(name)
    ensures k.None? ==> forall i | i in p.live && i < |p.slots| :: p.slots[i].name != Some(name)
  {
    var k := Find(p.slots, p.live, name);
    if k < |p.live| then Some(p.live[k]) else None
  }

  /** The outcome of alias_save: zero or a negated error number. */
  datatype Code = OK | EINVAL | ENOMEM

  /** alias_save, where the two flags say whether each string duplication succeeds. */
  function Save(p: Pool, name: string, value: string, nameDup: bool, valueDup: bool): (r: (Pool, Code))
    requires Within(p.live, |p.slots|) && Within(p.free, |p.slots|)
    ensures |r.0.slots| == |p.slots|
  {
    if name == "" then (p, EINVAL)
    else
      var dup := if valueDup then Some(value) else None;
      match Lookup(p, name)
      case Some(i) =>
        var q := p.(slots := p.slots[i := p.slots[i].(value := dup)]);
        if valueDup then (q, OK) else (Delete(q, i), ENOMEM)
      case None =>
        if p.free == [] then (p, ENOMEM)
        else
          var i := p.free[0];
          var slot := p.slots[i].(name := if nameDup then Some(name) else None, value := dup);
          var q := Pool(p.slots[i := slot], p.live + [i], p.free[1..]);
          if nameDup && valueDup then (q, OK) else (Delete(q, i), ENOMEM)
  }

  lemma SaveInv(p: Pool, held: seq<nat>, name: string, value: string, nameDup: bool, valueDup: bool)
    requires Inv(p, held) && Within(p.live, |p.slots|) && Within(p.free, |p.slots|)
    ensures Inv(Save(p, name, value, nameDup, valueDup).0, held)
  {
    var look := Lookup(p, name);
    if name == "" {
    } else if look.Some? {
      ReplaceInv(p, held, look.value, value, valueDup);
    } else if p.free != [] {
      CreateInv(p, held, name, value, nameDup, valueDup);
    }
  }

  lemma ReplaceInv(p: Pool, held: seq<nat>, i: nat, value: string, dup: bool)
    requires Inv(p, held) && i in p.live
    ensures var q := p.(slots := p.slots[i := p.slots[i].(value := if dup then Some(value) else None)]);
            Inv(if dup then q else Delete(q, i), held)
  {
    var full := p.(slots := p.slots[i := p.slots[i].(value := Some(value))]);
    assert forall j: nat | j < |p.slots| && j != i :: full.slots[j] == p.slots[j];
    assert Inv(full, held);
    if !dup {
      DeleteInv(full, held, i);
      var q := p.(slots := p.slots[i := p.slots[i].(value := None)]);
      var d, e := Delete(q, i), Delete(full, i);
      if p.slots[i].exp {
        assert forall j: nat | j < |p.slots| && j != i :: d.slots[j] == e.slots[j];
      } else {
        assert d.slots == e.slots;
      }
    }
  }

  lemma CreateInv(p: Pool, held: seq<nat>, name: string, value: string, nameDup: bool, valueDup: bool)
    requires Inv(p, held) && Within(p.live, |p.slots|) && Within(p.free, |p.slots|)
    requires name != "" && p.free != [] && Lookup(p, name).None?
    ensures Inv(Save(p, name, value, nameDup, valueDup).0, held)
    ensures !(nameDup && valueDup) ==> Save(p, name, value, nameDup, valueDup).0 == p
  {
    var i, rest := p.free[0], p.free[1..];
    assert p.free == [i] + rest;
    NoDupTail(i, rest);
    assert i !in p.live;
    if nameDup && valueDup {
      CreatedInv(p, held, i, rest, name, value);
    } else {
      RemoveAppended(p.live, i);
      assert Save(p, name, value, nameDup, valueDup).0.slots == p.slots;
    }
  }

  lemma CreatedInv(p: Pool, held: seq<nat>, i: nat, rest: seq<nat>, name: string, value: string)
    requires Inv(p, held) && p.free == [i] + rest && i !in rest && i !in p.live && NoDup(rest)
    requires forall j :: j in p.free <==> j == i || j in rest
    requires forall j | j in p.live :: p.slots[j].name != Some(name)
    ensures i in p.free
    ensures Inv(Pool(p.slots[i := p.slots[i].(name := Some(name), value := Some(value))], p.live + [i], rest), held)
  {
    assert i in p.free;
    var q := Pool(p.slots[i := p.slots[i].(name := Some(name), value := Some(value))], p.live + [i], rest);
    assert forall j: nat | j < |p.slots| && j != i :: q.slots[j] == p.slots[j];
    assert NoDup(q.live);
    assert forall j :: j in q.live <==> j == i || j in p.live;
  }

  // ---- Steps ----

  /** alias_removeall: every alias that was live at the start is deleted. */
  function DeleteAll(p: Pool, list: seq<nat>): (q: Pool)
    requires Within(list, |p.slots|)
    ensures |q.slots| == |p.slots|
    decreases |list|
  {
    if list == [] then p else DeleteAll(Delete(p, list[0]), list[1..])
  }

  lemma {:induction false} DeleteAllInv(p: Pool, held: seq<nat>, list: seq<nat>)
    requires Inv(p, held) && Within(list, |p.slots|) && NoDup(list)
    requires forall i | i in list :: i in p.live
    ensures Inv(DeleteAll(p, list), held)
    ensures forall i :: i in DeleteAll(p, list).live <==> i in p.live && (i in list ==> p.slots[i].exp)
    decreases |list|
  {
    if list != [] {
      var i, rest := list[0], list[1..];
      assert list == [i] + rest;
      NoDupTail(i, rest);
      DeleteInv(p, held, i);
      assert forall j | j in rest :: j in list;
      DeleteAllInv(Delete(p, i), held, rest);
    }
  }

  datatype Op =
    | Begin
    | Expand(name: string)
    | Alias(name: string, value: string, nameDup: bool, valueDup: bool)
    | Unalias(name: string)
    | UnaliasAll
    | End

  /** Whether nsh_aliasfind offers this alias for expansion. */
  predicate Eligible(slot: Slot) {
    !slot.exp && slot.value.Some?
  }

  ghost function Step(s: Session, op: Op): Session
    requires Safe(s)
  {
    var p := s.pool;
    AllWithin(p.live, |p.slots|);
    AllWithin(p.free, |p.slots|);
    match op
    case Begin => s.(running := [[]] + s.running)
    case Expand(name) =>
      var k := Lookup(p, name);
      if s.running != [] && k.Some? && Eligible(p.slots[k.value]) && |s.running[0]| < |p.slots| then
        Session(Mark(p, k.value), [s.running[0] + [k.value]] + s.running[1..])
      else s
    case Alias(name, value, nameDup, valueDup) =>
      s.(pool := Save(p, name, value, nameDup, valueDup).0)
    case Unalias(name) =>
      var k := Lookup(p, name);
      if k.Some? then s.(pool := Delete(p, k.value)) else s
    case UnaliasAll => s.(pool := DeleteAll(p, p.live))
    case End =>
      if s.running == [] then s
      else
        ListWithin(p, s.running[0], Flat(s.running[1..]));
        Session(Release(p, s.running[0]), s.running[1..])
  }

  /** Every operation, in every order, keeps the pool consistent with the lists of the
      running commands. */
  lemma StepSafe(s: Session, op: Op)
    requires Safe(s)
    ensures Safe(Step(s, op))
    ensures |Step(s, op).pool.slots| == |s.pool.slots|
  {
    hide Inv, Delete, Mark, Save, Release, DeleteAll;
    var p, held := s.pool, Flat(s.running);
    InvWithin(p, held);
    match op
    case Begin =>
      var lists := [[]] + s.running;
      assert lists[1..] == s.running;
      assert Flat(lists) == [] + held == held;
    case Expand(name) =>
      var k := Lookup(p, name);
      if s.running != [] && k.Some? && Eligible(p.slots[k.value]) {
        ExpandSafe(s, k.value);
      }
    case Alias(name, value, nameDup, valueDup) =>
      SaveInv(p, held, name, value, nameDup, valueDup);
    case Unalias(name) =>
      var k := Lookup(p, name);
      if k.Some? {
        DeleteInv(p, held, k.value);
      }
    case UnaliasAll =>
      LiveIsList(p, held);
      DeleteAllInv(p, held, p.live);
    case End =>
      if s.running != [] {
        ReleaseInv(p, s.running[0], Flat(s.running[1..]));
      }
  }

  lemma InvWithin(p: Pool, held: seq<nat>)
    requires Inv(p, held)
    ensures Within(p.live, |p.slots|) && Within(p.free, |p.slots|)
  {
    AllWithin(p.live, |p.slots|);
    AllWithin(p.free, |p.slots|);
  }

  lemma LiveIsList(p: Pool, held: seq<nat>)
    requires Inv(p, held)
    ensures NoDup(p.live)
  {
  }

  lemma ExpandSafe(s: Session, i: nat)
    requires Safe(s) && s.running != [] && i in s.pool.live && !s.pool.slots[i].exp
    ensures Safe(Session(Mark(s.pool, i), [s.running[0] + [i]] + s.running[1..]))
    ensures |s.running[0]| < |s.pool.slots|
  {
    var top, rest := s.running[0], Flat(s.running[1..]);
    var lists := [top + [i]] + s.running[1..];
    assert lists[1..] == s.running[1..];
    assert i !in top + rest;
    Middle(top, i, rest);
    MarkInv(s.pool, top + rest, (top + [i]) + rest, i);
    var held := (top + [i]) + rest;
    AllWithin(held, |s.pool.slots|);
    Pigeonhole(held, |s.pool.slots|);
  }

  lemma Middle(a: seq<nat>, x: nat, b: seq<nat>)
    requires NoDup(a + b) && x !in a + b
    ensures NoDup((a + [x]) + b)
    ensures forall y :: y in (a + [x]) + b <==> y == x || y in a + b
  {
    var s, t := a + b, (a + [x]) + b;
    assert forall k | 0 <= k < |t| ::
      t[k] == (if k < |a| then s[k] else if k == |a| then x else s[k - 1]);
    forall y ensures y in t <==> y == x || y in s {
      assert y in t <==> y in a || y == x || y in b;
    }
    forall j, k | 0 <= j < k < |t|
      ensures t[j] != t[k]
    {
      if j == |a| {
        assert s[k - 1] in s;
      } else if k == |a| {
        assert s[j] in s;
      } else {
        var j', k' := if j < |a| then j else j - 1, if k < |a| then k else k - 1;
        assert s[j'] != s[k'];
      }
    }
  }

  /** nsh_alist_free gives up exactly the marks of the ending command. */
  lemma {:induction false} ReleaseInv(p: Pool, list: seq<nat>, rest: seq<nat>)
    requires Inv(p, list + rest)
    ensures Within(list, |p.slots|)
    ensures Inv(Release(p, list), rest)
    decreases |list|
  {
    hide Unmark;
    ListWithin(p, list, rest);
    if list == [] {
      assert list + rest == rest;
    } else {
      var i, more := list[0], list[1..];
      assert list + rest == [i] + (more + rest);
      UnmarkInv(p, more + rest, i);
      ReleaseInv(Unmark(p, i), more, rest);
    }
  }

  lemma ListWithin(p: Pool, list: seq<nat>, rest: seq<nat>)
    requires Inv(p, list + rest)
    ensures Within(list, |p.slots|)
  {
    assert forall i | i in list :: i in list + rest;
    AllWithin(list, |p.slots|);
  }

  lemma UnmarkAt(p: Pool, held: seq<nat>, k: nat, i: nat)
    requires Inv(p, [k] + held) && i < |p.slots| && k < |p.slots|
    ensures |Unmark(p, k).slots| == |p.slots|
    ensures i != k ==> Unmark(p, k).slots[i] == p.slots[i] && (i in Unmark(p, k).live <==> i in p.live)
    ensures p.slots[k].rem ==> k !in Unmark(p, k).live
    ensures !p.slots[k].rem ==> Unmark(p, k).slots[k] == p.slots[k].(exp := false) && Unmark(p, k).live == p.live
  {
  }

  /** What nsh_alist_free leaves of each slot: other commands' slots are untouched, and a
      slot of the ending command is freed exactly if it waits for removal. */
  lemma {:induction false} ReleaseAt(p: Pool, list: seq<nat>, rest: seq<nat>, i: nat)
    requires Inv(p, list + rest) && i < |p.slots|
    ensures Within(list, |p.slots|)
    ensures i in Release(p, list).live <==> i in p.live && !(i in list && p.slots[i].rem)
    ensures i !in list ==> Release(p, list).slots[i] == p.slots[i]
    ensures i in list && !p.slots[i].rem ==> Release(p, list).slots[i] == p.slots[i].(exp := false)
    decreases |list|
  {
    hide Inv, Unmark;
    ListWithin(p, list, rest);
    if list != [] {
      var k, more := list[0], list[1..];
      assert list == [k] + more;
      assert list + rest == [k] + (more + rest);
      UnmarkInv(p, more + rest, k);
      UnmarkAt(p, more + rest, k, i);
      HeadOnce(p, k, more, rest);
      ReleaseAt(Unmark(p, k), more, rest, i);
      assert i in list <==> i == k || i in more;
    }
  }

  lemma HeadOnce(p: Pool, k: nat, more: seq<nat>, rest: seq<nat>)
    requires Inv(p, [k] + (more + rest))
    ensures k !in more
  {
    NoDupTail(k, more + rest);
  }

  // ---- Runs ----

  ghost function Run(s: Session, ops: seq<Op>): (t: Session)
    requires Safe(s)
    ensures Safe(t) && |t.pool.slots| == |s.pool.slots|
    decreases |ops|
  {
    if ops == [] then s
    else
      StepSafe(s, ops[0]);
      Run(Step(s, ops[0]), ops[1..])
  }

  lemma FreshSafe(n: nat)
    ensures Safe(Fresh(n))
  {
    var p := Fresh(n).pool;
    forall i: nat | i < n
      ensures i in p.free
    {
      assert p.free[i] == i;
    }
  }

  /** After any history from alias_init: the queues split the slots, live names differ,
      the slots marked as expanded are those the running commands hold, each once, and
      once no command runs no mark is left. */
  lemma AlwaysConsistent(n: nat, ops: seq<Op>)
    ensures Safe(Fresh(n))
    ensures var t := Run(Fresh(n), ops);
            && |t.pool.slots| == n
            && Safe(t)
            && (t.running == [] ==> forall i: nat | i < n :: !t.pool.slots[i].exp && !t.pool.slots[i].rem)
  {
    FreshSafe(n);
  }

  /** The capacity test of nsh_alist_add never refuses: every eligible alias is marked
      and recorded. */
  lemma ExpansionRecorded(s: Session, name: string)
    requires Safe(s) && s.running != []
    ensures Within(s.pool.live, |s.pool.slots|)
    ensures var k := Lookup(s.pool, name);
            k.Some? && Eligible(s.pool.slots[k.value]) ==>
              && Step(s, Expand(name)).running == [s.running[0] + [k.value]] + s.running[1..]
              && Step(s, Expand(name)).pool.slots[k.value].exp
  {
    AllWithin(s.pool.live, |s.pool.slots|);
    var k := Lookup(s.pool, name);
    if k.Some? && Eligible(s.pool.slots[k.value]) {
      ExpandSafe(s, k.value);
    }
  }

  /** While a command runs, no operation frees or renames a slot it expanded. */
  lemma HeldStays(s: Session, op: Op, i: nat)
    requires Safe(s) && i < |s.pool.slots| && i in Flat(s.running) && !op.End?
    ensures |Step(s, op).pool.slots| == |s.pool.slots|
    ensures i in Step(s, op).pool.live && Step(s, op).pool.slots[i].name == s.pool.slots[i].name
    ensures i in Flat(Step(s, op).running)
  {
    StepSafe(s, op);
    var p := s.pool;
    if op.UnaliasAll? {
      AllWithin(p.live, |p.slots|);
      DeleteAllKeeps(p, Flat(s.running), p.live, i);
    } else if op.Expand? && Step(s, op) != s {
      assert Step(s, op).pool.slots[i].exp;
    } else if op.Begin? {
      assert ([[]] + s.running)[1..] == s.running;
    }
  }

  lemma {:induction false} DeleteAllKeeps(p: Pool, held: seq<nat>, list: seq<nat>, i: nat)
    requires Inv(p, held) && Within(list, |p.slots|) && NoDup(list)
    requires forall j | j in list :: j in p.live
    requires i in held && i < |p.slots|
    ensures i in p.live && i in DeleteAll(p, list).live
    ensures DeleteAll(p, list).slots[i].name == p.slots[i].name
    ensures DeleteAll(p, list).slots[i].rem == (p.slots[i].rem || i in list)
    decreases |list|
  {
    if list != [] {
      var k, rest := list[0], list[1..];
      assert list == [k] + rest;
      NoDupTail(k, rest);
      DeleteInv(p, held, k);
      assert forall j | j in rest :: j in list;
      DeleteAllKeeps(Delete(p, k), held, rest, i);
    }
  }

  // ---- What the commands mean ----

  /** The value `alias NAME` shows. */
  function Value(p: Pool, name: string): Option<string>
    requires Within(p.live, |p.slots|)
  {
    var k := Lookup(p, name);
    if k.Some? then p.slots[k.value].value else None
  }

  /** Whether the alias was removed while a command that expanded it still runs. */
  predicate Pending(p: Pool, name: string)
    requires Within(p.live, |p.slots|)
  {
    var k := Lookup(p, name);
    k.Some? && p.slots[k.value].rem
  }

  lemma LookupIs(p: Pool, held: seq<nat>, i: nat)
    requires Inv(p, held) && i in p.live
    ensures Within(p.live, |p.slots|)
    ensures Lookup(p, p.slots[i].name.value) == Some(i)
  {
    AllWithin(p.live, |p.slots|);
  }

  /** alias_save is the update of a map of limited size: it fails exactly on an empty name,
      a full pool or a failed duplication, and no other name sees it. */
  lemma SaveIsUpdate(p: Pool, held: seq<nat>, name: string, value: string, nameDup: bool, valueDup: bool)
    requires Inv(p, held)
    ensures Within(p.live, |p.slots|) && Within(p.free, |p.slots|)
    ensures var (q, code) := Save(p, name, value, nameDup, valueDup);
            && Within(q.live, |q.slots|)
            && (code == EINVAL <==> name == "")
            && (code == OK <==> name != "" && valueDup && (Lookup(p, name).Some? || (nameDup && |p.live| < |p.slots|)))
            && (code == OK ==> Value(q, name) == Some(value) && Pending(q, name) == Pending(p, name))
            && (forall other | other != name :: Value(q, other) == Value(p, other))
  {
    InvWithin(p, held);
    SaveInv(p, held, name, value, nameDup, valueDup);
    var (q, code) := Save(p, name, value, nameDup, valueDup);
    InvWithin(q, held);
    FullIff(p, held);
    if code == OK {
      SaveStored(p, held, name, value, nameDup, valueDup);
    }
    forall other | other != name
      ensures Value(q, other) == Value(p, other)
    {
      SaveOthers(p, held, name, value, nameDup, valueDup, other);
    }
  }

  lemma SaveStored(p: Pool, held: seq<nat>, name: string, value: string, nameDup: bool, valueDup: bool)
    requires Inv(p, held) && Within(p.live, |p.slots|) && Within(p.free, |p.slots|)
    requires Inv(Save(p, name, value, nameDup, valueDup).0, held)
    requires Save(p, name, value, nameDup, valueDup).1 == OK
    ensures var q := Save(p, name, value, nameDup, valueDup).0;
            && Within(q.live, |q.slots|)
            && Value(q, name) == Some(value) && Pending(q, name) == Pending(p, name)
  {
    var q := Save(p, name, value, nameDup, valueDup).0;
    var k := Lookup(p, name);
    var i := if k.Some? then k.value else p.free[0];
    assert i in q.live && q.slots[i].name == Some(name);
    LookupIs(q, held, i);
    assert k.None? ==> i in p.free;
  }

  lemma SaveOthers(p: Pool, held: seq<nat>, name: string, value: string, nameDup: bool, valueDup: bool, other: string)
    requires Inv(p, held) && Within(p.live, |p.slots|) && Within(p.free, |p.slots|) && other != name
    requires Inv(Save(p, name, value, nameDup, valueDup).0, held)
    ensures var q := Save(p, name, value, nameDup, valueDup).0;
            Within(q.live, |q.slots|) && Value(q, other) == Value(p, other)
  {
    var q := Save(p, name, value, nameDup, valueDup).0;
    InvWithin(q, held);
    if name == "" {
    } else if Lookup(p, name).Some? {
      ValueElsewhere(p, q, held, Lookup(p, name).value, other);
    } else if p.free != [] {
      CreateInv(p, held, name, value, nameDup, valueDup);
      assert p.free[0] in p.free;
      if nameDup && valueDup {
        ValueElsewhere(p, q, held, p.free[0], other);
      }
    }
  }

  lemma ValueElsewhere(p: Pool, q: Pool, held: seq<nat>, i: nat, other: string)
    requires Inv(p, held) && Inv(q, held) && |p.slots| == |q.slots| && i < |p.slots|
    requires forall j: nat | j < |p.slots| && j != i :: q.slots[j] == p.slots[j] && (j in q.live <==> j in p.live)
    requires p.slots[i].name != Some(other) && q.slots[i].name != Some(other)
    ensures Within(p.live, |p.slots|) && Within(q.live, |q.slots|)
    ensures Value(q, other) == Value(p, other) && Pending(q, other) == Pending(p, other)
  {
    InvWithin(p, held);
    InvWithin(q, held);
    var k := Lookup(p, other);
    if k.Some? {
      LookupIs(q, held, k.value);
    }
  }

  /** The free queue is empty exactly when every slot is live. */
  lemma FullIff(p: Pool, held: seq<nat>)
    requires Inv(p, held)
    ensures p.free == [] <==> |p.live| == |p.slots|
    ensures |p.live| <= |p.slots|
  {
    AllWithin(p.live, |p.slots|);
    Pigeonhole(p.live, |p.slots|);
    if p.free == [] {
      Covers(p.live, |p.slots|);
    } else {
      var i := p.free[0];
      assert i in p.free;
      var all := p.live + [i];
      assert NoDup(all);
      assert Within(all, |p.slots|);
      Pigeonhole(all, |p.slots|);
    }
  }

  /** Whether a running command has expanded the alias of this name. */
  predicate HeldName(s: Session, name: string) {
    exists i | i in Flat(s.running) :: i < |s.pool.slots| && s.pool.slots[i].name == Some(name)
  }

  /** What a word expands to: the value of its alias, if no running command has expanded that
      already. */
  function Offered(s: Session, name: string): Option<string>
    requires Within(s.pool.live, |s.pool.slots|)
  {
    if HeldName(s, name) then None else Value(s.pool, name)
  }

  /** Which aliases are expanded: in every reachable session with a running command, a word is
      marked and recorded if and only if it has a value and no running command holds it;
      otherwise nothing changes. */
  lemma ExpandsIff(s: Session, name: string)
    requires Safe(s) && s.running != []
    ensures Within(s.pool.live, |s.pool.slots|)
    ensures var k := Lookup(s.pool, name);
            Offered(s, name) == if k.None? || s.pool.slots[k.value].exp then None else s.pool.slots[k.value].value
    ensures var t := Step(s, Expand(name));
            if Offered(s, name).Some? then
              var k := Lookup(s.pool, name);
              && k.Some? && s.pool.slots[k.value].value == Offered(s, name)
              && t.running == [s.running[0] + [k.value]] + s.running[1..]
              && t.pool == s.pool.(slots := s.pool.slots[k.value := s.pool.slots[k.value].(exp := true)])
            else t == s
  {
    InvWithin(s.pool, Flat(s.running));
    HeldIff(s, name);
    ExpansionRecorded(s, name);
  }

  /** The slot of a name is marked exactly if a running command holds the name. */
  lemma HeldIff(s: Session, name: string)
    requires Safe(s) && Within(s.pool.live, |s.pool.slots|)
    ensures HeldName(s, name) <==> Lookup(s.pool, name).Some? && s.pool.slots[Lookup(s.pool, name).value].exp
  {
    var p, held := s.pool, Flat(s.running);
    if HeldName(s, name) {
      var i :| i in held && i < |p.slots| && p.slots[i].name == Some(name);
      HeldIsLive(p, held, i);
      LookupIs(p, held, i);
    }
  }

  lemma HeldIsLive(p: Pool, held: seq<nat>, i: nat)
    requires Inv(p, held) && i in held
    ensures i in p.live
  {
    assert p.slots[i].exp;
    assert i !in p.free;
  }

  /** A word that is expanded is held from then on: it is not expanded a second time. */
  lemma ExpandedOnce(s: Session, name: string)
    requires Safe(s) && s.running != [] && Within(s.pool.live, |s.pool.slots|) && Offered(s, name).Some?
    ensures
      var t := Step(s, Expand(name));
      && Safe(t) && Within(t.pool.live, |t.pool.slots|)
      && HeldName(t, name) && Offered(t, name) == None && Step(t, Expand(name)) == t
  {
    hide Step, Inv;
    ExpandsIff(s, name);
    StepSafe(s, Expand(name));
    var t, k := Step(s, Expand(name)), Lookup(s.pool, name).value;
    InvWithin(t.pool, Flat(t.running));
    assert k in t.running[0] && k in Flat(t.running);
    assert t.pool.slots[k].name == Some(name);
    assert HeldName(t, name);
    assert t.running != [];
    ExpandsIff(t, name);
  }

  /** A run: an alias that is saved while no command holds its name is expanded to its value
      by the next command. */
  lemma SavedIsExpanded(s: Session, name: string, value: string)
    requires Safe(s) && Within(s.pool.live, |s.pool.slots|) && name != "" && !HeldName(s, name)
    requires Lookup(s.pool, name).Some? || |s.pool.live| < |s.pool.slots|
    ensures
      var t := Run(s, [Alias(name, value, true, true), Begin]);
      t.running != [] && Within(t.pool.live, |t.pool.slots|) && Offered(t, name) == Some(value)
  {
    hide Step, Inv;
    RunTwo(s, Alias(name, value, true, true), Begin);
    SavedAndBegun(s, name, value);
  }

  lemma RunTwo(s: Session, a: Op, b: Op)
    requires Safe(s)
    ensures Safe(Step(s, a)) && Run(s, [a, b]) == Step(Step(s, a), b)
  {
    hide Step, Inv;
    StepSafe(s, a);
    StepSafe(Step(s, a), b);
    assert [a, b][1..] == [b] && [b][1..] == [];
    assert Run(Step(s, a), [b]) == Run(Step(Step(s, a), b), [b][1..]);
  }

  lemma SavedAndBegun(s: Session, name: string, value: string)
    requires Safe(s) && Within(s.pool.live, |s.pool.slots|) && name != "" && !HeldName(s, name)
    requires Lookup(s.pool, name).Some? || |s.pool.live| < |s.pool.slots|
    ensures
      var r := Step(s, Alias(name, value, true, true));
      && Safe(r)
      && var t := Step(r, Begin);
         && Safe(t) && t.running != [] && t.running[0] == []
         && Within(t.pool.live, |t.pool.slots|) && Offered(t, name) == Some(value)
  {
    var a := Alias(name, value, true, true);
    var p, held := s.pool, Flat(s.running);
    StepSafe(s, a);
    SaveIsUpdate(p, held, name, value, true, true);
    var r := Step(s, a);
    StepSafe(r, Begin);
    var t := Step(r, Begin);
    assert t.running[1..] == s.running;
    assert Flat(t.running) == [] + held == held;
    InvWithin(r.pool, held);
    HeldIff(s, name);
    HeldIff(t, name);
    SaveUnmarked(p, held, name, value);
  }

  /** Saving an alias that no command holds leaves it unmarked. */
  lemma SaveUnmarked(p: Pool, held: seq<nat>, name: string, value: string)
    requires Inv(p, held) && Within(p.live, |p.slots|) && Within(p.free, |p.slots|) && name != ""
    requires Lookup(p, name).Some? ==> !p.slots[Lookup(p, name).value].exp
    requires Save(p, name, value, true, true).1 == OK
    ensures var q := Save(p, name, value, true, true).0;
            Within(q.live, |q.slots|) && Lookup(q, name).Some? && !q.slots[Lookup(q, name).value].exp
  {
    SaveInv(p, held, name, value, true, true);
    var q := Save(p, name, value, true, true).0;
    InvWithin(q, held);
    SaveStored(p, held, name, value, true, true);
    var i := Lookup(q, name).value;
    if Lookup(p, name).None? {
      assert p.free[0] in p.free;
    }
    assert i < |p.slots|;
  }

  // ---- When the running commands end ----

  function Ends(n: nat): seq<Op> {
    if n == 0 then [] else [End] + Ends(n - 1)
  }

  lemma {:induction false} UnwindAt(s: Session, i: nat)
    requires Safe(s) && i < |s.pool.slots|
    ensures var t := Run(s, Ends(|s.running|));
            && t.running == []
            && (i in t.pool.live <==> i in s.pool.live && !s.pool.slots[i].rem)
            && (i in t.pool.live ==> t.pool.slots[i].name == s.pool.slots[i].name)
            && (i in t.pool.live ==> t.pool.slots[i].value == s.pool.slots[i].value)
    decreases |s.running|
  {
    hide Inv, Release;
    if s.running == [] {
      Quiet(s, i);
    } else {
      var top, rest := s.running[0], Flat(s.running[1..]);
      var ops := Ends(|s.running|);
      assert ops[0] == End && ops[1..] == Ends(|s.running| - 1);
      ReleaseAt(s.pool, top, rest, i);
      StepSafe(s, End);
      UnwindAt(Step(s, End), i);
    }
  }

  lemma Quiet(s: Session, i: nat)
    requires Safe(s) && s.running == [] && i < |s.pool.slots|
    ensures !s.pool.slots[i].exp && !s.pool.slots[i].rem
  {
  }

  /** When the running commands have ended, every alias has the value it had, except those
      that waited for removal, which are gone. */
  lemma UnwindValue(s: Session, name: string)
    requires Safe(s)
    ensures var u := Run(s, Ends(|s.running|)).pool;
            && Within(s.pool.live, |s.pool.slots|) && Within(u.live, |u.slots|)
            && Value(u, name) == (if Pending(s.pool, name) then None else Value(s.pool, name))
            && (Lookup(u, name).Some? <==> Lookup(s.pool, name).Some? && !Pending(s.pool, name))
  {
    var t := Run(s, Ends(|s.running|));
    InvWithin(t.pool, Flat(t.running));
    InvWithin(s.pool, Flat(s.running));
    var k, l := Lookup(s.pool, name), Lookup(t.pool, name);
    if l.Some? {
      UnwindAt(s, l.value);
      LookupIs(s.pool, Flat(s.running), l.value);
    } else if k.Some? {
      UnwindAt(s, k.value);
    }
  }

  /** An alias that is removed, at whatever depth of running commands, is gone when they
      have ended, and no other alias is affected. */
  lemma UnaliasTakesEffect(s: Session, name: string, other: string)
    requires Safe(s) && other != name
    ensures Safe(Step(s, Unalias(name)))
    ensures var t := Step(s, Unalias(name));
            var u := Run(t, Ends(|t.running|)).pool;
            && Within(s.pool.live, |s.pool.slots|) && Within(u.live, |u.slots|)
            && Lookup(u, name).None?
            && Value(u, other) == (if Pending(s.pool, other) then None else Value(s.pool, other))
  {
    hide Run, Ends;
    StepSafe(s, Unalias(name));
    var t := Step(s, Unalias(name));
    UnwindValue(t, name);
    UnwindValue(t, other);
    InvWithin(s.pool, Flat(s.running));
    if Lookup(s.pool, name).Some? {
      DeleteSeen(s.pool, Flat(s.running), Lookup(s.pool, name).value, other);
    }
  }

  lemma DeleteSeen(p: Pool, held: seq<nat>, i: nat, other: string)
    requires Inv(p, held) && i in p.live && p.slots[i].name != Some(other)
    ensures var q := Delete(p, i);
            && Within(p.live, |p.slots|) && Within(q.live, |q.slots|)
            && (Lookup(q, p.slots[i].name.value).None? || Pending(q, p.slots[i].name.value))
            && Value(q, other) == Value(p, other) && Pending(q, other) == Pending(p, other)
  {
    var q := Delete(p, i);
    DeleteInv(p, held, i);
    ValueElsewhere(p, q, held, i, other);
    DeleteOwn(p, held, i);
  }

  lemma DeleteOwn(p: Pool, held: seq<nat>, i: nat)
    requires Inv(p, held) && i in p.live && Inv(Delete(p, i), held)
    ensures Within(Delete(p, i).live, |Delete(p, i).slots|)
    ensures Lookup(Delete(p, i), p.slots[i].name.value).None? || Pending(Delete(p, i), p.slots[i].name.value)
  {
    var q := Delete(p, i);
    InvWithin(q, held);
    if p.slots[i].exp {
      LookupIs(q, held, i);
    }
  }

  /** Removing all aliases leaves none when the running commands have ended. */
  lemma UnaliasAllTakesEffect(s: Session)
    requires Safe(s)
    ensures Safe(Step(s, UnaliasAll))
    ensures var t := Step(s, UnaliasAll);
            Run(t, Ends(|t.running|)).pool.live == []
  {
    hide Run, Ends;
    var p, held := s.pool, Flat(s.running);
    StepSafe(s, UnaliasAll);
    var t := Step(s, UnaliasAll);
    var u := Run(t, Ends(|t.running|));
    InvWithin(p, held);
    InvWithin(u.pool, Flat(u.running));
    DeleteAllInv(p, held, p.live);
    if u.pool.live != [] {
      var i := u.pool.live[0];
      assert i in u.pool.live;
      UnwindAt(t, i);
      DeleteAllKeeps(p, held, p.live, i);
      assert false;
    }
  }

  /** A successful alias_save outlives the running commands exactly if the alias was not
      waiting for removal: the mark set by an earlier unalias is not cleared. */
  lemma SavedSurvivesIff(s: Session, name: string, value: string, nameDup: bool, valueDup: bool)
    requires Safe(s) && Within(s.pool.live, |s.pool.slots|) && Within(s.pool.free, |s.pool.slots|)
    requires Save(s.pool, name, value, nameDup, valueDup).1 == OK
    ensures Safe(Step(s, Alias(name, value, nameDup, valueDup)))
    ensures var t := Step(s, Alias(name, value, nameDup, valueDup));
            var u := Run(t, Ends(|t.running|));
            && Within(u.pool.live, |u.pool.slots|)
            && Value(u.pool, name) == (if Pending(s.pool, name) then None else Some(value))
  {
    hide Run, Ends, Save;
    var op := Alias(name, value, nameDup, valueDup);
    StepSafe(s, op);
    SaveIsUpdate(s.pool, Flat(s.running), name, value, nameDup, valueDup);
    UnwindValue(Step(s, op), name);
  }
}
