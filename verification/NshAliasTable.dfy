/** The alias table of an NSH session and the alias list of a running command, as the
    mutable structures of apps/nshlib/nsh_alias.c and nsh_parse.c. */
module NshAliasTable {
  import opened Common
  import opened Sequences
  import opened NshAlias

  /** The aliases one command has expanded: a fixed buffer and a count. */
  class AliasList {
    const allocs: array<nat>
    var nallocs: nat

    ghost predicate Valid()
      reads this
    {
      nallocs <= allocs.Length
    }

    ghost function Contents(): seq<nat>
      requires Valid()
      reads this, allocs
    {
      allocs[..nallocs]
    }

    constructor (size: nat)
      ensures Valid() && fresh(allocs) && allocs.Length == size && Contents() == []
    {
      allocs := new nat[size](i => 0);
      nallocs := 0;
    }
  }

  /** The entry behind `i` in the queue. */
  function Successor(live: seq<nat>, i: nat): Option<nat> {
    if live == [] then None
    else if live[0] == i then (if |live| > 1 then Some(live[1]) else None)
    else Successor(live[1..], i)
  }

  lemma QueueHead(i: nat, tail: seq<nat>)
    ensures Successor([i] + tail, i) == if tail == [] then None else Some(tail[0])
    ensures Remove([i] + tail, i) == tail
  {
    assert ([i] + tail)[1..] == tail;
  }

  lemma QueueStep(k: nat, rest: seq<nat>, i: nat)
    requires k != i
    ensures Successor([k] + rest, i) == Successor(rest, i)
    ensures Remove([k] + rest, i) == [k] + Remove(rest, i)
  {
    assert ([k] + rest)[1..] == rest;
  }

  /** Around entry `i` of a queue: what follows it, and the queue without it. */
  lemma {:induction false} Passing(kept: seq<nat>, i: nat, tail: seq<nat>)
    requires NoDup(kept + ([i] + tail))
    ensures Successor(kept + ([i] + tail), i) == if tail == [] then None else Some(tail[0])
    ensures Remove(kept + ([i] + tail), i) == kept + tail
    ensures NoDup(kept + tail) && NoDup((kept + [i]) + tail)
    ensures kept + ([i] + tail) == (kept + [i]) + tail
    decreases |kept|
  {
    hide Successor, Remove, NoDup;
    var live := kept + ([i] + tail);
    assert live == (kept + [i]) + tail;
    if kept == [] {
      QueueHead(i, tail);
      assert live == [i] + tail && kept + tail == tail;
    } else {
      var k, more := kept[0], kept[1..];
      var rest := more + ([i] + tail);
      assert live == [k] + rest;
      NoDupTail(k, rest);
      assert i in [i] + tail && i in rest;
      Passing(more, i, tail);
      QueueStep(k, rest, i);
      assert [k] + (more + tail) == kept + tail;
    }
    RemoveNoDup(live, i);
  }

  lemma RemoveNoDup(s: seq<nat>, x: nat)
    requires NoDup(s)
    ensures NoDup(Remove(s, x))
  {
  }

  lemma DeleteQueue(p: Pool, i: nat)
    requires i < |p.slots|
    ensures Delete(p, i).live == if p.slots[i].exp then p.live else Remove(p.live, i)
  {
  }

  class AliasTable {
    const slots: array<Slot>
    var live: seq<nat>
    var free: seq<nat>

    ghost predicate Valid()
      reads this
    {
      Within(live, slots.Length) && Within(free, slots.Length)
    }

    ghost function View(): Pool
      reads this, slots
    {
      Pool(slots[..], live, free)
    }

    constructor (n: nat)
      ensures fresh(slots) && Valid() && View() == Fresh(n).pool
    {
      slots := new Slot[n](i => EMPTY);
      live := [];
      free := [];
      new;
      for i := 0 to n
        invariant live == [] && free == seq(i, j => j) && slots[..] == seq(n, j => EMPTY)
      {
        free := free + [i];
      }
    }

    /** alias_find */
    method FindAlias(name: string) returns (k: Option<nat>)
      requires Valid()
      ensures k == Lookup(View(), name)
    {
      var at := 0;
      while at < |live|
        invariant at <= |live|
        invariant Find(slots[..], live, name) == at + Find(slots[..], live[at..], name)
      {
        if slots[live[at]].name == Some(name) {
          return Some(live[at]);
        }
        assert live[at..][1..] == live[at + 1..];
        at := at + 1;
      }
      return None;
    }

    /** alias_delete */
    method DeleteAlias(i: nat)
      requires Valid() && i < slots.Length
      modifies this, slots
      ensures Valid() && View() == Delete(old(View()), i)
    {
      if slots[i].exp {
        slots[i] := slots[i].(rem := true);
        return;
      }
      slots[i] := slots[i].(name := None, value := None);
      slots[i] := slots[i].(exp := false, rem := false);
      ghost var before := live;
      live := Remove(live, i);
      assert forall j | 0 <= j < |live| :: live[j] in live && live[j] in before;
      free := [i] + free;
    }

    /** The update of alias_save. */
    method Replace(i: nat, dup: Option<string>)
      requires Valid() && i < slots.Length
      modifies slots
      ensures View() == old(View()).(slots := old(slots[..])[i := old(slots[i]).(value := dup)])
    {
      slots[i] := slots[i].(value := dup);
    }

    /** The creation of alias_save: the first free slot becomes the last live one. */
    method Create(name: Option<string>, dup: Option<string>) returns (i: nat)
      requires Valid() && free != []
      modifies this, slots
      ensures i == old(free[0]) < slots.Length && Valid()
      ensures View() ==
        Pool(old(slots[..])[i := old(slots[free[0]]).(name := name, value := dup)], old(live) + [i], old(free[1..]))
    {
      i := free[0];
      free := free[1..];
      slots[i] := slots[i].(name := name);
      slots[i] := slots[i].(value := dup);
      live := live + [i];
      assert slots[..] == old(slots[..])[i := old(slots[i]).(name := name, value := dup)];
    }

    /** alias_save */
    method SaveAlias(name: string, value: string, nameDup: bool, valueDup: bool) returns (code: Code)
      requires Valid()
      modifies this, slots
      ensures Valid() && (View(), code) == Save(old(View()), name, value, nameDup, valueDup)
    {
      hide Find, Remove, Delete;
      if name == "" {
        return EINVAL;
      }
      var dup := if valueDup then Some(value) else None;
      var found := FindAlias(name);
      if found.Some? {
        Replace(found.value, dup);
      } else if free != [] {
        var i := Create(if nameDup then Some(name) else None, dup);
        found := Some(i);
      }
      if found.None? {
        return ENOMEM;
      }
      if slots[found.value].name.None? || slots[found.value].value.None? {
        DeleteAlias(found.value);
        return ENOMEM;
      }
      return OK;
    }

    /** alias_removeall: the successor is read before the current entry is deleted, and
        although deletions change the queue the walk visits every entry that was live. */
    method RemoveAll()
      requires Valid() && NoDup(live)
      modifies this, slots
      ensures Valid() && View() == DeleteAll(old(View()), old(live))
    {
      hide NoDup, Remove, Delete, Successor;
      var alias := if live == [] then None else Some(live[0]);
      ghost var kept, rest := [], live;
      while alias.Some?
        invariant Valid() && live == kept + rest && NoDup(kept + rest) && Within(rest, slots.Length)
        invariant alias == if rest == [] then None else Some(rest[0])
        invariant DeleteAll(View(), rest) == DeleteAll(old(View()), old(live))
        decreases |rest|
      {
        var i := alias.value;
        var next := Successor(live, i);
        ghost var tail := rest[1..];
        assert rest == [i] + tail;
        Passing(kept, i, tail);
        DeleteQueue(View(), i);
        DeleteAlias(i);
        if live != kept + tail {
          kept := kept + [i];
        }
        rest := tail;
        alias := next;
      }
    }

    /** nsh_aliasexpand up to the choice of text: nsh_aliasfind followed by nsh_alist_add. */
    method ExpandAlias(name: string, list: AliasList) returns (text: Option<string>)
      requires Valid() && list.Valid() && list.allocs.Length == slots.Length
      modifies slots, list, list.allocs
      ensures Valid() && list.Valid()
      ensures var k := Lookup(old(View()), name);
              && text == (if k.None? || old(slots[..])[k.value].exp then None else old(slots[..])[k.value].value)
              && (text.Some? && old(list.nallocs) < slots.Length ==>
                    View() == Mark(old(View()), k.value) && list.Contents() == old(list.Contents()) + [k.value])
              && (text.None? || old(list.nallocs) == slots.Length ==>
                    View() == old(View()) && list.Contents() == old(list.Contents()))
    {
      var k := FindAlias(name);
      if k.None? || slots[k.value].exp || slots[k.value].value.None? {
        return None;
      }
      text := slots[k.value].value;
      if list.nallocs < slots.Length {
        slots[k.value] := slots[k.value].(exp := true);
        list.allocs[list.nallocs] := k.value;
        list.nallocs := list.nallocs + 1;
      }
    }

    /** nsh_alist_free */
    method FreeList(list: AliasList)
      requires Valid() && list.Valid() && Within(list.Contents(), slots.Length)
      modifies this, slots, list, list.allocs
      ensures Valid() && list.Valid()
      ensures View() == Release(old(View()), old(list.Contents())) && list.Contents() == []
    {
      ghost var names := list.Contents();
      var index := 0;
      while index < list.nallocs
        invariant Valid() && index <= list.nallocs == old(list.nallocs) <= list.allocs.Length
        invariant list.allocs[index..list.nallocs] == names[index..]
        invariant Within(names[index..], slots.Length)
        invariant Release(View(), names[index..]) == Release(old(View()), names)
      {
        var i := list.allocs[index];
        assert i == names[index..][0];
        assert names[index..][1..] == names[index + 1..];
        ghost var before := View();
        slots[i] := slots[i].(exp := false);
        if slots[i].rem {
          DeleteAlias(i);
        }
        assert View() == Unmark(before, i);
        list.allocs[index] := 0;
        index := index + 1;
      }
      list.nallocs := 0;
    }
  }
}
