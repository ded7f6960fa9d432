/** The composite audio driver (nuttx/audio/audio_comp.c): one operation passed to every
    lower device in turn, undone in reverse when one of them fails.  Start and stop, resume
    and pause, reserve and release share these two loops. */
module AudioComposite {
  import opened Common

  const ENOTTY := 25
  const OK := 0

  /** What a lower device returns from the operation and from its inverse, where it has them. */
  datatype Lower = Lower(up: Option<int>, down: Option<int>)

  datatype Call = Up(device: nat) | Down(device: nat)

  predicate Supports(d: Lower) {
    d.up.Some? && d.up.value >= 0
  }

  predicate Fails(d: Lower) {
    d.up.Some? && d.up.value < 0 && d.up.value != -ENOTTY
  }

  /** Whether calling the inverse really undoes the operation. */
  predicate Undoes(d: Lower) {
    d.down.Some? && d.down.value >= 0
  }

  predicate UndoFails(d: Lower) {
    d.down.Some? && d.down.value < 0 && d.down.value != -ENOTTY
  }

  // ---- What the loops compute, device by device ----

  /** The first device that fails, or their number. */
  function FirstFailure(devs: seq<Lower>): (f: nat)
    ensures f <= |devs|
    ensures forall i | 0 <= i < f :: !Fails(devs[i])
    ensures f < |devs| ==> Fails(devs[f])
  {
    if devs == [] || Fails(devs[0]) then 0 else 1 + FirstFailure(devs[1..])
  }

  /** The calls of the operation on the first `n` devices, in order. */
  function Ups(devs: seq<Lower>, n: nat): seq<Call>
    requires n <= |devs|
  {
    if n == 0 then [] else Ups(devs, n - 1) + if devs[n - 1].up.Some? then [Up(n - 1)] else []
  }

  /** The calls of the inverse on the first `n` devices, last device first. */
  function Downs(devs: seq<Lower>, n: nat): seq<Call>
    requires n <= |devs|
  {
    if n == 0 then [] else (if devs[n - 1].down.Some? then [Down(n - 1)] else []) + Downs(devs, n - 1)
  }

  /** The result after the first `n` devices when none of them failed. */
  function Latest(devs: seq<Lower>, n: nat, init: int): int
    requires n <= |devs|
  {
    if n == 0 then init else if Supports(devs[n - 1]) then devs[n - 1].up.value else Latest(devs, n - 1, init)
  }

  /** Whether each device is active after the operation and a rollback from `f`. */
  ghost predicate Activated(devs: seq<Lower>, before: seq<bool>, after: seq<bool>) {
    var f := FirstFailure(devs);
    && |before| == |after| == |devs|
    && forall i | 0 <= i < |devs| ::
         after[i] == if f == |devs| then before[i] || Supports(devs[i])
                     else if i < f then (before[i] || Supports(devs[i])) && !Undoes(devs[i])
                     else before[i]
  }

  /** As long as no device has failed, the code so far is the initial one or not negative,
      and not negative once some device supports the operation. */
  lemma {:induction false} FailureReported(devs: seq<Lower>, n: nat, init: int)
    requires n <= FirstFailure(devs) && (init == -ENOTTY || init == OK)
    ensures Latest(devs, n, init) == init || Latest(devs, n, init) >= 0
    ensures (exists i :: 0 <= i < n && Supports(devs[i])) ==> Latest(devs, n, init) >= 0
  {
    if n > 0 {
      FailureReported(devs, n - 1, init);
    }
  }

  /** Without a failure the code is that of the last supporting device, or the initial one. */
  lemma {:induction false} LatestIs(devs: seq<Lower>, n: nat, init: int, k: nat)
    requires n <= |devs|
    ensures k < n && Supports(devs[k]) && (forall i | k < i < n :: !Supports(devs[i])) ==>
              Latest(devs, n, init) == devs[k].up.value
    ensures (forall i | 0 <= i < n :: !Supports(devs[i])) ==> Latest(devs, n, init) == init
  {
    if n > 0 {
      LatestIs(devs, n - 1, init, k);
    }
  }

  /** The operation is called once on each device that has it, lowest device first. */
  lemma {:induction false} UpsAre(devs: seq<Lower>, n: nat)
    requires n <= |devs|
    ensures forall c :: c in Ups(devs, n) <==> c.Up? && c.device < n && devs[c.device].up.Some?
    ensures forall i, j | 0 <= i < j < |Ups(devs, n)| :: Ups(devs, n)[i].device < Ups(devs, n)[j].device
  {
    if n > 0 {
      UpsAre(devs, n - 1);
      var before := Ups(devs, n - 1);
      assert forall i | 0 <= i < |before| :: before[i] in before;
    }
  }

  /** The inverse is called once on each device that has it, highest device first. */
  lemma {:induction false} DownsAre(devs: seq<Lower>, n: nat)
    requires n <= |devs|
    ensures forall c :: c in Downs(devs, n) <==> c.Down? && c.device < n && devs[c.device].down.Some?
    ensures forall i, j | 0 <= i < j < |Downs(devs, n)| :: Downs(devs, n)[i].device > Downs(devs, n)[j].device
  {
    if n > 0 {
      DownsAre(devs, n - 1);
      var before := Downs(devs, n - 1);
      assert forall i | 0 <= i < |before| :: before[i] in before;
    }
  }

  /** All or nothing: from a stopped composite, success leaves every supporting device
      active, and a failure leaves none active exactly if every device activated before the
      failing one can be undone. */
  lemma TransactionalIff(devs: seq<Lower>, before: seq<bool>, after: seq<bool>)
    requires Activated(devs, before, after) && forall i | 0 <= i < |devs| :: !before[i]
    ensures var f := FirstFailure(devs);
            && (f == |devs| ==> forall i | 0 <= i < |devs| :: after[i] <==> Supports(devs[i]))
            && (f < |devs| ==>
                  ((forall i | 0 <= i < |devs| :: !after[i]) <==>
                   forall i | 0 <= i < f && Supports(devs[i]) :: Undoes(devs[i])))
  {
  }

  /** The inverse calls for a list of calls, newest first. */
  function Mirror(calls: seq<Call>): seq<Call> {
    if calls == [] then [] else [Down(calls[|calls| - 1].device)] + Mirror(calls[..|calls| - 1])
  }

  lemma MirrorLast(calls: seq<Call>, device: nat)
    ensures Mirror(calls + [Up(device)]) == [Down(device)] + Mirror(calls)
  {
    assert (calls + [Up(device)])[..|calls|] == calls;
  }

  /** The rollback undoes the calls in the reverse order, when the devices that have the
      operation are those that have its inverse. */
  lemma {:induction false} RollbackMirrors(devs: seq<Lower>, n: nat)
    requires n <= |devs| && forall i | 0 <= i < n :: devs[i].up.Some? <==> devs[i].down.Some?
    ensures Downs(devs, n) == Mirror(Ups(devs, n))
  {
    if n > 0 {
      RollbackMirrors(devs, n - 1);
      if devs[n - 1].up.Some? {
        MirrorLast(Ups(devs, n - 1), n - 1);
      } else {
        assert Ups(devs, n) == Ups(devs, n - 1);
        assert Downs(devs, n) == Downs(devs, n - 1);
      }
    }
  }

  /** A composite in which a started device has no working stop is left half started. */
  lemma HalfStarted(after: seq<bool>)
    requires Activated([Lower(Some(0), None), Lower(Some(-5), Some(0))], [false, false], after)
    ensures after == [true, false]
  {
    var devs := [Lower(Some(0), None), Lower(Some(-5), Some(0))];
    assert !Fails(devs[0]) && Fails(devs[1]);
    assert FirstFailure(devs[1..]) == 0;
    assert FirstFailure(devs) == 1;
  }

  /** The result of the inverse over the devices from `n` on, as the reverse loop folds it. */
  function Fold(devs: seq<Lower>, n: nat, init: int): int
    requires n <= |devs|
    decreases |devs| - n
  {
    if n == |devs| then init
    else
      var ret := Fold(devs, n + 1, init);
      if devs[n].down.None? || devs[n].down.value == -ENOTTY then ret
      else if devs[n].down.value < 0 || ret == -ENOTTY || ret >= 0 then devs[n].down.value
      else ret
  }

  /** The inverse reports failure exactly if some device fails, with the code of the lowest
      such device; otherwise it reports the lowest supporting device, if any. */
  lemma {:induction false} FoldIs(devs: seq<Lower>, n: nat, init: int, k: nat)
    requires n <= k < |devs| && (init == -ENOTTY || init == OK)
    ensures UndoFails(devs[k]) && (forall i | n <= i < k :: !UndoFails(devs[i])) ==>
      Fold(devs, n, init) == devs[k].down.value
    ensures && (forall i | n <= i < |devs| :: !UndoFails(devs[i])) && Undoes(devs[k])
            && (forall i | n <= i < k :: !Undoes(devs[i])) ==>
      Fold(devs, n, init) == devs[k].down.value
    decreases |devs| - n
  {
    FoldSign(devs, n + 1, init);
    if n < k {
      FoldIs(devs, n + 1, init, k);
    }
  }

  lemma {:induction false} FoldSign(devs: seq<Lower>, n: nat, init: int)
    requires n <= |devs| && (init == -ENOTTY || init == OK)
    ensures (exists i :: n <= i < |devs| && UndoFails(devs[i]))
       <==> Fold(devs, n, init) < 0 && Fold(devs, n, init) != -ENOTTY
    ensures (forall i | n <= i < |devs| :: !UndoFails(devs[i]) && !Undoes(devs[i])) ==> Fold(devs, n, init) == init
    decreases |devs| - n
  {
    if n < |devs| {
      FoldSign(devs, n + 1, init);
    }
  }

  // ---- The loops ----

  class Composite {
    const lower: seq<Lower>
    const active: array<bool>
    var calls: seq<Call>

    ghost predicate Valid() {
      active.Length == |lower|
    }

    constructor (devs: seq<Lower>)
      ensures Valid() && lower == devs && fresh(active) && calls == []
      ensures forall i | 0 <= i < active.Length :: !active[i]
    {
      lower := devs;
      active := new bool[|devs|](i => false);
      calls := [];
    }

    /** A call of the inverse on one device. */
    method CallDown(i: nat) returns (r: int)
      requires Valid() && i < |lower| && lower[i].down.Some?
      modifies this, active
      ensures r == lower[i].down.value && calls == old(calls) + [Down(i)]
      ensures active[..] == old(active[..])[i := old(active[i]) && !Undoes(lower[i])]
    {
      r := lower[i].down.value;
      active[i] := active[i] && r < 0;
      calls := calls + [Down(i)];
    }

    /** audio_comp_start, audio_comp_resume and, from OK, audio_comp_reserve. */
    method Forward(init: int) returns (ret: int)
      requires Valid() && (init == -ENOTTY || init == OK)
      modifies this, active
      ensures Activated(lower, old(active[..]), active[..])
      ensures var f := FirstFailure(lower);
              if f == |lower| then ret == Latest(lower, f, init) && calls == old(calls) + Ups(lower, f)
              else ret == lower[f].up.value && calls == old(calls) + Ups(lower, f + 1) + Downs(lower, f)
    {
      ret := init;
      ghost var f := FirstFailure(lower);
      for i := 0 to |lower|
        invariant i <= f && ret == Latest(lower, i, init) && calls == old(calls) + Ups(lower, i)
        invariant forall k | 0 <= k < |lower| ::
          active[k] == if k < i then old(active[k]) || Supports(lower[k]) else old(active[k])
      {
        if lower[i].up.Some? {
          var tmp := lower[i].up.value;
          calls := calls + [Up(i)];
          if tmp == -ENOTTY {
            continue;
          }
          ret := tmp;
          if ret >= 0 {
            active[i] := true;
            continue;
          }
          assert f == i;
          Rollback(i);
          return;
        }
      }
    }

    /** The nested loop that undoes the devices before a failing one. */
    method Rollback(n: nat)
      requires Valid() && n <= |lower|
      modifies this, active
      ensures calls == old(calls) + Downs(lower, n)
      ensures forall k | 0 <= k < |lower| ::
        active[k] == if k < n then old(active[k]) && !Undoes(lower[k]) else old(active[k])
    {
      var i: nat := n;
      while i > 0
        invariant i <= n && calls + Downs(lower, i) == old(calls) + Downs(lower, n)
        invariant forall k | 0 <= k < |lower| ::
          active[k] == if i <= k < n then old(active[k]) && !Undoes(lower[k]) else old(active[k])
      {
        i := i - 1;
        if lower[i].down.Some? {
          assert calls + ([Down(i)] + Downs(lower, i)) == (calls + [Down(i)]) + Downs(lower, i);
          var _ := CallDown(i);
        }
      }
    }

    /** audio_comp_stop, audio_comp_pause and, from OK, audio_comp_release: every device is
        visited whatever the others return. */
    method Backward(init: int) returns (ret: int)
      requires Valid() && (init == -ENOTTY || init == OK)
      modifies this, active
      ensures ret == Fold(lower, 0, init) && calls == old(calls) + Downs(lower, |lower|)
      ensures forall k | 0 <= k < |lower| :: active[k] == (old(active[k]) && !Undoes(lower[k]))
    {
      ret := init;
      var i: nat := |lower|;
      while i > 0
        invariant i <= |lower| && ret == Fold(lower, i, init)
        invariant calls + Downs(lower, i) == old(calls) + Downs(lower, |lower|)
        invariant forall k | 0 <= k < |lower| ::
          active[k] == if i <= k then old(active[k]) && !Undoes(lower[k]) else old(active[k])
      {
        i := i - 1;
        if lower[i].down.Some? {
          assert calls + ([Down(i)] + Downs(lower, i)) == (calls + [Down(i)]) + Downs(lower, i);
          var tmp := CallDown(i);
          if tmp == -ENOTTY {
            continue;
          }
          if tmp < 0 || ret == -ENOTTY || ret >= 0 {
            ret := tmp;
          }
        }
      }
    }
  }
}
