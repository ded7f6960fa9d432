/** The Modbus master as the mutable state of apps/modbus/mb_m.c on the flag port of
    apps/modbus/nuttx/portevent_m.c. */
module ModbusDevice {
  import opened Common
  import opened ModbusMaster

  datatype Request = NO_ERR | TIMEDOUT | REV_DATA | EXE_FUN

  function Bit(queued: set<Event>, e: Event): nat {
    if e in queued then 1 else 0
  }

  function Flagged(queued: set<Event>): Queue {
    Queue(Bit(queued, Ready), Bit(queued, FrameReceived), Bit(queued, Execute), Bit(queued, FrameSent),
          Bit(queued, ErrorProcess))
  }

  /** What the waiter reads: a success hides an error, and the earlier errors hide the later. */
  function Reading(outcomes: set<Outcome>): Request {
    if Success in outcomes then NO_ERR
    else if Timeout in outcomes then TIMEDOUT
    else if ReceiveData in outcomes then REV_DATA
    else if ExecuteFunction in outcomes then EXE_FUN
    else NO_ERR
  }

  function Meaning(o: Outcome): Request {
    match o
    case Success => NO_ERR
    case Timeout => TIMEDOUT
    case ReceiveData => REV_DATA
    case ExecuteFunction => EXE_FUN
  }

  function Urgency(o: Outcome): nat {
    match o
    case Success => 0
    case Timeout => 1
    case ReceiveData => 2
    case ExecuteFunction => 3
  }

  /** A waiter reads the foremost of the outcomes told since the last wait. */
  lemma ReadingIs(outcomes: set<Outcome>, o: Outcome)
    requires o in outcomes && forall p | p in outcomes :: Urgency(o) <= Urgency(p)
    ensures Reading(outcomes) == Meaning(o)
  {
    assert Success in outcomes ==> Urgency(o) <= Urgency(Success);
    assert Timeout in outcomes ==> Urgency(o) <= Urgency(Timeout);
    assert ReceiveData in outcomes ==> Urgency(o) <= Urgency(ReceiveData);
  }

  lemma {:induction false} NoneWaited(c: Config, m: Master, acts: seq<Act>)
    requires forall k | 0 <= k < |acts| :: acts[k].Poll?
    ensures Waited(c, m, acts) == 0
    decreases |acts|
  {
    hide Step;
    if |acts| > 0 {
      NoneWaited(c, Step(c, m, acts[0]), acts[1..]);
    }
  }

  /** A request answered: after its reply one wait can succeed, it reads what the reply
      deserves, and it leaves nothing behind for the next request to read. */
  lemma RequestAnswered(c: Config, m: Master, inp: Input, acts: seq<Act>)
    requires m.state == ENABLED && m.queue == NOTHING.Add(FrameReceived) && m.outcomes == {} && m.waiter == 0
    requires Busy(c, m, acts) && forall k | 0 <= k < |acts| :: acts[k].Poll? && acts[k].input == inp
    requires Run(c, m, acts).queue == NOTHING
    ensures var r := Run(c, m, acts);
            && r.waiter == 1 && Reading(r.outcomes) == Meaning(Verdict(c, m, inp))
            && Step(c, r, Wait) == r.(waiter := 0, outcomes := {})
  {
    hide Busy, Run, Step, Verdict;
    ReplyDelivered(c, m, inp, acts);
    Conservation(c, m, acts);
    NoneWaited(c, m, acts);
    ReadingIs({Verdict(c, m, inp)}, Verdict(c, m, inp));
    WaitStep(c, Run(c, m, acts));
  }

  lemma WaitStep(c: Config, m: Master)
    requires m.waiter > 0
    ensures Step(c, m, Wait) == m.(waiter := m.waiter - 1, outcomes := {})
  {
    hide Handle;
  }

  class Device {
    const handlers: array<nat>
    const slaves: nat
    var state: State
    var queued: set<Event>
    var outcomes: set<Outcome>
    var waiter: nat
    var bus: nat
    var dest: nat
    var error: Failure
    var frame: Frame
    var broadcast: bool
    ghost var merged: nat

    ghost function Setup(): Config
      reads handlers
    {
      Config(Flags, handlers[..], slaves)
    }

    ghost function View(): Master
      reads this
    {
      Master(state, Flagged(queued), outcomes, waiter, bus, dest, error, frame, broadcast, merged)
    }

    /** eMBMasterEnable */
    method EnableMaster() returns (status: Status)
      modifies this
      ensures View() == Step(Setup(), old(View()), Enable)
      ensures status == ENOERR <==> old(state) == DISABLED
      ensures status == ENOERR ==> state == ENABLED
    {
      if state == DISABLED {
        state := ENABLED;
        return ENOERR;
      }
      return EILLSTATE;
    }

    /** eMBMasterDisable */
    method DisableMaster() returns (status: Status)
      modifies this
      ensures View() == Step(Setup(), old(View()), Disable)
      ensures status == ENOERR <==> old(state) != NOT_INITIALIZED
      ensures status == ENOERR ==> state == DISABLED
    {
      if state == ENABLED {
        state := DISABLED;
        return ENOERR;
      } else if state == DISABLED {
        return ENOERR;
      }
      return EILLSTATE;
    }

    /** xMBMasterPortEventPost */
    method PostEvent(e: Event)
      modifies this
      ensures View() == Post(Flags, old(View()), e)
    {
      if e in queued && Owes(e) {
        merged := merged + 1;
      }
      queued := queued + {e};
    }

    /** xMBMasterPortEventGet */
    method GetEvent() returns (e: Option<Event>)
      modifies this
      ensures e.None? <==> old(View()).queue == NOTHING
      ensures e.None? ==> View() == old(View())
      ensures e.Some? ==> Deliverable(Flags, old(View()).queue, e.value)
      ensures e.Some? ==> View() == old(View()).(queue := old(View()).queue.Take(e.value))
    {
      if Ready in queued {
        e := Some(Ready);
      } else if FrameReceived in queued {
        e := Some(FrameReceived);
      } else if Execute in queued {
        e := Some(Execute);
      } else if FrameSent in queued {
        e := Some(FrameSent);
      } else if ErrorProcess in queued {
        e := Some(ErrorProcess);
      } else {
        return None;
      }
      queued := queued - {e.value};
    }

    /** The waiter's callback and vMBMasterRunResRelease. */
    method FinishRequest(o: Outcome)
      modifies this
      ensures View() == Finish(old(View()), o)
    {
      waiter := waiter + 1;
      outcomes := outcomes + {o};
      bus := bus + 1;
    }

    method FailRequest(o: Failure)
      modifies this
      ensures View() == Fail(Flags, old(View()), o)
    {
      error := o;
      PostEvent(ErrorProcess);
    }

    /** The table search and the slave loop of EV_MASTER_EXECUTE; `asked` are the addresses
        the handler is called for, in order. */
    method RunHandler(reply: (nat, nat) -> nat) returns (exception: nat, asked: seq<nat>)
      modifies this
      ensures (exception, dest) == Executed(Setup(), old(View()), reply)
      ensures View() == old(View()).(dest := dest)
      ensures asked == if frame[0] >= 128 || Handler(handlers[..], frame[0]) == handlers.Length then []
                       else if broadcast then seq(slaves, j => j + 1)
                       else [dest]
    {
      var code := frame[0];
      exception, asked := ILLEGAL_FUNCTION, [];
      if code >= 128 {
        exception := frame[1];
        return;
      }
      var i := 0;
      while i < handlers.Length
        invariant i <= handlers.Length && View() == old(View()) && exception == ILLEGAL_FUNCTION && asked == []
        invariant Handler(handlers[..], code) == i + Handler(handlers[i..], code)
      {
        if handlers[i] == 0 {
          return;
        } else if handlers[i] == code {
          if broadcast {
            for j := 1 to slaves + 1
              invariant View() == old(View()).(dest := if j == 1 then old(dest) else j - 1)
              invariant exception == if j == 1 then ILLEGAL_FUNCTION else reply(i, j - 1)
              invariant asked == seq(j - 1, k => k + 1)
            {
              dest := j;
              exception, asked := reply(i, dest), asked + [dest];
            }
          } else {
            exception, asked := reply(i, dest), [dest];
          }
          return;
        }
        assert handlers[i..][1..] == handlers[i + 1..];
        i := i + 1;
      }
    }

    /** eMBMasterPoll: refused unless enabled; otherwise the machine's step on the event
        the port delivers, or nothing when no flag is set. */
    method PollMaster(inp: Input) returns (status: Status, ghost picked: Option<Event>)
      modifies this
      ensures status == EILLSTATE <==> old(state) != ENABLED
      ensures old(state) == ENABLED && old(View()).queue != NOTHING ==> picked.Some?
      ensures picked.Some? ==> Deliverable(Flags, old(View()).queue, picked.value)
      ensures picked.Some? ==> View() == Step(Setup(), old(View()), Poll(picked.value, inp))
      ensures picked.None? ==> View() == old(View())
    {
      hide Step, Handle, Executed;
      picked := None;
      if state != ENABLED {
        return EILLSTATE, None;
      }
      var e := GetEvent();
      picked := e;
      status := ENOERR;
      if e.Some? {
        StepPolls(Setup(), old(View()), Poll(e.value, inp));
        Dispatch(e.value, inp);
      }
    }

    method Dispatch(e: Event, inp: Input)
      modifies this
      ensures View() == Handle(Setup(), old(View()), e, inp)
    {
      hide Executed;
      match e
      case Ready =>
      case FrameReceived =>
        var ok := inp.received.Some?;
        if ok {
          frame := inp.received.value.1;
        }
        if ok && inp.received.value.0 == dest {
          PostEvent(Execute);
        } else {
          FailRequest(ReceiveData);
        }
      case Execute =>
        var exception, _ := RunHandler(inp.reply);
        if exception != 0 {
          FailRequest(ExecuteFunction);
        } else {
          FinishRequest(Success);
        }
      case FrameSent =>
        frame := inp.sendBuffer;
      case ErrorProcess =>
        frame := inp.sendBuffer;
        FinishRequest(error);
    }

    /** eMBMasterWaitRequestFinish, woken by a post of its semaphore. */
    method WaitFinish() returns (r: Request)
      requires waiter > 0
      modifies this
      ensures View() == Step(Setup(), old(View()), Wait)
      ensures r == Reading(old(outcomes))
    {
      waiter := waiter - 1;
      r := NO_ERR;
      if outcomes != {} {
        if Success in outcomes {
        } else if Timeout in outcomes {
          r := TIMEDOUT;
        } else if ReceiveData in outcomes {
          r := REV_DATA;
        } else if ExecuteFunction in outcomes {
          r := EXE_FUN;
        }
        outcomes := {};
      }
    }
  }
}
