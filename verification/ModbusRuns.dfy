/** What the Modbus master holds over whole runs, beside its events: its state, the frame it
    will execute, the address it expects a reply from, and whether the request is broadcast. */
module ModbusRuns {
  import opened Common
  import opened ModbusMaster

  /** Whether the act, when it takes its event, loads a frame. */
  predicate Loads(act: Act) {
    act.Poll? && match act.pick
      case FrameReceived => act.input.received.Some?
      case FrameSent => true
      case ErrorProcess => true
      case _ => false
  }

  /** The frame an act loads: the one received, or the send buffer. */
  function Loaded(act: Act): Frame
    requires Loads(act)
  {
    if act.pick.FrameReceived? then act.input.received.value.1 else act.input.sendBuffer
  }

  /** Whether the poll takes its event. */
  predicate Takes(c: Config, m: Master, act: Act) {
    act.Poll? && m.state == ENABLED && Deliverable(c.port, m.queue, act.pick)
  }

  predicate Switches(act: Act) {
    act.Enable? || act.Disable?
  }

  lemma StepFields(c: Config, m: Master, act: Act)
    ensures var r := Step(c, m, act);
            && r.frame == (if Takes(c, m, act) && Loads(act) then Loaded(act) else m.frame)
            && r.broadcast == (if act.Sent? then act.broadcast else m.broadcast)
            && (!Switches(act) || m.state == NOT_INITIALIZED ==> r.state == m.state)
            && (Switches(act) && m.state != NOT_INITIALIZED ==> r.state == if act.Enable? then ENABLED else DISABLED)
  {
    hide Step, Handle, Loads, Loaded;
    if Takes(c, m, act) {
      StepPolls(c, m, act);
      HandleFields(c, m.(queue := m.queue.Take(act.pick)), act);
    } else {
      OthersFields(c, m, act);
    }
  }

  lemma HandleFields(c: Config, m: Master, act: Act)
    requires act.Poll?
    ensures var r := Handle(c, m, act.pick, act.input);
            && r.frame == (if Loads(act) then Loaded(act) else m.frame)
            && r.broadcast == m.broadcast && r.state == m.state
  {
    hide Executed, Queue.Add, Queue.Count;
  }

  lemma OthersFields(c: Config, m: Master, act: Act)
    requires !Takes(c, m, act)
    ensures var r := Step(c, m, act);
            && r.frame == m.frame
            && r.broadcast == (if act.Sent? then act.broadcast else m.broadcast)
            && (!Switches(act) || m.state == NOT_INITIALIZED ==> r.state == m.state)
            && (Switches(act) && m.state != NOT_INITIALIZED ==> r.state == if act.Enable? then ENABLED else DISABLED)
  {
    hide Handle;
  }

  /** A run without an act of the kind keeps what that kind changes. */
  lemma {:induction false} Kept(c: Config, m: Master, acts: seq<Act>)
    ensures (forall a | a in acts :: !Loads(a)) ==> Run(c, m, acts).frame == m.frame
    ensures (forall a | a in acts :: !a.Sent?) ==> Run(c, m, acts).broadcast == m.broadcast
    ensures (forall a | a in acts :: !Switches(a)) ==> Run(c, m, acts).state == m.state
    ensures m.state == NOT_INITIALIZED ==> Run(c, m, acts).state == NOT_INITIALIZED
    decreases |acts|
  {
    hide Step;
    if |acts| > 0 {
      StepFields(c, m, acts[0]);
      Kept(c, Step(c, m, acts[0]), acts[1..]);
    }
  }

  /** Over every run the frame held is the last one loaded, the broadcast mark the last one
      sent with, and the state of an initialised master the last one switched to. */
  lemma LastHolds(c: Config, m: Master, act: Act, acts: seq<Act>)
    ensures Takes(c, m, act) && Loads(act) && (forall a | a in acts :: !Loads(a)) ==>
              Run(c, m, [act] + acts).frame == Loaded(act)
    ensures act.Sent? && (forall a | a in acts :: !a.Sent?) ==> Run(c, m, [act] + acts).broadcast == act.broadcast
    ensures Switches(act) && m.state != NOT_INITIALIZED && (forall a | a in acts :: !Switches(a)) ==>
              Run(c, m, [act] + acts).state == if act.Enable? then ENABLED else DISABLED
  {
    hide Step;
    assert ([act] + acts)[1..] == acts;
    StepFields(c, m, act);
    Kept(c, Step(c, m, act), acts);
  }

  // ---- A master that is not enabled ----

  lemma PausedStep(c: Config, m: Master, act: Act, e: Event)
    requires m.state != ENABLED && !act.Enable?
    ensures var r := Step(c, m, act);
            && r.state != ENABLED && r.releases == m.releases && r.dest == m.dest && r.frame == m.frame
            && r.outcomes <= m.outcomes && r.queue.Count(e) >= m.queue.Count(e)
  {
    hide Executed, Handle;
  }

  /** Until it is enabled, a master releases nothing, tells nothing and loses no event. */
  lemma {:induction false} PausedHolds(c: Config, m: Master, acts: seq<Act>, e: Event)
    requires m.state != ENABLED && forall a | a in acts :: !a.Enable?
    ensures var r := Run(c, m, acts);
            && r.releases == m.releases && r.dest == m.dest && r.frame == m.frame
            && r.outcomes <= m.outcomes && r.queue.Count(e) >= m.queue.Count(e)
    decreases |acts|
  {
    hide Step;
    if |acts| > 0 {
      PausedStep(c, m, acts[0], e);
      PausedHolds(c, Step(c, m, acts[0]), acts[1..], e);
    }
  }

  // ---- The address ----

  lemma StepAddress(c: Config, m: Master, act: Act)
    ensures Step(c, m, act).dest == m.dest || (m.broadcast && Step(c, m, act).dest == c.slaves > 0)
  {
    hide Step, Handle;
    if Takes(c, m, act) {
      StepPolls(c, m, act);
      HandleAddress(c, m.(queue := m.queue.Take(act.pick)), act.pick, act.input);
    } else {
      OthersAddress(c, m, act);
    }
  }

  lemma HandleAddress(c: Config, m: Master, e: Event, inp: Input)
    ensures Handle(c, m, e, inp).dest == m.dest || (m.broadcast && Handle(c, m, e, inp).dest == c.slaves > 0)
  {
  }

  lemma OthersAddress(c: Config, m: Master, act: Act)
    requires !Takes(c, m, act)
    ensures Step(c, m, act).dest == m.dest
  {
    hide Handle;
  }

  /** Over every run the address stays, unless a broadcast moves it to the last slave. */
  lemma {:induction false} AddressHeld(c: Config, m: Master, acts: seq<Act>)
    ensures Run(c, m, acts).dest == m.dest || Run(c, m, acts).dest == c.slaves > 0
    ensures !m.broadcast && (forall a | a in acts :: a.Sent? ==> !a.broadcast) ==> Run(c, m, acts).dest == m.dest
    decreases |acts|
  {
    hide Step;
    if |acts| > 0 {
      StepAddress(c, m, acts[0]);
      StepFields(c, m, acts[0]);
      AddressHeld(c, Step(c, m, acts[0]), acts[1..]);
    }
  }

  /** A broadcast that finds a handler leaves the master expecting the last slave: from then
      on a reply is refused exactly if it comes from another one. */
  lemma BroadcastMovesAddress(c: Config, m: Master, inp: Input, next: Input)
    requires m.state == ENABLED && Deliverable(c.port, m.queue, Execute)
    requires m.broadcast && m.frame[0] < 128 && Handler(c.handlers, m.frame[0]) < |c.handlers| && c.slaves > 0
    requires next.received.Some?
    ensures Verdict(c, Step(c, m, Poll(Execute, inp)), next) == ReceiveData <==> next.received.value.0 != c.slaves
  {
    hide Step, Handle, Verdict, Executed;
    var taken := m.(queue := m.queue.Take(Execute));
    StepPolls(c, m, Poll(Execute, inp));
    HandleExecute(c, taken, inp);
    BroadcastAddress(c, taken, inp.reply);
    VerdictRead(c, Step(c, m, Poll(Execute, inp)), next);
  }

  lemma BroadcastAddress(c: Config, m: Master, reply: (nat, nat) -> nat)
    requires m.broadcast && m.frame[0] < 128 && Handler(c.handlers, m.frame[0]) < |c.handlers| && c.slaves > 0
    ensures Executed(c, m, reply).1 == c.slaves
  {
  }
}
