/** The Modbus master's event machine (apps/modbus/mb_m.c) over two event ports: the one of
    apps/modbus/nuttx/portevent_m.c, which keeps one flag per event, and a lossless queue
    that may deliver in any order. */
module ModbusMaster {
  import opened Common

  datatype Event = Ready | FrameReceived | Execute | FrameSent | ErrorProcess

  /** The events waiting in the port: how many of each.  The flag port never holds two. */
  datatype Queue = Queue(ready: nat, received: nat, execute: nat, sent: nat, error: nat) {
    function Count(e: Event): nat {
      match e
      case Ready => ready
      case FrameReceived => received
      case Execute => execute
      case FrameSent => sent
      case ErrorProcess => error
    }

    function Add(e: Event): Queue {
      match e
      case Ready => this.(ready := ready + 1)
      case FrameReceived => this.(received := received + 1)
      case Execute => this.(execute := execute + 1)
      case FrameSent => this.(sent := sent + 1)
      case ErrorProcess => this.(error := error + 1)
    }

    function Take(e: Event): Queue
      requires Count(e) > 0
    {
      match e
      case Ready => this.(ready := ready - 1)
      case FrameReceived => this.(received := received - 1)
      case Execute => this.(execute := execute - 1)
      case FrameSent => this.(sent := sent - 1)
      case ErrorProcess => this.(error := error - 1)
    }

    /** The queued events that still owe a release. */
    function Owed(): nat {
      received + execute + error
    }

    /** How many polls the queued events can keep the master busy. */
    function Weight(): nat {
      3 * received + 2 * execute + error + sent + ready
    }
  }

  const NOTHING := Queue(0, 0, 0, 0, 0)

  /** What the caller that waits for the request is told. */
  datatype Outcome = Success | Timeout | ReceiveData | ExecuteFunction

  type Failure = o: Outcome | o != Success witness Timeout

  datatype State = ENABLED | DISABLED | NOT_INITIALIZED

  datatype Status = ENOERR | EILLSTATE

  datatype Port = Flags | Lossless

  /** A protocol data unit within its buffer: the function code and at least one byte. */
  type Frame = f: seq<nat> | |f| >= 2 witness [0, 0]

  const ILLEGAL_FUNCTION := 1

  /** The function codes of the handler table and the number of slaves. */
  datatype Config = Config(port: Port, handlers: seq<nat>, slaves: nat)

  datatype Master = Master(
    state: State, queue: Queue, outcomes: set<Outcome>, waiter: nat, releases: nat,
    dest: nat, error: Failure, frame: Frame, broadcast: bool, merged: nat)

  /** What one poll meets outside: the frame received, if it passes its checks, with its
      address; the send buffer; and what handler `i` answers for a destination. */
  datatype Input = Input(received: Option<(nat, Frame)>, sendBuffer: Frame, reply: (nat, nat) -> nat)

  // ---- Events ----

  /** Whether handling the event leads to a release of the bus. */
  predicate Owes(e: Event) {
    e.FrameReceived? || e.Execute? || e.ErrorProcess?
  }

  /** xMBMasterPortEventPost: a flag that is already set absorbs the post. */
  function Post(port: Port, m: Master, e: Event): Master {
    if port.Flags? && m.queue.Count(e) > 0 then m.(merged := m.merged + if Owes(e) then 1 else 0)
    else m.(queue := m.queue.Add(e))
  }

  /** Whether xMBMasterPortEventGet may deliver this event next. */
  predicate Deliverable(port: Port, queue: Queue, e: Event) {
    && queue.Count(e) > 0
    && (port.Flags? ==>
          match e
          case Ready => true
          case FrameReceived => queue.ready == 0
          case Execute => queue.ready + queue.received == 0
          case FrameSent => queue.ready + queue.received + queue.execute == 0
          case ErrorProcess => queue.ready + queue.received + queue.execute + queue.sent == 0)
  }

  /** The priority in which the flag port fetches events. */
  function Rank(e: Event): nat {
    match e
    case Ready => 0
    case FrameReceived => 1
    case Execute => 2
    case FrameSent => 3
    case ErrorProcess => 4
  }

  /** The flag port delivers a queued event exactly if no event of lower rank is queued, so
      it leaves no choice; the lossless queue may deliver any event it holds. */
  lemma DeliveredIff(queue: Queue, e: Event, other: Event)
    ensures Deliverable(Lossless, queue, e) <==> queue.Count(e) > 0
    ensures Deliverable(Flags, queue, e) <==>
      queue.Count(e) > 0 && forall lower: Event | Rank(lower) < Rank(e) :: queue.Count(lower) == 0
    ensures Deliverable(Flags, queue, e) && Deliverable(Flags, queue, other) ==> e == other
  {
    if forall lower: Event | Rank(lower) < Rank(e) :: queue.Count(lower) == 0 {
      assert Rank(Ready) < Rank(e) ==> queue.Count(Ready) == 0;
      assert Rank(FrameReceived) < Rank(e) ==> queue.Count(FrameReceived) == 0;
      assert Rank(Execute) < Rank(e) ==> queue.Count(Execute) == 0;
      assert Rank(FrameSent) < Rank(e) ==> queue.Count(FrameSent) == 0;
    }
  }

  /** Telling the waiter, then vMBMasterRunResRelease. */
  function Finish(m: Master, o: Outcome): Master {
    m.(outcomes := m.outcomes + {o}, waiter := m.waiter + 1, releases := m.releases + 1)
  }

  function Fail(port: Port, m: Master, o: Failure): Master {
    Post(port, m.(error := o), ErrorProcess)
  }

  // ---- Executing a reply ----

  /** The first registered handler for a function code; a zero entry ends the table. */
  function Handler(handlers: seq<nat>, code: nat): (i: nat)
    ensures i <= |handlers|
  {
    if |handlers| == 0 then 0
    else if handlers[0] == 0 then |handlers|
    else if handlers[0] == code then 0
    else 1 + Handler(handlers[1..], code)
  }

  /** Whether entry `i` is the first with this code, before the table ends. */
  predicate FirstEntry(handlers: seq<nat>, code: nat, i: nat) {
    && code != 0 && i < |handlers| && handlers[i] == code
    && forall j | 0 <= j < i :: handlers[j] != code && handlers[j] != 0
  }

  /** The handler chosen is the least entry with the code, none of the entries before it
      ends the table, and there is no choice exactly when no such entry exists. */
  lemma {:induction false} HandlerIff(handlers: seq<nat>, code: nat, i: nat)
    requires i < |handlers|
    ensures Handler(handlers, code) == i <==> FirstEntry(handlers, code, i)
  {
    if handlers[0] != 0 && handlers[0] != code && i > 0 {
      HandlerIff(handlers[1..], code, i - 1);
      assert forall j | 0 < j < i :: handlers[j] == handlers[1..][j - 1];
      assert forall j | 0 <= j < i - 1 :: handlers[1..][j] == handlers[j + 1];
    }
  }

  /** The exception a reply ends with, and the destination address left behind. */
  function Executed(c: Config, m: Master, reply: (nat, nat) -> nat): (nat, nat) {
    var code := m.frame[0];
    var i := Handler(c.handlers, code);
    if code >= 128 then (m.frame[1], m.dest)
    else if i == |c.handlers| then (ILLEGAL_FUNCTION, m.dest)
    else if !m.broadcast then (reply(i, m.dest), m.dest)
    else if c.slaves == 0 then (ILLEGAL_FUNCTION, m.dest)
    else (reply(i, c.slaves), c.slaves)
  }

  /** A broadcast counts as a success exactly if the handler succeeds for the last slave. */
  lemma BroadcastSuccessIff(c: Config, m: Master, reply: (nat, nat) -> nat)
    requires m.broadcast && m.frame[0] < 128 && Handler(c.handlers, m.frame[0]) < |c.handlers| && c.slaves > 0
    ensures Executed(c, m, reply).0 == 0 <==> reply(Handler(c.handlers, m.frame[0]), c.slaves) == 0
    ensures (forall j | 1 <= j <= c.slaves :: reply(Handler(c.handlers, m.frame[0]), j) == 0)
      ==> Executed(c, m, reply).0 == 0
  {
  }

  /** A broadcast that fails for every slave but the last is reported as a success. */
  lemma BroadcastHidesFailures(c: Config)
    requires c.slaves >= 2 && c.handlers == [5]
    ensures exists m: Master, reply: (nat, nat) -> nat ::
      m.broadcast && Executed(c, m, reply).0 == 0 && forall j | 1 <= j < c.slaves :: reply(0, j) != 0
  {
    var m := Master(ENABLED, NOTHING, {}, 0, 0, 0, Timeout, [5, 0], true, 0);
    var reply: (nat, nat) -> nat := (i, j) => if j == c.slaves then 0 else 4;
    assert Handler(c.handlers, 5) == 0;
    assert Executed(c, m, reply).0 == 0;
  }

  // ---- One poll ----

  /** The switch of eMBMasterPoll, on an event already taken from the port. */
  function Handle(c: Config, m: Master, e: Event, inp: Input): Master {
    match e
    case Ready => m
    case FrameReceived =>
      if inp.received.None? then Fail(c.port, m, ReceiveData)
      else
        var m := m.(frame := inp.received.value.1);
        if inp.received.value.0 == m.dest then Post(c.port, m, Execute) else Fail(c.port, m, ReceiveData)
    case Execute =>
      var (exception, dest) := Executed(c, m, inp.reply);
      var m := m.(dest := dest);
      if exception != 0 then Fail(c.port, m, ExecuteFunction) else Finish(m, Success)
    case FrameSent => m.(frame := inp.sendBuffer)
    case ErrorProcess => Finish(m.(frame := inp.sendBuffer), m.error)
  }

  datatype Act =
    | Offer(event: Event)
    | Report(failure: Failure)
    | Sent(broadcast: bool)
    | Poll(pick: Event, input: Input)
    | Enable
    | Disable
    | Wait

  /** One step of the surroundings or of the master.  A poll takes an event the port may
      deliver; `Report` is a failure seen by the receiver or the timer, posted with its
      error type; `Wait` is eMBMasterWaitRequestFinish once it is woken. */
  function Step(c: Config, m: Master, act: Act): Master {
    match act
    case Offer(e) => Post(c.port, m, e)
    case Report(o) => Fail(c.port, m, o)
    case Sent(b) => m.(broadcast := b)
    case Poll(e, inp) =>
      if m.state == ENABLED && Deliverable(c.port, m.queue, e) then
        Handle(c, m.(queue := m.queue.Take(e)), e, inp)
      else m
    case Enable => if m.state == DISABLED then m.(state := ENABLED) else m
    case Disable => if m.state == ENABLED then m.(state := DISABLED) else m
    case Wait => if m.waiter > 0 then m.(waiter := m.waiter - 1, outcomes := {}) else m
  }

  function Run(c: Config, m: Master, acts: seq<Act>): Master
    decreases |acts|
  {
    if |acts| == 0 then m else Run(c, Step(c, m, acts[0]), acts[1..])
  }

  // ---- Conservation ----

  /** The outside posts of a run that owe a release. */
  function Offered(acts: seq<Act>): nat {
    if |acts| == 0 then 0
    else (if (acts[0].Offer? && Owes(acts[0].event)) || acts[0].Report? then 1 else 0) + Offered(acts[1..])
  }

  /** The waits of a run that found an outcome. */
  function Waited(c: Config, m: Master, acts: seq<Act>): nat
    decreases |acts|
  {
    if |acts| == 0 then 0
    else (if acts[0].Wait? && m.waiter > 0 then 1 else 0) + Waited(c, Step(c, m, acts[0]), acts[1..])
  }

  lemma StepConserves(c: Config, m: Master, act: Act)
    ensures var r := Step(c, m, act);
            && r.releases + r.queue.Owed() + r.merged == m.releases + m.queue.Owed() + m.merged + Offered([act])
            && r.waiter + m.releases + Waited(c, m, [act]) == r.releases + m.waiter
            && r.merged >= m.merged
            && (c.port.Lossless? ==> r.merged == m.merged)
  {
    hide Executed, Handle, Step, Offered, Waited;
    CountOne(c, m, act);
    if act.Poll? && m.state == ENABLED && Deliverable(c.port, m.queue, act.pick) {
      StepPolls(c, m, act);
      HandleConserves(c, m.(queue := m.queue.Take(act.pick)), act.pick, act.input);
    } else {
      StepOthers(c, m, act);
    }
  }

  lemma CountOne(c: Config, m: Master, act: Act)
    ensures Offered([act]) == if (act.Offer? && Owes(act.event)) || act.Report? then 1 else 0
    ensures Waited(c, m, [act]) == if act.Wait? && m.waiter > 0 then 1 else 0
  {
    hide Step;
  }

  lemma StepPolls(c: Config, m: Master, act: Act)
    requires act.Poll? && m.state == ENABLED && Deliverable(c.port, m.queue, act.pick)
    ensures Step(c, m, act) == Handle(c, m.(queue := m.queue.Take(act.pick)), act.pick, act.input)
  {
    hide Handle;
  }

  lemma StepOthers(c: Config, m: Master, act: Act)
    requires !(act.Poll? && m.state == ENABLED && Deliverable(c.port, m.queue, act.pick))
    ensures var r := Step(c, m, act);
            && r.releases == m.releases
            && r.queue.Owed() + r.merged == m.queue.Owed() + m.merged
               + (if (act.Offer? && Owes(act.event)) || act.Report? then 1 else 0)
            && r.waiter + (if act.Wait? && m.waiter > 0 then 1 else 0) == m.waiter
            && r.merged >= m.merged
            && (c.port.Lossless? ==> r.merged == m.merged)
  {
    hide Handle;
  }

  /** The accounts before and after: the debt paid or passed on, one waiter told for each
      release, and a bound on what is left to do. */
  ghost predicate Balanced(port: Port, m: Master, r: Master, debt: nat, weight: nat) {
    && r.releases + r.queue.Owed() + r.merged == m.releases + m.queue.Owed() + m.merged + debt
    && r.waiter + m.releases == r.releases + m.waiter
    && r.merged >= m.merged
    && (port.Lossless? ==> r.merged == m.merged)
    && r.queue.Weight() <= m.queue.Weight() + weight
    && r.state == m.state
  }

  /** Handling one event keeps its debt, passes it on or pays it, and lightens the load. */
  lemma HandleConserves(c: Config, m: Master, e: Event, inp: Input)
    ensures Balanced(c.port, m, Handle(c, m, e, inp), if Owes(e) then 1 else 0, NOTHING.Add(e).Weight() - 1)
  {
    hide Executed, Post, Balanced;
    match e
    case FrameReceived =>
      var got := if inp.received.Some? then m.(frame := inp.received.value.1) else m;
      PostBalances(c.port, m, got, Execute);
      PostBalances(c.port, m, got.(error := ReceiveData), ErrorProcess);
    case Execute =>
      var ran := m.(dest := Executed(c, m, inp.reply).1);
      PostBalances(c.port, m, ran.(error := ExecuteFunction), ErrorProcess);
      FinishBalances(c.port, m, ran, Success, 1);
    case ErrorProcess =>
      FinishBalances(c.port, m, m.(frame := inp.sendBuffer), m.error, 0);
    case _ =>
      SameBalances(c.port, m, Handle(c, m, e, inp));
  }

  /** Two states that differ in nothing the accounts read. */
  predicate SameAccounts(m: Master, r: Master) {
    r.releases == m.releases && r.queue == m.queue && r.merged == m.merged && r.waiter == m.waiter && r.state == m.state
  }

  lemma SameBalances(port: Port, m: Master, r: Master)
    requires SameAccounts(m, r)
    ensures Balanced(port, m, r, 0, 0)
  {
  }

  lemma FinishBalances(port: Port, m: Master, m': Master, o: Outcome, weight: nat)
    requires SameAccounts(m, m')
    ensures Balanced(port, m, Finish(m', o), 1, weight)
  {
  }

  lemma PostBalances(port: Port, m: Master, m': Master, e: Event)
    requires SameAccounts(m, m') && (e == Execute || e == ErrorProcess)
    ensures forall weight | weight >= NOTHING.Add(e).Weight() :: Balanced(port, m, Post(port, m', e), 1, weight)
  {
  }

  /** Over every run: each outside post that owes a release is either still queued, was
      absorbed by a flag already set, or was released exactly once; every release told
      exactly one waiter; and a lossless port absorbs nothing. */
  lemma {:induction false} Conservation(c: Config, m: Master, acts: seq<Act>)
    ensures var r := Run(c, m, acts);
            && r.releases + r.queue.Owed() + r.merged == m.releases + m.queue.Owed() + m.merged + Offered(acts)
            && r.waiter + m.releases + Waited(c, m, acts) == r.releases + m.waiter
            && r.merged >= m.merged
            && (c.port.Lossless? ==> r.merged == m.merged)
    decreases |acts|
  {
    hide Step;
    if |acts| > 0 {
      StepConserves(c, m, acts[0]);
      Conservation(c, Step(c, m, acts[0]), acts[1..]);
    }
  }

  /** Whether the step posts an event that owes a release onto a flag already set. */
  predicate Collides(c: Config, m: Master, act: Act) {
    && c.port.Flags?
    && match act
       case Offer(e) => Owes(e) && m.queue.Count(e) > 0
       case Report(_) => m.queue.error > 0
       case Poll(FrameReceived, inp) =>
         && m.state == ENABLED && Deliverable(c.port, m.queue, FrameReceived)
         && if inp.received.Some? && inp.received.value.0 == m.dest then m.queue.execute > 0 else m.queue.error > 0
       case Poll(Execute, inp) =>
         && m.state == ENABLED && Deliverable(c.port, m.queue, Execute)
         && Executed(c, m.(queue := m.queue.Take(Execute)), inp.reply).0 != 0 && m.queue.error > 0
       case _ => false
  }

  lemma StepMerges(c: Config, m: Master, act: Act)
    ensures Step(c, m, act).merged == m.merged + if Collides(c, m, act) then 1 else 0
  {
    hide Executed, Step, Handle;
    if act.Poll? && m.state == ENABLED && Deliverable(c.port, m.queue, act.pick) {
      StepPolls(c, m, act);
      HandleMerges(c, m.(queue := m.queue.Take(act.pick)), act.pick, act.input);
    } else {
      IdleMerges(c, m, act);
    }
  }

  lemma IdleMerges(c: Config, m: Master, act: Act)
    requires !(act.Poll? && m.state == ENABLED && Deliverable(c.port, m.queue, act.pick))
    ensures Step(c, m, act).merged == m.merged + if Collides(c, m, act) then 1 else 0
  {
    hide Executed, Handle;
  }

  lemma HandleMerges(c: Config, m: Master, e: Event, inp: Input)
    ensures Handle(c, m, e, inp).merged == m.merged + (
      if c.port.Lossless? then 0
      else match e
        case FrameReceived =>
          var target := if inp.received.Some? && inp.received.value.0 == m.dest then m.queue.execute else m.queue.error;
          if target > 0 then 1 else 0
        case Execute => if Executed(c, m, inp.reply).0 != 0 && m.queue.error > 0 then 1 else 0
        case _ => 0)
  {
    hide Executed;
  }

  /** Whether no step of the run collides. */
  predicate Clear(c: Config, m: Master, acts: seq<Act>)
    decreases |acts|
  {
    |acts| > 0 ==> !Collides(c, m, acts[0]) && Clear(c, Step(c, m, acts[0]), acts[1..])
  }

  lemma {:induction false} ClearIff(c: Config, m: Master, acts: seq<Act>)
    ensures Clear(c, m, acts) <==> Run(c, m, acts).merged == m.merged
    decreases |acts|
  {
    hide Step, Collides;
    if |acts| > 0 {
      StepMerges(c, m, acts[0]);
      ClearIff(c, Step(c, m, acts[0]), acts[1..]);
      Conservation(c, Step(c, m, acts[0]), acts[1..]);
    }
  }

  /** A run that drains the port releases the bus once per outside post exactly if every
      post it made, from outside or by the master, found its flag clear. */
  lemma DrainedExactIff(c: Config, m: Master, acts: seq<Act>)
    requires m.queue.Owed() == 0 && Run(c, m, acts).queue.Owed() == 0
    ensures Run(c, m, acts).releases == m.releases + Offered(acts) <==> Clear(c, m, acts)
  {
    Conservation(c, m, acts);
    ClearIff(c, m, acts);
  }

  /** The flag port loses a request: two failures before the next poll give one release,
      which tells only the later failure. */
  lemma FlagsLose(c: Config, m: Master, early: Failure, late: Failure, inp: Input)
    requires c.port == Flags && m.state == ENABLED && m.queue == NOTHING
    ensures var r := Run(c, m, [Report(early), Report(late), Poll(ErrorProcess, inp)]);
            r.queue == NOTHING && r.releases == m.releases + 1 && r.outcomes == m.outcomes + {late}
  {
    hide Step, Handle;
    RunThree(c, m, Report(early), Report(late), Poll(ErrorProcess, inp));
    ReportStep(c, m, early);
    var m1 := Step(c, m, Report(early));
    ReportStep(c, m1, late);
    ErrorStep(c, Step(c, m1, Report(late)), inp);
  }

  lemma RunThree(c: Config, m: Master, a: Act, b: Act, d: Act)
    ensures Run(c, m, [a, b, d]) == Step(c, Step(c, Step(c, m, a), b), d)
  {
    hide Step;
    assert [a, b, d][1..] == [b, d];
    assert [b, d][1..] == [d];
    var m1 := Step(c, m, a);
    var m2 := Step(c, m1, b);
    assert Run(c, m2, [d]) == Step(c, m2, d);
    assert Run(c, m1, [b, d]) == Run(c, m2, [d]);
  }

  lemma ReportStep(c: Config, m: Master, o: Failure)
    requires c.port == Flags
    ensures var r := Step(c, m, Report(o));
            && r.state == m.state && r.releases == m.releases && r.outcomes == m.outcomes && r.error == o
            && r.queue == (if m.queue.error > 0 then m.queue else m.queue.Add(ErrorProcess))
  {
    hide Handle;
  }

  lemma ErrorStep(c: Config, m: Master, inp: Input)
    requires m.state == ENABLED && m.queue == NOTHING.Add(ErrorProcess)
    ensures var r := Step(c, m, Poll(ErrorProcess, inp));
            r.queue == NOTHING && r.releases == m.releases + 1 && r.outcomes == m.outcomes + {m.error}
  {
    hide Step, Executed;
    StepPolls(c, m, Poll(ErrorProcess, inp));
  }

  // ---- Progress ----

  /** Whether every act is a poll that takes an event. */
  predicate Busy(c: Config, m: Master, acts: seq<Act>)
    decreases |acts|
  {
    |acts| > 0 ==>
      && acts[0].Poll? && Deliverable(c.port, m.queue, acts[0].pick)
      && Busy(c, Step(c, m, acts[0]), acts[1..])
  }

  /** Without outside posts, no schedule of deliveries takes more polls than the weight. */
  lemma {:induction false} PollsBounded(c: Config, m: Master, acts: seq<Act>)
    requires m.state == ENABLED && Busy(c, m, acts)
    ensures |acts| + Run(c, m, acts).queue.Weight() <= m.queue.Weight()
    ensures Run(c, m, acts).state == ENABLED
    decreases |acts|
  {
    hide Step, Handle;
    if |acts| > 0 {
      StepPolls(c, m, acts[0]);
      HandleConserves(c, m.(queue := m.queue.Take(acts[0].pick)), acts[0].pick, acts[0].input);
      PollsBounded(c, Step(c, m, acts[0]), acts[1..]);
    }
  }

  /** An enabled master with an event queued can always take one; so it stops only drained. */
  lemma NeverStuck(c: Config, m: Master)
    requires m.state == ENABLED && m.queue.Weight() > 0
    ensures exists e: Event :: Deliverable(c.port, m.queue, e)
  {
    var q := m.queue;
    var e := if q.ready > 0 then Ready else if q.received > 0 then FrameReceived
      else if q.execute > 0 then Execute else if q.sent > 0 then FrameSent else ErrorProcess;
    assert Deliverable(c.port, q, e);
  }

  // ---- One request ----

  /** What a received frame must end as. */
  function Verdict(c: Config, m: Master, inp: Input): (v: Outcome)
    ensures v != Timeout
  {
    if inp.received.None? || inp.received.value.0 != m.dest then ReceiveData
    else if Executed(c, m.(frame := inp.received.value.1), inp.reply).0 == 0 then Success
    else ExecuteFunction
  }

  /** A reply is a success exactly if it comes from the slave asked and either is an
      exception reply without a code, or has a handler that accepts it; an exception reply
      with a code and a function without a handler are always failures. */
  lemma SuccessIff(c: Config, m: Master, from: nat, frame: Frame, inp: Input)
    requires inp.received == Some((from, frame)) && !m.broadcast
    ensures Verdict(c, m, inp) == Success <==>
      && from == m.dest
      && (frame[0] < 128 ==> exists i :: FirstEntry(c.handlers, frame[0], i) && inp.reply(i, m.dest) == 0)
      && (frame[0] >= 128 ==> frame[1] == 0)
  {
    var i := Handler(c.handlers, frame[0]);
    if i < |c.handlers| {
      HandlerIff(c.handlers, frame[0], i);
    }
    forall k: nat | k < |c.handlers|
      ensures i == k <==> FirstEntry(c.handlers, frame[0], k)
    {
      HandlerIff(c.handlers, frame[0], k);
    }
  }

  /** A single reply, on either port and with whatever the polls deliver, ends in exactly
      one release and the outcome its frame deserves. */
  lemma ReplyDelivered(c: Config, m: Master, inp: Input, acts: seq<Act>)
    requires m.state == ENABLED && m.queue == NOTHING.Add(FrameReceived) && m.outcomes == {}
    requires Busy(c, m, acts) && forall k | 0 <= k < |acts| :: acts[k].Poll? && acts[k].input == inp
    requires Run(c, m, acts).queue == NOTHING
    ensures Run(c, m, acts).releases == m.releases + 1
    ensures Run(c, m, acts).outcomes == {Verdict(c, m, inp)}
  {
    hide Step, Verdict, Executed;
    var m1 := Step(c, m, acts[0]);
    ReceivedStep(c, m, inp);
    if Verdict(c, m, inp) == ReceiveData {
      OneMore(c, m1, acts[1..]);
    } else {
      var rest := acts[1..];
      var m2 := Step(c, m1, rest[0]);
      VerdictIs(c, m, inp);
      ExecuteStep(c, m1, inp);
      if Verdict(c, m, inp) == ExecuteFunction {
        OneMore(c, m2, rest[1..]);
      } else {
        Idle(c, m2, rest[1..]);
      }
    }
  }

  lemma ReceivedStep(c: Config, m: Master, inp: Input)
    requires m.state == ENABLED && m.queue == NOTHING.Add(FrameReceived)
    ensures var r := Step(c, m, Poll(FrameReceived, inp));
            && r.state == ENABLED && r.releases == m.releases && r.outcomes == m.outcomes
            && (Verdict(c, m, inp) == ReceiveData ==> r.queue == NOTHING.Add(ErrorProcess) && r.error == ReceiveData)
            && (Verdict(c, m, inp) != ReceiveData ==>
                  inp.received.Some? && r == m.(frame := inp.received.value.1, queue := NOTHING.Add(Execute)))
  {
    hide Step, Handle, Executed, Verdict;
    StepPolls(c, m, Poll(FrameReceived, inp));
    assert m.queue.Take(FrameReceived) == NOTHING;
    HandleReceived(c, m.(queue := NOTHING), inp);
    VerdictRead(c, m, inp);
  }

  lemma VerdictRead(c: Config, m: Master, inp: Input)
    ensures Verdict(c, m, inp) == ReceiveData <==> inp.received.None? || inp.received.value.0 != m.dest
  {
    hide Executed;
  }

  lemma HandleReceived(c: Config, m: Master, inp: Input)
    requires m.queue == NOTHING
    ensures Handle(c, m, FrameReceived, inp) ==
            if inp.received.None? then m.(error := ReceiveData, queue := NOTHING.Add(ErrorProcess))
            else if inp.received.value.0 != m.dest then
              m.(frame := inp.received.value.1, error := ReceiveData, queue := NOTHING.Add(ErrorProcess))
            else m.(frame := inp.received.value.1, queue := NOTHING.Add(Execute))
  {
    hide Executed, Fail, Post;
    var got := if inp.received.Some? then m.(frame := inp.received.value.1) else m;
    FailAlone(c.port, got, ReceiveData);
    PostAlone(c.port, got, Execute);
  }

  lemma PostAlone(port: Port, m: Master, e: Event)
    requires m.queue == NOTHING
    ensures Post(port, m, e) == m.(queue := NOTHING.Add(e))
  {
  }

  lemma FailAlone(port: Port, m: Master, o: Failure)
    requires m.queue == NOTHING
    ensures Fail(port, m, o) == m.(error := o, queue := NOTHING.Add(ErrorProcess))
  {
  }

  lemma ExecuteStep(c: Config, m: Master, inp: Input)
    requires m.state == ENABLED && m.queue == NOTHING.Add(Execute)
    ensures var r := Step(c, m, Poll(Execute, inp));
            && r.state == ENABLED
            && (Executed(c, m, inp.reply).0 == 0 ==>
                  r.queue == NOTHING && r.releases == m.releases + 1 && r.outcomes == m.outcomes + {Success})
            && (Executed(c, m, inp.reply).0 != 0 ==>
                  && r.queue == NOTHING.Add(ErrorProcess) && r.error == ExecuteFunction
                  && r.releases == m.releases && r.outcomes == m.outcomes)
  {
    hide Step, Handle, Executed, Fail;
    StepPolls(c, m, Poll(Execute, inp));
    var taken := m.(queue := NOTHING);
    assert m.queue.Take(Execute) == NOTHING;
    QueueUnread(c, m, NOTHING, inp.reply);
    HandleExecute(c, taken, inp);
    FailAlone(c.port, taken.(dest := Executed(c, taken, inp.reply).1), ExecuteFunction);
  }

  lemma VerdictIs(c: Config, m: Master, inp: Input)
    requires Verdict(c, m, inp) != ReceiveData
    ensures inp.received.Some?
    ensures var m1 := m.(frame := inp.received.value.1, queue := NOTHING.Add(Execute));
            Verdict(c, m, inp) == if Executed(c, m1, inp.reply).0 == 0 then Success else ExecuteFunction
  {
    hide Executed;
    QueueUnread(c, m.(frame := inp.received.value.1), NOTHING.Add(Execute), inp.reply);
  }

  lemma QueueUnread(c: Config, m: Master, queue: Queue, reply: (nat, nat) -> nat)
    ensures Executed(c, m.(queue := queue), reply) == Executed(c, m, reply)
  {
    hide Handler;
  }

  lemma HandleExecute(c: Config, m: Master, inp: Input)
    ensures var (exception, dest) := Executed(c, m, inp.reply);
            Handle(c, m, Execute, inp) ==
              if exception != 0 then Fail(c.port, m.(dest := dest), ExecuteFunction)
              else Finish(m.(dest := dest), Success)
  {
    hide Executed, Fail, Finish;
  }

  lemma OneMore(c: Config, m: Master, acts: seq<Act>)
    requires m.state == ENABLED && m.queue == NOTHING.Add(ErrorProcess)
    requires Busy(c, m, acts) && Run(c, m, acts).queue == NOTHING
    ensures Run(c, m, acts).releases == m.releases + 1
    ensures Run(c, m, acts).outcomes == m.outcomes + {m.error}
  {
    hide Step;
    ErrorStep(c, m, acts[0].input);
    Idle(c, Step(c, m, acts[0]), acts[1..]);
  }

  lemma Idle(c: Config, m: Master, acts: seq<Act>)
    requires m.queue == NOTHING && Busy(c, m, acts)
    ensures Run(c, m, acts) == m
  {
    hide Step;
  }
}
