/**
 The consumer of `consumer.hpp` as a labelled transition system: two lanes with a mutex, a shared
 deque and a private process deque each, one condition variable and one exit flag for both, and any
 number of producers. A label says which thread moves; a thread that is not at the matching program
 point, or whose mutex is taken, cannot move.
 */
module Protocol {
  import opened Common
  import opened Traces

  datatype Lane = Blocks | Trxs

  function LaneOf(e: Entry): Lane {
    if e.BlockEntry? then Blocks else Trxs
  }

  /** A queued entry and the producer that pushed it. */
  datatype Item = Item(source: nat, entry: Entry)

  /** Program points of `run_blocks` and `run_traces`. */
  datatype ConsumerPc =
    | LoopTest           // at the outer loop test
    | Acquire            // wants the lane mutex
    | Test               // holds the mutex, at the inner loop test
    | PreWait            // holds the mutex, has seen an empty queue and no exit, is about to wait
    | Asleep             // waits on the condition, mutex released
    | Reacquire          // was woken, wants the mutex again
    | Take               // holds the mutex, is about to move the queue away and unlock
    | Drain(made: nat)   // processes the batch; `made` records of its front entry have been begun
    | Signal             // the batch is done, is about to notify
    | Ended

  /** Program points of `queue`, called with `entry`. */
  datatype ProducerPc =
    | Idle
    | Enter(entry: Entry)    // wants the lane mutex
    | Admit(entry: Entry)    // holds the mutex, at the size test
    | Nudge(entry: Entry)    // queue was full: unlocked, is about to notify one
    | Backoff(entry: Entry)  // has slept, wants the mutex again
    | Append(entry: Entry)   // holds the mutex, is about to append and unlock
    | Announce(lane: Lane)   // has appended, is about to notify all

  datatype Holder = Nobody | Consumer | Producer(p: nat)

  /** A record begun, and whether the `add` that made it threw. */
  datatype Try = Try(job: Job, threw: bool)

  /** How the consumption of an entry ended: to its end, by a throw inside an `add`, or by one outside. */
  datatype End = Finished | Thrown | Aborted

  /** A consumed entry: how many of its records were begun, and how it ended. */
  datatype Done = Done(item: Item, made: nat, end: End)

  datatype LaneState = LaneState(
    queue: seq<Item>,
    process: seq<Item>,
    pc: ConsumerPc,
    holder: Holder,
    // history
    pushed: seq<Item>,
    done: seq<Done>,
    attempts: seq<Try>,
    lateBatches: nat  // non-empty batches taken with the exit flag set
  )

  datatype StopPc = Running | ExitSet | Stopped

  datatype System = System(
    blocks: LaneState,
    trxs: LaneState,
    producers: seq<ProducerPc>,
    exit: bool,
    stopper: StopPc,
    signals: seq<Item>  // history: every chain signal, with the producer thread that received it
  ) {
    function At(l: Lane): LaneState {
      if l == Blocks then blocks else trxs
    }

    function With(l: Lane, ls: LaneState): System {
      if l == Blocks then this.(blocks := ls) else this.(trxs := ls)
    }

    function Move(p: nat, pc: ProducerPc): System
      requires p < |producers|
    {
      this.(producers := producers[p := pc])
    }
  }

  datatype Config = Config(queueSize: nat, startBlock: nat, filter: Filter)

  /** A move of a producer thread inside `queue`, or the signal that makes it call `queue`. */
  datatype ProducerMove =
    | Signalled(entry: Entry)
    | LockFirst
    | TestSize
    | NotifyOne(woken: Option<Lane>)
    | LockAgain
    | EmplaceBack
    | NotifyAll

  /** A move of a consumer thread that touches its own lane only. */
  datatype LaneMove =
    | TestExit
    | LockLane
    | TestQueue
    | FallAsleep
    | Spurious
    | Relock
    | TakeBatch
    | Attempt(threw: bool)
    | Abort
    | Finish
    | BatchDone

  datatype Label =
    | OfProducer(p: nat, act: ProducerMove)
    | OfLane(l: Lane, move: LaneMove)
    | NotifyDone(done: Lane)
    | SetExit
    | NotifyExit

  const FRESH_LANE := LaneState([], [], LoopTest, Nobody, [], [], [], 0)

  function Init(n: nat): System {
    System(FRESH_LANE, FRESH_LANE, seq(n, i => Idle), false, Running, [])
  }

  function Wake(ls: LaneState): LaneState {
    if ls.pc.Asleep? then ls.(pc := Reacquire) else ls
  }

  function WakeAll(s: System): System {
    s.(blocks := Wake(s.blocks), trxs := Wake(s.trxs))
  }

  /** Whether `notify_one` may wake the consumer of `woken`, or nobody. */
  predicate MayWakeOne(s: System, woken: Option<Lane>) {
    match woken
    case None => !s.blocks.pc.Asleep? && !s.trxs.pc.Asleep?
    case Some(l) => s.At(l).pc.Asleep?
  }

  /** Where producer `p` is. */
  function PcOf(s: System, p: nat): ProducerPc {
    if p < |s.producers| then s.producers[p] else Idle
  }

  function ProducerStep(cfg: Config, s: System, p: nat, act: ProducerMove): Option<System> {
    match act
    case Signalled(e) =>
      if p < |s.producers| && s.producers[p].Idle? then
        var t := s.(signals := s.signals + [Item(p, e)]);
        Some(if Passes(cfg.startBlock, e) then t.Move(p, Enter(e)) else t)
      else None
    case LockFirst =>
      (match PcOf(s, p)
       case Enter(e) =>
         var ls := s.At(LaneOf(e));
         if ls.holder == Nobody then Some(s.Move(p, Admit(e)).With(LaneOf(e), ls.(holder := Producer(p)))) else None
       case _ => None)
    case TestSize =>
      (match PcOf(s, p)
       case Admit(e) =>
         var ls := s.At(LaneOf(e));
         Some(if |ls.queue| > cfg.queueSize
              then s.Move(p, Nudge(e)).With(LaneOf(e), ls.(holder := Nobody))
              else s.Move(p, Append(e)))
       case _ => None)
    case NotifyOne(woken) =>
      (match PcOf(s, p)
       case Nudge(e) =>
         if !MayWakeOne(s, woken) then None
         else
           var t := s.Move(p, Backoff(e));
           Some(if woken.None? then t else t.With(woken.value, Wake(t.At(woken.value))))
       case _ => None)
    case LockAgain =>
      (match PcOf(s, p)
       case Backoff(e) =>
         var ls := s.At(LaneOf(e));
         if ls.holder == Nobody then Some(s.Move(p, Append(e)).With(LaneOf(e), ls.(holder := Producer(p)))) else None
       case _ => None)
    case EmplaceBack =>
      (match PcOf(s, p)
       case Append(e) =>
         var ls := s.At(LaneOf(e));
         var item := Item(p, e);
         Some(s.Move(p, Announce(LaneOf(e)))
              .With(LaneOf(e), ls.(queue := ls.queue + [item], pushed := ls.pushed + [item], holder := Nobody)))
       case _ => None)
    case NotifyAll =>
      (match PcOf(s, p)
       case Announce(_) => Some(WakeAll(s.Move(p, Idle)))
       case _ => None)
  }

  function LaneStep(cfg: Config, exit: bool, ls: LaneState, move: LaneMove): Option<LaneState> {
    match move
    case TestExit =>
      if ls.pc.LoopTest? then Some(ls.(pc := if exit then Ended else Acquire)) else None
    case LockLane =>
      if ls.pc.Acquire? && ls.holder == Nobody then Some(ls.(pc := Test, holder := Consumer)) else None
    case TestQueue =>
      if ls.pc.Test? then Some(ls.(pc := if ls.queue == [] && !exit then PreWait else Take)) else None
    case FallAsleep =>
      if ls.pc.PreWait? then Some(ls.(pc := Asleep, holder := Nobody)) else None
    case Spurious =>
      if ls.pc.Asleep? then Some(ls.(pc := Reacquire)) else None
    case Relock =>
      if ls.pc.Reacquire? && ls.holder == Nobody then Some(ls.(pc := Test, holder := Consumer)) else None
    case TakeBatch =>
      if ls.pc.Take? then Some(MoveBatch(ls, exit)) else None
    case Attempt(threw) =>
      if ls.pc.Drain? && ls.process != [] && ls.pc.made < |Jobs(cfg.filter, ls.process[0].entry)| then
        var t := BeginJob(cfg.filter, ls, threw);
        Some(if threw then PopFront(t, Thrown) else t)
      else None
    case Abort =>
      if ls.pc.Drain? && ls.process != [] && MayAbort(ls.process[0].entry, ls.pc.made)
      then Some(PopFront(ls, Aborted)) else None
    case Finish =>
      if ls.pc.Drain? && ls.process != [] && ls.pc.made == |Jobs(cfg.filter, ls.process[0].entry)|
         && Unpacks(ls.process[0].entry)
      then Some(PopFront(ls, Finished)) else None
    case BatchDone =>
      if ls.pc.Drain? && ls.process == [] then Some(ls.(pc := Signal)) else None
  }

  /** Under the mutex: a non-empty queue is moved away whole, and the mutex is released. */
  function MoveBatch(ls: LaneState, exit: bool): LaneState {
    var t := if |ls.queue| > 0
             then ls.(process := ls.queue, queue := [], lateBatches := ls.lateBatches + if exit then 1 else 0)
             else ls;
    t.(pc := Drain(0), holder := Nobody)
  }

  /** Where consuming an entry can throw outside an `add`: a trace takes one session, before its first record;
      a block takes one for every action, and may meet a receipt that does not unpack. */
  predicate MayAbort(e: Entry, made: nat) {
    e.BlockEntry? || made == 0
  }

  /** The next record of the front entry is begun. */
  function BeginJob(filter: Filter, ls: LaneState, threw: bool): LaneState
    requires ls.pc.Drain? && ls.process != [] && ls.pc.made < |Jobs(filter, ls.process[0].entry)|
  {
    ls.(attempts := ls.attempts + [Try(Jobs(filter, ls.process[0].entry)[ls.pc.made], threw)],
        pc := Drain(ls.pc.made + 1))
  }

  /** The front entry has been consumed or its consumption threw: it is popped either way. */
  function PopFront(ls: LaneState, end: End): LaneState
    requires ls.pc.Drain? && ls.process != []
  {
    ls.(process := ls.process[1..],
        done := ls.done + [Done(ls.process[0], ls.pc.made, end)],
        pc := Drain(0))
  }

  /** One move of one thread. */
  function Step(cfg: Config, s: System, ev: Label): Option<System> {
    match ev
    case OfProducer(p, act) => ProducerStep(cfg, s, p, act)
    case OfLane(l, move) =>
      var moved := LaneStep(cfg, s.exit, s.At(l), move);
      if moved.None? then None else Some(s.With(l, moved.value))
    case NotifyDone(l) =>
      if s.At(l).pc.Signal? then Some(WakeAll(s.With(l, s.At(l).(pc := LoopTest)))) else None
    case SetExit =>
      if s.stopper.ExitSet? then None else Some(s.(exit := true, stopper := ExitSet))
    case NotifyExit =>
      if s.stopper.ExitSet? then Some(WakeAll(s.(stopper := Stopped))) else None
  }

  /** `labels` is a run from `s` to `t`: an interleaving of the threads, one move at a time. */
  predicate Reaches(cfg: Config, s: System, labels: seq<Label>, t: System)
    decreases |labels|
  {
    if labels == [] then s == t
    else
      var u := Step(cfg, s, labels[0]);
      u.Some? && Reaches(cfg, u.value, labels[1..], t)
  }

  lemma {:induction false} ReachesConcat(cfg: Config, s: System, xs: seq<Label>, t: System, ys: seq<Label>, u: System)
    requires Reaches(cfg, s, xs, t) && Reaches(cfg, t, ys, u)
    ensures Reaches(cfg, s, xs + ys, u)
    decreases |xs|
  {
    hide Step;
    if xs == [] {
      assert xs + ys == ys;
    } else {
      HeadAndTail(xs, ys);
      ReachesConcat(cfg, Step(cfg, s, xs[0]).value, xs[1..], t, ys, u);
    }
  }
}
