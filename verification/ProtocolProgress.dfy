/**
 Progress of the consumer protocol. Signals, spurious wakeups and the shutdown call come from outside;
 every other move lowers a measure, and when no such move is left everything has been delivered.
 */
module ProtocolProgress {
  import opened Common
  import opened Traces
  import opened Protocol
  import opened ProtocolSafety

  predicate Internal(ev: Label) {
    !ev.SetExit? && (ev.OfProducer? ==> !ev.act.Signalled?) && (ev.OfLane? ==> !ev.move.Spurious?)
  }

  predicate AllInternal(run: seq<Label>) {
    forall i :: 0 <= i < |run| ==> Internal(run[i])
  }

  // ---------------------------------------------------------------------------------------------
  // The measure
  // ---------------------------------------------------------------------------------------------

  /** Records still to be begun for some entries, plus `c` for each entry. */
  function Load(filter: Filter, items: seq<Item>, c: nat): nat {
    if items == [] then 0 else |Jobs(filter, items[0].entry)| + c + Load(filter, items[1..], c)
  }

  lemma {:induction false} LoadSnoc(filter: Filter, items: seq<Item>, x: Item, c: nat)
    ensures Load(filter, items + [x], c) == Load(filter, items, c) + |Jobs(filter, x.entry)| + c
  {
    if items == [] {
      assert items + [x] == [x];
    } else {
      assert (items + [x])[1..] == items[1..] + [x];
      LoadSnoc(filter, items[1..], x, c);
    }
  }

  lemma {:induction false} LoadShift(filter: Filter, items: seq<Item>)
    ensures Load(filter, items, 21) == Load(filter, items, 1) + 20 * |items|
  {
    if items != [] {
      LoadShift(filter, items[1..]);
    }
  }

  /** Before exit an entry in the shared queue pays for one more round of the outer loop. */
  function PcWeight(pc: ConsumerPc, exit: bool): nat {
    match pc
    case LoopTest => if exit then 1 else 4
    case Acquire => if exit then 6 else 3
    case Test => if exit then 5 else 2
    case PreWait => if exit then 8 else 1
    case Asleep => if exit then 7 else 0
    case Reacquire => if exit then 6 else 3
    case Take => if exit then 4 else 1
    case Drain(_) => if exit then 3 else 9
    case Signal => if exit then 2 else 8
    case Ended => 0
  }

  function LaneWeight(cfg: Config, ls: LaneState, exit: bool): int {
    PcWeight(ls.pc, exit) + Load(cfg.filter, ls.process, 1) + Load(cfg.filter, ls.queue, 21)
    - if ls.pc.Drain? then ls.pc.made else 0
  }

  function ProducerWeight(cfg: Config, pc: ProducerPc): nat {
    match pc
    case Idle => 0
    case Announce(_) => 7
    case Append(e) => 29 + |Jobs(cfg.filter, e)|
    case Backoff(e) => 30 + |Jobs(cfg.filter, e)|
    case Nudge(e) => 34 + |Jobs(cfg.filter, e)|
    case Admit(e) => 35 + |Jobs(cfg.filter, e)|
    case Enter(e) => 36 + |Jobs(cfg.filter, e)|
  }

  function ProducerWeights(cfg: Config, ps: seq<ProducerPc>): seq<nat> {
    seq(|ps|, i requires 0 <= i < |ps| => ProducerWeight(cfg, ps[i]))
  }

  function Measure(cfg: Config, s: System): int {
    Sum(ProducerWeights(cfg, s.producers))
    + (if s.stopper.ExitSet? then 1 else 0)
    + LaneWeight(cfg, s.blocks, s.exit) + LaneWeight(cfg, s.trxs, s.exit)
  }

  lemma MeasureIsNatural(cfg: Config, s: System)
    requires Inv(cfg, s)
    ensures Measure(cfg, s) >= 0
  {
    assert LaneInv(cfg, s, Blocks) && LaneInv(cfg, s, Trxs);
  }

  /** Waking a consumer costs at most three moves before exit, and none after it. */
  lemma WakeWeight(cfg: Config, ls: LaneState, exit: bool)
    ensures LaneWeight(cfg, Wake(ls), exit) <= LaneWeight(cfg, ls, exit) + if exit then 0 else 3
  {
  }

  lemma LaneStepLowers(cfg: Config, exit: bool, ls: LaneState, move: LaneMove, next: LaneState)
    requires MadeBound(cfg.filter, ls) && (ls.pc.Take? && !exit ==> ls.queue != [])
    requires !move.Spurious? && LaneStep(cfg, exit, ls, move) == Some(next)
    ensures LaneWeight(cfg, next, exit) < LaneWeight(cfg, ls, exit)
  {
    hide Jobs;
    match move
    case TakeBatch => LoadShift(cfg.filter, ls.queue);
    case Attempt(_) => DrainLowers(cfg, exit, ls, move, next);
    case Abort => DrainLowers(cfg, exit, ls, move, next);
    case Finish => DrainLowers(cfg, exit, ls, move, next);
    case _ =>
  }

  lemma DrainLowers(cfg: Config, exit: bool, ls: LaneState, move: LaneMove, next: LaneState)
    requires MadeBound(cfg.filter, ls) && (move.Attempt? || move.Abort? || move.Finish?)
    requires LaneStep(cfg, exit, ls, move) == Some(next)
    ensures LaneWeight(cfg, next, exit) < LaneWeight(cfg, ls, exit)
  {
    hide Jobs;
    assert Load(cfg.filter, ls.process, 1)
           == |Jobs(cfg.filter, ls.process[0].entry)| + 1 + Load(cfg.filter, ls.process[1..], 1);
  }

  lemma MoveWeight(cfg: Config, ps: seq<ProducerPc>, p: nat, pc: ProducerPc)
    requires p < |ps|
    ensures Sum(ProducerWeights(cfg, ps[p := pc])) + ProducerWeight(cfg, ps[p])
            == Sum(ProducerWeights(cfg, ps)) + ProducerWeight(cfg, pc)
  {
    SumUpdate(ProducerWeights(cfg, ps), p, ProducerWeight(cfg, pc));
    assert ProducerWeights(cfg, ps[p := pc]) == ProducerWeights(cfg, ps)[p := ProducerWeight(cfg, pc)];
  }

  /** A producer move that wakes nobody and appends nothing. */
  lemma QuietMove(cfg: Config, s: System, t: System, p: nat, pc: ProducerPc)
    requires p < |s.producers| && ProducerWeight(cfg, pc) < ProducerWeight(cfg, s.producers[p])
    requires t.producers == s.producers[p := pc] && t.stopper == s.stopper && t.exit == s.exit
    requires forall l: Lane :: t.At(l) == s.At(l).(holder := t.At(l).holder)
    ensures Measure(cfg, t) < Measure(cfg, s)
  {
    MoveWeight(cfg, s.producers, p, pc);
    assert t.At(Blocks) == t.blocks && t.At(Trxs) == t.trxs;
  }

  lemma QuietMoveLowers(cfg: Config, s: System, p: nat, act: ProducerMove, t: System)
    requires act.LockFirst? || act.TestSize? || act.LockAgain?
    requires ProducerStep(cfg, s, p, act) == Some(t)
    ensures Measure(cfg, t) < Measure(cfg, s)
  {
    QuietMove(cfg, s, t, p, t.producers[p]);
  }

  lemma AppendLowers(cfg: Config, s: System, p: nat, act: ProducerMove, t: System)
    requires act.EmplaceBack? && ProducerStep(cfg, s, p, act) == Some(t)
    ensures Measure(cfg, t) < Measure(cfg, s)
  {
    var e := s.producers[p].entry;
    MoveWeight(cfg, s.producers, p, t.producers[p]);
    LoadSnoc(cfg.filter, s.At(LaneOf(e)).queue, Item(p, e), 21);
  }

  /** Waking both consumers leaves everything else, and adds at most three moves for each. */
  lemma WakeAllWeight(cfg: Config, s: System)
    ensures Measure(cfg, WakeAll(s)) <= Measure(cfg, s) + if s.exit then 0 else 6
  {
    WakeWeight(cfg, s.blocks, s.exit);
    WakeWeight(cfg, s.trxs, s.exit);
  }

  lemma NotifyAllLowers(cfg: Config, s: System, p: nat, t: System)
    requires ProducerStep(cfg, s, p, NotifyAll) == Some(t)
    ensures Measure(cfg, t) < Measure(cfg, s)
  {
    MoveWeight(cfg, s.producers, p, Idle);
    assert Measure(cfg, s.Move(p, Idle)) == Measure(cfg, s) - 7;
    WakeAllWeight(cfg, s.Move(p, Idle));
  }

  lemma NotifyOneLowers(cfg: Config, s: System, p: nat, woken: Option<Lane>, t: System)
    requires ProducerStep(cfg, s, p, NotifyOne(woken)) == Some(t)
    ensures Measure(cfg, t) < Measure(cfg, s)
  {
    var u := s.Move(p, Backoff(s.producers[p].entry));
    MoveWeight(cfg, s.producers, p, Backoff(s.producers[p].entry));
    assert Measure(cfg, u) == Measure(cfg, s) - 4;
    WakeWeight(cfg, u.blocks, u.exit);
    WakeWeight(cfg, u.trxs, u.exit);
  }

  lemma NotifyDoneLowers(cfg: Config, s: System, l: Lane, t: System)
    requires Step(cfg, s, NotifyDone(l)) == Some(t)
    ensures Measure(cfg, t) < Measure(cfg, s)
  {
    WakeWeight(cfg, s.blocks, s.exit);
    WakeWeight(cfg, s.trxs, s.exit);
  }

  lemma NotifyExitLowers(cfg: Config, s: System, t: System)
    requires s.exit && Step(cfg, s, NotifyExit) == Some(t)
    ensures Measure(cfg, t) < Measure(cfg, s)
  {
    WakeAllWeight(cfg, s.(stopper := Stopped));
  }

  lemma LaneMoveLowers(cfg: Config, s: System, l: Lane, move: LaneMove, t: System)
    requires !move.Spurious? && Step(cfg, s, OfLane(l, move)) == Some(t)
    requires MadeBound(cfg.filter, s.At(l)) && (s.At(l).pc.Take? && !s.exit ==> s.At(l).queue != [])
    ensures Measure(cfg, t) < Measure(cfg, s)
  {
    OwnFrame(cfg, s, OfLane(l, move), t);
    LaneStepLowers(cfg, s.exit, s.At(l), move, t.At(l));
  }

  lemma ProducerLowers(cfg: Config, s: System, p: nat, act: ProducerMove, t: System)
    requires !act.Signalled? && ProducerStep(cfg, s, p, act) == Some(t)
    ensures Measure(cfg, t) < Measure(cfg, s)
  {
    match act
    case EmplaceBack => AppendLowers(cfg, s, p, act, t);
    case NotifyAll => NotifyAllLowers(cfg, s, p, t);
    case NotifyOne(woken) => NotifyOneLowers(cfg, s, p, woken, t);
    case _ => QuietMoveLowers(cfg, s, p, act, t);
  }

  lemma StepLowersMeasure(cfg: Config, s: System, ev: Label, t: System)
    requires Inv(cfg, s) && Internal(ev) && Step(cfg, s, ev) == Some(t)
    ensures Measure(cfg, t) < Measure(cfg, s)
  {
    match ev
    case OfProducer(p, act) => ProducerLowers(cfg, s, p, act, t);
    case OfLane(l, move) =>
      assert LaneInv(cfg, s, l);
      LaneMoveLowers(cfg, s, l, move, t);
    case NotifyDone(l) => NotifyDoneLowers(cfg, s, l, t);
    case NotifyExit =>
      assert LaneInv(cfg, s, Blocks);
      NotifyExitLowers(cfg, s, t);
  }

  // ---------------------------------------------------------------------------------------------
  // No deadlock short of delivery
  // ---------------------------------------------------------------------------------------------

  /** Nothing is left to do: producers idle, each consumer asleep or ended, no shutdown half done. */
  ghost predicate Settled(s: System) {
    && (forall p :: 0 <= p < |s.producers| ==> s.producers[p].Idle?)
    && !s.stopper.ExitSet?
    && (forall l: Lane :: s.At(l).pc.Asleep? || s.At(l).pc.Ended?)
  }

  /** Whoever holds a lane mutex can move. */
  lemma HolderMoves(cfg: Config, s: System, l: Lane) returns (ev: Label)
    requires LockInv(s, l) && s.At(l).holder != Nobody
    ensures Internal(ev) && Step(cfg, s, ev).Some?
  {
    match s.At(l).holder
    case Consumer =>
      match s.At(l).pc {
        case Test => ev := OfLane(l, TestQueue);
        case PreWait => ev := OfLane(l, FallAsleep);
        case _ => ev := OfLane(l, TakeBatch);
      }
    case Producer(p) =>
      assert ProducerHolds(s.producers[p], l);
      ev := if s.producers[p].Admit? then OfProducer(p, TestSize) else OfProducer(p, EmplaceBack);
  }

  lemma LaneMoves(cfg: Config, s: System, l: Lane) returns (ev: Label)
    requires LockInv(s, l) && MadeBound(cfg.filter, s.At(l)) && !s.At(l).pc.Asleep? && !s.At(l).pc.Ended?
    ensures Internal(ev) && Step(cfg, s, ev).Some?
  {
    if s.At(l).holder != Nobody {
      ev := HolderMoves(cfg, s, l);
    } else {
      match s.At(l).pc {
        case LoopTest => ev := OfLane(l, TestExit);
        case Acquire => ev := OfLane(l, LockLane);
        case Reacquire => ev := OfLane(l, Relock);
        case Signal => ev := NotifyDone(l);
        case Drain(made) =>
          var ls := s.At(l);
          ev := if ls.process == [] then OfLane(l, BatchDone)
                else if made < |Jobs(cfg.filter, ls.process[0].entry)| then OfLane(l, Attempt(false))
                else if Unpacks(ls.process[0].entry) then OfLane(l, Finish)
                else OfLane(l, Abort);
      }
    }
  }

  lemma ProducerMoves(cfg: Config, s: System, p: nat) returns (ev: Label)
    requires LockInv(s, Blocks) && LockInv(s, Trxs) && p < |s.producers| && !s.producers[p].Idle?
    ensures Internal(ev) && Step(cfg, s, ev).Some?
  {
    match s.producers[p]
    case Enter(e) =>
      if s.At(LaneOf(e)).holder == Nobody {
        ev := OfProducer(p, LockFirst);
      } else {
        ev := HolderMoves(cfg, s, LaneOf(e));
      }
    case Admit(_) => ev := OfProducer(p, TestSize);
    case Nudge(_) =>
      var woken := if s.blocks.pc.Asleep? then Some(Blocks) else if s.trxs.pc.Asleep? then Some(Trxs) else None;
      ev := OfProducer(p, NotifyOne(woken));
    case Backoff(e) =>
      if s.At(LaneOf(e)).holder == Nobody {
        ev := OfProducer(p, LockAgain);
      } else {
        ev := HolderMoves(cfg, s, LaneOf(e));
      }
    case Append(_) => ev := OfProducer(p, EmplaceBack);
    case Announce(_) => ev := OfProducer(p, NotifyAll);
  }

  /** Short of a settled state some thread can move without help from outside. */
  lemma SomeoneMoves(cfg: Config, s: System) returns (ev: Label)
    requires Inv(cfg, s) && !Settled(s)
    ensures Internal(ev) && Step(cfg, s, ev).Some?
  {
    assert LaneInv(cfg, s, Blocks) && LaneInv(cfg, s, Trxs);
    if p :| 0 <= p < |s.producers| && !s.producers[p].Idle? {
      ev := ProducerMoves(cfg, s, p);
    } else if s.stopper.ExitSet? {
      ev := NotifyExit;
    } else {
      var l: Lane :| !s.At(l).pc.Asleep? && !s.At(l).pc.Ended?;
      ev := LaneMoves(cfg, s, l);
    }
  }

  /** In a settled state no thread can. */
  lemma SettledIsStuck(cfg: Config, s: System, ev: Label)
    requires Settled(s) && Internal(ev)
    ensures Step(cfg, s, ev).None?
  {
    assert forall p :: PcOf(s, p).Idle?;
    match ev
    case OfLane(l, _) => assert s.At(l).pc.Asleep? || s.At(l).pc.Ended?;
    case NotifyDone(l) => assert s.At(l).pc.Asleep? || s.At(l).pc.Ended?;
    case _ =>
  }

  /** What a settled state has delivered: the calls of every producer are pushed, a sleeping lane has
      consumed them all, and an ended lane all but what is left in its shared queue. */
  ghost predicate Delivered(cfg: Config, s: System, l: Lane) {
    && (forall p :: 0 <= p < |s.producers| ==> From(s.At(l).pushed, p) == Calls(cfg, s.signals, l, p))
    && (if s.At(l).pc.Ended? then s.exit && s.At(l).pushed == Items(s.At(l).done) + s.At(l).queue
        else s.At(l).pushed == Items(s.At(l).done) && s.At(l).queue == [])
    && s.At(l).attempts == Begun(cfg.filter, s.At(l).done)
    && (forall d :: d in s.At(l).done ==> Accounted(cfg.filter, d))
  }

  lemma SettledLane(cfg: Config, s: System, l: Lane)
    requires FlowInv(s.At(l)) && WakeInv(s, l) && ExitInv(s, l) && WorkInv(cfg.filter, s.At(l)) && Settled(s)
    ensures s.At(l).attempts == Begun(cfg.filter, s.At(l).done)
    ensures forall d :: d in s.At(l).done ==> Accounted(cfg.filter, d)
    ensures if s.At(l).pc.Ended? then s.exit && s.At(l).pushed == Items(s.At(l).done) + s.At(l).queue
            else s.At(l).pushed == Items(s.At(l).done) && s.At(l).queue == []
  {
    var ls := s.At(l);
    assert ls.pc.Asleep? || ls.pc.Ended?;
    assert ls.process == [] && Items(ls.done) + [] == Items(ls.done);
    assert Begun(cfg.filter, ls.done) + [] == Begun(cfg.filter, ls.done);
  }

  lemma SettledIsDelivered(cfg: Config, s: System, l: Lane)
    requires LaneInv(cfg, s, l) && Settled(s)
    ensures Delivered(cfg, s, l)
  {
    SettledLane(cfg, s, l);
    forall p | 0 <= p < |s.producers| ensures From(s.At(l).pushed, p) == Calls(cfg, s.signals, l, p) {
      assert SourceInv(cfg, s, l, p) && s.producers[p].Idle?;
      assert From(s.At(l).pushed, p) + [] == From(s.At(l).pushed, p);
    }
  }

  /** Left to themselves the threads make at most `Measure` moves. */
  lemma {:induction false} RunsAreBounded(cfg: Config, s: System, run: seq<Label>, t: System)
    requires Inv(cfg, s) && AllInternal(run) && Reaches(cfg, s, run, t)
    ensures Inv(cfg, t) && |run| + Measure(cfg, t) <= Measure(cfg, s)
    decreases |run|
  {
    if run != [] {
      var u := Step(cfg, s, run[0]).value;
      assert Internal(run[0]);
      StepLowersMeasure(cfg, s, run[0], u);
      InvKept(cfg, s, run[0], u);
      assert AllInternal(run[1..]);
      RunsAreBounded(cfg, u, run[1..], t);
    }
  }

  /** Liveness without fairness: from any reachable state, however the threads are scheduled, once
      signals cease they stop after a bounded number of moves, and they stop only when everything
      pushed has been delivered. */
  lemma EveryScheduleDelivers(cfg: Config, n: nat, run: seq<Label>, s: System, tail: seq<Label>, t: System)
    requires Reaches(cfg, Init(n), run, s)
    requires AllInternal(tail) && Reaches(cfg, s, tail, t)
    ensures Reaches(cfg, Init(n), run + tail, t) && |tail| <= Measure(cfg, s)
    ensures (exists ev :: Internal(ev) && Step(cfg, t, ev).Some?) || (forall l: Lane :: Delivered(cfg, t, l))
  {
    hide Step, Reaches, Measure, LaneInv, Internal, AllInternal;
    ReachesConcat(cfg, Init(n), run, s, tail, t);
    ReachableIsSafe(cfg, n, run, s);
    RunsAreBounded(cfg, s, tail, t);
    MeasureIsNatural(cfg, t);
    if Settled(t) {
      forall l: Lane ensures Delivered(cfg, t, l) { SettledIsDelivered(cfg, t, l); }
    } else {
      var ev := SomeoneMoves(cfg, t);
    }
  }

  // ---------------------------------------------------------------------------------------------
  // Shutdown can miss a waiter
  // ---------------------------------------------------------------------------------------------

  /** The lane has exit behind it and will not sleep again. */
  predicate PastSleeping(s: System, l: Lane) {
    s.exit && !s.At(l).pc.PreWait? && !s.At(l).pc.Asleep?
  }

  lemma StaysAwake(cfg: Config, s: System, ev: Label, t: System, l: Lane)
    requires PastSleeping(s, l) && Step(cfg, s, ev) == Some(t)
    ensures PastSleeping(t, l)
  {
    if ev.OfProducer? {
      ProducerFrame(cfg, s, ev.p, ev.act, t, l);
    } else if !(ev.OfLane? && ev.l == l) {
      OtherFrame(cfg, s, ev, t, l);
    }
  }

  lemma {:induction false} NeverSleeps(cfg: Config, s: System, run: seq<Label>, t: System, l: Lane)
    requires PastSleeping(s, l) && Reaches(cfg, s, run, t)
    ensures PastSleeping(t, l)
    decreases |run|
  {
    if run != [] {
      var u := Step(cfg, s, run[0]).value;
      StaysAwake(cfg, s, run[0], u, l);
      NeverSleeps(cfg, u, run[1..], t, l);
    }
  }

  /** The exit flag is set and announced without the mutex. A lane can be asleep after the announcement
      exactly when, at that moment, it had already tested the flag and not yet begun to wait. */
  lemma ShutdownWakesUnlessAboutToWait(cfg: Config, s: System, l: Lane)
    requires s.exit && s.stopper.ExitSet?
    ensures s.At(l).pc.PreWait? <==>
            exists run, t :: Reaches(cfg, Step(cfg, s, NotifyExit).value, run, t) && t.At(l).pc.Asleep?
  {
    var u := Step(cfg, s, NotifyExit).value;
    if s.At(l).pc.PreWait? {
      var t := Step(cfg, u, OfLane(l, FallAsleep)).value;
      var run := One(cfg, u, OfLane(l, FallAsleep), t, [], t);
      assert Reaches(cfg, u, run, t) && t.At(l).pc.Asleep?;
      assert exists run, t :: Reaches(cfg, u, run, t) && t.At(l).pc.Asleep?;
    } else {
      forall run, t | Reaches(cfg, u, run, t) ensures !t.At(l).pc.Asleep? {
        NeverSleeps(cfg, u, run, t, l);
      }
    }
  }

  lemma NotifyWakes(cfg: Config, s: System, u: System, l: Lane)
    requires Inv(cfg, s) && Step(cfg, s, NotifyExit) == Some(u) && !s.At(l).pc.PreWait?
    ensures PastSleeping(u, l)
  {
    assert LaneInv(cfg, s, l);
  }

  /** Shutdown completes on every lane that is not about to wait when it notifies: however the threads are then
      scheduled, they stop after a bounded number of moves, and when they stop the lane has ended, with
      everything consumed but what is left in its shared queue. */
  lemma ShutdownEndsLane(cfg: Config, n: nat, run: seq<Label>, s: System, u: System, tail: seq<Label>, t: System,
                         l: Lane)
    requires Reaches(cfg, Init(n), run, s) && !s.At(l).pc.PreWait?
    requires Step(cfg, s, NotifyExit) == Some(u)
    requires AllInternal(tail) && Reaches(cfg, u, tail, t)
    requires forall ev :: Internal(ev) ==> Step(cfg, t, ev).None?
    ensures |tail| <= Measure(cfg, u)
    ensures t.At(l).pc.Ended? && t.At(l).pushed == Items(t.At(l).done) + t.At(l).queue
  {
    hide Step, Reaches, Measure, LaneInv, Internal, AllInternal;
    ReachableIsSafe(cfg, n, run, s);
    InvKept(cfg, s, NotifyExit, u);
    NotifyWakes(cfg, s, u, l);
    NeverSleeps(cfg, u, tail, t, l);
    RunsAreBounded(cfg, u, tail, t);
    MeasureIsNatural(cfg, t);
    if !Settled(t) {
      var ev := SomeoneMoves(cfg, t);
    }
    assert LaneInv(cfg, t, l);
    SettledIsDelivered(cfg, t, l);
  }

  /** The missed wakeup happens: the trace lane sees an empty queue, shutdown sets the flag and notifies,
      and only then does the lane begin to wait, in a state that no thread leaves by itself. */
  lemma ShutdownCanMissSleeper(cfg: Config) returns (run: seq<Label>, t: System)
    ensures Reaches(cfg, Init(0), run, t)
    ensures t.exit && t.stopper.Stopped? && t.trxs.pc.Asleep? && Settled(t)
  {
    var s0 := Init(0);
    var s1 := Step(cfg, s0, OfLane(Trxs, TestExit)).value;
    var s2 := Step(cfg, s1, OfLane(Trxs, LockLane)).value;
    var s3 := Step(cfg, s2, OfLane(Trxs, TestQueue)).value;
    var s4 := Step(cfg, s3, SetExit).value;
    var s5 := Step(cfg, s4, NotifyExit).value;
    var s6 := Step(cfg, s5, OfLane(Trxs, FallAsleep)).value;
    t := Step(cfg, s6, OfLane(Blocks, TestExit)).value;
    run := [];
    run := One(cfg, s6, OfLane(Blocks, TestExit), t, run, t);
    run := One(cfg, s5, OfLane(Trxs, FallAsleep), s6, run, t);
    run := One(cfg, s4, NotifyExit, s5, run, t);
    run := One(cfg, s3, SetExit, s4, run, t);
    run := One(cfg, s2, OfLane(Trxs, TestQueue), s3, run, t);
    run := One(cfg, s1, OfLane(Trxs, LockLane), s2, run, t);
    run := One(cfg, s0, OfLane(Trxs, TestExit), s1, run, t);
  }

  lemma One(cfg: Config, s: System, ev: Label, u: System, rest: seq<Label>, t: System) returns (run: seq<Label>)
    requires Step(cfg, s, ev) == Some(u) && Reaches(cfg, u, rest, t)
    ensures run == [ev] + rest && Reaches(cfg, s, run, t)
  {
    run := [ev] + rest;
    assert run[1..] == rest;
  }
}
