/**
 What every reachable state of the consumer protocol satisfies, for any number of producers and any
 interleaving: mutual exclusion, conservation and order of entries, wakeups, shutdown, and the log of
 records each lane has begun.
 */
module ProtocolSafety {
  import opened Common
  import opened Traces
  import opened Protocol

  // ---------------------------------------------------------------------------------------------
  // What one move leaves alone
  // ---------------------------------------------------------------------------------------------

  /** What a producer move does to lane `l`, if it does not append there. */
  predicate LeavesAlone(before: LaneState, later: LaneState) {
    later == before.(pc := later.pc, holder := later.holder)
    && (later.pc == before.pc || (before.pc.Asleep? && later.pc.Reacquire?))
  }

  /** A producer appends to lane `l`. */
  predicate AppendsTo(s: System, p: nat, act: ProducerMove, l: Lane) {
    act.EmplaceBack? && PcOf(s, p).Append? && LaneOf(PcOf(s, p).entry) == l
  }

  lemma ProducerFrame(cfg: Config, s: System, p: nat, act: ProducerMove, t: System, l: Lane)
    requires ProducerStep(cfg, s, p, act) == Some(t)
    ensures p < |s.producers| == |t.producers| && t.producers == s.producers[p := t.producers[p]]
    ensures t.exit == s.exit && t.stopper == s.stopper
    ensures !act.Signalled? ==> t.signals == s.signals
    ensures if AppendsTo(s, p, act, l)
            then t.At(l) == s.At(l).(queue := s.At(l).queue + [Item(p, s.producers[p].entry)],
                                     pushed := s.At(l).pushed + [Item(p, s.producers[p].entry)], holder := Nobody)
            else LeavesAlone(s.At(l), t.At(l))
  {
  }

  /** The consumer of the other lane, the end of a batch, and shutdown. */
  lemma OtherFrame(cfg: Config, s: System, ev: Label, t: System, l: Lane)
    requires !ev.OfProducer? && !(ev.OfLane? && ev.l == l) && Step(cfg, s, ev) == Some(t)
    ensures t.producers == s.producers && t.signals == s.signals
    ensures t.At(l) == s.At(l).(pc := t.At(l).pc)
    ensures t.At(l).pc == s.At(l).pc || (s.At(l).pc.Asleep? && t.At(l).pc.Reacquire?)
         || (s.At(l).pc.Signal? && t.At(l).pc.LoopTest?)
    ensures s.exit ==> t.exit
    ensures t.exit != s.exit ==> ev.SetExit?
  {
  }

  lemma OwnFrame(cfg: Config, s: System, ev: Label, t: System)
    requires ev.OfLane? && Step(cfg, s, ev) == Some(t)
    ensures LaneStep(cfg, s.exit, s.At(ev.l), ev.move) == Some(t.At(ev.l))
    ensures t == s.With(ev.l, t.At(ev.l)) && t.At(ev.l).pushed == s.At(ev.l).pushed
  {
  }

  // ---------------------------------------------------------------------------------------------
  // Mutual exclusion
  // ---------------------------------------------------------------------------------------------

  predicate ConsumerHolds(pc: ConsumerPc) {
    pc.Test? || pc.PreWait? || pc.Take?
  }

  predicate ProducerHolds(pc: ProducerPc, l: Lane) {
    (pc.Admit? || pc.Append?) && LaneOf(pc.entry) == l
  }

  /** A thread is inside the critical section of a lane exactly when it is the holder of its mutex. */
  ghost predicate LockInv(s: System, l: Lane) {
    && (ConsumerHolds(s.At(l).pc) <==> s.At(l).holder == Consumer)
    && (forall p :: 0 <= p < |s.producers| ==>
          (ProducerHolds(s.producers[p], l) <==> s.At(l).holder == Producer(p)))
    && (s.At(l).holder.Producer? ==> s.At(l).holder.p < |s.producers|)
  }

  /** A consumer move takes, keeps or gives its lane's mutex as its program point says. */
  lemma LaneStepHolds(cfg: Config, exit: bool, ls: LaneState, move: LaneMove, next: LaneState)
    requires LaneStep(cfg, exit, ls, move) == Some(next)
    requires ConsumerHolds(ls.pc) <==> ls.holder == Consumer
    ensures ConsumerHolds(next.pc) <==> next.holder == Consumer
    ensures next.holder == ls.holder || (ls.holder == Nobody && next.holder == Consumer)
         || (ls.holder == Consumer && next.holder == Nobody)
  {
  }

  /** A producer move takes, keeps or gives a lane's mutex as its program points say. */
  ghost predicate HoldsAsPc(s: System, p: nat, t: System, l: Lane) {
    var held, holds := ProducerHolds(PcOf(s, p), l), ProducerHolds(PcOf(t, p), l);
    && (holds && !held ==> s.At(l).holder == Nobody)
    && t.At(l).holder == if holds == held then s.At(l).holder else if holds then Producer(p) else Nobody
  }

  lemma LockingHolds(cfg: Config, s: System, p: nat, act: ProducerMove, t: System, l: Lane)
    requires ProducerStep(cfg, s, p, act) == Some(t) && (act.LockFirst? || act.LockAgain?)
    ensures HoldsAsPc(s, p, t, l)
  {
  }

  lemma ProducerStepHolds(cfg: Config, s: System, p: nat, act: ProducerMove, t: System, l: Lane)
    requires ProducerStep(cfg, s, p, act) == Some(t)
    ensures HoldsAsPc(s, p, t, l)
  {
    if act.LockFirst? || act.LockAgain? {
      LockingHolds(cfg, s, p, act, t, l);
    }
  }

  lemma LockKept(cfg: Config, s: System, ev: Label, t: System, l: Lane)
    requires LockInv(s, l) && Step(cfg, s, ev) == Some(t)
    ensures LockInv(t, l)
  {
    if ev.OfProducer? {
      ProducerFrame(cfg, s, ev.p, ev.act, t, l);
      ProducerStepHolds(cfg, s, ev.p, ev.act, t, l);
    } else if ev.OfLane? && ev.l == l {
      OwnFrame(cfg, s, ev, t);
      LaneStepHolds(cfg, s.exit, s.At(l), ev.move, t.At(l));
    } else {
      OtherFrame(cfg, s, ev, t, l);
    }
  }

  // ---------------------------------------------------------------------------------------------
  // Conservation
  // ---------------------------------------------------------------------------------------------

  function Items(done: seq<Done>): seq<Item> {
    seq(|done|, i requires 0 <= i < |done| => done[i].item)
  }

  /** Pushed = consumed, then the private batch, then the shared queue; and the private batch is empty
      whenever the lane is about to take another one. */
  predicate FlowInv(ls: LaneState) {
    && ls.pushed == Items(ls.done) + ls.process + ls.queue
    && (ls.process != [] ==> ls.pc.Drain?)
  }

  lemma PopFlow(ls: LaneState, end: End)
    requires FlowInv(ls) && ls.pc.Drain? && ls.process != []
    ensures FlowInv(PopFront(ls, end))
  {
    var d := Done(ls.process[0], ls.pc.made, end);
    assert Items(ls.done + [d]) == Items(ls.done) + [ls.process[0]];
    assert ls.process == [ls.process[0]] + ls.process[1..];
  }

  lemma LaneFlowKept(cfg: Config, exit: bool, ls: LaneState, move: LaneMove, next: LaneState)
    requires FlowInv(ls) && LaneStep(cfg, exit, ls, move) == Some(next)
    ensures FlowInv(next)
  {
    match move
    case Attempt(threw) =>
      if threw { PopFlow(BeginJob(cfg.filter, ls, true), Thrown); }
    case Abort => PopFlow(ls, Aborted);
    case Finish => PopFlow(ls, Finished);
    case TakeBatch => assert ls.process == [];
    case _ =>
  }

  lemma FlowKept(cfg: Config, s: System, ev: Label, t: System, l: Lane)
    requires FlowInv(s.At(l)) && Step(cfg, s, ev) == Some(t)
    ensures FlowInv(t.At(l))
  {
    if ev.OfProducer? {
      ProducerFrame(cfg, s, ev.p, ev.act, t, l);
      var ls := s.At(l);
      assert t.At(l).pushed[..|ls.pushed|] == ls.pushed;
    } else if ev.OfLane? && ev.l == l {
      OwnFrame(cfg, s, ev, t);
      LaneFlowKept(cfg, s.exit, s.At(l), ev.move, t.At(l));
    } else {
      OtherFrame(cfg, s, ev, t, l);
    }
  }

  // ---------------------------------------------------------------------------------------------
  // Wakeups
  // ---------------------------------------------------------------------------------------------

  /** Some producer has appended to lane `l` and has not run its `notify_all` yet. */
  ghost predicate WakeupPending(s: System, l: Lane) {
    exists p :: 0 <= p < |s.producers| && s.producers[p] == Announce(l)
  }

  ghost predicate WakeInv(s: System, l: Lane) {
    && (s.At(l).pc.PreWait? ==> s.At(l).queue == [])
    && (s.At(l).pc.Asleep? && s.At(l).queue != [] ==> WakeupPending(s, l))
    && (s.At(l).pc.Take? && !s.exit ==> s.At(l).queue != [])
  }

  lemma ProducerWakeKept(cfg: Config, s: System, p: nat, act: ProducerMove, t: System, l: Lane)
    requires LockInv(s, l) && WakeInv(s, l) && ProducerStep(cfg, s, p, act) == Some(t)
    ensures WakeInv(t, l)
  {
    ProducerFrame(cfg, s, p, act, t, l);
    if AppendsTo(s, p, act, l) {
      assert t.producers[p] == Announce(l);
      assert ProducerHolds(s.producers[p], l);
    } else if t.At(l).pc.Asleep? && t.At(l).queue != [] {
      assert !act.NotifyAll?;
      var q :| 0 <= q < |s.producers| && s.producers[q] == Announce(l);
      assert t.producers[q] == Announce(l);
    }
  }

  lemma LaneWakeKept(cfg: Config, exit: bool, ls: LaneState, move: LaneMove, next: LaneState)
    requires LaneStep(cfg, exit, ls, move) == Some(next)
    requires ls.pc.PreWait? ==> ls.queue == []
    requires ls.pc.Take? && !exit ==> ls.queue != []
    ensures next.pc.PreWait? || next.pc.Asleep? ==> next.queue == []
    ensures next.pc.Take? && !exit ==> next.queue != []
  {
  }

  lemma WakeKept(cfg: Config, s: System, ev: Label, t: System, l: Lane)
    requires LockInv(s, l) && WakeInv(s, l) && Step(cfg, s, ev) == Some(t)
    ensures WakeInv(t, l)
  {
    if ev.OfProducer? {
      ProducerWakeKept(cfg, s, ev.p, ev.act, t, l);
    } else if ev.OfLane? && ev.l == l {
      OwnFrame(cfg, s, ev, t);
      LaneWakeKept(cfg, s.exit, s.At(l), ev.move, t.At(l));
    } else {
      OtherFrame(cfg, s, ev, t, l);
      assert WakeupPending(s, l) ==> WakeupPending(t, l);
    }
  }

  // ---------------------------------------------------------------------------------------------
  // Shutdown
  // ---------------------------------------------------------------------------------------------

  /** The lane can still take a batch without passing the outer loop test. */
  predicate MayTake(pc: ConsumerPc) {
    pc.Acquire? || pc.Test? || pc.PreWait? || pc.Asleep? || pc.Reacquire? || pc.Take?
  }

  predicate ExitInv(s: System, l: Lane) {
    && s.At(l).lateBatches + (if MayTake(s.At(l).pc) then 1 else 0) <= 1
    && (!s.exit ==> s.At(l).lateBatches == 0)
    && (s.At(l).pc.Ended? ==> s.exit)
    && (!s.exit ==> s.stopper.Running?)
  }

  lemma LaneExitKept(cfg: Config, exit: bool, ls: LaneState, move: LaneMove, next: LaneState)
    requires LaneStep(cfg, exit, ls, move) == Some(next)
    requires ls.lateBatches + (if MayTake(ls.pc) then 1 else 0) <= 1 && (!exit ==> ls.lateBatches == 0)
    ensures next.lateBatches + (if MayTake(next.pc) then 1 else 0) <= 1 && (!exit ==> next.lateBatches == 0)
    ensures next.pc.Ended? ==> exit
  {
  }

  lemma ExitKept(cfg: Config, s: System, ev: Label, t: System, l: Lane)
    requires ExitInv(s, l) && Step(cfg, s, ev) == Some(t)
    ensures ExitInv(t, l)
  {
    if ev.OfProducer? {
      ProducerFrame(cfg, s, ev.p, ev.act, t, l);
    } else if ev.OfLane? && ev.l == l {
      OwnFrame(cfg, s, ev, t);
      LaneExitKept(cfg, s.exit, s.At(l), ev.move, t.At(l));
    } else {
      OtherFrame(cfg, s, ev, t, l);
    }
  }

  // ---------------------------------------------------------------------------------------------
  // Records begun
  // ---------------------------------------------------------------------------------------------

  /** The first `k` records of an entry; `end` says how it ended, if it has: only the last record of an
      entry can have thrown, and it did exactly if that is what ended the entry. */
  function FirstTries(filter: Filter, e: Entry, k: nat, end: Option<End>): seq<Try> {
    var js := Jobs(filter, e);
    var n := if k <= |js| then k else |js|;
    seq(n, i requires 0 <= i < n => Try(js[i], end == Some(Thrown) && i == n - 1))
  }

  /** The records begun for the consumed entries, entry after entry. */
  function Begun(filter: Filter, done: seq<Done>): seq<Try> {
    if done == [] then []
    else
      var d := done[|done| - 1];
      Begun(filter, done[..|done| - 1]) + FirstTries(filter, d.item.entry, d.made, Some(d.end))
  }

  /** The records begun for the entry at the front of the batch. */
  function InProgress(filter: Filter, ls: LaneState): seq<Try> {
    if ls.pc.Drain? && ls.process != [] then FirstTries(filter, ls.process[0].entry, ls.pc.made, None) else []
  }

  /** An entry is cut short only by a throw, and one outside an `add` only where the source has one. */
  predicate Accounted(filter: Filter, d: Done) {
    && d.made <= |Jobs(filter, d.item.entry)|
    && (d.end.Finished? ==> d.made == |Jobs(filter, d.item.entry)| && Unpacks(d.item.entry))
    && (d.end.Thrown? ==> d.made > 0)
    && (d.end.Aborted? ==> MayAbort(d.item.entry, d.made))
  }

  ghost predicate WorkInv(filter: Filter, ls: LaneState) {
    && ls.attempts == Begun(filter, ls.done) + InProgress(filter, ls)
    && (forall i :: 0 <= i < |ls.done| ==> Accounted(filter, ls.done[i]))
    && MadeBound(filter, ls)
    && (ls.process != [] ==> ls.pc.Drain?)
  }

  predicate MadeBound(filter: Filter, ls: LaneState) {
    ls.pc.Drain? ==> ls.pc.made <= if ls.process == [] then 0 else |Jobs(filter, ls.process[0].entry)|
  }

  lemma BegunSnoc(filter: Filter, done: seq<Done>, d: Done)
    ensures Begun(filter, done + [d])
            == Begun(filter, done) + FirstTries(filter, d.item.entry, d.made, Some(d.end))
  {
    assert (done + [d])[..|done|] == done;
  }

  /** An entry that ends outside an `add` leaves its records as they were. */
  lemma PopWork(filter: Filter, ls: LaneState, end: End)
    requires WorkInv(filter, ls) && ls.pc.Drain? && ls.process != [] && !end.Thrown?
    requires Accounted(filter, Done(ls.process[0], ls.pc.made, end))
    ensures WorkInv(filter, PopFront(ls, end))
  {
    var e, k := ls.process[0].entry, ls.pc.made;
    BegunSnoc(filter, ls.done, Done(ls.process[0], k, end));
    assert FirstTries(filter, e, k, Some(end)) == FirstTries(filter, e, k, None);
    assert ls.attempts + [] == ls.attempts;
  }

  lemma NextTry(filter: Filter, e: Entry, k: nat, threw: bool)
    requires k < |Jobs(filter, e)|
    ensures FirstTries(filter, e, k + 1, if threw then Some(Thrown) else None)
            == FirstTries(filter, e, k, None) + [Try(Jobs(filter, e)[k], threw)]
  {
  }

  lemma NoTriesYet(filter: Filter, ls: LaneState)
    requires ls.pc == Drain(0)
    ensures InProgress(filter, ls) == []
  {
  }

  lemma BeginWork(filter: Filter, ls: LaneState, threw: bool)
    requires WorkInv(filter, ls) && ls.pc.Drain? && ls.process != []
    requires ls.pc.made < |Jobs(filter, ls.process[0].entry)|
    ensures var t := BeginJob(filter, ls, threw);
            WorkInv(filter, if threw then PopFront(t, Thrown) else t)
  {
    hide Begun, FirstTries, Jobs;
    NoTriesYet(filter, PopFront(BeginJob(filter, ls, threw), Thrown));
    var e, k := ls.process[0].entry, ls.pc.made;
    var tried := FirstTries(filter, e, k, None);
    var last := Try(Jobs(filter, e)[k], threw);
    NextTry(filter, e, k, threw);
    Associates(Begun(filter, ls.done), tried, [last]);
    if threw {
      BegunSnoc(filter, ls.done, Done(ls.process[0], k + 1, Thrown));
      assert (Begun(filter, ls.done) + tried + [last]) + [] == Begun(filter, ls.done) + tried + [last];
    }
  }

  lemma LaneWorkKept(cfg: Config, exit: bool, ls: LaneState, move: LaneMove, next: LaneState)
    requires WorkInv(cfg.filter, ls) && LaneStep(cfg, exit, ls, move) == Some(next)
    ensures WorkInv(cfg.filter, next)
  {
    hide Begun;
    match move
    case Attempt(threw) => BeginWork(cfg.filter, ls, threw);
    case Abort => PopWork(cfg.filter, ls, Aborted);
    case Finish => PopWork(cfg.filter, ls, Finished);
    case _ =>
  }

  lemma WorkKept(cfg: Config, s: System, ev: Label, t: System, l: Lane)
    requires WorkInv(cfg.filter, s.At(l)) && Step(cfg, s, ev) == Some(t)
    ensures WorkInv(cfg.filter, t.At(l))
  {
    if ev.OfProducer? {
      ProducerFrame(cfg, s, ev.p, ev.act, t, l);
    } else if ev.OfLane? && ev.l == l {
      OwnFrame(cfg, s, ev, t);
      LaneWorkKept(cfg, s.exit, s.At(l), ev.move, t.At(l));
    } else {
      OtherFrame(cfg, s, ev, t, l);
    }
  }

  // ---------------------------------------------------------------------------------------------
  // Where entries come from
  // ---------------------------------------------------------------------------------------------

  /** The signals on lane `l` that pass the gates and were received by thread `p`, in order. */
  function Calls(cfg: Config, signals: seq<Item>, l: Lane, p: nat): seq<Item> {
    if signals == [] then []
    else
      var x := signals[|signals| - 1];
      Calls(cfg, signals[..|signals| - 1], l, p)
      + if x.source == p && LaneOf(x.entry) == l && Passes(cfg.startBlock, x.entry) then [x] else []
  }

  /** The signals on lane `l` that pass the gates, whoever received them. */
  function AllCalls(cfg: Config, signals: seq<Item>, l: Lane): seq<Item> {
    if signals == [] then []
    else
      var x := signals[|signals| - 1];
      AllCalls(cfg, signals[..|signals| - 1], l)
      + if LaneOf(x.entry) == l && Passes(cfg.startBlock, x.entry) then [x] else []
  }

  /** The items of thread `p`, in order. */
  function From(items: seq<Item>, p: nat): seq<Item> {
    if items == [] then []
    else
      var x := items[|items| - 1];
      From(items[..|items| - 1], p) + if x.source == p then [x] else []
  }

  /** The entry a producer carries towards lane `l` but has not appended yet. */
  function InFlight(pc: ProducerPc, p: nat, l: Lane): seq<Item> {
    if pc.Idle? || pc.Announce? || LaneOf(pc.entry) != l then [] else [Item(p, pc.entry)]
  }

  predicate SourceInv(cfg: Config, s: System, l: Lane, p: nat) {
    p < |s.producers| ==> Calls(cfg, s.signals, l, p) == From(s.At(l).pushed, p) + InFlight(s.producers[p], p, l)
  }

  ghost predicate TagInv(s: System, l: Lane) {
    forall x :: x in s.At(l).pushed ==> x.source < |s.producers| && LaneOf(x.entry) == l
  }

  lemma FromSnoc(items: seq<Item>, x: Item, p: nat)
    ensures From(items + [x], p) == From(items, p) + if x.source == p then [x] else []
  {
    assert (items + [x])[..|items|] == items;
  }

  lemma CallsSnoc(cfg: Config, signals: seq<Item>, x: Item, l: Lane, p: nat)
    ensures Calls(cfg, signals + [x], l, p)
            == Calls(cfg, signals, l, p)
               + if x.source == p && LaneOf(x.entry) == l && Passes(cfg.startBlock, x.entry) then [x] else []
  {
    assert (signals + [x])[..|signals|] == signals;
  }

  /** A producer between two program points carries the same entry, or none. */
  lemma CarriesOn(cfg: Config, s: System, p: nat, act: ProducerMove, t: System, l: Lane)
    requires !act.Signalled? && !act.EmplaceBack? && ProducerStep(cfg, s, p, act) == Some(t)
    ensures p < |s.producers| == |t.producers|
    ensures InFlight(t.producers[p], p, l) == InFlight(s.producers[p], p, l)
  {
  }

  lemma SignalSource(cfg: Config, s: System, q: nat, act: ProducerMove, t: System, l: Lane, p: nat)
    requires act.Signalled? && SourceInv(cfg, s, l, p) && ProducerStep(cfg, s, q, act) == Some(t)
    ensures SourceInv(cfg, t, l, p)
  {
    hide From, Calls;
    var x := Item(q, act.entry);
    CallsSnoc(cfg, s.signals, x, l, p);
    assert t.signals == s.signals + [x] && t.At(l) == s.At(l);
    if p == q {
      assert InFlight(s.producers[p], p, l) == [];
      assert InFlight(t.producers[p], p, l) ==
             if LaneOf(x.entry) == l && Passes(cfg.startBlock, x.entry) then [x] else [];
    } else if p < |s.producers| {
      assert t.producers[p] == s.producers[p];
    }
  }

  lemma AppendSource(cfg: Config, s: System, q: nat, act: ProducerMove, t: System, l: Lane, p: nat)
    requires act.EmplaceBack? && SourceInv(cfg, s, l, p) && ProducerStep(cfg, s, q, act) == Some(t)
    ensures SourceInv(cfg, t, l, p)
  {
    hide From, Calls;
    ProducerFrame(cfg, s, q, act, t, l);
    var item := Item(q, s.producers[q].entry);
    FromSnoc(s.At(l).pushed, item, p);
    if p == q {
      assert InFlight(t.producers[p], p, l) == [];
      assert InFlight(s.producers[p], p, l) == if LaneOf(item.entry) == l then [item] else [];
    } else if p < |s.producers| {
      assert t.producers[p] == s.producers[p];
    }
  }

  lemma SourceKept(cfg: Config, s: System, ev: Label, t: System, l: Lane, p: nat)
    requires SourceInv(cfg, s, l, p) && Step(cfg, s, ev) == Some(t)
    ensures SourceInv(cfg, t, l, p)
  {
    if ev.OfProducer? {
      if ev.act.Signalled? {
        SignalSource(cfg, s, ev.p, ev.act, t, l, p);
      } else if ev.act.EmplaceBack? {
        AppendSource(cfg, s, ev.p, ev.act, t, l, p);
      } else {
        ProducerFrame(cfg, s, ev.p, ev.act, t, l);
        CarriesOn(cfg, s, ev.p, ev.act, t, l);
      }
    } else if ev.OfLane? && ev.l == l {
      OwnFrame(cfg, s, ev, t);
    } else {
      OtherFrame(cfg, s, ev, t, l);
    }
  }

  lemma TagKept(cfg: Config, s: System, ev: Label, t: System, l: Lane)
    requires TagInv(s, l) && Step(cfg, s, ev) == Some(t)
    ensures TagInv(t, l)
  {
    if ev.OfProducer? {
      ProducerFrame(cfg, s, ev.p, ev.act, t, l);
    } else if ev.OfLane? && ev.l == l {
      OwnFrame(cfg, s, ev, t);
    } else {
      OtherFrame(cfg, s, ev, t, l);
    }
  }

  // ---------------------------------------------------------------------------------------------
  // All of it, in every reachable state
  // ---------------------------------------------------------------------------------------------

  ghost predicate LaneInv(cfg: Config, s: System, l: Lane) {
    && LockInv(s, l)
    && FlowInv(s.At(l))
    && WakeInv(s, l)
    && ExitInv(s, l)
    && WorkInv(cfg.filter, s.At(l))
    && TagInv(s, l)
    && forall p: nat :: SourceInv(cfg, s, l, p)
  }

  ghost predicate Inv(cfg: Config, s: System) {
    LaneInv(cfg, s, Blocks) && LaneInv(cfg, s, Trxs)
  }

  lemma LaneInvKept(cfg: Config, s: System, ev: Label, t: System, l: Lane)
    requires LaneInv(cfg, s, l) && Step(cfg, s, ev) == Some(t)
    ensures LaneInv(cfg, t, l)
  {
    LockKept(cfg, s, ev, t, l);
    FlowKept(cfg, s, ev, t, l);
    WakeKept(cfg, s, ev, t, l);
    ExitKept(cfg, s, ev, t, l);
    WorkKept(cfg, s, ev, t, l);
    TagKept(cfg, s, ev, t, l);
    forall p: nat ensures SourceInv(cfg, t, l, p) { SourceKept(cfg, s, ev, t, l, p); }
  }

  lemma InvKept(cfg: Config, s: System, ev: Label, t: System)
    requires Inv(cfg, s) && Step(cfg, s, ev) == Some(t)
    ensures Inv(cfg, t)
  {
    LaneInvKept(cfg, s, ev, t, Blocks);
    LaneInvKept(cfg, s, ev, t, Trxs);
  }

  /** Every interleaving of the threads, from any state that satisfies the invariant. */
  lemma {:induction false} RunKeepsInv(cfg: Config, s: System, run: seq<Label>, t: System)
    requires Inv(cfg, s) && Reaches(cfg, s, run, t)
    ensures Inv(cfg, t)
    decreases |run|
  {
    if run != [] {
      var u := Step(cfg, s, run[0]).value;
      InvKept(cfg, s, run[0], u);
      RunKeepsInv(cfg, u, run[1..], t);
    }
  }

  lemma ReachableIsSafe(cfg: Config, n: nat, run: seq<Label>, t: System)
    requires Reaches(cfg, Init(n), run, t)
    ensures Inv(cfg, t)
  {
    hide Step, Reaches;
    RunKeepsInv(cfg, Init(n), run, t);
  }

  // ---------------------------------------------------------------------------------------------
  // The promises, one by one
  // ---------------------------------------------------------------------------------------------

  /** No loss, duplication or reordering; a batch is moved only into an empty process queue. */
  lemma Conservation(cfg: Config, n: nat, run: seq<Label>, t: System, l: Lane)
    requires Reaches(cfg, Init(n), run, t)
    ensures t.At(l).pushed == Items(t.At(l).done) + t.At(l).process + t.At(l).queue
    ensures t.At(l).pc.Take? ==> t.At(l).process == []
  {
    ReachableIsSafe(cfg, n, run, t);
  }

  /** A lane asleep over a non-empty queue is about to be woken by a producer; so once every producer
      is idle, a sleeping lane has consumed everything that was pushed. */
  lemma NoLostPushWakeup(cfg: Config, n: nat, run: seq<Label>, t: System, l: Lane)
    requires Reaches(cfg, Init(n), run, t) && t.At(l).pc.Asleep?
    ensures t.At(l).queue != [] ==> WakeupPending(t, l)
    ensures (forall p :: 0 <= p < |t.producers| ==> t.producers[p].Idle?) ==> Items(t.At(l).done) == t.At(l).pushed
  {
    ReachableIsSafe(cfg, n, run, t);
  }

  /** After the exit flag is set a lane takes at most one batch more, and a lane that has ended leaves
      unconsumed exactly what is still in its shared queue. */
  lemma ShutdownLeavesSuffix(cfg: Config, n: nat, run: seq<Label>, t: System, l: Lane)
    requires Reaches(cfg, Init(n), run, t)
    ensures t.At(l).lateBatches <= 1
    ensures t.At(l).pc.Ended? ==> t.exit && Items(t.At(l).done) + t.At(l).queue == t.At(l).pushed
  {
    ReachableIsSafe(cfg, n, run, t);
    assert t.At(l).process == [] ==> Items(t.At(l).done) + [] == Items(t.At(l).done);
  }

  /** The records a lane has begun are, entry after entry in consumption order, all records of an entry
      that finished and a prefix of those of one that did not, and then those of the entry in progress. The
      attempts that threw are exactly the last ones of the entries an `add` ended, so a throw never reaches
      the next entry; and a trace that ended otherwise without finishing has no record at all. */
  lemma FailureIsContained(cfg: Config, n: nat, run: seq<Label>, t: System, l: Lane)
    requires Reaches(cfg, Init(n), run, t)
    ensures t.At(l).attempts == Begun(cfg.filter, t.At(l).done) + InProgress(cfg.filter, t.At(l))
    ensures forall d :: d in t.At(l).done ==>
              && d.made <= |Jobs(cfg.filter, d.item.entry)|
              && (d.end.Finished? ==> d.made == |Jobs(cfg.filter, d.item.entry)|)
              && (d.end.Aborted? && d.item.entry.TraceEntry? ==> d.made == 0)
  {
    ReachableIsSafe(cfg, n, run, t);
    forall i | 0 <= i < |t.At(l).done| ensures Accounted(cfg.filter, t.At(l).done[i]) {}
  }

  function JobsOf(tries: seq<Try>): seq<Job> {
    seq(|tries|, i requires 0 <= i < |tries| => tries[i].job)
  }

  /** All records of some entries, entry after entry. */
  function AllJobs(filter: Filter, items: seq<Item>): seq<Job> {
    if items == [] then []
    else AllJobs(filter, items[..|items| - 1]) + Jobs(filter, items[|items| - 1].entry)
  }

  lemma NothingBegun(filter: Filter)
    ensures JobsOf(Begun(filter, [])) == []
  {
  }

  lemma FinishedEntry(filter: Filter, d: Done)
    requires Accounted(filter, d) && d.end.Finished?
    ensures JobsOf(FirstTries(filter, d.item.entry, d.made, Some(d.end))) == Jobs(filter, d.item.entry)
  {
  }

  lemma JobsConcat(xs: seq<Try>, ys: seq<Try>)
    ensures JobsOf(xs + ys) == JobsOf(xs) + JobsOf(ys)
  {
  }

  /** Without a throw, what has been begun for the consumed entries is all of their records. */
  lemma {:induction false} FinishedIsWhole(filter: Filter, done: seq<Done>)
    requires forall d :: d in done ==> Accounted(filter, d) && d.end.Finished?
    ensures JobsOf(Begun(filter, done)) == AllJobs(filter, Items(done))
  {
    hide Begun, FirstTries, Jobs, JobsOf, Accounted;
    if done == [] {
      NothingBegun(filter);
    } else {
      var pre, d := done[..|done| - 1], done[|done| - 1];
      FinishedIsWhole(filter, pre);
      assert done == pre + [d] && Items(done)[..|done| - 1] == Items(pre);
      BegunSnoc(filter, pre, d);
      FinishedEntry(filter, d);
      JobsConcat(Begun(filter, pre), FirstTries(filter, d.item.entry, d.made, Some(d.end)));
    }
  }

  /** Back-pressure: with the mutex, a producer makes way exactly when the queue is longer than its limit, and
      appends at once otherwise. */
  lemma BackPressure(cfg: Config, s: System, p: nat, t: System)
    requires Step(cfg, s, OfProducer(p, TestSize)) == Some(t)
    ensures p < |s.producers| && s.producers[p].Admit?
    ensures var e := s.producers[p].entry;
            t.producers[p] == if |s.At(LaneOf(e)).queue| > cfg.queueSize then Nudge(e) else Append(e)
  {
  }

  function Sleepers(s: System): nat {
    (if s.blocks.pc.Asleep? then 1 else 0) + (if s.trxs.pc.Asleep? then 1 else 0)
  }

  /** A notification of all wakes every sleeper, after an append, after a batch and at shutdown; a notification of
      one wakes one, if there is one. */
  lemma NotificationsWake(cfg: Config, s: System, ev: Label, t: System)
    requires Step(cfg, s, ev) == Some(t)
    ensures ev.NotifyDone? || ev.NotifyExit? || (ev.OfProducer? && ev.act.NotifyAll?) ==> Sleepers(t) == 0
    ensures ev.OfProducer? && ev.act.NotifyOne? ==>
              Sleepers(t) == if Sleepers(s) == 0 then 0 else Sleepers(s) - 1
  {
  }

  /** The signals meant for a lane, with the gates spelled out. */
  predicate MeantFor(cfg: Config, x: Item, l: Lane) {
    GateOpen(cfg.startBlock, x.entry) && (l == Trxs <==> x.entry.TraceEntry?)
  }

  /** `calls` are the signals at the positions `at`: exactly those meant for the lane, in order. */
  ghost predicate AreCalls(cfg: Config, signals: seq<Item>, l: Lane, at: seq<nat>, calls: seq<Item>) {
    && |at| == |calls| && Increasing(at)
    && (forall i: nat :: i in at <==> i < |signals| && MeantFor(cfg, signals[i], l))
    && forall j :: 0 <= j < |at| ==> at[j] < |signals| && calls[j] == signals[at[j]]
  }

  /** `AllCalls` are exactly these signals, in order. */
  lemma {:induction false} CallsMeaning(cfg: Config, signals: seq<Item>, l: Lane) returns (at: seq<nat>)
    ensures AreCalls(cfg, signals, l, at, AllCalls(cfg, signals, l))
  {
    hide AreCalls, Passes;
    if signals == [] {
      at := [];
      NoCalls(cfg, l);
    } else {
      var n := |signals| - 1;
      at := CallsMeaning(cfg, signals[..n], l);
      PassesExactly(cfg.startBlock, signals[n].entry);
      OneMoreCall(cfg, signals, l, at, AllCalls(cfg, signals[..n], l));
      at := at + if MeantFor(cfg, signals[n], l) then [n] else [];
    }
  }

  lemma NoCalls(cfg: Config, l: Lane)
    ensures AreCalls(cfg, [], l, [], [])
  {
  }

  /** One more signal. */
  lemma OneMoreCall(cfg: Config, signals: seq<Item>, l: Lane, at: seq<nat>, calls: seq<Item>)
    requires signals != [] && AreCalls(cfg, signals[..|signals| - 1], l, at, calls)
    ensures var n := |signals| - 1;
            var meant := MeantFor(cfg, signals[n], l);
            AreCalls(cfg, signals, l, at + if meant then [n] else [], calls + if meant then [signals[n]] else [])
  {
    hide MeantFor, Increasing;
    var n := |signals| - 1;
    if MeantFor(cfg, signals[n], l) {
      IncreasingSnoc(at, n);
      assert (calls + [signals[n]])[|calls|] == signals[n];
    } else {
      assert at + [] == at && calls + [] == calls;
    }
  }

  /** Each producer's entries are pushed in the order of its signals, all of them but the one in flight. */
  lemma ProducerOrder(cfg: Config, n: nat, run: seq<Label>, t: System, l: Lane, p: nat)
    requires Reaches(cfg, Init(n), run, t) && p < |t.producers|
    ensures Calls(cfg, t.signals, l, p) == From(t.At(l).pushed, p) + InFlight(t.producers[p], p, l)
  {
    ReachableIsSafe(cfg, n, run, t);
    assert SourceInv(cfg, t, l, p);
  }

  lemma {:induction false} SoleCaller(cfg: Config, signals: seq<Item>, l: Lane, p: nat)
    requires forall x :: x in signals && LaneOf(x.entry) == l ==> x.source == p
    ensures AllCalls(cfg, signals, l) == Calls(cfg, signals, l, p)
    ensures forall q: nat :: q != p ==> Calls(cfg, signals, l, q) == []
  {
    if signals != [] {
      SoleCaller(cfg, signals[..|signals| - 1], l, p);
    }
  }

  lemma {:induction false} SoleSource(items: seq<Item>, p: nat)
    requires forall x :: x in items ==> x.source == p
    ensures From(items, p) == items
  {
    if items != [] {
      SoleSource(items[..|items| - 1], p);
      assert items == items[..|items| - 1] + [items[|items| - 1]];
    }
  }

  lemma {:induction false} FromHas(items: seq<Item>, x: Item)
    requires x in items
    ensures x in From(items, x.source)
  {
    if items[|items| - 1] != x {
      FromHas(items[..|items| - 1], x);
    }
  }

  /** With one signalling thread for the lane, as in the plugin, what has been consumed is a prefix of
      the signals that pass the gates, and the rest is in the batch, in the queue or in flight. */
  lemma ConsumedIsSignalPrefix(cfg: Config, n: nat, run: seq<Label>, t: System, l: Lane, p: nat)
    requires Reaches(cfg, Init(n), run, t) && p < |t.producers|
    requires forall x :: x in t.signals && LaneOf(x.entry) == l ==> x.source == p
    ensures AllCalls(cfg, t.signals, l)
            == Items(t.At(l).done) + t.At(l).process + t.At(l).queue + InFlight(t.producers[p], p, l)
  {
    ReachableIsSafe(cfg, n, run, t);
    assert SourceInv(cfg, t, l, p);
    SoleCaller(cfg, t.signals, l, p);
    var pushed := t.At(l).pushed;
    forall x | x in pushed ensures x.source == p {
      FromHas(pushed, x);
      assert SourceInv(cfg, t, l, x.source);
    }
    SoleSource(pushed, p);
  }
}
