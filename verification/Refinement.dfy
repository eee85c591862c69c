/**
 The two forms of the trace lane are one: whatever `run_traces` leaves behind, as an object whose deques
 change in place, is left behind by a run of the thread system with the same signals, the same answers of
 the database and the same sessions.
 */
module Refinement {
  import opened Common
  import opened EndToEnd
  import opened Protocol
  import opened ProtocolSafety
  import opened SqlDatabase
  import opened Statements
  import opened TraceConsumer
  import opened Traces
  import Model = ActionsTable
  import Progress = ProtocolProgress

  /** The traces as queued items of the one signalling thread. */
  function AsItems(ts: seq<TransactionTrace>): seq<Item> {
    seq(|ts|, i requires 0 <= i < |ts| => Item(0, TraceEntry(ts[i])))
  }

  // ---------------------------------------------------------------------------------------------
  // Building runs
  // ---------------------------------------------------------------------------------------------

  predicate NoAttempts(labels: seq<Label>) {
    forall i :: 0 <= i < |labels| ==> !IsAttempt(labels[i])
  }

  /** Moves that begin no record; the database is not asked. */
  function Quiet(labels: seq<Label>): seq<Move> {
    seq(|labels|, i requires 0 <= i < |labels| => Move(labels[i], Model.FINE))
  }

  lemma {:induction false} QuietRun(cfg: Config, codec: Model.Codec, w: Whole, labels: seq<Label>, t: System)
    requires Reaches(cfg, w.sys, labels, t) && NoAttempts(labels)
    ensures WholeReaches(cfg, codec, w, Quiet(labels), w.(sys := t))
    decreases |labels|
  {
    hide Step;
    if labels != [] {
      var u := Step(cfg, w.sys, labels[0]).value;
      assert NoAttempts(labels[1..]) && !IsAttempt(labels[0]);
      QuietRun(cfg, codec, w.(sys := u), labels[1..], t);
      assert Quiet(labels)[1..] == Quiet(labels[1..]);
    }
  }

  lemma {:induction false} Then(cfg: Config, codec: Model.Codec, w: Whole, xs: seq<Move>, v: Whole, ys: seq<Move>,
                                u: Whole)
    requires WholeReaches(cfg, codec, w, xs, v) && WholeReaches(cfg, codec, v, ys, u)
    ensures WholeReaches(cfg, codec, w, xs + ys, u)
    decreases |xs|
  {
    hide WholeStep;
    if xs == [] {
      assert xs + ys == ys;
    } else {
      HeadAndTail(xs, ys);
      Then(cfg, codec, WholeStep(cfg, codec, w, xs[0]).value, xs[1..], v, ys, u);
    }
  }

  lemma Single(cfg: Config, codec: Model.Codec, w: Whole, m: Move, v: Whole)
    requires WholeStep(cfg, codec, w, m) == Some(v)
    ensures WholeReaches(cfg, codec, w, [m], v)
  {
    hide WholeStep;
    assert [m][1..] == [];
    assert WholeReaches(cfg, codec, v, [], v);
  }

  // ---------------------------------------------------------------------------------------------
  // Pushing
  // ---------------------------------------------------------------------------------------------

  /** The one producer is idle, the trace mutex is free, and nobody sleeps. */
  predicate ReadyToPush(s: System) {
    s.producers == [Idle] && s.trxs.holder == Nobody && !s.trxs.pc.Asleep? && !s.blocks.pc.Asleep?
  }

  /** The state after a trace has been signalled and queued. */
  function AfterPush(s: System, t: TransactionTrace): System {
    var item := Item(0, TraceEntry(t));
    s.(signals := s.signals + [item],
       trxs := s.trxs.(queue := s.trxs.queue + [item], pushed := s.trxs.pushed + [item]))
  }

  function AfterPushes(s: System, ts: seq<TransactionTrace>): System {
    s.(signals := s.signals + AsItems(ts),
       trxs := s.trxs.(queue := s.trxs.queue + AsItems(ts), pushed := s.trxs.pushed + AsItems(ts)))
  }

  /** From the signal to the append, with or without a full queue. */
  lemma ReachAppend(cfg: Config, s: System, e: Entry) returns (labels: seq<Label>, u: System)
    requires s.producers == [Enter(e)] && e.TraceEntry? && s.trxs.holder == Nobody
    requires !s.trxs.pc.Asleep? && !s.blocks.pc.Asleep?
    ensures Reaches(cfg, s, labels, u) && NoAttempts(labels)
    ensures u == s.(producers := [Append(e)], trxs := s.trxs.(holder := Producer(0)))
  {
    var s1 := Step(cfg, s, OfProducer(0, LockFirst)).value;
    var s2 := Step(cfg, s1, OfProducer(0, TestSize)).value;
    if s2.producers[0].Append? {
      u, labels := s2, [];
    } else {
      var s3 := Step(cfg, s2, OfProducer(0, NotifyOne(None))).value;
      u := Step(cfg, s3, OfProducer(0, LockAgain)).value;
      labels := Progress.One(cfg, s3, OfProducer(0, LockAgain), u, [], u);
      labels := Progress.One(cfg, s2, OfProducer(0, NotifyOne(None)), s3, labels, u);
    }
    labels := Progress.One(cfg, s1, OfProducer(0, TestSize), s2, labels, u);
    labels := Progress.One(cfg, s, OfProducer(0, LockFirst), s1, labels, u);
  }

  lemma PushRun(cfg: Config, s: System, t: TransactionTrace) returns (labels: seq<Label>)
    requires ReadyToPush(s) && Passes(cfg.startBlock, TraceEntry(t))
    ensures Reaches(cfg, s, labels, AfterPush(s, t)) && NoAttempts(labels)
  {
    hide Passes;
    var e := TraceEntry(t);
    var s1 := Step(cfg, s, OfProducer(0, Signalled(e))).value;
    assert s1.producers == [Enter(e)];
    var append, s2 := ReachAppend(cfg, s1, e);
    var s3 := Step(cfg, s2, OfProducer(0, EmplaceBack)).value;
    var s4 := Step(cfg, s3, OfProducer(0, NotifyAll)).value;
    assert s4.producers == [Idle] == s.producers;
    assert s4 == AfterPush(s, t);
    labels := Progress.One(cfg, s3, OfProducer(0, NotifyAll), s4, [], s4);
    labels := Progress.One(cfg, s2, OfProducer(0, EmplaceBack), s3, labels, s4);
    ReachesConcat(cfg, s1, append, s2, labels, s4);
    labels := Progress.One(cfg, s, OfProducer(0, Signalled(e)), s1, append + labels, s4);
  }

  lemma {:induction false} PushesRun(cfg: Config, s: System, ts: seq<TransactionTrace>) returns (labels: seq<Label>)
    requires ReadyToPush(s) && forall t :: t in ts ==> Passes(cfg.startBlock, TraceEntry(t))
    ensures Reaches(cfg, s, labels, AfterPushes(s, ts)) && NoAttempts(labels)
  {
    hide Step, Passes;
    if ts == [] {
      labels := [];
      assert AfterPushes(s, ts) == s;
    } else {
      var pre, last := ts[..|ts| - 1], ts[|ts| - 1];
      var first := PushesRun(cfg, s, pre);
      var more := PushRun(cfg, AfterPushes(s, pre), last);
      PushesSnoc(s, pre, last);
      assert pre + [last] == ts;
      ReachesConcat(cfg, s, first, AfterPushes(s, pre), more, AfterPushes(s, ts));
      labels := first + more;
    }
  }

  lemma PushesSnoc(s: System, ts: seq<TransactionTrace>, t: TransactionTrace)
    ensures AfterPush(AfterPushes(s, ts), t) == AfterPushes(s, ts + [t])
  {
    var item := Item(0, TraceEntry(t));
    assert AsItems(ts + [t]) == AsItems(ts) + [item];
    Associates(s.signals, AsItems(ts), [item]);
    Associates(s.trxs.queue, AsItems(ts), [item]);
    Associates(s.trxs.pushed, AsItems(ts), [item]);
  }

  // ---------------------------------------------------------------------------------------------
  // Consuming
  // ---------------------------------------------------------------------------------------------

  /** From `w` to `v` the trace lane has consumed the first `n` entries of its batch, and nothing else moved. */
  predicate Consumed(w: Whole, v: Whole, n: nat)
    requires n <= |w.sys.trxs.process|
  {
    var before, later := w.sys.trxs, v.sys.trxs;
    && v.sys == w.sys.(trxs := later)
    && later == before.(process := before.process[n..], pc := Drain(0), done := later.done, attempts := later.attempts)
    && Items(later.done) == Items(before.done) + before.process[..n]
  }

  /** The lane is about to begin record `i` of trace `t`. */
  predicate AtRecord(cfg: Config, w: Whole, t: TransactionTrace, i: nat) {
    && w.sys.trxs.pc == Drain(i) && w.sys.trxs.process != []
    && w.sys.trxs.process[0] == Item(0, TraceEntry(t)) && i <= |Jobs(cfg.filter, TraceEntry(t))|
  }

  lemma PopIsConsumed(w: Whole, v: Whole, ls: LaneState, end: End)
    requires ls.pc.Drain? && ls.process != [] && ls.process == w.sys.trxs.process
    requires ls == w.sys.trxs.(pc := ls.pc, attempts := ls.attempts)
    requires v.sys == w.sys.(trxs := PopFront(ls, end))
    ensures Consumed(w, v, 1)
  {
    var d := Done(ls.process[0], ls.pc.made, end);
    assert Items(ls.done + [d]) == Items(ls.done) + [ls.process[0]];
    assert ls.process[..1] == [ls.process[0]];
  }

  /** One record: the move of the lane and the `add` of the object. */
  lemma RecordStep(cfg: Config, env: Environment, w: Whole, t: TransactionTrace, i: nat, r: Model.Result)
      returns (m: Move, v: Whole)
    requires cfg.filter == env.filter && AtRecord(cfg, w, t, i) && i < |Jobs(cfg.filter, TraceEntry(t))|
    requires r == Model.Add(env.codec, w.store,
                            Model.Attempt(Jobs(cfg.filter, TraceEntry(t))[i], env.fates(|w.log|)))
    ensures WholeStep(cfg, env.codec, w, m) == Some(v)
    ensures v.store == ApplyAll(w.store, r.stmts) && |v.log| == |w.log| + 1
    ensures var next := BeginJob(cfg.filter, w.sys.trxs, r.threw);
            v.sys == w.sys.(trxs := if r.threw then PopFront(next, Thrown) else next)
  {
    hide Model.Add, ApplyAll, Jobs;
    var a := Model.Attempt(NextJob(cfg, w.sys, Trxs), env.fates(|w.log|));
    m := Move(OfLane(Trxs, Attempt(r.threw)), env.fates(|w.log|));
    var u := Step(cfg, w.sys, m.ev).value;
    v := Whole(u, ApplyAll(w.store, r.stmts), w.log + [Logged(Trxs, a)]);
  }

  lemma {:induction false} FinishTrace(cfg: Config, env: Environment, w: Whole, t: TransactionTrace, i: nat)
      returns (run: seq<Move>, v: Whole)
    requires cfg.filter == env.filter && AtRecord(cfg, w, t, i)
    ensures WholeReaches(cfg, env.codec, w, run, v) && Consumed(w, v, 1)
    ensures var ran := RunJobs(env.codec, env.fates, w.store, |w.log|, Jobs(cfg.filter, TraceEntry(t))[i..]);
            v.store == ran.store && |v.log| == ran.begun
    decreases |Jobs(cfg.filter, TraceEntry(t))| - i
  {
    hide Model.Add, ApplyAll, Jobs, Consumed, WholeReaches;
    var jobs := Jobs(cfg.filter, TraceEntry(t));
    if i == |jobs| {
      assert jobs[i..] == [];
      var m := Move(OfLane(Trxs, Finish), Model.FINE);
      v := WholeStep(cfg, env.codec, w, m).value;
      PopIsConsumed(w, v, w.sys.trxs, Finished);
      Single(cfg, env.codec, w, m, v);
      run := [m];
    } else {
      var r := Model.Add(env.codec, w.store, Model.Attempt(jobs[i], env.fates(|w.log|)));
      assert jobs[i..][0] == jobs[i] && jobs[i..][1..] == jobs[i + 1..];
      RunHead(env.codec, env.fates, w.store, |w.log|, jobs[i..], r, ApplyAll(w.store, r.stmts));
      var m, u := RecordStep(cfg, env, w, t, i, r);
      Single(cfg, env.codec, w, m, u);
      if r.threw {
        PopIsConsumed(w, u, BeginJob(cfg.filter, w.sys.trxs, true), Thrown);
        run, v := [m], u;
      } else {
        var rest;
        rest, v := FinishTrace(cfg, env, u, t, i + 1);
        Then(cfg, env.codec, w, [m], u, rest, v);
        run := [m] + rest;
        LaterRecord(w, u, v);
      }
    }
  }

  lemma LaterRecord(w: Whole, u: Whole, v: Whole)
    requires u.sys == w.sys.(trxs := u.sys.trxs) && w.sys.trxs.process != []
    requires u.sys.trxs == w.sys.trxs.(pc := u.sys.trxs.pc, attempts := u.sys.trxs.attempts)
    requires Consumed(u, v, 1)
    ensures Consumed(w, v, 1)
  {
  }

  /** One trace: `n` sessions have been leased before. */
  lemma TraceRun(cfg: Config, env: Environment, w: Whole, t: TransactionTrace, n: nat)
      returns (run: seq<Move>, v: Whole)
    requires cfg.filter == env.filter && AtRecord(cfg, w, t, 0)
    ensures WholeReaches(cfg, env.codec, w, run, v) && Consumed(w, v, 1)
    ensures var ran := ConsumeOne(env, w.store, |w.log|, n, t);
            v.store == ran.store && |v.log| == ran.begun
  {
    hide Model.Add, ApplyAll, Jobs, Consumed, WholeReaches, RunJobs;
    if env.sessions(n) {
      var jobs := Jobs(cfg.filter, TraceEntry(t));
      assert jobs[0..] == jobs;
      run, v := FinishTrace(cfg, env, w, t, 0);
    } else {
      var m := Move(OfLane(Trxs, Abort), Model.FINE);
      v := WholeStep(cfg, env.codec, w, m).value;
      PopIsConsumed(w, v, w.sys.trxs, Aborted);
      Single(cfg, env.codec, w, m, v);
      run := [m];
    }
  }

  /** A whole batch. */
  lemma {:induction false} BatchRun(cfg: Config, env: Environment, w: Whole, ts: seq<TransactionTrace>, n: nat)
      returns (run: seq<Move>, v: Whole)
    requires cfg.filter == env.filter && w.sys.trxs.pc == Drain(0) && w.sys.trxs.process == AsItems(ts)
    ensures WholeReaches(cfg, env.codec, w, run, v) && Consumed(w, v, |ts|)
    ensures var ran := ConsumeAll(env, w.store, |w.log|, n, ts);
            v.store == ran.store && |v.log| == ran.begun
    decreases |ts|
  {
    hide Model.Add, ApplyAll, Jobs, WholeStep, ConsumeOne;
    if ts == [] {
      run, v := [], w;
      NothingConsumed(w);
    } else {
      var u;
      run, u := TraceRun(cfg, env, w, ts[0], n);
      assert AsItems(ts)[1..] == AsItems(ts[1..]);
      var rest;
      rest, v := BatchRun(cfg, env, u, ts[1..], n + 1);
      Then(cfg, env.codec, w, run, u, rest, v);
      run := run + rest;
      ConsumedTwice(w, u, v, |ts| - 1);
    }
  }

  lemma NothingConsumed(w: Whole)
    requires w.sys.trxs.pc == Drain(0)
    ensures Consumed(w, w, 0)
  {
    assert w.sys.trxs.process[0..] == w.sys.trxs.process;
    assert Items(w.sys.trxs.done) + w.sys.trxs.process[..0] == Items(w.sys.trxs.done);
  }

  lemma ConsumedTwice(w: Whole, u: Whole, v: Whole, n: nat)
    requires n + 1 <= |w.sys.trxs.process| && Consumed(w, u, 1)
    requires n <= |u.sys.trxs.process| && Consumed(u, v, n)
    ensures Consumed(w, v, n + 1)
  {
    var p := w.sys.trxs.process;
    assert p[1..][n..] == p[n + 1..];
    assert p[..1] + p[1..][..n] == p[..n + 1];
    Associates(Items(w.sys.trxs.done), p[..1], p[1..][..n]);
  }

  // ---------------------------------------------------------------------------------------------
  // The outcome
  // ---------------------------------------------------------------------------------------------

  /** Between rounds: the lane at its loop test, having consumed all it was given. */
  predicate Between(s: System, consumed: seq<TransactionTrace>) {
    && ReadyToPush(s) && s.trxs.pc == LoopTest && s.blocks.pc == LoopTest && !s.exit && s.stopper == Running
    && s.trxs.process == [] && s.trxs.queue == []
    && s.trxs.pushed == AsItems(consumed) == Items(s.trxs.done) && s.signals == AsItems(consumed)
  }

  /** From the loop test to the start of the batch. */
  lemma TakeRun(cfg: Config, s: System) returns (labels: seq<Label>, u: System)
    requires s.trxs.pc == LoopTest && s.trxs.holder == Nobody && !s.exit
    requires s.trxs.queue != [] && s.trxs.process == []
    ensures Reaches(cfg, s, labels, u) && NoAttempts(labels)
    ensures u == s.(trxs := s.trxs.(pc := Drain(0), process := s.trxs.queue, queue := []))
  {
    var s1 := Step(cfg, s, OfLane(Trxs, TestExit)).value;
    var s2 := Step(cfg, s1, OfLane(Trxs, LockLane)).value;
    var s3 := Step(cfg, s2, OfLane(Trxs, TestQueue)).value;
    u := Step(cfg, s3, OfLane(Trxs, TakeBatch)).value;
    labels := Progress.One(cfg, s3, OfLane(Trxs, TakeBatch), u, [], u);
    labels := Progress.One(cfg, s2, OfLane(Trxs, TestQueue), s3, labels, u);
    labels := Progress.One(cfg, s1, OfLane(Trxs, LockLane), s2, labels, u);
    labels := Progress.One(cfg, s, OfLane(Trxs, TestExit), s1, labels, u);
  }

  /** From the end of the batch back to the loop test. */
  lemma DoneRun(cfg: Config, s: System) returns (labels: seq<Label>, u: System)
    requires s.trxs.pc == Drain(0) && s.trxs.process == [] && s.blocks.pc == LoopTest
    ensures Reaches(cfg, s, labels, u) && NoAttempts(labels)
    ensures u == s.(trxs := s.trxs.(pc := LoopTest))
  {
    var s1 := Step(cfg, s, OfLane(Trxs, BatchDone)).value;
    u := Step(cfg, s1, NotifyDone(Trxs)).value;
    labels := Progress.One(cfg, s1, NotifyDone(Trxs), u, [], u);
    labels := Progress.One(cfg, s, OfLane(Trxs, BatchDone), s1, labels, u);
  }

  lemma SleepRun(cfg: Config, s: System) returns (labels: seq<Label>, u: System)
    requires s.trxs.pc == LoopTest && s.trxs.holder == Nobody && !s.exit && s.trxs.queue == []
    ensures Reaches(cfg, s, labels, u) && NoAttempts(labels)
    ensures u == s.(trxs := s.trxs.(pc := Asleep))
  {
    var s1 := Step(cfg, s, OfLane(Trxs, TestExit)).value;
    var s2 := Step(cfg, s1, OfLane(Trxs, LockLane)).value;
    var s3 := Step(cfg, s2, OfLane(Trxs, TestQueue)).value;
    u := Step(cfg, s3, OfLane(Trxs, FallAsleep)).value;
    labels := Progress.One(cfg, s3, OfLane(Trxs, FallAsleep), u, [], u);
    labels := Progress.One(cfg, s2, OfLane(Trxs, TestQueue), s3, labels, u);
    labels := Progress.One(cfg, s1, OfLane(Trxs, LockLane), s2, labels, u);
    labels := Progress.One(cfg, s, OfLane(Trxs, TestExit), s1, labels, u);
  }

  lemma ExitRun(cfg: Config, s: System) returns (labels: seq<Label>, u: System)
    requires s.trxs.pc == LoopTest && s.blocks.pc == LoopTest && s.stopper == Running
    ensures Reaches(cfg, s, labels, u) && NoAttempts(labels)
    ensures u == s.(exit := true, stopper := Stopped, trxs := s.trxs.(pc := Ended))
  {
    var s1 := Step(cfg, s, SetExit).value;
    var s2 := Step(cfg, s1, NotifyExit).value;
    u := Step(cfg, s2, OfLane(Trxs, TestExit)).value;
    labels := Progress.One(cfg, s2, OfLane(Trxs, TestExit), u, [], u);
    labels := Progress.One(cfg, s1, NotifyExit, s2, labels, u);
    labels := Progress.One(cfg, s, SetExit, s1, labels, u);
  }

  /** Everything pushed first and then consumed as one batch. */
  lemma ConsumedRun(cfg: Config, env: Environment, s0: Store, ts: seq<TransactionTrace>)
      returns (run: seq<Move>, v: Whole)
    requires cfg.filter == env.filter && forall t :: t in ts ==> Passes(cfg.startBlock, TraceEntry(t))
    ensures WholeReaches(cfg, env.codec, Whole(Init(1), s0, []), run, v) && Between(v.sys, ts)
    ensures var ran := ConsumeAll(env, s0, 0, 0, ts);
            v.store == ran.store && |v.log| == ran.begun
  {
    hide Step, WholeStep, WholeReaches, Reaches, Passes, ConsumeOne;
    var w := Whole(Init(1), s0, []);
    assert w.sys.producers == [Idle];
    if ts == [] {
      run, v := [], w;
      NoMoves(cfg, env.codec, w);
      assert Items([]) == [] == AsItems(ts);
    } else {
      var pushes := PushesRun(cfg, w.sys, ts);
      assert [] + AsItems(ts) == AsItems(ts);
      var s1 := AfterPushes(w.sys, ts);
      var take, s2 := TakeRun(cfg, s1);
      QuietRun(cfg, env.codec, w, pushes, s1);
      QuietRun(cfg, env.codec, w.(sys := s1), take, s2);
      var batch, w3 := BatchRun(cfg, env, w.(sys := s2), ts, 0);
      assert AsItems(ts)[|ts|..] == [] && AsItems(ts)[..|ts|] == AsItems(ts);
      assert Items([]) + AsItems(ts) == AsItems(ts);
      var back, s4 := DoneRun(cfg, w3.sys);
      QuietRun(cfg, env.codec, w3, back, s4);
      v := w3.(sys := s4);
      Then(cfg, env.codec, w, Quiet(pushes), w.(sys := s1), Quiet(take), w.(sys := s2));
      Then(cfg, env.codec, w, Quiet(pushes) + Quiet(take), w.(sys := s2), batch, w3);
      Then(cfg, env.codec, w, Quiet(pushes) + Quiet(take) + batch, w3, Quiet(back), v);
      run := Quiet(pushes) + Quiet(take) + batch + Quiet(back);
    }
  }

  lemma NoMoves(cfg: Config, codec: Model.Codec, w: Whole)
    ensures WholeReaches(cfg, codec, w, [], w)
  {
  }

  /** The thread system at the end of such a run, seen from the trace lane. */
  predicate EndsAs(w: Whole, consumed: seq<TransactionTrace>, rest: seq<TransactionTrace>, exit: bool) {
    var ls := w.sys.trxs;
    && ls.pushed == w.sys.signals == AsItems(consumed + rest)
    && Items(ls.done) == AsItems(consumed) && ls.process == [] && ls.queue == AsItems(rest)
    && w.sys.exit == exit && ls.pc == if exit then Ended else Asleep
  }

  /** Any split of the traces into consumed ones and a rest, with a rest only after exit, is where some run of
      the thread system ends, with the tables of the consumed traces. */
  lemma OutcomeIsReached(cfg: Config, env: Environment, s0: Store, consumed: seq<TransactionTrace>,
                         rest: seq<TransactionTrace>, exit: bool)
      returns (run: seq<Move>, w: Whole)
    requires cfg.filter == env.filter && (!exit ==> rest == [])
    requires forall t :: t in consumed + rest ==> Passes(cfg.startBlock, TraceEntry(t))
    ensures WholeReaches(cfg, env.codec, Whole(Init(1), s0, []), run, w) && EndsAs(w, consumed, rest, exit)
    ensures var ran := ConsumeAll(env, s0, 0, 0, consumed);
            w.store == ran.store && |w.log| == ran.begun
  {
    hide Step, WholeStep, WholeReaches, Reaches, Passes, ConsumeAll;
    forall t | t in consumed || t in rest ensures Passes(cfg.startBlock, TraceEntry(t)) {
      assert t in consumed + rest;
    }
    var start := Whole(Init(1), s0, []);
    var first, v := ConsumedRun(cfg, env, s0, consumed);
    assert AsItems(consumed + rest) == AsItems(consumed) + AsItems(rest);
    var labels, s1;
    if exit {
      labels, s1 := ExitRun(cfg, v.sys);
      var pushes := PushesRun(cfg, s1, rest);
      assert [] + AsItems(rest) == AsItems(rest);
      ReachesConcat(cfg, v.sys, labels, s1, pushes, AfterPushes(s1, rest));
      labels, s1 := labels + pushes, AfterPushes(s1, rest);
    } else {
      labels, s1 := SleepRun(cfg, v.sys);
      assert AsItems(consumed) + AsItems(rest) == AsItems(consumed);
    }
    QuietRun(cfg, env.codec, v, labels, s1);
    w := v.(sys := s1);
    Then(cfg, env.codec, start, first, v, Quiet(labels), w);
    run := first + Quiet(labels);
  }

  /** `run_traces` on a fresh object refines the thread system: its deques, the traces it consumed, its tables
      and its exit flag are those of a run of the composed system. */
  method RunTracesRefines(lane: TraceLane, cfg: Config, script: seq<Interlude>)
      returns (ghost run: seq<Move>, ghost w: Whole)
    requires lane.Valid() && lane.pushed == [] && lane.processQueue == [] && !lane.exit
    requires lane.db.begun == 0 && lane.db.leases == 0 && cfg.filter == lane.db.env.filter
    requires forall t :: t in Arrivals(script) ==> Passes(cfg.startBlock, TraceEntry(t))
    modifies lane, lane.db
    ensures WholeReaches(cfg, lane.db.env.codec, Whole(Init(1), old(lane.db.View()), []), run, w)
    ensures EndsAs(w, lane.consumed, lane.queue, lane.exit) && lane.processQueue == []
    ensures w.store == lane.db.View() && |w.log| == lane.db.begun
  {
    hide ConsumeAll, WholeReaches, EndsAs;
    ghost var s0 := lane.db.View();
    var used, recent := lane.RunTraces(script);
    ArrivalsPrefix(script, used);
    assert [] + Arrivals(script[..used]) == Arrivals(script[..used]) && [] + recent == recent;
    run, w := OutcomeIsReached(cfg, lane.db.env, s0, lane.consumed, lane.queue, lane.exit);
  }

  lemma {:induction false} ArrivalsPrefix(script: seq<Interlude>, used: nat)
    requires used <= |script|
    ensures forall t :: t in Arrivals(script[..used]) ==> t in Arrivals(script)
  {
    if used == |script| {
      assert script[..used] == script;
    } else {
      var pre := script[..|script| - 1];
      ArrivalsPrefix(pre, used);
      assert pre[..used] == script[..used];
    }
  }
}
