/**
 Signals to tables: the consumer protocol driving the tables, in every interleaving and with every
 pattern of failing statements. Each `Attempt` move of the protocol is one `actions_table::add`.
 */
module EndToEnd {
  import opened Common
  import opened Traces
  import opened Statements
  import opened Protocol
  import opened ProtocolProgress
  import opened ProtocolSafety
  import Model = ActionsTable

  datatype Logged = Logged(lane: Lane, attempt: Model.Attempt)

  datatype Whole = Whole(sys: System, store: Store, log: seq<Logged>)

  /** A move of a thread, with the database's answers in case it records an action. */
  datatype Move = Move(ev: Label, outcomes: Model.Outcomes)

  /** The record the lane of `ev` is about to begin. */
  function NextJob(cfg: Config, s: System, l: Lane): Job
    requires s.At(l).pc.Drain? && s.At(l).process != []
    requires s.At(l).pc.made < |Jobs(cfg.filter, s.At(l).process[0].entry)|
  {
    Jobs(cfg.filter, s.At(l).process[0].entry)[s.At(l).pc.made]
  }

  predicate IsAttempt(ev: Label) {
    ev.OfLane? && ev.move.Attempt?
  }

  function WholeStep(cfg: Config, codec: Model.Codec, w: Whole, m: Move): Option<Whole> {
    var u := Step(cfg, w.sys, m.ev);
    if u.None? then None
    else if IsAttempt(m.ev) then
      var a := Model.Attempt(NextJob(cfg, w.sys, m.ev.l), m.outcomes);
      var r := Model.Add(codec, w.store, a);
      if r.threw != m.ev.move.threw then None
      else Some(Whole(u.value, ApplyAll(w.store, r.stmts), w.log + [Logged(m.ev.l, a)]))
    else Some(w.(sys := u.value))
  }

  predicate WholeReaches(cfg: Config, codec: Model.Codec, w: Whole, run: seq<Move>, v: Whole)
    decreases |run|
  {
    if run == [] then w == v
    else
      var u := WholeStep(cfg, codec, w, run[0]);
      u.Some? && WholeReaches(cfg, codec, u.value, run[1..], v)
  }

  function AllAttempts(log: seq<Logged>): seq<Model.Attempt> {
    seq(|log|, i requires 0 <= i < |log| => log[i].attempt)
  }

  /** The records begun through lane `l`, in order, each with what its `add` came to on the tables it found. */
  function TriesOn(codec: Model.Codec, s0: Store, log: seq<Logged>, l: Lane): seq<Try> {
    if log == [] then []
    else
      var n := |log| - 1;
      TriesOn(codec, s0, log[..n], l) + if log[n].lane == l then [TryAt(codec, s0, log, n)] else []
  }

  function TryAt(codec: Model.Codec, s0: Store, log: seq<Logged>, n: nat): Try
    requires n < |log|
  {
    var a := log[n].attempt;
    Try(a.job, Model.Add(codec, Model.Replay(codec, s0, AllAttempts(log[..n])), a).threw)
  }

  ghost predicate WholeInv(cfg: Config, codec: Model.Codec, s0: Store, w: Whole) {
    && Inv(cfg, w.sys)
    && w.store == Model.Replay(codec, s0, AllAttempts(w.log))
    && forall l: Lane :: TriesOn(codec, s0, w.log, l) == w.sys.At(l).attempts
  }

  lemma AttemptsGrow(cfg: Config, s: System, ev: Label, t: System, l: Lane)
    requires Step(cfg, s, ev) == Some(t)
    ensures t.At(l).attempts ==
            s.At(l).attempts + if IsAttempt(ev) && ev.l == l then [Try(NextJob(cfg, s, l), ev.move.threw)] else []
  {
    if ev.OfProducer? {
      ProducerFrame(cfg, s, ev.p, ev.act, t, l);
    } else if ev.OfLane? && ev.l == l {
      OwnFrame(cfg, s, ev, t);
    } else {
      OtherFrame(cfg, s, ev, t, l);
    }
  }

  lemma LogSnoc(codec: Model.Codec, s0: Store, log: seq<Logged>, x: Logged, l: Lane, threw: bool)
    requires threw == Model.Add(codec, Model.Replay(codec, s0, AllAttempts(log)), x.attempt).threw
    ensures AllAttempts(log + [x]) == AllAttempts(log) + [x.attempt]
    ensures TriesOn(codec, s0, log + [x], l)
            == TriesOn(codec, s0, log, l) + if x.lane == l then [Try(x.attempt.job, threw)] else []
  {
    assert (log + [x])[..|log|] == log;
  }

  lemma ReplaySnoc(codec: Model.Codec, s0: Store, log: seq<Model.Attempt>, a: Model.Attempt)
    ensures Model.Replay(codec, s0, log + [a])
            == ApplyAll(Model.Replay(codec, s0, log), Model.Add(codec, Model.Replay(codec, s0, log), a).stmts)
  {
    assert (log + [a])[..|log|] == log;
  }

  lemma WholeKept(cfg: Config, codec: Model.Codec, s0: Store, w: Whole, m: Move, v: Whole)
    requires WholeInv(cfg, codec, s0, w) && WholeStep(cfg, codec, w, m) == Some(v)
    ensures WholeInv(cfg, codec, s0, v)
  {
    InvKept(cfg, w.sys, m.ev, v.sys);
    forall l: Lane ensures TriesOn(codec, s0, v.log, l) == v.sys.At(l).attempts {
      AttemptsGrow(cfg, w.sys, m.ev, v.sys, l);
      if IsAttempt(m.ev) { LogSnoc(codec, s0, w.log, v.log[|w.log|], l, m.ev.move.threw); }
    }
    if IsAttempt(m.ev) {
      var x := v.log[|w.log|];
      LogSnoc(codec, s0, w.log, x, Blocks, m.ev.move.threw);
      ReplaySnoc(codec, s0, AllAttempts(w.log), x.attempt);
    }
  }

  lemma SystemSteps(cfg: Config, codec: Model.Codec, w: Whole, m: Move, v: Whole)
    requires WholeStep(cfg, codec, w, m) == Some(v)
    ensures Step(cfg, w.sys, m.ev) == Some(v.sys)
  {
  }

  lemma {:induction false} WholeRun(cfg: Config, codec: Model.Codec, s0: Store, w: Whole, run: seq<Move>, v: Whole)
      returns (labels: seq<Label>)
    requires WholeInv(cfg, codec, s0, w) && WholeReaches(cfg, codec, w, run, v)
    ensures WholeInv(cfg, codec, s0, v) && Reaches(cfg, w.sys, labels, v.sys)
    ensures |labels| == |run| && forall i :: 0 <= i < |run| ==> labels[i] == run[i].ev
    decreases |run|
  {
    hide WholeInv, WholeStep, Step;
    if run == [] {
      labels := [];
    } else {
      var u := WholeStep(cfg, codec, w, run[0]).value;
      WholeKept(cfg, codec, s0, w, run[0], u);
      SystemSteps(cfg, codec, w, run[0], u);
      var rest := WholeRun(cfg, codec, s0, u, run[1..], v);
      labels := [run[0].ev] + rest;
      assert labels[1..] == rest;
    }
  }

  lemma WholeStart(cfg: Config, codec: Model.Codec, s0: Store, n: nat)
    ensures WholeInv(cfg, codec, s0, Whole(Init(n), s0, []))
  {
    ReachableIsSafe(cfg, n, [], Init(n));
    assert AllAttempts([]) == [];
  }

  /** In every reachable state of producers, consumers and database: the tables are the replay of the
      recorded actions; and through each lane the records begun are, in consumption order, those of the
      consumed entries, whole unless an entry was cut short, and a prefix for the one in progress. The `add`s
      that threw are exactly those that ended an entry. */
  lemma TablesFollowSignals(cfg: Config, codec: Model.Codec, s0: Store, n: nat, run: seq<Move>, w: Whole, l: Lane)
    requires WholeReaches(cfg, codec, Whole(Init(n), s0, []), run, w)
    ensures w.store == Model.Replay(codec, s0, AllAttempts(w.log))
    ensures TriesOn(codec, s0, w.log, l)
            == Begun(cfg.filter, w.sys.At(l).done) + InProgress(cfg.filter, w.sys.At(l))
    ensures forall d :: d in w.sys.At(l).done ==> Accounted(cfg.filter, d)
    ensures w.sys.At(l).pushed == Items(w.sys.At(l).done) + w.sys.At(l).process + w.sys.At(l).queue
  {
    WholeStart(cfg, codec, s0, n);
    var labels := WholeRun(cfg, codec, s0, Whole(Init(n), s0, []), run, w);
    assert LaneInv(cfg, w.sys, l);
  }

  /** Where the records of consumed entry `i` start among those begun through its lane. */
  function StartOf(filter: Filter, done: seq<Done>, i: nat): nat
    requires i <= |done|
  {
    |Begun(filter, done[..i])|
  }

  lemma {:induction false} BegunSlice(filter: Filter, done: seq<Done>, i: nat)
    requires i < |done| && Accounted(filter, done[i])
    ensures var at := StartOf(filter, done, i);
            && at + done[i].made <= |Begun(filter, done)|
            && Begun(filter, done)[at..at + done[i].made]
               == FirstTries(filter, done[i].item.entry, done[i].made, Some(done[i].end))
  {
    hide Begun, Jobs;
    var n := |done| - 1;
    var pre, d := done[..n], done[n];
    assert done == pre + [d];
    BegunSnoc(filter, pre, d);
    if i < n {
      BegunSlice(filter, pre, i);
      assert pre[..i] == done[..i];
    }
  }

  /** What the attempts of a consumed trace say about its end: they are its records in order; if it finished
      they are all there and none threw; if it did not, there are none, because its session could not be had,
      or the last one threw and no other. */
  predicate Explained(jobs: seq<Job>, d: Done, own: seq<Try>) {
    && |own| == d.made <= |jobs|
    && (d.end.Finished? ==> d.made == |jobs|)
    && (d.end.Aborted? ==> d.made == 0)
    && (d.end.Thrown? ==> d.made > 0)
    && (forall j :: 0 <= j < |own| ==> own[j] == Try(jobs[j], d.end.Thrown? && j == d.made - 1))
  }

  lemma AccountedIsExplained(filter: Filter, d: Done)
    requires Accounted(filter, d) && d.item.entry.TraceEntry?
    ensures Explained(Jobs(filter, d.item.entry), d, FirstTries(filter, d.item.entry, d.made, Some(d.end)))
  {
    hide Jobs;
  }

  /** Every consumed trace is explained by its attempts in the log. */
  lemma CutTraceHasCause(cfg: Config, codec: Model.Codec, s0: Store, n: nat, run: seq<Move>, w: Whole, l: Lane, i: nat)
    requires WholeReaches(cfg, codec, Whole(Init(n), s0, []), run, w)
    requires i < |w.sys.At(l).done| && w.sys.At(l).done[i].item.entry.TraceEntry?
    ensures var d, tries := w.sys.At(l).done[i], TriesOn(codec, s0, w.log, l);
            var at := StartOf(cfg.filter, w.sys.At(l).done, i);
            at + d.made <= |tries| && Explained(Jobs(cfg.filter, d.item.entry), d, tries[at..at + d.made])
  {
    hide WholeReaches, Begun, Jobs, TriesOn, Accounted, Explained, FirstTries;
    TablesFollowSignals(cfg, codec, s0, n, run, w, l);
    var done := w.sys.At(l).done;
    assert done[i] in done;
    BegunSlice(cfg.filter, done, i);
    AccountedIsExplained(cfg.filter, done[i]);
    var at, d, begun := StartOf(cfg.filter, done, i), done[i], Begun(cfg.filter, done);
    var tries := TriesOn(codec, s0, w.log, l);
    assert tries[at..at + d.made] == begun[at..at + d.made];
  }

  /** The records begun, whatever the lane. */
  function AllTries(codec: Model.Codec, s0: Store, log: seq<Logged>): seq<Try> {
    if log == [] then [] else AllTries(codec, s0, log[..|log| - 1]) + [TryAt(codec, s0, log, |log| - 1)]
  }

  lemma {:induction false} OneLaneOnly(codec: Model.Codec, s0: Store, log: seq<Logged>)
    requires TriesOn(codec, s0, log, Blocks) == []
    ensures TriesOn(codec, s0, log, Trxs) == AllTries(codec, s0, log)
  {
    if log != [] {
      OneLaneOnly(codec, s0, log[..|log| - 1]);
    }
  }

  lemma IdleLaneBegunNothing(filter: Filter, ls: LaneState)
    requires Items(ls.done) + ls.process == []
    ensures Begun(filter, ls.done) + InProgress(filter, ls) == []
  {
    assert |Items(ls.done)| == |ls.done|;
  }

  /** The plugin as shipped: one signalling thread, trace signals only. What has been consumed is a prefix
      of the traces that pass the start-block and lone-onblock gates, each recorded whole unless it was cut
      short, and every keyed table answers as a last-writer query over the actions recorded for them. */
  lemma ShippedPlugin(cfg: Config, codec: Model.Codec, s0: Store, run: seq<Move>, w: Whole, q: Query)
    requires ValidStore(s0)
    requires WholeReaches(cfg, codec, Whole(Init(1), s0, []), run, w)
    requires forall x :: x in w.sys.signals ==> x.source == 0 && x.entry.TraceEntry?
    ensures AllCalls(cfg, w.sys.signals, Trxs)
            == Items(w.sys.trxs.done) + w.sys.trxs.process + w.sys.trxs.queue + InFlight(PcOf(w.sys, 0), 0, Trxs)
    ensures AllTries(codec, s0, w.log) == Begun(cfg.filter, w.sys.trxs.done) + InProgress(cfg.filter, w.sys.trxs)
    ensures forall d :: d in w.sys.trxs.done ==> Accounted(cfg.filter, d)
    ensures w.store == Model.Replay(codec, s0, AllAttempts(w.log))
    ensures var stmts := Model.DirectStmts(codec, s0, AllAttempts(w.log));
            && (forall i: nat :: LastWrite(stmts, i, q) ==> Some(Ask(w.store, q)) == Dictates(stmts[i], q))
            && (Untouched(stmts, q) ==> Ask(w.store, q) == Ask(s0, q))
  {
    hide WholeReaches, Reaches, Step, Begun, InProgress, AllCalls, TriesOn, AllTries, Accounted;
    hide Model.DirectStmts, Model.Replay, LastWrite, Untouched, Dictates, Ask;
    WholeStart(cfg, codec, s0, 1);
    var labels := WholeRun(cfg, codec, s0, Whole(Init(1), s0, []), run, w);
    ProducersStay(cfg, Init(1), labels, w.sys);
    ConsumedIsSignalPrefix(cfg, 1, labels, w.sys, Trxs, 0);
    ConsumedIsSignalPrefix(cfg, 1, labels, w.sys, Blocks, 0);
    NoBlockCalls(cfg, w.sys.signals);
    TablesFollowSignals(cfg, codec, s0, 1, run, w, Trxs);
    TablesFollowSignals(cfg, codec, s0, 1, run, w, Blocks);
    IdleLaneBegunNothing(cfg.filter, w.sys.blocks);
    OneLaneOnly(codec, s0, w.log);
    Model.TablesAreDirectQuery(codec, s0, AllAttempts(w.log), q);
  }

  lemma {:induction false} NoBlockCalls(cfg: Config, signals: seq<Item>)
    requires forall x :: x in signals ==> x.entry.TraceEntry?
    ensures AllCalls(cfg, signals, Blocks) == []
  {
    if signals != [] {
      NoBlockCalls(cfg, signals[..|signals| - 1]);
    }
  }

  lemma {:induction false} ProducersStay(cfg: Config, s: System, run: seq<Label>, t: System)
    requires Reaches(cfg, s, run, t)
    ensures |t.producers| == |s.producers|
    decreases |run|
  {
    if run != [] {
      var u := Step(cfg, s, run[0]).value;
      if run[0].OfProducer? {
        ProducerFrame(cfg, s, run[0].p, run[0].act, u, Blocks);
      }
      ProducersStay(cfg, u, run[1..], t);
    }
  }

  // ---------------------------------------------------------------------------------------------
  // The composed system at rest
  // ---------------------------------------------------------------------------------------------

  /** Short of a settled state some thread can move, whatever its `add` comes to. */
  lemma SomeoneMovesWhole(cfg: Config, codec: Model.Codec, w: Whole) returns (m: Move)
    requires Inv(cfg, w.sys) && !Settled(w.sys)
    ensures Internal(m.ev) && WholeStep(cfg, codec, w, m).Some?
  {
    hide Model.Add, Inv, Settled;
    var ev := SomeoneMoves(cfg, w.sys);
    m := Move(ev, Model.Outcomes(true, true, true, true, true, 0));
    if IsAttempt(ev) {
      var r := Model.Add(codec, w.store, Model.Attempt(NextJob(cfg, w.sys, ev.l), m.outcomes));
      m := m.(ev := OfLane(ev.l, Attempt(r.threw)));
    }
  }

  predicate InternalMoves(run: seq<Move>) {
    forall i :: 0 <= i < |run| ==> Internal(run[i].ev)
  }

  /** From any reachable state of the composed system every schedule without new signals is bounded, and it can
      only stop when everything pushed has been delivered to the tables. */
  lemma WholeSchedulesDeliver(cfg: Config, codec: Model.Codec, s0: Store, n: nat, run: seq<Move>, w: Whole,
                              tail: seq<Move>, v: Whole)
    requires WholeReaches(cfg, codec, Whole(Init(n), s0, []), run, w)
    requires InternalMoves(tail) && WholeReaches(cfg, codec, w, tail, v)
    ensures |tail| <= Measure(cfg, w.sys)
    ensures v.store == Model.Replay(codec, s0, AllAttempts(v.log))
    ensures (exists m: Move :: Internal(m.ev) && WholeStep(cfg, codec, v, m).Some?)
            || forall l: Lane :: Delivered(cfg, v.sys, l)
                                 && TriesOn(codec, s0, v.log, l) == Begun(cfg.filter, v.sys.At(l).done)
  {
    hide WholeReaches, Reaches, Measure, LaneInv, Internal, WholeStep;
    WholeStart(cfg, codec, s0, n);
    var labels := WholeRun(cfg, codec, s0, Whole(Init(n), s0, []), run, w);
    var moves := WholeRun(cfg, codec, s0, w, tail, v);
    assert AllInternal(moves);
    RunsAreBounded(cfg, w.sys, moves, v.sys);
    MeasureIsNatural(cfg, v.sys);
    if Settled(v.sys) {
      forall l: Lane ensures Delivered(cfg, v.sys, l) { SettledIsDelivered(cfg, v.sys, l); }
    } else {
      var m := SomeoneMovesWhole(cfg, codec, v);
    }
  }

  lemma QuietLane(cfg: Config, s: System, l: Lane)
    requires LaneInv(cfg, s, l) && Settled(s) && !s.exit
    ensures s.At(l).process == [] && s.At(l).queue == [] && InProgress(cfg.filter, s.At(l)) == []
  {
    assert s.At(l).pc.Asleep? || s.At(l).pc.Ended?;
  }

  /** The shipped plugin at rest: once no thread can move, if no consumed trace was cut short, the records
      begun are exactly all records of the traces that passed the gates, in signal order. */
  lemma ShippedPluginAtRest(cfg: Config, codec: Model.Codec, s0: Store, run: seq<Move>, w: Whole)
    requires ValidStore(s0)
    requires WholeReaches(cfg, codec, Whole(Init(1), s0, []), run, w)
    requires forall x :: x in w.sys.signals ==> x.source == 0 && x.entry.TraceEntry?
    requires Settled(w.sys) && !w.sys.exit
    requires forall d :: d in w.sys.trxs.done ==> d.end.Finished?
    ensures JobsOf(AllTries(codec, s0, w.log)) == AllJobs(cfg.filter, AllCalls(cfg, w.sys.signals, Trxs))
    ensures w.store == Model.Replay(codec, s0, AllAttempts(w.log))
  {
    hide WholeReaches, Reaches, AllTries, JobsOf, AllJobs, AllCalls, Begun, InProgress, Jobs, LaneInv, Accounted;
    hide Model.DirectStmts, Model.Replay, LastWrite, Untouched, Dictates, Ask, Settled;
    WholeStart(cfg, codec, s0, 1);
    var labels := WholeRun(cfg, codec, s0, Whole(Init(1), s0, []), run, w);
    ShippedPlugin(cfg, codec, s0, run, w, VoteOf(""));
    QuietLane(cfg, w.sys, Trxs);
    IdleCarriesNothing(w.sys, 0, Trxs);
    var done := w.sys.trxs.done;
    assert Items(done) + [] + [] + [] == Items(done);
    assert Begun(cfg.filter, done) + [] == Begun(cfg.filter, done);
    FinishedIsWhole(cfg.filter, done);
  }

  lemma IdleCarriesNothing(s: System, p: nat, l: Lane)
    requires Settled(s)
    ensures InFlight(PcOf(s, p), p, l) == []
  {
  }
}
